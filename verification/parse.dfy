/** The record-level logic of scripts/parse.py: the arXiv year, the
    affiliation-to-country keyword rule, the de-duplication filter of
    `save_jsonl`, and the abstract and country that `search_openalex` derives
    from an OpenAlex work. The HTTP requests, the regular-expression scraping
    of the arXiv feed and the file writing are not modelled. */
module Parse {
  import opened Text

  // ---------------------------------------------------------------------
  // extract_arxiv_year

  function DigitValue(c: char): nat
    requires IsDigit(c)
  {
    c as int - '0' as int
  }

  predicate AllDigits(s: string) {
    forall i :: 0 <= i < |s| ==> IsDigit(s[i])
  }

  function Pow10(n: nat): nat {
    if n == 0 then 1 else 10 * Pow10(n - 1)
  }

  /** The value of a string of decimal digits, most significant first. */
  function DigitsValue(s: string): (v: nat)
    requires AllDigits(s)
    ensures v < Pow10(|s|)
  {
    if s == [] then 0 else DigitsValue(s[..|s| - 1]) * 10 + DigitValue(s[|s| - 1])
  }

  /** Digits with single underscores between them: the body `int()` accepts. */
  predicate DigitGroups(b: string) {
    && b != [] && IsDigit(b[0]) && IsDigit(b[|b| - 1])
    && (forall i :: 0 <= i < |b| ==> IsDigit(b[i]) || b[i] == '_')
    && (forall i :: 0 <= i < |b| - 1 ==> b[i] == '_' ==> b[i + 1] != '_')
  }

  function DropUnderscores(b: string): (r: string)
    ensures (forall i :: 0 <= i < |b| ==> IsDigit(b[i]) || b[i] == '_') ==> AllDigits(r)
    ensures AllDigits(b) ==> r == b
  {
    if b == [] then [] else (if b[0] == '_' then [] else [b[0]]) + DropUnderscores(b[1..])
  }

  /** The sign and the digits of a stripped numeral. */
  function NumeralBody(t: string): string {
    if t != [] && (t[0] == '+' || t[0] == '-') then t[1..] else t
  }

  /** Python's `int(s)` on a string: optional surrounding whitespace, an
      optional sign, then digit groups; None where Python raises ValueError. */
  function ParseInt(s: string): Option<int> {
    var t := Strip(s);
    var body := NumeralBody(t);
    if DigitGroups(body) then
      var v: int := DigitsValue(DropUnderscores(body));
      Some(if t[0] == '-' then -v else v)
    else None
  }

  /** A plain run of digits parses to its value. */
  lemma ParseIntDigits(s: string)
    requires s != [] && AllDigits(s)
    ensures ParseInt(s) == Some(DigitsValue(s))
  {
    StripUnspaced(s);
    assert NumeralBody(s) == s;
    assert DigitGroups(s);
  }

  /** `int()` fails on any character that is not whitespace, a sign, a digit
      or an underscore. */
  lemma ParseIntRejects(s: string, i: nat)
    requires i < |s| && !IsSpace(s[i]) && !IsDigit(s[i]) && s[i] != '+' && s[i] != '-' && s[i] != '_'
    ensures ParseInt(s) == None
  {
    var l := StripLeft(s);
    var t := Strip(s);
    var a := |s| - |l|;
    StripOccurs(s);
    assert a <= i;
    assert i - a < |t|;
    assert t[i - a] == s[i];
    var body := NumeralBody(t);
    if t != [] && (t[0] == '+' || t[0] == '-') {
      assert body[i - a - 1] == s[i];
    } else {
      assert body[i - a] == s[i];
    }
  }

  /** `extract_arxiv_year`: `int()` of the first four characters. */
  function ExtractArxivYear(publishedDate: string): Option<int> {
    ParseInt(Take(publishedDate, 4))
  }

  /** A date that starts with four digits gives their value, a number
      below 10000. */
  lemma ArxivYearOfDate(publishedDate: string)
    requires |publishedDate| >= 4 && AllDigits(publishedDate[..4])
    ensures ExtractArxivYear(publishedDate) == Some(DigitsValue(publishedDate[..4]))
    ensures 0 <= DigitsValue(publishedDate[..4]) < 10000
  {
    var y := publishedDate[..4];
    assert Take(publishedDate, 4) == y;
    ParseIntDigits(y);
    assert Pow10(2) == 100;
    assert Pow10(4) == 10000;
  }

  /** A letter (or any other foreign character) in the first four characters
      gives None. */
  lemma ArxivYearRejects(publishedDate: string, i: nat)
    requires i < 4 && i < |publishedDate|
    requires var c := publishedDate[i]; !IsSpace(c) && !IsDigit(c) && c != '+' && c != '-' && c != '_'
    ensures ExtractArxivYear(publishedDate) == None
  {
    ParseIntRejects(Take(publishedDate, 4), i);
  }

  /** The empty date has no year. */
  lemma ArxivYearOfEmpty()
    ensures ExtractArxivYear("") == None
  {
    assert Strip("") == "";
  }

  // ---------------------------------------------------------------------
  // extract_country_from_affiliation

  /** The country table, in its order of iteration. */
  const CountryKeywords: seq<(string, seq<string>)> := [
    ("USA", ["united states", "usa", "u.s.", "america"]),
    ("China", ["china", "beijing", "shanghai"]),
    ("Japan", ["japan", "tokyo", "osaka"]),
    ("Germany", ["germany", "berlin", "munich"]),
    ("Russia", ["russia", "moscow", "saint petersburg"]),
    ("India", ["india", "delhi", "mumbai"]),
    ("South Korea", ["south korea", "korea", "seoul"]),
    ("UK", ["united kingdom", "uk", "england", "london"]),
    ("Sweden", ["sweden", "stockholm"]),
    ("Finland", ["finland", "helsinki"]),
    ("Austria", ["austria", "vienna"]),
    ("Canada", ["canada", "toronto", "vancouver"]),
    ("Australia", ["australia", "sydney", "melbourne"]),
    ("Brazil", ["brazil", "sao paulo", "rio de janeiro"])
  ]

  /** `pat in s` */
  predicate Contains(s: string, pat: string) {
    Find(s, pat) != -1
  }

  /** Some keyword of table entry `c` is a substring of `s`. */
  predicate Matches(s: string, c: nat)
    requires c < |CountryKeywords|
  {
    exists k :: 0 <= k < |CountryKeywords[c].1| && Contains(s, CountryKeywords[c].1[k])
  }

  /** The first country from entry `c` on whose keywords occur in `s`, or "Other". */
  function FirstCountryFrom(s: string, c: nat): string
    requires c <= |CountryKeywords|
    decreases |CountryKeywords| - c
  {
    if c == |CountryKeywords| then "Other"
    else if Matches(s, c) then CountryKeywords[c].0
    else FirstCountryFrom(s, c + 1)
  }

  /** What `extract_country_from_affiliation` returns; None stands for a
      missing affiliation. */
  function CountryOf(affiliation: Option<string>): string {
    if affiliation.None? || affiliation.value == "" then "Unknown"
    else FirstCountryFrom(Lower(affiliation.value), 0)
  }

  /** The keyword search with its early return. */
  method ExtractCountryFromAffiliation(affiliation: Option<string>) returns (country: string)
    ensures country == CountryOf(affiliation)
  {
    if affiliation.None? || affiliation.value == "" {
      return "Unknown";
    }
    var affiliationLower := Lower(affiliation.value);
    var c := 0;
    while c < |CountryKeywords|
      invariant c <= |CountryKeywords|
      invariant FirstCountryFrom(affiliationLower, 0) == FirstCountryFrom(affiliationLower, c)
    {
      if Matches(affiliationLower, c) {
        return CountryKeywords[c].0;
      }
      c := c + 1;
    }
    return "Other";
  }

  /** Country `c` is the first entry of the table whose keywords occur in `s`. */
  predicate FirstMatch(s: string, c: int) {
    0 <= c < |CountryKeywords| && Matches(s, c) && forall d :: 0 <= d < c ==> !Matches(s, d)
  }

  /** The search from entry `c` on gives the first matching country at or
      after `c`, or "Other" when none matches. */
  lemma {:induction false} FirstCountryFromSpec(s: string, c: nat)
    requires c <= |CountryKeywords|
    requires forall d :: 0 <= d < c ==> !Matches(s, d)
    ensures var r := FirstCountryFrom(s, c);
      || (r == "Other" && forall d :: 0 <= d < |CountryKeywords| ==> !Matches(s, d))
      || (exists d :: FirstMatch(s, d) && r == CountryKeywords[d].0)
    decreases |CountryKeywords| - c
  {
    if c < |CountryKeywords| {
      if Matches(s, c) {
        assert FirstMatch(s, c);
      } else {
        FirstCountryFromSpec(s, c + 1);
      }
    }
  }

  /** Empty or missing affiliations give "Unknown"; otherwise the result is
      the first country in table order with a keyword in the lower-cased
      affiliation, or "Other" when there is none. */
  lemma CountryOfSpec(affiliation: Option<string>)
    ensures affiliation.None? || affiliation.value == "" ==> CountryOf(affiliation) == "Unknown"
    ensures affiliation.Some? && affiliation.value != "" ==>
      var s := Lower(affiliation.value);
      || (CountryOf(affiliation) == "Other" && forall d :: 0 <= d < |CountryKeywords| ==> !Matches(s, d))
      || (exists d :: FirstMatch(s, d) && CountryOf(affiliation) == CountryKeywords[d].0)
  {
    if affiliation.Some? && affiliation.value != "" {
      FirstCountryFromSpec(Lower(affiliation.value), 0);
    }
  }

  /** The result is always a table country, "Unknown" or "Other". */
  lemma CountryOfIsLabel(affiliation: Option<string>)
    ensures var r := CountryOf(affiliation);
      r == "Unknown" || r == "Other" || exists d :: 0 <= d < |CountryKeywords| && r == CountryKeywords[d].0
  {
    CountryOfSpec(affiliation);
  }

  /** Keywords match inside words: "usa" occurs in "jerusalem", so an
      affiliation in Jerusalem reads as USA. */
  lemma JerusalemReadsAsUsa()
    ensures CountryOf(Some("Jerusalem")) == "USA"
  {
    var s := Lower("Jerusalem");
    assert s == "jerusalem";
    assert s[3] == 'u' && s[4] == 's' && s[5] == 'a';
    assert s[3..6] == "usa";
    assert Contains(s, CountryKeywords[0].1[1]);
    assert Matches(s, 0);
  }

  // ---------------------------------------------------------------------
  // save_jsonl de-duplication

  /** An article as the scrapers build it; the fields the filter ignores
      ride along. */
  datatype Scraped = Scraped(
    title: Option<string>, abstractText: Option<string>, source: string,
    pdfUrl: string, year: Option<int>, country: string, authors: seq<string>)

  /** Both the title and the abstract are present and non-empty. */
  predicate HasText(a: Scraped) {
    a.title.Some? && a.title.value != "" && a.abstractText.Some? && a.abstractText.value != ""
  }

  /** The de-duplication key of an article with text: the lower-cased
      stripped title, a colon, and the lower-cased stripped first 100
      characters of the abstract. None for an article the filter drops. */
  function ArticleKey(a: Scraped): (k: Option<string>)
    ensures k.Some? <==> HasText(a)
  {
    if HasText(a) then
      Some(Strip(Lower(a.title.value)) + ":" + Strip(Lower(Take(a.abstractText.value, 100))))
    else None
  }

  /** The filter below is stated for any key function; None means "drop". */
  type KeyFn = Scraped -> Option<string>

  /** Article `i` has a key and no earlier article has the same key. */
  predicate FirstOfKey(key: KeyFn, arts: seq<Scraped>, i: nat)
    requires i < |arts|
  {
    key(arts[i]).Some? && forall j :: 0 <= j < i ==> key(arts[j]) != key(arts[i])
  }

  /** The first article of every key, in input order. */
  function Unique(key: KeyFn, arts: seq<Scraped>): seq<Scraped>
    decreases |arts|
  {
    if arts == [] then []
    else Unique(key, arts[..|arts| - 1]) + (if FirstOfKey(key, arts, |arts| - 1) then [arts[|arts| - 1]] else [])
  }

  /** The keys of the articles that have one. */
  function KeysOf(key: KeyFn, arts: seq<Scraped>): set<string> {
    set j | 0 <= j < |arts| && key(arts[j]).Some? :: key(arts[j]).value
  }

  /** The filter loop of `save_jsonl` with its `seen` set. The set starts
      empty on every call, so an article saved by two calls is written twice:
      nothing is shared between them. */
  method Dedup(articles: seq<Scraped>) returns (unique: seq<Scraped>)
    ensures unique == Unique(ArticleKey, articles)
  {
    var seen: set<string> := {};
    unique := [];
    var n := 0;
    while n < |articles|
      invariant n <= |articles|
      invariant unique == Unique(ArticleKey, articles[..n])
      invariant seen == KeysOf(ArticleKey, articles[..n])
    {
      var art := articles[n];
      assert articles[..n + 1] == articles[..n] + [art];
      assert articles[..n + 1][..n] == articles[..n];
      KeysOfSnoc(ArticleKey, articles[..n], art);
      if HasText(art) {
        var key := Strip(Lower(art.title.value)) + ":" + Strip(Lower(Take(art.abstractText.value, 100)));
        assert ArticleKey(art) == Some(key);
        FirstOfKeyIffUnseen(ArticleKey, articles, n);
        if key !in seen {
          seen := seen + {key};
          unique := unique + [art];
        } else {
          AddPresent(seen, key);
        }
      }
      n := n + 1;
    }
    assert articles[..n] == articles;
  }

  lemma AddPresent(s: set<string>, k: string)
    requires k in s
    ensures s + {k} == s
  {
  }

  /** Article `n` is the first of its key exactly when its key is not yet
      among the keys before it. */
  lemma FirstOfKeyIffUnseen(key: KeyFn, arts: seq<Scraped>, n: nat)
    requires n < |arts| && key(arts[n]).Some?
    ensures FirstOfKey(key, arts[..n + 1], n) <==> key(arts[n]).value !in KeysOf(key, arts[..n])
  {
    var p := arts[..n];
    var q := arts[..n + 1];
    assert q[n] == arts[n];
    if key(arts[n]).value in KeysOf(key, p) {
      var j :| 0 <= j < |p| && key(p[j]).Some? && key(p[j]).value == key(arts[n]).value;
      assert q[j] == p[j];
      assert !FirstOfKey(key, q, n);
    } else {
      forall j | 0 <= j < n
        ensures key(q[j]) != key(q[n])
      {
        assert q[j] == p[j];
        if key(p[j]).Some? {
          assert key(p[j]).value in KeysOf(key, p);
        }
      }
    }
  }

  lemma KeysOfSnoc(key: KeyFn, u: seq<Scraped>, x: Scraped)
    ensures KeysOf(key, u + [x]) == KeysOf(key, u) + (if key(x).Some? then {key(x).value} else {})
  {
    var v := u + [x];
    forall k | k in KeysOf(key, v)
      ensures k in KeysOf(key, u) + (if key(x).Some? then {key(x).value} else {})
    {
      var j :| 0 <= j < |v| && key(v[j]).Some? && key(v[j]).value == k;
      if j < |u| {
        assert v[j] == u[j];
      }
    }
    forall k | k in KeysOf(key, u)
      ensures k in KeysOf(key, v)
    {
      var j :| 0 <= j < |u| && key(u[j]).Some? && key(u[j]).value == k;
      assert v[j] == u[j];
    }
    if key(x).Some? {
      assert v[|u|] == x;
    }
  }

  /** Every article has a key and no two have the same key. */
  predicate DistinctKeys(key: KeyFn, u: seq<Scraped>) {
    && (forall k :: 0 <= k < |u| ==> key(u[k]).Some?)
    && (forall i, j :: 0 <= i < j < |u| ==> key(u[i]) != key(u[j]))
  }

  /** Appending an article with a new key keeps the keys distinct. */
  lemma DistinctSnoc(key: KeyFn, u: seq<Scraped>, x: Scraped)
    requires DistinctKeys(key, u) && key(x).Some? && key(x).value !in KeysOf(key, u)
    ensures DistinctKeys(key, u + [x])
  {
    var v := u + [x];
    forall i | 0 <= i < |u|
      ensures v[i] == u[i] && key(u[i]).value in KeysOf(key, u)
    {
    }
  }

  /** The filter keeps exactly one article of every key: every article it
      keeps has a key, no key is kept twice, and the keys kept are the keys
      read. */
  lemma {:induction false} UniqueKeys(key: KeyFn, arts: seq<Scraped>)
    ensures DistinctKeys(key, Unique(key, arts))
    ensures KeysOf(key, Unique(key, arts)) == KeysOf(key, arts)
    decreases |arts|
  {
    if arts != [] {
      var n := |arts| - 1;
      var p := arts[..n];
      var x := arts[n];
      var u := Unique(key, p);
      UniqueKeys(key, p);
      assert arts == p + [x];
      assert arts[..n + 1] == arts;
      KeysOfSnoc(key, p, x);
      if key(x).Some? {
        FirstOfKeyIffUnseen(key, arts, n);
        if FirstOfKey(key, arts, n) {
          KeysOfSnoc(key, u, x);
          DistinctSnoc(key, u, x);
        } else {
          assert !FirstOfKey(key, arts[..n + 1], n);
          assert Unique(key, arts) == u;
          AddPresent(KeysOf(key, p), key(x).value);
        }
      } else {
        assert Unique(key, arts) == u;
      }
    }
  }

  /** What `save_jsonl` writes: only articles with a title and an abstract,
      never two with the same key, and one for every key it read. */
  lemma DedupSpec(arts: seq<Scraped>)
    ensures var u := Unique(ArticleKey, arts);
      && (forall k :: 0 <= k < |u| ==> HasText(u[k]))
      && (forall i, j :: 0 <= i < j < |u| ==> ArticleKey(u[i]) != ArticleKey(u[j]))
      && KeysOf(ArticleKey, u) == KeysOf(ArticleKey, arts)
  {
    UniqueKeys(ArticleKey, arts);
  }

  /** `x` is input article `i` for some `i` that is the first of its key. */
  predicate KeptFromFirst(key: KeyFn, arts: seq<Scraped>, x: Scraped) {
    exists i :: 0 <= i < |arts| && FirstOfKey(key, arts, i) && x == arts[i]
  }

  /** Every kept article is an input article that is the first of its key. */
  lemma {:induction false} UniqueKeepsFirsts(key: KeyFn, arts: seq<Scraped>)
    ensures forall k :: 0 <= k < |Unique(key, arts)| ==> KeptFromFirst(key, arts, Unique(key, arts)[k])
    decreases |arts|
  {
    if arts != [] {
      var n := |arts| - 1;
      var p := arts[..n];
      var up := Unique(key, p);
      UniqueKeepsFirsts(key, p);
      var u := Unique(key, arts);
      assert u == up + (if FirstOfKey(key, arts, n) then [arts[n]] else []);
      forall k | 0 <= k < |u|
        ensures KeptFromFirst(key, arts, u[k])
      {
        if k < |up| {
          assert KeptFromFirst(key, p, up[k]);
          var i :| 0 <= i < |p| && FirstOfKey(key, p, i) && up[k] == p[i];
          assert u[k] == up[k];
          assert p[i] == arts[i];
          assert forall j :: 0 <= j < i ==> p[j] == arts[j];
          assert FirstOfKey(key, arts, i);
        } else {
          assert FirstOfKey(key, arts, n) && u[k] == arts[n];
        }
      }
    }
  }

  /** `u` is the input articles at the increasing positions `idx`, and those
      positions are exactly the ones that are the first of their key. */
  predicate FirstsInOrder(key: KeyFn, arts: seq<Scraped>, u: seq<Scraped>, idx: seq<nat>) {
    && |idx| == |u|
    && (forall k :: 0 <= k < |idx| ==> idx[k] < |arts| && FirstOfKey(key, arts, idx[k]) && u[k] == arts[idx[k]])
    && (forall k, l :: 0 <= k < l < |idx| ==> idx[k] < idx[l])
    && (forall i :: 0 <= i < |arts| && FirstOfKey(key, arts, i) ==> i in idx)
  }

  /** Whether article `i` is the first of its key depends only on the
      articles up to `i`. */
  lemma FirstOfKeyPrefix(key: KeyFn, arts: seq<Scraped>, n: nat, i: nat)
    requires i < n <= |arts|
    ensures FirstOfKey(key, arts[..n], i) <==> FirstOfKey(key, arts, i)
  {
    assert forall j :: 0 <= j <= i ==> arts[..n][j] == arts[j];
  }

  /** The kept articles are the firsts of their keys, all of them, in input
      order. */
  lemma {:induction false} UniqueIsFirstsInOrder(key: KeyFn, arts: seq<Scraped>)
    ensures exists idx :: FirstsInOrder(key, arts, Unique(key, arts), idx)
    decreases |arts|
  {
    if arts == [] {
      var none: seq<nat> := [];
      assert FirstsInOrder(key, arts, Unique(key, arts), none);
    } else {
      var n := |arts| - 1;
      UniqueIsFirstsInOrder(key, arts[..n]);
      var ip: seq<nat> :| FirstsInOrder(key, arts[..n], Unique(key, arts[..n]), ip);
      var idx := FirstsSnoc(key, arts, Unique(key, arts[..n]), ip);
      assert FirstsInOrder(key, arts, Unique(key, arts), idx);
    }
  }

  /** One more input article extends the positions by `n` exactly when it is
      the first of its key. */
  lemma FirstsSnoc(key: KeyFn, arts: seq<Scraped>, up: seq<Scraped>, ip: seq<nat>) returns (idx: seq<nat>)
    requires arts != [] && FirstsInOrder(key, arts[..|arts| - 1], up, ip)
    ensures FirstsInOrder(key, arts, up + (if FirstOfKey(key, arts, |arts| - 1) then [arts[|arts| - 1]] else []), idx)
  {
    var n := |arts| - 1;
    forall k | 0 <= k < |ip|
      ensures FirstOfKey(key, arts, ip[k]) && up[k] == arts[ip[k]]
    {
      FirstOfKeyPrefix(key, arts, n, ip[k]);
    }
    forall i | 0 <= i < n && FirstOfKey(key, arts, i)
      ensures i in ip
    {
      FirstOfKeyPrefix(key, arts, n, i);
    }
    if FirstOfKey(key, arts, n) {
      idx := ip + [n];
      var u := up + [arts[n]];
      forall k | 0 <= k < |idx|
        ensures idx[k] < |arts| && FirstOfKey(key, arts, idx[k]) && u[k] == arts[idx[k]]
      {
        if k < |ip| {
          assert idx[k] == ip[k] && u[k] == up[k];
        }
      }
    } else {
      idx := ip;
    }
  }

  // ---------------------------------------------------------------------
  // search_openalex: the abstract from its inverted index

  /** `abstract_inverted_index`: each word with the positions it occupies, in
      the order of the dictionary. An absent or empty index is []. */
  type InvertedIndex = seq<(string, seq<nat>)>

  /** `max(xs)` */
  function MaxOf(xs: seq<nat>): (m: nat)
    requires xs != []
    ensures m in xs && forall k :: 0 <= k < |xs| ==> xs[k] <= m
  {
    if |xs| == 1 then xs[0]
    else
      var r := MaxOf(xs[..|xs| - 1]);
      assert forall k :: 0 <= k < |xs| - 1 ==> xs[..|xs| - 1][k] == xs[k];
      if xs[|xs| - 1] >= r then xs[|xs| - 1] else r
  }

  /** Every word lists at least one position. */
  predicate AllListed(index: InvertedIndex) {
    forall e :: 0 <= e < |index| ==> index[e].1 != []
  }

  /** Position `p` is listed by entry `e`. */
  predicate Lists(index: InvertedIndex, e: nat, p: nat)
    requires e < |index|
  {
    p in index[e].1
  }

  /** The largest position listed anywhere. */
  function MaxPosition(index: InvertedIndex): nat
    requires index != [] && AllListed(index)
  {
    var last := |index| - 1;
    var here := MaxOf(index[last].1);
    if last == 0 then here
    else
      var r := MaxPosition(index[..last]);
      if here >= r then here else r
  }

  /** MaxPosition bounds every listed position and is itself listed. */
  lemma {:induction false} MaxPositionSpec(index: InvertedIndex)
    requires index != [] && AllListed(index)
    ensures forall e, p: nat :: 0 <= e < |index| && Lists(index, e, p) ==> p <= MaxPosition(index)
    ensures exists e :: 0 <= e < |index| && Lists(index, e, MaxPosition(index))
    decreases |index|
  {
    var last := |index| - 1;
    if last > 0 {
      var front := index[..last];
      assert forall e :: 0 <= e < last ==> front[e] == index[e];
      MaxPositionSpec(front);
      var ef :| 0 <= ef < |front| && Lists(front, ef, MaxPosition(front));
      assert Lists(index, ef, MaxPosition(front));
      assert Lists(index, last, MaxOf(index[last].1));
      forall e, p: nat | 0 <= e < |index| && Lists(index, e, p)
        ensures p <= MaxPosition(index)
      {
        if e < last {
          assert Lists(front, e, p);
        }
      }
    } else {
      assert Lists(index, 0, MaxOf(index[0].1));
    }
  }

  /** The word of the last entry that lists position `p`, if any. */
  function Writer(index: InvertedIndex, p: nat): Option<string>
    decreases |index|
  {
    if index == [] then None
    else if p in index[|index| - 1].1 then Some(index[|index| - 1].0)
    else Writer(index[..|index| - 1], p)
  }

  /** The word list: one slot per position up to the largest, holding the
      word of the last entry listing it, or "" when no entry does. */
  function AbstractWords(index: InvertedIndex): (ws: seq<string>)
    requires index != [] && AllListed(index)
    ensures |ws| == MaxPosition(index) + 1
  {
    seq(MaxPosition(index) + 1, p requires 0 <= p => Get(Writer(index, p), ""))
  }

  /** The abstract `search_openalex` builds: "" without an index, the word
      list joined by single spaces otherwise, and None where a word lists no
      position (Python's `max` raises there, and the whole search returns no
      articles). */
  function RebuiltAbstract(index: InvertedIndex): Option<string> {
    if index == [] then Some("")
    else if !AllListed(index) then None
    else Some(Join(AbstractWords(index), " "))
  }

  /** The rebuild of `search_openalex`: find the largest position, fill a
      list of that many empty words, write every word at its positions, and
      join. */
  method RebuildAbstract(index: InvertedIndex) returns (abstractText: Option<string>)
    ensures abstractText == RebuiltAbstract(index)
  {
    if index == [] {
      return Some("");
    }
    var maxPos := 0;
    var e := 0;
    while e < |index|
      invariant e <= |index| && AllListed(index[..e])
      invariant e > 0 ==> maxPos == MaxPosition(index[..e])
    {
      assert index[..e + 1][..e] == index[..e];
      if index[e].1 == [] {
        assert !AllListed(index);
        return None;
      }
      var m := MaxOf(index[e].1);
      if e == 0 || m > maxPos {
        maxPos := m;
      }
      e := e + 1;
    }
    assert index[..e] == index;
    MaxPositionSpec(index);
    var words := new string[maxPos + 1](_ => "");
    e := 0;
    while e < |index|
      invariant e <= |index| && words.Length == maxPos + 1
      invariant forall p :: 0 <= p < words.Length ==> words[p] == Get(Writer(index[..e], p), "")
    {
      forall q | 0 <= q < |index[e].1|
        ensures index[e].1[q] < words.Length
      {
        assert Lists(index, e, index[e].1[q]);
      }
      PlaceWord(words, index[e].0, index[e].1);
      assert index[..e + 1][..e] == index[..e];
      e := e + 1;
    }
    assert index[..e] == index;
    assert words[..] == AbstractWords(index);
    abstractText := Some(Join(words[..], " "));
  }

  /** `for pos in positions: words[pos] = word` */
  method PlaceWord(words: array<string>, word: string, positions: seq<nat>)
    requires forall q :: 0 <= q < |positions| ==> positions[q] < words.Length
    modifies words
    ensures forall p :: 0 <= p < words.Length ==> words[p] == (if p in positions then word else old(words[p]))
  {
    var q := 0;
    while q < |positions|
      invariant q <= |positions|
      invariant forall p :: 0 <= p < words.Length ==> words[p] == (if p in positions[..q] then word else old(words[p]))
    {
      assert positions[..q + 1] == positions[..q] + [positions[q]];
      words[positions[q]] := word;
      q := q + 1;
    }
    assert positions[..q] == positions;
  }

  /** Entry `e` is the last one listing position `p`. */
  predicate LastLister(index: InvertedIndex, e: nat, p: nat) {
    e < |index| && Lists(index, e, p) && forall f :: e < f < |index| ==> !Lists(index, f, p)
  }

  /** A position holds the word of the last entry that lists it. */
  lemma {:induction false} WriterIsLastLister(index: InvertedIndex, e: nat, p: nat)
    requires e < |index| && Lists(index, e, p)
    requires forall f :: e < f < |index| ==> !Lists(index, f, p)
    ensures Writer(index, p) == Some(index[e].0)
    decreases |index|
  {
    if e < |index| - 1 {
      var front := index[..|index| - 1];
      assert front[e] == index[e];
      forall f | e < f < |front|
        ensures !Lists(front, f, p)
      {
        assert front[f] == index[f];
        assert !Lists(index, f, p);
      }
      WriterIsLastLister(front, e, p);
      assert !Lists(index, |index| - 1, p);
    }
  }

  /** A position no entry lists has no writer. */
  lemma {:induction false} WriterOfUnlisted(index: InvertedIndex, p: nat)
    requires forall f :: 0 <= f < |index| ==> !Lists(index, f, p)
    ensures Writer(index, p) == None
    decreases |index|
  {
    if index != [] {
      var front := index[..|index| - 1];
      forall f | 0 <= f < |front|
        ensures !Lists(front, f, p)
      {
        assert front[f] == index[f];
        assert !Lists(index, f, p);
      }
      WriterOfUnlisted(front, p);
      assert !Lists(index, |index| - 1, p);
    }
  }

  /** The word list has one slot per position up to the largest one listed;
      every listed position holds the word of the last entry listing it, so
      a later entry overwrites an earlier one; every other position is "". */
  lemma AbstractWordsSpec(index: InvertedIndex, p: nat)
    requires index != [] && AllListed(index) && p <= MaxPosition(index)
    ensures forall e: nat :: LastLister(index, e, p) ==> AbstractWords(index)[p] == index[e].0
    ensures (forall f :: 0 <= f < |index| ==> !Lists(index, f, p)) ==> AbstractWords(index)[p] == ""
  {
    forall e: nat | LastLister(index, e, p)
      ensures AbstractWords(index)[p] == index[e].0
    {
      WriterIsLastLister(index, e, p);
    }
    if forall f :: 0 <= f < |index| ==> !Lists(index, f, p) {
      WriterOfUnlisted(index, p);
    }
  }

  /** A gap in the positions leaves an empty word, and so two spaces. */
  lemma GapGivesDoubleSpace()
    ensures RebuiltAbstract([("Steel", [0]), ("is", [1]), ("clean", [3])]) == Some("Steel is  clean")
  {
    var index: InvertedIndex := [("Steel", [0]), ("is", [1]), ("clean", [3])];
    assert index[..2] == [("Steel", [0]), ("is", [1])] && index[..2][..1] == [("Steel", [0])];
    assert MaxOf([3]) == 3 && MaxOf([1]) == 1 && MaxOf([0]) == 0;
    assert MaxPosition(index) == 3;
    WriterIsLastLister(index, 0, 0);
    WriterIsLastLister(index, 1, 1);
    WriterIsLastLister(index, 2, 3);
    WriterOfUnlisted(index, 2);
    var ws := AbstractWords(index);
    assert ws == ["Steel", "is", "", "clean"];
    assert AllListed(index);
    assert Join(["clean"], " ") == "clean";
    JoinCons("", ["clean"], " ");
    assert [""] + ["clean"] == ["", "clean"];
    JoinCons("is", ["", "clean"], " ");
    assert ["is"] + ["", "clean"] == ["is", "", "clean"];
    JoinCons("Steel", ["is", "", "clean"], " ");
    assert ["Steel"] + ["is", "", "clean"] == ws;
    assert Join(ws, " ") == "Steel" + " " + ("is" + " " + ("" + " " + "clean"));
    assert "Steel" + " " + ("is" + " " + ("" + " " + "clean")) == "Steel is  clean";
    assert RebuiltAbstract(index) == Some(Join(ws, " "));
  }

  // ---------------------------------------------------------------------
  // search_openalex: the country of a work

  datatype Institution = Institution(countryCode: Option<string>)

  datatype Authorship = Authorship(institutions: seq<Institution>)

  /** The code-to-name map; other codes pass through unchanged. */
  function MapCode(code: string): string {
    if code == "US" then "USA"
    else if code == "GB" then "UK"
    else if code == "CN" then "China"
    else if code == "JP" then "Japan"
    else if code == "DE" then "Germany"
    else if code == "RU" then "Russia"
    else code
  }

  /** The mapped country code of the first institution; "" when the
      institution has none. */
  function FirstCode(a: Authorship): string
    requires a.institutions != []
  {
    MapCode(Get(a.institutions[0].countryCode, ""))
  }

  /** The values collected from the authorships that have institutions, in order. */
  function Collected(auths: seq<Authorship>): seq<string>
    decreases |auths|
  {
    if auths == [] then []
    else
      var a := auths[|auths| - 1];
      Collected(auths[..|auths| - 1]) + (if a.institutions != [] then [FirstCode(a)] else [])
  }

  /** The `country` of an OpenAlex work: the first value collected from its
      first three authorships, or "Unknown". */
  function WorkCountry(auths: seq<Authorship>): string {
    var cs := Collected(Take(auths, 3));
    if cs == [] then "Unknown" else cs[0]
  }

  /** The collecting loop over the first three authorships. */
  method OpenAlexCountry(authorships: seq<Authorship>) returns (country: string)
    ensures country == WorkCountry(authorships)
  {
    var firstThree := Take(authorships, 3);
    var countries: seq<string> := [];
    var k := 0;
    while k < |firstThree|
      invariant k <= |firstThree|
      invariant countries == Collected(firstThree[..k])
    {
      assert firstThree[..k + 1][..k] == firstThree[..k];
      var authorship := firstThree[k];
      if authorship.institutions != [] {
        var countryCode := Get(authorship.institutions[0].countryCode, "");
        countries := countries + [MapCode(countryCode)];
      }
      k := k + 1;
    }
    assert firstThree[..k] == firstThree;
    country := if countries != [] then countries[0] else "Unknown";
  }

  /** Authorship `i` is the first one with an institution. */
  predicate FirstStaffed(auths: seq<Authorship>, i: nat) {
    i < |auths| && auths[i].institutions != [] && forall j :: 0 <= j < i ==> auths[j].institutions == []
  }

  /** Nothing is collected exactly when no authorship has institutions, and
      the first value collected comes from the first one that has. */
  lemma {:induction false} CollectedSpec(auths: seq<Authorship>)
    ensures Collected(auths) == [] <==> forall k :: 0 <= k < |auths| ==> auths[k].institutions == []
    ensures forall i: nat :: FirstStaffed(auths, i) ==> Collected(auths)[0] == FirstCode(auths[i])
    decreases |auths|
  {
    if auths != [] {
      var front := auths[..|auths| - 1];
      CollectedSpec(front);
      assert forall k :: 0 <= k < |front| ==> front[k] == auths[k];
      forall i: nat | FirstStaffed(auths, i)
        ensures Collected(auths)[0] == FirstCode(auths[i])
      {
        if i < |front| {
          assert FirstStaffed(front, i);
          assert front[i].institutions != [];
        } else {
          assert forall k :: 0 <= k < |front| ==> front[k].institutions == [];
        }
      }
    }
  }

  /** The country is "Unknown" exactly when none of the first three
      authorships has an institution; otherwise it is the mapped code of the
      first institution of the first that has one. */
  lemma WorkCountrySpec(auths: seq<Authorship>)
    ensures var three := Take(auths, 3);
      && (WorkCountry(auths) == "Unknown" <== forall k :: 0 <= k < |three| ==> three[k].institutions == [])
      && (forall i: nat :: FirstStaffed(three, i) ==> WorkCountry(auths) == FirstCode(three[i]))
  {
    CollectedSpec(Take(auths, 3));
  }

  /** Authorships after the third are never consulted. */
  lemma OnlyFirstThreeAuthorships(auths: seq<Authorship>, more: seq<Authorship>)
    requires |auths| >= 3
    ensures WorkCountry(auths + more) == WorkCountry(auths)
  {
    assert Take(auths + more, 3) == Take(auths, 3);
  }

  /** An institution without a country code gives the empty country, not
      "Unknown". */
  lemma MissingCodeGivesEmptyCountry()
    ensures WorkCountry([Authorship([Institution(None)])]) == ""
  {
    var auths := [Authorship([Institution(None)])];
    assert Take(auths, 3) == auths;
    assert auths[..0] == [];
  }
}

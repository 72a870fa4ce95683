/** String helpers with Python's semantics: whitespace classes, `str.strip`,
    `str.split()`, `str.join`, `str.find`/`str.rfind`, slicing and decimal
    formatting of natural numbers. */
module Text {

  datatype Option<T> = None | Some(value: T)

  /** The value, or `default` when there is none (`d.get(k, default)`). */
  function Get<T>(o: Option<T>, default: T): T {
    if o.Some? then o.value else default
  }

  /** Python's `str.isspace`, which is also the `\s` class of `re` on str patterns. */
  predicate IsSpace(c: char) {
    || c == ' ' || c == '\t' || c == '\n' || c == '\r' || c == '\U{0B}' || c == '\U{0C}'
    || ('\U{1C}' <= c <= '\U{1F}') || c == '\U{85}' || c == '\U{A0}' || c == '\U{1680}'
    || ('\U{2000}' <= c <= '\U{200A}') || c == '\U{2028}' || c == '\U{2029}'
    || c == '\U{202F}' || c == '\U{205F}' || c == '\U{3000}'
  }

  predicate IsDigit(c: char) { '0' <= c <= '9' }

  /** The number of whitespace characters at the start of `s`. */
  function LeadingSpaces(s: string): (n: nat)
    ensures n <= |s| && (n == |s| || !IsSpace(s[n]))
    ensures forall i :: 0 <= i < n ==> IsSpace(s[i])
  {
    if s != [] && IsSpace(s[0]) then 1 + LeadingSpaces(s[1..]) else 0
  }

  /** The number of whitespace characters at the end of `s`. */
  function TrailingSpaces(s: string): (n: nat)
    ensures n <= |s| && (n == |s| || !IsSpace(s[|s| - n - 1]))
    ensures forall i :: |s| - n <= i < |s| ==> IsSpace(s[i])
  {
    if s != [] && IsSpace(s[|s| - 1]) then 1 + TrailingSpaces(s[..|s| - 1]) else 0
  }

  /** `s.lstrip()` */
  function StripLeft(s: string): (r: string)
    ensures r == [] || !IsSpace(r[0])
    ensures forall i :: 0 <= i < |s| - |r| ==> IsSpace(s[i])
  {
    s[LeadingSpaces(s)..]
  }

  /** `s.rstrip()` */
  function StripRight(s: string): (r: string)
    ensures r == [] || !IsSpace(r[|r| - 1])
    ensures forall i :: |r| <= i < |s| ==> IsSpace(s[i])
  {
    s[..|s| - TrailingSpaces(s)]
  }

  /** `s.strip()`: the longest substring with no whitespace at either end. */
  function Strip(s: string): (r: string)
    ensures r == [] || (!IsSpace(r[0]) && !IsSpace(r[|r| - 1]))
  {
    StripRight(StripLeft(s))
  }

  /** `s.strip()` is the substring of `s` that starts after the leading
      whitespace. */
  lemma StripOccurs(s: string)
    ensures OccursAt(s, Strip(s), |s| - |StripLeft(s)|)
  {
    var l := StripLeft(s);
    var r := StripRight(l);
    var a := |s| - |l|;
    assert forall i :: 0 <= i < |r| ==> r[i] == s[a + i];
    assert s[a..a + |r|] == r;
  }

  /** A text with no whitespace at either end is its own strip. */
  lemma StripUnspaced(s: string)
    requires s != [] && !IsSpace(s[0]) && !IsSpace(s[|s| - 1])
    ensures Strip(s) == s
  {
    assert LeadingSpaces(s) == 0;
    assert StripLeft(s) == s;
    assert TrailingSpaces(s) == 0;
  }

  /** `s.lstrip()` is a suffix of `s`. */
  lemma StripLeftIsSuffix(s: string)
    ensures StripLeft(s) == s[|s| - |StripLeft(s)|..]
  {
  }

  /** `s.rstrip()` is a prefix of `s`. */
  lemma StripRightIsPrefix(s: string)
    ensures StripRight(s) == s[..|StripRight(s)|]
  {
  }

  /** The non-whitespace characters of `s`, in order. */
  function NonSpace(s: string): string
  {
    if s == [] then [] else (if IsSpace(s[0]) then [] else [s[0]]) + NonSpace(s[1..])
  }

  lemma {:induction false} NonSpaceConcat(a: string, b: string)
    ensures NonSpace(a + b) == NonSpace(a) + NonSpace(b)
  {
    if a != [] {
      assert (a + b)[1..] == a[1..] + b;
      NonSpaceConcat(a[1..], b);
    } else {
      assert a + b == b;
    }
  }

  /** Stripping removes whitespace only. */
  lemma StripKeepsNonSpace(s: string)
    ensures NonSpace(Strip(s)) == NonSpace(s)
  {
    var l := StripLeft(s);
    StripLeftKeepsNonSpace(s);
    StripRightKeepsNonSpace(l);
  }

  lemma StripLeftKeepsNonSpace(s: string)
    ensures NonSpace(StripLeft(s)) == NonSpace(s)
  {
    var l := StripLeft(s);
    var a := |s| - |l|;
    StripLeftIsSuffix(s);
    assert s == s[..a] + l;
    NonSpaceConcat(s[..a], l);
    AllSpaceNonSpace(s[..a]);
  }

  lemma StripRightKeepsNonSpace(l: string)
    ensures NonSpace(StripRight(l)) == NonSpace(l)
  {
    var r := StripRight(l);
    StripRightIsPrefix(l);
    assert l == r + l[|r|..];
    NonSpaceConcat(r, l[|r|..]);
    AllSpaceNonSpace(l[|r|..]);
  }

  lemma {:induction false} AllSpaceNonSpace(s: string)
    requires forall i :: 0 <= i < |s| ==> IsSpace(s[i])
    ensures NonSpace(s) == []
  {
    if s != [] {
      AllSpaceNonSpace(s[1..]);
    }
  }

  /** True when `s.strip()` is empty, i.e. `not s.strip()` holds. */
  predicate IsBlank(s: string) {
    forall i :: 0 <= i < |s| ==> IsSpace(s[i])
  }

  lemma BlankIffStripEmpty(s: string)
    ensures IsBlank(s) <==> Strip(s) == []
  {
    if IsBlank(s) {
      BlankStripLeftEmpty(s);
    } else {
      NonBlankStripNonEmpty(s);
    }
  }

  lemma BlankStripLeftEmpty(s: string)
    requires IsBlank(s)
    ensures StripLeft(s) == [] && Strip(s) == []
  {
  }

  lemma NonBlankStripNonEmpty(s: string)
    requires !IsBlank(s)
    ensures Strip(s) != []
  {
    var i :| 0 <= i < |s| && !IsSpace(s[i]);
    var l := StripLeft(s);
    assert i >= |s| - |l|;
    assert l[i - (|s| - |l|)] == s[i];
    assert StripRight(l) != [];
  }

  /** `sep.join(xs)` */
  function Join(xs: seq<string>, sep: string): string
    decreases |xs|
  {
    if |xs| == 0 then "" else if |xs| == 1 then xs[0] else xs[0] + sep + Join(xs[1..], sep)
  }

  lemma JoinCons(x: string, xs: seq<string>, sep: string)
    requires xs != []
    ensures Join([x] + xs, sep) == x + sep + Join(xs, sep)
  {
    assert ([x] + xs)[1..] == xs;
  }

  lemma {:induction false} JoinAppend(xs: seq<string>, x: string, sep: string)
    ensures Join(xs + [x], sep) == if xs == [] then x else Join(xs, sep) + sep + x
    decreases |xs|
  {
    if |xs| > 1 {
      assert (xs + [x])[1..] == xs[1..] + [x];
      JoinAppend(xs[1..], x, sep);
    } else if |xs| == 1 {
      assert (xs + [x])[1..] == [x];
    }
  }

  /** Joining a prefix and the rest of a list with `sep` between them. */
  lemma {:induction false} JoinSplit(xs: seq<string>, k: nat, sep: string)
    requires 0 < k < |xs|
    ensures Join(xs, sep) == Join(xs[..k], sep) + sep + Join(xs[k..], sep)
    decreases k
  {
    if k > 1 {
      JoinSplit(xs[1..], k - 1, sep);
      assert xs[1..][..k - 1] == xs[..k][1..];
      assert xs[1..][k - 1..] == xs[k..];
    }
  }

  /** Python slicing `s[:n]` for a non-negative `n`. */
  function Take<T>(s: seq<T>, n: nat): (r: seq<T>)
    ensures |r| == if n < |s| then n else |s|
    ensures r <= s
  {
    if n < |s| then s[..n] else s
  }

  /** The leading run of non-whitespace characters of `s`. */
  function WordPrefix(s: string): (w: string)
    ensures w <= s
    ensures forall i :: 0 <= i < |w| ==> !IsSpace(w[i])
    ensures |w| == |s| || IsSpace(s[|w|])
    ensures s != [] && !IsSpace(s[0]) ==> w != []
  {
    if s == [] || IsSpace(s[0]) then [] else [s[0]] + WordPrefix(s[1..])
  }

  /** `s.split()`: the maximal runs of non-whitespace characters, in order. */
  function Words(s: string): seq<string>
    decreases |s|
  {
    var t := StripLeft(s);
    if t == [] then [] else
      var w := WordPrefix(t);
      [w] + Words(t[|w|..])
  }

  /** `LeadingSpaces` is the one count whose characters are all whitespace
      and which stops at a non-whitespace character or the end. */
  lemma LeadingSpacesUnique(s: string, n: nat)
    requires n <= |s| && (n == |s| || !IsSpace(s[n]))
    requires forall i :: 0 <= i < n ==> IsSpace(s[i])
    ensures LeadingSpaces(s) == n
  {
  }

  /** `WordPrefix` is the one prefix with no whitespace that stops at
      whitespace or the end. */
  lemma WordPrefixUnique(s: string, w: string)
    requires w <= s && (|w| == |s| || IsSpace(s[|w|]))
    requires forall i :: 0 <= i < |w| ==> !IsSpace(w[i])
    ensures WordPrefix(s) == w
  {
    var v := WordPrefix(s);
    assert |v| == |w|;
  }

  /** Leading whitespace does not change the words. */
  lemma WordsSkipSpaces(sp: string, s: string)
    requires forall i :: 0 <= i < |sp| ==> IsSpace(sp[i])
    ensures Words(sp + s) == Words(s)
  {
    var n := LeadingSpaces(s);
    LeadingSpacesUnique(sp + s, |sp| + n);
    assert (sp + s)[|sp| + n..] == s[n..];
    WordsAfterStripLeft(sp + s, s);
  }

  /** The words depend only on the text after its leading whitespace. */
  lemma WordsAfterStripLeft(a: string, b: string)
    requires StripLeft(a) == StripLeft(b)
    ensures Words(a) == Words(b)
  {
  }

  /** `s.split()` does not depend on the leading whitespace. */
  lemma WordsStripLeft(s: string)
    ensures Words(StripLeft(s)) == Words(s)
  {
    var t := StripLeft(s);
    LeadingSpacesUnique(t, 0);
    assert StripLeft(t) == t;
    WordsAfterStripLeft(t, s);
  }

  /** A word followed by whitespace or nothing is the first word. */
  lemma WordsCons(w: string, y: string)
    requires w != [] && forall i :: 0 <= i < |w| ==> !IsSpace(w[i])
    requires y == [] || IsSpace(y[0])
    ensures Words(w + y) == [w] + Words(y)
  {
    LeadingSpacesUnique(w + y, 0);
    assert StripLeft(w + y) == w + y;
    WordPrefixUnique(w + y, w);
    assert (w + y)[|w|..] == y;
  }

  /** Trailing whitespace does not change the words. */
  lemma {:induction false} WordsTrailingSpaces(x: string, sp: string)
    requires forall i :: 0 <= i < |sp| ==> IsSpace(sp[i])
    ensures Words(x + sp) == Words(x)
    decreases |x|
  {
    var n := LeadingSpaces(x);
    var t := StripLeft(x);
    if t == [] {
      LeadingSpacesUnique(x + sp, |x + sp|);
      assert StripLeft(x + sp) == [];
    } else {
      LeadingSpacesUnique(x + sp, n);
      assert StripLeft(x + sp) == t + sp;
      var w := WordPrefix(t);
      WordPrefixUnique(t + sp, w);
      assert (t + sp)[|w|..] == t[|w|..] + sp;
      WordsTrailingSpaces(t[|w|..], sp);
    }
  }

  /** `s.strip().split()` is `s.split()`. */
  lemma WordsStrip(s: string)
    ensures Words(Strip(s)) == Words(s)
  {
    var l := StripLeft(s);
    var r := StripRight(l);
    assert l == r + l[|r|..];
    WordsTrailingSpaces(r, l[|r|..]);
    WordsStripLeft(s);
  }

  /** `pat` occurs in `s` starting at index `j`. */
  predicate OccursAt(s: string, pat: string, j: int) {
    0 <= j && j + |pat| <= |s| && s[j..j + |pat|] == pat
  }

  /** `s.find(pat, i)`: the first occurrence at or after `i`, or -1. */
  function FindFrom(s: string, pat: string, i: nat): (r: int)
    ensures r == -1 || (i <= r && OccursAt(s, pat, r))
    ensures forall j :: i <= j && (r == -1 || j < r) ==> !OccursAt(s, pat, j)
    decreases |s| - i
  {
    if i + |pat| > |s| then -1
    else if s[i..i + |pat|] == pat then i
    else FindFrom(s, pat, i + 1)
  }

  /** `s.find(pat)` */
  function Find(s: string, pat: string): (r: int)
    ensures r == -1 || OccursAt(s, pat, r)
    ensures forall j :: 0 <= j && (r == -1 || j < r) ==> !OccursAt(s, pat, j)
  {
    FindFrom(s, pat, 0)
  }

  /** The last occurrence of `pat` in `s` that starts at or before `j`, or -1. */
  function RFindUpTo(s: string, pat: string, j: int): (r: int)
    ensures r == -1 || (r <= j && OccursAt(s, pat, r))
    ensures forall k :: r < k <= j ==> !OccursAt(s, pat, k)
    decreases j + 1
  {
    if j < 0 then -1
    else if OccursAt(s, pat, j) then j
    else RFindUpTo(s, pat, j - 1)
  }

  /** `s.rfind(pat)` */
  function RFind(s: string, pat: string): (r: int)
    ensures r == -1 || OccursAt(s, pat, r)
    ensures forall k :: r < k ==> !OccursAt(s, pat, k)
  {
    RFindUpTo(s, pat, |s| - |pat|)
  }

  /** The Cyrillic capitals (U+0460 to U+052F) whose small letter is the next
      code point: even ones in three runs, odd ones from U+04C1 to U+04CD. */
  predicate CyrillicPairCapital(c: char) {
    || (('\U{0460}' <= c <= '\U{0480}' || '\U{048A}' <= c <= '\U{04BE}' || '\U{04D0}' <= c <= '\U{052E}')
        && c as int % 2 == 0)
    || ('\U{04C1}' <= c <= '\U{04CD}' && c as int % 2 == 1)
  }

  /** `str.lower` on one character of Basic Latin, Latin-1 or the two
      Cyrillic blocks (U+0000 to U+00FF and U+0400 to U+052F): each capital
      becomes its small letter (A-Z and À-Þ but ×, then Ѐ-Џ, А-Я, the paired
      capitals and Ӏ). Every other character is left as it is. */
  function LowerChar(c: char): char {
    if 'A' <= c <= 'Z' || ('\U{00C0}' <= c <= '\U{00DE}' && c != '\U{00D7}') || '\U{0410}' <= c <= '\U{042F}' then
      (c as int + 32) as char
    else if '\U{0400}' <= c <= '\U{040F}' then (c as int + 80) as char
    else if c == '\U{04C0}' then '\U{04CF}'
    else if CyrillicPairCapital(c) then (c as int + 1) as char
    else c
  }

  /** `s.lower()` */
  function Lower(s: string): (r: string)
    ensures |r| == |s| && forall i :: 0 <= i < |s| ==> r[i] == LowerChar(s[i])
  {
    seq(|s|, i requires 0 <= i < |s| => LowerChar(s[i]))
  }

  /** Ukrainian and Serbian capitals outside А-Я are lowered too. */
  lemma LowerOtherCyrillic()
    ensures Lower("ЄІЇЎЂЈ") == "єіїўђј"
  {
  }

  /** Lowering a lowered text changes nothing: no small letter that
      `LowerChar` produces is a capital again. */
  lemma LowerIdempotent(s: string)
    ensures Lower(Lower(s)) == Lower(s)
  {
    forall i | 0 <= i < |s|
      ensures LowerChar(LowerChar(s[i])) == LowerChar(s[i])
    {
      var c := s[i];
      if CyrillicPairCapital(c) {
        assert !CyrillicPairCapital(LowerChar(c));
      }
    }
  }

  function DigitChar(d: nat): char
    requires d < 10
  {
    ('0' as int + d) as char
  }

  /** `str(n)` for a natural number: its decimal digits, without leading zeros. */
  function Decimal(n: nat): (r: string)
    ensures |r| >= 1 && (|r| == 1 <==> n < 10)
    ensures forall i :: 0 <= i < |r| ==> IsDigit(r[i])
  {
    if n < 10 then [DigitChar(n)] else Decimal(n / 10) + [DigitChar(n % 10)]
  }

  /** Distinct numbers are printed differently. */
  lemma {:induction false} DecimalInjective(a: nat, b: nat)
    requires Decimal(a) == Decimal(b)
    ensures a == b
  {
    if a >= 10 && b >= 10 {
      var da, db := Decimal(a), Decimal(b);
      assert da[..|da| - 1] == Decimal(a / 10);
      assert db[..|db| - 1] == Decimal(b / 10);
      DecimalInjective(a / 10, b / 10);
      assert DigitChar(a % 10) == da[|da| - 1] == db[|db| - 1] == DigitChar(b % 10);
    }
  }
}

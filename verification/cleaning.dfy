/** `clean_text` of scripts/clean_and_split.py: the allow-list filter, the
    whitespace collapse and the final strip. The regular-expression passes
    that remove math notation and citations run before them and are a
    parameter here (`prepass`). */
module Cleaning {
  import opened Text

  /** The allow-list: Latin and Cyrillic letters (with Ё/ё), digits,
      whitespace, basic punctuation and a fixed set of scientific symbols. */
  predicate Allowed(c: char) {
    || ('A' <= c <= 'Z') || ('a' <= c <= 'z')
    || ('\U{0410}' <= c <= '\U{044F}') || c == '\U{0401}' || c == '\U{0451}'
    || ('0' <= c <= '9') || IsSpace(c)
    || c in ".,;:!?-()%/"
    || c == '\U{B0}' || c == '\U{2248}' || c == '\U{2264}' || c == '\U{2265}' || c == '\U{B1}'
    || c == '\U{2192}' || c == '\U{2190}' || c == '\U{2191}' || c == '\U{2193}'
    || c == '\U{D7}' || c == '\U{F7}'
  }

  predicate AllAllowed(s: string) {
    forall i :: 0 <= i < |s| ==> Allowed(s[i])
  }

  /** The only whitespace in `s` is the plain space, never two in a row. */
  predicate SingleSpaced(s: string) {
    && (forall i :: 0 <= i < |s| ==> IsSpace(s[i]) ==> s[i] == ' ')
    && (forall i :: 0 <= i < |s| - 1 ==> s[i] == ' ' ==> s[i + 1] != ' ')
  }

  /** The shape of every cleaned text. */
  predicate Normalized(s: string) {
    AllAllowed(s) && SingleSpaced(s) && (s == [] || (s[0] != ' ' && s[|s| - 1] != ' '))
  }

  /** Every character outside the allow-list becomes a space. */
  function FilterAllowed(s: string): (r: string)
    ensures |r| == |s| && AllAllowed(r)
    ensures forall i :: 0 <= i < |s| ==> (Allowed(s[i]) ==> r[i] == s[i]) && (!Allowed(s[i]) ==> r[i] == ' ')
  {
    seq(|s|, i requires 0 <= i < |s| => if Allowed(s[i]) then s[i] else ' ')
  }

  /** Every run of whitespace becomes one space. */
  function Collapse(s: string): (r: string)
    ensures SingleSpaced(r)
    ensures s != [] ==> r != [] && r[0] == (if IsSpace(s[0]) then ' ' else s[0])
    ensures AllAllowed(s) ==> AllAllowed(r)
    decreases |s|
  {
    if s == [] then []
    else if IsSpace(s[0]) then
      var rest := Collapse(StripLeft(s));
      assert forall i :: 0 <= i < |rest| ==> ([' '] + rest)[i + 1] == rest[i];
      [' '] + rest
    else
      var rest := Collapse(s[1..]);
      assert forall i :: 0 <= i < |rest| ==> ([s[0]] + rest)[i + 1] == rest[i];
      [s[0]] + rest
  }

  /** Collapsing keeps every visible character, in order. */
  lemma {:induction false} CollapseKeepsNonSpace(s: string)
    ensures NonSpace(Collapse(s)) == NonSpace(s)
    decreases |s|
  {
    if s == [] {
    } else if IsSpace(s[0]) {
      var rest := Collapse(StripLeft(s));
      CollapseKeepsNonSpace(StripLeft(s));
      StripLeftKeepsNonSpace(s);
      assert ([' '] + rest)[1..] == rest;
    } else {
      CollapseKeepsNonSpace(s[1..]);
      assert ([s[0]] + Collapse(s[1..]))[1..] == Collapse(s[1..]);
    }
  }

  lemma CollapseVisibleHead(s: string)
    requires s != [] && !IsSpace(s[0])
    ensures Collapse(s) == [s[0]] + Collapse(s[1..])
  {
  }

  lemma PrependAssoc(c: char, v: string, x: string)
    ensures [c] + (v + x) == ([c] + v) + x
  {
  }

  /** The collapse copies the first word as it is. */
  lemma {:induction false} CollapseWord(s: string)
    ensures Collapse(s) == WordPrefix(s) + Collapse(s[|WordPrefix(s)|..])
    decreases |s|
  {
    if s != [] && !IsSpace(s[0]) {
      var v := WordPrefix(s[1..]);
      var x := Collapse(s[1..][|v|..]);
      CollapseWord(s[1..]);
      CollapseVisibleHead(s);
      assert WordPrefix(s) == [s[0]] + v;
      assert s[|WordPrefix(s)|..] == s[1..][|v|..];
      PrependAssoc(s[0], v, x);
    } else {
      assert WordPrefix(s) == [] && s[0..] == s;
    }
  }

  /** Collapsing replaces each whitespace run by a single space: the words,
      as `str.split()` finds them, are the same before and after. */
  lemma {:induction false} WordsCollapse(s: string)
    ensures Words(Collapse(s)) == Words(s)
    decreases |s|
  {
    if s == [] {
    } else if IsSpace(s[0]) {
      WordsSkipSpaces([' '], Collapse(StripLeft(s)));
      WordsCollapse(StripLeft(s));
      WordsStripLeft(s);
    } else {
      var w := WordPrefix(s);
      var rest := s[|w|..];
      CollapseWord(s);
      WordsCollapse(rest);
      WordsCons(w, Collapse(rest));
      assert StripLeft(s) == s;
    }
  }

  lemma PrefixThenRest(n: string, w: string)
    requires w <= n
    ensures n == w + n[|w|..]
  {
  }

  lemma SpaceBetween(w: string, tail: string)
    ensures w + ([' '] + tail) == w + " " + tail
  {
  }

  /** A normalized text is its words joined by single spaces. */
  lemma {:induction false} NormalizedJoinsWords(n: string)
    requires Normalized(n)
    ensures n == Join(Words(n), " ")
    decreases |n|
  {
    if n != [] {
      var w := WordPrefix(n);
      if |w| == |n| {
        LastWord(n);
      } else {
        var tail := n[|w| + 1..];
        NextWord(n);
        NormalizedJoinsWords(tail);
        JoinCons(w, Words(tail), " ");
      }
    }
  }

  /** A normalized text without a space is its one word. */
  lemma LastWord(n: string)
    requires Normalized(n) && n != [] && |WordPrefix(n)| == |n|
    ensures Words(n) == [n]
  {
    var w := WordPrefix(n);
    assert w == n;
    assert StripLeft(n) == n;
    assert n[|n|..] == [];
  }

  /** A normalized text with a space is its first word, a space, and a
      normalized non-empty rest that holds the other words. */
  lemma NextWord(n: string)
    requires Normalized(n) && n != [] && |WordPrefix(n)| < |n|
    ensures var w := WordPrefix(n); var tail := n[|w| + 1..];
      && tail != [] && Normalized(tail) && Words(tail) != []
      && n == w + " " + tail && Words(n) == [w] + Words(tail)
  {
    var w := WordPrefix(n);
    var k := |w|;
    assert n[k] == ' ' && k + 1 < |n| && n[k + 1] != ' ';
    NormalizedSuffix(n, k + 1);
    WordAfterSpace(n, w, n[k + 1..]);
  }

  /** A suffix of a normalized text that does not start with a space is
      normalized. */
  lemma NormalizedSuffix(n: string, k: nat)
    requires Normalized(n) && k < |n| && n[k] != ' '
    ensures Normalized(n[k..])
  {
    assert forall i :: 0 <= i < |n| - k ==> n[k..][i] == n[k + i];
  }

  /** The words of a first word, a space and a text that starts with a word. */
  lemma WordAfterSpace(n: string, w: string, tail: string)
    requires n != [] && !IsSpace(n[0]) && w == WordPrefix(n) && |w| < |n|
    requires n[|w|] == ' ' && tail == n[|w| + 1..] && tail != [] && !IsSpace(tail[0])
    ensures Words(tail) != [] && n == w + " " + tail && Words(n) == [w] + Words(tail)
  {
    var rest := n[|w|..];
    assert rest == [' '] + tail;
    PrefixThenRest(n, w);
    SpaceBetween(w, tail);
    WordsCons(w, rest);
    WordsSkipSpaces([' '], tail);
    LeadingSpacesUnique(tail, 0);
  }

  /** Filter, collapse and strip give the words of the filtered text joined
      by single spaces: `" ".join(filtered.split())`. */
  lemma NormalizeJoinsWords(s: string)
    ensures Normalize(s) == Join(Words(FilterAllowed(s)), " ")
  {
    var f := FilterAllowed(s);
    var c := Collapse(f);
    NormalizedJoinsWords(Normalize(s));
    WordsStrip(c);
    WordsCollapse(f);
  }

  /** A stripped substring of a single-spaced allowed text is normalized. */
  lemma StripNormalizes(s: string)
    requires AllAllowed(s) && SingleSpaced(s)
    ensures Normalized(Strip(s))
  {
    var r := Strip(s);
    StripOccurs(s);
    var a := |s| - |StripLeft(s)|;
    assert forall i :: 0 <= i < |r| ==> r[i] == s[a + i];
  }

  /** Filter, collapse and strip: the part of `clean_text` after the regex passes. */
  function Normalize(s: string): (r: string)
    ensures Normalized(r)
    ensures NonSpace(r) == NonSpace(FilterAllowed(s))
  {
    var f := FilterAllowed(s);
    var c := Collapse(f);
    CollapseKeepsNonSpace(f);
    StripKeepsNonSpace(c);
    StripNormalizes(c);
    Strip(c)
  }

  /** `clean_text(text)`: "" for the empty text; otherwise a normalized text
      whose visible characters are exactly the allowed visible characters of
      the text after the regex passes, in order. */
  function CleanText(prepass: string -> string, text: string): (r: string)
    ensures text == "" ==> r == ""
    ensures Normalized(r)
    ensures text != "" ==> NonSpace(r) == NonSpace(FilterAllowed(prepass(text)))
  {
    if text == "" then "" else Normalize(prepass(text))
  }

  /** `clean_text` of a non-empty text is `" ".join(t.split())` of the
      filtered text `t` left after the regex passes. */
  lemma CleanTextJoinsWords(prepass: string -> string, text: string)
    requires text != ""
    ensures CleanText(prepass, text) == Join(Words(FilterAllowed(prepass(text))), " ")
  {
    NormalizeJoinsWords(prepass(text));
  }

  /** A single-spaced text is left alone by the collapse. */
  lemma {:induction false} CollapseFixesSingleSpaced(s: string)
    requires SingleSpaced(s)
    ensures Collapse(s) == s
    decreases |s|
  {
    if s != [] {
      if IsSpace(s[0]) {
        assert s[0] == ' ';
        if |s| > 1 {
          assert !IsSpace(s[1]);
          assert StripLeft(s) == s[1..];
        } else {
          assert StripLeft(s) == [];
        }
        CollapseFixesSingleSpaced(s[1..]);
      } else {
        if |s| > 1 && s[1] == ' ' {
          assert |s| == 2 || s[2] != ' ';
        }
        CollapseFixesSingleSpaced(s[1..]);
      }
    }
  }

  /** Normalizing is idempotent: a cleaned text is its own normal form. */
  lemma NormalizeIdempotent(s: string)
    ensures Normalize(Normalize(s)) == Normalize(s)
  {
    var n := Normalize(s);
    assert FilterAllowed(n) == n;
    CollapseFixesSingleSpaced(n);
    assert StripLeft(n) == n;
    assert StripRight(n) == n;
  }
}

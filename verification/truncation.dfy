/** `smart_truncate` of scripts/clean_and_split.py: keep whole sentences while
    the summed token counts stay within the budget; when not even the first
    sentence fits, keep whole words of it instead and mark the cut with "...". */
module Truncation {
  import opened Text
  import opened Tokenizers
  import Cleaning

  predicate IsTerminal(c: char) {
    c == '.' || c == '!' || c == '?'
  }

  /** Where `(?<=[.!?])\s+` can start matching: a whitespace character right
      after a sentence-terminal character. */
  predicate IsSplitPoint(s: string, j: int) {
    0 < j < |s| && IsTerminal(s[j - 1]) && IsSpace(s[j])
  }

  /** The first split point at or after `k`, or -1. */
  function SplitPointFrom(s: string, k: nat): (j: int)
    ensures j == -1 || (k <= j && IsSplitPoint(s, j))
    ensures forall m :: k <= m && (j == -1 || m < j) ==> !IsSplitPoint(s, m)
    decreases |s| - k
  {
    if k >= |s| then -1
    else if IsSplitPoint(s, k) then k
    else SplitPointFrom(s, k + 1)
  }

  /** `re.split(r'(?<=[.!?])\s+', s)`: the text cut at every whitespace run that
      follows a sentence-terminal character, the runs themselves dropped. */
  function SplitSentences(s: string): (r: seq<string>)
    ensures |r| >= 1
    decreases |s|
  {
    var j := SplitPointFrom(s, 0);
    if j == -1 then [s] else [s[..j]] + SplitSentences(StripLeft(s[j..]))
  }

  /** Every piece but the last is non-empty and ends with a sentence-terminal
      character. */
  predicate EndsTerminal(r: seq<string>) {
    forall k :: 0 <= k < |r| - 1 ==> r[k] != [] && IsTerminal(r[k][|r[k]| - 1])
  }

  /** No piece holds a split point. */
  predicate NoSplitInside(r: seq<string>) {
    forall k, m :: 0 <= k < |r| && 0 <= m < |r[k]| ==> !IsSplitPoint(r[k], m)
  }

  /** Every piece after the first starts past the whole whitespace run. */
  predicate StartsPastRun(r: seq<string>) {
    forall k :: 0 < k < |r| ==> r[k] == [] || !IsSpace(r[k][0])
  }

  /** The pieces are cut exactly at the split points, and the first piece is
      a prefix of the text. */
  lemma SentencesShape(s: string)
    ensures var r := SplitSentences(s);
      r[0] <= s && EndsTerminal(r) && NoSplitInside(r) && StartsPastRun(r)
  {
    SentencesEndTerminal(s);
    SentencesNoSplitInside(s);
    SentencesStartPastRun(s);
  }

  lemma {:induction false} SentencesEndTerminal(s: string)
    ensures SplitSentences(s)[0] <= s && EndsTerminal(SplitSentences(s))
    decreases |s|
  {
    var j := SplitPointFrom(s, 0);
    if j != -1 {
      var head := s[..j];
      var rest := StripLeft(s[j..]);
      SentencesEndTerminal(rest);
      assert head[|head| - 1] == s[j - 1];
      ConsEndsTerminal(head, SplitSentences(rest));
    }
  }

  lemma ConsEndsTerminal(head: string, tail: seq<string>)
    requires head != [] && IsTerminal(head[|head| - 1]) && EndsTerminal(tail)
    ensures EndsTerminal([head] + tail)
  {
    var r := [head] + tail;
    forall k | 0 < k < |r| - 1
      ensures r[k] != [] && IsTerminal(r[k][|r[k]| - 1])
    {
      assert r[k] == tail[k - 1];
    }
  }

  lemma {:induction false} SentencesNoSplitInside(s: string)
    ensures NoSplitInside(SplitSentences(s))
    decreases |s|
  {
    var j := SplitPointFrom(s, 0);
    if j != -1 {
      var head := s[..j];
      var rest := StripLeft(s[j..]);
      var tail := SplitSentences(rest);
      SentencesNoSplitInside(rest);
      var r := [head] + tail;
      assert SplitSentences(s) == r;
      forall k, m | 0 <= k < |r| && 0 <= m < |r[k]|
        ensures !IsSplitPoint(r[k], m)
      {
        if k > 0 {
          assert r[k] == tail[k - 1];
        } else if IsSplitPoint(head, m) {
          assert IsSplitPoint(s, m) && m < j;
        }
      }
    }
  }

  lemma {:induction false} SentencesStartPastRun(s: string)
    ensures StartsPastRun(SplitSentences(s))
    decreases |s|
  {
    var j := SplitPointFrom(s, 0);
    if j != -1 {
      var rest := StripLeft(s[j..]);
      var tail := SplitSentences(rest);
      SentencesStartPastRun(rest);
      SentencesEndTerminal(rest);
      var r := [s[..j]] + tail;
      assert SplitSentences(s) == r;
      forall k | 0 < k < |r|
        ensures r[k] == [] || !IsSpace(r[k][0])
      {
        assert r[k] == tail[k - 1];
        if k == 1 && tail[0] != [] {
          assert tail[0][0] == rest[0];
        }
      }
    }
  }

  /** On a single-spaced text the sentences joined by spaces give the text back. */
  lemma {:induction false} SentencesRejoin(s: string)
    requires Cleaning.SingleSpaced(s)
    ensures Join(SplitSentences(s), " ") == s
    decreases |s|
  {
    var j := SplitPointFrom(s, 0);
    if j != -1 {
      var rest := StripLeft(s[j..]);
      assert s[j] == ' ';
      SkipOneSpace(s, j);
      SentencesRejoin(rest);
      JoinCons(s[..j], SplitSentences(rest), " ");
      assert s == s[..j] + " " + s[j + 1..];
    }
  }

  /** In a single-spaced text a space is followed by a non-space, so
      stripping from it drops exactly that space. */
  lemma SkipOneSpace(s: string, j: nat)
    requires Cleaning.SingleSpaced(s) && j < |s| && s[j] == ' '
    ensures StripLeft(s[j..]) == s[j + 1..] && Cleaning.SingleSpaced(s[j + 1..])
  {
    if j + 1 < |s| {
      assert !IsSpace(s[j + 1]);
    }
    StripLeftIsSuffix(s[j..]);
  }

  /** The sum of a list of token counts; the last item is added last. */
  function Sum(xs: seq<int>): int
  {
    if xs == [] then 0 else Sum(xs[..|xs| - 1]) + xs[|xs| - 1]
  }

  /** The greedy budget loop from position `k` with `used` tokens already spent:
      the index of the first item that does not fit, or the length. */
  function FitFrom(costs: seq<int>, budget: int, k: nat, used: int): (n: nat)
    requires k <= |costs|
    ensures k <= n <= |costs|
    decreases |costs| - k
  {
    if k == |costs| || used + costs[k] > budget then k
    else FitFrom(costs, budget, k + 1, used + costs[k])
  }

  /** How many leading items the greedy budget loop keeps. */
  function FitCount(costs: seq<int>, budget: int): nat
  {
    FitFrom(costs, budget, 0, 0)
  }

  lemma {:induction false} FitFromSpec(costs: seq<int>, budget: int, k: nat, used: int)
    requires k <= |costs| && used == Sum(costs[..k])
    requires forall m :: 0 < m <= k ==> Sum(costs[..m]) <= budget
    ensures var n := FitFrom(costs, budget, k, used);
      && (forall m :: 0 < m <= n ==> Sum(costs[..m]) <= budget)
      && (n < |costs| ==> Sum(costs[..n + 1]) > budget)
    decreases |costs| - k
  {
    if k < |costs| {
      assert costs[..k + 1][..k] == costs[..k];
      if used + costs[k] <= budget {
        FitFromSpec(costs, budget, k + 1, used + costs[k]);
      }
    }
  }

  /** The kept prefix: every non-empty prefix up to it fits the budget, and the
      next item is the first that does not. */
  lemma FitCountSpec(costs: seq<int>, budget: int)
    ensures var n := FitCount(costs, budget);
      && n <= |costs|
      && (forall m :: 0 < m <= n ==> Sum(costs[..m]) <= budget)
      && (n < |costs| ==> Sum(costs[..n + 1]) > budget)
  {
    FitFromSpec(costs, budget, 0, 0);
  }

  /** The token count of each sentence. */
  function SentenceCosts(tk: Tokenizer, xs: seq<string>): (c: seq<int>)
    ensures |c| == |xs|
  {
    seq(|xs|, i requires 0 <= i < |xs| => tk.Count(xs[i]))
  }

  /** The token count of each word followed by a space. */
  function WordCosts(tk: Tokenizer, ws: seq<string>): (c: seq<int>)
    ensures |c| == |ws|
  {
    seq(|ws|, i requires 0 <= i < |ws| => tk.Count(ws[i] + " "))
  }

  /** The word-level fallback for a first sentence that exceeds the budget:
      the words that fit joined by spaces plus "...", or "" when none fits. */
  function WordFallback(tk: Tokenizer, sentence: string, maxTokens: int): string
  {
    var words := Words(sentence);
    var w := FitCount(WordCosts(tk, words), maxTokens);
    if w > 0 then Join(words[..w], " ") + "..." else ""
  }

  /** What `smart_truncate(text, max_tokens)` returns. */
  function Truncated(tk: Tokenizer, text: string, maxTokens: int): string
  {
    var sents := SplitSentences(text);
    var k := FitCount(SentenceCosts(tk, sents), maxTokens);
    if k > 0 then Join(sents[..k], " ") else WordFallback(tk, sents[0], maxTokens)
  }

  method SmartTruncate(tk: Tokenizer, text: string, maxTokens: int) returns (r: string)
    ensures r == Truncated(tk, text, maxTokens)
  {
    var sentences := SplitSentences(text);
    ghost var costs := SentenceCosts(tk, sentences);
    var result: seq<string> := [];
    var currentTokens := 0;
    var i := 0;
    while i < |sentences|
      invariant 0 <= i <= |sentences|
      invariant result == sentences[..i]
      invariant FitFrom(costs, maxTokens, i, currentTokens) == FitCount(costs, maxTokens)
    {
      var sentenceTokens := tk.Count(sentences[i]);
      if currentTokens + sentenceTokens <= maxTokens {
        result := result + [sentences[i]];
        currentTokens := currentTokens + sentenceTokens;
        i := i + 1;
      } else {
        if result == [] {
          var wordResult := KeepWords(tk, Words(sentences[i]), maxTokens);
          if wordResult != [] {
            return Join(wordResult, " ") + "...";
          }
        }
        break;
      }
    }
    return Join(result, " ");
  }

  /** The inner loop of the fallback: the words kept within the budget. */
  method KeepWords(tk: Tokenizer, words: seq<string>, maxTokens: int) returns (wordResult: seq<string>)
    ensures wordResult == words[..FitCount(WordCosts(tk, words), maxTokens)]
  {
    ghost var wcosts := WordCosts(tk, words);
    wordResult := [];
    var wordTokens := 0;
    var j := 0;
    while j < |words|
      invariant 0 <= j <= |words|
      invariant wordResult == words[..j]
      invariant FitFrom(wcosts, maxTokens, j, wordTokens) == FitCount(wcosts, maxTokens)
    {
      var wordTokenCount := tk.Count(words[j] + " ");
      if wordTokens + wordTokenCount <= maxTokens {
        wordResult := wordResult + [words[j]];
        wordTokens := wordTokens + wordTokenCount;
        j := j + 1;
      } else {
        break;
      }
    }
  }

  /** When the first sentence fits, the result is the first `k >= 1` sentences
      joined by spaces, their summed counts are within the budget, and sentence
      `k` (if any) is the first whose count would exceed it: no sentence is skipped. */
  lemma TruncatedKeepsSentencePrefix(tk: Tokenizer, text: string, maxTokens: int)
    requires tk.Count(SplitSentences(text)[0]) <= maxTokens
    ensures var sents := SplitSentences(text);
      var costs := SentenceCosts(tk, sents);
      exists k :: 1 <= k <= |sents|
        && Truncated(tk, text, maxTokens) == Join(sents[..k], " ")
        && Sum(costs[..k]) <= maxTokens
        && (k < |sents| ==> Sum(costs[..k + 1]) > maxTokens)
  {
    var sents := SplitSentences(text);
    var costs := SentenceCosts(tk, sents);
    var k := FitCount(costs, maxTokens);
    assert k >= 1 by {
      assert costs[0] == tk.Count(sents[0]);
    }
    assert Sum(costs[..k]) <= maxTokens && (k < |sents| ==> Sum(costs[..k + 1]) > maxTokens) by {
      FitCountSpec(costs, maxTokens);
    }
    assert 1 <= k <= |sents| && Truncated(tk, text, maxTokens) == Join(sents[..k], " ")
      && Sum(costs[..k]) <= maxTokens && (k < |sents| ==> Sum(costs[..k + 1]) > maxTokens);
  }

  /** When the first sentence alone exceeds the budget the result is either ""
      (its first word does not fit either, or it has none) or the first
      `w >= 1` words of that sentence joined by spaces plus "...", where the
      counts of word + " " sum to at most the budget and word `w` (if any) is
      the first that would exceed it. */
  lemma TruncatedFallsBackToWords(tk: Tokenizer, text: string, maxTokens: int)
    requires tk.Count(SplitSentences(text)[0]) > maxTokens
    ensures var words := Words(SplitSentences(text)[0]);
      FallbackShape(words, WordCosts(tk, words), Truncated(tk, text, maxTokens), maxTokens)
  {
    var sents := SplitSentences(text);
    assert FitCount(SentenceCosts(tk, sents), maxTokens) == 0;
    WordFallbackSpec(tk, sents[0], maxTokens);
  }

  /** `r` is "" because the first word does not fit (or there is none), or it
      is the first `w >= 1` words joined by spaces plus "...", their costs sum
      to at most the budget and word `w` (if any) is the first that would not fit. */
  predicate FallbackShape(words: seq<string>, costs: seq<int>, r: string, maxTokens: int)
    requires |costs| == |words|
  {
    || (r == "" && (words == [] || costs[0] > maxTokens))
    || (exists w :: 1 <= w <= |words|
         && r == Join(words[..w], " ") + "..."
         && Sum(costs[..w]) <= maxTokens
         && (w < |words| ==> Sum(costs[..w + 1]) > maxTokens))
  }

  lemma WordFallbackSpec(tk: Tokenizer, sentence: string, maxTokens: int)
    ensures FallbackShape(Words(sentence), WordCosts(tk, Words(sentence)), WordFallback(tk, sentence, maxTokens), maxTokens)
  {
    var words := Words(sentence);
    var costs := WordCosts(tk, words);
    FitCountSpec(costs, maxTokens);
    var w := FitCount(costs, maxTokens);
    if w == 0 && words != [] {
      assert costs[..1] == [costs[0]];
    }
  }

  /** The result is empty exactly when the first sentence alone exceeds the
      budget and so does its first word (or it has none). */
  lemma TruncatedEmptyIff(tk: Tokenizer, text: string, maxTokens: int)
    requires text != ""
    ensures var sents := SplitSentences(text);
      var words := Words(sents[0]);
      (Truncated(tk, text, maxTokens) == "")
        <==> (tk.Count(sents[0]) > maxTokens && (words == [] || tk.Count(words[0] + " ") > maxTokens))
  {
    var sents := SplitSentences(text);
    var costs := SentenceCosts(tk, sents);
    if tk.Count(sents[0]) <= maxTokens {
      var k := FitCount(costs, maxTokens);
      assert k >= 1;
      assert sents[..k][0] == sents[0];
      JoinNonEmpty(sents[..k], sents);
    } else {
      var words := Words(sents[0]);
      var wcosts := WordCosts(tk, words);
      var w := FitCount(wcosts, maxTokens);
      if w > 0 {
        assert |Join(words[..w], " ") + "..."| >= 3;
      }
    }
  }

  /** The first sentence of a non-empty text is non-empty or followed by more,
      so joining a non-empty prefix of the sentences gives a non-empty text. */
  lemma JoinNonEmpty(prefix: seq<string>, sents: seq<string>)
    requires 1 <= |prefix| <= |sents| && prefix == sents[..|prefix|]
    requires sents[0] != "" || |prefix| > 1
    ensures Join(prefix, " ") != ""
  {
    if |prefix| > 1 {
      assert |Join(prefix, " ")| >= 1;
    }
  }

  /** On a single-spaced text the kept sentences are a prefix of the text. */
  lemma TruncatedIsTextPrefix(tk: Tokenizer, text: string, maxTokens: int)
    requires Cleaning.SingleSpaced(text)
    requires tk.Count(SplitSentences(text)[0]) <= maxTokens
    ensures Truncated(tk, text, maxTokens) <= text
  {
    var sents := SplitSentences(text);
    var k := FitCount(SentenceCosts(tk, sents), maxTokens);
    SentencesRejoin(text);
    if k < |sents| {
      JoinSplit(sents, k, " ");
    } else {
      assert sents[..k] == sents;
    }
  }
}

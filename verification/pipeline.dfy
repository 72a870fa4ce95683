/** The per-article loop of `main` in scripts/clean_and_split.py: assemble
    the labelled document text, clean it, skip it when too short, otherwise
    split it into chunk records and keep the counters. Reading the input
    file, JSON decoding (a parameter `parse` here) and writing and printing
    the results are not modelled. */
module Pipeline {
  import opened Text
  import opened Tokenizers
  import Cleaning
  import Chunking

  /** Cleaned texts shorter than this are skipped. */
  const MinCleanedLength: nat := 200

  /** One input line decoded as a JSON object. A field is None when the key
      is missing; `titleNull` says that the title key is present and holds
      JSON null, in which case `title` is None too. */
  datatype Article = Article(
    title: Option<string>, abstractText: Option<string>,
    authors: Option<seq<string>>, concepts: Option<seq<string>>,
    source: Option<string>, pdfUrl: Option<string>, doi: Option<string>,
    year: Option<int>, country: Option<string>, titleNull: bool)

  /** What `json.loads` gives for a line that decodes: an object, read as an
      article, or some other JSON value (a list, string, number, ...). */
  datatype Decoded = Object(article: Article) | NotObject

  /** The counters of `main`. */
  datatype Stats = Stats(
    totalArticles: nat, skippedArticles: nat, totalChunks: nat,
    avgTokensPerChunk: int, articlesWithYear: nat, articlesWithCountry: nat)

  /** The chunks collected so far and the counters. */
  datatype Acc = Acc(chunks: seq<Chunking.ChunkRecord>, stats: Stats)

  const NoStats := Stats(0, 0, 0, 0, 0, 0)

  /** Python truthiness of an optional string or list field. */
  predicate Present<T>(o: Option<seq<T>>) {
    o.Some? && o.value != []
  }

  /** The labelled parts of the document text, in the order title, abstract,
      the first three authors, the first five concepts; absent or empty
      fields give no part. */
  function Parts(a: Article): (ps: seq<string>)
    ensures |ps| <= 4
    ensures forall k :: 0 <= k < |ps| ==> ps[k] != []
    ensures ps == [] <==> !Present(a.title) && !Present(a.abstractText) && !Present(a.authors) && !Present(a.concepts)
    ensures Present(a.title) ==> ps[0] == "Title: " + a.title.value
  {
    (if Present(a.title) then ["Title: " + a.title.value] else [])
    + (if Present(a.abstractText) then ["Abstract: " + a.abstractText.value] else [])
    + (if Present(a.authors) then ["Authors: " + Join(Take(a.authors.value, 3), ", ")] else [])
    + (if Present(a.concepts) then ["Keywords: " + Join(Take(a.concepts.value, 5), ", ")] else [])
  }

  /** `full_text`: the parts joined by single spaces. */
  function FullText(a: Article): (r: string)
    ensures r == [] <==> Parts(a) == []
    ensures Present(a.title) ==> "Title: " + a.title.value <= r
  {
    var ps := Parts(a);
    if ps != [] then
      JoinHead(ps, " ");
      Join(ps, " ")
    else
      ""
  }

  /** A join starts with its first element, and is empty only when that is. */
  lemma {:induction false} JoinHead(xs: seq<string>, sep: string)
    requires xs != []
    ensures xs[0] <= Join(xs, sep)
    ensures xs[0] != [] ==> Join(xs, sep) != []
  {
  }

  /** The chunk metadata of `main`: missing keys take their defaults, and
      the source of an article without one is `unknown_<line number>`. */
  function MetadataOf(a: Article, lineNum: nat): (m: Chunking.Metadata)
    ensures a.source.None? ==> m.source == "unknown_" + Decimal(lineNum)
    ensures a.source.Some? ==> m.source == a.source.value
    ensures m.title == (if a.title.Some? then a.title.value else "")
  {
    Chunking.Metadata(Get(a.title, ""), Get(a.source, "unknown_" + Decimal(lineNum)),
      Get(a.pdfUrl, ""), Get(a.doi, ""), a.year, Get(a.country, ""), Get(a.authors, []))
  }

  /** The year counts when it is present and non-zero. */
  predicate HasYear(a: Article) {
    a.year.Some? && a.year.value != 0
  }

  /** The country counts when it is present, non-empty and not "Unknown". */
  predicate HasCountry(a: Article) {
    Present(a.country) && a.country.value != "Unknown"
  }

  /** The cleaned document text of an article. */
  function Cleaned(prepass: string -> string, a: Article): string {
    Cleaning.CleanText(prepass, FullText(a))
  }

  /** The split of a kept article terminates (an article with a null title
      never reaches the loop: the split raises on its title first). */
  predicate ArticleTerminates(tk: Tokenizer, prepass: string -> string, a: Article) {
    |Cleaned(prepass, a)| >= MinCleanedLength && !a.titleNull ==>
      Chunking.SplitTerminates(tk, Cleaned(prepass, a), Chunking.MaxTokensPerChunk, Chunking.OverlapTokens)
  }

  predicate LineTerminates(tk: Tokenizer, prepass: string -> string, parse: string -> Option<Decoded>, line: string) {
    !IsBlank(line) && parse(line).Some? && parse(line).value.Object? ==>
      ArticleTerminates(tk, prepass, parse(line).value.article)
  }

  predicate AllTerminate(tk: Tokenizer, prepass: string -> string, parse: string -> Option<Decoded>, lines: seq<string>) {
    forall k :: 0 <= k < |lines| ==> LineTerminates(tk, prepass, parse, lines[k])
  }

  /** The chunks of an article that is long enough and has no null title. */
  function ArticleChunks(tk: Tokenizer, prepass: string -> string, a: Article, lineNum: nat): seq<Chunking.ChunkRecord>
    requires ArticleTerminates(tk, prepass, a) && |Cleaned(prepass, a)| >= MinCleanedLength && !a.titleNull
  {
    Chunking.Split(tk, Cleaned(prepass, a), MetadataOf(a, lineNum),
      Chunking.MaxTokensPerChunk, Chunking.OverlapTokens)
  }

  /** The year and country counters after a kept article. */
  function CountMetadata(s: Stats, a: Article): (r: Stats)
    ensures r.articlesWithYear == s.articlesWithYear + (if HasYear(a) then 1 else 0)
    ensures r.articlesWithCountry == s.articlesWithCountry + (if HasCountry(a) then 1 else 0)
    ensures r == s.(articlesWithYear := r.articlesWithYear, articlesWithCountry := r.articlesWithCountry)
  {
    var s1 := if HasYear(a) then s.(articlesWithYear := s.articlesWithYear + 1) else s;
    if HasCountry(a) then s1.(articlesWithCountry := s1.articlesWithCountry + 1) else s1
  }

  /** One decoded article: count it, then skip it or keep its chunks. A null
      title makes the split raise when it slices the title, after the year
      and country are counted; the loop catches the exception and goes on. */
  function StepArticle(tk: Tokenizer, prepass: string -> string, acc: Acc, a: Article, lineNum: nat): Acc
    requires ArticleTerminates(tk, prepass, a)
  {
    var s := acc.stats.(totalArticles := acc.stats.totalArticles + 1);
    var cleaned := Cleaned(prepass, a);
    if |cleaned| < MinCleanedLength then
      Acc(acc.chunks, s.(skippedArticles := s.skippedArticles + 1))
    else
      Kept(tk, acc.chunks, s, a, cleaned, lineNum)
  }

  /** The end of the loop body for an article whose cleaned text is long
      enough: count its year and country, then append its chunks, unless a
      null title makes the split raise first. */
  function Kept(tk: Tokenizer, chunks: seq<Chunking.ChunkRecord>, s: Stats, a: Article, cleaned: string, lineNum: nat): Acc
    requires !a.titleNull ==> Chunking.SplitTerminates(tk, cleaned, Chunking.MaxTokensPerChunk, Chunking.OverlapTokens)
  {
    var s' := CountMetadata(s, a);
    if a.titleNull then Acc(chunks, s')
    else
      var cs := Chunking.Split(tk, cleaned, MetadataOf(a, lineNum), Chunking.MaxTokensPerChunk, Chunking.OverlapTokens);
      Acc(chunks + cs, s'.(totalChunks := s'.totalChunks + |cs|))
  }

  /** One input line: blank lines and lines that do not decode are passed
      over. A JSON value that is not an object is counted as an article, and
      then its first `article.get` raises and the loop goes on. */
  function Step(tk: Tokenizer, prepass: string -> string, parse: string -> Option<Decoded>,
                acc: Acc, line: string, lineNum: nat): Acc
    requires LineTerminates(tk, prepass, parse, line)
  {
    if IsBlank(line) then acc
    else match parse(line)
      case None => acc
      case Some(NotObject) => Acc(acc.chunks, acc.stats.(totalArticles := acc.stats.totalArticles + 1))
      case Some(Object(a)) => StepArticle(tk, prepass, acc, a, lineNum)
  }

  /** The state after the given lines, numbered from 1. */
  function Run(tk: Tokenizer, prepass: string -> string, parse: string -> Option<Decoded>, lines: seq<string>): Acc
    requires AllTerminate(tk, prepass, parse, lines)
    decreases |lines|
  {
    if lines == [] then Acc([], NoStats)
    else
      var n := |lines|;
      Step(tk, prepass, parse, Run(tk, prepass, parse, lines[..n - 1]), lines[n - 1], n)
  }

  /** The sum of `chunk_tokens` over the chunks. */
  function SumTokens(cs: seq<Chunking.ChunkRecord>): int {
    if cs == [] then 0 else SumTokens(cs[..|cs| - 1]) + cs[|cs| - 1].chunkTokens
  }

  /** The final report: the average is set only when some chunk was made. */
  function Report(acc: Acc): (r: Acc)
    ensures r.chunks == acc.chunks
    ensures acc.chunks == [] ==> r.stats == acc.stats
    ensures acc.chunks != [] ==>
      && r.stats == acc.stats.(avgTokensPerChunk := r.stats.avgTokensPerChunk)
      && r.stats.avgTokensPerChunk * |acc.chunks| <= SumTokens(acc.chunks)
      && SumTokens(acc.chunks) < (r.stats.avgTokensPerChunk + 1) * |acc.chunks|
  {
    if acc.chunks == [] then acc
    else Acc(acc.chunks, acc.stats.(avgTokensPerChunk := SumTokens(acc.chunks) / |acc.chunks|))
  }

  /** The labelled document text, assembled part by part as `main` does. */
  method AssembleText(a: Article) returns (fullText: string)
    ensures fullText == FullText(a)
  {
    var parts: seq<string> := [];
    if Present(a.title) {
      parts := parts + ["Title: " + a.title.value];
    }
    if Present(a.abstractText) {
      parts := parts + ["Abstract: " + a.abstractText.value];
    }
    if Present(a.authors) {
      parts := parts + ["Authors: " + Join(Take(a.authors.value, 3), ", ")];
    }
    if Present(a.concepts) {
      parts := parts + ["Keywords: " + Join(Take(a.concepts.value, 5), ", ")];
    }
    assert parts == Parts(a);
    fullText := Join(parts, " ");
  }

  /** The reading loop of `main` and its final report. */
  method ProcessLines(tk: Tokenizer, prepass: string -> string, parse: string -> Option<Decoded>, lines: seq<string>)
    returns (allChunks: seq<Chunking.ChunkRecord>, stats: Stats)
    requires AllTerminate(tk, prepass, parse, lines)
    ensures Acc(allChunks, stats) == Report(Run(tk, prepass, parse, lines))
  {
    allChunks := [];
    stats := NoStats;
    var k := 0;
    while k < |lines|
      invariant k <= |lines|
      invariant Acc(allChunks, stats) == Run(tk, prepass, parse, lines[..k])
    {
      assert lines[..k + 1][..k] == lines[..k];
      allChunks, stats := ProcessLine(tk, prepass, parse, allChunks, stats, lines[k], k + 1);
      k := k + 1;
    }
    assert lines[..k] == lines;
    if allChunks != [] {
      var totalTokens := SumTokens(allChunks);
      stats := stats.(avgTokensPerChunk := totalTokens / |allChunks|);
    }
  }

  /** One pass of the reading loop. */
  method ProcessLine(tk: Tokenizer, prepass: string -> string, parse: string -> Option<Decoded>,
                     chunks0: seq<Chunking.ChunkRecord>, stats0: Stats, line: string, lineNum: nat)
    returns (allChunks: seq<Chunking.ChunkRecord>, stats: Stats)
    requires LineTerminates(tk, prepass, parse, line)
    ensures Acc(allChunks, stats) == Step(tk, prepass, parse, Acc(chunks0, stats0), line, lineNum)
  {
    allChunks, stats := chunks0, stats0;
    BlankIffStripEmpty(line);
    if Strip(line) == "" {
      return;
    }
    var parsed := parse(line);
    if parsed.None? {
      return;
    }
    if parsed.value.NotObject? {
      stats := stats0.(totalArticles := stats0.totalArticles + 1);
      return;
    }
    allChunks, stats := ProcessArticle(tk, prepass, chunks0, stats0, parsed.value.article, lineNum);
  }

  /** The body of the reading loop for a decoded article. */
  method ProcessArticle(tk: Tokenizer, prepass: string -> string,
                        chunks0: seq<Chunking.ChunkRecord>, stats0: Stats, article: Article, lineNum: nat)
    returns (allChunks: seq<Chunking.ChunkRecord>, stats: Stats)
    requires ArticleTerminates(tk, prepass, article)
    ensures Acc(allChunks, stats) == StepArticle(tk, prepass, Acc(chunks0, stats0), article, lineNum)
  {
    var counted := stats0.(totalArticles := stats0.totalArticles + 1);
    var cleaned := CleanArticle(prepass, article);
    if |cleaned| < MinCleanedLength {
      allChunks, stats := chunks0, counted.(skippedArticles := counted.skippedArticles + 1);
    } else {
      allChunks, stats := KeepArticle(tk, chunks0, counted, article, cleaned, lineNum);
    }
  }

  /** The document text of an article, assembled and cleaned. */
  method CleanArticle(prepass: string -> string, article: Article) returns (cleaned: string)
    ensures cleaned == Cleaned(prepass, article)
  {
    var fullText := AssembleText(article);
    cleaned := Cleaning.CleanText(prepass, fullText);
  }

  /** The rest of the loop body for an article that is long enough: count
      its year and country, then split it. With a null title the split
      raises before it returns, so only the year and country stay counted. */
  method KeepArticle(tk: Tokenizer, chunks0: seq<Chunking.ChunkRecord>, stats0: Stats,
                     article: Article, cleaned: string, lineNum: nat)
    returns (allChunks: seq<Chunking.ChunkRecord>, stats: Stats)
    requires !article.titleNull ==> Chunking.SplitTerminates(tk, cleaned, Chunking.MaxTokensPerChunk, Chunking.OverlapTokens)
    ensures article.titleNull ==> allChunks == chunks0 && stats == CountMetadata(stats0, article)
    ensures !article.titleNull ==>
      var cs := Chunking.Split(tk, cleaned, MetadataOf(article, lineNum), Chunking.MaxTokensPerChunk, Chunking.OverlapTokens);
      var counted := CountMetadata(stats0, article);
      allChunks == chunks0 + cs && stats == counted.(totalChunks := counted.totalChunks + |cs|)
    ensures Acc(allChunks, stats) == Kept(tk, chunks0, stats0, article, cleaned, lineNum)
  {
    var meta := MetadataOf(article, lineNum);
    stats := stats0;
    if HasYear(article) {
      stats := stats.(articlesWithYear := stats.articlesWithYear + 1);
    }
    if HasCountry(article) {
      stats := stats.(articlesWithCountry := stats.articlesWithCountry + 1);
    }
    assert stats == CountMetadata(stats0, article);
    if article.titleNull {
      allChunks := chunks0;
      return;
    }
    allChunks, stats := KeepChunks(tk, cleaned, meta, chunks0, stats);
  }

  /** The end of the loop body for a kept article: split its cleaned text
      and append the chunks. */
  method KeepChunks(tk: Tokenizer, cleaned: string, meta: Chunking.Metadata,
                    chunks0: seq<Chunking.ChunkRecord>, stats0: Stats)
    returns (allChunks: seq<Chunking.ChunkRecord>, stats: Stats)
    requires Chunking.SplitTerminates(tk, cleaned, Chunking.MaxTokensPerChunk, Chunking.OverlapTokens)
    ensures var cs := Chunking.Split(tk, cleaned, meta, Chunking.MaxTokensPerChunk, Chunking.OverlapTokens);
      allChunks == chunks0 + cs && stats == stats0.(totalChunks := stats0.totalChunks + |cs|)
  {
    allChunks, stats := chunks0, stats0;
    var chunks := Chunking.SplitIntoChunks(tk, cleaned, meta, Chunking.MaxTokensPerChunk, Chunking.OverlapTokens);
    if chunks != [] {
      allChunks := allChunks + chunks;
      stats := stats.(totalChunks := stats.totalChunks + |chunks|);
    }
  }

  /** A non-blank line that decodes to a JSON value: `main` counts it as an
      article whatever the value is. */
  predicate Decodes(parse: string -> Option<Decoded>, line: string) {
    !IsBlank(line) && parse(line).Some?
  }

  /** The lines that decode. */
  function ArticleCount(parse: string -> Option<Decoded>, lines: seq<string>): nat {
    if lines == [] then 0
    else ArticleCount(parse, lines[..|lines| - 1]) + (if Decodes(parse, lines[|lines| - 1]) then 1 else 0)
  }

  /** The counters agree with each other: `total_chunks` is the number of
      chunks collected, every decoded line counts as one article, skipped
      articles are among them, and only kept articles count a year or a
      country. */
  predicate Accounted(acc: Acc, articles: nat) {
    && acc.stats.totalChunks == |acc.chunks|
    && acc.stats.totalArticles == articles
    && acc.stats.skippedArticles <= acc.stats.totalArticles
    && acc.stats.articlesWithYear + acc.stats.skippedArticles <= acc.stats.totalArticles
    && acc.stats.articlesWithCountry + acc.stats.skippedArticles <= acc.stats.totalArticles
    && acc.stats.avgTokensPerChunk == 0
  }

  lemma {:induction false} RunAccounted(tk: Tokenizer, prepass: string -> string, parse: string -> Option<Decoded>, lines: seq<string>)
    requires AllTerminate(tk, prepass, parse, lines)
    ensures Accounted(Run(tk, prepass, parse, lines), ArticleCount(parse, lines))
    decreases |lines|
  {
    if lines != [] {
      var n := |lines|;
      assert AllTerminate(tk, prepass, parse, lines[..n - 1]);
      RunAccounted(tk, prepass, parse, lines[..n - 1]);
      StepAccounted(tk, prepass, parse, Run(tk, prepass, parse, lines[..n - 1]), ArticleCount(parse, lines[..n - 1]), lines[n - 1], n);
    }
  }

  /** One line keeps the counters in agreement. */
  lemma StepAccounted(tk: Tokenizer, prepass: string -> string, parse: string -> Option<Decoded>,
                      acc: Acc, articles: nat, line: string, lineNum: nat)
    requires LineTerminates(tk, prepass, parse, line) && Accounted(acc, articles)
    ensures Accounted(Step(tk, prepass, parse, acc, line, lineNum), articles + (if Decodes(parse, line) then 1 else 0))
  {
    if Decodes(parse, line) && parse(line).value.Object? {
      ArticleOutcome(tk, prepass, acc, parse(line).value.article, lineNum);
    }
  }

  /** Each article ends up in exactly one way: a short cleaned text is
      counted as skipped and adds no chunk; otherwise its year and country
      are counted, and its chunks, the split of its cleaned text, are
      appended after all earlier chunks unless a null title makes the split
      raise, in which case none are. */
  lemma ArticleOutcome(tk: Tokenizer, prepass: string -> string, acc: Acc, a: Article, lineNum: nat)
    requires ArticleTerminates(tk, prepass, a)
    ensures var r := StepArticle(tk, prepass, acc, a, lineNum);
      var short := |Cleaned(prepass, a)| < MinCleanedLength;
      && r.stats.totalArticles == acc.stats.totalArticles + 1
      && r.stats.avgTokensPerChunk == acc.stats.avgTokensPerChunk
      && r.stats.totalChunks - |r.chunks| == acc.stats.totalChunks - |acc.chunks|
      && (short ==> && r.chunks == acc.chunks
                    && r.stats.skippedArticles == acc.stats.skippedArticles + 1
                    && r.stats.articlesWithYear == acc.stats.articlesWithYear
                    && r.stats.articlesWithCountry == acc.stats.articlesWithCountry)
      && (!short && a.titleNull ==> r.chunks == acc.chunks)
      && (!short && !a.titleNull ==> r.chunks == acc.chunks + ArticleChunks(tk, prepass, a, lineNum))
      && (!short ==> && r.stats.skippedArticles == acc.stats.skippedArticles
                     && r.stats.articlesWithYear == acc.stats.articlesWithYear + (if HasYear(a) then 1 else 0)
                     && r.stats.articlesWithCountry == acc.stats.articlesWithCountry + (if HasCountry(a) then 1 else 0))
  {
  }

  /** An article with no title, abstract, authors or concepts is skipped. */
  lemma EmptyArticleSkipped(prepass: string -> string, a: Article)
    requires !Present(a.title) && !Present(a.abstractText) && !Present(a.authors) && !Present(a.concepts)
    ensures |Cleaned(prepass, a)| < MinCleanedLength
  {
  }

  /** Only the first three authors reach the document text. */
  lemma AuthorsCappedAtThree(a: Article, more: seq<string>)
    requires a.authors.Some? && |a.authors.value| >= 3
    ensures FullText(a.(authors := Some(a.authors.value + more))) == FullText(a)
  {
    var b := a.(authors := Some(a.authors.value + more));
    assert Take(b.authors.value, 3) == Take(a.authors.value, 3);
    assert Parts(b) == Parts(a);
  }

  /** Only the first five concepts reach the document text. */
  lemma ConceptsCappedAtFive(a: Article, more: seq<string>)
    requires a.concepts.Some? && |a.concepts.value| >= 5
    ensures FullText(a.(concepts := Some(a.concepts.value + more))) == FullText(a)
  {
    var b := a.(concepts := Some(a.concepts.value + more));
    assert Take(b.concepts.value, 5) == Take(a.concepts.value, 5);
    assert Parts(b) == Parts(a);
  }
}

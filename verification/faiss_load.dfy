/**
 * `load_chunks` of the index builder: every line of the chunks file is
 * validated, its metadata filled with defaults and normalised, and counted
 * in exactly one of the statistics' counters.
 */
module FaissLoad {
  import opened Text

  /** A value as `json.loads` returns it: None, a bool, a number, a string,
      a list or a dict. */
  datatype Value =
    | VNull
    | VBool(b: bool)
    | VNum(n: int)
    | VStr(s: string)
    | VList(items: seq<Value>)
    | VObj(fields: map<string, Value>)

  /** Python's `str(x)`, which the model takes as given. */
  type Render = Value -> string

  /** `json.loads` of one line; None where it raises. */
  type JsonParser = string -> Option<Value>

  datatype Document = Document(pageContent: string, metadata: map<string, Value>)

  /** What one record contributes. */
  datatype Outcome = Loaded(doc: Document) | SkippedShort | SkippedInvalid | Failed

  datatype LoadStats = LoadStats(total: nat, loaded: nat, skippedShort: nat, skippedInvalid: nat, errors: nat)

  /** The documents returned and the counters kept. */
  datatype Loading = Loading(docs: seq<Document>, stats: LoadStats)

  const DefaultTitle: string := "Без названия"
  const Undetermined: string := "Не определено"
  const TitleLimit: nat := 200

  /** The keys every loaded document's metadata has. */
  const MetadataKeys: set<string> := {
    "chunk_id", "title", "source", "pdf_url", "doi", "year", "country", "authors",
    "type", "total_tokens", "chunk_tokens", "start_token", "end_token", "is_full_text"
  }

  /** Python's `len(v)`; None where it raises. */
  function Len(v: Value): (n: Option<nat>)
    ensures n.Some? <==> v.VStr? || v.VList? || v.VObj?
    ensures v.VStr? ==> n == Some(|v.s|)
  {
    match v
    case VStr(s) => Some(|s|)
    case VList(xs) => Some(|xs|)
    case VObj(m) => Some(|m.Keys|)
    case _ => None
  }

  /** `v[:n]`; None where slicing raises. */
  function Cut(v: Value, n: nat): (r: Option<Value>)
    ensures r.Some? <==> v.VStr? || v.VList?
    ensures v.VStr? && r.Some? ==> r.value.VStr? && |r.value.s| <= n && r.value.s <= v.s
    ensures v.VList? && r.Some? ==> r.value.VList? && |r.value.items| <= n && r.value.items <= v.items
  {
    match v
    case VStr(s) => Some(VStr(Take(s, n)))
    case VList(xs) => Some(VList(Take(xs, n)))
    case _ => None
  }

  /** `d.get(k, default)` */
  function GetOr(m: map<string, Value>, k: string, default: Value): Value {
    if k in m then m[k] else default
  }

  /** The default of a metadata key when the record lacks it. */
  function Default(k: string, lineNum: nat): (d: Value)
    ensures NoNull(d) && (d.VList? ==> d.items == [])
  {
    if k == "chunk_id" then VStr("chunk_" + Decimal(lineNum))
    else if k == "title" then VStr(DefaultTitle)
    else if k in {"source", "pdf_url", "doi"} then VStr("")
    else if k in {"year", "country"} then VStr(Undetermined)
    else if k == "authors" then VList([])
    else if k == "type" then VStr("research")
    else if k in {"total_tokens", "chunk_tokens", "start_token", "end_token"} then VNum(0)
    else VBool(false)
  }

  /** The metadata dict built from a record, before normalisation; None
      where cutting the title raises. */
  function RawMetadata(m: map<string, Value>, lineNum: nat): (md: Option<map<string, Value>>)
    ensures md.Some? <==> Cut(GetOr(m, "title", VStr(DefaultTitle)), TitleLimit).Some?
    ensures md.Some? ==> md.value.Keys == MetadataKeys
  {
    var title := Cut(GetOr(m, "title", Default("title", lineNum)), TitleLimit);
    if title.None? then None
    else Some(map k | k in MetadataKeys :: if k == "title" then title.value else GetOr(m, k, Default(k, lineNum)))
  }

  /** No None at the top and none inside a list. */
  predicate NoNull(v: Value) {
    v != VNull && (v.VList? ==> forall i :: 0 <= i < |v.items| ==> v.items[i] != VNull)
  }

  /** One metadata value after normalisation: None becomes "", a list has
      each element rendered with `str`, and None elements become "". */
  function NormalValue(v: Value, str: Render): (r: Value)
    ensures NoNull(r)
    ensures v != VNull && !v.VList? ==> r == v
    ensures v.VList? ==> r.VList? && |r.items| == |v.items|
  {
    match v
    case VNull => VStr("")
    case VList(xs) => VList(seq(|xs|, i requires 0 <= i < |xs| => if xs[i] == VNull then VStr("") else VStr(str(xs[i]))))
    case _ => v
  }

  function Normalized(md: map<string, Value>, str: Render): (r: map<string, Value>)
    ensures r.Keys == md.Keys
    ensures forall k :: k in r ==> NoNull(r[k])
  {
    map k | k in md :: NormalValue(md[k], str)
  }

  /** The normalisation loop: every entry of the dict is rewritten in place. */
  method NormalizeMetadata(metadata: map<string, Value>, str: Render) returns (normalized: map<string, Value>)
    ensures normalized == Normalized(metadata, str)
  {
    normalized := metadata;
    var pending := metadata.Keys;
    while pending != {}
      invariant pending <= metadata.Keys && normalized.Keys == metadata.Keys
      invariant forall k :: k in metadata ==>
        normalized[k] == (if k in pending then metadata[k] else NormalValue(metadata[k], str))
      decreases |pending|
    {
      var k :| k in pending;
      var v := normalized[k];
      if v == VNull {
        normalized := normalized[k := VStr("")];
      } else if v.VList? {
        normalized := normalized[k := VList(seq(|v.items|, i requires 0 <= i < |v.items| =>
          if v.items[i] == VNull then VStr("") else VStr(str(v.items[i]))))];
      }
      pending := pending - {k};
    }
  }

  /** What one decoded record contributes. A record that is not a dict, a
      `chunk_text` without a length, a title that cannot be sliced, or a
      `chunk_text` that is not a string all raise and count as errors. */
  function RecordOutcome(data: Value, lineNum: nat, minLength: int, str: Render): Outcome {
    if !data.VObj? then Failed
    else
      var m := data.fields;
      if "chunk_text" !in m then
        if 0 < minLength then SkippedShort else SkippedInvalid
      else
        var n := Len(m["chunk_text"]);
        if n.None? then Failed
        else if n.value < minLength then SkippedShort
        else
          var md := RawMetadata(m, lineNum);
          if md.None? || !m["chunk_text"].VStr? then Failed
          else Loaded(Document(Strip(m["chunk_text"].s), Normalized(md.value, str)))
  }

  /** A line's outcome; None for a blank line, which is only counted. */
  function LineOutcome(line: string, lineNum: nat, minLength: int, parse: JsonParser, str: Render): (o: Option<Outcome>)
    ensures o.None? <==> Strip(line) == ""
  {
    if Strip(line) == "" then None
    else
      var data := parse(line);
      if data.None? then Some(Failed) else Some(RecordOutcome(data.value, lineNum, minLength, str))
  }

  /** The counter a line's outcome increments. */
  function Counted(s: LoadStats, o: Option<Outcome>): LoadStats {
    match o
    case None => s
    case Some(Loaded(_)) => s.(loaded := s.loaded + 1)
    case Some(SkippedShort) => s.(skippedShort := s.skippedShort + 1)
    case Some(SkippedInvalid) => s.(skippedInvalid := s.skippedInvalid + 1)
    case Some(Failed) => s.(errors := s.errors + 1)
  }

  /** The counters after one more line. */
  function Tally(stats: LoadStats, o: Option<Outcome>): LoadStats {
    Counted(stats.(total := stats.total + 1), o)
  }

  function Loads(o: Option<Outcome>): seq<Document> {
    if o.Some? && o.value.Loaded? then [o.value.doc] else []
  }

  /** The outcome of a line given its 1-based number. */
  type LineFn = (string, nat) -> Option<Outcome>

  function LineFnOf(minLength: int, parse: JsonParser, str: Render): LineFn {
    (line: string, lineNum: nat) => LineOutcome(line, lineNum, minLength, parse, str)
  }

  /** The documents and counters after the given lines, numbered from 1,
      each line having the outcome `outcome` gives it. */
  function Fold(lines: seq<string>, outcome: LineFn): Loading
    decreases |lines|
  {
    if lines == [] then Loading([], LoadStats(0, 0, 0, 0, 0))
    else
      var before := Fold(lines[..|lines| - 1], outcome);
      var o := outcome(lines[|lines| - 1], |lines|);
      Loading(before.docs + Loads(o), Tally(before.stats, o))
  }

  /** What `load_chunks` returns and counts for the given lines. */
  function Load(lines: seq<string>, minLength: int, parse: JsonParser, str: Render): Loading {
    Fold(lines, LineFnOf(minLength, parse, str))
  }

  /** The per-record body of the loop. */
  method LoadRecord(data: Value, lineNum: nat, minLength: int, str: Render) returns (outcome: Outcome)
    ensures outcome == RecordOutcome(data, lineNum, minLength, str)
  {
    if !data.VObj? {
      return Failed;
    }
    var m := data.fields;
    if "chunk_text" !in m || Len(m["chunk_text"]) == None || Len(m["chunk_text"]).value < minLength {
      if "chunk_text" in m && Len(m["chunk_text"]) == None {
        return Failed;
      }
      var n := Len(GetOr(m, "chunk_text", VStr(""))).value;
      outcome := if n < minLength then SkippedShort else SkippedInvalid;
      return;
    }
    var metadata := RawMetadata(m, lineNum);
    if metadata.None? || !m["chunk_text"].VStr? {
      return Failed;
    }
    var normalized := NormalizeMetadata(metadata.value, str);
    outcome := Loaded(Document(Strip(m["chunk_text"].s), normalized));
  }

  /** One line: blank lines are skipped, a line `json.loads` rejects is an
      error, anything else is a record. */
  method LoadLine(line: string, lineNum: nat, minLength: int, parse: JsonParser, str: Render)
    returns (outcome: Option<Outcome>)
    ensures outcome == LineOutcome(line, lineNum, minLength, parse, str)
  {
    if Strip(line) == "" {
      return None;
    }
    var data := parse(line);
    if data.None? {
      return Some(Failed);
    }
    var record := LoadRecord(data.value, lineNum, minLength, str);
    outcome := Some(record);
  }

  /** Keeps a loaded document and increments the matching counter. */
  method CountOutcome(documents: seq<Document>, stats: LoadStats, outcome: Option<Outcome>)
    returns (documents': seq<Document>, stats': LoadStats)
    ensures documents' == documents + Loads(outcome) && stats' == Counted(stats, outcome)
  {
    documents', stats' := documents, stats;
    match outcome {
      case None =>
      case Some(Loaded(doc)) =>
        documents' := documents + [doc];
        stats' := stats.(loaded := stats.loaded + 1);
      case Some(SkippedShort) =>
        stats' := stats.(skippedShort := stats.skippedShort + 1);
      case Some(SkippedInvalid) =>
        stats' := stats.(skippedInvalid := stats.skippedInvalid + 1);
      case Some(Failed) =>
        stats' := stats.(errors := stats.errors + 1);
    }
  }

  /** `load_chunks` over the lines of the file. */
  method LoadChunks(lines: seq<string>, minLength: int, parse: JsonParser, str: Render)
    returns (documents: seq<Document>, stats: LoadStats)
    ensures Loading(documents, stats) == Load(lines, minLength, parse, str)
  {
    ghost var outcomeOf := LineFnOf(minLength, parse, str);
    documents := [];
    stats := LoadStats(0, 0, 0, 0, 0);
    var k := 0;
    while k < |lines|
      invariant k <= |lines|
      invariant Loading(documents, stats) == Fold(lines[..k], outcomeOf)
    {
      assert lines[..k + 1][..k] == lines[..k];
      var lineNum := k + 1;
      var line := lines[k];
      stats := stats.(total := stats.total + 1);
      var outcome := LoadLine(line, lineNum, minLength, parse, str);
      assert outcome == outcomeOf(line, lineNum);
      documents, stats := CountOutcome(documents, stats, outcome);
      k := k + 1;
    }
    assert lines[..k] == lines;
  }

  /** The number of lines `outcome` does not pass over. */
  function Attempted(lines: seq<string>, outcome: LineFn): nat
    decreases |lines|
  {
    if lines == [] then 0
    else Attempted(lines[..|lines| - 1], outcome) + (if outcome(lines[|lines| - 1], |lines|).None? then 0 else 1)
  }

  /** The number of non-blank lines. */
  function NonBlank(lines: seq<string>): nat
    decreases |lines|
  {
    if lines == [] then 0
    else NonBlank(lines[..|lines| - 1]) + (if Strip(lines[|lines| - 1]) == "" then 0 else 1)
  }

  lemma {:induction false} FoldAccounting(lines: seq<string>, outcome: LineFn)
    ensures var r := Fold(lines, outcome);
      var docs, stats := r.docs, r.stats;
      && stats.total == |lines|
      && stats.loaded == |docs|
      && stats.loaded + stats.skippedShort + stats.skippedInvalid + stats.errors == Attempted(lines, outcome)
    decreases |lines|
  {
    if lines != [] {
      FoldAccounting(lines[..|lines| - 1], outcome);
    }
  }

  lemma {:induction false} AttemptedNonBlank(lines: seq<string>, minLength: int, parse: JsonParser, str: Render)
    ensures Attempted(lines, LineFnOf(minLength, parse, str)) == NonBlank(lines)
    decreases |lines|
  {
    if lines != [] {
      AttemptedNonBlank(lines[..|lines| - 1], minLength, parse, str);
    }
  }

  /** Every line is counted in `total`; every non-blank line in exactly one
      of the four outcome counters; `loaded` is the number of documents. */
  lemma LoadAccounting(lines: seq<string>, minLength: int, parse: JsonParser, str: Render)
    ensures var r := Load(lines, minLength, parse, str);
      var docs, stats := r.docs, r.stats;
      && stats.total == |lines|
      && stats.loaded == |docs|
      && stats.loaded + stats.skippedShort + stats.skippedInvalid + stats.errors == NonBlank(lines)
  {
    FoldAccounting(lines, LineFnOf(minLength, parse, str));
    AttemptedNonBlank(lines, minLength, parse, str);
  }

  /** Blank lines contribute nothing but a count. */
  lemma BlankLineOnlyCounted(lines: seq<string>, line: string, minLength: int, parse: JsonParser, str: Render)
    requires Strip(line) == ""
    ensures var r := Load(lines, minLength, parse, str);
      Load(lines + [line], minLength, parse, str) == r.(stats := r.stats.(total := r.stats.total + 1))
  {
    assert (lines + [line])[..|lines|] == lines;
    assert LineFnOf(minLength, parse, str)(line, |lines| + 1) == None;
  }

  /** A record is counted as invalid exactly when it is a dict without
      `chunk_text` and the minimum length is not positive; a missing
      `chunk_text` otherwise counts as short. */
  lemma SkippedInvalidSpec(data: Value, lineNum: nat, minLength: int, str: Render)
    ensures RecordOutcome(data, lineNum, minLength, str) == SkippedInvalid
      <==> data.VObj? && "chunk_text" !in data.fields && minLength <= 0
    ensures data.VObj? && "chunk_text" !in data.fields && 0 < minLength
      ==> RecordOutcome(data, lineNum, minLength, str) == SkippedShort
  {
  }

  /** `chunk_text` is missing under a positive minimum, or has a length
      below the minimum. */
  predicate ShortText(m: map<string, Value>, minLength: int) {
    if "chunk_text" !in m then 0 < minLength
    else Len(m["chunk_text"]).Some? && Len(m["chunk_text"]).value < minLength
  }

  /** A record is skipped as short exactly when its `chunk_text` is missing
      (with a positive minimum) or has a length below the minimum. */
  lemma SkippedShortSpec(data: Value, lineNum: nat, minLength: int, str: Render)
    ensures RecordOutcome(data, lineNum, minLength, str) == SkippedShort
      <==> data.VObj? && ShortText(data.fields, minLength)
  {
  }

  /** A record loads exactly when it is a dict whose `chunk_text` is a
      string of at least the minimum length and whose title can be sliced. */
  lemma LoadedIff(data: Value, lineNum: nat, minLength: int, str: Render)
    ensures RecordOutcome(data, lineNum, minLength, str).Loaded? <==>
      && data.VObj? && "chunk_text" in data.fields && data.fields["chunk_text"].VStr?
      && |data.fields["chunk_text"].s| >= minLength
      && Cut(GetOr(data.fields, "title", VStr(DefaultTitle)), TitleLimit).Some?
  {
  }

  /** A loaded document holds the stripped text, and metadata with every
      key, no None and the title cut to 200 characters. */
  lemma LoadedDocument(data: Value, lineNum: nat, minLength: int, str: Render)
    requires RecordOutcome(data, lineNum, minLength, str).Loaded?
    ensures var m := data.fields;
      var doc := RecordOutcome(data, lineNum, minLength, str).doc;
      && doc.pageContent == Strip(m["chunk_text"].s)
      && doc.metadata.Keys == MetadataKeys
      && (forall k :: k in doc.metadata ==> NoNull(doc.metadata[k]))
      && (doc.metadata["title"].VStr? ==> |doc.metadata["title"].s| <= TitleLimit)
      && (doc.metadata["title"].VList? ==> |doc.metadata["title"].items| <= TitleLimit)
  {
  }

  /** A key the record lacks takes its default, unchanged by normalisation. */
  lemma LoadedDefault(data: Value, lineNum: nat, minLength: int, str: Render, k: string)
    requires RecordOutcome(data, lineNum, minLength, str).Loaded?
    requires k in MetadataKeys && k !in data.fields
    ensures RecordOutcome(data, lineNum, minLength, str).doc.metadata[k] == Default(k, lineNum)
  {
    var md := RawMetadata(data.fields, lineNum).value;
    assert RecordOutcome(data, lineNum, minLength, str).doc.metadata == Normalized(md, str);
    var d := Default(k, lineNum);
    if k == "title" {
      assert Take(DefaultTitle, TitleLimit) == DefaultTitle;
      assert md[k] == VStr(DefaultTitle) == d;
    } else {
      assert md[k] == d;
    }
    assert NormalValue(d, str) == d;
  }

  /** The defaults of the keys with a fixed one. */
  lemma DefaultValues(lineNum: nat)
    ensures Default("title", lineNum) == VStr(DefaultTitle)
    ensures Default("chunk_id", lineNum) == VStr("chunk_" + Decimal(lineNum))
    ensures Default("total_tokens", lineNum) == VNum(0) && Default("chunk_tokens", lineNum) == VNum(0)
    ensures Default("start_token", lineNum) == VNum(0) && Default("end_token", lineNum) == VNum(0)
    ensures Default("is_full_text", lineNum) == VBool(false)
  {
  }

  /** A null title is sliced before normalisation reaches it, so the record
      raises and counts as an error. */
  lemma NullTitleFails(text: string, lineNum: nat, str: Render)
    requires |text| >= 100
    ensures RecordOutcome(VObj(map["chunk_text" := VStr(text), "title" := VNull]), lineNum, 100, str) == Failed
  {
  }
}

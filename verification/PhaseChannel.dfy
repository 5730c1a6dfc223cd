/**
  The phase channel between the qualification processes: `writePhase` prints one JSON record a
  line, and `PhaseReader` recovers the records from a byte stream cut into arbitrary chunks.
 */
module PhaseChannel {
  import opened Text
  import opened Json

  // ----------------------------------------------------------------- lines

  /** The length of the line break the text begins with, or zero. */
  function Break(text: string): (n: nat)
    ensures n <= |text|
  {
    if |text| > 0 && text[0] == '\n' then 1
    else if |text| > 1 && text[0] == '\r' && text[1] == '\n' then 2
    else 0
  }

  /** Prefixes the first line with a character. */
  function Glue(c: char, lines: seq<string>): (r: seq<string>)
    requires lines != []
    ensures |r| == |lines|
  {
    [[c] + lines[0]] + lines[1..]
  }

  /** `text.split(/\r?\n/)`. */
  function SplitLines(text: string): (lines: seq<string>)
    ensures lines != []
    decreases |text|
  {
    if text == "" then [""]
    else if Break(text) > 0 then [""] + SplitLines(text[Break(text)..])
    else Glue(text[0], SplitLines(text[1..]))
  }

  /** The complete lines of a stream: all but the last piece. */
  function Complete(text: string): seq<string> {
    var lines := SplitLines(text);
    lines[..|lines| - 1]
  }

  /** The piece after the last line break. */
  function Rest(text: string): string {
    var lines := SplitLines(text);
    lines[|lines| - 1]
  }

  lemma {:induction false} Unbroken(text: string)
    requires |SplitLines(text)| == 1
    ensures SplitLines(text) == [text]
  {
    if text != "" {
      Unbroken(text[1..]);
      assert [text[0]] + text[1..] == text;
    }
  }

  lemma GlueAppend(c: char, front: seq<string>, back: seq<string>)
    requires front != []
    ensures Glue(c, front + back) == Glue(c, front) + back
  {
  }

  /** Splitting can be resumed from the last piece, even when a line break is cut in half. */
  lemma {:induction false} SplitResumes(a: string, b: string)
    ensures SplitLines(a + b) == Complete(a) + SplitLines(Rest(a) + b)
    decreases |a|
  {
    var la := SplitLines(a);
    var n := Break(a);
    if |la| == 1 {
      Unbroken(a);
      assert Complete(a) == [] && Rest(a) == a;
    } else if n > 0 {
      SplitResumes(a[n..], b);
      ResumeAfterBreak(a, b, a[n..]);
    } else {
      SplitResumes(a[1..], b);
      ResumeGlued(a, b);
    }
  }

  lemma SplitBreaks(text: string)
    requires Break(text) > 0
    ensures SplitLines(text) == [""] + SplitLines(text[Break(text)..])
  {
  }

  lemma BreakIsKept(a: string, b: string)
    requires Break(a) > 0
    ensures Break(a + b) == Break(a) && (a + b)[Break(a)..] == a[Break(a)..] + b
  {
  }

  /** What a line in front changes: it comes first, and the remainder stays. */
  lemma FrontLine(text: string, line: string, rest: string)
    requires SplitLines(text) == [line] + SplitLines(rest)
    ensures Complete(text) == [line] + Complete(rest) && Rest(text) == Rest(rest)
  {
  }

  /** The step over a line break. */
  lemma ResumeAfterBreak(a: string, b: string, rest: string)
    requires Break(a) > 0 && rest == a[Break(a)..]
    requires SplitLines(rest + b) == Complete(rest) + SplitLines(Rest(rest) + b)
    ensures SplitLines(a + b) == Complete(a) + SplitLines(Rest(a) + b)
  {
    BreakIsKept(a, b);
    SplitBreaks(a);
    SplitBreaks(a + b);
    FrontLine(a, "", rest);
  }

  lemma GlueEnds(c: char, lines: seq<string>)
    requires |lines| > 1
    ensures Glue(c, lines)[..|lines| - 1] == Glue(c, lines[..|lines| - 1])
    ensures Glue(c, lines)[|lines| - 1] == lines[|lines| - 1]
  {
  }

  lemma SplitGlues(text: string)
    requires text != "" && Break(text) == 0
    ensures SplitLines(text) == Glue(text[0], SplitLines(text[1..]))
  {
  }

  lemma BreakStays(a: string, b: string)
    requires |a| > 1 && Break(a) == 0
    ensures Break(a + b) == 0 && (a + b)[0] == a[0] && (a + b)[1..] == a[1..] + b
  {
  }

  /** The step over a character that is not part of a line break. */
  lemma ResumeGlued(a: string, b: string)
    requires |SplitLines(a)| > 1 && |a| > 1 && Break(a) == 0
    requires SplitLines(a[1..] + b) == Complete(a[1..]) + SplitLines(Rest(a[1..]) + b)
    ensures SplitLines(a + b) == Complete(a) + SplitLines(Rest(a) + b)
  {
    BreakStays(a, b);
    SplitGlues(a);
    SplitGlues(a + b);
    GlueEnds(a[0], SplitLines(a[1..]));
    GlueAppend(a[0], Complete(a[1..]), SplitLines(Rest(a[1..]) + b));
  }

  lemma {:induction false} SplitAfterLine(line: string, text: string)
    requires Printable(line)
    ensures SplitLines(line + "\n" + text) == [line] + SplitLines(text)
    decreases |line|
  {
    var all := line + "\n" + text;
    if line == "" {
      assert all[1..] == text;
    } else {
      var rest := line[1..] + "\n" + text;
      assert all[0] == line[0] >= ' ' && all[1..] == rest;
      SplitAfterLine(line[1..], text);
      SplitGlues(all);
      GlueLine(line, SplitLines(text));
    }
  }

  lemma GlueLine(line: string, lines: seq<string>)
    requires line != ""
    ensures Glue(line[0], [line[1..]] + lines) == [line] + lines
  {
    assert [line[0]] + line[1..] == line;
  }

  /** Lines, each followed by its own line break. */
  ghost function Terminated(lines: seq<string>, breaks: seq<string>): string
    requires |lines| == |breaks|
  {
    if lines == [] then "" else lines[0] + breaks[0] + Terminated(lines[1..], breaks[1..])
  }

  /** A line without a line break in it, followed by a line feed with or without a carriage return before it. */
  ghost predicate Line(line: string, ending: string) {
    && '\n' !in line
    && (ending == "\r\n" || (ending == "\n" && (line == "" || line[|line| - 1] != '\r')))
  }

  lemma {:induction false} SplitAtBreak(line: string, ending: string, text: string)
    requires Line(line, ending)
    ensures SplitLines(line + ending + text) == [line] + SplitLines(text)
    decreases |line|
  {
    var all := line + ending + text;
    if line == "" {
      assert Break(all) == |ending| && all[|ending|..] == text;
    } else {
      assert all[0] == line[0] && all[1..] == line[1..] + ending + text;
      assert |line| > 1 ==> all[1] == line[1];
      assert |line| == 1 ==> all[1] == ending[0];
      SplitAtBreak(line[1..], ending, text);
      SplitGlues(all);
      GlueLine(line, SplitLines(text));
    }
  }

  lemma {:induction false} OpenLine(text: string)
    requires '\n' !in text
    ensures SplitLines(text) == [text]
    decreases |text|
  {
    if text != "" {
      OpenLine(text[1..]);
      SplitGlues(text);
      assert [text[0]] + text[1..] == text;
    }
  }

  lemma FirstTerminated(lines: seq<string>, breaks: seq<string>, rest: string)
    requires |lines| == |breaks| && lines != []
    ensures Terminated(lines, breaks) + rest == lines[0] + breaks[0] + (Terminated(lines[1..], breaks[1..]) + rest)
  {
  }

  /** The lines of a text are read whatever breaks end them, and what follows the last break remains. */
  lemma {:induction false} LinesAreRead(lines: seq<string>, breaks: seq<string>, rest: string)
    requires |lines| == |breaks| && '\n' !in rest
    requires forall i :: 0 <= i < |lines| ==> Line(lines[i], breaks[i])
    ensures Complete(Terminated(lines, breaks) + rest) == lines && Rest(Terminated(lines, breaks) + rest) == rest
  {
    if lines == [] {
      assert "" + rest == rest;
      OpenLine(rest);
    } else {
      var more := Terminated(lines[1..], breaks[1..]) + rest;
      LinesAreRead(lines[1..], breaks[1..], rest);
      SplitAtBreak(lines[0], breaks[0], more);
      FrontLine(lines[0] + breaks[0] + more, lines[0], more);
      FirstTerminated(lines, breaks, rest);
    }
  }

  // ---------------------------------------------------------------- writing

  /** `{...object, key: value}`: an existing key keeps its place. */
  function Assign(entries: seq<Entry>, key: string, value: Json): (r: seq<Entry>)
    ensures Lookup(r, key) == Some(value)
    ensures forall k :: k != key ==> Lookup(r, k) == Lookup(entries, k)
  {
    if entries == [] then [Entry(key, value)]
    else if entries[0].key == key then [Entry(key, value)] + entries[1..]
    else [entries[0]] + Assign(entries[1..], key, value)
  }

  function AssignAll(entries: seq<Entry>, more: seq<Entry>): seq<Entry>
    decreases |more|
  {
    if more == [] then entries else AssignAll(Assign(entries, more[0].key, more[0].value), more[1..])
  }

  datatype Phase = Phase(name: string, details: seq<Entry>, at: string)

  /** The record `writePhase` prints: `{phase, ...value, at: timestamp()}`. */
  function Record(p: Phase): Json {
    Obj(Assign(AssignAll([Entry("phase", Str(p.name))], p.details), "at", Str(p.at)))
  }

  function WritePhase(p: Phase): string {
    Stringify(Record(p)) + "\n"
  }

  function WriteAll(phases: seq<Phase>): string {
    if phases == [] then "" else WritePhase(phases[0]) + WriteAll(phases[1..])
  }

  /** The last detail under `key`, or `otherwise`. */
  function LastDetail(details: seq<Entry>, key: string, otherwise: Json): Json {
    if details == [] then otherwise
    else LastDetail(details[1..], key, if details[0].key == key then details[0].value else otherwise)
  }

  /** The phase a record ends up with: its details may replace the name. */
  function PhaseOf(p: Phase): Json {
    LastDetail(p.details, "phase", Str(p.name))
  }

  /** A phase the reader keeps. */
  predicate IsTruthy(p: Phase) {
    Truthy(Some(PhaseOf(p)))
  }

  lemma {:induction false} AssignMembers(entries: seq<Entry>, key: string, value: Json, e: Entry)
    requires e in Assign(entries, key, value)
    ensures e == Entry(key, value) || e in entries
  {
    if entries != [] && entries[0].key != key && e != entries[0] {
      AssignMembers(entries[1..], key, value, e);
    }
  }

  lemma {:induction false} AssignDistinct(entries: seq<Entry>, key: string, value: Json)
    requires DistinctKeys(entries)
    ensures DistinctKeys(Assign(entries, key, value))
  {
    if entries != [] {
      if entries[0].key == key {
        var r := Assign(entries, key, value);
        assert forall i :: 0 <= i < |r| ==> r[i].key == entries[i].key;
      } else {
        AssignDistinct(entries[1..], key, value);
        var rest := Assign(entries[1..], key, value);
        forall j | 0 <= j < |rest| ensures entries[0].key != rest[j].key {
          AssignMembers(entries[1..], key, value, rest[j]);
        }
      }
    }
  }

  lemma AssignWellFormed(entries: seq<Entry>, key: string, value: Json)
    requires WellFormed(Obj(entries)) && WellFormed(value)
    ensures WellFormed(Obj(Assign(entries, key, value)))
  {
    AssignDistinct(entries, key, value);
    var r := Assign(entries, key, value);
    forall i | 0 <= i < |r| ensures WellFormed(r[i].value) {
      AssignMembers(entries, key, value, r[i]);
    }
  }

  ghost predicate WellFormedEntries(entries: seq<Entry>) {
    forall i :: 0 <= i < |entries| ==> WellFormed(entries[i].value)
  }

  lemma {:induction false} AssignLookup(entries: seq<Entry>, key: string, value: Json, wanted: string)
    ensures Lookup(Assign(entries, key, value), wanted) == if wanted == key then Some(value) else Lookup(entries, wanted)
  {
    if entries != [] {
      AssignLookup(entries[1..], key, value, wanted);
    }
  }

  lemma {:induction false} AssignAllReads(entries: seq<Entry>, more: seq<Entry>, key: string, value: Json)
    requires WellFormed(Obj(entries)) && WellFormedEntries(more) && Lookup(entries, key) == Some(value)
    ensures WellFormed(Obj(AssignAll(entries, more)))
    ensures Lookup(AssignAll(entries, more), key) == Some(LastDetail(more, key, value))
    decreases |more|
  {
    if more != [] {
      var first := more[0];
      AssignWellFormed(entries, first.key, first.value);
      AssignLookup(entries, first.key, first.value, key);
      AssignAllReads(Assign(entries, first.key, first.value), more[1..], key, if first.key == key then first.value else value);
    }
  }

  /** What the reader finds in a record. */
  lemma RecordReads(p: Phase)
    requires WellFormedEntries(p.details)
    ensures WellFormed(Record(p)) && Field(Record(p), "phase") == Some(PhaseOf(p))
  {
    var start := [Entry("phase", Str(p.name))];
    assert WellFormed(Obj(start));
    AssignAllReads(start, p.details, "phase", Str(p.name));
    AssignWellFormed(AssignAll(start, p.details), "at", Str(p.at));
    AssignLookup(AssignAll(start, p.details), "at", Str(p.at), "phase");
    assert "phase" != "at" by { assert |"phase"| != |"at"|; }
  }

  /** The last detail under a key is number `k`. */
  ghost predicate LastUnder(details: seq<Entry>, k: nat, key: string) {
    k < |details| && details[k].key == key && forall l :: k < l < |details| ==> details[l].key != key
  }

  ghost predicate HasDetail(details: seq<Entry>, key: string) {
    exists k: nat :: LastUnder(details, k, key)
  }

  /** What a written phase holds under a key: the time, else the last detail, else the name as the phase. */
  ghost predicate Holds(p: Phase, key: string, found: Option<Json>) {
    if key == "at" then found == Some(Str(p.at))
    else if HasDetail(p.details, key) then exists k: nat :: LastUnder(p.details, k, key) && found == Some(p.details[k].value)
    else found == if key == "phase" then Some(Str(p.name)) else None
  }

  lemma {:induction false} AssignAllLookup(entries: seq<Entry>, more: seq<Entry>, key: string) returns (k: nat)
    ensures HasDetail(more, key) ==> LastUnder(more, k, key) && Lookup(AssignAll(entries, more), key) == Some(more[k].value)
    ensures !HasDetail(more, key) ==> Lookup(AssignAll(entries, more), key) == Lookup(entries, key)
    decreases |more|
  {
    k := 0;
    if more != [] {
      var first, rest := more[0], more[1..];
      AssignLookup(entries, first.key, first.value, key);
      var j := AssignAllLookup(Assign(entries, first.key, first.value), rest, key);
      LastUnderRest(more, key);
      k := if HasDetail(rest, key) then j + 1 else 0;
    }
  }

  lemma LastUnderRest(details: seq<Entry>, key: string)
    requires details != []
    ensures forall k: nat :: LastUnder(details[1..], k, key) ==> LastUnder(details, k + 1, key)
    ensures !HasDetail(details[1..], key) ==> (HasDetail(details, key) <==> details[0].key == key)
    ensures !HasDetail(details[1..], key) && details[0].key == key ==> LastUnder(details, 0, key)
  {
    var rest := details[1..];
    forall k: nat | LastUnder(rest, k, key) ensures LastUnder(details, k + 1, key) {
      assert forall l :: k + 1 < l < |details| ==> details[l] == rest[l - 1];
    }
    if !HasDetail(rest, key) {
      NoDetail(rest, key);
      assert forall l :: 0 < l < |details| ==> details[l] == rest[l - 1];
      if k: nat :| LastUnder(details, k, key) {
        assert k == 0;
      }
      if details[0].key == key {
        assert LastUnder(details, 0, key);
      }
    }
  }

  lemma {:induction false} NoDetail(details: seq<Entry>, key: string)
    requires !HasDetail(details, key)
    ensures forall l :: 0 <= l < |details| ==> details[l].key != key
  {
    if details != [] {
      var n := |details| - 1;
      if details[n].key == key {
        assert LastUnder(details, n, key);
      } else {
        forall k: nat | LastUnder(details[..n], k, key) ensures LastUnder(details, k, key) {
          assert forall l :: k < l < n ==> details[..n][l] == details[l];
        }
        NoDetail(details[..n], key);
        assert forall l :: 0 <= l < n ==> details[..n][l] == details[l];
      }
    }
  }

  /** A record holds everything that was written, under every key. */
  lemma RecordExactly(p: Phase, key: string)
    ensures Holds(p, key, Field(Record(p), key))
  {
    var start := [Entry("phase", Str(p.name))];
    AssignLookup(AssignAll(start, p.details), "at", Str(p.at), key);
    var k := AssignAllLookup(start, p.details, key);
    assert start[1..] == [];
  }

  // ---------------------------------------------------------------- reading

  /** `JSON.parse`; None is a thrown SyntaxError. */
  type Parser = string -> Option<Json>

  /** Parsing undoes `JSON.stringify`. */
  ghost predicate ParsesJson(parse: Parser) {
    forall v :: WellFormed(v) ==> parse(Stringify(v)) == Some(v)
  }

  /** Such a parser exists, because no two values share a text. */
  lemma ParserExists()
    ensures exists parse :: ParsesJson(parse)
  {
    var parse: Parser := s => if exists v :: Stringify(v) == s then Some(Decode(s)) else None;
    forall v | WellFormed(v) ensures parse(Stringify(v)) == Some(v) {
      StringifyInjective(v, Decode(Stringify(v)));
    }
    assert ParsesJson(parse);
  }

  ghost function Decode(s: string): (v: Json)
    requires exists v :: Stringify(v) == s
    ensures Stringify(v) == s
  {
    var v :| Stringify(v) == s; v
  }

  /** What the reader keeps of a line: a parsed record with a truthy phase. */
  function Accept(line: string, parse: Parser): seq<Json> {
    match parse(line)
    case None => []
    case Some(v) => if Truthy(Field(v, "phase")) then [v] else []
  }

  function AcceptAll(lines: seq<string>, parse: Parser): seq<Json> {
    if lines == [] then [] else Accept(lines[0], parse) + AcceptAll(lines[1..], parse)
  }

  lemma {:induction false} AcceptAppend(left: seq<string>, right: seq<string>, parse: Parser)
    ensures AcceptAll(left + right, parse) == AcceptAll(left, parse) + AcceptAll(right, parse)
  {
    if left == [] {
      assert left + right == right;
    } else {
      assert (left + right)[1..] == left[1..] + right;
      AcceptAppend(left[1..], right, parse);
    }
  }

  lemma AcceptNext(lines: seq<string>, i: nat, parse: Parser)
    requires i < |lines|
    ensures AcceptAll(lines[..i + 1], parse) == AcceptAll(lines[..i], parse) + Accept(lines[i], parse)
  {
    AcceptAppend(lines[..i], [lines[i]], parse);
    assert lines[..i + 1] == lines[..i] + [lines[i]];
    assert [lines[i]][1..] == [];
    assert AcceptAll([lines[i]], parse) == Accept(lines[i], parse);
  }

  /** One chunk more: the reader's state moves on exactly as the split of the longer stream does. */
  lemma ResumeState(stream: string, chunk: string, parse: Parser)
    ensures Rest(stream + chunk) == Rest(Rest(stream) + chunk)
    ensures AcceptAll(Complete(stream + chunk), parse)
         == AcceptAll(Complete(stream), parse) + AcceptAll(Complete(Rest(stream) + chunk), parse)
  {
    SplitResumes(stream, chunk);
    assert Complete(stream + chunk) == Complete(stream) + Complete(Rest(stream) + chunk);
    AcceptAppend(Complete(stream), Complete(Rest(stream) + chunk), parse);
  }

  /** `PhaseReader`; `stream` is everything received so far. */
  class PhaseReader {
    var remainder: string
    var values: seq<Json>
    const parse: Parser
    ghost var stream: string

    /** The reader's state is a function of the whole stream, not of how it was cut. */
    ghost predicate Valid()
      reads this
    {
      remainder == Rest(stream) && values == AcceptAll(Complete(stream), parse)
    }

    constructor (parse: Parser)
      ensures Valid() && stream == "" && this.parse == parse
    {
      this.parse := parse;
      remainder, values, stream := "", [], "";
    }

    /** The handler of the `data` event. */
    method OnData(chunk: string)
      requires Valid()
      modifies this
      ensures Valid() && stream == old(stream) + chunk
    {
      remainder := remainder + chunk;
      var lines := SplitLines(remainder);
      remainder := lines[|lines| - 1];
      lines := lines[..|lines| - 1];
      AcceptLines(lines);
      ResumeState(stream, chunk, parse);
      stream := stream + chunk;
    }

    /** The loop of the handler: lines that parse to something with a phase are kept. */
    method AcceptLines(lines: seq<string>)
      modifies this`values
      ensures values == old(values) + AcceptAll(lines, parse)
    {
      var i := 0;
      while i < |lines|
        invariant i <= |lines|
        invariant values == old(values) + AcceptAll(lines[..i], parse)
      {
        AcceptNext(lines, i, parse);
        var value := parse(lines[i]);
        if value.Some? && Truthy(Field(value.value, "phase")) {
          values := values + [value.value];
        }
        i := i + 1;
      }
      assert lines[..i] == lines;
    }
  }

  function Concat(chunks: seq<string>): string {
    if chunks == [] then "" else chunks[0] + Concat(chunks[1..])
  }

  lemma {:induction false} ConcatAppend(chunks: seq<string>, chunk: string)
    ensures Concat(chunks + [chunk]) == Concat(chunks) + chunk
  {
    if chunks != [] {
      assert (chunks + [chunk])[1..] == chunks[1..] + [chunk];
      ConcatAppend(chunks[1..], chunk);
    }
  }

  /** Feeds a fresh reader: what it holds depends on the concatenation of the chunks alone. */
  method Read(chunks: seq<string>, parse: Parser) returns (values: seq<Json>, remainder: string)
    ensures values == AcceptAll(Complete(Concat(chunks)), parse)
    ensures remainder == Rest(Concat(chunks))
  {
    var reader := new PhaseReader(parse);
    var i := 0;
    while i < |chunks|
      invariant i <= |chunks|
      invariant reader.Valid() && reader.parse == parse && reader.stream == Concat(chunks[..i])
    {
      ConcatAppend(chunks[..i], chunks[i]);
      assert chunks[..i + 1] == chunks[..i] + [chunks[i]];
      reader.OnData(chunks[i]);
      i := i + 1;
    }
    assert chunks[..i] == chunks;
    values, remainder := reader.values, reader.remainder;
  }

  function Records(phases: seq<Phase>): seq<Json> {
    if phases == [] then [] else [Record(phases[0])] + Records(phases[1..])
  }

  /** The records with a truthy phase, in order. */
  function KeptRecords(phases: seq<Phase>): seq<Json> {
    if phases == [] then []
    else (if IsTruthy(phases[0]) then [Record(phases[0])] else []) + KeptRecords(phases[1..])
  }

  /** Details hold JSON values. */
  ghost predicate JsonDetails(phases: seq<Phase>) {
    forall p :: p in phases ==> WellFormedEntries(p.details)
  }

  function RecordLines(phases: seq<Phase>): seq<string> {
    if phases == [] then [] else [Stringify(Record(phases[0]))] + RecordLines(phases[1..])
  }

  lemma {:induction false} WrittenLines(phases: seq<Phase>)
    ensures Complete(WriteAll(phases)) == RecordLines(phases)
    ensures Rest(WriteAll(phases)) == ""
  {
    if phases != [] {
      WrittenLines(phases[1..]);
      WrittenLine(phases[0], WriteAll(phases[1..]));
    }
  }

  lemma WrittenLine(p: Phase, rest: string)
    ensures Complete(WritePhase(p) + rest) == [Stringify(Record(p))] + Complete(rest)
    ensures Rest(WritePhase(p) + rest) == Rest(rest)
  {
    StringifyPrintable(Record(p));
    SplitAfterLine(Stringify(Record(p)), rest);
    FrontLine(WritePhase(p) + rest, Stringify(Record(p)), rest);
  }

  lemma RecordAccepted(p: Phase, parse: Parser)
    requires ParsesJson(parse) && WellFormedEntries(p.details)
    ensures Accept(Stringify(Record(p)), parse) == if IsTruthy(p) then [Record(p)] else []
  {
    RecordReads(p);
    var v := Record(p);
    assert parse(Stringify(v)) == Some(v);
  }

  lemma AcceptFirst(line: string, lines: seq<string>, parse: Parser)
    ensures AcceptAll([line] + lines, parse) == Accept(line, parse) + AcceptAll(lines, parse)
  {
    assert ([line] + lines)[1..] == lines;
  }

  lemma {:induction false} LinesAccepted(phases: seq<Phase>, parse: Parser)
    requires ParsesJson(parse) && JsonDetails(phases)
    ensures AcceptAll(RecordLines(phases), parse) == KeptRecords(phases)
  {
    if phases != [] {
      RecordAccepted(phases[0], parse);
      LinesAccepted(phases[1..], parse);
      AcceptFirst(Stringify(Record(phases[0])), RecordLines(phases[1..]), parse);
    }
  }

  /**
    Round trip: however the written phases are cut into chunks, exactly the records with a truthy
    phase are recovered, in order, and nothing remains.
   */
  lemma WrittenPhasesAreRead(phases: seq<Phase>, chunks: seq<string>, parse: Parser)
    requires ParsesJson(parse) && JsonDetails(phases) && Concat(chunks) == WriteAll(phases)
    ensures AcceptAll(Complete(Concat(chunks)), parse) == KeptRecords(phases)
    ensures Rest(Concat(chunks)) == ""
  {
    WrittenLines(phases);
    LinesAccepted(phases, parse);
  }

  /** `values` are those of the written phases at the positions `at`, which go up, under every key. */
  ghost predicate ReadAt(phases: seq<Phase>, at: seq<nat>, values: seq<Json>) {
    && |at| == |values|
    && (forall i :: 0 <= i < |at| ==> at[i] < |phases| && forall key :: Holds(phases[at[i]], key, Field(values[i], key)))
    && (forall i, j :: 0 <= i < j < |at| ==> at[i] < at[j])
  }

  lemma ReadNext(phases: seq<Phase>, at: seq<nat>, values: seq<Json>, value: Json)
    requires phases != [] && ReadAt(phases[..|phases| - 1], at, values)
    requires forall key :: Holds(phases[|phases| - 1], key, Field(value, key))
    ensures ReadAt(phases, at, values) && ReadAt(phases, at + [|phases| - 1], values + [value])
  {
  }

  /** The phase a record ends up with is none of the values JavaScript takes for false. */
  ghost predicate TellsPhase(p: Phase) {
    forall found :: Holds(p, "phase", found) ==> found !in {None, Some(Null), Some(Bool(false)), Some(Num(0)), Some(Str(""))}
  }

  lemma TellsPhaseMeans(p: Phase)
    requires WellFormedEntries(p.details)
    ensures IsTruthy(p) <==> TellsPhase(p)
  {
    RecordReads(p);
    RecordExactly(p, "phase");
    TruthyExactly(Some(PhaseOf(p)));
    forall found | Holds(p, "phase", found) ensures found == Some(PhaseOf(p)) {
      OneHeld(p, "phase", found, Some(PhaseOf(p)));
    }
  }

  lemma OneHeld(p: Phase, key: string, a: Option<Json>, b: Option<Json>)
    requires Holds(p, key, a) && Holds(p, key, b)
    ensures a == b
  {
    if key != "at" && HasDetail(p.details, key) {
      var k: nat :| LastUnder(p.details, k, key) && a == Some(p.details[k].value);
      var l: nat :| LastUnder(p.details, l, key) && b == Some(p.details[l].value);
      assert k == l;
    }
  }

  function Kept(p: Phase): seq<Json> {
    if IsTruthy(p) then [Record(p)] else []
  }

  lemma KeptFirst(p: Phase, phases: seq<Phase>)
    ensures KeptRecords([p] + phases) == Kept(p) + KeptRecords(phases)
  {
    assert ([p] + phases)[1..] == phases;
  }

  lemma RegroupKept(a: seq<Json>, b: seq<Json>, c: seq<Json>)
    ensures (a + b) + c == a + (b + c)
  {
  }

  lemma {:induction false} KeptAppend(phases: seq<Phase>, p: Phase)
    ensures KeptRecords(phases + [p]) == KeptRecords(phases) + Kept(p)
  {
    if phases == [] {
      KeptFirst(p, []);
      assert phases + [p] == [p] + [];
    } else {
      KeptFirst(phases[0], phases[1..]);
      KeptFirst(phases[0], phases[1..] + [p]);
      KeptAppend(phases[1..], p);
      RegroupKept(Kept(phases[0]), KeptRecords(phases[1..]), Kept(p));
      assert phases == [phases[0]] + phases[1..] && phases + [p] == [phases[0]] + (phases[1..] + [p]);
    }
  }

  lemma {:induction false} KeptAt(phases: seq<Phase>) returns (at: seq<nat>)
    requires JsonDetails(phases)
    ensures ReadAt(phases, at, KeptRecords(phases))
    ensures forall k: nat :: k in at <==> k < |phases| && TellsPhase(phases[k])
  {
    if phases == [] {
      at := [];
    } else {
      var n := |phases| - 1;
      assert phases == phases[..n] + [phases[n]];
      var before := KeptAt(phases[..n]);
      KeptAppend(phases[..n], phases[n]);
      forall key ensures Holds(phases[n], key, Field(Record(phases[n]), key)) {
        RecordExactly(phases[n], key);
      }
      ReadNext(phases, before, KeptRecords(phases[..n]), Record(phases[n]));
      TellsPhaseMeans(phases[n]);
      at := if TellsPhase(phases[n]) then before + [n] else before;
      TellingAt(phases, before, at);
    }
  }

  lemma TellingAt(phases: seq<Phase>, before: seq<nat>, at: seq<nat>)
    requires phases != []
    requires forall k: nat :: k in before <==> k < |phases| - 1 && TellsPhase(phases[..|phases| - 1][k])
    requires at == if TellsPhase(phases[|phases| - 1]) then before + [|phases| - 1] else before
    ensures forall k: nat :: k in at <==> k < |phases| && TellsPhase(phases[k])
  {
    assert forall k: nat :: k < |phases| - 1 ==> phases[..|phases| - 1][k] == phases[k];
  }

  /** A detail written is a detail read: what each value the reader holds has under every key. */
  lemma WrittenDetailsAreRead(phases: seq<Phase>, chunks: seq<string>, parse: Parser) returns (at: seq<nat>)
    requires ParsesJson(parse) && JsonDetails(phases) && Concat(chunks) == WriteAll(phases)
    ensures ReadAt(phases, at, AcceptAll(Complete(Concat(chunks)), parse))
    ensures forall k: nat :: k in at <==> k < |phases| && TellsPhase(phases[k])
  {
    WrittenPhasesAreRead(phases, chunks, parse);
    at := KeptAt(phases);
  }

  lemma {:induction false} KeptAreFewer(phases: seq<Phase>)
    ensures |KeptRecords(phases)| <= |phases| == |Records(phases)|
    ensures |KeptRecords(phases)| == |phases| <==> forall p :: p in phases ==> IsTruthy(p)
    ensures |KeptRecords(phases)| == |phases| ==> KeptRecords(phases) == Records(phases)
  {
    if phases != [] {
      KeptAreFewer(phases[1..]);
      assert phases == [phases[0]] + phases[1..];
    }
  }

  /** Every written record arrives exactly when every record's phase is truthy, its details considered. */
  lemma EveryPhaseArrivesExactly(phases: seq<Phase>, chunks: seq<string>, parse: Parser)
    requires ParsesJson(parse) && JsonDetails(phases) && Concat(chunks) == WriteAll(phases)
    ensures AcceptAll(Complete(Concat(chunks)), parse) == Records(phases) <==> forall p :: p in phases ==> IsTruthy(p)
    ensures |AcceptAll(Complete(Concat(chunks)), parse)| == |phases| <==> forall p :: p in phases ==> IsTruthy(p)
  {
    WrittenPhasesAreRead(phases, chunks, parse);
    KeptAreFewer(phases);
  }

  lemma {:induction false} OtherDetails(details: seq<Entry>, key: string, otherwise: Json)
    requires forall i :: 0 <= i < |details| ==> details[i].key != key
    ensures LastDetail(details, key, otherwise) == otherwise
  {
    if details != [] {
      OtherDetails(details[1..], key, otherwise);
    }
  }

  /** A phase with a name that its details do not overwrite. */
  ghost predicate Named(p: Phase) {
    p.name != "" && forall i :: 0 <= i < |p.details| ==> p.details[i].key != "phase"
  }

  /** In particular, every named phase arrives. */
  lemma NamedPhasesAreRead(phases: seq<Phase>, chunks: seq<string>, parse: Parser)
    requires ParsesJson(parse) && JsonDetails(phases) && Concat(chunks) == WriteAll(phases)
    requires forall p :: p in phases ==> Named(p)
    ensures AcceptAll(Complete(Concat(chunks)), parse) == Records(phases)
  {
    forall p | p in phases ensures IsTruthy(p) {
      OtherDetails(p.details, "phase", Str(p.name));
    }
    EveryPhaseArrivesExactly(phases, chunks, parse);
  }
}

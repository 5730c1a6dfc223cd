/**
  The block parser of the operator guide: a buffered state machine that turns Markdown lines into
  a story of blocks. What it must not do is lose or repeat a line.
 */
module GuideBlocks {
  import opened Text

  /** A source line and its number. */
  datatype Line = Line(no: nat, text: string)

  datatype Kind = Fence | Row(separator: bool) | Blank | Title | Section | Subsection | Item | Numbered | Prose

  /** What a line is outside a fence. */
  type Kinds = string -> Kind

  /** `^\s*\|?\s*:?-+`, matched at the start of a row. */
  predicate Separator(text: string, space: CharClass) {
    var a := StripLeft(text, space);
    var b := StripLeft(if StartsWith(a, "|") then a[1..] else a, space);
    StartsWith(b, "-") || StartsWith(b, ":-")
  }

  /** `^\d+\. ` once `some` says whether a digit has been seen. */
  predicate StartsNumbered(text: string, digit: CharClass, some: bool) {
    text != "" &&
    if digit(text[0]) then StartsNumbered(text[1..], digit, true) else some && StartsWith(text, ". ")
  }

  /** The tests of the parser, in its order. */
  function KindOf(text: string, space: CharClass, digit: CharClass): Kind {
    KindFrom(text, Separator(text, space), Strip(text, space) == "", StartsNumbered(text, digit, false))
  }

  /** The same, given the outcome of the tests that scan the line. */
  function KindFrom(text: string, separator: bool, blank: bool, numbered: bool): Kind {
    if StartsWith(text, "```") then Fence
    else if StartsWith(text, "|") then Row(separator)
    else if blank then Blank
    else if StartsWith(text, "# ") then Title
    else if StartsWith(text, "## ") then Section
    else if StartsWith(text, "### ") then Subsection
    else if StartsWith(text, "- ") then Item
    else if numbered then Numbered
    else Prose
  }

  lemma BarThenRest(blank: string, rest: string, space: CharClass)
    requires (forall c :: c in blank ==> space(c)) && !space('|') && rest != "" && !space(rest[0])
    ensures Separator("|" + (blank + rest), space) <==> StartsWith(rest, "-") || StartsWith(rest, ":-")
  {
    var row := "|" + (blank + rest);
    StripLeftOver("", row, space);
    assert "" + row == row;
    assert row[..1] == "|" && row[1..] == blank + rest;
    StripLeftOver(blank, rest, space);
  }

  lemma BarIsRow(text: string, separator: bool, blank: bool, numbered: bool)
    requires text != "" && text[0] == '|'
    ensures KindFrom(text, separator, blank, numbered) == Row(separator)
  {
    assert text[..1] == "|";
  }

  lemma KindOfBar(rest: string, space: CharClass, digit: CharClass)
    ensures KindOf("|" + rest, space, digit) == Row(Separator("|" + rest, space))
  {
    var row := "|" + rest;
    BarIsRow(row, Separator(row, space), Strip(row, space) == "", StartsNumbered(row, digit, false));
  }

  /** A row is taken for a separator exactly when its first cell begins with a dash, or a colon and a dash, whatever follows. */
  lemma SeparatorRowExactly(blank: string, rest: string, space: CharClass, digit: CharClass)
    requires (forall c :: c in blank ==> space(c)) && !space('|') && rest != "" && !space(rest[0])
    ensures KindOf("|" + (blank + rest), space, digit) == Row(true) <==> StartsWith(rest, "-") || StartsWith(rest, ":-")
    ensures KindOf("|" + (blank + rest), space, digit).Row?
  {
    BarThenRest(blank, rest, space);
    KindOfBar(blank + rest, space, digit);
  }

  /** A bar with nothing but white space behind it is a row that is kept. */
  lemma EmptyRowIsKept(blank: string, space: CharClass, digit: CharClass)
    requires (forall c :: c in blank ==> space(c)) && !space('|')
    ensures KindOf("|" + blank, space, digit) == Row(false)
  {
    BarAndBlank(blank, space);
    KindOfBar(blank, space, digit);
  }

  lemma BarAndBlank(blank: string, space: CharClass)
    requires (forall c :: c in blank ==> space(c)) && !space('|')
    ensures !Separator("|" + blank, space)
  {
    var row := "|" + blank;
    StripLeftOver("", row, space);
    assert "" + row == row && row[..1] == "|" && row[1..] == blank;
    AllBlank(blank, space);
  }

  /** What a line of a kind begins with; rows, prose and numbered lines are shown whole. */
  function Marker(k: Kind): string {
    match k
    case Fence => "```"
    case Title => "# "
    case Section => "## "
    case Subsection => "### "
    case Item => "- "
    case _ => ""
  }

  /** The text of a heading or a bullet: `line[2:]`, `line[3:]`, `line[4:]`. */
  function Shown(text: string, k: Kind): string {
    if |Marker(k)| <= |text| then text[|Marker(k)|..] else ""
  }

  lemma {:induction false} StripRightKeeps(s: string, space: CharClass)
    requires s != "" && !space(s[0])
    ensures StripRight(s, space) != ""
  {
    if space(s[|s| - 1]) {
      assert |s| > 1;
      StripRightKeeps(s[..|s| - 1], space);
    }
  }

  lemma KindByMarker(text: string, k: Kind, separator: bool, numbered: bool)
    requires k.Title? || k.Section? || k.Subsection? || k.Item?
    requires Marker(k) <= text
    ensures KindFrom(text, separator, false, numbered) == k
  {
    var m := Marker(k);
    assert text[0] == m[0] && text[1] == m[1];
    assert |m| > 2 ==> text[2] == m[2];
  }

  /** A line written as a heading or a bullet is read as one, and all that follows the marker is shown. */
  lemma MarkedLineIsRead(k: Kind, rest: string, space: CharClass, digit: CharClass)
    requires k.Title? || k.Section? || k.Subsection? || k.Item?
    requires !space('#') && !space('-')
    ensures KindOf(Marker(k) + rest, space, digit) == k && Shown(Marker(k) + rest, k) == rest
  {
    var text := Marker(k) + rest;
    assert text[0] == Marker(k)[0];
    StripRightKeeps(text, space);
    KindByMarker(text, k, Separator(text, space), StartsNumbered(text, digit, false));
  }

  /** What white space and digits are not; Python's are so. */
  ghost predicate Ordinary(space: CharClass, digit: CharClass) {
    && (forall c :: c in {'`', '|', '#', '-'} ==> !space(c) && !digit(c))
    && !digit('.') && forall c :: digit(c) ==> !space(c)
  }

  lemma PythonIsOrdinary(digit: CharClass)
    requires forall c :: digit(c) <==> '0' <= c <= '9'
    ensures Ordinary(PythonSpace, digit)
  {
  }

  ghost predicate Numbers(text: string, number: string, rest: string, digit: CharClass) {
    number != "" && Only(number, digit) && text == number + ". " + rest
  }

  lemma {:induction false} NumberedBy(text: string, digit: CharClass, some: bool) returns (number: string, rest: string)
    requires StartsNumbered(text, digit, some)
    ensures text == number + ". " + rest && Only(number, digit) && (some || number != "")
  {
    if digit(text[0]) {
      number, rest := NumberedBy(text[1..], digit, true);
      number := [text[0]] + number;
    } else {
      number, rest := "", text[2..];
      assert text == "" + ". " + rest;
    }
  }

  lemma {:induction false} NumberIsSeen(number: string, rest: string, digit: CharClass, some: bool)
    requires Only(number, digit) && (some || number != "") && !digit('.')
    ensures StartsNumbered(number + ". " + rest, digit, some)
  {
    var text := number + ". " + rest;
    if number == "" {
      assert text == ". " + rest;
    } else {
      assert text[0] == number[0] && number[0] in number && text[1..] == number[1..] + ". " + rest;
      NumberIsSeen(number[1..], rest, digit, true);
    }
  }

  lemma StrippedToNothing(text: string, space: CharClass)
    ensures Strip(text, space) == "" <==> Only(text, space)
  {
    if Strip(text, space) == "" {
      var left, right := StripIsPadded(text, space);
      OnlyBoth(left, right, space);
      assert text == left + right;
    } else if Only(text, space) {
      AllBlank(text, space);
    }
  }

  /** Which kind a line is, read off its characters; the conditions exclude each other. */
  lemma KindExactly(text: string, space: CharClass, digit: CharClass)
    requires Ordinary(space, digit)
    ensures var k := KindOf(text, space, digit);
      && (k.Fence? <==> "```" <= text) && (k.Row? <==> "|" <= text)
      && (k.Blank? <==> forall c :: c in text ==> space(c))
      && (k.Title? <==> "# " <= text) && (k.Section? <==> "## " <= text) && (k.Subsection? <==> "### " <= text)
      && (k.Item? <==> "- " <= text)
      && (k.Numbered? <==> exists number, rest :: Numbers(text, number, rest, digit))
  {
    StrippedToNothing(text, space);
    NumberedExactly(text, digit);
    if text != "" {
      FirstIs(text, space, digit);
      FirstDecides(text, Separator(text, space), Strip(text, space) == "", StartsNumbered(text, digit, false));
    }
  }

  lemma FirstIs(text: string, space: CharClass, digit: CharClass)
    requires Ordinary(space, digit) && text != ""
    ensures Only(text, space) ==> space(text[0])
    ensures StartsNumbered(text, digit, false) ==> digit(text[0])
    ensures !(Only(text, space) && StartsNumbered(text, digit, false))
  {
    assert text[0] in text;
  }

  lemma NumberedExactly(text: string, digit: CharClass)
    requires !digit('.')
    ensures StartsNumbered(text, digit, false) <==> exists number, rest :: Numbers(text, number, rest, digit)
  {
    if StartsNumbered(text, digit, false) {
      var number, rest := NumberedBy(text, digit, false);
      assert Numbers(text, number, rest, digit);
    }
    if number, rest :| Numbers(text, number, rest, digit) {
      NumberIsSeen(number, rest, digit, false);
    }
  }

  /** A line that is neither blank nor numbered unless it begins with neither a marker's character nor a bar. */
  lemma FirstDecides(text: string, separator: bool, blank: bool, numbered: bool)
    requires text != "" && !(blank && numbered) && (text[0] in {'`', '|', '#', '-'} ==> !blank && !numbered)
    ensures var k := KindFrom(text, separator, blank, numbered);
      && (k.Fence? <==> "```" <= text) && (k.Row? <==> "|" <= text) && (k.Blank? <==> blank)
      && (k.Title? <==> "# " <= text) && (k.Section? <==> "## " <= text) && (k.Subsection? <==> "### " <= text)
      && (k.Item? <==> "- " <= text) && (k.Numbered? <==> numbered)
  {
    assert "```" <= text ==> text[0] == '`';
    assert "|" <= text ==> text[0] == '|';
    assert "# " <= text ==> text[0] == '#' && text[1] == ' ';
    assert "## " <= text ==> text[0] == '#' && text[1] == '#' && text[2] == ' ';
    assert "### " <= text ==> text[0] == '#' && text[1] == '#' && text[2] == '#';
    assert "- " <= text ==> text[0] == '-';
  }

  // ------------------------------------------- which lines are content, by their surroundings

  ghost predicate Fenced(kind: Kinds, lines: seq<Line>) {
    lines != [] &&
    var before, last := lines[..|lines| - 1], lines[|lines| - 1];
    if kind(last.text).Fence? then !Fenced(kind, before) else Fenced(kind, before)
  }

  /** A line inside a fence, or one outside that is neither blank nor a separator row. */
  predicate Counts(k: Kind, fenced: bool) {
    !k.Fence? && (fenced || !(k.Blank? || (k.Row? && k.separator)))
  }

  /** A fence follows line `j`. */
  ghost predicate FenceAfter(kind: Kinds, lines: seq<Line>, j: nat) {
    exists m :: j < m < |lines| && kind(lines[m].text).Fence?
  }

  /** Line `j` must be in the story: it counts, and if it is code its fence is closed. */
  ghost predicate Content(kind: Kinds, lines: seq<Line>, j: nat)
    requires j < |lines|
  {
    && Counts(kind(lines[j].text), Fenced(kind, lines[..j]))
    && (Fenced(kind, lines[..j]) ==> FenceAfter(kind, lines, j))
  }

  /** Source lines are numbered upwards. */
  ghost predicate InOrder(lines: seq<Line>) {
    forall i, j :: 0 <= i < j < |lines| ==> lines[i].no < lines[j].no
  }

  // ------------------------------------------------------- where the lines are at any time

  /** The lines in the story, and those waiting in the three buffers (separator rows left out). */
  datatype View = View(placed: seq<Line>, prose: seq<Line>, rows: seq<Line>, code: seq<Line>, fenced: bool)

  /** A fence flushes the prose and moves the code of the fence it closes; it does not end a table. */
  function Step(v: View, k: Kind, line: Line): View {
    if k.Fence? then View(v.placed + v.prose + v.code, [], v.rows, [], !v.fenced)
    else if v.fenced then v.(code := v.code + [line])
    else
      match k
      case Row(separator) =>
        v.(placed := v.placed + v.prose, prose := [], rows := if separator then v.rows else v.rows + [line])
      case Prose => v.(placed := v.placed + v.rows, prose := v.prose + [line], rows := [])
      case Blank => v.(placed := v.placed + v.rows + v.prose, prose := [], rows := [])
      case _ => v.(placed := v.placed + v.rows + v.prose + [line], prose := [], rows := [])
  }

  const EMPTY := View([], [], [], [], false)

  function After(kind: Kinds, lines: seq<Line>): View {
    if lines == [] then EMPTY
    else Step(After(kind, lines[..|lines| - 1]), kind(lines[|lines| - 1].text), lines[|lines| - 1])
  }

  /** The lines of the whole story: what is still buffered at the end is placed too, except open code. */
  function StoryOrder(kind: Kinds, lines: seq<Line>): seq<Line> {
    var v := After(kind, lines);
    v.placed + v.prose + v.rows
  }

  /** Prose and rows never wait together; code waits only inside a fence, where no prose does. */
  predicate OneBuffer(v: View) {
    (v.prose == [] || v.rows == []) && (v.fenced ==> v.prose == []) && (!v.fenced ==> v.code == [])
  }

  lemma {:induction false} BuffersExclude(kind: Kinds, lines: seq<Line>)
    ensures OneBuffer(After(kind, lines))
    ensures After(kind, lines).fenced == Fenced(kind, lines)
  {
    if lines != [] {
      BuffersExclude(kind, lines[..|lines| - 1]);
    }
  }

  /** The first title outside every fence. */
  ghost function FirstTitle(kind: Kinds, lines: seq<Line>): Option<Line> {
    if lines == [] then None
    else
      var before, last := lines[..|lines| - 1], lines[|lines| - 1];
      NextTitle(FirstTitle(kind, before), kind(last.text), Fenced(kind, before), last)
  }

  function NextTitle(title: Option<Line>, k: Kind, fenced: bool, line: Line): Option<Line> {
    if title.None? && k.Title? && !fenced then Some(line) else title
  }

  ghost predicate IsTitle(kind: Kinds, lines: seq<Line>, j: nat)
    requires j < |lines|
  {
    kind(lines[j].text).Title? && !Fenced(kind, lines[..j])
  }

  /** Line `j` is a title outside every fence, and no line before it is. */
  ghost predicate TitleAt(kind: Kinds, lines: seq<Line>, j: nat, title: Line) {
    && j < |lines| && IsTitle(kind, lines, j) && lines[j] == title
    && forall i: nat :: i < j ==> !IsTitle(kind, lines, i)
  }

  lemma TitleInPrefix(kind: Kinds, lines: seq<Line>, n: nat)
    requires n <= |lines|
    ensures forall j: nat :: j < n ==> IsTitle(kind, lines[..n], j) == IsTitle(kind, lines, j)
  {
    assert forall j: nat :: j < n ==> lines[..n][..j] == lines[..j] && lines[..n][j] == lines[j];
  }

  /** It is a title outside every fence with none before it, and there is none just when no line is such a title. */
  lemma {:induction false} FirstTitleIsFirst(kind: Kinds, lines: seq<Line>)
    ensures FirstTitle(kind, lines).None? ==> forall j: nat :: j < |lines| ==> !IsTitle(kind, lines, j)
    ensures FirstTitle(kind, lines).Some? ==> exists j: nat :: TitleAt(kind, lines, j, FirstTitle(kind, lines).value)
  {
    if lines != [] {
      var n := |lines| - 1;
      FirstTitleIsFirst(kind, lines[..n]);
      TitleInPrefix(kind, lines, n);
      if FirstTitle(kind, lines[..n]).Some? {
        var title := FirstTitle(kind, lines[..n]).value;
        var j: nat :| TitleAt(kind, lines[..n], j, title);
        assert TitleAt(kind, lines, j, title);
      } else if IsTitle(kind, lines, n) {
        assert TitleAt(kind, lines, n, lines[n]);
      }
    }
  }

  // -------------------------------------------------------------------- conservation

  /** How often a line occurs. */
  function Occurs(lines: seq<Line>, x: Line): nat {
    if lines == [] then 0 else (if lines[0] == x then 1 else 0) + Occurs(lines[1..], x)
  }

  lemma {:induction false} OccursInBoth(a: seq<Line>, b: seq<Line>, x: Line)
    ensures Occurs(a + b, x) == Occurs(a, x) + Occurs(b, x)
  {
    if a == [] {
      assert a + b == b;
    } else {
      assert (a + b)[1..] == a[1..] + b;
      OccursInBoth(a[1..], b, x);
    }
  }

  lemma {:induction false} OccursSomewhere(lines: seq<Line>, x: Line)
    ensures Occurs(lines, x) > 0 <==> x in lines
  {
    if lines != [] {
      OccursSomewhere(lines[1..], x);
      assert lines == [lines[0]] + lines[1..];
    }
  }

  /** How often a line is in the story or in a buffer. */
  ghost function Times(v: View, x: Line): nat {
    Occurs(v.placed, x) + Occurs(v.prose, x) + Occurs(v.rows, x) + Occurs(v.code, x)
  }

  lemma StepConserves(v: View, k: Kind, line: Line, x: Line)
    requires OneBuffer(v)
    ensures Times(Step(v, k, line), x) == Times(v, x) + if Counts(k, v.fenced) && x == line then 1 else 0
  {
    OccursInBoth(v.placed, v.prose, x);
    OccursInBoth(v.placed + v.prose, v.code, x);
    OccursInBoth(v.placed, v.rows, x);
    OccursInBoth(v.placed + v.rows, v.prose, x);
    OccursInBoth(v.placed + v.rows + v.prose, [line], x);
    OccursInBoth(v.prose, [line], x);
    OccursInBoth(v.rows, [line], x);
    OccursInBoth(v.code, [line], x);
  }

  lemma StepCode(v: View, k: Kind, line: Line, x: Line)
    requires OneBuffer(v)
    ensures Occurs(Step(v, k, line).code, x) ==
            if k.Fence? then 0
            else Occurs(v.code, x) + if v.fenced && x == line then 1 else 0
  {
    OccursInBoth(v.code, [line], x);
  }

  lemma {:induction false} OnlySourceLines(kind: Kinds, lines: seq<Line>, x: Line)
    requires x !in lines
    ensures Times(After(kind, lines), x) == 0
  {
    if lines != [] {
      var n := |lines| - 1;
      OnlySourceLines(kind, lines[..n], x);
      BuffersExclude(kind, lines[..n]);
      StepConserves(After(kind, lines[..n]), kind(lines[n].text), lines[n], x);
    }
  }

  lemma NotHeld(kind: Kinds, lines: seq<Line>, x: Line)
    requires x !in lines
    ensures x !in Queue(After(kind, lines))
  {
    var v := After(kind, lines);
    OnlySourceLines(kind, lines, x);
    OccursSomewhere(v.placed, x);
    OccursSomewhere(v.prose, x);
    OccursSomewhere(v.rows, x);
    OccursSomewhere(v.code, x);
  }

  /** A line is in the story or in a buffer once if it counts, and otherwise not at all. */
  lemma {:induction false} HeldOnce(kind: Kinds, lines: seq<Line>, j: nat)
    requires InOrder(lines) && j < |lines|
    ensures Times(After(kind, lines), lines[j]) == if Counts(kind(lines[j].text), Fenced(kind, lines[..j])) then 1 else 0
  {
    var n := |lines| - 1;
    BuffersExclude(kind, lines[..n]);
    StepConserves(After(kind, lines[..n]), kind(lines[n].text), lines[n], lines[j]);
    if j < n {
      HeldOnce(kind, lines[..n], j);
      assert lines[..n][..j] == lines[..j];
    } else {
      OnlySourceLines(kind, lines[..n], lines[n]);
    }
  }

  /** The code buffer holds the lines of a fence that is still open. */
  lemma {:induction false} CodeIsOpen(kind: Kinds, lines: seq<Line>, j: nat)
    requires InOrder(lines) && j < |lines|
    ensures Occurs(After(kind, lines).code, lines[j]) ==
            if Fenced(kind, lines[..j]) && !kind(lines[j].text).Fence? && !FenceAfter(kind, lines, j) then 1 else 0
  {
    var n := |lines| - 1;
    var v, k := After(kind, lines[..n]), kind(lines[n].text);
    BuffersExclude(kind, lines[..n]);
    StepCode(v, k, lines[n], lines[j]);
    if j < n {
      CodeIsOpen(kind, lines[..n], j);
      assert lines[..n][..j] == lines[..j];
      FenceAfterNext(kind, lines, j);
    } else {
      OnlySourceLines(kind, lines[..n], lines[n]);
    }
  }

  lemma FenceAfterNext(kind: Kinds, lines: seq<Line>, j: nat)
    requires j < |lines| - 1
    ensures FenceAfter(kind, lines, j) <==>
            kind(lines[|lines| - 1].text).Fence? || FenceAfter(kind, lines[..|lines| - 1], j)
  {
    var n := |lines| - 1;
    if FenceAfter(kind, lines[..n], j) {
      var m :| j < m < n && kind(lines[..n][m].text).Fence?;
      assert kind(lines[m].text).Fence?;
    }
    if FenceAfter(kind, lines, j) && !kind(lines[n].text).Fence? {
      var m :| j < m < |lines| && kind(lines[m].text).Fence?;
      assert lines[..n][m] == lines[m];
    }
  }

  /**
    Every content line is in the story exactly once, and nothing else is: separator rows, blank
    lines, fences and the code of a fence that is never closed are the lines that are not.
   */
  lemma EveryLineOnce(kind: Kinds, lines: seq<Line>, j: nat)
    requires InOrder(lines) && j < |lines|
    ensures Occurs(StoryOrder(kind, lines), lines[j]) == if Content(kind, lines, j) then 1 else 0
  {
    HeldOnce(kind, lines, j);
    CodeIsOpen(kind, lines, j);
    var v := After(kind, lines);
    OccursInBoth(v.placed, v.prose, lines[j]);
    OccursInBoth(v.placed + v.prose, v.rows, lines[j]);
  }

  lemma NoForeignLines(kind: Kinds, lines: seq<Line>, x: Line)
    requires x in StoryOrder(kind, lines)
    ensures x in lines
  {
    if x !in lines {
      NotHeld(kind, lines, x);
    }
  }

  // ------------------------------------------------------------------------- order

  /** Table rows are waiting: the last line that is neither a fence nor inside one is a row, and one that counts is unflushed. */
  ghost predicate RowsWait(kind: Kinds, lines: seq<Line>) {
    lines != [] &&
    var before, k := lines[..|lines| - 1], kind(lines[|lines| - 1].text);
    if k.Fence? || Fenced(kind, before) then RowsWait(kind, before)
    else k.Row? && (!k.separator || RowsWait(kind, before))
  }

  /** A line of closed code stands behind table rows that were not yet placed. */
  ghost predicate Overtakes(kind: Kinds, lines: seq<Line>, j: nat)
    requires j < |lines|
  {
    && Fenced(kind, lines[..j]) && !kind(lines[j].text).Fence?
    && FenceAfter(kind, lines, j) && RowsWait(kind, lines[..j])
  }

  /** The same, seen from the fence that closes the code. */
  ghost predicate Displaced(kind: Kinds, lines: seq<Line>) {
    lines != [] &&
    var before := lines[..|lines| - 1];
    || Displaced(kind, before)
    || Displaces(After(kind, before), kind(lines[|lines| - 1].text))
  }

  predicate Displaces(v: View, k: Kind) {
    k.Fence? && v.code != [] && v.rows != []
  }

  /** The lines of a view in the order they will have if no table is overtaken. */
  function Queue(v: View): seq<Line> {
    v.placed + v.prose + v.rows + v.code
  }

  lemma StepQueues(v: View, k: Kind, line: Line)
    requires OneBuffer(v) && !Displaces(v, k)
    ensures Queue(Step(v, k, line)) == Queue(v) + if Counts(k, v.fenced) then [line] else []
  {
  }

  lemma StepDisplaces(v: View, k: Kind, line: Line)
    requires OneBuffer(v) && Displaces(v, k) && InOrder(Queue(v))
    ensures !InOrder(Step(v, k, line).placed + v.rows)
  {
    var q, now := Queue(v), v.placed + v.prose + v.code + v.rows;
    var p := |v.placed|;
    assert v.prose == [];
    assert q[p] == v.rows[0] && q[p + |v.rows|] == v.code[0];
    assert now[p] == v.code[0] && now[p + |v.code|] == v.rows[0];
  }

  lemma Between(a: seq<Line>, x: seq<Line>, b: seq<Line>, y: seq<Line>)
    requires InOrder(a + x + b + y)
    ensures InOrder(a + b)
  {
    var all := a + x + b + y;
    forall i, j | 0 <= i < j < |a + b| ensures (a + b)[i].no < (a + b)[j].no {
      var i' := if i < |a| then i else i + |x|;
      var j' := if j < |a| then j else j + |x|;
      assert all[i'] == (a + b)[i] && all[j'] == (a + b)[j];
    }
  }

  /** Lines once out of order stay so. */
  lemma StaysDisplaced(v: View, k: Kind, line: Line)
    requires OneBuffer(v) && InOrder(Step(v, k, line).placed + Step(v, k, line).rows)
    ensures InOrder(v.placed + v.rows)
  {
    var w := Step(v, k, line);
    if k.Fence? {
      assert w.placed + w.rows == v.placed + (v.prose + v.code) + v.rows + [];
      Between(v.placed, v.prose + v.code, v.rows, []);
    } else if !v.fenced {
      var x := if k.Row? then v.prose else [];
      var y := if k.Row? then if k.separator then [] else [line]
               else if k.Prose? then []
               else if k.Blank? then v.prose
               else v.prose + [line];
      assert w.placed + w.rows == v.placed + x + v.rows + y;
      Between(v.placed, x, v.rows, y);
    }
  }

  lemma {:induction false} OrderKept(kind: Kinds, lines: seq<Line>)
    requires InOrder(lines)
    ensures !Displaced(kind, lines) ==> InOrder(Queue(After(kind, lines)))
    ensures Displaced(kind, lines) ==> !InOrder(After(kind, lines).placed + After(kind, lines).rows)
  {
    if lines != [] {
      var n := |lines| - 1;
      var v, k := After(kind, lines[..n]), kind(lines[n].text);
      OrderKept(kind, lines[..n]);
      BuffersExclude(kind, lines[..n]);
      if Displaced(kind, lines[..n]) {
        if InOrder(After(kind, lines).placed + After(kind, lines).rows) {
          StaysDisplaced(v, k, lines[n]);
        }
      } else if Displaces(v, k) {
        StepDisplaces(v, k, lines[n]);
      } else {
        StepQueues(v, k, lines[n]);
        QueueIsBelow(kind, lines);
      }
    }
  }

  lemma QueueIsBelow(kind: Kinds, lines: seq<Line>)
    requires InOrder(lines) && lines != []
    ensures forall x :: x in Queue(After(kind, lines[..|lines| - 1])) ==> x.no < lines[|lines| - 1].no
  {
    var before := lines[..|lines| - 1];
    forall x | x in Queue(After(kind, before)) ensures x.no < lines[|lines| - 1].no {
      if x !in before {
        NotHeld(kind, before, x);
      }
    }
  }

  lemma {:induction false} RowsWaitMeans(kind: Kinds, lines: seq<Line>)
    ensures RowsWait(kind, lines) <==> After(kind, lines).rows != []
  {
    if lines != [] {
      RowsWaitMeans(kind, lines[..|lines| - 1]);
      BuffersExclude(kind, lines[..|lines| - 1]);
    }
  }

  /** Inside one fence the code is buffered and the rows go on waiting. */
  lemma {:induction false} OpenSince(kind: Kinds, lines: seq<Line>, j: nat)
    requires j < |lines| && Fenced(kind, lines[..j]) && !kind(lines[j].text).Fence? && !FenceAfter(kind, lines, j)
    ensures Fenced(kind, lines) && After(kind, lines).code != []
    ensures RowsWait(kind, lines) <==> RowsWait(kind, lines[..j])
  {
    var n := |lines| - 1;
    BuffersExclude(kind, lines[..n]);
    if j < n {
      FenceAfterNext(kind, lines, j);
      assert lines[..n][..j] == lines[..j];
      OpenSince(kind, lines[..n], j);
    }
  }

  lemma {:induction false} DisplacedMeans(kind: Kinds, lines: seq<Line>)
    ensures Displaced(kind, lines) <==> exists j: nat :: j < |lines| && Overtakes(kind, lines, j)
  {
    if lines != [] {
      var n := |lines| - 1;
      var before := lines[..n];
      DisplacedMeans(kind, before);
      RowsWaitMeans(kind, before);
      forall j: nat | j < n ensures before[..j] == lines[..j] && before[j] == lines[j] {
      }
      if Displaced(kind, before) {
        var j: nat :| j < n && Overtakes(kind, before, j);
        FenceAfterNext(kind, lines, j);
        assert Overtakes(kind, lines, j);
      } else if Displaces(After(kind, before), kind(lines[n].text)) {
        LastCode(kind, before);
        assert Overtakes(kind, lines, n - 1);
      }
      if j: nat :| j < |lines| && Overtakes(kind, lines, j) {
        FenceAfterNext(kind, lines, j);
        if FenceAfter(kind, before, j) {
          assert Overtakes(kind, before, j);
        } else {
          OpenSince(kind, before, j);
        }
      }
    }
  }

  /** Code is waiting only directly after a line of code. */
  lemma LastCode(kind: Kinds, lines: seq<Line>)
    requires lines != [] && After(kind, lines).code != []
    ensures Fenced(kind, lines[..|lines| - 1]) && !kind(lines[|lines| - 1].text).Fence?
    ensures RowsWait(kind, lines) <==> RowsWait(kind, lines[..|lines| - 1])
  {
    var before, last := lines[..|lines| - 1], lines[|lines| - 1];
    BuffersExclude(kind, before);
    assert Step(After(kind, before), kind(last.text), last).code != [];
  }

  /**
    The story is in source order exactly when no line of closed code overtakes table rows, which
    happens only where a row is followed by a fence with nothing but rows and fences between.
   */
  lemma SourceOrderExactly(kind: Kinds, lines: seq<Line>)
    requires InOrder(lines)
    ensures InOrder(StoryOrder(kind, lines)) <==> !exists j: nat :: j < |lines| && Overtakes(kind, lines, j)
  {
    OrderKept(kind, lines);
    DisplacedMeans(kind, lines);
    var v := After(kind, lines);
    if InOrder(StoryOrder(kind, lines)) {
      assert v.placed + v.prose + v.rows == v.placed + v.prose + v.rows + [];
      Between(v.placed, v.prose, v.rows, []);
    }
    if InOrder(Queue(v)) {
      assert forall i :: 0 <= i < |StoryOrder(kind, lines)| ==> StoryOrder(kind, lines)[i] == Queue(v)[i];
    }
  }

  /** In particular, when no table row is immediately followed by a fence. */
  lemma {:induction false} NoRowBeforeFence(kind: Kinds, lines: seq<Line>, j: nat)
    requires forall i :: 0 <= i < |lines| - 1 && kind(lines[i].text).Row? && !Fenced(kind, lines[..i]) ==> !kind(lines[i + 1].text).Fence?
    requires j <= |lines|
    ensures j < |lines| ==> !Overtakes(kind, lines, j)
    ensures Fenced(kind, lines[..j]) ==> !RowsWait(kind, lines[..j])
    ensures RowsWait(kind, lines[..j]) ==> j > 0 && kind(lines[j - 1].text).Row? && !Fenced(kind, lines[..j - 1])
  {
    if j > 0 {
      NoRowBeforeFence(kind, lines, j - 1);
      assert lines[..j][..j - 1] == lines[..j - 1];
    }
  }

  lemma OrderedWithoutRowBeforeFence(kind: Kinds, lines: seq<Line>)
    requires InOrder(lines)
    requires forall i :: 0 <= i < |lines| - 1 && kind(lines[i].text).Row? && !Fenced(kind, lines[..i]) ==> !kind(lines[i + 1].text).Fence?
    ensures InOrder(StoryOrder(kind, lines))
  {
    forall j: nat | j < |lines| ensures !Overtakes(kind, lines, j) {
      NoRowBeforeFence(kind, lines, j);
    }
    SourceOrderExactly(kind, lines);
  }

  // -------------------------------------------------------------------- the parser

  /** A story item and the source lines it is made of; layout is left out. */
  datatype Block =
    | Gap | PageBreak | Notice
    | Cover(line: Line) | Heading1(line: Line) | Heading2(line: Line) | Bullet(line: Line)
    | Body(lines: seq<Line>) | Code(lines: seq<Line>) | Table(lines: seq<Line>)

  function LinesOf(b: Block): seq<Line> {
    match b
    case Cover(line) => [line]
    case Heading1(line) => [line]
    case Heading2(line) => [line]
    case Bullet(line) => [line]
    case Body(lines) => lines
    case Code(lines) => lines
    case Table(lines) => lines
    case _ => []
  }

  function StoryLines(story: seq<Block>): seq<Line> {
    if story == [] then [] else StoryLines(story[..|story| - 1]) + LinesOf(story[|story| - 1])
  }

  lemma StoryGrows(story: seq<Block>, b: Block)
    ensures StoryLines(story + [b]) == StoryLines(story) + LinesOf(b)
  {
    assert (story + [b])[..|story|] == story;
  }

  lemma RegroupLines(a: seq<Line>, b: seq<Line>, c: seq<Line>)
    ensures (a + b) + c == a + (b + c)
  {
  }

  lemma {:induction false} StoryLinesAppend(a: seq<Block>, b: seq<Block>)
    ensures StoryLines(a + b) == StoryLines(a) + StoryLines(b)
  {
    if b == [] {
      assert a + b == a;
    } else {
      var n := |b| - 1;
      assert a + b == (a + b[..n]) + [b[n]] && b == b[..n] + [b[n]];
      StoryGrows(a + b[..n], b[n]);
      StoryGrows(b[..n], b[n]);
      StoryLinesAppend(a, b[..n]);
      RegroupLines(StoryLines(a), StoryLines(b[..n]), LinesOf(b[n]));
    }
  }

  lemma LinesOfOne(b: Block)
    ensures StoryLines([b]) == LinesOf(b)
  {
    assert [] + [b] == [b];
    StoryGrows([], b);
  }

  // --------------------------------------------------------- the story of the lines

  function ProseBlocks(prose: seq<Line>): seq<Block> {
    if prose == [] then [] else [Body(prose)]
  }

  function TableBlocks(rows: seq<Line>): seq<Block> {
    if rows == [] then [] else [Table(rows), Gap]
  }

  /** The blocks of a line that is a block by itself. */
  function OwnBlocks(k: Kind, line: Line, titled: bool): seq<Block> {
    match k
    case Title => if titled then [Heading1(line)] else [Gap, Cover(line), Notice, Gap, Notice, PageBreak]
    case Section => [Heading1(line)]
    case Subsection => [Heading2(line)]
    case Item => [Bullet(line)]
    case Numbered => [Bullet(line)]
    case _ => []
  }

  /** The blocks the story gains at a line. */
  function Added(v: View, k: Kind, line: Line, titled: bool): seq<Block> {
    if k.Fence? then ProseBlocks(v.prose) + if v.fenced then [Code(v.code)] else []
    else if v.fenced then []
    else if k.Row? then ProseBlocks(v.prose)
    else if k.Prose? then TableBlocks(v.rows)
    else TableBlocks(v.rows) + ProseBlocks(v.prose) + OwnBlocks(k, line, titled)
  }

  ghost function Built(kind: Kinds, lines: seq<Line>): seq<Block> {
    if lines == [] then []
    else
      var before, last := lines[..|lines| - 1], lines[|lines| - 1];
      Built(kind, before) + Added(After(kind, before), kind(last.text), last, FirstTitle(kind, before).Some?)
  }

  ghost function Story(kind: Kinds, lines: seq<Line>): seq<Block> {
    Built(kind, lines) + ProseBlocks(After(kind, lines).prose) + TableBlocks(After(kind, lines).rows)
  }

  lemma NextLine(kind: Kinds, lines: seq<Line>, line: Line)
    ensures var v, k, all := After(kind, lines), kind(line.text), lines + [line];
      && After(kind, all) == Step(v, k, line) && v.fenced == Fenced(kind, lines)
      && FirstTitle(kind, all) == NextTitle(FirstTitle(kind, lines), k, v.fenced, line)
      && Built(kind, all) == Built(kind, lines) + Added(v, k, line, FirstTitle(kind, lines).Some?)
  {
    BuffersExclude(kind, lines);
    assert (lines + [line])[..|lines + [line]| - 1] == lines;
  }

  lemma RegroupBlocks(a: seq<Block>, b: seq<Block>, c: seq<Block>, d: seq<Block>)
    ensures a + (b + c + d) == ((a + b) + c) + d
  {
  }

  lemma FlushedLines(v: View)
    ensures StoryLines(ProseBlocks(v.prose)) == v.prose && StoryLines(TableBlocks(v.rows)) == v.rows
  {
    LinesOfOne(Body(v.prose));
    StoryGrows([Table(v.rows)], Gap);
    LinesOfOne(Table(v.rows));
    assert [Table(v.rows)] + [Gap] == [Table(v.rows), Gap];
  }

  lemma {:induction false} LayoutOnly(story: seq<Block>)
    requires forall b :: b in story ==> LinesOf(b) == []
    ensures StoryLines(story) == []
  {
    if story != [] {
      LayoutOnly(story[..|story| - 1]);
    }
  }

  lemma CoverLines(line: Line)
    ensures StoryLines([Gap, Cover(line), Notice, Gap, Notice, PageBreak]) == [line]
  {
    var rest := [Notice, Gap, Notice, PageBreak];
    assert [Gap, Cover(line), Notice, Gap, Notice, PageBreak] == ([Gap] + [Cover(line)]) + rest;
    StoryLinesAppend([Gap] + [Cover(line)], rest);
    StoryGrows([Gap], Cover(line));
    LayoutOnly([Gap]);
    LayoutOnly(rest);
  }

  lemma OwnLines(k: Kind, line: Line, titled: bool)
    requires !k.Fence? && !k.Row? && !k.Prose?
    ensures StoryLines(OwnBlocks(k, line, titled)) == if k.Blank? then [] else [line]
  {
    if k.Title? && !titled {
      CoverLines(line);
    }
    LinesOfOne(Heading1(line));
    LinesOfOne(Heading2(line));
    LinesOfOne(Bullet(line));
  }

  lemma FenceLines(v: View)
    requires OneBuffer(v)
    ensures StoryLines(ProseBlocks(v.prose) + if v.fenced then [Code(v.code)] else []) == v.prose + v.code
  {
    FlushedLines(v);
    if v.fenced {
      StoryGrows(ProseBlocks(v.prose), Code(v.code));
    } else {
      assert ProseBlocks(v.prose) + [] == ProseBlocks(v.prose);
    }
  }

  lemma OtherLines(v: View, k: Kind, line: Line, titled: bool)
    requires !k.Fence? && !k.Row? && !k.Prose?
    ensures StoryLines(TableBlocks(v.rows) + ProseBlocks(v.prose) + OwnBlocks(k, line, titled))
         == v.rows + v.prose + if k.Blank? then [] else [line]
  {
    FlushedLines(v);
    StoryLinesAppend(TableBlocks(v.rows) + ProseBlocks(v.prose), OwnBlocks(k, line, titled));
    StoryLinesAppend(TableBlocks(v.rows), ProseBlocks(v.prose));
    OwnLines(k, line, titled);
  }

  lemma AddedLines(v: View, k: Kind, line: Line, titled: bool)
    requires OneBuffer(v)
    ensures v.placed + StoryLines(Added(v, k, line, titled)) == Step(v, k, line).placed
  {
    if k.Fence? {
      FenceLines(v);
      RegroupLines(v.placed, v.prose, v.code);
    } else if v.fenced || k.Row? || k.Prose? {
      FlushedLines(v);
    } else {
      OtherLines(v, k, line, titled);
      RegroupLines(v.placed, v.rows, v.prose);
      RegroupLines(v.placed, v.rows + v.prose, if k.Blank? then [] else [line]);
    }
  }

  lemma {:induction false} BuiltIsPlaced(kind: Kinds, lines: seq<Line>)
    ensures StoryLines(Built(kind, lines)) == After(kind, lines).placed
  {
    if lines != [] {
      var before, last := lines[..|lines| - 1], lines[|lines| - 1];
      var v, k := After(kind, before), kind(last.text);
      var titled := FirstTitle(kind, before).Some?;
      BuiltIsPlaced(kind, before);
      BuffersExclude(kind, before);
      StoryLinesAppend(Built(kind, before), Added(v, k, last, titled));
      AddedLines(v, k, last, titled);
    }
  }

  /** The lines of the story are those of `StoryOrder`, in that order. */
  lemma StoryIsOrdered(kind: Kinds, lines: seq<Line>)
    ensures StoryLines(Story(kind, lines)) == StoryOrder(kind, lines)
  {
    var v := After(kind, lines);
    BuiltIsPlaced(kind, lines);
    FlushedLines(v);
    StoryLinesAppend(Built(kind, lines) + ProseBlocks(v.prose), TableBlocks(v.rows));
    StoryLinesAppend(Built(kind, lines), ProseBlocks(v.prose));
  }

  // ------------------------------------------------ what each block is in the source

  ghost predicate ProseAt(kind: Kinds, lines: seq<Line>, j: int) {
    0 <= j < |lines| && kind(lines[j].text).Prose? && !Fenced(kind, lines[..j])
  }

  /** Lines `a` to `b` are prose outside every fence, and the lines before and after them are not. */
  ghost predicate ProseRun(kind: Kinds, lines: seq<Line>, a: nat, b: nat) {
    a < b <= |lines| && (forall j :: a <= j < b ==> ProseAt(kind, lines, j)) && !ProseAt(kind, lines, a - 1) && !ProseAt(kind, lines, b)
  }

  ghost predicate CodeAt(kind: Kinds, lines: seq<Line>, j: int) {
    0 <= j < |lines| && !kind(lines[j].text).Fence? && Fenced(kind, lines[..j])
  }

  /** Lines `a` to `b` are all there is between a fence that opens and the fence that closes it. */
  ghost predicate CodeRun(kind: Kinds, lines: seq<Line>, a: nat, b: nat) {
    && 0 < a <= b < |lines| && (forall j :: a <= j < b ==> CodeAt(kind, lines, j))
    && kind(lines[a - 1].text).Fence? && !Fenced(kind, lines[..a - 1]) && kind(lines[b].text).Fence?
  }

  /** A line that is no row and lies outside every fence ends a table; fences and their lines do not. */
  ghost predicate EndsTable(kind: Kinds, lines: seq<Line>, j: int) {
    0 <= j < |lines| && !kind(lines[j].text).Fence? && !kind(lines[j].text).Row? && !Fenced(kind, lines[..j])
  }

  ghost predicate TableRun(kind: Kinds, lines: seq<Line>, a: nat, b: nat) {
    && a < b <= |lines| && (forall j :: a <= j < b ==> !EndsTable(kind, lines, j))
    && (a == 0 || EndsTable(kind, lines, a - 1)) && (b == |lines| || EndsTable(kind, lines, b))
  }

  ghost predicate DataRowAt(kind: Kinds, lines: seq<Line>, j: int) {
    0 <= j < |lines| && kind(lines[j].text) == Row(false) && !Fenced(kind, lines[..j])
  }

  /** The rows outside every fence between `a` and `b` that are no separators. */
  ghost function DataBetween(kind: Kinds, lines: seq<Line>, a: nat, b: nat): seq<Line>
    requires b <= |lines|
  {
    if b <= a then []
    else DataBetween(kind, lines, a, b - 1) + if DataRowAt(kind, lines, b - 1) then [lines[b - 1]] else []
  }

  ghost predicate IsBody(kind: Kinds, lines: seq<Line>, body: seq<Line>) {
    exists a: nat, b: nat :: ProseRun(kind, lines, a, b) && body == lines[a..b]
  }

  ghost predicate IsCode(kind: Kinds, lines: seq<Line>, code: seq<Line>) {
    exists a: nat, b: nat :: CodeRun(kind, lines, a, b) && code == lines[a..b]
  }

  ghost predicate IsTable(kind: Kinds, lines: seq<Line>, table: seq<Line>) {
    table != [] && exists a: nat, b: nat :: TableRun(kind, lines, a, b) && table == DataBetween(kind, lines, a, b)
  }

  /** Line `j` outside every fence. */
  ghost predicate OutsideAt(kind: Kinds, lines: seq<Line>, j: nat, line: Line) {
    j < |lines| && lines[j] == line && !Fenced(kind, lines[..j])
  }

  ghost predicate Outside(kind: Kinds, lines: seq<Line>, line: Line) {
    exists j: nat :: OutsideAt(kind, lines, j, line)
  }

  /** A title outside every fence, and not the first. */
  ghost predicate LaterTitle(kind: Kinds, lines: seq<Line>, line: Line) {
    kind(line.text).Title? && exists j: nat :: OutsideAt(kind, lines, j, line) && exists i: nat :: i < j && IsTitle(kind, lines, i)
  }

  /** The block is what the source has there. */
  ghost predicate Grounded(kind: Kinds, lines: seq<Line>, b: Block) {
    match b
    case Body(body) => IsBody(kind, lines, body)
    case Code(code) => IsCode(kind, lines, code)
    case Table(table) => IsTable(kind, lines, table)
    case Cover(line) => FirstTitle(kind, lines) == Some(line)
    case Heading1(line) => LaterTitle(kind, lines, line) || (Outside(kind, lines, line) && kind(line.text).Section?)
    case Heading2(line) => Outside(kind, lines, line) && kind(line.text).Subsection?
    case Bullet(line) => Outside(kind, lines, line) && (kind(line.text).Item? || kind(line.text).Numbered?)
    case _ => true
  }

  /** One step of the view, along one source. */
  lemma StepAt(kind: Kinds, lines: seq<Line>, n: nat)
    requires n < |lines|
    ensures After(kind, lines[..n + 1]) == Step(After(kind, lines[..n]), kind(lines[n].text), lines[n])
    ensures OneBuffer(After(kind, lines[..n])) && After(kind, lines[..n]).fenced == Fenced(kind, lines[..n])
    ensures Fenced(kind, lines[..n + 1]) == if kind(lines[n].text).Fence? then !Fenced(kind, lines[..n]) else Fenced(kind, lines[..n])
  {
    assert lines[..n + 1][..n] == lines[..n];
    BuffersExclude(kind, lines[..n]);
  }

  lemma ProseStep(kind: Kinds, lines: seq<Line>, n: nat)
    requires n < |lines|
    ensures After(kind, lines[..n + 1]).prose == if ProseAt(kind, lines, n) then After(kind, lines[..n]).prose + [lines[n]] else []
  {
    StepAt(kind, lines, n);
  }

  /** The prose that waits is the run of prose that ends here. */
  lemma {:induction false} ProseSince(kind: Kinds, lines: seq<Line>, n: nat) returns (a: nat)
    requires n <= |lines|
    ensures a <= n && After(kind, lines[..n]).prose == lines[a..n]
    ensures (forall j :: a <= j < n ==> ProseAt(kind, lines, j)) && !ProseAt(kind, lines, a - 1)
  {
    a := 0;
    if n > 0 {
      ProseStep(kind, lines, n - 1);
      a := ProseSince(kind, lines, n - 1);
      if ProseAt(kind, lines, n - 1) {
        RunLonger(kind, lines, a, n);
      } else {
        a := n;
        assert lines[a..n] == [];
      }
    } else {
      assert lines[..0] == [] && lines[0..0] == [];
    }
  }

  lemma RunLonger(kind: Kinds, lines: seq<Line>, a: nat, n: nat)
    requires a < n <= |lines| && ProseAt(kind, lines, n - 1) && forall j :: a <= j < n - 1 ==> ProseAt(kind, lines, j)
    ensures lines[a..n] == lines[a..n - 1] + [lines[n - 1]] && forall j :: a <= j < n ==> ProseAt(kind, lines, j)
  {
  }

  /** The code that waits is all there is since the fence that is open. */
  lemma {:induction false} CodeSince(kind: Kinds, lines: seq<Line>, n: nat) returns (a: nat)
    requires n <= |lines| && Fenced(kind, lines[..n])
    ensures 0 < a <= n && After(kind, lines[..n]).code == lines[a..n]
    ensures (forall j :: a <= j < n ==> CodeAt(kind, lines, j))
    ensures kind(lines[a - 1].text).Fence? && !Fenced(kind, lines[..a - 1])
  {
    StepAt(kind, lines, n - 1);
    if kind(lines[n - 1].text).Fence? {
      a := n;
    } else {
      a := CodeSince(kind, lines, n - 1);
      OneLonger(lines, a, n);
      assert CodeAt(kind, lines, n - 1);
    }
  }

  lemma OneLonger(lines: seq<Line>, a: nat, n: nat)
    requires a < n <= |lines|
    ensures lines[a..n] == lines[a..n - 1] + [lines[n - 1]]
  {
  }

  lemma RowsStep(kind: Kinds, lines: seq<Line>, n: nat)
    requires n < |lines|
    ensures After(kind, lines[..n + 1]).rows ==
            if EndsTable(kind, lines, n) then []
            else After(kind, lines[..n]).rows + if DataRowAt(kind, lines, n) then [lines[n]] else []
  {
    StepAt(kind, lines, n);
  }

  /** The rows that wait are those since the last line that ends a table. */
  lemma {:induction false} RowsSince(kind: Kinds, lines: seq<Line>, n: nat) returns (a: nat)
    requires n <= |lines|
    ensures a <= n && After(kind, lines[..n]).rows == DataBetween(kind, lines, a, n)
    ensures (forall j :: a <= j < n ==> !EndsTable(kind, lines, j)) && (a == 0 || EndsTable(kind, lines, a - 1))
  {
    a := 0;
    if n > 0 {
      RowsStep(kind, lines, n - 1);
      a := RowsSince(kind, lines, n - 1);
      if EndsTable(kind, lines, n - 1) {
        a := n;
      }
    }
  }

  /** What is flushed where a run ends is that run. */
  lemma FlushedGrounded(kind: Kinds, lines: seq<Line>, n: nat)
    requires n <= |lines|
    ensures var v := After(kind, lines[..n]);
      && (v.prose != [] && !ProseAt(kind, lines, n) ==> IsBody(kind, lines, v.prose))
      && (v.rows != [] && (n == |lines| || EndsTable(kind, lines, n)) ==> IsTable(kind, lines, v.rows))
      && (n < |lines| && v.fenced && kind(lines[n].text).Fence? ==> IsCode(kind, lines, v.code))
  {
    var v := After(kind, lines[..n]);
    BuffersExclude(kind, lines[..n]);
    var a := ProseSince(kind, lines, n);
    if v.prose != [] && !ProseAt(kind, lines, n) {
      assert ProseRun(kind, lines, a, n);
    }
    var b := RowsSince(kind, lines, n);
    if v.rows != [] && (n == |lines| || EndsTable(kind, lines, n)) {
      assert TableRun(kind, lines, b, n);
    }
    if n < |lines| && v.fenced && kind(lines[n].text).Fence? {
      var c := CodeSince(kind, lines, n);
      assert CodeRun(kind, lines, c, n);
    }
  }

  ghost predicate AllGrounded(kind: Kinds, lines: seq<Line>, story: seq<Block>) {
    forall i :: 0 <= i < |story| ==> Grounded(kind, lines, story[i])
  }

  lemma GroundedBoth(kind: Kinds, lines: seq<Line>, a: seq<Block>, b: seq<Block>)
    requires AllGrounded(kind, lines, a) && AllGrounded(kind, lines, b)
    ensures AllGrounded(kind, lines, a + b)
  {
  }

  lemma {:induction false} FirstTitleStays(kind: Kinds, lines: seq<Line>, n: nat)
    requires n <= |lines| && FirstTitle(kind, lines[..n]).Some?
    ensures FirstTitle(kind, lines) == FirstTitle(kind, lines[..n])
  {
    if n < |lines| {
      var before := lines[..|lines| - 1];
      assert before[..n] == lines[..n];
      FirstTitleStays(kind, before, n);
    } else {
      assert lines[..n] == lines;
    }
  }

  lemma OwnGrounded(kind: Kinds, lines: seq<Line>, n: nat)
    requires n < |lines| && !Fenced(kind, lines[..n])
    ensures AllGrounded(kind, lines, OwnBlocks(kind(lines[n].text), lines[n], FirstTitle(kind, lines[..n]).Some?))
  {
    var k, line := kind(lines[n].text), lines[n];
    assert OutsideAt(kind, lines, n, line);
    FirstTitleIsFirst(kind, lines[..n]);
    TitleInPrefix(kind, lines, n);
    if k.Title? {
      if FirstTitle(kind, lines[..n]).Some? {
        var i: nat :| TitleAt(kind, lines[..n], i, FirstTitle(kind, lines[..n]).value);
        assert IsTitle(kind, lines, i);
      } else {
        assert lines[..n + 1][..n] == lines[..n];
        FirstTitleStays(kind, lines, n + 1);
      }
    }
  }

  lemma AddedGrounded(kind: Kinds, lines: seq<Line>, n: nat)
    requires n < |lines|
    ensures AllGrounded(kind, lines, Added(After(kind, lines[..n]), kind(lines[n].text), lines[n], FirstTitle(kind, lines[..n]).Some?))
  {
    var v, k := After(kind, lines[..n]), kind(lines[n].text);
    StepAt(kind, lines, n);
    FlushedGrounded(kind, lines, n);
    if !k.Fence? && !v.fenced && !k.Row? && !k.Prose? {
      OwnGrounded(kind, lines, n);
      GroundedBoth(kind, lines, TableBlocks(v.rows), ProseBlocks(v.prose));
      GroundedBoth(kind, lines, TableBlocks(v.rows) + ProseBlocks(v.prose), OwnBlocks(k, lines[n], FirstTitle(kind, lines[..n]).Some?));
    }
  }

  lemma {:induction false} BuiltGrounded(kind: Kinds, lines: seq<Line>, n: nat)
    requires n <= |lines|
    ensures AllGrounded(kind, lines, Built(kind, lines[..n]))
  {
    if n > 0 {
      BuiltGrounded(kind, lines, n - 1);
      AddedGrounded(kind, lines, n - 1);
      assert lines[..n][..n - 1] == lines[..n - 1];
      GroundedBoth(kind, lines, Built(kind, lines[..n - 1]),
                   Added(After(kind, lines[..n - 1]), kind(lines[n - 1].text), lines[n - 1], FirstTitle(kind, lines[..n - 1]).Some?));
    }
  }

  /**
    What every block of the story is: a paragraph is a whole run of prose, code is everything between two fences, a
    table the data rows up to a line that ends it, and headings and bullets are lines of their kind, all outside fences.
   */
  lemma StoryGrounded(kind: Kinds, lines: seq<Line>, i: nat)
    requires i < |Story(kind, lines)|
    ensures Grounded(kind, lines, Story(kind, lines)[i])
  {
    var n := |lines|;
    assert lines[..n] == lines;
    BuiltGrounded(kind, lines, n);
    FlushedGrounded(kind, lines, n);
    GroundedBoth(kind, lines, Built(kind, lines), ProseBlocks(After(kind, lines).prose));
    GroundedBoth(kind, lines, Built(kind, lines) + ProseBlocks(After(kind, lines).prose), TableBlocks(After(kind, lines).rows));
  }

  ghost predicate NoCover(story: seq<Block>) {
    forall i :: 0 <= i < |story| ==> !story[i].Cover?
  }

  /** The story has no cover, or a single one for the title. */
  ghost predicate OneCover(story: seq<Block>, title: Option<Line>) {
    if title.None? then NoCover(story)
    else exists i :: 0 <= i < |story| && story[i] == Cover(title.value) && NoCover(story[..i]) && NoCover(story[i + 1..])
  }

  lemma OneCoverMore(story: seq<Block>, title: Option<Line>, more: seq<Block>)
    requires OneCover(story, title) && NoCover(more)
    ensures OneCover(story + more, title)
  {
    if title.Some? {
      var i :| 0 <= i < |story| && story[i] == Cover(title.value) && NoCover(story[..i]) && NoCover(story[i + 1..]);
      var all := story + more;
      assert all[i] == Cover(title.value) && all[..i] == story[..i] && all[i + 1..] == story[i + 1..] + more;
    }
  }

  lemma OneCoverFirst(story: seq<Block>, line: Line, front: seq<Block>, back: seq<Block>)
    requires NoCover(story) && NoCover(front) && NoCover(back)
    ensures OneCover(story + (front + [Cover(line)] + back), Some(line))
  {
    var all := story + (front + [Cover(line)] + back);
    var i := |story| + |front|;
    assert all[i] == Cover(line) && all[..i] == story + front && all[i + 1..] == back;
  }

  lemma {:induction false} BuiltCover(kind: Kinds, lines: seq<Line>)
    ensures OneCover(Built(kind, lines), FirstTitle(kind, lines))
  {
    if lines != [] {
      var before, last := lines[..|lines| - 1], lines[|lines| - 1];
      var v, k, title := After(kind, before), kind(last.text), FirstTitle(kind, before);
      BuiltCover(kind, before);
      BuffersExclude(kind, before);
      if k.Title? && !v.fenced && title.None? {
        TitleCovers(Built(kind, before), v, last);
      } else {
        NothingCovers(v, k, last, title);
        OneCoverMore(Built(kind, before), title, Added(v, k, last, title.Some?));
      }
    }
  }

  lemma TitleCovers(story: seq<Block>, v: View, line: Line)
    requires NoCover(story) && !v.fenced
    ensures OneCover(story + Added(v, Title, line, false), Some(line))
  {
    var front, rest := (TableBlocks(v.rows) + ProseBlocks(v.prose)) + [Gap], [Notice, Gap, Notice, PageBreak];
    assert Added(v, Title, line, false) == front + [Cover(line)] + rest;
    OneCoverFirst(story, line, front, rest);
  }

  lemma NothingCovers(v: View, k: Kind, line: Line, title: Option<Line>)
    requires NextTitle(title, k, v.fenced, line) == title
    ensures NoCover(Added(v, k, line, title.Some?))
  {
  }

  /** The story has exactly one cover if there is a title outside all fences, showing the first of them, and else none. */
  lemma CoverExactly(kind: Kinds, lines: seq<Line>)
    ensures OneCover(Story(kind, lines), FirstTitle(kind, lines))
  {
    var v := After(kind, lines);
    BuiltCover(kind, lines);
    OneCoverMore(Built(kind, lines), FirstTitle(kind, lines), ProseBlocks(v.prose));
    OneCoverMore(Built(kind, lines) + ProseBlocks(v.prose), FirstTitle(kind, lines), TableBlocks(v.rows));
  }

  // -------------------------------------------------------------------- the parser

  /** The rows a table is made of. */
  function KeptRows(kind: Kinds, table: seq<Line>): seq<Line> {
    if table == [] then []
    else
      var last := table[|table| - 1];
      KeptRows(kind, table[..|table| - 1]) + if kind(last.text) == Row(true) then [] else [last]
  }

  lemma KeptNext(kind: Kinds, table: seq<Line>, line: Line)
    requires kind(line.text).Row?
    ensures KeptRows(kind, table + [line]) == KeptRows(kind, table) + if kind(line.text).separator then [] else [line]
  {
    assert (table + [line])[..|table + [line]| - 1] == table;
  }

  class GuideParser {
    const kind: Kinds
    var story: seq<Block>
    var paragraph: seq<Line>
    var code: seq<Line>
    var table: seq<Line>
    var inCode: bool
    var seenTitle: bool

    constructor (kind: Kinds)
      ensures this.kind == kind && HasRead([])
    {
      this.kind, story, paragraph, code, table, inCode, seenTitle := kind, [], [], [], [], false, false;
    }

    /** The fields hold what the lines read so far determine. */
    ghost predicate HasRead(lines: seq<Line>)
      reads this
    {
      At(After(kind, lines), Built(kind, lines), FirstTitle(kind, lines).Some?)
    }

    ghost predicate At(v: View, built: seq<Block>, titled: bool)
      reads this
    {
      && paragraph == v.prose && code == v.code && KeptRows(kind, table) == v.rows && inCode == v.fenced
      && story == built && seenTitle == titled
    }

    method FlushParagraph()
      modifies this`story, this`paragraph
      ensures paragraph == [] && story == old(story) + ProseBlocks(old(paragraph))
    {
      if paragraph != [] {
        story := story + [Body(paragraph)];
        paragraph := [];
      }
    }

    /** A table of separator rows alone leaves nothing in the story. */
    method FlushTable()
      modifies this`story, this`table
      ensures table == [] && story == old(story) + TableBlocks(old(KeptRows(kind, table)))
    {
      var rows := DataRows(kind, table);
      table := [];
      if rows != [] {
        story := story + [Table(rows)] + [Gap];
      }
    }

    /** A line of three backticks opens a fence, or closes it and places its code. */
    method AddFence(ghost v: View, ghost built: seq<Block>, ghost titled: bool, ghost line: Line)
      requires At(v, built, titled) && OneBuffer(v)
      modifies this
      ensures At(Step(v, Fence, line), built + Added(v, Fence, line, titled), titled)
    {
      FlushParagraph();
      if inCode {
        story := story + [Code(code)];
        code := [];
      }
      inCode := !inCode;
    }

    method AddRow(line: Line, ghost v: View, ghost built: seq<Block>, ghost titled: bool)
      requires At(v, built, titled) && !inCode && kind(line.text).Row?
      modifies this
      ensures At(Step(v, kind(line.text), line), built + Added(v, kind(line.text), line, titled), titled)
    {
      FlushParagraph();
      KeptNext(kind, table, line);
      table := table + [line];
    }

    /** Every other line outside a fence ends the table; all but prose end the paragraph too. */
    method AddOther(line: Line, ghost v: View, ghost built: seq<Block>, ghost titled: bool)
      requires At(v, built, titled) && !inCode && !kind(line.text).Fence? && !kind(line.text).Row?
      modifies this
      ensures At(Step(v, kind(line.text), line), built + Added(v, kind(line.text), line, titled), titled || kind(line.text).Title?)
    {
      RegroupBlocks(built, TableBlocks(v.rows), ProseBlocks(v.prose), OwnBlocks(kind(line.text), line, titled));
      FlushTable();
      if kind(line.text).Prose? {
        paragraph := paragraph + [line];
      } else {
        FlushParagraph();
        AddBlock(line);
      }
    }

    /** A line that is a block by itself; a blank line only ends the one before. */
    method AddBlock(line: Line)
      requires var k := kind(line.text); !k.Fence? && !k.Row? && !k.Prose?
      modifies this`story, this`seenTitle
      ensures story == old(story) + OwnBlocks(kind(line.text), line, old(seenTitle))
      ensures seenTitle == (old(seenTitle) || kind(line.text).Title?)
    {
      match kind(line.text) {
        case Title =>
          if !seenTitle {
            AddCover(line);
          } else {
            story := story + [Heading1(line)];
          }
        case Section => story := story + [Heading1(line)];
        case Subsection => story := story + [Heading2(line)];
        case Item => story := story + [Bullet(line)];
        case Numbered => story := story + [Bullet(line)];
        case Blank =>
      }
    }

    /** The first title fills the cover page. */
    method AddCover(line: Line)
      modifies this`story, this`seenTitle
      ensures seenTitle && story == old(story) + [Gap, Cover(line), Notice, Gap, Notice, PageBreak]
    {
      story := story + [Gap, Cover(line), Notice, Gap, Notice, PageBreak];
      seenTitle := true;
    }

    /** The body of the loop. */
    method AddLine(line: Line, ghost v: View, ghost built: seq<Block>, ghost titled: bool)
      requires At(v, built, titled) && OneBuffer(v)
      modifies this
      ensures var k := kind(line.text);
        At(Step(v, k, line), built + Added(v, k, line, titled), titled || (k.Title? && !v.fenced))
    {
      if kind(line.text).Fence? {
        AddFence(v, built, titled, line);
      } else if inCode {
        code := code + [line];
      } else if kind(line.text).Row? {
        AddRow(line, v, built, titled);
      } else {
        AddOther(line, v, built, titled);
      }
    }

    /** One turn of the loop, seen from the lines read so far. */
    method Read(line: Line, ghost lines: seq<Line>)
      requires HasRead(lines)
      modifies this
      ensures HasRead(lines + [line])
    {
      ghost var v, built, titled := After(kind, lines), Built(kind, lines), FirstTitle(kind, lines).Some?;
      NextLine(kind, lines, line);
      BuffersExclude(kind, lines);
      AddLine(line, v, built, titled);
    }

    /** The flushes after the loop. */
    method Finish(ghost lines: seq<Line>)
      requires HasRead(lines)
      modifies this
      ensures story == Story(kind, lines)
    {
      FlushParagraph();
      FlushTable();
    }
  }

  /** The rows that do not match the separator pattern. */
  method DataRows(kind: Kinds, table: seq<Line>) returns (rows: seq<Line>)
    ensures rows == KeptRows(kind, table)
  {
    rows := [];
    for i := 0 to |table|
      invariant rows == KeptRows(kind, table[..i])
    {
      assert table[..i + 1][..i] == table[..i];
      if kind(table[i].text) != Row(true) {
        rows := rows + [table[i]];
      }
    }
    assert table[..|table|] == table;
  }

  /** `parse_markdown`: the story is the one its lines determine. */
  method Parse(kind: Kinds, lines: seq<Line>) returns (story: seq<Block>)
    ensures story == Story(kind, lines)
  {
    var parser := new GuideParser(kind);
    for i := 0 to |lines|
      invariant parser.kind == kind && parser.HasRead(lines[..i])
    {
      assert lines[..i + 1] == lines[..i] + [lines[i]];
      parser.Read(lines[i], lines[..i]);
    }
    assert lines[..|lines|] == lines;
    parser.Finish(lines);
    story := parser.story;
  }
}

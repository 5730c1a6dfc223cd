/**
  What the operator guide prints for a paragraph and for a table row: the source text again, up to
  white space and the bars between cells.
 */
module GuideText {
  import opened Text

  /** `" ".join(part.strip() for part in paragraph)`. */
  function ParagraphText(lines: seq<string>, space: CharClass): string {
    Join(Stripped(lines, space), " ")
  }

  function Stripped(parts: seq<string>, space: CharClass): seq<string> {
    Each(parts, s => Strip(s, space))
  }

  function Each(parts: seq<string>, f: string -> string): (r: seq<string>)
    ensures |r| == |parts|
  {
    if parts == [] then [] else [f(parts[0])] + Each(parts[1..], f)
  }

  predicate Bar(c: char) {
    c == '|'
  }

  /** `[cell.strip() for cell in row.strip().strip("|").split("|")]`. */
  function RowCells(row: string, space: CharClass): seq<string> {
    Stripped(SplitOn(Strip(Strip(row, space), Bar), '|'), space)
  }

  function InkOfAll(parts: seq<string>, drop: CharClass): string {
    if parts == [] then "" else Ink(parts[0], drop) + InkOfAll(parts[1..], drop)
  }

  lemma {:induction false} InkEach(parts: seq<string>, f: string -> string, drop: CharClass)
    requires forall s :: Ink(f(s), drop) == Ink(s, drop)
    ensures InkOfAll(Each(parts, f), drop) == InkOfAll(parts, drop)
  {
    if parts != [] {
      InkEach(parts[1..], f, drop);
    }
  }

  lemma InkStripped(parts: seq<string>, space: CharClass, drop: CharClass)
    requires forall c :: space(c) ==> drop(c)
    ensures InkOfAll(Stripped(parts, space), drop) == InkOfAll(parts, drop)
  {
    var f: string -> string := s => Strip(s, space);
    forall s ensures Ink(f(s), drop) == Ink(s, drop) {
      InkStrip(s, space, drop);
    }
    InkEach(parts, f, drop);
  }

  lemma {:induction false} InkJoin(parts: seq<string>, c: char, drop: CharClass)
    requires drop(c)
    ensures Ink(Join(parts, [c]), drop) == InkOfAll(parts, drop)
  {
    if |parts| == 1 {
      assert InkOfAll(parts[1..], drop) == "";
    } else if |parts| > 1 {
      var rest := Join(parts[1..], [c]);
      InkJoin(parts[1..], c, drop);
      InkAppend(parts[0] + [c], rest, drop);
      InkAppend(parts[0], [c], drop);
      assert Ink([c], drop) == Ink("", drop);
    }
  }

  /** A printed paragraph has the characters of its lines, in order, up to white space. */
  lemma ParagraphKeepsInk(lines: seq<string>, space: CharClass)
    requires space(' ')
    ensures Ink(ParagraphText(lines, space), space) == InkOfAll(lines, space)
  {
    InkJoin(Stripped(lines, space), ' ', space);
    InkStripped(lines, space, space);
  }

  lemma CellsKeepInk(row: string, space: CharClass, drop: CharClass)
    requires drop('|') && forall c :: space(c) ==> drop(c)
    ensures InkOfAll(Stripped(SplitOn(row, '|'), space), drop) == Ink(row, drop)
  {
    var parts := SplitOn(row, '|');
    InkStripped(parts, space, drop);
    JoinOfSplit(row, '|');
    InkJoin(parts, '|', drop);
  }

  /** The cells of a row have its characters, in order, up to white space and bars. */
  lemma RowKeepsInk(row: string, space: CharClass, drop: CharClass)
    requires drop('|') && forall c :: space(c) ==> drop(c)
    ensures InkOfAll(RowCells(row, space), drop) == Ink(row, drop)
  {
    var trimmed := Strip(row, space);
    InkStrip(row, space, drop);
    InkStrip(trimmed, Bar, drop);
    CellsKeepInk(Strip(trimmed, Bar), space, drop);
  }

  /** No cell contains a bar, and none begins or ends with white space. */
  lemma {:induction false} CellsAreClean(row: string, space: CharClass, i: nat)
    requires i < |RowCells(row, space)|
    ensures var cell := RowCells(row, space)[i];
      '|' !in cell && (cell == "" || (!space(cell[0]) && !space(cell[|cell| - 1])))
  {
    var parts := SplitOn(Strip(Strip(row, space), Bar), '|');
    EachAt(parts, s => Strip(s, space), i);
    PartsHaveNone(Strip(Strip(row, space), Bar), '|', i);
    StripIsPart(parts[i], space);
  }

  lemma {:induction false} EachAt(parts: seq<string>, f: string -> string, i: nat)
    requires i < |parts|
    ensures Each(parts, f)[i] == f(parts[i])
  {
    if i > 0 {
      EachAt(parts[1..], f, i - 1);
    }
  }

  lemma {:induction false} PartsHaveNone(s: string, c: char, i: nat)
    requires i < |SplitOn(s, c)|
    ensures c !in SplitOn(s, c)[i]
  {
    if s != "" {
      var rest := SplitOn(s[1..], c);
      if s[0] == c {
        if i > 0 {
          PartsHaveNone(s[1..], c, i - 1);
        }
      } else {
        PartsHaveNone(s[1..], c, i);
      }
    }
  }

  lemma StripIsPart(s: string, space: CharClass)
    ensures forall c :: c in Strip(s, space) ==> c in s
  {
    var left := StripLeft(s, space);
    var both := StripRight(left, space);
    forall c | c in both ensures c in s {
      var i :| 0 <= i < |both| && both[i] == c;
      assert left[i] == c && s[|s| - |left| + i] == c;
    }
  }

  // ------------------------------------------------- what exactly is printed

  /** `text` is `core` with white space around it, and the core has none at its ends. */
  ghost predicate Padded(text: string, core: string, space: CharClass) {
    && (core == "" || (!space(core[0]) && !space(core[|core| - 1])))
    && exists left, right :: Only(left, space) && Only(right, space) && text == left + core + right
  }

  lemma StrippedAt(parts: seq<string>, space: CharClass, i: nat)
    requires i < |parts|
    ensures Stripped(parts, space)[i] == Strip(parts[i], space)
  {
    EachAt(parts, s => Strip(s, space), i);
  }

  lemma PaddedStrips(text: string, core: string, space: CharClass)
    requires Padded(text, core, space)
    ensures Strip(text, space) == core
  {
    var left, right :| Only(left, space) && Only(right, space) && text == left + core + right;
    StripPadded(left, core, right, space);
  }

  lemma StrippedAre(texts: seq<string>, cores: seq<string>, space: CharClass)
    requires |texts| == |cores| && forall i :: 0 <= i < |texts| ==> Padded(texts[i], cores[i], space)
    ensures Stripped(texts, space) == cores
  {
    forall i | 0 <= i < |texts| ensures Stripped(texts, space)[i] == cores[i] {
      StrippedAt(texts, space, i);
      PaddedStrips(texts[i], cores[i], space);
    }
  }

  /** A paragraph is printed as its lines without their outer white space, one blank between any two. */
  lemma ParagraphExactly(texts: seq<string>, cores: seq<string>, space: CharClass)
    requires |texts| == |cores| && forall i :: 0 <= i < |texts| ==> Padded(texts[i], cores[i], space)
    ensures ParagraphText(texts, space) == Join(cores, " ")
  {
    StrippedAre(texts, cores, space);
  }

  lemma Regroup(a: string, l: string, s: string, r: string, b: string)
    ensures a + (l + s + r) + b == (a + l) + s + (r + b)
  {
  }

  /** More white space around a text changes nothing that is stripped. */
  lemma StripMore(left: string, s: string, right: string, space: CharClass)
    requires Only(left, space) && Only(right, space)
    ensures Strip(left + s + right, space) == Strip(s, space)
  {
    var core := Strip(s, space);
    var l, r := StripIsPadded(s, space);
    OnlyBoth(left, l, space);
    OnlyBoth(r, right, space);
    StripPadded(left + l, core, r + right, space);
    Regroup(left, l, core, r, right);
  }

  lemma {:induction false} SplitWithFront(front: string, s: string, c: char)
    requires c !in front
    ensures SplitOn(front + s, c) == [front + SplitOn(s, c)[0]] + SplitOn(s, c)[1..]
  {
    var parts := SplitOn(s, c);
    if front == "" {
      assert front + s == s && front + parts[0] == parts[0];
      assert parts == [parts[0]] + parts[1..];
    } else {
      SplitWithFront(front[1..], s, c);
      assert (front + s)[0] == front[0] && front[0] in front && (front + s)[1..] == front[1..] + s;
      assert [front[0]] + (front[1..] + parts[0]) == front + parts[0];
    }
  }

  /** The parts with a text added to the last of them. */
  function Lengthened(parts: seq<string>, end: string): seq<string>
    requires parts != []
  {
    parts[..|parts| - 1] + [parts[|parts| - 1] + end]
  }

  lemma LengthenedFirst(parts: seq<string>, end: string, c: char)
    requires parts != []
    ensures Lengthened([""] + parts, end) == [""] + Lengthened(parts, end)
    ensures var more := Lengthened(parts, end);
      Lengthened([[c] + parts[0]] + parts[1..], end) == [[c] + more[0]] + more[1..]
  {
    if |parts| == 1 {
      assert [c] + parts[0] + end == [c] + (parts[0] + end);
    }
  }

  lemma {:induction false} SplitWithEnd(s: string, end: string, c: char)
    requires c !in end
    ensures SplitOn(s + end, c) == Lengthened(SplitOn(s, c), end)
  {
    if s == "" {
      SplitOfPlain(end, c);
      assert s + end == end;
    } else {
      SplitWithEnd(s[1..], end, c);
      assert (s + end)[1..] == s[1..] + end;
      LengthenedFirst(SplitOn(s[1..], c), end, s[0]);
    }
  }

  /** White space at the ends of a row does not show in its cells. */
  lemma CellsOfPadded(left: string, s: string, right: string, space: CharClass)
    requires Only(left, space) && Only(right, space) && !space('|')
    ensures Stripped(SplitOn(left + s + right, '|'), space) == Stripped(SplitOn(s, '|'), space)
  {
    SplitWithFront(left, s, '|');
    SplitWithEnd(left + s, right, '|');
    StrippedPadded(left, SplitOn(s, '|'), right, space);
  }

  lemma StrippedPadded(left: string, parts: seq<string>, right: string, space: CharClass)
    requires parts != [] && Only(left, space) && Only(right, space)
    ensures Stripped(Lengthened([left + parts[0]] + parts[1..], right), space) == Stripped(parts, space)
  {
    var all := Lengthened([left + parts[0]] + parts[1..], right);
    forall i | 0 <= i < |parts| ensures Stripped(all, space)[i] == Stripped(parts, space)[i] {
      StrippedAt(all, space, i);
      StrippedAt(parts, space, i);
      var l, r := if i == 0 then left else "", if i == |parts| - 1 then right else "";
      PaddedAt(left, parts, right, i);
      StripMore(l, parts[i], r, space);
    }
  }

  lemma PaddedAt(left: string, parts: seq<string>, right: string, i: nat)
    requires i < |parts|
    ensures Lengthened([left + parts[0]] + parts[1..], right)[i]
         == (if i == 0 then left else "") + parts[i] + (if i == |parts| - 1 then right else "")
  {
  }

  lemma JoinFront(texts: seq<string>)
    requires texts != []
    ensures texts[0] <= Join(texts, "|")
  {
  }

  lemma {:induction false} JoinBack(texts: seq<string>)
    requires texts != []
    ensures EndsWith(Join(texts, "|"), texts[|texts| - 1])
  {
    if |texts| > 1 {
      JoinBack(texts[1..]);
      EndsWithMore(texts[0] + "|", Join(texts[1..], "|"), texts[|texts| - 1]);
    }
  }

  lemma EndsWithMore(front: string, s: string, end: string)
    requires EndsWith(s, end)
    ensures EndsWith(front + s, end)
  {
    assert (front + s)[|front + s| - |end|..] == s[|s| - |end|..];
  }

  /** Neither white space nor a bar. */
  ghost predicate IsInk(c: char, space: CharClass) {
    c != '|' && !space(c)
  }

  ghost predicate InkyCell(text: string, cell: string, space: CharClass) {
    Padded(text, cell, space) && cell != "" && '|' !in cell
  }

  lemma PaddedFront(text: string, cell: string, space: CharClass) returns (left: string)
    requires InkyCell(text, cell, space)
    ensures left <= text && Only(left, space) && |left| < |text| && IsInk(text[|left|], space)
  {
    var right;
    left, right :| Only(left, space) && Only(right, space) && text == left + cell + right;
    assert text[|left|] == cell[0];
  }

  lemma PaddedBack(text: string, cell: string, space: CharClass) returns (right: string)
    requires InkyCell(text, cell, space)
    ensures EndsWith(text, right) && Only(right, space) && |right| < |text| && IsInk(text[|text| - |right| - 1], space)
  {
    var left;
    left, right :| Only(left, space) && Only(right, space) && text == left + cell + right;
    assert text[|text| - |right| - 1] == cell[|cell| - 1];
    assert text[|text| - |right|..] == right;
  }

  /** A text from its first character of ink to its last. */
  lemma InkInside(row: string, left: string, right: string, space: CharClass) returns (ink: string)
    requires left <= row && |left| < |row| && IsInk(row[|left|], space)
    requires EndsWith(row, right) && Only(right, space) && |right| < |row| && IsInk(row[|row| - |right| - 1], space)
    ensures row == left + ink + right && ink != "" && IsInk(ink[0], space) && IsInk(ink[|ink| - 1], space)
  {
    var k := |row| - |right|;
    assert row[k..] == right;
    assert |left| < k;
    ink := row[|left|..k];
  }

  /** The texts of a row from the first character of ink to the last. */
  lemma InkBetween(texts: seq<string>, cells: seq<string>, space: CharClass) returns (left: string, ink: string, right: string)
    requires |texts| == |cells| > 0 && InkyCell(texts[0], cells[0], space) && InkyCell(texts[|texts| - 1], cells[|cells| - 1], space)
    ensures Join(texts, "|") == left + ink + right && Only(left, space) && Only(right, space)
    ensures ink != "" && IsInk(ink[0], space) && IsInk(ink[|ink| - 1], space)
  {
    left := RowFront(texts, cells[0], space);
    right := RowBack(texts, cells[|cells| - 1], space);
    ink := InkInside(Join(texts, "|"), left, right, space);
  }

  lemma RowFront(texts: seq<string>, cell: string, space: CharClass) returns (left: string)
    requires texts != [] && InkyCell(texts[0], cell, space)
    ensures var row := Join(texts, "|"); left <= row && Only(left, space) && |left| < |row| && IsInk(row[|left|], space)
  {
    left := PaddedFront(texts[0], cell, space);
    JoinFront(texts);
    BeginOfBegin(Join(texts, "|"), texts[0], left);
  }

  lemma RowBack(texts: seq<string>, cell: string, space: CharClass) returns (right: string)
    requires texts != [] && InkyCell(texts[|texts| - 1], cell, space)
    ensures var row := Join(texts, "|");
      EndsWith(row, right) && Only(right, space) && |right| < |row| && IsInk(row[|row| - |right| - 1], space)
  {
    right := PaddedBack(texts[|texts| - 1], cell, space);
    JoinBack(texts);
    EndOfEnd(Join(texts, "|"), texts[|texts| - 1], right);
  }

  lemma BeginOfBegin(s: string, begin: string, first: string)
    requires begin <= s && first <= begin && |first| < |begin|
    ensures first <= s && |first| < |s| && s[|first|] == begin[|first|]
  {
  }

  lemma EndOfEnd(s: string, end: string, last: string)
    requires EndsWith(s, end) && EndsWith(end, last) && |last| < |end|
    ensures EndsWith(s, last) && |last| < |s| && s[|s| - |last| - 1] == end[|end| - |last| - 1]
  {
    var tail := s[|s| - |end|..];
    assert tail[|tail| - |last|..] == s[|s| - |last|..];
    assert tail[|tail| - |last| - 1] == s[|s| - |last| - 1];
  }

  /** The two strips of a row take the white space and the bars around what is between them. */
  lemma StripTwice(before: string, open: string, s: string, close: string, after: string, space: CharClass)
    requires Only(before, space) && Only(after, space) && Only(open, Bar) && Only(close, Bar) && !space('|')
    requires s != "" && s[0] != '|' && s[|s| - 1] != '|'
    requires (open == "" ==> !space(s[0])) && (close == "" ==> !space(s[|s| - 1]))
    ensures Strip(Strip(before + (open + s + close) + after, space), Bar) == s
  {
    var inner := open + s + close;
    assert inner[0] == if open == "" then s[0] else open[0];
    assert inner[|inner| - 1] == if close == "" then s[|s| - 1] else close[|close| - 1];
    assert open != "" ==> open[0] in open;
    assert close != "" ==> close[|close| - 1] in close;
    StripPadded(before, inner, after, space);
    StripPadded(open, s, close, Bar);
  }

  /** A row of one piece of text between its bars. */
  lemma CellsOfRow(before: string, open: string, left: string, ink: string, right: string, close: string, after: string, space: CharClass)
    requires Only(before, space) && Only(after, space) && Only(open, Bar) && Only(close, Bar) && !space('|')
    requires Only(left, space) && Only(right, space)
    requires ink != "" && IsInk(ink[0], space) && IsInk(ink[|ink| - 1], space)
    ensures RowCells(before + (open + (left + ink + right) + close) + after, space)
         == Stripped(SplitOn(left + ink + right, '|'), space)
  {
    // white space beside a bar is inside the row, and white space beside no bar goes with the outer one
    var l, l' := if open == "" then left else "", if open == "" then "" else left;
    var r, r' := if close == "" then right else "", if close == "" then "" else right;
    InkOrSpace(l', ink, r', space);
    OnlyBoth(before, l, space);
    OnlyBoth(r, after, space);
    CellsOfInner(before + l, open, l' + ink + r', close, r + after, space);
    RowRegroup(before, open, l, l', ink, r', r, close, after);
    CellsOfPadded(l, l' + ink + r', r, space);
    assert left == l + l' && right == r' + r;
  }

  lemma CellsOfInner(before: string, open: string, s: string, close: string, after: string, space: CharClass)
    requires Only(before, space) && Only(after, space) && Only(open, Bar) && Only(close, Bar) && !space('|')
    requires s != "" && s[0] != '|' && s[|s| - 1] != '|'
    requires (open == "" ==> !space(s[0])) && (close == "" ==> !space(s[|s| - 1]))
    ensures RowCells(before + (open + s + close) + after, space) == Stripped(SplitOn(s, '|'), space)
  {
    StripTwice(before, open, s, close, after, space);
  }

  lemma InkOrSpace(left: string, ink: string, right: string, space: CharClass)
    requires Only(left, space) && Only(right, space) && !space('|')
    requires ink != "" && IsInk(ink[0], space) && IsInk(ink[|ink| - 1], space)
    ensures var s := left + ink + right;
      && s != "" && s[0] != '|' && s[|s| - 1] != '|'
      && (left == "" ==> !space(s[0])) && (right == "" ==> !space(s[|s| - 1]))
  {
    var s := left + ink + right;
    assert s[0] == if left == "" then ink[0] else left[0];
    assert s[|s| - 1] == if right == "" then ink[|ink| - 1] else right[|right| - 1];
    assert left != "" ==> left[0] in left;
    assert right != "" ==> right[|right| - 1] in right;
  }

  lemma RowRegroup(before: string, open: string, l: string, l': string, ink: string, r': string, r: string, close: string, after: string)
    requires (open == "" || l == "") && (close == "" || r == "")
    ensures before + (open + ((l + l') + ink + (r' + r)) + close) + after == (before + l) + (open + (l' + ink + r') + close) + (r + after)
    ensures (l + l') + ink + (r' + r) == l + (l' + ink + r') + r
  {
    var inner := l' + ink + r';
    assert (l + l') + ink + (r' + r) == l + inner + r;
    assert open + (l + inner + r) + close == l + (open + inner + close) + r;
    assert before + (l + (open + inner + close) + r) + after == (before + l) + (open + inner + close) + (r + after);
  }

  /**
    The cells of a row are the texts between its bars without their outer white space, whether the row begins or
    ends with bars or not.
   */
  lemma CellsExactly(before: string, open: string, texts: seq<string>, close: string, after: string, cells: seq<string>, space: CharClass)
    requires Only(before, space) && Only(after, space) && !space('|')
    requires (forall c :: c in open ==> c == '|') && (forall c :: c in close ==> c == '|')
    requires |texts| == |cells| > 0 && cells[0] != "" && cells[|cells| - 1] != ""
    requires forall i :: 0 <= i < |texts| ==> Padded(texts[i], cells[i], space) && '|' !in cells[i]
    ensures RowCells(before + (open + Join(texts, "|") + close) + after, space) == cells
  {
    var left, ink, right := InkBetween(texts, cells, space);
    CellsOfRow(before, open, left, ink, right, close, after, space);
    forall i | 0 <= i < |texts| ensures '|' !in texts[i] {
      var p, q :| Only(p, space) && Only(q, space) && texts[i] == p + cells[i] + q;
    }
    SplitOfJoin(texts, '|');
    StrippedAre(texts, cells, space);
  }
}

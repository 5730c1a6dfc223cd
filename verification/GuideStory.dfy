/**
  What the operator guide prints: every block of the story as the markup it is handed to the
  renderer with. Read back, the guide is the source text.
 */
module GuideStory {
  import opened Text
  import opened GuideText
  import B = GuideBlocks
  import M = InlineMarkup

  function Texts(lines: seq<B.Line>): (r: seq<string>)
    ensures |r| == |lines|
  {
    seq(|lines|, i requires 0 <= i < |lines| => lines[i].text)
  }

  /** The cells of all rows, one row after the other. */
  function AllCells(rows: seq<string>, space: CharClass): seq<string> {
    if rows == [] then [] else RowCells(rows[0], space) + AllCells(rows[1..], space)
  }

  /** What of its lines a block has to show: all of them, a heading or a bullet without its marker. */
  function Contents(b: B.Block, kind: B.Kinds): seq<string> {
    if b.Cover? || b.Heading1? || b.Heading2? || b.Bullet? then [B.Shown(b.line.text, kind(b.line.text))]
    else if b.Body? || b.Table? || b.Code? then Texts(b.lines)
    else []
  }

  /** The texts of a block that are marked up each on its own: a paragraph, every cell, a heading, a bullet. */
  function Marked(b: B.Block, kind: B.Kinds, space: CharClass): seq<string> {
    if b.Body? then [ParagraphText(Texts(b.lines), space)]
    else if b.Table? then AllCells(Texts(b.lines), space)
    else if b.Code? then []
    else Contents(b, kind)
  }

  /** The markup of a block, one text for each paragraph or cell; fixed texts are left out. */
  function Printed(b: B.Block, kind: B.Kinds, space: CharClass): seq<string> {
    if b.Code? then [PrintedCode(Texts(b.lines))] else Each(Marked(b, kind, space), M.Inline)
  }

  function PrintedCode(lines: seq<string>): string {
    if lines == [] then "" else M.CodeText(lines)
  }

  lemma {:induction false} InkOfAllAppend(a: seq<string>, b: seq<string>, drop: CharClass)
    ensures InkOfAll(a + b, drop) == InkOfAll(a, drop) + InkOfAll(b, drop)
  {
    if a == [] {
      assert a + b == b;
    } else {
      assert (a + b)[1..] == a[1..] + b;
      InkOfAllAppend(a[1..], b, drop);
    }
  }

  lemma {:induction false} EachAppend(a: seq<string>, b: seq<string>, f: string -> string)
    ensures Each(a + b, f) == Each(a, f) + Each(b, f)
  {
    if a == [] {
      assert a + b == b;
    } else {
      assert (a + b)[1..] == a[1..] + b;
      EachAppend(a[1..], b, f);
    }
  }

  lemma InkOfOne(text: string, drop: CharClass)
    ensures InkOfAll([text], drop) == Ink(text, drop)
  {
    assert [text][1..] == [];
  }

  lemma {:induction false} InkOfConcat(lines: seq<string>, drop: CharClass)
    ensures Ink(M.Concat(lines), drop) == InkOfAll(lines, drop)
  {
    if lines != [] {
      InkOfConcat(lines[1..], drop);
      InkAppend(lines[0], M.Concat(lines[1..]), drop);
    }
  }

  /** White space and the bars between cells. */
  ghost predicate Drops(drop: CharClass, space: CharClass) {
    drop('|') && space(' ') && forall c :: space(c) ==> drop(c)
  }

  lemma {:induction false} CellsReadBack(cells: seq<string>)
    ensures Each(Each(cells, M.Inline), M.ReadBack) == cells
  {
    if cells != [] {
      var printed := Each(cells[1..], M.Inline);
      CellsReadBack(cells[1..]);
      M.InlineReadsBack(cells[0]);
      assert ([M.Inline(cells[0])] + printed)[1..] == printed;
    }
  }

  lemma {:induction false} RowsKeepInk(rows: seq<string>, space: CharClass, drop: CharClass)
    requires Drops(drop, space)
    ensures InkOfAll(AllCells(rows, space), drop) == InkOfAll(rows, drop)
  {
    if rows != [] {
      RowsKeepInk(rows[1..], space, drop);
      InkOfAllAppend(RowCells(rows[0], space), AllCells(rows[1..], space), drop);
      RowKeepsInk(rows[0], space, drop);
    }
  }

  /** White space among what is dropped does not matter to what is kept. */
  lemma {:induction false} InkTwice(s: string, space: CharClass, drop: CharClass)
    requires forall c :: space(c) ==> drop(c)
    ensures Ink(Ink(s, space), drop) == Ink(s, drop)
  {
    if s != "" {
      InkTwice(s[1..], space, drop);
      InkAppend(if space(s[0]) then "" else [s[0]], Ink(s[1..], space), drop);
      assert [s[0]][1..] == "";
    }
  }

  lemma {:induction false} InkOfAllTwice(lines: seq<string>, space: CharClass, drop: CharClass)
    requires forall c :: space(c) ==> drop(c)
    ensures Ink(InkOfAll(lines, space), drop) == InkOfAll(lines, drop)
  {
    if lines != [] {
      InkTwice(lines[0], space, drop);
      InkOfAllTwice(lines[1..], space, drop);
      InkAppend(Ink(lines[0], space), InkOfAll(lines[1..], space), drop);
    }
  }

  lemma ParagraphInk(lines: seq<string>, space: CharClass, drop: CharClass)
    requires Drops(drop, space)
    ensures Ink(ParagraphText(lines, space), drop) == InkOfAll(lines, drop)
  {
    ParagraphKeepsInk(lines, space);
    InkTwice(ParagraphText(lines, space), space, drop);
    InkOfAllTwice(lines, space, drop);
  }

  /** The texts that are marked up have the characters of the content. */
  lemma MarkedKeepsInk(b: B.Block, kind: B.Kinds, space: CharClass, drop: CharClass)
    requires Drops(drop, space) && !b.Code?
    ensures InkOfAll(Marked(b, kind, space), drop) == InkOfAll(Contents(b, kind), drop)
  {
    if b.Body? {
      ParagraphInk(Texts(b.lines), space, drop);
      InkOfOne(ParagraphText(Texts(b.lines), space), drop);
    } else if b.Table? {
      RowsKeepInk(Texts(b.lines), space, drop);
    }
  }

  /** A printed block, read back, has the characters of its content in order, up to white space and bars. */
  lemma BlockReadsBack(b: B.Block, kind: B.Kinds, space: CharClass, drop: CharClass)
    requires Drops(drop, space)
    ensures InkOfAll(Each(Printed(b, kind, space), M.ReadBack), drop) == InkOfAll(Contents(b, kind), drop)
  {
    if b.Code? {
      CodeBlockReadsBack(Texts(b.lines), drop);
    } else {
      CellsReadBack(Marked(b, kind, space));
      MarkedKeepsInk(b, kind, space, drop);
    }
  }

  lemma CodeBlockReadsBack(lines: seq<string>, drop: CharClass)
    ensures InkOfAll(Each([PrintedCode(lines)], M.ReadBack), drop) == InkOfAll(lines, drop)
  {
    var text := PrintedCode(lines);
    assert [text][1..] == [];
    assert Each([text], M.ReadBack) == [M.ReadBack(text)];
    InkOfOne(M.ReadBack(text), drop);
    if lines != [] {
      M.CodeReadsBack(lines);
      InkOfConcat(lines, drop);
    }
  }

  function PrintedStory(story: seq<B.Block>, kind: B.Kinds, space: CharClass): seq<string> {
    if story == [] then []
    else PrintedStory(story[..|story| - 1], kind, space) + Printed(story[|story| - 1], kind, space)
  }

  function StoryContents(story: seq<B.Block>, kind: B.Kinds): seq<string> {
    if story == [] then [] else StoryContents(story[..|story| - 1], kind) + Contents(story[|story| - 1], kind)
  }

  /**
    The printed guide, read back, has the characters of the story's lines in story order, each once,
    up to white space, the bars of table rows and the markers of headings and bullets.
   */
  lemma {:induction false} StoryReadsBack(story: seq<B.Block>, kind: B.Kinds, space: CharClass, drop: CharClass)
    requires Drops(drop, space)
    ensures InkOfAll(Each(PrintedStory(story, kind, space), M.ReadBack), drop) == InkOfAll(StoryContents(story, kind), drop)
  {
    if story != [] {
      var before, last := story[..|story| - 1], story[|story| - 1];
      StoryReadsBack(before, kind, space, drop);
      BlockReadsBack(last, kind, space, drop);
      EachAppend(PrintedStory(before, kind, space), Printed(last, kind, space), M.ReadBack);
      InkOfAllAppend(Each(PrintedStory(before, kind, space), M.ReadBack), Each(Printed(last, kind, space), M.ReadBack), drop);
      InkOfAllAppend(StoryContents(before, kind), Contents(last, kind), drop);
    }
  }

  /** The whole line, or the line without the marker of its kind. */
  ghost predicate ShowsLine(text: string, line: B.Line, kind: B.Kinds) {
    text == line.text || text == B.Shown(line.text, kind(line.text))
  }

  /** The contents of a story are its lines, one for one. */
  lemma {:induction false} ContentsAreLines(story: seq<B.Block>, kind: B.Kinds)
    ensures |StoryContents(story, kind)| == |B.StoryLines(story)|
    ensures forall i :: 0 <= i < |B.StoryLines(story)| ==> ShowsLine(StoryContents(story, kind)[i], B.StoryLines(story)[i], kind)
  {
    if story != [] {
      ContentsAreLines(story[..|story| - 1], kind);
      BlockLines(story[|story| - 1], kind);
    }
  }

  lemma BlockLines(b: B.Block, kind: B.Kinds)
    ensures |Contents(b, kind)| == |B.LinesOf(b)|
    ensures forall i :: 0 <= i < |B.LinesOf(b)| ==> ShowsLine(Contents(b, kind)[i], B.LinesOf(b)[i], kind)
  {
  }

  // ------------------------------------------------------------ what exactly is printed

  /** A heading or a bullet is what follows its marker; a numbered line is all of itself. */
  lemma HeadingExactly(b: B.Block, line: B.Line, kind: B.Kinds, space: CharClass)
    requires b in {B.Cover(line), B.Heading1(line), B.Heading2(line), B.Bullet(line)}
    ensures var k, text := kind(line.text), line.text;
      && (k.Title? && |text| >= 2 ==> Marked(b, kind, space) == [text[2..]])
      && (k.Section? && |text| >= 3 ==> Marked(b, kind, space) == [text[3..]])
      && (k.Subsection? && |text| >= 4 ==> Marked(b, kind, space) == [text[4..]])
      && (k.Item? && |text| >= 2 ==> Marked(b, kind, space) == [text[2..]])
      && (k.Numbered? ==> Marked(b, kind, space) == [text])
  {
  }

  /** A paragraph is its lines without their outer white space, joined by blanks. */
  lemma BodyExactly(lines: seq<B.Line>, cores: seq<string>, kind: B.Kinds, space: CharClass)
    requires |lines| == |cores| && forall i :: 0 <= i < |lines| ==> Padded(lines[i].text, cores[i], space)
    ensures Marked(B.Body(lines), kind, space) == [Join(cores, " ")]
  {
    ParagraphExactly(Texts(lines), cores, space);
  }

  lemma {:induction false} AllCellsAppend(rows: seq<string>, row: string, space: CharClass)
    ensures AllCells(rows + [row], space) == AllCells(rows, space) + RowCells(row, space)
  {
    if rows == [] {
      assert rows + [row] == [row] && [row][1..] == [];
    } else {
      assert (rows + [row])[1..] == rows[1..] + [row];
      AllCellsAppend(rows[1..], row, space);
      RegroupCells(RowCells(rows[0], space), AllCells(rows[1..], space), RowCells(row, space));
    }
  }

  lemma RegroupCells(a: seq<string>, b: seq<string>, c: seq<string>)
    ensures (a + b) + c == a + (b + c)
  {
  }

  /** A table with one more row has the texts between that row's bars as further cells. */
  lemma RowExactly(lines: seq<B.Line>, line: B.Line, before: string, open: string, texts: seq<string>, close: string, after: string,
                   cells: seq<string>, kind: B.Kinds, space: CharClass)
    requires Only(before, space) && Only(after, space) && !space('|')
    requires (forall c :: c in open ==> c == '|') && (forall c :: c in close ==> c == '|')
    requires |texts| == |cells| > 0 && cells[0] != "" && cells[|cells| - 1] != ""
    requires forall i :: 0 <= i < |texts| ==> Padded(texts[i], cells[i], space) && '|' !in cells[i]
    requires line.text == before + (open + Join(texts, "|") + close) + after
    ensures Marked(B.Table([]), kind, space) == []
    ensures Marked(B.Table(lines + [line]), kind, space) == Marked(B.Table(lines), kind, space) + cells
  {
    CellsExactly(before, open, texts, close, after, cells, space);
    TextsAppend(lines, line);
    TableGrows(lines, line, kind, space);
  }

  lemma TableGrows(lines: seq<B.Line>, line: B.Line, kind: B.Kinds, space: CharClass)
    ensures Marked(B.Table(lines + [line]), kind, space) == Marked(B.Table(lines), kind, space) + RowCells(line.text, space)
  {
    TextsAppend(lines, line);
    AllCellsAppend(Texts(lines), line.text, space);
  }

  lemma TextsAppend(lines: seq<B.Line>, line: B.Line)
    ensures Texts(lines + [line]) == Texts(lines) + [line.text] && Texts([]) == []
  {
  }

  /** Everything but code is printed text by text through the inline markup. */
  lemma PrintedExactly(b: B.Block, kind: B.Kinds, space: CharClass, i: nat)
    requires !b.Code? && i < |Marked(b, kind, space)|
    ensures |Printed(b, kind, space)| == |Marked(b, kind, space)|
    ensures Printed(b, kind, space)[i] == M.Inline(Marked(b, kind, space)[i])
  {
    EachAt(Marked(b, kind, space), M.Inline, i);
  }
}

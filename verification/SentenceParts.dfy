/**
  Sentence boundaries for speech synthesis: a split after sentence ends, re-merged after
  abbreviations.  Nothing but white space between sentences may change.
 */
module SentenceParts {
  import opened Text

  predicate IsEnd(c: char) {
    c == '.' || c == '!' || c == '?'
  }

  /** White space includes the blank and no sentence end. */
  ghost predicate White(space: CharClass) {
    space(' ') && forall c :: IsEnd(c) ==> !space(c)
  }

  lemma PythonSpaceIsWhite()
    ensures White(PythonSpace)
  {
  }

  /** A character of white space that follows a sentence end. */
  predicate CutAt(s: string, i: int, space: CharClass) {
    0 < i < |s| && IsEnd(s[i - 1]) && space(s[i])
  }

  /** The first such character at or after `from`, or the length of the text. */
  function FirstCut(s: string, from: nat, space: CharClass): (i: nat)
    requires from <= |s|
    ensures from <= i <= |s|
    decreases |s| - from
  {
    if from == |s| || CutAt(s, from, space) then from else FirstCut(s, from + 1, space)
  }

  lemma {:induction false} FirstCutIsFirst(s: string, from: nat, i: nat, space: CharClass)
    requires from <= i <= |s|
    ensures FirstCut(s, from, space) == i
       <==> (i == |s| || CutAt(s, i, space)) && forall k :: from <= k < i ==> !CutAt(s, k, space)
    decreases |s| - from
  {
    if from < i && !CutAt(s, from, space) {
      FirstCutIsFirst(s, from + 1, i, space);
    }
  }

  /** `re.split(r'(?<=[.!?])\s+', s)`. */
  function RawSplit(s: string, space: CharClass): (pieces: seq<string>)
    ensures pieces != []
    decreases |s|
  {
    var i := FirstCut(s, 0, space);
    if i == |s| then [s] else [s[..i]] + RawSplit(StripLeft(s[i + 1..], space), space)
  }

  const ABBREVIATIONS := ["Mr", "Mrs", "Ms", "Dr", "Prof", "St"]

  /** The text ends in `tail`, and what stands before it is no part of a word. */
  predicate EndsInWord(s: string, tail: string, word: CharClass) {
    EndsWith(s, tail) && (|s| == |tail| || !word(s[|s| - |tail| - 1]))
  }

  /** `re.search(r'\b(?:Mr|Mrs|Ms|Dr|Prof|St)\.$', s)`; `word` is the class of characters that make words. */
  predicate EndsAbbreviated(s: string, word: CharClass) {
    exists k :: 0 <= k < |ABBREVIATIONS| && EndsInWord(s, ABBREVIATIONS[k] + ".", word)
  }

  /** The same with the title, and what is before it, spelled out. */
  ghost predicate EndsWithTitle(s: string, front: string, title: string, word: CharClass) {
    && title in {"Mr", "Mrs", "Ms", "Dr", "Prof", "St"} && s == front + (title + ".")
    && (front == "" || !word(front[|front| - 1]))
  }

  lemma AbbreviatedExactly(s: string, word: CharClass)
    ensures EndsAbbreviated(s, word) <==> exists front, title :: EndsWithTitle(s, front, title, word)
  {
    if k :| 0 <= k < |ABBREVIATIONS| && EndsInWord(s, ABBREVIATIONS[k] + ".", word) {
      var front := FrontOf(s, ABBREVIATIONS[k] + ".", word);
      assert EndsWithTitle(s, front, ABBREVIATIONS[k], word);
    }
    if front, title :| EndsWithTitle(s, front, title, word) {
      var k := if title == "Mr" then 0 else if title == "Mrs" then 1 else if title == "Ms" then 2
               else if title == "Dr" then 3 else if title == "Prof" then 4 else 5;
      assert ABBREVIATIONS[k] == title;
      FrontAndTail(s, front, title + ".", word);
    }
  }

  lemma FrontOf(s: string, tail: string, word: CharClass) returns (front: string)
    requires EndsInWord(s, tail, word)
    ensures s == front + tail && (front == "" || !word(front[|front| - 1]))
  {
    front := s[..|s| - |tail|];
  }

  lemma FrontAndTail(s: string, front: string, tail: string, word: CharClass)
    requires s == front + tail && (front == "" || !word(front[|front| - 1]))
    ensures EndsInWord(s, tail, word)
  {
    assert s[|s| - |tail|..] == tail;
    assert front != "" ==> s[|front| - 1] == front[|front| - 1];
  }

  function Abbreviated(word: CharClass): string -> bool {
    (s: string) => EndsAbbreviated(s, word)
  }

  ghost function MergeLast(parts: seq<string>, piece: string, open: string -> bool): (r: seq<string>)
    ensures r != []
  {
    if parts != [] && open(parts[|parts| - 1])
    then parts[..|parts| - 1] + [parts[|parts| - 1] + " " + piece]
    else parts + [piece]
  }

  /** The pieces merged behind `parts`, each one joined to the last part as long as that is `open`. */
  ghost function Merge(parts: seq<string>, pieces: seq<string>, open: string -> bool): seq<string>
    decreases |pieces|
  {
    if pieces == [] then parts else Merge(MergeLast(parts, pieces[0], open), pieces[1..], open)
  }

  ghost function Parts(text: string, space: CharClass, word: CharClass): seq<string> {
    Merge([], RawSplit(Strip(text, space), space), Abbreviated(word))
  }

  /** `sentence_parts`. */
  method ComputeSentenceParts(text: string, space: CharClass, word: CharClass) returns (parts: seq<string>)
    ensures parts == Parts(text, space, word)
  {
    var pieces := RawSplit(Strip(text, space), space);
    parts := MergePieces(pieces, Abbreviated(word));
  }

  /** The loop of `sentence_parts`. */
  method MergePieces(pieces: seq<string>, open: string -> bool) returns (parts: seq<string>)
    ensures parts == Merge([], pieces, open)
  {
    parts := [];
    var i := 0;
    while i < |pieces|
      invariant i <= |pieces| && Merge(parts, pieces[i..], open) == Merge([], pieces, open)
    {
      assert pieces[i..][1..] == pieces[i + 1..];
      ghost var merged := MergeLast(parts, pieces[i], open);
      if |parts| > 0 && open(parts[|parts| - 1]) {
        parts := parts[|parts| - 1 := parts[|parts| - 1] + " " + pieces[i]];
      } else {
        parts := parts + [pieces[i]];
      }
      assert parts == merged;
      i := i + 1;
    }
  }

  // ------------------------------------------------ what the split and the merge are

  /** The pieces with the gaps between them. */
  ghost function Woven(pieces: seq<string>, gaps: seq<string>): string
    requires |pieces| == |gaps| + 1
  {
    if gaps == [] then pieces[0] else pieces[0] + gaps[0] + Woven(pieces[1..], gaps[1..])
  }

  /** No white space follows a full stop, an exclamation mark or a question mark. */
  ghost predicate Whole(piece: string, space: CharClass) {
    forall i :: 0 < i < |piece| && piece[i - 1] in {'.', '!', '?'} ==> !space(piece[i])
  }

  /** A piece that ends a sentence, and the gap behind it. */
  ghost predicate Ends(piece: string, gap: string, space: CharClass) {
    piece != "" && piece[|piece| - 1] in {'.', '!', '?'} && gap != "" && Only(gap, space)
  }

  /** Whole pieces that end sentences, but for the last, with nothing but white space between, make up the text. */
  ghost predicate IsSplit(s: string, pieces: seq<string>, gaps: seq<string>, space: CharClass) {
    && |pieces| == |gaps| + 1 && s == Woven(pieces, gaps)
    && (forall k :: 0 <= k < |pieces| ==> Whole(pieces[k], space))
    && (forall k :: 0 <= k < |gaps| ==> Ends(pieces[k], gaps[k], space))
    && (forall k :: 0 < k < |pieces| ==> pieces[k] == "" || !space(pieces[k][0]))
  }

  lemma FrontPiece(front: string, gap: string, rest: string, pieces: seq<string>, gaps: seq<string>, space: CharClass)
    requires IsSplit(rest, pieces, gaps, space) && Whole(front, space) && Ends(front, gap, space)
    requires pieces[0] == "" || !space(pieces[0][0])
    ensures IsSplit(front + gap + rest, [front] + pieces, [gap] + gaps, space)
  {
    assert ([front] + pieces)[1..] == pieces && ([gap] + gaps)[1..] == gaps;
  }

  lemma WovenBegins(pieces: seq<string>, gaps: seq<string>)
    requires |pieces| == |gaps| + 1 && pieces[0] != ""
    ensures Woven(pieces, gaps) != "" && Woven(pieces, gaps)[0] == pieces[0][0]
  {
  }

  /** The split of a text is such a list of pieces. */
  lemma {:induction false} SplitExactly(s: string, space: CharClass) returns (gaps: seq<string>)
    ensures IsSplit(s, RawSplit(s, space), gaps, space)
    decreases |s|
  {
    var i := FirstCut(s, 0, space);
    FirstCutIsFirst(s, 0, i, space);
    WholeBeforeCut(s, i, space);
    if i == |s| {
      gaps := [];
      assert s[..i] == s;
    } else {
      var rest := StripLeft(s[i + 1..], space);
      var more := SplitExactly(rest, space);
      var gap := GapBehind(s, i, space);
      if RawSplit(rest, space)[0] != "" {
        WovenBegins(RawSplit(rest, space), more);
      }
      FrontPiece(s[..i], gap, rest, RawSplit(rest, space), more, space);
      gaps := [gap] + more;
    }
  }

  lemma GapBehind(s: string, i: nat, space: CharClass) returns (gap: string)
    requires i < |s| && CutAt(s, i, space)
    ensures s == s[..i] + gap + StripLeft(s[i + 1..], space) && Ends(s[..i], gap, space)
  {
    var after := s[i + 1..];
    var rest := StripLeft(after, space);
    LeftIsPadding(after, space);
    gap := [s[i]] + after[..|after| - |rest|];
    Around(s, i, after[..|after| - |rest|], rest);
  }

  lemma Around(s: string, i: nat, blank: string, rest: string)
    requires i < |s| && s[i + 1..] == blank + rest
    ensures s == s[..i] + ([s[i]] + blank) + rest
  {
    assert s == s[..i] + [s[i]] + s[i + 1..];
  }

  lemma WholeBeforeCut(s: string, i: nat, space: CharClass)
    requires i <= |s| && forall k :: 0 <= k < i ==> !CutAt(s, k, space)
    ensures Whole(s[..i], space)
  {
    forall k | 0 < k < i && s[..i][k - 1] in {'.', '!', '?'} ensures !space(s[..i][k]) {
      assert !CutAt(s, k, space);
    }
  }

  /** Part `i` is made of the pieces from the end of the part before it to its own end. */
  ghost function Group(pieces: seq<string>, ends: seq<nat>, i: nat): seq<string>
    requires i < |ends| && (i == 0 || ends[i - 1] <= ends[i]) && ends[i] <= |pieces|
  {
    pieces[if i == 0 then 0 else ends[i - 1]..ends[i]]
  }

  /** Every piece but the last of a group leaves the part open, and only the last part may stay so. */
  ghost predicate GroupAt(pieces: seq<string>, parts: seq<string>, ends: seq<nat>, i: nat, open: string -> bool) {
    && i < |ends| == |parts| && (if i == 0 then 0 else ends[i - 1]) < ends[i] <= |pieces|
    && var group := Group(pieces, ends, i);
    && parts[i] == Join(group, " ")
    && (forall k :: 0 < k < |group| ==> open(Join(group[..k], " ")))
    && (i < |parts| - 1 ==> !open(parts[i]))
  }

  ghost predicate Groups(pieces: seq<string>, parts: seq<string>, ends: seq<nat>, open: string -> bool) {
    && |ends| == |parts| && (forall i: nat :: i < |ends| ==> GroupAt(pieces, parts, ends, i, open))
    && if ends == [] then pieces == [] else ends[|ends| - 1] == |pieces|
  }

  lemma GroupKept(pieces: seq<string>, parts: seq<string>, ends: seq<nat>, i: nat, open: string -> bool,
                  more: string, parts': seq<string>, ends': seq<nat>)
    requires GroupAt(pieces, parts, ends, i, open) && |ends'| == |parts'| && i < |parts'|
    requires parts'[i] == parts[i] && ends'[..i + 1] == ends[..i + 1] && (i < |parts'| - 1 ==> !open(parts[i]))
    ensures GroupAt(pieces + [more], parts', ends', i, open)
  {
    assert ends'[i] == ends'[..i + 1][i] == ends[i];
    assert i > 0 ==> ends'[i - 1] == ends'[..i + 1][i - 1] == ends[i - 1];
    assert Group(pieces + [more], ends', i) == Group(pieces, ends, i);
  }

  lemma GroupsNext(pieces: seq<string>, parts: seq<string>, ends: seq<nat>, piece: string, open: string -> bool) returns (ends': seq<nat>)
    requires Groups(pieces, parts, ends, open)
    ensures Groups(pieces + [piece], MergeLast(parts, piece, open), ends', open)
  {
    var n, all, parts' := |parts| - 1, pieces + [piece], MergeLast(parts, piece, open);
    if parts != [] && open(parts[n]) {
      ends' := ends[..n] + [|all|];
      GroupLonger(pieces, parts, ends, piece, open);
      forall i: nat | i < n ensures GroupAt(all, parts', ends', i, open) {
        assert GroupAt(pieces, parts, ends, i, open);
        GroupKept(pieces, parts, ends, i, open, piece, parts', ends');
      }
    } else {
      ends' := ends + [|all|];
      forall i: nat | i <= n ensures GroupAt(all, parts', ends', i, open) {
        assert GroupAt(pieces, parts, ends, i, open);
        GroupKept(pieces, parts, ends, i, open, piece, parts', ends');
      }
      assert Group(all, ends', n + 1) == [piece];
      assert GroupAt(all, parts', ends', n + 1, open);
    }
  }

  /** The last group with one more piece. */
  lemma GroupLonger(pieces: seq<string>, parts: seq<string>, ends: seq<nat>, piece: string, open: string -> bool)
    requires Groups(pieces, parts, ends, open) && parts != [] && open(parts[|parts| - 1])
    ensures GroupAt(pieces + [piece], MergeLast(parts, piece, open), ends[..|ends| - 1] + [|pieces| + 1], |parts| - 1, open)
  {
    var n, ends' := |parts| - 1, ends[..|ends| - 1] + [|pieces| + 1];
    assert GroupAt(pieces, parts, ends, n, open);
    var group, longer := Group(pieces, ends, n), Group(pieces + [piece], ends', n);
    assert longer == group + [piece];
    JoinLast(group, piece);
    forall k | 0 < k < |longer| ensures open(Join(longer[..k], " ")) {
      assert longer[..k] == group[..k];
      assert k == |group| ==> group[..k] == group;
    }
  }

  lemma {:induction false} MergeOneMore(parts: seq<string>, pieces: seq<string>, piece: string, open: string -> bool)
    ensures Merge(parts, pieces + [piece], open) == MergeLast(Merge(parts, pieces, open), piece, open)
    decreases |pieces|
  {
    if pieces == [] {
      assert [] + [piece] == [piece] && [piece][1..] == [];
    } else {
      assert (pieces + [piece])[1..] == pieces[1..] + [piece];
      MergeOneMore(MergeLast(parts, pieces[0], open), pieces[1..], piece, open);
    }
  }

  /**
    The merge: the parts are the pieces in consecutive groups, each joined by blanks, where a group goes on exactly as
    long as what it has so far is open.
   */
  lemma {:induction false} MergeExactly(pieces: seq<string>, open: string -> bool) returns (ends: seq<nat>)
    ensures Groups(pieces, Merge([], pieces, open), ends, open)
  {
    if pieces == [] {
      ends := [];
    } else {
      var n := |pieces| - 1;
      var before := MergeExactly(pieces[..n], open);
      assert pieces == pieces[..n] + [pieces[n]];
      MergeOneMore([], pieces[..n], pieces[n], open);
      ends := GroupsNext(pieces[..n], Merge([], pieces[..n], open), before, pieces[n], open);
    }
  }

  // ---------------------------------------------------------------- merging

  lemma JoinLast(parts: seq<string>, last: string)
    ensures Join(parts + [last], " ") == if parts == [] then last else Join(parts, " ") + " " + last
  {
    if parts != [] {
      JoinAppend(parts, [last], " ");
    }
  }

  lemma Regroup(a: string, b: string, c: string, d: string)
    ensures a + b + c + d == a + (b + c + d)
  {
  }

  lemma MergeLastText(parts: seq<string>, piece: string, open: string -> bool)
    ensures Join(MergeLast(parts, piece, open), " ") == if parts == [] then piece else Join(parts, " ") + " " + piece
  {
    JoinLast(parts, piece);
    if parts != [] && open(parts[|parts| - 1]) {
      var front, end := parts[..|parts| - 1], parts[|parts| - 1];
      assert parts == front + [end];
      JoinLast(front, end);
      JoinLast(front, end + " " + piece);
      Regroup(Join(front, " ") + " ", end, " ", piece);
    }
  }

  /** Merging joins neighbours with a space, so the joined text stays the same. */
  lemma {:induction false} MergeKeepsText(parts: seq<string>, pieces: seq<string>, open: string -> bool)
    ensures Join(Merge(parts, pieces, open), " ")
         == if parts == [] then Join(pieces, " ") else if pieces == [] then Join(parts, " ") else Join(parts, " ") + " " + Join(pieces, " ")
    decreases |pieces|
  {
    if pieces != [] {
      MergeLastText(parts, pieces[0], open);
      MergeKeepsText(MergeLast(parts, pieces[0], open), pieces[1..], open);
      if parts != [] && |pieces| > 1 {
        Regroup(Join(parts, " ") + " ", pieces[0], " ", Join(pieces[1..], " "));
      }
    }
  }

  ghost predicate AllButLastClosed(parts: seq<string>, open: string -> bool) {
    forall i :: 0 <= i < |parts| - 1 ==> !open(parts[i])
  }

  /** Only the last part may stay open. */
  lemma {:induction false} OpenPartsAreMerged(parts: seq<string>, pieces: seq<string>, open: string -> bool)
    requires AllButLastClosed(parts, open)
    ensures AllButLastClosed(Merge(parts, pieces, open), open)
    decreases |pieces|
  {
    if pieces != [] {
      var next := MergeLast(parts, pieces[0], open);
      forall i | 0 <= i < |next| - 1 ensures !open(next[i]) {
        assert next[i] == parts[i];
      }
      OpenPartsAreMerged(next, pieces[1..], open);
    }
  }

  // -------------------------------------------------------------- splitting

  ghost predicate Uncut(s: string, space: CharClass) {
    forall i :: !CutAt(s, i, space)
  }

  ghost predicate Trimmed(s: string, space: CharClass) {
    s == "" || (!space(s[0]) && !space(s[|s| - 1]))
  }

  /** A sentence that another one may follow. */
  ghost predicate Sentence(p: string, space: CharClass) {
    p != "" && Uncut(p, space) && Trimmed(p, space) && IsEnd(p[|p| - 1])
  }

  /** What a split of a stripped, non-empty text looks like: sentences, and a last piece that need not end like one. */
  ghost predicate Normal(pieces: seq<string>, space: CharClass)
    decreases |pieces|
  {
    && pieces != []
    && if |pieces| == 1 then pieces[0] != "" && Uncut(pieces[0], space) && Trimmed(pieces[0], space)
       else Sentence(pieces[0], space) && Normal(pieces[1..], space)
  }

  lemma SplitUnfolds(s: string, i: nat, space: CharClass)
    requires i == FirstCut(s, 0, space) && i < |s|
    ensures RawSplit(s, space) == [s[..i]] + RawSplit(StripLeft(s[i + 1..], space), space)
  {
  }

  /** One cut: the sentence, the first white space after it, and the rest of the text. */
  lemma SplitStep(s: string, i: nat, space: CharClass)
    requires i == FirstCut(s, 0, space) && i < |s|
    ensures var rest := StripLeft(s[i + 1..], space);
      && RawSplit(s, space) == [s[..i]] + RawSplit(rest, space)
      && Join(RawSplit(s, space), " ") == s[..i] + (" " + Join(RawSplit(rest, space), " "))
  {
    SplitUnfolds(s, i, space);
    var pieces := RawSplit(StripLeft(s[i + 1..], space), space);
    JoinStep(s[..i], pieces);
  }

  lemma JoinStep(piece: string, pieces: seq<string>)
    requires pieces != []
    ensures Join([piece] + pieces, " ") == piece + (" " + Join(pieces, " "))
  {
    assert ([piece] + pieces)[1..] == pieces;
    assert piece + " " + Join(pieces, " ") == piece + (" " + Join(pieces, " "));
  }

  lemma CutIsBeforeEnd(s: string, i: nat, space: CharClass)
    requires Trimmed(s, space) && i == FirstCut(s, 0, space) && i < |s|
    ensures CutAt(s, i, space) && i < |s| - 1
  {
    FirstCutIsFirst(s, 0, i, space);
  }

  lemma RestTrimmed(s: string, i: nat, space: CharClass)
    requires Trimmed(s, space) && i < |s| - 1
    ensures var rest := StripLeft(s[i + 1..], space); rest != "" && Trimmed(rest, space)
  {
    var after := s[i + 1..];
    assert after[|after| - 1] == s[|s| - 1];
    StripLeftKeepsLast(after, space);
  }

  lemma {:induction false} StripLeftKeepsLast(s: string, space: CharClass)
    requires s != "" && !space(s[|s| - 1])
    ensures var r := StripLeft(s, space); r != "" && r[|r| - 1] == s[|s| - 1]
  {
    if space(s[0]) {
      StripLeftKeepsLast(s[1..], space);
    }
  }

  lemma FirstPieceIsSentence(s: string, i: nat, space: CharClass)
    requires White(space) && Trimmed(s, space) && i == FirstCut(s, 0, space) && i < |s|
    ensures Sentence(s[..i], space)
  {
    FirstCutIsFirst(s, 0, i, space);
    var p := s[..i];
    forall k ensures !CutAt(p, k, space) {
      assert 0 < k < i ==> !CutAt(s, k, space);
    }
    assert p[i - 1] == s[i - 1] && p[0] == s[0];
  }

  lemma {:induction false} SplitIsNormal(s: string, space: CharClass)
    requires White(space) && Trimmed(s, space) && s != ""
    ensures Normal(RawSplit(s, space), space)
    decreases |s|
  {
    var i := FirstCut(s, 0, space);
    if i == |s| {
      FirstCutIsFirst(s, 0, i, space);
      assert Uncut(s, space);
    } else {
      var rest := StripLeft(s[i + 1..], space);
      CutIsBeforeEnd(s, i, space);
      RestTrimmed(s, i, space);
      SplitIsNormal(rest, space);
      FirstPieceIsSentence(s, i, space);
      assert ([s[..i]] + RawSplit(rest, space))[1..] == RawSplit(rest, space);
    }
  }

  lemma {:induction false} JoinedIsTrimmed(pieces: seq<string>, space: CharClass)
    requires Normal(pieces, space)
    ensures var s := Join(pieces, " "); s != "" && Trimmed(s, space)
    decreases |pieces|
  {
    if |pieces| > 1 {
      JoinedIsTrimmed(pieces[1..], space);
    }
  }

  /** The first cut of a sentence followed by a space is right after the sentence. */
  lemma CutAfterSentence(p: string, rest: string, space: CharClass)
    requires White(space) && Sentence(p, space)
    ensures FirstCut(p + " " + rest, 0, space) == |p|
  {
    var s := p + " " + rest;
    assert CutAt(s, |p|, space);
    forall k | 0 <= k < |p| ensures !CutAt(s, k, space) {
      assert !CutAt(p, k, space);
    }
    FirstCutIsFirst(s, 0, |p|, space);
  }

  lemma SplitSentence(p: string, tail: string, space: CharClass)
    requires White(space) && Sentence(p, space) && Trimmed(tail, space)
    ensures RawSplit(p + " " + tail, space) == [p] + RawSplit(tail, space)
  {
    CutAfterSentence(p, tail, space);
    SlicesOfSentence(p, tail);
    StripLeftNothing(tail, space);
    SplitUnfolds(p + " " + tail, |p|, space);
  }

  lemma SlicesOfSentence(p: string, tail: string)
    ensures var s := p + " " + tail; s[..|p|] == p && s[|p| + 1..] == tail
  {
  }

  lemma JoinUnfolds(pieces: seq<string>)
    requires |pieces| > 1
    ensures Join(pieces, " ") == pieces[0] + " " + Join(pieces[1..], " ")
  {
  }

  /** Splitting the joined sentences gives them back. */
  lemma {:induction false} SplitOfJoined(pieces: seq<string>, space: CharClass)
    requires White(space) && Normal(pieces, space)
    ensures RawSplit(Join(pieces, " "), space) == pieces
    decreases |pieces|
  {
    if |pieces| == 1 {
      FirstCutIsFirst(pieces[0], 0, |pieces[0]|, space);
    } else {
      JoinedIsTrimmed(pieces[1..], space);
      SplitOfJoined(pieces[1..], space);
      JoinUnfolds(pieces);
      SplitSentence(pieces[0], Join(pieces[1..], " "), space);
      assert pieces == [pieces[0]] + pieces[1..];
    }
  }

  lemma StripLeftNothing(s: string, space: CharClass)
    requires Trimmed(s, space)
    ensures StripLeft(s, space) == s
  {
  }

  lemma StripNothing(s: string, space: CharClass)
    requires Trimmed(s, space)
    ensures Strip(s, space) == s
  {
  }

  lemma SplitOfEmpty(space: CharClass)
    ensures RawSplit("", space) == [""] && Strip("", space) == ""
  {
  }

  /**
    The parts join to the same text as the raw split, no part but the last ends in a listed
    abbreviation, and splitting the joined parts again changes nothing.
   */
  lemma PartsAreStable(text: string, space: CharClass, word: CharClass)
    requires White(space)
    ensures var parts := Parts(text, space, word);
      && Join(parts, " ") == Join(RawSplit(Strip(text, space), space), " ")
      && (forall i :: 0 <= i < |parts| - 1 ==> !EndsAbbreviated(parts[i], word))
      && Parts(Join(parts, " "), space, word) == parts
  {
    var s := Strip(text, space);
    var pieces := RawSplit(s, space);
    MergeKeepsText([], pieces, Abbreviated(word));
    OpenPartsAreMerged([], pieces, Abbreviated(word));
    assert forall p :: Abbreviated(word)(p) == EndsAbbreviated(p, word);
    SplitOfEmpty(space);
    if s != "" {
      SplitIsNormal(s, space);
      JoinedIsTrimmed(pieces, space);
      StripNothing(Join(pieces, " "), space);
      SplitOfJoined(pieces, space);
    }
  }

  // ------------------------------------------------------- nothing is rewritten

  lemma InkSpace(c: char, s: string, space: CharClass)
    requires space(c)
    ensures Ink([c] + s, space) == Ink(s, space)
  {
    assert ([c] + s)[1..] == s;
  }

  lemma {:induction false} InkSplit(s: string, space: CharClass)
    requires White(space)
    ensures Ink(Join(RawSplit(s, space), " "), space) == Ink(s, space)
    decreases |s|
  {
    var i := FirstCut(s, 0, space);
    if i < |s| {
      FirstCutIsFirst(s, 0, i, space);
      var rest := StripLeft(s[i + 1..], space);
      var joined := Join(RawSplit(rest, space), " ");
      InkSplit(rest, space);
      InkStripLeft(s[i + 1..], space, space);
      SplitStep(s, i, space);
      InkAppend(s[..i], " " + joined, space);
      InkSpace(' ', joined, space);
      Slices(s, i);
      InkAppend(s[..i], [s[i]] + s[i + 1..], space);
      InkSpace(s[i], s[i + 1..], space);
    }
  }

  lemma Slices(s: string, i: nat)
    requires i < |s|
    ensures s == s[..i] + ([s[i]] + s[i + 1..])
  {
  }

  /** Apart from white space the parts hold the text, character by character. */
  lemma NothingRewritten(text: string, space: CharClass, word: CharClass)
    requires White(space)
    ensures Ink(Join(Parts(text, space, word), " "), space) == Ink(text, space)
  {
    MergeKeepsText([], RawSplit(Strip(text, space), space), Abbreviated(word));
    InkSplit(Strip(text, space), space);
    InkStrip(text, space, space);
  }

  /** Sentences are separated by exactly one blank. */
  ghost predicate SingleSpaced(s: string, space: CharClass) {
    forall i :: CutAt(s, i, space) ==> s[i] == ' ' && (i + 1 < |s| ==> !space(s[i + 1]))
  }

  lemma {:induction false} JoinedNotLonger(s: string, space: CharClass)
    ensures |Join(RawSplit(s, space), " ")| <= |s|
    decreases |s|
  {
    var i := FirstCut(s, 0, space);
    if i < |s| {
      var rest := StripLeft(s[i + 1..], space);
      JoinedNotLonger(rest, space);
      SplitStep(s, i, space);
    }
  }

  lemma SameAround(a: string, b: string, c: string)
    ensures a + b == a + c <==> b == c
  {
    assert (a + b)[|a|..] == b && (a + c)[|a|..] == c;
  }

  lemma CutsAfter(s: string, i: nat, space: CharClass)
    requires White(space) && i == FirstCut(s, 0, space) && i < |s| - 1 && s[i] == ' ' && !space(s[i + 1])
    ensures SingleSpaced(s, space) <==> SingleSpaced(s[i + 1..], space)
  {
    FirstCutIsFirst(s, 0, i, space);
    var after := s[i + 1..];
    forall k ensures CutAt(after, k, space) <==> k > 0 && CutAt(s, k + i + 1, space) {
    }
    if SingleSpaced(after, space) {
      forall k | CutAt(s, k, space) ensures s[k] == ' ' && (k + 1 < |s| ==> !space(s[k + 1])) {
        if k > i + 1 {
          assert CutAt(after, k - i - 1, space);
        }
      }
    }
    if SingleSpaced(s, space) {
      forall k | CutAt(after, k, space) ensures after[k] == ' ' && (k + 1 < |after| ==> !space(after[k + 1])) {
        assert CutAt(s, k + i + 1, space);
      }
    }
  }

  /** Joining the split gives the very text exactly when its sentences are single-spaced. */
  lemma {:induction false} JoinedSplitIsText(s: string, space: CharClass)
    requires White(space) && Trimmed(s, space)
    ensures Join(RawSplit(s, space), " ") == s <==> SingleSpaced(s, space)
    decreases |s|
  {
    var i := FirstCut(s, 0, space);
    if i == |s| {
      FirstCutIsFirst(s, 0, i, space);
    } else {
      var after := s[i + 1..];
      var rest := StripLeft(after, space);
      var joined := Join(RawSplit(rest, space), " ");
      CutIsBeforeEnd(s, i, space);
      RestTrimmed(s, i, space);
      JoinedSplitIsText(rest, space);
      JoinedNotLonger(rest, space);
      SplitStep(s, i, space);
      Slices(s, i);
      SameAround(s[..i], " " + joined, [s[i]] + after);
      OneBlank(s[i], after, joined, space);
      if s[i] == ' ' && !space(after[0]) {
        CutsAfter(s, i, space);
      }
    }
  }

  /** A text of at most the stripped length after one blank equals the white space and what follows it only for one blank. */
  lemma OneBlank(c: char, after: string, joined: string, space: CharClass)
    requires after != "" && |joined| <= |StripLeft(after, space)|
    ensures " " + joined == [c] + after <==> c == ' ' && !space(after[0]) && joined == after && StripLeft(after, space) == after
  {
    var left, right := " " + joined, [c] + after;
    assert left[0] == ' ' && right[0] == c && left[1..] == joined && right[1..] == after;
  }

  /** On a stripped text with single-spaced sentences the parts join to the text itself. */
  lemma PartsJoinToText(text: string, space: CharClass, word: CharClass)
    requires White(space)
    ensures Join(Parts(text, space, word), " ") == Strip(text, space) <==> SingleSpaced(Strip(text, space), space)
  {
    MergeKeepsText([], RawSplit(Strip(text, space), space), Abbreviated(word));
    JoinedSplitIsText(Strip(text, space), space);
  }
}

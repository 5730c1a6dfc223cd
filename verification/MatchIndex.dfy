/**
  Match indexes of the token-aware output benchmark: files with their line numbers, collected
  from conventional and from structured search output and compared after normalisation.
 */
module MatchIndex {
  import opened Json
  import opened StableText

  datatype Match = Match(file: string, line: int)

  /** A `Map<string, number[]>` in insertion order. */
  datatype Item = Item(file: string, lines: seq<int>)

  type Index = seq<Item>

  function Find(index: Index, file: string): (i: nat)
    ensures i <= |index|
    ensures i < |index| ==> index[i].file == file
    ensures forall j :: 0 <= j < i ==> index[j].file != file
  {
    if index == [] || index[0].file == file then 0 else 1 + Find(index[1..], file)
  }

  /** The line is filed under the file. */
  ghost predicate Has(index: Index, m: Match) {
    exists i :: 0 <= i < |index| && index[i].file == m.file && m.line in index[i].lines
  }

  ghost predicate Distinct(lines: seq<int>) {
    forall i, j :: 0 <= i < j < |lines| ==> lines[i] != lines[j]
  }

  /** Files occur once, with at least one line, and no line twice. */
  ghost predicate Valid(index: Index) {
    && (forall i, j :: 0 <= i < j < |index| ==> index[i].file != index[j].file)
    && forall i :: 0 <= i < |index| ==> index[i].lines != [] && Distinct(index[i].lines)
  }

  class IndexBuilder {
    var index: Index

    constructor ()
      ensures index == [] && Valid(index)
    {
      index := [];
    }

    /** `addIndexLine`: files the line, once. */
    method AddIndexLine(file: string, line: int)
      requires Valid(index)
      modifies this
      ensures Valid(index) && index == Filed(old(index), Find(old(index), file), Match(file, line))
      ensures forall m :: Has(index, m) <==> Has(old(index), m) || m == Match(file, line)
    {
      var i := Find(index, file);
      var lines := if i < |index| then index[i].lines else [];
      if line !in lines {
        lines := lines + [line];
      }
      ghost var m := Match(file, line);
      FiledValid(index, m);
      forall n { FiledHas(index, m, n); }
      ghost var after := Filed(index, i, m);
      if i < |index| && line in index[i].lines {
        assert index[i] == Item(file, lines);
        assert index[i := Item(file, lines)] == index;
      }
      assert i == |index| ==> lines == [line];
      index := if i < |index| then index[i := Item(file, lines)] else index + [Item(file, lines)];
      assert index == after;
    }
  }

  /** The index with a line added to the item at `i`, or in a new item at the end. */
  ghost function Filed(before: Index, i: nat, m: Match): Index
    requires i <= |before|
  {
    if i == |before| then before + [Item(m.file, [m.line])]
    else if m.line in before[i].lines then before
    else before[i := Item(m.file, before[i].lines + [m.line])]
  }

  lemma FiledValid(before: Index, m: Match)
    requires Valid(before)
    ensures Valid(Filed(before, Find(before, m.file), m))
  {
    var i := Find(before, m.file);
    var after := Filed(before, i, m);
    assert forall k :: 0 <= k < |before| ==> after[k].file == before[k].file;
    if i < |before| && m.line !in before[i].lines {
      assert Distinct(before[i].lines + [m.line]);
    }
  }

  lemma FiledHas(before: Index, added: Match, m: Match)
    ensures Has(Filed(before, Find(before, added.file), added), m) <==> Has(before, m) || m == added
  {
    var i := Find(before, added.file);
    var after := Filed(before, i, added);
    assert after[i].file == added.file && added.line in after[i].lines;
    if Has(before, m) {
      var k :| 0 <= k < |before| && before[k].file == m.file && m.line in before[k].lines;
      assert after[k].file == m.file && m.line in after[k].lines;
    }
    if Has(after, m) {
      var k :| 0 <= k < |after| && after[k].file == m.file && m.line in after[k].lines;
      assert k == i || after[k] == before[k];
    }
  }

  /** The index of a sequence of matches, each filed in turn. */
  ghost function Indexed(matches: seq<Match>): Index {
    if matches == [] then []
    else
      var before, last := Indexed(matches[..|matches| - 1]), matches[|matches| - 1];
      Filed(before, Find(before, last.file), last)
  }

  lemma {:induction false} IndexedHas(matches: seq<Match>)
    ensures Valid(Indexed(matches))
    ensures forall m :: Has(Indexed(matches), m) <==> m in matches
  {
    if matches != [] {
      var n := |matches| - 1;
      IndexedHas(matches[..n]);
      FiledValid(Indexed(matches[..n]), matches[n]);
      assert matches == matches[..n] + [matches[n]];
      forall m ensures Has(Indexed(matches), m) <==> m in matches {
        FiledHas(Indexed(matches[..n]), matches[n], m);
      }
    }
  }

  /** The file met first is listed first. */
  lemma {:induction false} FirstListed(matches: seq<Match>)
    requires matches != []
    ensures Indexed(matches) != [] && Indexed(matches)[0].file == matches[0].file
  {
    var n := |matches| - 1;
    if n > 0 {
      FirstListed(matches[..n]);
    }
  }

  /** Either index: every match of the sequence filed, in order. */
  method BuildIndex(matches: seq<Match>) returns (index: Index)
    ensures index == Indexed(matches)
    ensures Valid(index)
    ensures forall m :: Has(index, m) <==> m in matches
  {
    var builder := new IndexBuilder();
    var i := 0;
    while i < |matches|
      invariant i <= |matches| && builder.index == Indexed(matches[..i]) && Valid(builder.index)
    {
      assert matches[..i + 1][..i] == matches[..i];
      builder.AddIndexLine(matches[i].file, matches[i].line);
      i := i + 1;
    }
    assert matches[..i] == matches;
    IndexedHas(matches);
    index := builder.index;
  }

  // ------------------------------------------------------------ normalising

  /** Lines in ascending order: `[...lines].sort((a, b) => a - b)`. */
  function SortLines(lines: seq<int>): seq<int> {
    if lines == [] then [] else InsertLine(lines[0], SortLines(lines[1..]))
  }

  function InsertLine(line: int, sorted: seq<int>): seq<int> {
    if sorted == [] || line <= sorted[0] then [line] + sorted else [sorted[0]] + InsertLine(line, sorted[1..])
  }

  ghost predicate Ascending(lines: seq<int>) {
    forall i, j :: 0 <= i < j < |lines| ==> lines[i] < lines[j]
  }

  lemma {:induction false} InsertedMembers(line: int, sorted: seq<int>, x: int)
    ensures x in InsertLine(line, sorted) <==> x == line || x in sorted
  {
    if sorted != [] {
      assert x in sorted <==> x == sorted[0] || x in sorted[1..];
      InsertedMembers(line, sorted[1..], x);
    }
  }

  lemma {:induction false} InsertedAscending(line: int, sorted: seq<int>)
    requires Ascending(sorted) && line !in sorted
    ensures Ascending(InsertLine(line, sorted))
  {
    if sorted != [] && line > sorted[0] {
      InsertedAscending(line, sorted[1..]);
      var rest := InsertLine(line, sorted[1..]);
      forall i | 0 <= i < |rest| ensures sorted[0] < rest[i] {
        InsertedMembers(line, sorted[1..], rest[i]);
      }
    }
  }

  lemma {:induction false} SortedMembers(lines: seq<int>, x: int)
    ensures x in SortLines(lines) <==> x in lines
  {
    if lines != [] {
      assert x in lines <==> x == lines[0] || x in lines[1..];
      SortedMembers(lines[1..], x);
      InsertedMembers(lines[0], SortLines(lines[1..]), x);
    }
  }

  lemma {:induction false} SortedAscending(lines: seq<int>)
    requires Distinct(lines)
    ensures Ascending(SortLines(lines))
  {
    if lines != [] {
      SortedAscending(lines[1..]);
      SortedMembers(lines[1..], lines[0]);
      InsertedAscending(lines[0], SortLines(lines[1..]));
    }
  }

  function LinesJson(lines: seq<int>): (r: Json)
  {
    Arr(seq(|lines|, i requires 0 <= i < |lines| => Num(lines[i])))
  }

  /** The index as entries: a file and its sorted lines. */
  function Entries(index: Index): (r: seq<Entry>)
    ensures |r| == |index|
  {
    seq(|index|, i requires 0 <= i < |index| => Entry(index[i].file, LinesJson(SortLines(index[i].lines))))
  }

  /** `normalize(value)`: pairs of a file and its sorted lines, sorted by `localeCompare` of the files. */
  function Normalize(index: Index, le: Collation): Json {
    PairsJson(Sort(Entries(index), le))
  }

  function PairsJson(entries: seq<Entry>): Json {
    Arr(seq(|entries|, i requires 0 <= i < |entries| => Arr([Str(entries[i].key), entries[i].value])))
  }

  predicate IndexesEqual(left: Index, right: Index, le: Collation) {
    Stringify(Normalize(left, le)) == Stringify(Normalize(right, le))
  }

  // -------------------------------------------------------- what equality means

  ghost predicate SameMatches(left: Index, right: Index) {
    forall m :: Has(left, m) <==> Has(right, m)
  }

  /** No two different files of the index collate as equal. */
  ghost predicate FilesApart(index: Index, le: Collation) {
    forall i, j :: 0 <= i < j < |index| ==> !Tied(index[i].file, index[j].file, le)
  }

  lemma EqualMeansEntries(left: Index, right: Index, le: Collation)
    ensures IndexesEqual(left, right, le) <==> Sort(Entries(left), le) == Sort(Entries(right), le)
  {
    StringifyInjective(Normalize(left, le), Normalize(right, le));
    var p, q := Sort(Entries(left), le), Sort(Entries(right), le);
    var x, y := Normalize(left, le).items, Normalize(right, le).items;
    assert |x| == |p| && |y| == |q|;
    if x == y {
      forall i | 0 <= i < |p| ensures p[i] == q[i] {
        assert x[i] == Arr([Str(p[i].key), p[i].value]) && y[i] == Arr([Str(q[i].key), q[i].value]);
        assert x[i].items[0] == y[i].items[0] && x[i].items[1] == y[i].items[1];
      }
      assert p == q;
    }
  }

  lemma LinesJsonInjective(a: seq<int>, b: seq<int>)
    requires LinesJson(a) == LinesJson(b)
    ensures a == b
  {
    var x, y := LinesJson(a).items, LinesJson(b).items;
    assert |x| == |a| && |y| == |b|;
    forall i | 0 <= i < |a| ensures a[i] == b[i] {
      assert x[i] == Num(a[i]) && y[i] == Num(b[i]);
    }
  }

  /** A match of an index shows in its sorted entries, and nothing else does. */
  lemma EntriesHave(index: Index, le: Collation, m: Match)
    ensures Has(index, m) <==>
      exists e, lines :: e in Sort(Entries(index), le) && e == Entry(m.file, LinesJson(lines)) && m.line in lines
  {
    var entries := Entries(index);
    if Has(index, m) {
      var i :| 0 <= i < |index| && index[i].file == m.file && m.line in index[i].lines;
      var lines := SortLines(index[i].lines);
      SortedMembers(index[i].lines, m.line);
      assert entries[i] == Entry(m.file, LinesJson(lines)) && entries[i] in Sort(entries, le);
    }
    if e, lines :| e in Sort(entries, le) && e == Entry(m.file, LinesJson(lines)) && m.line in lines {
      var i :| 0 <= i < |entries| && entries[i] == e;
      LinesJsonInjective(lines, SortLines(index[i].lines));
      SortedMembers(index[i].lines, m.line);
    }
  }

  /** Indexes that compare equal hold the same matches, whatever the collation. */
  lemma EqualIndexesSameMatches(left: Index, right: Index, le: Collation)
    requires IndexesEqual(left, right, le)
    ensures SameMatches(left, right)
  {
    EqualMeansEntries(left, right, le);
    forall m ensures Has(left, m) <==> Has(right, m) {
      EntriesHave(left, le, m);
      EntriesHave(right, le, m);
    }
  }

  ghost predicate SameMembers(a: seq<int>, b: seq<int>) {
    forall x :: x in a <==> x in b
  }

  lemma FirstsAlike(a: seq<int>, b: seq<int>)
    requires Ascending(a) && Ascending(b) && SameMembers(a, b) && a != [] && b != []
    ensures a[0] == b[0]
  {
    assert a[0] in b && b[0] in a;
    var i :| 0 <= i < |a| && a[i] == b[0];
    var j :| 0 <= j < |b| && b[j] == a[0];
  }

  lemma RestsAlike(a: seq<int>, b: seq<int>)
    requires Ascending(a) && Ascending(b) && SameMembers(a, b) && a != [] && b != [] && a[0] == b[0]
    ensures SameMembers(a[1..], b[1..])
  {
    forall x | true ensures x in a[1..] <==> x in b[1..] {
      assert x in a <==> x == a[0] || x in a[1..];
      assert x in b <==> x == b[0] || x in b[1..];
    }
  }

  lemma EmptyAlike(a: seq<int>, b: seq<int>)
    requires SameMembers(a, b)
    ensures a == [] <==> b == []
  {
    var x, y := if a == [] then 0 else a[0], if b == [] then 0 else b[0];
    assert (x in a <==> x in b) && (y in a <==> y in b);
  }

  lemma {:induction false} AscendingUnique(a: seq<int>, b: seq<int>)
    requires Ascending(a) && Ascending(b) && SameMembers(a, b)
    ensures a == b
  {
    EmptyAlike(a, b);
    if a != [] {
      FirstsAlike(a, b);
      RestsAlike(a, b);
      AscendingUnique(a[1..], b[1..]);
      assert a == [a[0]] + a[1..] && b == [b[0]] + b[1..];
    }
  }

  lemma ItemLines(index: Index, i: nat, line: int)
    requires Valid(index) && i < |index|
    ensures line in index[i].lines <==> Has(index, Match(index[i].file, line))
  {
  }

  /** Indexes with the same matches list the same entries, in some order. */
  lemma SameMatchesSameEntries(left: Index, right: Index, i: nat)
    requires Valid(left) && Valid(right) && SameMatches(left, right) && i < |left|
    ensures Entries(left)[i] in Entries(right)
  {
    var file, lines := left[i].file, left[i].lines;
    ItemLines(left, i, lines[0]);
    assert Has(right, Match(file, lines[0]));
    var j :| 0 <= j < |right| && right[j].file == file && lines[0] in right[j].lines;
    forall line | true ensures line in SortLines(lines) <==> line in SortLines(right[j].lines) {
      ItemLines(left, i, line);
      ItemLines(right, j, line);
      SortedMembers(lines, line);
      SortedMembers(right[j].lines, line);
    }
    SortedAscending(lines);
    SortedAscending(right[j].lines);
    AscendingUnique(SortLines(lines), SortLines(right[j].lines));
    assert Entries(right)[j] == Entries(left)[i];
  }

  lemma EntriesKeySets(left: Index, right: Index)
    requires Valid(left) && Valid(right) && SameMatches(left, right)
    ensures KeySet(Entries(left)) == KeySet(Entries(right))
  {
    forall k | k in KeySet(Entries(left)) ensures k in KeySet(Entries(right)) {
      var i :| 0 <= i < |left| && Entries(left)[i].key == k;
      SameMatchesSameEntries(left, right, i);
    }
    forall k | k in KeySet(Entries(right)) ensures k in KeySet(Entries(left)) {
      var i :| 0 <= i < |right| && Entries(right)[i].key == k;
      SameMatchesSameEntries(right, left, i);
    }
  }

  lemma SameMatchesSameSort(left: Index, right: Index, le: Collation)
    requires Preorder(le) && Valid(left) && Valid(right) && FilesApart(left, le) && SameMatches(left, right)
    ensures Sort(Entries(left), le) == Sort(Entries(right), le)
  {
    var es, fs := Entries(left), Entries(right);
    EntriesKeySets(left, right);
    SortsAlike(es, fs, le);
    var p, q := Sort(es, le), Sort(fs, le);
    SortDistinct(fs, le);
    forall i | 0 <= i < |p| ensures p[i] == q[i] {
      assert p[i] in es;
      var k := Position(es, p[i]);
      SameMatchesSameEntries(left, right, k);
      assert p[i] in q;
      var j := Position(q, p[i]);
      assert q[j].key == q[i].key;
    }
  }

  /** When no two files tie, the comparison decides equality of the sets of matches. */
  lemma IndexesEqualDecides(left: Index, right: Index, le: Collation)
    requires Preorder(le) && Valid(left) && Valid(right) && FilesApart(left, le)
    ensures IndexesEqual(left, right, le) <==> SameMatches(left, right)
  {
    if IndexesEqual(left, right, le) {
      EqualIndexesSameMatches(left, right, le);
    } else if SameMatches(left, right) {
      SameMatchesSameSort(left, right, le);
      EqualMeansEntries(left, right, le);
    }
  }

  ghost function Reversed(index: Index): (r: Index)
    ensures |r| == |index|
  {
    seq(|index|, i requires 0 <= i < |index| => index[|index| - 1 - i])
  }

  lemma ReversedSame(index: Index)
    requires Valid(index)
    ensures Valid(Reversed(index)) && SameMatches(index, Reversed(index))
  {
    var r, n := Reversed(index), |index|;
    forall m ensures Has(index, m) <==> Has(r, m) {
      if Has(index, m) {
        var i :| 0 <= i < n && index[i].file == m.file && m.line in index[i].lines;
        assert r[n - 1 - i] == index[i];
      }
    }
  }

  /** Two files that tie stay in the order listed: indexes that list them in different orders compare unequal. */
  lemma TiesShow(left: Index, right: Index, i: nat, j: nat, k: nat, l: nat, le: Collation)
    requires Valid(left) && Valid(right) && SameMatches(left, right)
    requires i < j < |left| && k < l < |right| && left[i].file == right[l].file && left[j].file == right[k].file
    requires Tied(left[i].file, left[j].file, le)
    ensures !IndexesEqual(left, right, le)
  {
    var es, fs := Entries(left), Entries(right);
    SameMatchesSameEntries(left, right, i);
    SameMatchesSameEntries(left, right, j);
    assert es[i] == fs[l] && es[j] == fs[k];
    SortKeepsOrder(es, i, j, le);
    SortKeepsOrder(fs, k, l, le);
    SortDistinct(es, le);
    NeverBothBefore(Sort(es, le), es[i], es[j]);
    EqualMeansEntries(left, right, le);
  }

  /** An index with two files that tie differs from its own reversal. */
  lemma TiedFilesCompareUnequal(index: Index, i: nat, j: nat, le: Collation)
    requires Valid(index) && i < j < |index| && Tied(index[i].file, index[j].file, le)
    ensures !IndexesEqual(index, Reversed(index), le)
  {
    ReversedSame(index);
    TiesShow(index, Reversed(index), i, j, |index| - 1 - j, |index| - 1 - i, le);
  }

  /** The exact condition: the comparison sees through order and duplicates just when no two files tie. */
  lemma IndexesEqualExactly(left: Index, le: Collation)
    requires Preorder(le) && Valid(left)
    ensures FilesApart(left, le) <==> forall right :: Valid(right) && SameMatches(left, right) ==> IndexesEqual(left, right, le)
  {
    if FilesApart(left, le) {
      forall right | Valid(right) && SameMatches(left, right) ensures IndexesEqual(left, right, le) {
        IndexesEqualDecides(left, right, le);
      }
    } else {
      var i, j :| 0 <= i < j < |left| && Tied(left[i].file, left[j].file, le);
      ReversedSame(left);
      TiedFilesCompareUnequal(left, i, j, le);
    }
  }

  lemma NeverBothBefore(entries: seq<Entry>, x: Entry, y: Entry)
    requires DistinctKeys(entries)
    ensures !(Before(entries, x, y) && Before(entries, y, x))
  {
  }

  // ------------------------------------------------------- sequences of matches

  ghost predicate SameSet(matches: seq<Match>, others: seq<Match>) {
    forall m :: m in matches <==> m in others
  }

  /** No two different files of the matches collate as equal. */
  ghost predicate MatchFilesApart(matches: seq<Match>, le: Collation) {
    forall m, n :: m in matches && n in matches && m.file != n.file ==> !Tied(m.file, n.file, le)
  }

  lemma FilesApartMeans(matches: seq<Match>, le: Collation)
    ensures FilesApart(Indexed(matches), le) <==> MatchFilesApart(matches, le)
  {
    var index := Indexed(matches);
    IndexedHas(matches);
    if FilesApart(index, le) {
      forall m, n | m in matches && n in matches && m.file != n.file ensures !Tied(m.file, n.file, le) {
        assert Has(index, m) && Has(index, n);
        var i :| 0 <= i < |index| && index[i].file == m.file && m.line in index[i].lines;
        var j :| 0 <= j < |index| && index[j].file == n.file && n.line in index[j].lines;
        assert !Tied(index[if i < j then i else j].file, index[if i < j then j else i].file, le);
      }
    }
    if MatchFilesApart(matches, le) {
      forall i, j | 0 <= i < j < |index| ensures !Tied(index[i].file, index[j].file, le) {
        var m, n := Match(index[i].file, index[i].lines[0]), Match(index[j].file, index[j].lines[0]);
        assert Has(index, m) && Has(index, n);
      }
    }
  }

  /** Matches met in an order that lists two tied files the other way round: one of them is simply met first. */
  lemma MetFirst(matches: seq<Match>, i: nat, j: nat, le: Collation) returns (others: seq<Match>)
    requires i < j < |Indexed(matches)| && Tied(Indexed(matches)[i].file, Indexed(matches)[j].file, le)
    ensures SameSet(matches, others) && !IndexesEqual(Indexed(matches), Indexed(others), le)
  {
    var index := Indexed(matches);
    IndexedHas(matches);
    var first := Match(index[j].file, index[j].lines[0]);
    assert Has(index, first);
    others := [first] + matches;
    var swapped := Indexed(others);
    IndexedHas(others);
    FirstListed(others);
    var m := Match(index[i].file, index[i].lines[0]);
    assert Has(index, m) && m in others && Has(swapped, m);
    var l :| 0 <= l < |swapped| && swapped[l].file == m.file && m.line in swapped[l].lines;
    assert SameMatches(index, swapped);
    TiesShow(index, swapped, i, j, 0, l, le);
  }

  /**
    Comparing the indexes of match sequences sees through order and duplicates, whatever the other
    sequence, exactly when no two files of the matches tie.
   */
  lemma MatchesEqualExactly(matches: seq<Match>, le: Collation)
    requires Preorder(le)
    ensures MatchFilesApart(matches, le) <==>
            forall others :: SameSet(matches, others) ==> IndexesEqual(Indexed(matches), Indexed(others), le)
    ensures MatchFilesApart(matches, le) ==>
            forall others :: IndexesEqual(Indexed(matches), Indexed(others), le) <==> SameSet(matches, others)
  {
    IndexedHas(matches);
    FilesApartMeans(matches, le);
    if MatchFilesApart(matches, le) {
      forall others ensures IndexesEqual(Indexed(matches), Indexed(others), le) <==> SameSet(matches, others) {
        IndexedHas(others);
        IndexesEqualDecides(Indexed(matches), Indexed(others), le);
        SetsAlike(matches, others);
      }
    } else {
      var index := Indexed(matches);
      var i, j :| 0 <= i < j < |index| && Tied(index[i].file, index[j].file, le);
      var others := MetFirst(matches, i, j, le);
    }
  }

  lemma SetsAlike(matches: seq<Match>, others: seq<Match>)
    ensures SameMatches(Indexed(matches), Indexed(others)) <==> SameSet(matches, others)
  {
    IndexedHas(matches);
    IndexedHas(others);
    if SameMatches(Indexed(matches), Indexed(others)) {
      forall m ensures m in matches <==> m in others {
        assert Has(Indexed(matches), m) <==> Has(Indexed(others), m);
      }
    }
  }
}

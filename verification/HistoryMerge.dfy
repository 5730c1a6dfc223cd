/**
  Merging usage histories: rows of several sources united by id, refusing two different rows
  under one id.
 */
module HistoryMerge {
  import opened Text

  /** A record of a history: its `id` field and its JSON text, which determines it (`Json.StringifyInjective`). */
  datatype Row = Row(id: string, text: string)

  /** The keyed arrays of one source file. */
  type Source = map<string, seq<Row>>

  /** Conflict is the thrown `historical_identity_conflict`. */
  datatype Result<+T> = Merged(value: T) | Conflict

  /** `value[key] ?? []`. */
  function RowsOf(source: Source, key: string): seq<Row> {
    if key in source then source[key] else []
  }

  /** The rows of all sources under one key, in the order the loops visit them. */
  ghost function AllRows(sources: seq<Source>, key: string): seq<Row> {
    if sources == [] then []
    else AllRows(sources[..|sources| - 1], key) + RowsOf(sources[|sources| - 1], key)
  }

  /** The rows of sources together are those of the one and then those of the others; a source without the key has none. */
  lemma {:induction false} AllRowsExactly(left: seq<Source>, right: seq<Source>, source: Source, key: string)
    ensures AllRows([source], key) == if key in source then source[key] else []
    ensures AllRows(left + right, key) == AllRows(left, key) + AllRows(right, key)
    decreases |right|
  {
    assert [source][..0] == [];
    if right == [] {
      assert left + right == left;
    } else {
      var before, last := right[..|right| - 1], right[|right| - 1];
      AllRowsExactly(left, before, source, key);
      LastSource(left, right);
      RegroupRows(AllRows(left, key), AllRows(before, key), RowsOf(last, key));
    }
  }

  lemma LastSource(left: seq<Source>, right: seq<Source>)
    requires right != []
    ensures var all := left + right;
      all[..|all| - 1] == left + right[..|right| - 1] && all[|all| - 1] == right[|right| - 1]
  {
  }

  lemma RegroupRows(a: seq<Row>, b: seq<Row>, c: seq<Row>)
    ensures (a + b) + c == a + (b + c)
  {
  }

  /** Rows that share an id are the same row. */
  ghost predicate Agree(rows: seq<Row>) {
    forall r, s :: r in rows && s in rows && r.id == s.id ==> r == s
  }

  ghost predicate HasId(rows: seq<Row>, id: string) {
    exists r :: r in rows && r.id == id
  }

  /** The rows whose id has not occurred before, in order. */
  ghost function Firsts(rows: seq<Row>): seq<Row> {
    if rows == [] then []
    else
      var before, last := Firsts(rows[..|rows| - 1]), rows[|rows| - 1];
      if HasId(before, last.id) then before else before + [last]
  }

  ghost predicate DistinctIds(rows: seq<Row>) {
    forall i, j :: 0 <= i < j < |rows| ==> rows[i].id != rows[j].id
  }

  lemma {:induction false} FirstsAreDistinct(rows: seq<Row>)
    ensures DistinctIds(Firsts(rows))
    ensures forall r :: r in Firsts(rows) ==> r in rows
    ensures forall r :: r in rows ==> HasId(Firsts(rows), r.id)
  {
    if rows != [] {
      var n := |rows| - 1;
      FirstsAreDistinct(rows[..n]);
      var before, last := Firsts(rows[..n]), rows[n];
      assert rows == rows[..n] + [last];
      forall i | 0 <= i < |before| && !HasId(before, last.id) ensures before[i].id != last.id {
        assert before[i] in before;
      }
      forall r | r in rows ensures HasId(Firsts(rows), r.id) {
        if r in rows[..n] {
          var s :| s in before && s.id == r.id;
          assert s in Firsts(rows);
        } else if !HasId(before, last.id) {
          assert last in Firsts(rows);
        }
      }
    }
  }

  /** When rows agree, merging keeps exactly the union of them. */
  lemma FirstsAreUnion(rows: seq<Row>, r: Row)
    requires Agree(rows)
    ensures r in Firsts(rows) <==> r in rows
  {
    FirstsAreDistinct(rows);
    if r in rows {
      var s :| s in Firsts(rows) && s.id == r.id;
      assert s in rows;
    }
  }

  /** Row `k` is the first with its id. */
  ghost predicate FirstAt(rows: seq<Row>, k: nat) {
    k < |rows| && forall j :: 0 <= j < k ==> rows[j].id != rows[k].id
  }

  lemma FirstAtPrefix(rows: seq<Row>, k: nat)
    requires rows != []
    ensures FirstAt(rows[..|rows| - 1], k) <==> k < |rows| - 1 && FirstAt(rows, k)
  {
    assert forall j :: 0 <= j < |rows| - 1 ==> rows[..|rows| - 1][j] == rows[j];
  }

  /** The rows kept are those at the first occurrence of their id, in the order in which they occur. */
  lemma {:induction false} FirstsInOrder(rows: seq<Row>) returns (at: seq<nat>)
    ensures |at| == |Firsts(rows)|
    ensures forall i :: 0 <= i < |at| ==> FirstAt(rows, at[i]) && Firsts(rows)[i] == rows[at[i]]
    ensures forall i, j :: 0 <= i < j < |at| ==> at[i] < at[j]
  {
    if rows == [] {
      at := [];
    } else {
      var n := |rows| - 1;
      at := FirstsInOrder(rows[..n]);
      forall i | 0 <= i < |at| ensures FirstAt(rows, at[i]) && at[i] < n {
        FirstAtPrefix(rows, at[i]);
      }
      if !HasId(Firsts(rows[..n]), rows[n].id) {
        NewIsFirst(rows);
        at := at + [n];
      }
    }
  }

  lemma NewIsFirst(rows: seq<Row>)
    requires rows != [] && !HasId(Firsts(rows[..|rows| - 1]), rows[|rows| - 1].id)
    ensures FirstAt(rows, |rows| - 1)
  {
    var before, last := rows[..|rows| - 1], rows[|rows| - 1];
    FirstsAreDistinct(before);
    forall j | 0 <= j < |before| ensures rows[j].id != last.id {
      assert before[j] in before;
    }
  }

  // ---------------------------------------------------------------- the merge

  /** The map a merge fills: the row stored for each id, and the ids in the order they were first set. */
  datatype Table = Table(held: map<string, Row>, order: seq<string>)

  /** `map.set(row.id, row)`: an id that is set again keeps its place. */
  function Store(table: Table, row: Row): Table {
    Table(table.held[row.id := row], if row.id in table.held then table.order else table.order + [row.id])
  }

  ghost predicate Holds(table: Table, rows: seq<Row>) {
    && |table.order| == |rows|
    && (forall i :: 0 <= i < |rows| ==>
          table.order[i] == rows[i].id && table.order[i] in table.held && table.held[table.order[i]] == rows[i])
    && (forall id :: id in table.held ==> HasId(rows, id))
  }

  lemma HoldsLookup(table: Table, rows: seq<Row>, id: string)
    requires Holds(table, rows)
    ensures id in table.held <==> HasId(rows, id)
    ensures id in table.held ==> table.held[id] in rows && table.held[id].id == id
  {
    if HasId(rows, id) {
      var r :| r in rows && r.id == id;
      var i :| 0 <= i < |rows| && rows[i] == r;
      assert table.order[i] == id;
    }
  }

  lemma FirstsNext(rows: seq<Row>, row: Row)
    ensures Firsts(rows + [row]) == if HasId(Firsts(rows), row.id) then Firsts(rows) else Firsts(rows) + [row]
  {
    assert (rows + [row])[..|rows + [row]| - 1] == rows;
  }

  /** A row agrees with everything before it unless another row holds its id. */
  lemma AgreeNext(rows: seq<Row>, row: Row)
    requires Agree(rows)
    ensures Agree(rows + [row]) <==> forall r :: r in Firsts(rows) && r.id == row.id ==> r == row
  {
    var all := rows + [row];
    assert row in all && forall r :: r in rows ==> r in all;
    FirstsAreDistinct(rows);
    if forall r :: r in Firsts(rows) && r.id == row.id ==> r == row {
      forall r, s | r in all && s in all && r.id == s.id ensures r == s {
        FirstsAreUnion(rows, r);
        FirstsAreUnion(rows, s);
      }
    }
  }

  /** Storing the first row of an id. */
  lemma StoreNew(table: Table, rows: seq<Row>, row: Row)
    requires Holds(table, rows) && !HasId(rows, row.id)
    ensures Holds(Store(table, row), rows + [row])
  {
    HoldsLookup(table, rows, row.id);
    var rows' := rows + [row];
    assert row in rows' && forall r :: r in rows ==> r in rows';
    assert forall i :: 0 <= i < |rows| ==> rows[i] in rows;
  }

  /** In rows with distinct ids, an id has one row. */
  lemma OneRowPerId(rows: seq<Row>, row: Row)
    requires DistinctIds(rows) && row in rows
    ensures forall r :: r in rows && r.id == row.id ==> r == row
  {
    var j :| 0 <= j < |rows| && rows[j] == row;
    assert forall i :: 0 <= i < |rows| && rows[i].id == row.id ==> i == j;
  }

  /** One turn of the loop: the row conflicts exactly when the stored row of its id prints another text. */
  lemma AddOne(table: Table, seen: seq<Row>, row: Row)
    requires Agree(seen) && Holds(table, Firsts(seen))
    ensures Agree(seen + [row]) <==> (row.id in table.held ==> table.held[row.id].text == row.text)
    ensures Agree(seen + [row]) ==> Holds(Store(table, row), Firsts(seen + [row]))
  {
    HoldsLookup(table, Firsts(seen), row.id);
    FirstsAreDistinct(seen);
    AgreeNext(seen, row);
    FirstsNext(seen, row);
    if row.id in table.held {
      OneRowPerId(Firsts(seen), table.held[row.id]);
      StoreAgain(table, row);
    } else {
      StoreNew(table, Firsts(seen), row);
    }
  }

  lemma StoreAgain(table: Table, row: Row)
    requires row.id in table.held
    ensures table.held[row.id] == row ==> Store(table, row) == table
  {
  }

  predicate Clashes(table: Table, row: Row) {
    row.id in table.held && table.held[row.id].text != row.text
  }

  /** The map after visiting rows in order, unless one of them was refused. */
  function Filled(rows: seq<Row>): Option<Table> {
    if rows == [] then Some(Table(map[], []))
    else
      match Filled(rows[..|rows| - 1])
      case None => None
      case Some(table) => if Clashes(table, rows[|rows| - 1]) then None else Some(Store(table, rows[|rows| - 1]))
  }

  /** Nothing is refused exactly when rows that share an id agree; then the map holds the first row of each id. */
  lemma {:induction false} FilledExactly(rows: seq<Row>)
    ensures Filled(rows).Some? <==> Agree(rows)
    ensures Agree(rows) ==> Holds(Filled(rows).value, Firsts(rows))
  {
    if rows != [] {
      var n := |rows| - 1;
      FilledExactly(rows[..n]);
      assert rows == rows[..n] + [rows[n]];
      if Agree(rows[..n]) {
        AddOne(Filled(rows[..n]).value, rows[..n], rows[n]);
      }
    }
  }

  lemma {:induction false} RefusedForGood(rows: seq<Row>, more: seq<Row>)
    requires Filled(rows).None?
    ensures Filled(rows + more).None?
  {
    if more == [] {
      assert rows + more == rows;
    } else {
      RefusedForGood(rows, more[..|more| - 1]);
      assert (rows + more)[..|rows + more| - 1] == rows + more[..|more| - 1];
    }
  }

  /** The inner loop: one source's rows added to the map, refusing a different row under a known id. */
  method AddRows(table: Table, rows: seq<Row>, ghost before: seq<Row>) returns (ok: bool, filled: Table)
    requires Filled(before) == Some(table)
    ensures Filled(before + rows) == if ok then Some(filled) else None
  {
    filled := table;
    assert before + rows[..0] == before;
    var i := 0;
    while i < |rows|
      invariant i <= |rows|
      invariant Filled(before + rows[..i]) == Some(filled)
    {
      ghost var seen := before + rows[..i + 1];
      assert seen[..|seen| - 1] == before + rows[..i];
      if Clashes(filled, rows[i]) {
        assert before + rows == seen + rows[i + 1..];
        RefusedForGood(seen, rows[i + 1..]);
        return false, filled;
      }
      filled := Store(filled, rows[i]);
      i := i + 1;
    }
    assert rows[..i] == rows;
    ok := true;
  }

  /** One key of `merge`: it succeeds exactly when rows that share an id agree, and keeps the first of each. */
  method MergeKey(sources: seq<Source>, key: string) returns (result: Result<seq<Row>>)
    ensures result.Merged? <==> Agree(AllRows(sources, key))
    ensures result.Merged? ==> result.value == Firsts(AllRows(sources, key))
  {
    var table := Table(map[], []);
    var i := 0;
    while i < |sources|
      invariant i <= |sources|
      invariant Filled(AllRows(sources[..i], key)) == Some(table)
    {
      AllRowsNext(sources, i, key);
      var ok;
      ok, table := AddRows(table, RowsOf(sources[i], key), AllRows(sources[..i], key));
      if !ok {
        ghost var more := AllRowsGrow(sources, i + 1, key);
        RefusedForGood(AllRows(sources[..i + 1], key), more);
        FilledExactly(AllRows(sources, key));
        return Conflict;
      }
      i := i + 1;
    }
    assert sources[..i] == sources;
    FilledExactly(AllRows(sources, key));
    var rows := ValuesInOrder(table);
    result := Merged(rows);
  }

  /** `[...map.values()]`. */
  method ValuesInOrder(table: Table) returns (values: seq<Row>)
    requires forall id :: id in table.order ==> id in table.held
    ensures |values| == |table.order|
    ensures forall i :: 0 <= i < |values| ==> values[i] == table.held[table.order[i]]
  {
    values := [];
    for i := 0 to |table.order|
      invariant |values| == i
      invariant forall j :: 0 <= j < i ==> values[j] == table.held[table.order[j]]
    {
      assert table.order[i] in table.order;
      values := values + [table.held[table.order[i]]];
    }
  }

  lemma AllRowsNext(sources: seq<Source>, i: nat, key: string)
    requires i < |sources|
    ensures AllRows(sources[..i + 1], key) == AllRows(sources[..i], key) + RowsOf(sources[i], key)
  {
    assert sources[..i + 1][..i] == sources[..i];
  }

  lemma {:induction false} AllRowsGrow(sources: seq<Source>, i: nat, key: string) returns (more: seq<Row>)
    requires i <= |sources|
    ensures AllRows(sources, key) == AllRows(sources[..i], key) + more
  {
    if i == |sources| {
      assert sources[..i] == sources;
      more := [];
    } else {
      var n := |sources| - 1;
      more := AllRowsGrow(sources[..n], i, key);
      assert sources[..n][..i] == sources[..i];
      more := more + RowsOf(sources[n], key);
    }
  }

  /** `merge(file, keys)`: the first source with every listed key replaced by the merged rows. */
  method Merge(sources: seq<Source>, keys: seq<string>) returns (result: Result<Source>)
    requires sources != []
    ensures result.Merged? <==> forall key :: key in keys ==> Agree(AllRows(sources, key))
    ensures result.Merged? ==> result.value.Keys == sources[0].Keys + set key | key in keys
    ensures result.Merged? ==> forall key :: key in result.value ==>
      result.value[key] == if key in keys then Firsts(AllRows(sources, key)) else sources[0][key]
  {
    var merged := sources[0];
    var i := 0;
    while i < |keys|
      invariant i <= |keys|
      invariant forall key :: key in keys[..i] ==> Agree(AllRows(sources, key))
      invariant merged.Keys == sources[0].Keys + set key | key in keys[..i]
      invariant forall key :: key in merged ==>
        merged[key] == if key in keys[..i] then Firsts(AllRows(sources, key)) else sources[0][key]
    {
      assert keys[..i + 1] == keys[..i] + [keys[i]];
      var rows := MergeKey(sources, keys[i]);
      if rows.Conflict? {
        assert keys[i] in keys;
        return Conflict;
      }
      merged := merged[keys[i] := rows.value];
      i := i + 1;
    }
    assert keys[..i] == keys;
    result := Merged(merged);
  }

  // -------------------------------------------------- order and grouping

  ghost predicate SameRows(a: seq<Row>, b: seq<Row>) {
    forall r :: r in a <==> r in b
  }

  lemma {:induction false} DistinctPermutation(a: seq<Row>, b: seq<Row>)
    requires DistinctIds(a) && DistinctIds(b) && SameRows(a, b)
    ensures multiset(a) == multiset(b)
  {
    forall r ensures multiset(a)[r] == multiset(b)[r] {
      CountDistinct(a, r);
      CountDistinct(b, r);
    }
  }

  lemma {:induction false} CountDistinct(rows: seq<Row>, r: Row)
    requires DistinctIds(rows)
    ensures multiset(rows)[r] == if r in rows then 1 else 0
  {
    if rows != [] {
      assert rows == [rows[0]] + rows[1..];
      CountDistinct(rows[1..], r);
      assert r in rows[1..] ==> exists i :: 0 <= i < |rows| - 1 && rows[1..][i] == r;
    }
  }

  /** The order and the grouping of the sources do not matter: same success, same rows up to a permutation. */
  lemma MergeOrderFree(rows: seq<Row>, rows': seq<Row>)
    requires SameRows(rows, rows')
    ensures Agree(rows) <==> Agree(rows')
    ensures Agree(rows) ==> multiset(Firsts(rows)) == multiset(Firsts(rows'))
  {
    if Agree(rows) {
      forall r ensures r in Firsts(rows) <==> r in Firsts(rows') {
        FirstsAreUnion(rows, r);
        FirstsAreUnion(rows', r);
      }
      FirstsAreDistinct(rows);
      FirstsAreDistinct(rows');
      DistinctPermutation(Firsts(rows), Firsts(rows'));
    }
  }

  /** Rearranging the sources visits the same rows. */
  lemma SourcesSameRows(sources: seq<Source>, sources': seq<Source>, key: string)
    requires forall s :: s in sources <==> s in sources'
    ensures SameRows(AllRows(sources, key), AllRows(sources', key))
  {
    forall r ensures r in AllRows(sources, key) <==> r in AllRows(sources', key) {
      RowOrigin(sources, key, r);
      RowOrigin(sources', key, r);
    }
  }

  lemma {:induction false} RowOrigin(sources: seq<Source>, key: string, r: Row)
    ensures r in AllRows(sources, key) <==> exists s :: s in sources && r in RowsOf(s, key)
  {
    if sources != [] {
      var n := |sources| - 1;
      RowOrigin(sources[..n], key, r);
      assert sources == sources[..n] + [sources[n]];
      if s :| s in sources && r in RowsOf(s, key) {
        assert s in sources[..n] || s == sources[n];
      }
      if s :| s in sources[..n] && r in RowsOf(s, key) {
        assert s in sources;
      }
    }
  }

  lemma DistinctPrefix(rows: seq<Row>)
    requires DistinctIds(rows) && rows != []
    ensures DistinctIds(rows[..|rows| - 1]) && !HasId(rows[..|rows| - 1], rows[|rows| - 1].id)
  {
    assert forall j :: 0 <= j < |rows| - 1 ==> rows[..|rows| - 1][j] == rows[j];
  }

  lemma FirstsGrow(rows: seq<Row>, row: Row)
    requires Firsts(rows) == rows && !HasId(rows, row.id)
    ensures Firsts(rows + [row]) == rows + [row]
  {
    FirstsNext(rows, row);
  }

  lemma {:induction false} FirstsOfDistinct(rows: seq<Row>)
    requires DistinctIds(rows)
    ensures Firsts(rows) == rows
  {
    if rows != [] {
      var before, last := rows[..|rows| - 1], rows[|rows| - 1];
      DistinctPrefix(rows);
      FirstsOfDistinct(before);
      FirstsGrow(before, last);
      assert before + [last] == rows;
    }
  }

  /** Merging some of the sources first and the rest into their result is merging them all, row for row. */
  lemma {:induction false} MergeInGroups(rows: seq<Row>, more: seq<Row>)
    ensures Firsts(Firsts(rows) + more) == Firsts(rows + more)
    ensures Agree(rows + more) <==> Agree(rows) && Agree(Firsts(rows) + more)
  {
    GroupedFirsts(rows, more);
    DisagreeGrows(rows, more);
    if Agree(rows) {
      forall r ensures r in Firsts(rows) + more <==> r in rows + more {
        FirstsAreUnion(rows, r);
      }
    }
  }

  lemma DisagreeGrows(rows: seq<Row>, more: seq<Row>)
    ensures Agree(rows + more) ==> Agree(rows)
  {
    assert forall r :: r in rows ==> r in rows + more;
  }

  lemma LastApart(rows: seq<Row>, more: seq<Row>)
    requires more != []
    ensures rows + more == (rows + more[..|more| - 1]) + [more[|more| - 1]]
  {
  }

  lemma {:induction false} GroupedFirsts(rows: seq<Row>, more: seq<Row>)
    ensures Firsts(Firsts(rows) + more) == Firsts(rows + more)
  {
    if more == [] {
      FirstsAreDistinct(rows);
      FirstsOfDistinct(Firsts(rows));
      assert rows + more == rows && Firsts(rows) + more == Firsts(rows);
    } else {
      var before, last := more[..|more| - 1], more[|more| - 1];
      GroupedFirsts(rows, before);
      FirstsNext(rows + before, last);
      FirstsNext(Firsts(rows) + before, last);
      LastApart(rows, more);
      LastApart(Firsts(rows), more);
    }
  }

  lemma {:induction false} FirstsAbsorb(rows: seq<Row>, more: seq<Row>)
    requires forall r :: r in more ==> HasId(Firsts(rows), r.id)
    ensures Firsts(rows + more) == Firsts(rows)
  {
    if more == [] {
      assert rows + more == rows;
    } else {
      var n := |more| - 1;
      assert forall r :: r in more[..n] ==> r in more;
      FirstsAbsorb(rows, more[..n]);
      assert rows + more == (rows + more[..n]) + [more[n]];
      FirstsNext(rows + more[..n], more[n]);
      assert more[n] in more;
    }
  }

  /** Merging the result again with any of its sources adds nothing. */
  lemma RemergeAddsNothing(rows: seq<Row>, source: seq<Row>)
    requires Agree(rows) && forall r :: r in source ==> r in rows
    ensures Agree(Firsts(rows) + source) && Firsts(Firsts(rows) + source) == Firsts(rows)
  {
    FirstsAreDistinct(rows);
    FirstsOfDistinct(Firsts(rows));
    forall r | r in source ensures HasId(Firsts(Firsts(rows)), r.id) {
      assert r in rows;
    }
    FirstsAbsorb(Firsts(rows), source);
    forall r | r in Firsts(rows) + source ensures r in rows {
    }
  }
}

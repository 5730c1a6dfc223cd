/**
  Fact flattening: `leaves` turns nested facts into a list of dotted paths and values.
 */
module Facts {
  import opened Text
  import opened Json
  import opened StableText

  datatype Leaf = Leaf(path: string, value: Json)

  function Extend(prefix: string, key: string): string {
    if prefix != "" then prefix + "." + key else key
  }

  /** `leaves(value, prefix)`: arrays and scalars are leaves, empty objects vanish. */
  function Leaves(v: Json, prefix: string): seq<Leaf>
    decreases v, 1
  {
    if !v.Obj? then [Leaf(prefix, v)] else LeavesOf(v.entries, prefix)
  }

  function LeavesOf(entries: seq<Entry>, prefix: string): seq<Leaf>
    decreases entries, 0
  {
    if entries == [] then []
    else Leaves(entries[0].value, Extend(prefix, entries[0].key)) + LeavesOf(entries[1..], prefix)
  }

  // ------------------------------------------------------- what the leaves are

  /** The keys lead from `v` through objects to `value`, which is none. */
  ghost predicate Leads(v: Json, keys: seq<string>, value: Json)
    decreases |keys|
  {
    if keys == [] then v == value && !v.Obj?
    else v.Obj? && exists i :: 0 <= i < |v.entries| && v.entries[i].key == keys[0] && Leads(v.entries[i].value, keys[1..], value)
  }

  /** The path of a list of keys: they are joined by dots, and empty keys at the front leave no trace. */
  ghost function PathOf(keys: seq<string>): string {
    if keys != [] && keys[0] == "" then PathOf(keys[1..]) else Join(keys, ".")
  }

  /** The path below `prefix`. */
  ghost function Below(prefix: string, keys: seq<string>): string
    decreases |keys|
  {
    if keys == [] then prefix else Below(Extend(prefix, keys[0]), keys[1..])
  }

  lemma {:induction false} BelowJoins(prefix: string, keys: seq<string>)
    requires prefix != ""
    ensures Below(prefix, keys) == Join([prefix] + keys, ".")
    decreases |keys|
  {
    if keys == [] {
      assert [prefix] + keys == [prefix];
    } else {
      BelowJoins(Extend(prefix, keys[0]), keys[1..]);
      var all := [prefix] + keys;
      assert all[1..] == keys;
      assert ([Extend(prefix, keys[0])] + keys[1..])[1..] == keys[1..];
      assert |keys| > 1 ==> prefix + "." + (keys[0] + "." + Join(keys[1..], ".")) == prefix + "." + keys[0] + "." + Join(keys[1..], ".");
    }
  }

  lemma {:induction false} BelowTop(keys: seq<string>)
    ensures Below("", keys) == PathOf(keys)
    decreases |keys|
  {
    if keys != [] {
      if keys[0] == "" {
        BelowTop(keys[1..]);
      } else {
        BelowJoins(keys[0], keys[1..]);
        assert [keys[0]] + keys[1..] == keys;
      }
    }
  }

  ghost predicate LedTo(v: Json, prefix: string, leaf: Leaf) {
    exists keys :: Leads(v, keys, leaf.value) && leaf.path == Below(prefix, keys)
  }

  ghost predicate EntryLeads(entries: seq<Entry>, prefix: string, leaf: Leaf) {
    exists i :: 0 <= i < |entries| && LedTo(entries[i].value, Extend(prefix, entries[i].key), leaf)
  }

  lemma ObjectLeads(entries: seq<Entry>, prefix: string, leaf: Leaf)
    ensures LedTo(Obj(entries), prefix, leaf) <==> EntryLeads(entries, prefix, leaf)
  {
    if LedTo(Obj(entries), prefix, leaf) {
      var keys :| Leads(Obj(entries), keys, leaf.value) && leaf.path == Below(prefix, keys);
      var i :| 0 <= i < |entries| && entries[i].key == keys[0] && Leads(entries[i].value, keys[1..], leaf.value);
      assert LedTo(entries[i].value, Extend(prefix, entries[i].key), leaf);
    }
    if EntryLeads(entries, prefix, leaf) {
      var i :| 0 <= i < |entries| && LedTo(entries[i].value, Extend(prefix, entries[i].key), leaf);
      var rest :| Leads(entries[i].value, rest, leaf.value) && leaf.path == Below(Extend(prefix, entries[i].key), rest);
      var keys := [entries[i].key] + rest;
      assert keys[1..] == rest;
      assert Leads(Obj(entries), keys, leaf.value);
    }
  }

  lemma ScalarLeads(v: Json, prefix: string, leaf: Leaf)
    requires !v.Obj?
    ensures LedTo(v, prefix, leaf) <==> leaf == Leaf(prefix, v)
  {
    assert Leads(v, [], v) && Below(prefix, []) == prefix;
  }

  lemma {:induction false} LeavesLead(v: Json, prefix: string, leaf: Leaf)
    ensures leaf in Leaves(v, prefix) <==> LedTo(v, prefix, leaf)
    decreases v, 1
  {
    if v.Obj? {
      LeavesOfLead(v.entries, prefix, leaf);
      ObjectLeads(v.entries, prefix, leaf);
    } else {
      ScalarLeads(v, prefix, leaf);
    }
  }

  lemma {:induction false} LeavesOfLead(entries: seq<Entry>, prefix: string, leaf: Leaf)
    ensures leaf in LeavesOf(entries, prefix) <==> EntryLeads(entries, prefix, leaf)
    decreases entries, 0
  {
    if entries != [] {
      LeavesLead(entries[0].value, Extend(prefix, entries[0].key), leaf);
      LeavesOfLead(entries[1..], prefix, leaf);
      assert entries == [entries[0]] + entries[1..];
    }
  }

  /** The leaves are the values that are no objects, wherever keys lead to them, each under the path of its keys. */
  lemma LeavesExactly(v: Json, path: string, value: Json)
    ensures Leaf(path, value) in Leaves(v, "") <==> exists keys :: Leads(v, keys, value) && path == PathOf(keys)
  {
    var leaf := Leaf(path, value);
    LeavesLead(v, "", leaf);
    if keys :| Leads(v, keys, value) && path == PathOf(keys) {
      BelowTop(keys);
      assert Leads(v, keys, leaf.value) && leaf.path == Below("", keys);
    }
    if LedTo(v, "", leaf) {
      var keys :| Leads(v, keys, leaf.value) && leaf.path == Below("", keys);
      BelowTop(keys);
    }
  }

  predicate PlainKey(key: string) {
    key != "" && '.' !in key
  }

  /** Every key `leaves` passes through is non-empty and free of dots. */
  ghost predicate PlainKeys(v: Json) {
    v.Obj? ==> forall i :: 0 <= i < |v.entries| ==> PlainKey(v.entries[i].key) && PlainKeys(v.entries[i].value)
  }

  ghost predicate DistinctPaths(leaves: seq<Leaf>) {
    forall i, j :: 0 <= i < j < |leaves| ==> leaves[i].path != leaves[j].path
  }

  // ----------------------------------------------- paths as lists of segments

  /** A leaf with its path kept as the list of keys that leads to it. */
  datatype Trail = Trail(keys: seq<string>, value: Json)

  ghost function Trails(v: Json): seq<Trail>
    decreases v, 1
  {
    if !v.Obj? then [Trail([], v)] else TrailsOf(v.entries)
  }

  ghost function TrailsOf(entries: seq<Entry>): seq<Trail>
    decreases entries, 0
  {
    if entries == [] then [] else Under(entries[0].key, Trails(entries[0].value)) + TrailsOf(entries[1..])
  }

  ghost function Under(key: string, trails: seq<Trail>): (r: seq<Trail>)
    ensures |r| == |trails|
  {
    seq(|trails|, i requires 0 <= i < |trails| => Trail([key] + trails[i].keys, trails[i].value))
  }

  /** The leaf a trail becomes below the keys `above`. */
  ghost function Dotted(above: seq<string>, trails: seq<Trail>): (r: seq<Leaf>)
    ensures |r| == |trails|
  {
    seq(|trails|, i requires 0 <= i < |trails| => Leaf(Join(above + trails[i].keys, "."), trails[i].value))
  }

  ghost predicate Plain(keys: seq<string>) {
    forall i :: 0 <= i < |keys| ==> PlainKey(keys[i])
  }

  lemma ExtendJoins(above: seq<string>, key: string)
    requires Plain(above)
    ensures Extend(Join(above, "."), key) == Join(above + [key], ".")
  {
    if above == [] {
      assert above + [key] == [key];
    } else {
      assert PlainKey(above[0]);
      JoinAppend(above, [key], ".");
    }
  }

  lemma DottedUnder(above: seq<string>, key: string, trails: seq<Trail>)
    ensures Dotted(above + [key], trails) == Dotted(above, Under(key, trails))
  {
    forall i | 0 <= i < |trails| ensures (above + [key]) + trails[i].keys == above + ([key] + trails[i].keys) {
    }
  }

  lemma DottedAppend(above: seq<string>, left: seq<Trail>, right: seq<Trail>)
    ensures Dotted(above, left + right) == Dotted(above, left) + Dotted(above, right)
  {
  }

  lemma {:induction false} LeavesAreTrails(v: Json, above: seq<string>)
    requires PlainKeys(v) && Plain(above)
    ensures Leaves(v, Join(above, ".")) == Dotted(above, Trails(v))
    decreases v, 1
  {
    if v.Obj? {
      LeavesOfAreTrails(v.entries, above);
    } else {
      assert above + [] == above;
    }
  }

  lemma {:induction false} LeavesOfAreTrails(entries: seq<Entry>, above: seq<string>)
    requires Plain(above)
    requires forall i :: 0 <= i < |entries| ==> PlainKey(entries[i].key) && PlainKeys(entries[i].value)
    ensures LeavesOf(entries, Join(above, ".")) == Dotted(above, TrailsOf(entries))
    decreases entries, 0
  {
    if entries != [] {
      var key, inner := entries[0].key, Trails(entries[0].value);
      ExtendJoins(above, key);
      LeavesAreTrails(entries[0].value, above + [key]);
      LeavesOfAreTrails(entries[1..], above);
      DottedUnder(above, key, inner);
      DottedAppend(above, Under(key, inner), TrailsOf(entries[1..]));
    }
  }

  lemma {:induction false} TrailsPlain(v: Json)
    requires PlainKeys(v)
    ensures forall i :: 0 <= i < |Trails(v)| ==> Plain(Trails(v)[i].keys) && (v.Obj? ==> Trails(v)[i].keys != [])
    decreases v, 1
  {
    if v.Obj? {
      TrailsOfPlain(v.entries);
    }
  }

  lemma {:induction false} TrailsOfPlain(entries: seq<Entry>)
    requires forall i :: 0 <= i < |entries| ==> PlainKey(entries[i].key) && PlainKeys(entries[i].value)
    ensures forall t :: t in TrailsOf(entries) ==>
      Plain(t.keys) && t.keys != [] && exists i :: 0 <= i < |entries| && entries[i].key == t.keys[0]
    decreases entries, 0
  {
    if entries != [] {
      TrailsPlain(entries[0].value);
      TrailsOfPlain(entries[1..]);
      forall t | t in TrailsOf(entries)
        ensures Plain(t.keys) && t.keys != [] && exists i :: 0 <= i < |entries| && entries[i].key == t.keys[0]
      {
        if t in TrailsOf(entries[1..]) {
          var i :| 0 <= i < |entries[1..]| && entries[1..][i].key == t.keys[0];
          assert entries[i + 1].key == t.keys[0];
        } else {
          assert t in Under(entries[0].key, Trails(entries[0].value));
        }
      }
    }
  }

  // -------------------------------------------------------- distinct paths

  ghost predicate DistinctTrails(trails: seq<Trail>) {
    forall i, j :: 0 <= i < j < |trails| ==> trails[i].keys != trails[j].keys
  }

  lemma {:induction false} TrailsDistinct(v: Json)
    requires WellFormed(v) && PlainKeys(v)
    ensures DistinctTrails(Trails(v))
    decreases v, 1
  {
    if v.Obj? {
      TrailsOfDistinct(v.entries);
    }
  }

  lemma {:induction false} TrailsOfDistinct(entries: seq<Entry>)
    requires DistinctKeys(entries)
    requires forall i :: 0 <= i < |entries| ==>
      WellFormed(entries[i].value) && PlainKey(entries[i].key) && PlainKeys(entries[i].value)
    ensures DistinctTrails(TrailsOf(entries))
    decreases entries, 0
  {
    if entries != [] {
      var inner, rest := Trails(entries[0].value), TrailsOf(entries[1..]);
      var first := Under(entries[0].key, inner);
      TrailsDistinct(entries[0].value);
      TrailsOfDistinct(entries[1..]);
      TrailsOfPlain(entries[1..]);
      forall i, j | 0 <= i < j < |first| ensures first[i].keys != first[j].keys {
        assert inner[i].keys == first[i].keys[1..] && inner[j].keys == first[j].keys[1..];
      }
      forall i, j | 0 <= i < |first| && 0 <= j < |rest| ensures first[i].keys != rest[j].keys {
        assert rest[j] in rest;
        var k :| 0 <= k < |entries[1..]| && entries[1..][k].key == rest[j].keys[0];
        assert first[i].keys[0] == entries[0].key != entries[k + 1].key;
      }
    }
  }

  lemma JoinDotsInjective(a: seq<string>, b: seq<string>)
    requires Plain(a) && Plain(b) && a != [] && b != []
    requires Join(a, ".") == Join(b, ".")
    ensures a == b
  {
    SplitOfJoin(a, '.');
    SplitOfJoin(b, '.');
  }

  /** Flattening an object with plain keys never gives one path twice. */
  lemma LeavesDistinct(v: Json)
    requires WellFormed(v) && PlainKeys(v) && v.Obj?
    ensures DistinctPaths(Leaves(v, ""))
  {
    var trails, leaves := Trails(v), Leaves(v, "");
    LeavesAreTrails(v, []);
    TrailsDistinct(v);
    TrailsPlain(v);
    forall i, j | 0 <= i < j < |leaves| ensures leaves[i].path != leaves[j].path {
      assert [] + trails[i].keys == trails[i].keys && [] + trails[j].keys == trails[j].keys;
      if leaves[i].path == leaves[j].path {
        JoinDotsInjective(trails[i].keys, trails[j].keys);
      }
    }
  }

  // ------------------------------------------------------------ unflattening

  /** Stores a value below `entries` at the given keys, opening objects on the way. */
  function Put(entries: seq<Entry>, keys: seq<string>, value: Json): seq<Entry>
    decreases |keys|, |entries|
  {
    if keys == [] then entries
    else if entries == [] then
      [Entry(keys[0], if |keys| == 1 then value else Obj(Put([], keys[1..], value)))]
    else if entries[0].key == keys[0] then
      var inner := if entries[0].value.Obj? then entries[0].value.entries else [];
      [Entry(keys[0], if |keys| == 1 then value else Obj(Put(inner, keys[1..], value)))] + entries[1..]
    else
      [entries[0]] + Put(entries[1..], keys, value)
  }

  /** Rebuilds an object from a list of leaves, splitting each path at its dots. */
  function Unflatten(leaves: seq<Leaf>): Json {
    Obj(PutLeaves([], leaves))
  }

  function PutLeaves(entries: seq<Entry>, leaves: seq<Leaf>): seq<Entry>
    decreases |leaves|
  {
    if leaves == [] then entries
    else PutLeaves(Put(entries, SplitOn(leaves[0].path, '.'), leaves[0].value), leaves[1..])
  }

  ghost function PutTrails(entries: seq<Entry>, trails: seq<Trail>): seq<Entry>
    decreases |trails|
  {
    if trails == [] then entries
    else PutTrails(Put(entries, trails[0].keys, trails[0].value), trails[1..])
  }

  /** The value without the objects that hold no leaf. */
  ghost function Prune(v: Json): Json
    decreases v, 1
  {
    if v.Obj? then Obj(PruneEntries(v.entries)) else v
  }

  ghost function PruneEntries(entries: seq<Entry>): seq<Entry>
    decreases entries, 0
  {
    if entries == [] then []
    else
      var value := Prune(entries[0].value);
      (if value == Obj([]) then [] else [Entry(entries[0].key, value)]) + PruneEntries(entries[1..])
  }

  ghost predicate Absent(key: string, entries: seq<Entry>) {
    forall i :: 0 <= i < |entries| ==> entries[i].key != key
  }

  /** Storing below a new key appends it; storing below the last key works inside it. */
  lemma {:induction false} PutAtEnd(before: seq<Entry>, key: string, keys: seq<string>, value: Json)
    requires Absent(key, before)
    ensures Put(before, [key] + keys, value)
         == before + [Entry(key, if keys == [] then value else Obj(Put([], keys, value)))]
  {
    assert ([key] + keys)[1..] == keys;
    if before != [] {
      PutAtEnd(before[1..], key, keys, value);
      assert before == [before[0]] + before[1..];
    }
  }

  lemma {:induction false} PutInside(before: seq<Entry>, key: string, inner: seq<Entry>, keys: seq<string>, value: Json)
    requires Absent(key, before) && keys != []
    ensures Put(before + [Entry(key, Obj(inner))], [key] + keys, value)
         == before + [Entry(key, Obj(Put(inner, keys, value)))]
  {
    assert ([key] + keys)[1..] == keys;
    var all := before + [Entry(key, Obj(inner))];
    if before == [] {
      assert all[1..] == [];
    } else {
      PutInside(before[1..], key, inner, keys, value);
      assert all[1..] == before[1..] + [Entry(key, Obj(inner))];
      assert before == [before[0]] + before[1..];
    }
  }

  lemma {:induction false} PutTrailsInside(before: seq<Entry>, key: string, inner: seq<Entry>, trails: seq<Trail>)
    requires Absent(key, before)
    requires forall i :: 0 <= i < |trails| ==> trails[i].keys != []
    ensures PutTrails(before + [Entry(key, Obj(inner))], Under(key, trails))
         == before + [Entry(key, Obj(PutTrails(inner, trails)))]
    decreases |trails|
  {
    if trails != [] {
      PutInside(before, key, inner, trails[0].keys, trails[0].value);
      PutTrailsInside(before, key, Put(inner, trails[0].keys, trails[0].value), trails[1..]);
      assert Under(key, trails)[1..] == Under(key, trails[1..]);
    }
  }

  lemma {:induction false} PutTrailsAppend(entries: seq<Entry>, left: seq<Trail>, right: seq<Trail>)
    ensures PutTrails(entries, left + right) == PutTrails(PutTrails(entries, left), right)
    decreases |left|
  {
    if left == [] {
      assert left + right == right;
    } else {
      assert (left + right)[1..] == left[1..] + right;
      PutTrailsAppend(Put(entries, left[0].keys, left[0].value), left[1..], right);
    }
  }

  lemma {:induction false} PutNeverEmpties(entries: seq<Entry>, trails: seq<Trail>)
    requires entries != []
    ensures PutTrails(entries, trails) != []
    decreases |trails|
  {
    if trails != [] {
      PutNeverEmpties(Put(entries, trails[0].keys, trails[0].value), trails[1..]);
    }
  }

  /** The leaves of one property, stored after the others, rebuild that property. */
  lemma {:induction false} RebuildProperty(before: seq<Entry>, key: string, v: Json)
    requires WellFormed(v) && PlainKeys(v) && Absent(key, before)
    ensures PutTrails(before, Under(key, Trails(v)))
         == before + (if Prune(v) == Obj([]) then [] else [Entry(key, Prune(v))])
    decreases v, 1
  {
    var trails := Trails(v);
    var under := Under(key, trails);
    TrailsPlain(v);
    if !v.Obj? {
      PutAtEnd(before, key, [], v);
      assert [key] + [] == [key];
      assert PutTrails(Put(before, [key], v), under[1..]) == Put(before, [key], v);
    } else if trails == [] {
      RebuildEntries([], v.entries);
      assert PutTrails([], trails) == [];
    } else {
      RebuildEntries([], v.entries);
      var first := Put([], trails[0].keys, trails[0].value);
      PutAtEnd(before, key, trails[0].keys, trails[0].value);
      PutTrailsInside(before, key, first, trails[1..]);
      PutNeverEmpties(first, trails[1..]);
      assert under[0].keys == [key] + trails[0].keys && under[1..] == Under(key, trails[1..]);
      assert PutTrails(first, trails[1..]) == PutTrails([], trails) == PruneEntries(v.entries);
      assert PutTrails(before, under) == PutTrails(before + [Entry(key, Obj(first))], under[1..]);
      assert Prune(v) == Obj(PutTrails(first, trails[1..]));
    }
  }

  lemma TailFacts(entries: seq<Entry>)
    requires entries != [] && WellFormed(Obj(entries)) && PlainKeys(Obj(entries))
    ensures WellFormed(Obj(entries[1..])) && PlainKeys(Obj(entries[1..]))
  {
  }

  /** What pruning leaves of one property. */
  ghost function Pruned(key: string, v: Json): seq<Entry> {
    if Prune(v) == Obj([]) then [] else [Entry(key, Prune(v))]
  }

  lemma PruneNext(entries: seq<Entry>)
    requires entries != []
    ensures forall before :: before + PruneEntries(entries) == (before + Pruned(entries[0].key, entries[0].value)) + PruneEntries(entries[1..])
  {
  }

  lemma RestAbsent(before: seq<Entry>, entries: seq<Entry>, more: seq<Entry>)
    requires entries != [] && DistinctKeys(entries)
    requires forall i :: 0 <= i < |entries| ==> Absent(entries[i].key, before)
    requires forall i :: 0 <= i < |more| ==> more[i].key == entries[0].key
    ensures forall i :: 0 <= i < |entries[1..]| ==> Absent(entries[1..][i].key, before + more)
  {
    forall i | 0 <= i < |entries[1..]| ensures Absent(entries[1..][i].key, before + more) {
      assert Absent(entries[i + 1].key, before) && entries[0].key != entries[i + 1].key;
    }
  }

  lemma {:induction false} RebuildEntries(before: seq<Entry>, entries: seq<Entry>)
    requires WellFormed(Obj(entries)) && PlainKeys(Obj(entries))
    requires forall i :: 0 <= i < |entries| ==> Absent(entries[i].key, before)
    ensures PutTrails(before, TrailsOf(entries)) == before + PruneEntries(entries)
    decreases entries, 0
  {
    if entries == [] {
      assert before + [] == before;
    } else {
      var key, v := entries[0].key, entries[0].value;
      var more := Pruned(key, v);
      RebuildProperty(before, key, v);
      PutTrailsAppend(before, Under(key, Trails(v)), TrailsOf(entries[1..]));
      TailFacts(entries);
      RestAbsent(before, entries, more);
      RebuildEntries(before + more, entries[1..]);
      PruneNext(entries);
    }
  }

  lemma {:induction false} PutLeavesIsPutTrails(entries: seq<Entry>, trails: seq<Trail>)
    requires forall i :: 0 <= i < |trails| ==> Plain(trails[i].keys) && trails[i].keys != []
    ensures PutLeaves(entries, Dotted([], trails)) == PutTrails(entries, trails)
    decreases |trails|
  {
    if trails != [] {
      assert [] + trails[0].keys == trails[0].keys;
      SplitOfJoin(trails[0].keys, '.');
      PutLeavesIsPutTrails(Put(entries, trails[0].keys, trails[0].value), trails[1..]);
      assert Dotted([], trails)[1..] == Dotted([], trails[1..]);
    }
  }

  /** Round trip: unflattening the leaves rebuilds the facts, short of the objects that hold no leaf. */
  lemma UnflattenLeaves(v: Json)
    requires WellFormed(v) && PlainKeys(v) && v.Obj?
    ensures Unflatten(Leaves(v, "")) == Prune(v)
  {
    LeavesAreTrails(v, []);
    TrailsPlain(v);
    PutLeavesIsPutTrails([], Trails(v));
    RebuildEntries([], v.entries);
    assert [] + PruneEntries(v.entries) == PruneEntries(v.entries);
  }
}

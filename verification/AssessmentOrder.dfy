/**
  The order of keys and the assessor: when a verdict is independent of how the candidate and the
  expected facts list their keys, and exactly when it is not.
 */
module AssessmentOrder {
  import opened Text
  import opened Json
  import opened StableText
  import opened Facts
  import opened Assessment

  // ---------------------------------------- leaves of facts equal up to order

  lemma {:induction false} SameTransitive(u: Json, v: Json, w: Json)
    requires Same(u, v) && Same(v, w)
    ensures Same(u, w)
    decreases v
  {
    match (u, v, w) {
      case (Arr(xs), Arr(ys), Arr(zs)) =>
        forall i | 0 <= i < |xs| ensures Same(xs[i], zs[i]) { SameTransitive(xs[i], ys[i], zs[i]); }
      case (Obj(es), Obj(fs), Obj(gs)) =>
        forall i, k | 0 <= i < |es| && 0 <= k < |gs| && es[i].key == gs[k].key ensures Same(es[i].value, gs[k].value) {
          assert es[i].key in KeySet(fs);
          var j :| 0 <= j < |fs| && fs[j].key == es[i].key;
          SameTransitive(es[i].value, fs[j].value, gs[k].value);
        }
      case _ =>
    }
  }

  lemma {:induction false} KeysApartSame(v: Json, w: Json, le: Collation)
    requires WellFormed(w) && KeysApart(v, le) && Same(v, w)
    ensures KeysApart(w, le)
    decreases v
  {
    match (v, w) {
      case (Arr(xs), Arr(ys)) =>
        forall i | 0 <= i < |ys| ensures KeysApart(ys[i], le) { KeysApartSame(xs[i], ys[i], le); }
      case (Obj(es), Obj(fs)) =>
        forall j | 0 <= j < |fs| ensures exists i :: 0 <= i < |es| && es[i].key == fs[j].key {
          assert fs[j].key in KeySet(fs);
        }
        forall j | 0 <= j < |fs| ensures KeysApart(fs[j].value, le) {
          var i :| 0 <= i < |es| && es[i].key == fs[j].key;
          KeysApartSame(es[i].value, fs[j].value, le);
        }
        forall j, l | 0 <= j < l < |fs| ensures !Tied(fs[j].key, fs[l].key, le) {
          var i :| 0 <= i < |es| && es[i].key == fs[j].key;
          var k :| 0 <= k < |es| && es[k].key == fs[l].key;
          assert i != k && !Tied(es[if i < k then i else k].key, es[if i < k then k else i].key, le);
        }
      case _ =>
    }
  }

  /** A leaf of an object is a leaf of one of its properties. */
  lemma {:induction false} LeafOrigin(entries: seq<Entry>, prefix: string, leaf: Leaf) returns (i: nat)
    requires leaf in LeavesOf(entries, prefix)
    ensures i < |entries| && leaf in Leaves(entries[i].value, Extend(prefix, entries[i].key))
  {
    if leaf in Leaves(entries[0].value, Extend(prefix, entries[0].key)) {
      i := 0;
    } else {
      i := LeafOrigin(entries[1..], prefix, leaf);
      i := i + 1;
    }
  }

  lemma {:induction false} LeafArrives(entries: seq<Entry>, prefix: string, i: nat, leaf: Leaf)
    requires i < |entries| && leaf in Leaves(entries[i].value, Extend(prefix, entries[i].key))
    ensures leaf in LeavesOf(entries, prefix)
  {
    if i > 0 {
      LeafArrives(entries[1..], prefix, i - 1, leaf);
    }
  }

  /** Reordering keys keeps every leaf, at its path, up to the order inside its value. */
  lemma {:induction false} LeafSurvives(v: Json, w: Json, prefix: string, leaf: Leaf) returns (kept: Leaf)
    requires Same(v, w) && leaf in Leaves(v, prefix)
    ensures kept in Leaves(w, prefix) && kept.path == leaf.path && Same(leaf.value, kept.value)
    decreases v
  {
    if v.Obj? {
      var i := LeafOrigin(v.entries, prefix, leaf);
      assert v.entries[i].key in KeySet(w.entries);
      var j :| 0 <= j < |w.entries| && w.entries[j].key == v.entries[i].key;
      kept := LeafSurvives(v.entries[i].value, w.entries[j].value, Extend(prefix, v.entries[i].key), leaf);
      LeafArrives(w.entries, prefix, j, kept);
    } else {
      kept := Leaf(prefix, w);
    }
  }

  lemma {:induction false} LeafInherits(v: Json, prefix: string, leaf: Leaf, le: Collation)
    requires leaf in Leaves(v, prefix)
    ensures !leaf.value.Obj?
    ensures WellFormed(v) ==> WellFormed(leaf.value)
    ensures KeysApart(v, le) ==> KeysApart(leaf.value, le)
    decreases v
  {
    if v.Obj? {
      var i := LeafOrigin(v.entries, prefix, leaf);
      LeafInherits(v.entries[i].value, Extend(prefix, v.entries[i].key), leaf, le);
    }
  }

  // ------------------------------------------------------ weighing all leaves

  /** What a leaf contributes to a list of paths. */
  type Weight = Leaf -> multiset<string>

  ghost function Bag(leaves: seq<Leaf>, weigh: Weight): multiset<string> {
    if leaves == [] then multiset{} else weigh(leaves[0]) + Bag(leaves[1..], weigh)
  }

  lemma {:induction false} BagAppend(a: seq<Leaf>, b: seq<Leaf>, weigh: Weight)
    ensures Bag(a + b, weigh) == Bag(a, weigh) + Bag(b, weigh)
  {
    if a == [] {
      assert a + b == b;
    } else {
      assert (a + b)[1..] == a[1..] + b;
      BagAppend(a[1..], b, weigh);
    }
  }

  lemma {:induction false} LeavesOfAppend(a: seq<Entry>, b: seq<Entry>, prefix: string)
    ensures LeavesOf(a + b, prefix) == LeavesOf(a, prefix) + LeavesOf(b, prefix)
  {
    if a == [] {
      assert a + b == b;
    } else {
      assert (a + b)[1..] == a[1..] + b;
      LeavesOfAppend(a[1..], b, prefix);
    }
  }

  /** Leaves of one path that are equal up to key order weigh the same. */
  ghost predicate Respects(weigh: Weight, xs: seq<Leaf>, ys: seq<Leaf>) {
    forall x, y :: x in xs && y in ys && x.path == y.path && Same(x.value, y.value) ==> weigh(x) == weigh(y)
  }

  /** Reordering keys rearranges the leaves, so what they weigh together stays the same. */
  lemma {:induction false} BagReordered(v: Json, w: Json, prefix: string, weigh: Weight)
    requires Same(v, w) && WellFormed(v) && WellFormed(w) && Respects(weigh, Leaves(v, prefix), Leaves(w, prefix))
    ensures Bag(Leaves(v, prefix), weigh) == Bag(Leaves(w, prefix), weigh)
    decreases v, 0
  {
    if v.Obj? {
      EntriesReordered(v.entries, w.entries, prefix, weigh, v);
    } else {
      var x, y := Leaf(prefix, v), Leaf(prefix, w);
      assert x in Leaves(v, prefix) && y in Leaves(w, prefix);
      assert [x][1..] == [] && [y][1..] == [];
    }
  }

  lemma {:induction false} EntriesReordered(es: seq<Entry>, fs: seq<Entry>, prefix: string, weigh: Weight, whole: Json)
    requires Same(Obj(es), Obj(fs)) && WellFormed(Obj(es)) && WellFormed(Obj(fs))
    requires forall e :: e in es ==> e.value < whole
    requires Respects(weigh, LeavesOf(es, prefix), LeavesOf(fs, prefix))
    ensures Bag(LeavesOf(es, prefix), weigh) == Bag(LeavesOf(fs, prefix), weigh)
    decreases whole, 0, |es|
  {
    NoKeys(es);
    NoKeys(fs);
    if es != [] {
      var j := KeyAt(fs, es[0].key);
      var first, inner := Extend(prefix, es[0].key), Leaves(fs[j].value, Extend(prefix, es[0].key));
      var before, after := LeavesOf(fs[..j], prefix), LeavesOf(fs[j + 1..], prefix);
      SplitAround(fs, j, prefix);
      LeavesOfAppend(fs[..j], fs[j + 1..], prefix);
      RestSame(es, fs, j);
      BagReordered(es[0].value, fs[j].value, first, weigh);
      EntriesReordered(es[1..], fs[..j] + fs[j + 1..], prefix, weigh, whole);
      BagAppend(Leaves(es[0].value, first), LeavesOf(es[1..], prefix), weigh);
      BagAppend(before, after, weigh);
      BagAppend(before, inner, weigh);
      BagAppend(before + inner, after, weigh);
    }
  }

  lemma SplitAround(fs: seq<Entry>, j: nat, prefix: string)
    requires j < |fs|
    ensures LeavesOf(fs, prefix)
         == LeavesOf(fs[..j], prefix) + Leaves(fs[j].value, Extend(prefix, fs[j].key)) + LeavesOf(fs[j + 1..], prefix)
  {
    var one := [fs[j]];
    assert fs == fs[..j] + one + fs[j + 1..];
    LeavesOfAppend(fs[..j] + one, fs[j + 1..], prefix);
    LeavesOfAppend(fs[..j], one, prefix);
    assert one[1..] == [];
    assert LeavesOf(one, prefix) == Leaves(fs[j].value, Extend(prefix, fs[j].key)) + LeavesOf([], prefix);
  }

  /** Without its first key on one side, and that key on the other, an object is still the same. */
  lemma RestSame(es: seq<Entry>, fs: seq<Entry>, j: nat)
    requires es != [] && j < |fs| && fs[j].key == es[0].key
    requires Same(Obj(es), Obj(fs)) && WellFormed(Obj(es)) && WellFormed(Obj(fs))
    ensures var rest := fs[..j] + fs[j + 1..];
      Same(Obj(es[1..]), Obj(rest)) && WellFormed(Obj(es[1..])) && WellFormed(Obj(rest))
  {
    var rest := fs[..j] + fs[j + 1..];
    assert forall i :: 0 <= i < |rest| ==> rest[i] == fs[if i < j then i else i + 1];
    TailKeys(es);
    forall k ensures k in KeySet(rest) <==> k in KeySet(fs) - {fs[j].key} {
      if k in KeySet(rest) {
        var i := KeyAt(rest, k);
        assert fs[if i < j then i else i + 1].key == k;
      }
      if k in KeySet(fs) - {fs[j].key} {
        var i := KeyAt(fs, k);
        assert rest[if i < j then i else i - 1].key == k;
      }
    }
  }

  ghost function MissingWeight(byPath: map<string, Json>, le: Collation): Weight {
    (x: Leaf) => if Confirms(byPath, x, le) then multiset{} else multiset{x.path}
  }

  ghost function UnsupportedWeight(byPath: map<string, Json>, le: Collation): Weight {
    (x: Leaf) => if x.value != Null && !Confirms(byPath, x, le) then multiset{x.path} else multiset{}
  }

  lemma {:induction false} MissingIsBag(leaves: seq<Leaf>, byPath: map<string, Json>, le: Collation)
    ensures multiset(Missing(leaves, byPath, le)) == Bag(leaves, MissingWeight(byPath, le))
  {
    if leaves != [] {
      MissingIsBag(leaves[1..], byPath, le);
    }
  }

  lemma {:induction false} UnsupportedIsBag(leaves: seq<Leaf>, byPath: map<string, Json>, le: Collation)
    ensures multiset(Unsupported(leaves, byPath, le)) == Bag(leaves, UnsupportedWeight(byPath, le))
  {
    if leaves != [] {
      UnsupportedIsBag(leaves[1..], byPath, le);
    }
  }

  lemma {:induction false} PathsAreBag(leaves: seq<Leaf>)
    ensures multiset(Paths(leaves)) == Bag(leaves, (x: Leaf) => multiset{x.path})
  {
    if leaves != [] {
      PathsAreBag(leaves[1..]);
      assert Paths(leaves) == [leaves[0].path] + Paths(leaves[1..]);
    }
  }

  // ----------------------------------------------------- one side reordered

  /** No leaf holds tied keys inside its value. */
  ghost predicate UntiedLeaves(leaves: seq<Leaf>, le: Collation) {
    forall x :: x in leaves ==> KeysApart(x.value, le)
  }

  /** Leaves that read alike in every key order: one text for each path, and no ties inside. */
  ghost predicate Steady(leaves: seq<Leaf>, le: Collation) {
    Consistent(leaves, le) && UntiedLeaves(leaves, le)
  }

  /** A comparison of texts survives reordering one side when either side holds no ties. */
  lemma TextCarries(x: Json, x': Json, y: Json, le: Collation)
    requires Preorder(le) && WellFormed(x) && WellFormed(x') && Same(x, x')
    requires KeysApart(x, le) || (WellFormed(y) && KeysApart(y, le))
    ensures Stable(x, le) == Stable(y, le) <==> Stable(x', le) == Stable(y, le)
  {
    if KeysApart(x, le) {
      StableCanonical(x, x', le);
    } else {
      SameReversed(x, x');
      StableCanonical(y, x, le);
      StableCanonical(y, x', le);
      if Same(y, x) {
        SameTransitive(y, x, x');
      }
      if Same(y, x') {
        SameTransitive(y, x', x);
      }
    }
  }

  lemma LastLeaf(leaves: seq<Leaf>, path: string) returns (last: Leaf)
    requires path in ByPath(leaves)
    ensures last in leaves && last.path == path && ByPath(leaves)[path] == last.value
  {
    ByPathKeys(leaves, path);
    last := LastAt(leaves, path);
  }

  lemma HasPath(leaves: seq<Leaf>, leaf: Leaf)
    requires leaf in leaves
    ensures leaf.path in ByPath(leaves)
  {
    ByPathKeys(leaves, leaf.path);
    var i :| 0 <= i < |leaves| && leaves[i] == leaf;
  }

  /** A leaf is confirmed by consistent facts or not, whatever the order of their keys. */
  lemma ConfirmsReordered(v: Json, w: Json, leaf: Leaf, le: Collation)
    requires Preorder(le) && WellFormed(v) && WellFormed(w) && Same(v, w) && Consistent(Leaves(v, ""), le)
    requires UntiedLeaves(Leaves(v, ""), le) || (WellFormed(leaf.value) && KeysApart(leaf.value, le))
    ensures Confirms(ByPath(Leaves(v, "")), leaf, le) <==> Confirms(ByPath(Leaves(w, "")), leaf, le)
  {
    var vs, ws := Leaves(v, ""), Leaves(w, "");
    SameReversed(v, w);
    if leaf.path in ByPath(vs) {
      var x := LastLeaf(vs, leaf.path);
      var y := LeafSurvives(v, w, "", x);
      HasPath(ws, y);
    }
    if leaf.path in ByPath(ws) {
      var y := LastLeaf(ws, leaf.path);
      var x := LeafSurvives(w, v, "", y);
      HasPath(vs, x);
      var last := LastLeaf(vs, leaf.path);
      LeafInherits(v, "", x, le);
      LeafInherits(w, "", y, le);
      SameReversed(y.value, x.value);
      TextCarries(x.value, y.value, leaf.value, le);
    }
  }

  lemma {:induction false} MissingAlike(leaves: seq<Leaf>, m: map<string, Json>, m': map<string, Json>, le: Collation)
    requires forall x :: x in leaves ==> Confirms(m, x, le) == Confirms(m', x, le)
    ensures Missing(leaves, m, le) == Missing(leaves, m', le)
  {
    if leaves != [] {
      MissingAlike(leaves[1..], m, m', le);
    }
  }

  lemma {:induction false} UnsupportedAlike(leaves: seq<Leaf>, m: map<string, Json>, m': map<string, Json>, le: Collation)
    requires forall x :: x in leaves ==> Confirms(m, x, le) == Confirms(m', x, le)
    ensures Unsupported(leaves, m, le) == Unsupported(leaves, m', le)
  {
    if leaves != [] {
      UnsupportedAlike(leaves[1..], m, m', le);
    }
  }

  /** The same paths missing and unsupported, and as many facts, in whatever order. */
  ghost predicate SameFindings(actual: Json, wanted: Json, actual': Json, wanted': Json, le: Collation) {
    var fs, es, fs', es' := Leaves(actual, ""), Leaves(wanted, ""), Leaves(actual', ""), Leaves(wanted', "");
    && |es| == |es'| && multiset(Paths(es)) == multiset(Paths(es'))
    && multiset(Missing(es, ByPath(fs), le)) == multiset(Missing(es', ByPath(fs'), le))
    && multiset(Unsupported(fs, ByPath(es), le)) == multiset(Unsupported(fs', ByPath(es'), le))
  }

  /** Looking a leaf up among expected facts does not depend on the key order of its value. */
  lemma LookupRespects(actual: Json, actual': Json, wanted: Json, le: Collation)
    requires Preorder(le) && WellFormed(actual) && WellFormed(actual')
    requires UntiedLeaves(Leaves(actual, ""), le) || (WellFormed(wanted) && UntiedLeaves(Leaves(wanted, ""), le))
    ensures Respects(UnsupportedWeight(ByPath(Leaves(wanted, "")), le), Leaves(actual, ""), Leaves(actual', ""))
  {
    var es, m := Leaves(wanted, ""), ByPath(Leaves(wanted, ""));
    forall x, y | x in Leaves(actual, "") && y in Leaves(actual', "") && x.path == y.path && Same(x.value, y.value)
      ensures UnsupportedWeight(m, le)(x) == UnsupportedWeight(m, le)(y)
    {
      LeafInherits(actual, "", x, le);
      LeafInherits(actual', "", y, le);
      if x.path in m {
        var e := LastLeaf(es, x.path);
        LeafInherits(wanted, "", e, le);
        TextCarries(x.value, y.value, e.value, le);
      }
    }
  }

  /** Reordering the reported facts. */
  lemma ActualReordered(actual: Json, actual': Json, wanted: Json, le: Collation)
    requires Preorder(le) && WellFormed(actual) && WellFormed(actual') && Same(actual, actual')
    requires Consistent(Leaves(actual, ""), le)
    requires UntiedLeaves(Leaves(actual, ""), le) || (WellFormed(wanted) && UntiedLeaves(Leaves(wanted, ""), le))
    ensures SameFindings(actual, wanted, actual', wanted, le)
  {
    var fs, fs', es := Leaves(actual, ""), Leaves(actual', ""), Leaves(wanted, "");
    forall e | e in es ensures Confirms(ByPath(fs), e, le) == Confirms(ByPath(fs'), e, le) {
      LeafInherits(wanted, "", e, le);
      ConfirmsReordered(actual, actual', e, le);
    }
    MissingAlike(es, ByPath(fs), ByPath(fs'), le);
    LookupRespects(actual, actual', wanted, le);
    BagReordered(actual, actual', "", UnsupportedWeight(ByPath(es), le));
    UnsupportedIsBag(fs, ByPath(es), le);
    UnsupportedIsBag(fs', ByPath(es), le);
  }

  /** Reordering the expected facts. */
  lemma WantedReordered(actual: Json, wanted: Json, wanted': Json, le: Collation)
    requires Preorder(le) && WellFormed(wanted) && WellFormed(wanted') && Same(wanted, wanted')
    requires Steady(Leaves(wanted, ""), le)
    ensures SameFindings(actual, wanted, actual, wanted', le)
  {
    var fs, es, es' := Leaves(actual, ""), Leaves(wanted, ""), Leaves(wanted', "");
    forall f | f in fs ensures Confirms(ByPath(es), f, le) == Confirms(ByPath(es'), f, le) {
      ConfirmsReordered(wanted, wanted', f, le);
    }
    UnsupportedAlike(fs, ByPath(es), ByPath(es'), le);
    TextsRespect(wanted, wanted', ByPath(fs), le);
    BagReordered(wanted, wanted', "", MissingWeight(ByPath(fs), le));
    MissingIsBag(es, ByPath(fs), le);
    MissingIsBag(es', ByPath(fs), le);
    BagReordered(wanted, wanted', "", (x: Leaf) => multiset{x.path});
    PathsAreBag(es);
    PathsAreBag(es');
    assert |multiset(Paths(es))| == |es| && |multiset(Paths(es'))| == |es'|;
  }

  lemma TextsRespect(wanted: Json, wanted': Json, m: map<string, Json>, le: Collation)
    requires Preorder(le) && WellFormed(wanted) && WellFormed(wanted') && UntiedLeaves(Leaves(wanted, ""), le)
    ensures Respects(MissingWeight(m, le), Leaves(wanted, ""), Leaves(wanted', ""))
  {
    forall x, y | x in Leaves(wanted, "") && y in Leaves(wanted', "") && x.path == y.path && Same(x.value, y.value)
      ensures MissingWeight(m, le)(x) == MissingWeight(m, le)(y)
    {
      LeafInherits(wanted, "", x, le);
      LeafInherits(wanted', "", y, le);
      StableCanonical(x.value, y.value, le);
    }
  }

  // ------------------------------------------------------------- the verdict

  /** Reading one property commutes with reordering keys. */
  lemma FieldSame(v: Json, w: Json, key: string)
    requires WellFormed(v) && WellFormed(w) && Same(v, w)
    ensures Field(v, key).Some? == Field(w, key).Some?
    ensures Field(v, key).Some? ==>
      && Same(Field(v, key).value, Field(w, key).value)
      && WellFormed(Field(v, key).value) && WellFormed(Field(w, key).value)
  {
    if v.Obj? {
      assert key in KeySet(v.entries) <==> key in KeySet(w.entries);
      assert (exists i :: 0 <= i < |v.entries| && v.entries[i].key == key) <==> key in KeySet(v.entries);
      assert (exists i :: 0 <= i < |w.entries| && w.entries[i].key == key) <==> key in KeySet(w.entries);
      if Field(v, key).Some? {
        var i :| 0 <= i < |v.entries| && v.entries[i] == Entry(key, Field(v, key).value);
        var j :| 0 <= j < |w.entries| && w.entries[j] == Entry(key, Field(w, key).value);
      }
    }
  }

  lemma ReportedFactsSame(output: Json, output': Json)
    requires WellFormed(output) && WellFormed(output') && Same(output, output')
    ensures var f, f' := ReportedFacts(output), ReportedFacts(output');
      WellFormed(f) && WellFormed(f') && Same(f, f') && Same(f', f)
  {
    FieldSame(output, output', "facts");
    SameReversed(output, output');
    FieldSame(output', output, "facts");
  }

  /** The same verdict, the two lists of paths taken without their order. */
  ghost predicate SameVerdict(a: Verdict, b: Verdict) {
    && a.completed == b.completed && a.formatCompliant == b.formatCompliant
    && a.substantiveAccepted == b.substantiveAccepted && a.fullAcceptance == b.fullAcceptance
    && a.qualityScore == b.qualityScore && a.correctFacts == b.correctFacts && a.totalFacts == b.totalFacts
    && multiset(a.unsupportedClaims) == multiset(b.unsupportedClaims)
    && multiset(a.missingOrIncorrectFacts) == multiset(b.missingOrIncorrectFacts)
  }

  lemma EvidenceInvariant(output: Json, output': Json, required: seq<string>)
    requires WellFormed(output) && WellFormed(output') && Same(output, output')
    ensures EvidenceComplete(output, required) == EvidenceComplete(output', required)
  {
    FieldSame(output, output', "evidence");
    var e, e' := Field(output, "evidence"), Field(output', "evidence");
    if e.Some? && e.value.Arr? {
      forall s | s in required ensures Str(s) in e.value.items <==> Str(s) in e'.value.items {
        StringsSurvive(e.value.items, e'.value.items, s);
      }
    }
  }

  lemma ActionsInvariant(output: Json, output': Json, allowed: seq<string>)
    requires WellFormed(output) && WellFormed(output') && Same(output, output')
    ensures ActionsAllowed(output, allowed) == ActionsAllowed(output', allowed)
  {
    FieldSame(output, output', "actions");
    var a, a' := Field(output, "actions"), Field(output', "actions");
    if a.Some? && a.value.Arr? {
      forall i | 0 <= i < |a.value.items|
        ensures a.value.items[i].Str? == a'.value.items[i].Str?
        ensures a.value.items[i].Str? ==> a.value.items[i] == a'.value.items[i]
      {
        assert Same(a.value.items[i], a'.value.items[i]);
      }
    }
  }

  lemma SubstantiveInvariant(output: Json, output': Json, expected: Expected, facts': Json, correct: nat, total: nat)
    requires WellFormed(output) && WellFormed(output') && Same(output, output')
    ensures Substantive(output, expected, correct, total)
         == Substantive(output', expected.(facts := facts'), correct, total)
  {
    EvidenceInvariant(output, output', expected.requiredEvidence);
    ActionsInvariant(output, output', expected.allowedActions);
    FieldSame(output, output', "outcome");
  }

  lemma StringsSurvive(xs: seq<Json>, ys: seq<Json>, s: string)
    requires Same(Arr(xs), Arr(ys))
    ensures Str(s) in xs <==> Str(s) in ys
  {
    assert forall i :: 0 <= i < |xs| ==> Same(xs[i], ys[i]);
    if Str(s) in xs {
      var i :| 0 <= i < |xs| && xs[i] == Str(s);
      assert Same(xs[i], ys[i]) && ys[i] == Str(s);
    }
    if Str(s) in ys {
      var i :| 0 <= i < |ys| && ys[i] == Str(s);
      assert Same(xs[i], ys[i]) && xs[i] == Str(s);
    }
  }

  lemma FindingsCount(actual: Json, wanted: Json, actual': Json, wanted': Json, le: Collation)
    requires SameFindings(actual, wanted, actual', wanted', le)
    ensures CountConfirmed(Leaves(wanted, ""), ByPath(Leaves(actual, "")), le)
         == CountConfirmed(Leaves(wanted', ""), ByPath(Leaves(actual', "")), le)
  {
    var es, es', m, m' := Leaves(wanted, ""), Leaves(wanted', ""), ByPath(Leaves(actual, "")), ByPath(Leaves(actual', ""));
    CountsPartition(es, m, le);
    CountsPartition(es', m', le);
    assert |multiset(Missing(es, m, le))| == |Missing(es, m, le)|;
    assert |multiset(Missing(es', m', le))| == |Missing(es', m', le)|;
  }

  lemma FindingsGiveVerdict(output: Json, output': Json, compliant: bool, expected: Expected, facts': Json, le: Collation)
    requires WellFormed(output) && WellFormed(output') && Same(output, output')
    requires SameFindings(ReportedFacts(output), expected.facts, ReportedFacts(output'), facts', le)
    ensures SameVerdict(AssessOutput(output, compliant, expected, le),
                        AssessOutput(output', compliant, expected.(facts := facts'), le))
  {
    var es, m := Leaves(expected.facts, ""), ByPath(Leaves(ReportedFacts(output), ""));
    FindingsCount(ReportedFacts(output), expected.facts, ReportedFacts(output'), facts', le);
    SubstantiveInvariant(output, output', expected, facts', CountConfirmed(es, m, le), |es|);
  }

  /** The facts a candidate reports; the empty object when it is not even assessed. */
  ghost function Told(candidate: Json): Json {
    var parsed := Field(candidate, "parsed");
    if parsed.Some? then ReportedFacts(parsed.value) else Obj([])
  }

  lemma OutputsGiveVerdict(candidate: Json, candidate': Json, verification: Json, expected: Expected, facts': Json, le: Collation)
    requires var parsed, parsed' := Field(candidate, "parsed"), Field(candidate', "parsed");
      && parsed.Some? && parsed.value.Obj? && parsed'.Some? && parsed'.value.Obj?
      && forall compliant :: SameVerdict(AssessOutput(parsed.value, compliant, expected, le),
                                         AssessOutput(parsed'.value, compliant, expected.(facts := facts'), le))
    ensures SameVerdict(Assess(candidate, verification, expected, le),
                        Assess(candidate', verification, expected.(facts := facts'), le))
  {
  }

  lemma CandidateReordered(candidate: Json, candidate': Json, verification: Json, expected: Expected, le: Collation)
    requires Preorder(le) && WellFormed(candidate) && WellFormed(candidate') && Same(candidate, candidate')
    requires Consistent(Leaves(Told(candidate), ""), le)
    requires UntiedLeaves(Leaves(Told(candidate), ""), le)
          || (WellFormed(expected.facts) && UntiedLeaves(Leaves(expected.facts, ""), le))
    ensures SameVerdict(Assess(candidate, verification, expected, le), Assess(candidate', verification, expected, le))
  {
    var parsed, parsed' := Field(candidate, "parsed"), Field(candidate', "parsed");
    FieldSame(candidate, candidate', "parsed");
    if parsed.Some? && parsed.value.Obj? {
      ReportedFactsSame(parsed.value, parsed'.value);
      ActualReordered(ReportedFacts(parsed.value), ReportedFacts(parsed'.value), expected.facts, le);
      assert expected.(facts := expected.facts) == expected;
      forall compliant: bool {
        FindingsGiveVerdict(parsed.value, parsed'.value, compliant, expected, expected.facts, le);
      }
      OutputsGiveVerdict(candidate, candidate', verification, expected, expected.facts, le);
    }
  }

  lemma ExpectedReordered(candidate: Json, verification: Json, expected: Expected, facts': Json, le: Collation)
    requires Preorder(le) && WellFormed(expected.facts) && WellFormed(facts') && Same(expected.facts, facts')
    requires Steady(Leaves(expected.facts, ""), le)
    ensures SameVerdict(Assess(candidate, verification, expected, le),
                        Assess(candidate, verification, expected.(facts := facts'), le))
  {
    var parsed := Field(candidate, "parsed");
    var told := Told(candidate);
    WantedReordered(told, expected.facts, facts', le);
    FindingsCount(told, expected.facts, told, facts', le);
  }

  /** The second value lists the keys of the first in any order, at any depth. */
  ghost predicate Reorders(v: Json, w: Json) {
    WellFormed(v) && WellFormed(w) && Same(v, w)
  }

  ghost predicate TellsConsistently(candidate: Json, le: Collation) {
    Consistent(Leaves(Told(candidate), ""), le)
  }

  ghost predicate SteadyFacts(facts: Json, le: Collation) {
    Steady(Leaves(facts, ""), le)
  }

  /**
    Reordering keys, at any depth, of the candidate and of the expected facts leaves the verdict
    alone when reported leaves of one path print the same text and the expected leaves are steady.
   */
  lemma AssessInvariant(candidate: Json, candidate': Json, verification: Json, expected: Expected, facts': Json, le: Collation)
    requires Preorder(le) && Reorders(candidate, candidate') && Reorders(expected.facts, facts')
    requires TellsConsistently(candidate, le) && SteadyFacts(expected.facts, le)
    ensures SameVerdict(Assess(candidate, verification, expected, le),
                        Assess(candidate', verification, expected.(facts := facts'), le))
  {
    CandidateReordered(candidate, candidate', verification, expected, le);
    ExpectedReordered(candidate', verification, expected, facts', le);
  }

  /** Plain keys give every leaf a path of its own, so only ties inside leaf values are left to matter. */
  lemma PlainFactsAreConsistent(facts: Json, le: Collation)
    requires facts.Obj? && WellFormed(facts) && PlainKeys(facts)
    ensures Consistent(Leaves(facts, ""), le)
    ensures Steady(Leaves(facts, ""), le) <==> UntiedLeaves(Leaves(facts, ""), le)
  {
    LeavesDistinct(facts);
  }

  // -------------------------------------------------------- where order shows

  lemma {:induction false} SameReflexive(v: Json)
    requires WellFormed(v)
    ensures Same(v, v)
    decreases v
  {
    match v {
      case Arr(items) =>
        forall i | 0 <= i < |items| ensures Same(items[i], items[i]) { SameReflexive(items[i]); }
      case Obj(entries) =>
        forall i, j | 0 <= i < |entries| && 0 <= j < |entries| && entries[i].key == entries[j].key
          ensures Same(entries[i].value, entries[j].value)
        {
          assert i == j;
          SameReflexive(entries[i].value);
        }
      case _ =>
    }
  }

  /** The entries with entry `i` moved to the end and given another value. */
  function MovedLast(entries: seq<Entry>, i: nat, value: Json): seq<Entry>
    requires i < |entries|
  {
    entries[..i] + entries[i + 1..] + [Entry(entries[i].key, value)]
  }

  lemma MovedLastSame(entries: seq<Entry>, i: nat, value: Json)
    requires i < |entries| && WellFormed(Obj(entries)) && WellFormed(value) && Same(entries[i].value, value)
    ensures WellFormed(Obj(MovedLast(entries, i, value))) && Same(Obj(entries), Obj(MovedLast(entries, i, value)))
  {
    var n, moved := |entries| - 1, MovedLast(entries, i, value);
    assert forall k :: 0 <= k < n ==> moved[k] == entries[if k < i then k else k + 1];
    assert moved[n] == Entry(entries[i].key, value);
    forall key ensures key in KeySet(moved) <==> key in KeySet(entries) {
      if key in KeySet(moved) {
        var k := KeyAt(moved, key);
        assert entries[if k == n then i else if k < i then k else k + 1].key == key;
      }
      if key in KeySet(entries) {
        var k := KeyAt(entries, key);
        assert moved[if k == i then n else if k < i then k else k - 1].key == key;
      }
    }
    forall a, b | 0 <= a < |entries| && 0 <= b < |moved| && entries[a].key == moved[b].key
      ensures Same(entries[a].value, moved[b].value)
    {
      assert a == if b == n then i else if b < i then b else b + 1;
      SameReflexive(entries[a].value);
    }
  }

  ghost predicate EndsIn(leaves: seq<Leaf>, leaf: Leaf) {
    leaves != [] && leaves[|leaves| - 1] == leaf
  }

  lemma MovedLastLeaves(entries: seq<Entry>, i: nat, child: Json, prefix: string, leaf: Leaf)
    requires i < |entries| && EndsIn(Leaves(child, Extend(prefix, entries[i].key)), leaf)
    ensures EndsIn(LeavesOf(MovedLast(entries, i, child), prefix), leaf)
  {
    var last := [Entry(entries[i].key, child)];
    LeavesOfAppend(entries[..i] + entries[i + 1..], last, prefix);
    assert last[1..] == [];
    assert LeavesOf(last, prefix) == Leaves(child, Extend(prefix, entries[i].key)) + LeavesOf([], prefix);
  }

  lemma MovedLastFits(entries: seq<Entry>, i: nat, child: Json, prefix: string, leaf: Leaf)
    requires i < |entries| && WellFormed(Obj(entries)) && WellFormed(child) && Same(entries[i].value, child)
    requires EndsIn(Leaves(child, Extend(prefix, entries[i].key)), leaf)
    ensures var w := Obj(MovedLast(entries, i, child));
      WellFormed(w) && Same(Obj(entries), w) && EndsIn(Leaves(w, prefix), leaf)
  {
    MovedLastSame(entries, i, child);
    MovedLastLeaves(entries, i, child, prefix, leaf);
  }

  /** Any leaf can be brought last, its value reordered too. */
  lemma {:induction false} BringLast(v: Json, prefix: string, leaf: Leaf, value: Json) returns (w: Json)
    requires WellFormed(v) && leaf in Leaves(v, prefix) && WellFormed(value) && Same(leaf.value, value)
    ensures WellFormed(w) && Same(v, w) && EndsIn(Leaves(w, prefix), Leaf(leaf.path, value))
    decreases v
  {
    if v.Obj? {
      var i := LeafOrigin(v.entries, prefix, leaf);
      var child := BringLast(v.entries[i].value, Extend(prefix, v.entries[i].key), leaf, value);
      MovedLastFits(v.entries, i, child, prefix, Leaf(leaf.path, value));
      w := Obj(MovedLast(v.entries, i, child));
    } else {
      LeafInherits(v, prefix, leaf, (a, b) => true);
      w := value;
    }
  }

  /** The facts are looked up at `path` as `value`. */
  ghost predicate Shows(facts: Json, path: string, value: Json) {
    var byPath := ByPath(Leaves(facts, ""));
    path in byPath && byPath[path] == value
  }

  lemma CanShow(v: Json, leaf: Leaf, value: Json) returns (w: Json)
    requires WellFormed(v) && leaf in Leaves(v, "") && WellFormed(value) && Same(leaf.value, value)
    ensures WellFormed(w) && Same(v, w) && Shows(w, leaf.path, value)
  {
    w := BringLast(v, "", leaf, value);
  }

  /** A leaf of unsteady facts, and another text that the facts can show at its path. */
  lemma Unsteady(v: Json, le: Collation) returns (x: Leaf, y: Leaf, b: Json)
    requires Preorder(le) && WellFormed(v) && !Steady(Leaves(v, ""), le)
    ensures x in Leaves(v, "") && y in Leaves(v, "") && x.path == y.path
    ensures WellFormed(b) && Same(y.value, b) && Stable(x.value, le) != Stable(b, le)
  {
    var leaves := Leaves(v, "");
    if !Consistent(leaves, le) {
      x, y :| x in leaves && y in leaves && x.path == y.path && Stable(x.value, le) != Stable(y.value, le);
      LeafInherits(v, "", y, le);
      b := y.value;
      SameReflexive(b);
    } else {
      x :| x in leaves && !KeysApart(x.value, le);
      y := x;
      LeafInherits(v, "", x, le);
      StableCanonicalExactly(x.value, le);
      b :| WellFormed(b) && Same(x.value, b) && Stable(b, le) != Stable(x.value, le);
    }
  }

  /** Unsteady facts can be listed in two orders that show different texts at one path. */
  lemma TwoOrders(v: Json, le: Collation) returns (path: string, a: Json, b: Json, v1: Json, v2: Json)
    requires Preorder(le) && WellFormed(v) && !Steady(Leaves(v, ""), le)
    ensures !a.Obj? && !b.Obj? && Stable(a, le) != Stable(b, le)
    ensures WellFormed(v1) && Same(v, v1) && Shows(v1, path, a)
    ensures WellFormed(v2) && Same(v, v2) && Shows(v2, path, b)
  {
    var x, y;
    x, y, b := Unsteady(v, le);
    path, a := x.path, x.value;
    LeafInherits(v, "", x, le);
    LeafInherits(v, "", y, le);
    SameReflexive(a);
    v1 := CanShow(v, x, a);
    v2 := CanShow(v, y, b);
  }

  /** Facts with a single leaf, its path one dotted key. */
  function OneFact(path: string, value: Json): Json {
    Obj([Entry(path, value)])
  }

  lemma OneFactLeaves(path: string, value: Json)
    requires !value.Obj?
    ensures Leaves(OneFact(path, value), "") == [Leaf(path, value)]
    ensures ByPath([Leaf(path, value)]) == map[path := value]
  {
    var entries := [Entry(path, value)];
    assert entries[1..] == [] && Extend("", path) == path;
    assert LeavesOf(entries, "") == Leaves(value, path) + LeavesOf([], "");
    assert [Leaf(path, value)][..0] == [];
  }

  /** A candidate that reports the given facts and nothing else. */
  function Reporting(facts: Json): Json {
    Obj([Entry("parsed", Obj([Entry("facts", facts)]))])
  }

  lemma ReportingTells(facts: Json)
    requires facts.Obj?
    ensures var parsed := Field(Reporting(facts), "parsed");
      parsed.Some? && parsed.value.Obj? && ReportedFacts(parsed.value) == facts
  {
  }

  /** The two lists of a verdict on a candidate that is assessed. */
  lemma VerdictLists(candidate: Json, verification: Json, expected: Expected, le: Collation)
    requires Field(candidate, "parsed").Some? && Field(candidate, "parsed").value.Obj?
    ensures var v, fs, es := Assess(candidate, verification, expected, le), Leaves(Told(candidate), ""), Leaves(expected.facts, "");
      && v.missingOrIncorrectFacts == Missing(es, ByPath(fs), le)
      && v.unsupportedClaims == Unsupported(fs, ByPath(es), le)
  {
  }

  lemma OneLeaf(leaf: Leaf, m: map<string, Json>, le: Collation)
    requires leaf.path in m
    ensures Missing([leaf], m, le) == if Stable(m[leaf.path], le) == Stable(leaf.value, le) then [] else [leaf.path]
    ensures leaf.value != Null ==> Unsupported([leaf], m, le) == Missing([leaf], m, le)
  {
    assert [leaf][1..] == [];
  }

  /** One reported fact is unsupported exactly when the expected facts show another text at its path. */
  lemma OneReported(path: string, value: Json, verification: Json, expected: Expected, shown: Json, le: Collation)
    requires !value.Obj? && value != Null && Shows(expected.facts, path, shown)
    ensures Assess(Reporting(OneFact(path, value)), verification, expected, le).unsupportedClaims
         == if Stable(shown, le) == Stable(value, le) then [] else [path]
  {
    OneFactLeaves(path, value);
    ReportingTells(OneFact(path, value));
    VerdictLists(Reporting(OneFact(path, value)), verification, expected, le);
    OneLeaf(Leaf(path, value), ByPath(Leaves(expected.facts, "")), le);
  }

  /** One expected fact is missing exactly when the reported facts show another text at its path. */
  lemma OneExpected(candidate: Json, verification: Json, path: string, value: Json, shown: Json, le: Collation)
    requires !value.Obj? && Shows(Told(candidate), path, shown)
    requires Field(candidate, "parsed").Some? && Field(candidate, "parsed").value.Obj?
    ensures Assess(candidate, verification, Expected("", OneFact(path, value), [], []), le).missingOrIncorrectFacts
         == if Stable(shown, le) == Stable(value, le) then [] else [path]
  {
    OneFactLeaves(path, value);
    VerdictLists(candidate, verification, Expected("", OneFact(path, value), [], []), le);
    OneLeaf(Leaf(path, value), ByPath(Leaves(Told(candidate), "")), le);
  }

  /** No candidate's verdict depends on how the expected facts list their keys. */
  ghost predicate ExpectedOrderFree(verification: Json, expected: Expected, le: Collation) {
    forall candidate, facts' :: WellFormed(facts') && Same(expected.facts, facts') ==>
      SameVerdict(Assess(candidate, verification, expected, le),
                  Assess(candidate, verification, expected.(facts := facts'), le))
  }

  /**
    The exact condition on expected facts: their key order plays no part in any verdict just when
    leaves of one path print the same text and no leaf holds tied keys inside its value.
   */
  lemma ExpectedOrderExactly(verification: Json, expected: Expected, le: Collation)
    requires Preorder(le) && WellFormed(expected.facts)
    ensures Steady(Leaves(expected.facts, ""), le) <==> ExpectedOrderFree(verification, expected, le)
  {
    if Steady(Leaves(expected.facts, ""), le) {
      forall candidate, facts' | WellFormed(facts') && Same(expected.facts, facts')
        ensures SameVerdict(Assess(candidate, verification, expected, le),
                            Assess(candidate, verification, expected.(facts := facts'), le))
      {
        ExpectedReordered(candidate, verification, expected, facts', le);
      }
    } else {
      var path, a, b, v1, v2 := TwoOrders(expected.facts, le);
      var value := if a == Null then b else a;
      var candidate := Reporting(OneFact(path, value));
      OneReported(path, value, verification, expected.(facts := v1), a, le);
      OneReported(path, value, verification, expected.(facts := v2), b, le);
      if ExpectedOrderFree(verification, expected, le) {
        var c, c1, c2 := Assess(candidate, verification, expected, le),
          Assess(candidate, verification, expected.(facts := v1), le), Assess(candidate, verification, expected.(facts := v2), le);
        assert SameVerdict(c, c1) && SameVerdict(c, c2);
        NotBoth(c1.unsupportedClaims, c2.unsupportedClaims, path);
      }
    }
  }

  lemma NotBoth(xs: seq<string>, ys: seq<string>, path: string)
    requires (xs == [] && ys == [path]) || (xs == [path] && ys == [])
    ensures multiset(xs) != multiset(ys)
  {
    assert |multiset(xs)| == |xs| && |multiset(ys)| == |ys|;
  }

  lemma Replaced(v: Json, key: string, value: Json) returns (w: Json)
    requires WellFormed(v) && WellFormed(value) && Field(v, key).Some? && Same(Field(v, key).value, value)
    ensures WellFormed(w) && Same(v, w) && Field(w, key) == Some(value)
  {
    var i :| 0 <= i < |v.entries| && v.entries[i] == Entry(key, Field(v, key).value);
    MovedLastSame(v.entries, i, value);
    var moved := MovedLast(v.entries, i, value);
    w := Obj(moved);
    assert moved[|moved| - 1] == Entry(key, value);
    var k :| 0 <= k < |moved| && moved[k] == Entry(key, Lookup(moved, key).value);
    assert k == |moved| - 1;
  }

  /** A candidate's facts can be listed in any other order. */
  lemma Retold(candidate: Json, facts: Json) returns (candidate': Json)
    requires WellFormed(candidate) && WellFormed(facts) && Same(Told(candidate), facts)
    requires Leaves(Told(candidate), "") != []
    ensures WellFormed(candidate') && Same(candidate, candidate') && Told(candidate') == facts
    ensures Field(candidate', "parsed").Some? && Field(candidate', "parsed").value.Obj?
  {
    SameReflexive(candidate);
    FieldSame(candidate, candidate, "parsed");
    var parsed := Field(candidate, "parsed").value;
    SameReflexive(parsed);
    FieldSame(parsed, parsed, "facts");
    var output := Replaced(parsed, "facts", facts);
    candidate' := Replaced(candidate, "parsed", output);
  }

  /** No verdict on the candidate depends on how it lists its keys. */
  ghost predicate CandidateOrderFree(candidate: Json, verification: Json, le: Collation) {
    forall candidate', expected :: WellFormed(candidate') && Same(candidate, candidate') ==>
      SameVerdict(Assess(candidate, verification, expected, le), Assess(candidate', verification, expected, le))
  }

  /**
    The exact condition on a candidate: its key order plays no part in any verdict just when reported
    leaves of one path print the same text and no reported leaf holds tied keys inside its value.
   */
  lemma CandidateOrderExactly(candidate: Json, verification: Json, le: Collation)
    requires Preorder(le) && WellFormed(candidate)
    ensures Steady(Leaves(Told(candidate), ""), le) <==> CandidateOrderFree(candidate, verification, le)
  {
    var told := Told(candidate);
    if Steady(Leaves(told, ""), le) {
      forall candidate', expected | WellFormed(candidate') && Same(candidate, candidate')
        ensures SameVerdict(Assess(candidate, verification, expected, le), Assess(candidate', verification, expected, le))
      {
        CandidateReordered(candidate, candidate', verification, expected, le);
      }
    } else {
      ToldWellFormed(candidate);
      var path, a, b, v1, v2 := TwoOrders(told, le);
      var candidate1 := Retold(candidate, v1);
      var candidate2 := Retold(candidate, v2);
      var expected := Expected("", OneFact(path, a), [], []);
      OneExpected(candidate1, verification, path, a, a, le);
      OneExpected(candidate2, verification, path, a, b, le);
      if CandidateOrderFree(candidate, verification, le) {
        var c, c1, c2 := Assess(candidate, verification, expected, le),
          Assess(candidate1, verification, expected, le), Assess(candidate2, verification, expected, le);
        assert SameVerdict(c, c1) && SameVerdict(c, c2);
        NotBoth(c1.missingOrIncorrectFacts, c2.missingOrIncorrectFacts, path);
      }
    }
  }

  lemma ToldWellFormed(candidate: Json)
    requires WellFormed(candidate)
    ensures WellFormed(Told(candidate))
  {
    SameReflexive(candidate);
    FieldSame(candidate, candidate, "parsed");
    if Field(candidate, "parsed").Some? {
      var parsed := Field(candidate, "parsed").value;
      SameReflexive(parsed);
      FieldSame(parsed, parsed, "facts");
    }
  }

  // ------------------------------------------------------- dotted keys, shown

  /** `{"a.b": 1, "a": {"b": 2}}`, a dotted key beside the nesting it mimics. */
  function DottedFirst(): Json {
    Obj([Entry("a.b", Num(1)), Entry("a", Obj([Entry("b", Num(2))]))])
  }

  function DottedLast(): Json {
    Obj([Entry("a", Obj([Entry("b", Num(2))])), Entry("a.b", Num(1))])
  }

  lemma DottedLeaves()
    ensures Leaves(DottedFirst(), "") == [Leaf("a.b", Num(1)), Leaf("a.b", Num(2))]
    ensures Leaves(DottedLast(), "") == [Leaf("a.b", Num(2)), Leaf("a.b", Num(1))]
    ensures Same(DottedFirst(), DottedLast())
  {
    var inner := [Entry("b", Num(2))];
    var p, q := Entry("a.b", Num(1)), Entry("a", Obj(inner));
    assert inner[1..] == [] && [p, q][1..] == [q] && [q, p][1..] == [p] && [q][1..] == [] && [p][1..] == [];
    assert "a" + "." + "b" == "a.b";
    assert LeavesOf(inner, "a") == [Leaf("a.b", Num(2))];
    assert Leaves(q.value, "a") == [Leaf("a.b", Num(2))];
    assert LeavesOf([q], "") == [Leaf("a.b", Num(2))];
    assert LeavesOf([p], "") == [Leaf("a.b", Num(1))];
    assert p in [q, p] && q in [q, p] && p in [p, q] && q in [p, q];
    assert KeySet([p, q]) == {"a.b", "a"} == KeySet([q, p]);
    assert p.key[|p.key| - 1] == 'b' && q.key[|q.key| - 1] == 'a';
  }

  lemma DottedShow()
    ensures Shows(DottedFirst(), "a.b", Num(2)) && Shows(DottedLast(), "a.b", Num(1))
  {
    DottedLeaves();
    var x, y := Leaf("a.b", Num(1)), Leaf("a.b", Num(2));
    assert [x, y][|[x, y]| - 1] == y && [y, x][|[y, x]| - 1] == x;
  }

  /** With a dotted key beside the nesting it mimics, one fact set reported in two orders gets two verdicts. */
  lemma DottedKeysMatter(verification: Json, le: Collation)
    ensures var first, last := Reporting(DottedFirst()), Reporting(DottedLast());
      var expected := Expected("", OneFact("a.b", Num(2)), [], []);
      && Same(DottedFirst(), DottedLast())
      && Assess(first, verification, expected, le).correctFacts == 1
      && Assess(last, verification, expected, le).correctFacts == 0
      && Assess(last, verification, expected, le).missingOrIncorrectFacts == ["a.b"]
  {
    var first, last := Reporting(DottedFirst()), Reporting(DottedLast());
    var expected := Expected("", OneFact("a.b", Num(2)), [], []);
    DottedLeaves();
    DottedShow();
    ReportingTells(DottedFirst());
    ReportingTells(DottedLast());
    OneFactLeaves("a.b", Num(2));
    OneExpected(first, verification, "a.b", Num(2), Num(2), le);
    OneExpected(last, verification, "a.b", Num(2), Num(1), le);
    StringifyInjective(Num(1), Num(2));
    CorrectPlusMissing(first, verification, expected, le);
    CorrectPlusMissing(last, verification, expected, le);
  }
}

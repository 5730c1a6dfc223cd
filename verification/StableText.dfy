/**
  The canonical text of the evidence verifier: `stable` sorts the keys of every object with
  `localeCompare` before printing it.  A collation is any total preorder on keys; it may
  collate two different keys as equal, as Unicode collation does for composed and
  decomposed forms of one letter.
 */
module StableText {
  import opened Text
  import opened Json

  /** `le(a, b)` stands for `a.localeCompare(b) <= 0`. */
  type Collation = (string, string) -> bool

  ghost predicate Preorder(le: Collation) {
    && (forall a, b :: le(a, b) || le(b, a))
    && (forall a, b, c :: le(a, b) && le(b, c) ==> le(a, c))
  }

  predicate Tied(a: string, b: string, le: Collation) {
    le(a, b) && le(b, a)
  }

  // ---------------------------------------------------------------- sorting

  function Insert(e: Entry, sorted: seq<Entry>, le: Collation): seq<Entry> {
    if sorted == [] || le(e.key, sorted[0].key) then [e] + sorted
    else [sorted[0]] + Insert(e, sorted[1..], le)
  }

  /** The entries in key order; ties keep their order, as `Array.prototype.sort` keeps them. */
  function Sort(entries: seq<Entry>, le: Collation): (r: seq<Entry>)
    ensures multiset(r) == multiset(entries)
    ensures forall e :: e in r <==> e in entries
  {
    if entries == [] then []
    else
      var rest := Sort(entries[1..], le);
      InsertPermutes(entries[0], rest, le);
      assert entries == [entries[0]] + entries[1..];
      var r := Insert(entries[0], rest, le);
      assert forall e :: e in r <==> e in multiset(r);
      assert forall e :: e in entries <==> e in multiset(entries);
      r
  }

  lemma {:induction false} InsertPermutes(e: Entry, sorted: seq<Entry>, le: Collation)
    ensures multiset(Insert(e, sorted, le)) == multiset([e]) + multiset(sorted)
  {
    if sorted != [] && !le(e.key, sorted[0].key) {
      InsertPermutes(e, sorted[1..], le);
      assert sorted == [sorted[0]] + sorted[1..];
    }
  }

  ghost predicate Sorted(entries: seq<Entry>, le: Collation) {
    forall i, j :: 0 <= i < j < |entries| ==> le(entries[i].key, entries[j].key)
  }

  lemma {:induction false} InsertSorted(e: Entry, sorted: seq<Entry>, le: Collation)
    requires Preorder(le) && Sorted(sorted, le)
    ensures Sorted(Insert(e, sorted, le), le)
  {
    if sorted == [] {
    } else if le(e.key, sorted[0].key) {
      forall i | 0 <= i < |sorted| ensures le(e.key, sorted[i].key) {
        assert i > 0 ==> le(sorted[0].key, sorted[i].key);
      }
    } else {
      InsertSorted(e, sorted[1..], le);
      InsertPermutes(e, sorted[1..], le);
      var rest := Insert(e, sorted[1..], le);
      forall i | 0 <= i < |rest| ensures le(sorted[0].key, rest[i].key) {
        assert rest[i] in multiset(rest);
        assert rest[i] == e || rest[i] in sorted[1..];
      }
    }
  }

  lemma {:induction false} SortSorts(entries: seq<Entry>, le: Collation)
    requires Preorder(le)
    ensures Sorted(Sort(entries, le), le)
  {
    if entries != [] {
      SortSorts(entries[1..], le);
      InsertSorted(entries[0], Sort(entries[1..], le), le);
    }
  }

  ghost function KeySet(entries: seq<Entry>): set<string> {
    set e | e in entries :: e.key
  }

  lemma {:induction false} InsertDistinct(e: Entry, sorted: seq<Entry>, le: Collation)
    requires DistinctKeys([e] + sorted)
    ensures DistinctKeys(Insert(e, sorted, le))
  {
    if sorted != [] && !le(e.key, sorted[0].key) {
      forall i, j | 0 <= i < j < |[e] + sorted[1..]|
        ensures ([e] + sorted[1..])[i].key != ([e] + sorted[1..])[j].key
      {
        assert ([e] + sorted)[if i == 0 then 0 else i + 1] == ([e] + sorted[1..])[i];
        assert ([e] + sorted)[j + 1] == ([e] + sorted[1..])[j];
      }
      InsertDistinct(e, sorted[1..], le);
      InsertPermutes(e, sorted[1..], le);
      var rest := Insert(e, sorted[1..], le);
      forall i | 0 <= i < |rest| ensures sorted[0].key != rest[i].key {
        assert rest[i] in multiset(rest);
        assert ([e] + sorted)[1] == sorted[0];
        if rest[i] == e {
          assert ([e] + sorted)[0] == e;
        } else {
          var k :| 0 <= k < |sorted[1..]| && sorted[1..][k] == rest[i];
          assert ([e] + sorted)[k + 2] == rest[i];
        }
      }
    }
  }

  lemma {:induction false} SortDistinct(entries: seq<Entry>, le: Collation)
    requires DistinctKeys(entries)
    ensures DistinctKeys(Sort(entries, le))
  {
    if entries != [] {
      var rest := Sort(entries[1..], le);
      SortDistinct(entries[1..], le);
      forall j | 0 <= j < |rest| ensures entries[0].key != rest[j].key {
        assert rest[j] in entries[1..];
      }
      InsertDistinct(entries[0], rest, le);
    }
  }

  // ------------------------------------------------------------------- text

  /** `stable(v)`. */
  function Stable(v: Json, le: Collation): string
    decreases v, 1
  {
    match v
    case Arr(items) => "[" + Join(StableItems(items, le), ",") + "]"
    case Obj(entries) => "{" + Join(StableEntries(Sort(entries, le), le, v), ",") + "}"
    case _ => Stringify(v)
  }

  function StableItems(items: seq<Json>, le: Collation): seq<string>
    decreases items, 0
  {
    if items == [] then [] else [Stable(items[0], le)] + StableItems(items[1..], le)
  }

  function StableEntries(entries: seq<Entry>, le: Collation, ghost whole: Json): seq<string>
    requires forall e :: e in entries ==> e.value < whole
    decreases whole, 0, |entries|
  {
    if entries == [] then []
    else
      [Quote(entries[0].key) + ":" + Stable(entries[0].value, le)] + StableEntries(entries[1..], le, whole)
  }

  /** The value with the entries of every object sorted: what `stable` prints. */
  ghost function Norm(v: Json, le: Collation): Json
    decreases v, 1
  {
    match v
    case Arr(items) => Arr(seq(|items|, i requires 0 <= i < |items| => Norm(items[i], le)))
    case Obj(entries) => Obj(NormEntries(Sort(entries, le), le, v))
    case _ => v
  }

  ghost function NormEntries(entries: seq<Entry>, le: Collation, whole: Json): seq<Entry>
    requires forall e :: e in entries ==> e.value < whole
    decreases whole, 0
  {
    seq(|entries|, i requires 0 <= i < |entries| => Entry(entries[i].key, Norm(entries[i].value, le)))
  }

  lemma {:induction false} StablePrintsNorm(v: Json, le: Collation)
    ensures Stable(v, le) == Stringify(Norm(v, le))
    decreases v, 1
  {
    match v {
      case Arr(items) =>
        ItemsPrintNorm(items, le, v);
        assert Norm(v, le).items == seq(|items|, i requires 0 <= i < |items| => Norm(items[i], le));
      case Obj(entries) => EntriesPrintNorm(Sort(entries, le), le, v);
      case _ =>
    }
  }

  lemma {:induction false} ItemsPrintNorm(items: seq<Json>, le: Collation, whole: Json)
    requires forall v :: v in items ==> v < whole
    ensures StableItems(items, le) == ItemTexts(seq(|items|, i requires 0 <= i < |items| => Norm(items[i], le)))
    decreases whole, 0, |items|
  {
    if items != [] {
      assert items[0] in items && forall v :: v in items[1..] ==> v in items;
      StablePrintsNorm(items[0], le);
      ItemsPrintNorm(items[1..], le, whole);
      var all := seq(|items|, i requires 0 <= i < |items| => Norm(items[i], le));
      assert all[1..] == seq(|items[1..]|, i requires 0 <= i < |items[1..]| => Norm(items[1..][i], le));
    }
  }

  lemma {:induction false} EntriesPrintNorm(entries: seq<Entry>, le: Collation, whole: Json)
    requires forall e :: e in entries ==> e.value < whole
    ensures StableEntries(entries, le, whole) == EntryTexts(NormEntries(entries, le, whole))
    decreases whole, 0, |entries|
  {
    if entries != [] {
      StablePrintsNorm(entries[0].value, le);
      EntriesPrintNorm(entries[1..], le, whole);
      assert NormEntries(entries, le, whole)[1..] == NormEntries(entries[1..], le, whole);
    }
  }

  // ---------------------------------------------------- equal up to key order

  /** Equal up to the order of keys, in every object at every depth. */
  ghost predicate Same(v: Json, w: Json) {
    match (v, w)
    case (Arr(xs), Arr(ys)) => |xs| == |ys| && forall i :: 0 <= i < |xs| ==> Same(xs[i], ys[i])
    case (Obj(es), Obj(fs)) =>
      && KeySet(es) == KeySet(fs)
      && forall i, j :: 0 <= i < |es| && 0 <= j < |fs| && es[i].key == fs[j].key ==> Same(es[i].value, fs[j].value)
    case _ => v == w
  }

  /** No object in `v` has two keys that collate as equal. */
  ghost predicate KeysApart(v: Json, le: Collation) {
    match v
    case Arr(items) => forall i :: 0 <= i < |items| ==> KeysApart(items[i], le)
    case Obj(entries) =>
      && (forall i, j :: 0 <= i < j < |entries| ==> !Tied(entries[i].key, entries[j].key, le))
      && (forall i :: 0 <= i < |entries| ==> KeysApart(entries[i].value, le))
    case _ => true
  }

  lemma SameReversed(v: Json, w: Json)
    requires Same(v, w)
    ensures Same(w, v)
    decreases v
  {
    match (v, w) {
      case (Arr(xs), Arr(ys)) =>
        forall i | 0 <= i < |xs| { SameReversed(xs[i], ys[i]); }
      case (Obj(es), Obj(fs)) =>
        forall i, j | 0 <= i < |fs| && 0 <= j < |es| && fs[i].key == es[j].key { SameReversed(es[j].value, fs[i].value); }
      case _ =>
    }
  }

  ghost predicate Untied(entries: seq<Entry>, le: Collation) {
    forall i, j :: 0 <= i < |entries| && 0 <= j < |entries| && Tied(entries[i].key, entries[j].key, le) ==> i == j
  }

  lemma KeyAt(entries: seq<Entry>, key: string) returns (i: nat)
    requires key in KeySet(entries)
    ensures i < |entries| && entries[i].key == key
  {
    var j :| 0 <= j < |entries| && entries[j].key == key;
    i := j;
  }

  lemma NoKeys(entries: seq<Entry>)
    ensures entries == [] <==> KeySet(entries) == {}
  {
    if entries != [] {
      assert entries[0].key in KeySet(entries);
    }
  }

  lemma FirstAlike(xs: seq<Entry>, ys: seq<Entry>, le: Collation)
    requires xs != [] && ys != [] && Sorted(xs, le) && Sorted(ys, le) && Untied(xs, le)
    requires KeySet(xs) == KeySet(ys)
    ensures xs[0].key == ys[0].key
  {
    assert xs[0].key in KeySet(xs) && ys[0].key in KeySet(ys);
    var j := KeyAt(ys, xs[0].key);
    var i := KeyAt(xs, ys[0].key);
    var first, other := xs[0].key, xs[i].key;
    assert i > 0 && j > 0 ==> Tied(first, other, le);
  }

  /** Two sorted lists of untied keys with the same key set list the keys in the same order. */
  lemma {:induction false} SortedAlike(xs: seq<Entry>, ys: seq<Entry>, le: Collation)
    requires Sorted(xs, le) && Sorted(ys, le) && DistinctKeys(xs) && DistinctKeys(ys)
    requires KeySet(xs) == KeySet(ys) && Untied(xs, le)
    ensures |xs| == |ys| && forall i :: 0 <= i < |xs| ==> xs[i].key == ys[i].key
  {
    NoKeys(xs);
    NoKeys(ys);
    if xs != [] && ys != [] {
      FirstAlike(xs, ys, le);
      TailKeys(xs);
      TailKeys(ys);
      SortedAlike(xs[1..], ys[1..], le);
    }
  }

  lemma TailKeys(xs: seq<Entry>)
    requires xs != [] && DistinctKeys(xs)
    ensures KeySet(xs[1..]) == KeySet(xs) - {xs[0].key}
  {
    forall k | k in KeySet(xs) - {xs[0].key} ensures k in KeySet(xs[1..]) {
      var i :| 0 <= i < |xs| && xs[i].key == k;
      assert xs[1..][i - 1] == xs[i];
    }
  }

  lemma SortKeySet(entries: seq<Entry>, le: Collation)
    ensures KeySet(Sort(entries, le)) == KeySet(entries)
  {
  }

  // ------------------------------------------------------------- canonicity

  /** Equal up to key order, and no tie to break: the sorted values coincide. */
  lemma {:induction false} SameNorm(v: Json, w: Json, le: Collation)
    requires Preorder(le) && WellFormed(v) && WellFormed(w) && KeysApart(v, le) && Same(v, w)
    ensures Norm(v, le) == Norm(w, le)
    decreases v
  {
    match (v, w) {
      case (Arr(xs), Arr(ys)) =>
        forall i | 0 <= i < |xs| ensures Norm(xs[i], le) == Norm(ys[i], le) { SameNorm(xs[i], ys[i], le); }
      case (Obj(es), Obj(fs)) =>
        var p, q := Sort(es, le), Sort(fs, le);
        SortsAlike(es, fs, le);
        forall i | 0 <= i < |p| ensures Norm(p[i].value, le) == Norm(q[i].value, le) {
          assert p[i] in es && q[i] in fs;
          var a :| 0 <= a < |es| && es[a] == p[i];
          var b :| 0 <= b < |fs| && fs[b] == q[i];
          SameNorm(es[a].value, fs[b].value, le);
        }
        assert NormEntries(p, le, v) == NormEntries(q, le, w);
      case _ =>
    }
  }

  lemma SortsAlike(es: seq<Entry>, fs: seq<Entry>, le: Collation)
    requires Preorder(le) && DistinctKeys(es) && DistinctKeys(fs) && KeySet(es) == KeySet(fs)
    requires forall i, j :: 0 <= i < j < |es| ==> !Tied(es[i].key, es[j].key, le)
    ensures var p, q := Sort(es, le), Sort(fs, le);
      |p| == |q| && forall i :: 0 <= i < |p| ==> p[i].key == q[i].key
  {
    var p, q := Sort(es, le), Sort(fs, le);
    SortSorts(es, le);
    SortSorts(fs, le);
    SortDistinct(es, le);
    SortDistinct(fs, le);
    SortKeySet(es, le);
    SortKeySet(fs, le);
    forall i, j | 0 <= i < |p| && 0 <= j < |p| && Tied(p[i].key, p[j].key, le) ensures i == j {
      assert p[i] in es && p[j] in es;
      var a :| 0 <= a < |es| && es[a] == p[i];
      var b :| 0 <= b < |es| && es[b] == p[j];
      assert Tied(es[a].key, es[b].key, le) && Tied(es[b].key, es[a].key, le);
      assert a == b;
    }
    SortedAlike(p, q, le);
  }

  lemma SameKeySets(xs: seq<Entry>, ys: seq<Entry>)
    requires |xs| == |ys| && forall i :: 0 <= i < |xs| ==> xs[i].key == ys[i].key
    ensures KeySet(xs) == KeySet(ys)
  {
    forall k | k in KeySet(xs) ensures k in KeySet(ys) {
      var i :| 0 <= i < |xs| && xs[i].key == k;
      assert ys[i].key == k;
    }
    forall k | k in KeySet(ys) ensures k in KeySet(xs) {
      var i :| 0 <= i < |ys| && ys[i].key == k;
      assert xs[i].key == k;
    }
  }

  ghost function Position(entries: seq<Entry>, e: Entry): (i: nat)
    requires e in entries
    ensures i < |entries| && entries[i] == e
  {
    var i :| 0 <= i < |entries| && entries[i] == e; i
  }

  lemma NormAligned(v: Json, w: Json, le: Collation)
    requires v.Obj? && w.Obj? && Norm(v, le) == Norm(w, le)
    ensures var p, q := Sort(v.entries, le), Sort(w.entries, le);
      && |p| == |q|
      && forall i :: 0 <= i < |p| ==> p[i].key == q[i].key && Norm(p[i].value, le) == Norm(q[i].value, le)
  {
    var p, q := Sort(v.entries, le), Sort(w.entries, le);
    var np, nq := NormEntries(p, le, v), NormEntries(q, le, w);
    assert Norm(v, le).entries == np && Norm(w, le).entries == nq;
    assert |np| == |p| && |nq| == |q|;
    forall i | 0 <= i < |p| ensures p[i].key == q[i].key && Norm(p[i].value, le) == Norm(q[i].value, le) {
      assert np[i] == Entry(p[i].key, Norm(p[i].value, le));
      assert nq[i] == Entry(q[i].key, Norm(q[i].value, le));
    }
  }

  /** Sorting forgets nothing but the key order. */
  lemma {:induction false} NormSame(v: Json, w: Json, le: Collation)
    requires WellFormed(v) && WellFormed(w) && Norm(v, le) == Norm(w, le)
    ensures Same(v, w)
    decreases v
  {
    match (v, w) {
      case (Arr(xs), Arr(ys)) =>
        var p, q := Norm(v, le).items, Norm(w, le).items;
        assert |p| == |xs| && |q| == |ys|;
        forall i | 0 <= i < |xs| ensures Same(xs[i], ys[i]) {
          assert p[i] == Norm(xs[i], le) && q[i] == Norm(ys[i], le);
          NormSame(xs[i], ys[i], le);
        }
      case (Obj(es), Obj(fs)) =>
        NormAligned(v, w, le);
        NormSameEntries(es, fs, v, le);
      case _ =>
    }
  }

  lemma {:induction false} NormSameEntries(es: seq<Entry>, fs: seq<Entry>, v: Json, le: Collation)
    requires v == Obj(es) && WellFormed(v) && WellFormed(Obj(fs))
    requires var p, q := Sort(es, le), Sort(fs, le);
      && |p| == |q|
      && forall i :: 0 <= i < |p| ==> p[i].key == q[i].key && Norm(p[i].value, le) == Norm(q[i].value, le)
    ensures Same(v, Obj(fs))
    decreases v, 0
  {
    var p, q := Sort(es, le), Sort(fs, le);
    SortDistinct(fs, le);
    SameKeySets(p, q);
    SortKeySet(es, le);
    SortKeySet(fs, le);
    forall i, j | 0 <= i < |es| && 0 <= j < |fs| && es[i].key == fs[j].key ensures Same(es[i].value, fs[j].value) {
      var a := Position(p, es[i]);
      var b := Position(q, fs[j]);
      assert q[a].key == p[a].key == q[b].key;
      assert a == b;
      NormSame(es[i].value, fs[j].value, le);
    }
  }

  /** Whatever the collation, a text belongs to one value up to key order. */
  lemma StableDecodable(v: Json, w: Json, le: Collation)
    requires WellFormed(v) && WellFormed(w) && Stable(v, le) == Stable(w, le)
    ensures Same(v, w)
  {
    StablePrintsNorm(v, le);
    StablePrintsNorm(w, le);
    StringifyInjective(Norm(v, le), Norm(w, le));
    NormSame(v, w, le);
  }

  /** `stable` is a canonical form on every value without tied keys. */
  lemma StableCanonical(v: Json, w: Json, le: Collation)
    requires Preorder(le) && WellFormed(v) && WellFormed(w) && KeysApart(v, le)
    ensures Stable(v, le) == Stable(w, le) <==> Same(v, w)
  {
    if Same(v, w) {
      SameNorm(v, w, le);
      StablePrintsNorm(v, le);
      StablePrintsNorm(w, le);
    }
    if Stable(v, le) == Stable(w, le) {
      StableDecodable(v, w, le);
    }
  }

  // ------------------------------------------- ties: where canonicity fails

  /** The value with the entries of every object listed backwards. */
  ghost function Backwards(v: Json): Json
    decreases v, 1
  {
    match v
    case Arr(items) => Arr(seq(|items|, i requires 0 <= i < |items| => Backwards(items[i])))
    case Obj(entries) => Obj(BackwardsEntries(entries))
    case _ => v
  }

  ghost function BackwardsEntries(entries: seq<Entry>): (r: seq<Entry>)
    ensures |r| == |entries|
    decreases entries, 0
  {
    seq(|entries|, i requires 0 <= i < |entries| =>
      var e := entries[|entries| - 1 - i]; Entry(e.key, Backwards(e.value)))
  }

  lemma BackAt(entries: seq<Entry>, i: nat)
    requires i < |entries|
    ensures BackwardsEntries(entries)[|entries| - 1 - i] == Entry(entries[i].key, Backwards(entries[i].value))
  {
  }

  lemma {:induction false} BackwardsWellFormed(v: Json)
    requires WellFormed(v)
    ensures WellFormed(Backwards(v))
    decreases v
  {
    match v {
      case Arr(items) =>
        forall i | 0 <= i < |items| ensures WellFormed(Backwards(items[i])) { BackwardsWellFormed(items[i]); }
      case Obj(es) =>
        var fs := BackwardsEntries(es);
        forall i | 0 <= i < |fs| ensures WellFormed(fs[i].value) && fs[i].key == es[|es| - 1 - i].key {
          BackwardsWellFormed(es[|es| - 1 - i].value);
        }
      case _ =>
    }
  }

  lemma BackwardsKeys(es: seq<Entry>)
    ensures KeySet(BackwardsEntries(es)) == KeySet(es)
  {
    var fs := BackwardsEntries(es);
    forall k | k in KeySet(es) ensures k in KeySet(fs) {
      var i :| 0 <= i < |es| && es[i].key == k;
      BackAt(es, i);
    }
    forall k | k in KeySet(fs) ensures k in KeySet(es) {
      var i :| 0 <= i < |fs| && fs[i].key == k;
      assert es[|es| - 1 - i].key == k;
    }
  }

  lemma {:induction false} BackwardsSame(v: Json)
    requires WellFormed(v)
    ensures Same(v, Backwards(v))
    decreases v
  {
    match v {
      case Arr(items) =>
        forall i | 0 <= i < |items| ensures Same(items[i], Backwards(items[i])) { BackwardsSame(items[i]); }
      case Obj(es) =>
        var fs := BackwardsEntries(es);
        BackwardsKeys(es);
        forall i, j | 0 <= i < |es| && 0 <= j < |fs| && es[i].key == fs[j].key ensures Same(es[i].value, fs[j].value) {
          assert fs[j] == Entry(es[|es| - 1 - j].key, Backwards(es[|es| - 1 - j].value));
          assert i == |es| - 1 - j;
          BackwardsSame(es[i].value);
        }
      case _ =>
    }
  }

  ghost predicate Before(xs: seq<Entry>, x: Entry, y: Entry) {
    exists a, b :: 0 <= a < b < |xs| && xs[a] == x && xs[b] == y
  }

  lemma BeforeInTail(x0: Entry, xs: seq<Entry>, x: Entry, y: Entry)
    requires Before(xs, x, y)
    ensures Before([x0] + xs, x, y)
  {
    var a, b :| 0 <= a < b < |xs| && xs[a] == x && xs[b] == y;
    var zs := [x0] + xs;
    assert zs[a + 1] == x && zs[b + 1] == y;
  }

  lemma BeforeFirst(x: Entry, xs: seq<Entry>, y: Entry)
    requires y in xs
    ensures Before([x] + xs, x, y)
  {
    var b := Position(xs, y);
    var zs := [x] + xs;
    assert zs[0] == x && zs[b + 1] == y;
  }

  lemma {:induction false} InsertGoesBefore(e: Entry, sorted: seq<Entry>, y: Entry, le: Collation)
    requires y in sorted && le(e.key, y.key)
    ensures Before(Insert(e, sorted, le), e, y)
  {
    if le(e.key, sorted[0].key) {
      BeforeFirst(e, sorted, y);
    } else {
      assert y in sorted[1..];
      InsertGoesBefore(e, sorted[1..], y, le);
      BeforeInTail(sorted[0], Insert(e, sorted[1..], le), e, y);
    }
  }

  lemma {:induction false} InsertKeepsBefore(e: Entry, sorted: seq<Entry>, x: Entry, y: Entry, le: Collation)
    requires Before(sorted, x, y)
    ensures Before(Insert(e, sorted, le), x, y)
  {
    if le(e.key, sorted[0].key) {
      BeforeInTail(e, sorted, x, y);
    } else {
      var a, b :| 0 <= a < b < |sorted| && sorted[a] == x && sorted[b] == y;
      var rest := sorted[1..];
      assert rest[b - 1] == y;
      if a == 0 {
        InsertPermutes(e, rest, le);
        assert y in multiset(Insert(e, rest, le));
        BeforeFirst(x, Insert(e, rest, le), y);
      } else {
        assert rest[a - 1] == x;
        InsertKeepsBefore(e, rest, x, y, le);
        BeforeInTail(sorted[0], Insert(e, rest, le), x, y);
      }
    }
  }

  /** The sort is stable: an entry stays before the later entries that do not collate before it. */
  lemma {:induction false} SortKeepsOrder(entries: seq<Entry>, i: nat, j: nat, le: Collation)
    requires i < j < |entries| && le(entries[i].key, entries[j].key)
    ensures Before(Sort(entries, le), entries[i], entries[j])
  {
    var rest := entries[1..];
    assert rest[j - 1] == entries[j];
    if i == 0 {
      InsertGoesBefore(entries[0], Sort(rest, le), entries[j], le);
    } else {
      assert rest[i - 1] == entries[i];
      SortKeepsOrder(rest, i - 1, j - 1, le);
      InsertKeepsBefore(entries[0], Sort(rest, le), entries[i], entries[j], le);
    }
  }

  /** The sorted object holds every entry once, its value sorted too. */
  lemma NormHolds(v: Json, e: Entry, le: Collation) returns (a: nat)
    requires v.Obj? && WellFormed(v) && e in v.entries
    ensures DistinctKeys(Norm(v, le).entries)
    ensures a < |Norm(v, le).entries| && Norm(v, le).entries[a] == Entry(e.key, Norm(e.value, le))
  {
    var p := Sort(v.entries, le);
    var np := NormEntries(p, le, v);
    SortDistinct(v.entries, le);
    assert forall i :: 0 <= i < |np| ==> np[i].key == p[i].key;
    assert forall i, j :: 0 <= i < j < |p| ==> p[i].key != p[j].key;
    a := Position(p, e);
  }

  lemma NormBefore(v: Json, i: nat, j: nat, le: Collation) returns (a: nat, b: nat)
    requires v.Obj? && WellFormed(v) && i < j < |v.entries| && le(v.entries[i].key, v.entries[j].key)
    ensures a < b < |Norm(v, le).entries|
    ensures Norm(v, le).entries[a].key == v.entries[i].key && Norm(v, le).entries[b].key == v.entries[j].key
  {
    var p := Sort(v.entries, le);
    SortKeepsOrder(v.entries, i, j, le);
    a, b :| 0 <= a < b < |p| && p[a] == v.entries[i] && p[b] == v.entries[j];
    var np := NormEntries(p, le, v);
    assert np[a].key == p[a].key && np[b].key == p[b].key;
  }

  /** Listing two tied keys the other way round changes the sorted value. */
  lemma TieShows(v: Json, w: Json, i: nat, j: nat, k: nat, l: nat, le: Collation)
    requires v.Obj? && WellFormed(v) && w.Obj? && WellFormed(w)
    requires i < j < |v.entries| && k < l < |w.entries| && Tied(v.entries[i].key, v.entries[j].key, le)
    requires w.entries[k].key == v.entries[j].key && w.entries[l].key == v.entries[i].key
    ensures Norm(v, le) != Norm(w, le)
  {
    var a, b := NormBefore(v, i, j, le);
    var c, d := NormBefore(w, k, l, le);
    var _ := NormHolds(v, v.entries[i], le);
    assert Norm(v, le) == Norm(w, le) ==> c == b && d == a;
  }

  lemma ChildShows(v: Json, w: Json, e: Entry, f: Entry, le: Collation)
    requires v.Obj? && WellFormed(v) && w.Obj? && WellFormed(w) && e in v.entries && f in w.entries
    requires e.key == f.key && Norm(e.value, le) != Norm(f.value, le)
    ensures Norm(v, le) != Norm(w, le)
  {
    var a := NormHolds(v, e, le);
    var b := NormHolds(w, f, le);
    assert Norm(v, le) == Norm(w, le) ==> a == b;
  }

  lemma TieShowsBackwards(v: Json, i: nat, j: nat, le: Collation)
    requires v.Obj? && WellFormed(v) && i < j < |v.entries| && Tied(v.entries[i].key, v.entries[j].key, le)
    ensures Norm(v, le) != Norm(Backwards(v), le)
  {
    BackwardsWellFormed(v);
    BackAt(v.entries, i);
    BackAt(v.entries, j);
    var n := |v.entries|;
    TieShows(v, Backwards(v), i, j, n - 1 - j, n - 1 - i, le);
  }

  lemma ChildShowsBackwards(v: Json, e: Entry, le: Collation)
    requires v.Obj? && WellFormed(v) && e in v.entries && Norm(e.value, le) != Norm(Backwards(e.value), le)
    ensures Norm(v, le) != Norm(Backwards(v), le)
  {
    BackwardsWellFormed(v);
    BackAt(v.entries, Position(v.entries, e));
    ChildShows(v, Backwards(v), e, Entry(e.key, Backwards(e.value)), le);
  }

  lemma ItemShowsBackwards(v: Json, i: nat, le: Collation)
    requires v.Arr? && i < |v.items| && Norm(v.items[i], le) != Norm(Backwards(v.items[i]), le)
    ensures Norm(v, le) != Norm(Backwards(v), le)
  {
    var p, q := Norm(v, le).items, Norm(Backwards(v), le).items;
    assert p[i] == Norm(v.items[i], le);
    assert Backwards(v).items[i] == Backwards(v.items[i]);
    assert q[i] == Norm(Backwards(v.items[i]), le);
  }

  lemma {:induction false} TiesShow(v: Json, le: Collation)
    requires WellFormed(v) && !KeysApart(v, le)
    ensures Norm(v, le) != Norm(Backwards(v), le)
    decreases v
  {
    match v {
      case Arr(items) =>
        var i :| 0 <= i < |items| && !KeysApart(items[i], le);
        TiesShow(items[i], le);
        ItemShowsBackwards(v, i, le);
      case Obj(entries) =>
        if i, j :| 0 <= i < j < |entries| && Tied(entries[i].key, entries[j].key, le) {
          TieShowsBackwards(v, i, j, le);
        } else {
          var i :| 0 <= i < |entries| && !KeysApart(entries[i].value, le);
          TiesShow(entries[i].value, le);
          ChildShowsBackwards(v, entries[i], le);
        }
    }
  }

  /** The exact condition: `stable` ignores the key order of a value just when none of its objects has tied keys. */
  lemma StableCanonicalExactly(v: Json, le: Collation)
    requires Preorder(le) && WellFormed(v)
    ensures KeysApart(v, le) <==> forall w :: WellFormed(w) && Same(v, w) ==> Stable(w, le) == Stable(v, le)
  {
    if KeysApart(v, le) {
      forall w | WellFormed(w) && Same(v, w) ensures Stable(w, le) == Stable(v, le) {
        StableCanonical(v, w, le);
      }
    } else {
      var w := Backwards(v);
      BackwardsWellFormed(v);
      BackwardsSame(v);
      TiesShow(v, le);
      StablePrintsNorm(v, le);
      StablePrintsNorm(w, le);
      StringifyInjective(Norm(v, le), Norm(w, le));
      assert Stable(w, le) != Stable(v, le);
    }
  }

  function TwoKeys(a: string, b: string): Json {
    Obj([Entry(a, Null), Entry(b, Null)])
  }

  lemma TwoKeysSame(a: string, b: string)
    requires a != b
    ensures WellFormed(TwoKeys(a, b)) && Same(TwoKeys(a, b), TwoKeys(b, a))
  {
    var es, fs := TwoKeys(a, b).entries, TwoKeys(b, a).entries;
    assert es[0].key == a && es[1].key == b && fs[0].key == b && fs[1].key == a;
    assert KeySet(es) == {a, b} == KeySet(fs);
  }

  /** A concrete tie: two keys the collation does not tell apart, listed in either order, print differently. */
  lemma TiedKeysPrintDifferently(a: string, b: string, le: Collation)
    requires a != b && Tied(a, b, le)
    ensures Same(TwoKeys(a, b), TwoKeys(b, a)) && Stable(TwoKeys(a, b), le) != Stable(TwoKeys(b, a), le)
  {
    var v, w := TwoKeys(a, b), TwoKeys(b, a);
    TwoKeysSame(a, b);
    TwoKeysSame(b, a);
    TieShows(v, w, 0, 1, 0, 1, le);
    StablePrintsNorm(v, le);
    StablePrintsNorm(w, le);
    StringifyInjective(Norm(v, le), Norm(w, le));
  }
}

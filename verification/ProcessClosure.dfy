/**
  Memory of the browser's process tree: the descendants of a process, found by sweeping the
  process table until nothing changes, and the sum over the browser processes among them.
 */
module ProcessClosure {

  datatype Row = Row(pid: int, ppid: int, rss: int, comm: string)

  /** `path` leads from parent to child through rows of the table. */
  ghost predicate Lineage(rows: seq<Row>, path: seq<int>) {
    && path != []
    && forall i :: 0 <= i < |path| - 1 ==> ChildOf(rows, path[i], path[i + 1])
  }

  ghost predicate ChildOf(rows: seq<Row>, parent: int, child: int) {
    exists k :: 0 <= k < |rows| && rows[k].ppid == parent && rows[k].pid == child
  }

  /** `pid` is the root or descends from it. */
  ghost predicate Descends(rows: seq<Row>, root: int, pid: int) {
    exists path :: Lineage(rows, path) && path[0] == root && path[|path| - 1] == pid
  }

  /** Contains the root and, with every parent, its children. */
  ghost predicate Closed(rows: seq<Row>, root: int, s: set<int>) {
    root in s && forall k :: 0 <= k < |rows| && rows[k].ppid in s ==> rows[k].pid in s
  }

  lemma {:induction false} LineageStaysInside(rows: seq<Row>, root: int, s: set<int>, path: seq<int>)
    requires Closed(rows, root, s) && Lineage(rows, path) && path[0] == root
    ensures path[|path| - 1] in s
  {
    var n := |path| - 1;
    if n > 0 {
      LineageStaysInside(rows, root, s, path[..n]);
      assert ChildOf(rows, path[n - 1], path[n]);
    }
  }

  /** The descendants are the least set that contains the root and is closed under parent to child. */
  lemma DescendantsAreLeast(rows: seq<Row>, root: int, children: set<int>, s: set<int>)
    requires forall pid :: pid in children ==> Descends(rows, root, pid)
    requires Closed(rows, root, s)
    ensures children <= s
  {
    forall pid | pid in children ensures pid in s {
      var path :| Lineage(rows, path) && path[0] == root && path[|path| - 1] == pid;
      LineageStaysInside(rows, root, s, path);
    }
  }

  lemma DescendsToChild(rows: seq<Row>, root: int, k: nat)
    requires k < |rows| && Descends(rows, root, rows[k].ppid)
    ensures Descends(rows, root, rows[k].pid)
  {
    var path :| Lineage(rows, path) && path[0] == root && path[|path| - 1] == rows[k].ppid;
    var longer := path + [rows[k].pid];
    forall i | 0 <= i < |longer| - 1 ensures ChildOf(rows, longer[i], longer[i + 1]) {
      if i < |path| - 1 {
        assert longer[i] == path[i] && longer[i + 1] == path[i + 1];
      }
    }
    assert Lineage(rows, longer) && longer[0] == root && longer[|longer| - 1] == rows[k].pid;
  }

  ghost function Pids(rows: seq<Row>): set<int> {
    set k | 0 <= k < |rows| :: rows[k].pid
  }

  /** The loop over the table: it ends on every table, parent cycles included, with exactly the descendants. */
  method Descendants(rows: seq<Row>, root: int) returns (children: set<int>)
    ensures forall pid :: pid in children <==> Descends(rows, root, pid)
    ensures Closed(rows, root, children) && forall s :: Closed(rows, root, s) ==> children <= s
  {
    assert Lineage(rows, [root]);
    children := {root};
    var changed := true;
    ghost var everyone := Pids(rows) + {root};
    while changed
      invariant root in children && children <= everyone
      invariant forall pid :: pid in children ==> Descends(rows, root, pid)
      invariant !changed ==> Closed(rows, root, children)
      decreases everyone - children, changed
    {
      changed := false;
      ghost var before := children;
      var i := 0;
      while i < |rows|
        invariant i <= |rows| && root in children && children <= everyone
        invariant forall pid :: pid in children ==> Descends(rows, root, pid)
        invariant before <= children && (if changed then before < children else children == before)
        invariant !changed ==> forall k :: 0 <= k < i && rows[k].ppid in children ==> rows[k].pid in children
      {
        var row := rows[i];
        if row.ppid in children && row.pid !in children {
          DescendsToChild(rows, root, i);
          children := children + {row.pid};
          changed := true;
        }
        i := i + 1;
      }
      if changed {
        assert everyone - children < everyone - before;
      }
    }
    forall s | Closed(rows, root, s) ensures children <= s {
      DescendantsAreLeast(rows, root, children, s);
    }
    forall pid | Descends(rows, root, pid) ensures pid in children {
      var path :| Lineage(rows, path) && path[0] == root && path[|path| - 1] == pid;
      LineageStaysInside(rows, root, children, path);
    }
  }

  // ------------------------------------------------------- selecting and summing

  function Lower(c: char): char {
    if 'A' <= c <= 'Z' then (c as int + 32) as char else c
  }

  predicate ChromAt(comm: string, i: int) {
    && 0 <= i <= |comm| - 5
    && Lower(comm[i]) == 'c' && Lower(comm[i + 1]) == 'h' && Lower(comm[i + 2]) == 'r'
    && Lower(comm[i + 3]) == 'o' && Lower(comm[i + 4]) == 'm'
  }

  /** `/chrom/i.test(comm)`. */
  predicate IsBrowser(comm: string) {
    exists i :: 0 <= i < |comm| && ChromAt(comm, i)
  }

  /** `comm` has these five characters in it, and they are c, h, r, o, m in either case. */
  ghost predicate HasChrom(comm: string, before: string, five: string, after: string) {
    && comm == before + five + after && |five| == 5
    && five[0] in {'c', 'C'} && five[1] in {'h', 'H'} && five[2] in {'r', 'R'} && five[3] in {'o', 'O'} && five[4] in {'m', 'M'}
  }

  /** Which names are those of a browser. */
  lemma BrowserExactly(comm: string)
    ensures IsBrowser(comm) <==> exists before, five, after :: HasChrom(comm, before, five, after)
  {
    if i :| 0 <= i < |comm| && ChromAt(comm, i) {
      assert comm == comm[..i] + comm[i..i + 5] + comm[i + 5..];
      assert HasChrom(comm, comm[..i], comm[i..i + 5], comm[i + 5..]);
    }
    if before, five, after :| HasChrom(comm, before, five, after) {
      var i := |before|;
      assert comm[i] == five[0] && comm[i + 1] == five[1] && comm[i + 2] == five[2] && comm[i + 3] == five[3] && comm[i + 4] == five[4];
      assert ChromAt(comm, i);
    }
  }

  /** `children.has(r.pid) && /chrom/i.test(r.comm)`. */
  function Selected(children: set<int>): Row -> bool {
    (row: Row) => row.pid in children && IsBrowser(row.comm)
  }

  function Count(rows: seq<Row>, keep: Row -> bool): nat {
    if rows == [] then 0 else (if keep(rows[0]) then 1 else 0) + Count(rows[1..], keep)
  }

  function SumRss(rows: seq<Row>, keep: Row -> bool): int {
    if rows == [] then 0 else (if keep(rows[0]) then rows[0].rss else 0) + SumRss(rows[1..], keep)
  }

  lemma {:induction false} TotalsAppend(left: seq<Row>, right: seq<Row>, keep: Row -> bool)
    ensures Count(left + right, keep) == Count(left, keep) + Count(right, keep)
    ensures SumRss(left + right, keep) == SumRss(left, keep) + SumRss(right, keep)
  {
    if left == [] {
      assert left + right == right;
    } else {
      assert (left + right)[1..] == left[1..] + right;
      TotalsAppend(left[1..], right, keep);
    }
  }

  lemma TotalsNext(rows: seq<Row>, i: nat, keep: Row -> bool)
    requires i < |rows|
    ensures Count(rows[..i + 1], keep) == Count(rows[..i], keep) + (if keep(rows[i]) then 1 else 0)
    ensures SumRss(rows[..i + 1], keep) == SumRss(rows[..i], keep) + (if keep(rows[i]) then rows[i].rss else 0)
  {
    assert rows[..i + 1] == rows[..i] + [rows[i]] && [rows[i]][1..] == [];
    TotalsAppend(rows[..i], [rows[i]], keep);
  }

  function Without(rows: seq<Row>, k: nat): seq<Row>
    requires k < |rows|
  {
    if k == 0 then rows[1..] else [rows[0]] + Without(rows[1..], k - 1)
  }

  lemma {:induction false} WithoutRows(rows: seq<Row>, k: nat)
    requires k < |rows|
    ensures multiset(rows) == multiset(Without(rows, k)) + multiset{rows[k]}
  {
    assert rows == [rows[0]] + rows[1..];
    if k > 0 {
      WithoutRows(rows[1..], k - 1);
    }
  }

  lemma {:induction false} WithoutTotals(rows: seq<Row>, k: nat, keep: Row -> bool)
    requires k < |rows|
    ensures Count(rows, keep) == Count(Without(rows, k), keep) + (if keep(rows[k]) then 1 else 0)
    ensures SumRss(rows, keep) == SumRss(Without(rows, k), keep) + (if keep(rows[k]) then rows[k].rss else 0)
  {
    if k > 0 {
      WithoutTotals(rows[1..], k - 1, keep);
      assert Without(rows, k)[1..] == Without(rows[1..], k - 1);
    }
  }

  lemma CancelOne(a: multiset<Row>, b: multiset<Row>, x: Row)
    requires a + multiset{x} == b + multiset{x}
    ensures a == b
  {
    assert a == (a + multiset{x}) - multiset{x};
    assert b == (b + multiset{x}) - multiset{x};
  }

  lemma SameLength(rows: seq<Row>, rows': seq<Row>)
    requires multiset(rows) == multiset(rows')
    ensures |rows| == |rows'|
  {
    assert |multiset(rows)| == |rows| && |multiset(rows')| == |rows'|;
  }

  /** Totals depend on which rows there are, not on their order. */
  lemma {:induction false} TotalsOrderFree(rows: seq<Row>, rows': seq<Row>, keep: Row -> bool)
    requires multiset(rows) == multiset(rows')
    ensures Count(rows, keep) == Count(rows', keep) && SumRss(rows, keep) == SumRss(rows', keep)
  {
    SameLength(rows, rows');
    if rows != [] {
      assert rows[0] in multiset(rows');
      var k :| 0 <= k < |rows'| && rows'[k] == rows[0];
      WithoutRows(rows', k);
      WithoutRows(rows, 0);
      CancelOne(multiset(rows[1..]), multiset(Without(rows', k)), rows[0]);
      WithoutTotals(rows', k, keep);
      TotalsOrderFree(rows[1..], Without(rows', k), keep);
    }
  }

  lemma ChildOfOrderFree(rows: seq<Row>, rows': seq<Row>, parent: int, child: int)
    requires multiset(rows) == multiset(rows') && ChildOf(rows, parent, child)
    ensures ChildOf(rows', parent, child)
  {
    var k :| 0 <= k < |rows| && rows[k].ppid == parent && rows[k].pid == child;
    assert rows[k] in multiset(rows');
  }

  lemma DescendsOrderFree(rows: seq<Row>, rows': seq<Row>, root: int, pid: int)
    requires multiset(rows) == multiset(rows') && Descends(rows, root, pid)
    ensures Descends(rows', root, pid)
  {
    var path :| Lineage(rows, path) && path[0] == root && path[|path| - 1] == pid;
    forall i | 0 <= i < |path| - 1 ensures ChildOf(rows', path[i], path[i + 1]) {
      ChildOfOrderFree(rows, rows', path[i], path[i + 1]);
    }
    assert Lineage(rows', path);
  }

  /** `children` is the root and its descendants. */
  ghost predicate IsTree(rows: seq<Row>, root: int, children: set<int>) {
    forall pid :: pid in children <==> Descends(rows, root, pid)
  }

  lemma OneTree(rows: seq<Row>, root: int, a: set<int>, b: set<int>)
    requires IsTree(rows, root, a) && IsTree(rows, root, b)
    ensures a == b
  {
    forall pid ensures pid in a <==> pid in b {
      assert pid in a <==> Descends(rows, root, pid);
    }
  }

  /** `browserRss`. */
  method BrowserRss(rows: seq<Row>, root: int) returns (processes: nat, summedRss: int)
    ensures exists children :: IsTree(rows, root, children)
    ensures forall children :: IsTree(rows, root, children) ==>
      processes == Count(rows, Selected(children)) && summedRss == SumRss(rows, Selected(children))
  {
    var found := Descendants(rows, root);
    assert IsTree(rows, root, found);
    forall children | IsTree(rows, root, children) ensures children == found {
      OneTree(rows, root, children, found);
    }
    var keep := Selected(found);
    processes, summedRss := 0, 0;
    var i := 0;
    while i < |rows|
      invariant i <= |rows|
      invariant processes == Count(rows[..i], keep) && summedRss == SumRss(rows[..i], keep)
    {
      TotalsNext(rows, i, keep);
      if keep(rows[i]) {
        processes, summedRss := processes + 1, summedRss + rows[i].rss;
      }
      i := i + 1;
    }
    assert rows[..i] == rows;
  }

  /** A row of a browser process that is the root or descends from it. */
  ghost predicate Counted(rows: seq<Row>, root: int, row: Row) {
    Descends(rows, root, row.pid) && exists before, five, after :: HasChrom(row.comm, before, five, after)
  }

  ghost function KeptAt(rows: seq<Row>, keep: Row -> bool, n: nat): set<int>
    requires n <= |rows|
  {
    set i | 0 <= i < n && keep(rows[i])
  }

  lemma {:induction false} CountIsSize(rows: seq<Row>, keep: Row -> bool, n: nat)
    requires n <= |rows|
    ensures Count(rows[..n], keep) == |KeptAt(rows, keep, n)|
  {
    if n > 0 {
      CountIsSize(rows, keep, n - 1);
      TotalsNext(rows, n - 1, keep);
      var before := KeptAt(rows, keep, n - 1);
      assert KeptAt(rows, keep, n) == if keep(rows[n - 1]) then before + {n - 1} else before;
    }
  }

  /** The count is the number of rows of browser processes below the root. */
  lemma CountExactly(rows: seq<Row>, root: int, children: set<int>)
    requires IsTree(rows, root, children)
    ensures Count(rows, Selected(children)) == |set i | 0 <= i < |rows| && Counted(rows, root, rows[i])|
  {
    var keep := Selected(children);
    CountIsSize(rows, keep, |rows|);
    assert rows[..|rows|] == rows;
    forall i | 0 <= i < |rows| ensures keep(rows[i]) <==> Counted(rows, root, rows[i]) {
      BrowserExactly(rows[i].comm);
    }
    assert KeptAt(rows, keep, |rows|) == (set i | 0 <= i < |rows| && Counted(rows, root, rows[i]));
  }

  /** The sum grows, row by row, by the memory of those rows and by nothing else. */
  lemma SumExactly(rows: seq<Row>, root: int, children: set<int>, n: nat)
    requires IsTree(rows, root, children) && n < |rows|
    ensures SumRss(rows[..0], Selected(children)) == 0
    ensures SumRss(rows[..n + 1], Selected(children)) ==
            SumRss(rows[..n], Selected(children)) + if Counted(rows, root, rows[n]) then rows[n].rss else 0
  {
    TotalsNext(rows, n, Selected(children));
    BrowserExactly(rows[n].comm);
  }

  /** Two listings of the same processes give the same tree, count and sum. */
  lemma BrowserRssOrderFree(rows: seq<Row>, rows': seq<Row>, root: int, children: set<int>, children': set<int>)
    requires multiset(rows) == multiset(rows')
    requires IsTree(rows, root, children) && IsTree(rows', root, children')
    ensures children == children'
    ensures Count(rows, Selected(children)) == Count(rows', Selected(children')) && SumRss(rows, Selected(children)) == SumRss(rows', Selected(children'))
  {
    forall pid ensures pid in children <==> pid in children' {
      if pid in children { DescendsOrderFree(rows, rows', root, pid); }
      if pid in children' { DescendsOrderFree(rows', rows, root, pid); }
    }
    TotalsOrderFree(rows, rows', Selected(children));
  }
}

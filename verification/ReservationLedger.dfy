/**
  The reservation ledger of the qualification fixture: `reserve` checks that a resource is free,
  awaits an audit, and only then stores the owner.  A schedule interleaves the check and the
  store of any number of calls in any order.
 */
module ReservationLedger {
  /** One call of `reserve`. */
  datatype Call = Call(resource: string, owner: string)

  /** The ledger, with the two synchronous halves of `reserve`. */
  class Ledger {
    var owners: map<string, string>

    constructor ()
      ensures owners == map[]
    {
      owners := map[];
    }

    /** Up to the await: a resource that has an owner is refused at once. */
    method Check(call: Call) returns (refused: bool)
      ensures refused == (call.resource in owners)
    {
      refused := call.resource in owners;
    }

    /** After the await. */
    method Store(call: Call)
      modifies this
      ensures owners == old(owners)[call.resource := call.owner]
    {
      owners := owners[call.resource := call.owner];
    }
  }

  /** Progress of a call; a call whose audit throws stays awaiting for ever. */
  datatype Status = Fresh | Awaiting | Returned(won: bool)

  datatype State = State(owners: map<string, string>, status: map<nat, Status>)

  function StatusOf(s: State, c: nat): Status {
    if c in s.status then s.status[c] else Fresh
  }

  /** The next synchronous step of call number `c`. */
  function Next(s: State, calls: seq<Call>, c: nat): State {
    if c >= |calls| then s
    else match StatusOf(s, c)
      case Fresh =>
        if calls[c].resource in s.owners then s.(status := s.status[c := Returned(false)])
        else s.(status := s.status[c := Awaiting])
      case Awaiting => State(s.owners[calls[c].resource := calls[c].owner], s.status[c := Returned(true)])
      case Returned(_) => s
  }

  function Run(calls: seq<Call>, schedule: seq<nat>): State {
    if schedule == [] then State(map[], map[])
    else Next(Run(calls, schedule[..|schedule| - 1]), calls, schedule[|schedule| - 1])
  }

  // ----------------------------------------------------- positions of events

  ghost function Occurrences(schedule: seq<nat>, c: nat): nat {
    if schedule == [] then 0
    else Occurrences(schedule[..|schedule| - 1], c) + (if schedule[|schedule| - 1] == c then 1 else 0)
  }

  /** Step `i` is the check of call `c`: the first time it is scheduled. */
  ghost predicate ChecksAt(schedule: seq<nat>, c: nat, i: nat) {
    i < |schedule| && schedule[i] == c && Occurrences(schedule[..i], c) == 0
  }

  /** Step `i` stores for call `c`: the second time it is scheduled, provided its check passed. */
  ghost predicate StoresAt(calls: seq<Call>, schedule: seq<nat>, c: nat, i: nat) {
    && c < |calls| && i < |schedule| && schedule[i] == c
    && StatusOf(Run(calls, schedule[..i]), c) == Awaiting
  }

  /** Some call for the resource stored before step `i`. */
  ghost predicate StoredBefore(calls: seq<Call>, schedule: seq<nat>, resource: string, i: nat) {
    exists c: nat, j: nat :: j < i && StoresAt(calls, schedule, c, j) && calls[c].resource == resource
  }

  lemma PrefixStep(schedule: seq<nat>, n: nat, i: nat)
    requires i <= n <= |schedule|
    ensures schedule[..n][..i] == schedule[..i]
  {
  }

  lemma {:induction false} OwnedWhenStored(calls: seq<Call>, schedule: seq<nat>, resource: string)
    ensures resource in Run(calls, schedule).owners <==> StoredBefore(calls, schedule, resource, |schedule|)
  {
    if schedule != [] {
      var n := |schedule| - 1;
      OwnedWhenStored(calls, schedule[..n], resource);
      StoredInPrefix(calls, schedule, n, resource);
      var c := schedule[n];
      if c < |calls| && StatusOf(Run(calls, schedule[..n]), c) == Awaiting {
        assert StoresAt(calls, schedule, c, n);
      }
      if StoredBefore(calls, schedule, resource, n + 1) && !StoredBefore(calls, schedule, resource, n) {
        var d: nat, j: nat :| j < n + 1 && StoresAt(calls, schedule, d, j) && calls[d].resource == resource;
        assert j == n;
      }
    }
  }

  lemma StoredInPrefix(calls: seq<Call>, schedule: seq<nat>, n: nat, resource: string)
    requires n <= |schedule|
    ensures StoredBefore(calls, schedule[..n], resource, n) <==> StoredBefore(calls, schedule, resource, n)
  {
    forall c: nat, j: nat | j < n ensures StoresAt(calls, schedule[..n], c, j) <==> StoresAt(calls, schedule, c, j) {
      PrefixStep(schedule, n, j);
    }
    if StoredBefore(calls, schedule[..n], resource, n) {
      var c: nat, j: nat :| j < n && StoresAt(calls, schedule[..n], c, j) && calls[c].resource == resource;
      assert StoresAt(calls, schedule, c, j);
    }
    if StoredBefore(calls, schedule, resource, n) {
      var c: nat, j: nat :| j < n && StoresAt(calls, schedule, c, j) && calls[c].resource == resource;
      assert StoresAt(calls, schedule[..n], c, j);
    }
  }

  /** How far a call is depends only on how often it was scheduled and on what its check saw. */
  lemma {:induction false} StatusMeans(calls: seq<Call>, schedule: seq<nat>, c: nat)
    requires c < |calls|
    ensures var status, times := StatusOf(Run(calls, schedule), c), Occurrences(schedule, c);
      && (times == 0 <==> status == Fresh)
      && (times == 0 || exists i: nat :: ChecksAt(schedule, c, i))
      && forall i: nat :: ChecksAt(schedule, c, i) ==>
           status == if StoredBefore(calls, schedule, calls[c].resource, i) then Returned(false)
                     else if times == 1 then Awaiting else Returned(true)
  {
    if schedule != [] {
      var n := |schedule| - 1;
      var before := schedule[..n];
      StatusMeans(calls, before, c);
      OwnedWhenStored(calls, before, calls[c].resource);
      StoredInPrefix(calls, schedule, n, calls[c].resource);
      if Occurrences(before, c) > 0 {
        var k: nat :| ChecksAt(before, c, k);
        PrefixStep(schedule, n, k);
        assert ChecksAt(schedule, c, k);
      } else if schedule[n] == c {
        assert ChecksAt(schedule, c, n);
      }
      forall i: nat | ChecksAt(schedule, c, i)
        ensures StatusOf(Run(calls, schedule), c)
             == if StoredBefore(calls, schedule, calls[c].resource, i) then Returned(false)
                else if Occurrences(schedule, c) == 1 then Awaiting else Returned(true)
      {
        if i < n {
          PrefixStep(schedule, n, i);
          assert ChecksAt(before, c, i);
          StoredInPrefix(calls, before, i, calls[c].resource);
          StoredInPrefix(calls, schedule, i, calls[c].resource);
          PrefixStep(schedule, n, i);
        }
      }
    }
  }

  /**
    Exact characterisation: a call that completed returned true if and only if its check ran
    before the first store for its resource.
   */
  lemma WinsWhenCheckedFirst(calls: seq<Call>, schedule: seq<nat>, c: nat, i: nat)
    requires c < |calls| && ChecksAt(schedule, c, i) && StatusOf(Run(calls, schedule), c).Returned?
    ensures StatusOf(Run(calls, schedule), c).won <==> !StoredBefore(calls, schedule, calls[c].resource, i)
  {
    StatusMeans(calls, schedule, c);
  }

  /** The owner of a resource is the owner of the last call that stored for it. */
  lemma {:induction false} OwnerIsLastStore(calls: seq<Call>, schedule: seq<nat>, c: nat, i: nat)
    requires StoresAt(calls, schedule, c, i)
    requires !exists d: nat, j: nat :: i < j && StoresAt(calls, schedule, d, j) && calls[d].resource == calls[c].resource
    ensures var owners := Run(calls, schedule).owners;
      calls[c].resource in owners && owners[calls[c].resource] == calls[c].owner
  {
    var n := |schedule| - 1;
    if i < n {
      var before := schedule[..n];
      PrefixStep(schedule, n, i);
      assert StoresAt(calls, before, c, i);
      forall d: nat, j: nat | i < j && StoresAt(calls, before, d, j) ensures calls[d].resource != calls[c].resource {
        PrefixStep(schedule, n, j);
        assert StoresAt(calls, schedule, d, j);
      }
      OwnerIsLastStore(calls, before, c, i);
      var d := schedule[n];
      if d < |calls| && StatusOf(Run(calls, before), d) == Awaiting {
        assert StoresAt(calls, schedule, d, n);
      }
    }
  }

  // -------------------------------------------------- when at most one wins

  ghost predicate Won(calls: seq<Call>, schedule: seq<nat>, c: nat, resource: string) {
    c < |calls| && calls[c].resource == resource && StatusOf(Run(calls, schedule), c) == Returned(true)
  }

  /** The call returned before the other one was first scheduled. */
  ghost predicate Precedes(calls: seq<Call>, schedule: seq<nat>, c: nat, d: nat) {
    exists i: nat :: ChecksAt(schedule, d, i) && StatusOf(Run(calls, schedule[..i]), c).Returned?
  }

  lemma {:induction false} WinnerStored(calls: seq<Call>, schedule: seq<nat>, c: nat)
    requires c < |calls| && StatusOf(Run(calls, schedule), c) == Returned(true)
    ensures exists j: nat :: StoresAt(calls, schedule, c, j)
  {
    var n := |schedule| - 1;
    if StatusOf(Run(calls, schedule[..n]), c) == Returned(true) {
      WinnerStored(calls, schedule[..n], c);
      var j: nat :| StoresAt(calls, schedule[..n], c, j);
      PrefixStep(schedule, n, j);
      assert StoresAt(calls, schedule, c, j);
    } else {
      assert StoresAt(calls, schedule, c, n);
    }
  }

  /** Calls that do not overlap have at most one winner. */
  lemma SequentialCallsHaveOneWinner(calls: seq<Call>, schedule: seq<nat>, c: nat, d: nat, resource: string)
    requires Won(calls, schedule, c, resource) && Won(calls, schedule, d, resource) && c != d
    ensures !Precedes(calls, schedule, c, d)
  {
    if Precedes(calls, schedule, c, d) {
      var i: nat :| ChecksAt(schedule, d, i) && StatusOf(Run(calls, schedule[..i]), c).Returned?;
      WinsWhenCheckedFirst(calls, schedule, d, i);
      ReturnedStays(calls, schedule, i, c);
      WinnerStored(calls, schedule[..i], c);
      var j: nat :| StoresAt(calls, schedule[..i], c, j);
      PrefixStep(schedule, i, j);
      assert StoresAt(calls, schedule, c, j);
      assert StoredBefore(calls, schedule, resource, i);
    }
  }

  lemma {:induction false} ReturnedStays(calls: seq<Call>, schedule: seq<nat>, i: nat, c: nat)
    requires i <= |schedule| && StatusOf(Run(calls, schedule[..i]), c).Returned?
    ensures StatusOf(Run(calls, schedule), c) == StatusOf(Run(calls, schedule[..i]), c)
  {
    if i == |schedule| {
      assert schedule[..i] == schedule;
    } else {
      var n := |schedule| - 1;
      PrefixStep(schedule, n, i);
      ReturnedStays(calls, schedule[..n], i, c);
    }
  }

  // ------------------------------------------- read off the schedule alone

  /** Some call for the resource is scheduled twice before step `i`. */
  ghost predicate TwiceBefore(calls: seq<Call>, schedule: seq<nat>, resource: string, i: nat)
    requires i <= |schedule|
  {
    exists c: nat :: c < |calls| && calls[c].resource == resource && Occurrences(schedule[..i], c) >= 2
  }

  lemma {:induction false} OccurrencesGrow(schedule: seq<nat>, i: nat, c: nat)
    requires i <= |schedule|
    ensures Occurrences(schedule[..i], c) <= Occurrences(schedule, c)
  {
    if i < |schedule| {
      var n := |schedule| - 1;
      PrefixStep(schedule, n, i);
      OccurrencesGrow(schedule[..n], i, c);
    } else {
      assert schedule[..i] == schedule;
    }
  }

  /** A store is the second time a call is scheduled. */
  lemma StoreIsSecond(calls: seq<Call>, schedule: seq<nat>, c: nat, j: nat)
    requires StoresAt(calls, schedule, c, j)
    ensures Occurrences(schedule[..j + 1], c) >= 2
  {
    StatusMeans(calls, schedule[..j], c);
    PrefixStep(schedule, j + 1, j);
  }

  /** A resource has been stored for exactly when some call for it has been scheduled twice. */
  lemma StoredMeansTwice(calls: seq<Call>, schedule: seq<nat>, resource: string, i: nat)
    requires i <= |schedule|
    ensures StoredBefore(calls, schedule, resource, i) <==> TwiceBefore(calls, schedule, resource, i)
  {
    if StoredBefore(calls, schedule, resource, i) {
      var c: nat, j: nat :| j < i && StoresAt(calls, schedule, c, j) && calls[c].resource == resource;
      StoreIsSecond(calls, schedule, c, j);
      OccurrencesGrow(schedule[..i], j + 1, c);
      PrefixStep(schedule, i, j + 1);
    }
    if TwiceBefore(calls, schedule, resource, i) {
      var before := schedule[..i];
      var c: nat :| c < |calls| && calls[c].resource == resource && Occurrences(before, c) >= 2;
      StatusMeans(calls, before, c);
      var k: nat :| ChecksAt(before, c, k);
      if StoredBefore(calls, before, resource, k) {
        var d: nat, j: nat :| j < k && StoresAt(calls, before, d, j) && calls[d].resource == resource;
        assert StoredBefore(calls, before, resource, i);
      } else {
        WinnerStored(calls, before, c);
        var j: nat :| StoresAt(calls, before, c, j);
        assert StoredBefore(calls, before, resource, i);
      }
      StoredInPrefix(calls, schedule, i, resource);
    }
  }

  /**
    The call is scheduled at least twice, and for the first time before any call for its resource
    has been scheduled twice.
   */
  ghost predicate InTime(calls: seq<Call>, schedule: seq<nat>, c: nat) {
    && c < |calls| && Occurrences(schedule, c) >= 2
    && forall i: nat :: ChecksAt(schedule, c, i) ==> !TwiceBefore(calls, schedule, calls[c].resource, i)
  }

  /** A step is a store exactly when it is the second of a call that first came before any call for its resource came twice. */
  lemma StoresExactly(calls: seq<Call>, schedule: seq<nat>, c: nat, i: nat)
    requires c < |calls| && i < |schedule|
    ensures StoresAt(calls, schedule, c, i) <==>
      && schedule[i] == c && Occurrences(schedule[..i], c) == 1
      && forall k: nat :: ChecksAt(schedule[..i], c, k) ==> !TwiceBefore(calls, schedule[..i], calls[c].resource, k)
  {
    var before := schedule[..i];
    StatusMeans(calls, before, c);
    forall k: nat | ChecksAt(before, c, k)
      ensures StoredBefore(calls, before, calls[c].resource, k) <==> TwiceBefore(calls, before, calls[c].resource, k)
    {
      StoredMeansTwice(calls, before, calls[c].resource, k);
    }
  }

  /** Who wins can be read off the schedule. */
  lemma WinsWhenInTime(calls: seq<Call>, schedule: seq<nat>, c: nat)
    requires c < |calls|
    ensures Won(calls, schedule, c, calls[c].resource) <==> InTime(calls, schedule, c)
  {
    StatusMeans(calls, schedule, c);
    forall i: nat | ChecksAt(schedule, c, i)
      ensures StoredBefore(calls, schedule, calls[c].resource, i) <==> TwiceBefore(calls, schedule, calls[c].resource, i)
    {
      StoredMeansTwice(calls, schedule, calls[c].resource, i);
    }
  }

  ghost predicate AtMostOneWinner(calls: seq<Call>, schedule: seq<nat>, resource: string) {
    forall c: nat, d: nat :: Won(calls, schedule, c, resource) && Won(calls, schedule, d, resource) ==> c == d
  }

  /** No two calls for the resource are both in time. */
  ghost predicate OneInTime(calls: seq<Call>, schedule: seq<nat>, resource: string) {
    forall c: nat, d: nat ::
      InTime(calls, schedule, c) && InTime(calls, schedule, d)
      && calls[c].resource == resource && calls[d].resource == resource
      ==> c == d
  }

  /** The acceptance invariant holds of a schedule exactly when no two calls for the resource are both in time. */
  lemma OneWinnerExactly(calls: seq<Call>, schedule: seq<nat>, resource: string)
    ensures AtMostOneWinner(calls, schedule, resource) <==> OneInTime(calls, schedule, resource)
  {
    forall c: nat | c < |calls| && calls[c].resource == resource
      ensures Won(calls, schedule, c, resource) <==> InTime(calls, schedule, c)
    {
      WinsWhenInTime(calls, schedule, c);
    }
  }

  // --------------------------------------------------- any number can win

  ghost predicate DistinctCalls(order: seq<nat>) {
    forall i, j :: 0 <= i < j < |order| ==> order[i] != order[j]
  }

  lemma {:induction false} OccursOnce(order: seq<nat>, c: nat)
    requires DistinctCalls(order)
    ensures Occurrences(order, c) == if c in order then 1 else 0
  {
    if order != [] {
      var n := |order| - 1;
      OccursOnce(order[..n], c);
      assert c in order <==> c in order[..n] || c == order[n];
    }
  }

  lemma {:induction false} OccursInBoth(a: seq<nat>, b: seq<nat>, c: nat)
    ensures Occurrences(a + b, c) == Occurrences(a, c) + Occurrences(b, c)
  {
    if b == [] {
      assert a + b == a;
    } else {
      var n := |b| - 1;
      OccursInBoth(a, b[..n], c);
      assert (a + b)[..|a + b| - 1] == a + b[..n];
    }
  }

  lemma ChecksInFirstRound(order: seq<nat>, more: seq<nat>, c: nat, i: nat)
    requires DistinctCalls(order) && c in order && ChecksAt(order + more, c, i)
    ensures i < |order|
  {
    OccursOnce(order, c);
    if i >= |order| {
      assert (order + more)[..i][..|order|] == order;
      OccurrencesGrow((order + more)[..i], |order|, c);
    }
  }

  /** Before every call has checked, none is scheduled twice. */
  lemma NotTwiceYet(calls: seq<Call>, order: seq<nat>, more: seq<nat>, resource: string, i: nat)
    requires DistinctCalls(order) && i <= |order|
    ensures !TwiceBefore(calls, order + more, resource, i)
  {
    assert (order + more)[..i] == order[..i];
    forall c: nat ensures Occurrences(order[..i], c) < 2 {
      OccursOnce(order[..i], c);
    }
  }

  /** The invariant fails with any number of calls: when all of them check before one stores, all of them win. */
  lemma OverlappingCallsAllWin(calls: seq<Call>, order: seq<nat>, c: nat)
    requires DistinctCalls(order) && c in order && c < |calls|
    ensures Won(calls, order + order, c, calls[c].resource)
  {
    var schedule := order + order;
    OccursInBoth(order, order, c);
    OccursOnce(order, c);
    forall i: nat | ChecksAt(schedule, c, i) ensures !TwiceBefore(calls, schedule, calls[c].resource, i) {
      ChecksInFirstRound(order, order, c, i);
      NotTwiceYet(calls, order, order, calls[c].resource, i);
    }
    WinsWhenInTime(calls, schedule, c);
  }

  /** When the last call is about to store, its check has passed. */
  lemma LastAwaits(calls: seq<Call>, order: seq<nat>, front: seq<nat>, c: nat)
    requires DistinctCalls(order) && order == front + [c] && c < |calls|
    ensures StatusOf(Run(calls, order + front), c) == Awaiting
  {
    var before := order + front;
    assert order[|front|] == c;
    assert forall i :: 0 <= i < |front| ==> order[i] == front[i] && order[i] != order[|front|];
    OccursInBoth(order, front, c);
    OccursOnce(order, c);
    OccursOnce(front, c);
    StatusMeans(calls, before, c);
    var i: nat :| ChecksAt(before, c, i);
    ChecksInFirstRound(order, front, c, i);
    NotTwiceYet(calls, order, front, calls[c].resource, i);
    StoredMeansTwice(calls, before, calls[c].resource, i);
  }

  lemma LastOneOwns(calls: seq<Call>, order: seq<nat>)
    requires DistinctCalls(order) && order != [] && order[|order| - 1] < |calls|
    ensures var last, owners := calls[order[|order| - 1]], Run(calls, order + order).owners;
      last.resource in owners && owners[last.resource] == last.owner
  {
    var front, c := order[..|order| - 1], order[|order| - 1];
    var schedule, n := order + order, |order| + |front|;
    assert order == front + [c];
    assert schedule[..n] == order + front && schedule[n] == c;
    LastAwaits(calls, order, front, c);
    assert StoresAt(calls, schedule, c, n);
    OwnerIsLastStore(calls, schedule, c, n);
  }

  /** In particular any two calls for one resource: both return true, and the second one owns it. */
  lemma OverlappingCallsBothWin(calls: seq<Call>, c: nat, d: nat)
    requires c < |calls| && d < |calls| && c != d && calls[c].resource == calls[d].resource
    ensures var resource, schedule := calls[c].resource, [c, d, c, d];
      && Won(calls, schedule, c, resource) && Won(calls, schedule, d, resource)
      && Run(calls, schedule).owners == map[resource := calls[d].owner]
      && !AtMostOneWinner(calls, schedule, resource)
  {
    var order: seq<nat> := [c, d];
    assert order + order == [c, d, c, d];
    OverlappingCallsAllWin(calls, order, c);
    OverlappingCallsAllWin(calls, order, d);
    LastOneOwns(calls, order);
    var resource, schedule := calls[c].resource, order + order;
    forall r | r in Run(calls, schedule).owners ensures r == resource {
      OwnedByScheduled(calls, schedule, r);
    }
    OnlyOwner(Run(calls, schedule).owners, resource, calls[d].owner);
  }

  lemma OnlyOwner(owners: map<string, string>, resource: string, owner: string)
    requires resource in owners && owners[resource] == owner && forall r :: r in owners ==> r == resource
    ensures owners == map[resource := owner]
  {
  }

  /** Only a call that is scheduled makes anybody the owner. */
  lemma OwnedByScheduled(calls: seq<Call>, schedule: seq<nat>, resource: string)
    requires resource in Run(calls, schedule).owners
    ensures exists e: nat :: e in schedule && e < |calls| && calls[e].resource == resource
  {
    OwnedWhenStored(calls, schedule, resource);
    var e: nat, j: nat :| j < |schedule| && StoresAt(calls, schedule, e, j) && calls[e].resource == resource;
    assert schedule[j] in schedule;
  }

  /** Drives a ledger through a schedule, one synchronous half of a call at a time. */
  method Drive(calls: seq<Call>, schedule: seq<nat>) returns (owners: map<string, string>, status: map<nat, Status>)
    ensures State(owners, status) == Run(calls, schedule)
  {
    var ledger := new Ledger();
    status := map[];
    var i := 0;
    while i < |schedule|
      invariant i <= |schedule| && State(ledger.owners, status) == Run(calls, schedule[..i])
    {
      var c := schedule[i];
      assert schedule[..i + 1][..i] == schedule[..i];
      if c < |calls| {
        var now := if c in status then status[c] else Fresh;
        if now == Fresh {
          var refused := ledger.Check(calls[c]);
          status := status[c := if refused then Returned(false) else Awaiting];
        } else if now == Awaiting {
          ledger.Store(calls[c]);
          status := status[c := Returned(true)];
        }
      }
      i := i + 1;
    }
    assert schedule[..i] == schedule;
    owners := ledger.owners;
  }
}

/**
  The lifecycle of a managed qualification run: reserve the GPU services, start the model server,
  run every case, stop the server, restore the services. Any call may throw, and the cleanup must
  work from wherever it did.
 */
module ServiceCleanup {
  import opened Text

  /** The calls of a run that can throw. */
  datatype Op = Capture | Inspect | Reserve | Start | CheckCase | Execute | Stop | Restore | Report

  /** What has been called so far, and whether each call returned. */
  datatype Trace = Nothing | Then(past: Trace, op: Op, returned: bool)

  /** Everything outside the program: whether the next call throws may depend on all that happened before. */
  type World = (Trace, Op) -> bool

  /** How often the calls that matter were made, and how often they returned. */
  datatype Tally = Tally(
    inspected: nat, checked: nat, reserved: nat, started: nat, executes: nat, stops: nat, stopped: nat, restores: nat, restored: nat)

  function Counted(t: Tally, op: Op, returned: bool): Tally {
    match op
    case Inspect => if returned then t.(inspected := t.inspected + 1) else t
    case CheckCase => if returned then t.(checked := t.checked + 1) else t
    case Reserve => if returned then t.(reserved := t.reserved + 1) else t
    case Start => if returned then t.(started := t.started + 1) else t
    case Execute => t.(executes := t.executes + 1)
    case Stop => if returned then t.(stops := t.stops + 1, stopped := t.stopped + 1) else t.(stops := t.stops + 1)
    case Restore =>
      if returned then t.(restores := t.restores + 1, restored := t.restored + 1) else t.(restores := t.restores + 1)
    case _ => t
  }

  /** What must have happened, and what must not, before a call is made; `server` says whether the run manages one. */
  predicate Allowed(server: bool, t: Tally, op: Op) {
    match op
    case Restore => t.reserved == 1 && t.stops > 0 && t.restored == 0
    case Stop => t.stopped == 0 && t.restores == 0
    case Reserve => t.inspected > 0 && t.reserved == 0 && t.started == 0 && t.executes == 0 && t.stops == 0
    case Start => t.inspected > 0 && t.started == 0 && t.executes == 0 && t.stops == 0
    case Execute => t.stops == 0 && t.checked > 0 && (server ==> t.started == 1)
    case _ => true
  }

  /** The counts of a trace whose every call was allowed when it was made. */
  ghost function Orderly(server: bool, trace: Trace): Option<Tally> {
    match trace
    case Nothing => Some(Tally(0, 0, 0, 0, 0, 0, 0, 0, 0))
    case Then(past, op, returned) =>
      match Orderly(server, past)
      case None => None
      case Some(t) => if Allowed(server, t, op) then Some(Counted(t, op, returned)) else None
  }

  /** Stopping and restoring succeed once at most, and so does reserving. */
  lemma {:induction false} AtMostOnce(server: bool, trace: Trace)
    requires Orderly(server, trace).Some?
    ensures var t := Orderly(server, trace).value; t.reserved <= 1 && t.stopped <= 1 && t.restored <= 1
  {
    if trace.Then? {
      AtMostOnce(server, trace.past);
    }
  }

  /** `m` is an earlier moment of the trace, or the whole of it. */
  ghost predicate Moment(m: Trace, trace: Trace) {
    m == trace || (trace.Then? && Moment(m, trace.past))
  }

  ghost predicate Called(trace: Trace, op: Op) {
    trace.Then? && (trace.op == op || Called(trace.past, op))
  }

  ghost predicate HasReturned(trace: Trace, op: Op) {
    trace.Then? && ((trace.op == op && trace.returned) || HasReturned(trace.past, op))
  }

  lemma {:induction false} CountsMean(server: bool, trace: Trace)
    requires Orderly(server, trace).Some?
    ensures Orderly(server, trace).value.stops > 0 <==> Called(trace, Stop)
    ensures Orderly(server, trace).value.restores > 0 <==> Called(trace, Restore)
    ensures Orderly(server, trace).value.reserved > 0 <==> HasReturned(trace, Reserve)
    ensures Orderly(server, trace).value.stopped > 0 <==> HasReturned(trace, Stop)
    ensures Orderly(server, trace).value.restored > 0 <==> HasReturned(trace, Restore)
    ensures Orderly(server, trace).value.inspected > 0 <==> HasReturned(trace, Inspect)
    ensures Orderly(server, trace).value.checked > 0 <==> HasReturned(trace, CheckCase)
    ensures Orderly(server, trace).value.started > 0 <==> HasReturned(trace, Start)
  {
    if trace.Then? {
      CountsMean(server, trace.past);
    }
  }

  /** When a restore is attempted, a stop was attempted and a reservation returned before it. */
  lemma {:induction false} RestoreComesAfter(server: bool, trace: Trace, m: Trace)
    requires Orderly(server, trace).Some? && Moment(m, trace) && m.Then? && m.op == Restore
    ensures Called(m.past, Stop) && HasReturned(m.past, Reserve)
  {
    if m == trace {
      CountsMean(server, m.past);
    } else {
      RestoreComesAfter(server, trace.past, m);
    }
  }

  /**
    Nothing is reserved or started before the identity was inspected, and no case is executed before it was checked
    and a managed server started.
   */
  lemma {:induction false} ChecksComeFirst(server: bool, trace: Trace, m: Trace)
    requires Orderly(server, trace).Some? && Moment(m, trace) && m.Then?
    ensures m.op == Reserve || m.op == Start ==> HasReturned(m.past, Inspect)
    ensures m.op == Execute ==> HasReturned(m.past, CheckCase) && (server ==> HasReturned(m.past, Start))
  {
    if m == trace {
      CountsMean(server, m.past);
    } else {
      ChecksComeFirst(server, trace.past, m);
    }
  }

  /** Once a restore was attempted, the server is neither started nor stopped, nothing is reserved and no case runs. */
  lemma {:induction false} RestoreComesLast(server: bool, trace: Trace, m: Trace)
    requires Orderly(server, trace).Some? && Moment(m, trace) && m.Then? && Called(m.past, Restore)
    ensures m.op !in {Reserve, Start, Execute, Stop}
  {
    if m == trace {
      CountsMean(server, m.past);
      StopCameFirst(server, m.past);
    } else {
      RestoreComesLast(server, trace.past, m);
    }
  }

  lemma {:induction false} StopCameFirst(server: bool, trace: Trace)
    requires Orderly(server, trace).Some?
    ensures Orderly(server, trace).value.restores > 0 ==> Orderly(server, trace).value.stops > 0
  {
    if trace.Then? {
      StopCameFirst(server, trace.past);
    }
  }

  // ------------------------------------------------------------- what a run calls

  /** One call. */
  ghost function Call(world: World, t: Trace, op: Op): Trace {
    Then(t, op, !world(t, op))
  }

  /** The calls in turn, up to the first that throws. */
  ghost function Try(world: World, t: Trace, ops: seq<Op>): Trace
    decreases |ops|
  {
    if ops == [] then t
    else if world(t, ops[0]) then Call(world, t, ops[0])
    else Try(world, Call(world, t, ops[0]), ops[1..])
  }

  /** None of them throws. */
  ghost predicate Completes(world: World, t: Trace, ops: seq<Op>)
    decreases |ops|
  {
    ops == [] || (!world(t, ops[0]) && Completes(world, Call(world, t, ops[0]), ops[1..]))
  }

  ghost function Repeat(n: nat, ops: seq<Op>): seq<Op> {
    if n == 0 then [] else Repeat(n - 1, ops) + ops
  }

  /** Before the loops: the identity is inspected before anything is reserved, and the server started last. */
  ghost function Beginning(reservation: bool): seq<Op> {
    [Capture, Inspect] + (if reservation then [Reserve, Capture] else []) + [Start, Capture]
  }

  ghost function OneArm(server: bool): seq<Op> {
    if server then [Execute, Capture] else [Execute]
  }

  ghost function OneCase(server: bool, repetitions: nat, arms: nat): seq<Op> {
    [CheckCase] + Repeat(repetitions, Repeat(arms, OneArm(server)))
  }

  ghost function End(server: bool, reservation: bool): seq<Op> {
    (if server then [Capture, Stop, Capture] else []) + (if reservation then [Restore, Capture] else []) + [Report]
  }

  /** Everything the try block calls when nothing throws. */
  ghost function Script(server: bool, reservation: bool, cases: nat, repetitions: nat, arms: nat): seq<Op> {
    (if server then Beginning(reservation) else []) + Repeat(cases, OneCase(server, repetitions, arms)) + End(server, reservation)
  }

  /** With a managed server and reserved services, and with neither: the calls of a run with one case, repetition and arm. */
  lemma ScriptSpelledOut()
    ensures Script(true, true, 1, 1, 1) ==
      [Capture, Inspect, Reserve, Capture, Start, Capture, CheckCase, Execute, Capture, Capture, Stop, Capture, Restore, Capture, Report]
    ensures Script(true, false, 1, 1, 1) ==
      [Capture, Inspect, Start, Capture, CheckCase, Execute, Capture, Capture, Stop, Capture, Report]
    ensures Script(false, false, 1, 1, 1) == [CheckCase, Execute, Report]
  {
    RepeatOnce(OneArm(true));
    RepeatOnce(OneArm(false));
    RepeatOnce(OneCase(true, 1, 1));
    RepeatOnce(OneCase(false, 1, 1));
  }

  lemma RepeatOnce(ops: seq<Op>)
    ensures Repeat(1, ops) == ops
  {
    assert Repeat(1, ops) == Repeat(0, ops) + ops;
  }

  /** What the finally block makes of it: one more stop unless one returned, then a restore if something reserved is not restored. */
  ghost function CleanedUp(world: World, server: bool, tried: Trace): Trace {
    var stopped := if server && !HasReturned(tried, Stop) then Call(world, tried, Stop) else tried;
    if HasReturned(tried, Reserve) && !HasReturned(tried, Restore) then Call(world, stopped, Restore) else stopped
  }

  ghost predicate Went(world: World, t: Trace, ops: seq<Op>, after: Trace, ok: bool) {
    after == Try(world, t, ops) && ok == Completes(world, t, ops)
  }

  lemma {:induction false} WentOn(world: World, t: Trace, a: seq<Op>, u: Trace, b: seq<Op>, v: Trace, ok: bool)
    requires Went(world, t, a, u, true) && Went(world, u, b, v, ok)
    ensures Went(world, t, a + b, v, ok)
    decreases |a|
  {
    if a == [] {
      assert a + b == b;
    } else {
      assert (a + b)[1..] == a[1..] + b;
      WentOn(world, Call(world, t, a[0]), a[1..], u, b, v, ok);
    }
  }

  lemma {:induction false} WentNot(world: World, t: Trace, a: seq<Op>, u: Trace, b: seq<Op>)
    requires Went(world, t, a, u, false)
    ensures Went(world, t, a + b, u, false)
    decreases |a|
  {
    assert (a + b)[1..] == a[1..] + b && (a + b)[0] == a[0];
    if !world(t, a[0]) {
      WentNot(world, Call(world, t, a[0]), a[1..], u, b);
    }
  }

  /** One more part, whether it is reached or not. */
  lemma WentNext(world: World, t: Trace, a: seq<Op>, u: Trace, ok: bool, b: seq<Op>, v: Trace, ok': bool)
    requires Went(world, t, a, u, ok)
    requires if ok then Went(world, u, b, v, ok') else v == u && !ok'
    ensures Went(world, t, a + b, v, ok')
  {
    if ok {
      WentOn(world, t, a, u, b, v, ok');
    } else {
      WentNot(world, t, a, u, b);
    }
  }

  lemma WentNowhere(world: World, t: Trace)
    ensures Went(world, t, [], t, true)
  {
  }

  lemma {:induction false} RepeatAppend(m: nat, n: nat, ops: seq<Op>)
    ensures Repeat(m + n, ops) == Repeat(m, ops) + Repeat(n, ops)
  {
    if n == 0 {
      assert Repeat(m, ops) + [] == Repeat(m, ops);
    } else {
      RepeatAppend(m, n - 1, ops);
    }
  }

  lemma OneMore(n: nat, each: nat)
    ensures (n + 1) * each == n * each + each
  {
  }

  /** A loop that is left in turn `n` went as far as all its turns go. */
  lemma LeftEarly(world: World, t: Trace, n: nat, all: nat, ops: seq<Op>, u: Trace, v: Trace)
    requires n < all && Went(world, t, Repeat(n, ops), u, true) && Went(world, u, ops, v, false)
    ensures Went(world, t, Repeat(all, ops), v, false)
  {
    WentOn(world, t, Repeat(n, ops), u, ops, v, false);
    RepeatAppend(n + 1, all - n - 1, ops);
    WentNot(world, t, Repeat(n + 1, ops), v, Repeat(all - n - 1, ops));
  }

  // ------------------------------------------------------------------ the run

  class Qualification {
    const world: World
    const server: bool
    const reservation: bool

    var trace: Trace
    var serverCleanup: bool
    var serverAdmission: bool
    var serviceReservation: bool
    var serviceRestoration: bool
    ghost var tally: Tally

    constructor (world: World, server: bool, reservation: bool)
      ensures Fresh()
      ensures this.world == world && this.server == server && this.reservation == reservation
    {
      this.world, this.server, this.reservation := world, server, reservation;
      trace, tally := Nothing, Tally(0, 0, 0, 0, 0, 0, 0, 0, 0);
      serverAdmission, serverCleanup, serviceReservation, serviceRestoration := false, false, false, false;
    }

    ghost predicate Fresh()
      reads this
    {
      trace == Nothing && tally == Tally(0, 0, 0, 0, 0, 0, 0, 0, 0) && !serverAdmission && !serverCleanup
      && !serviceReservation && !serviceRestoration
    }

    ghost predicate Recorded()
      reads this
    {
      Orderly(server, trace) == Some(tally)
    }

    /** The lifecycle variables say what has returned. */
    ghost predicate Valid()
      reads this
    {
      && Recorded()
      && tally.started == (if serverAdmission then 1 else 0)
      && tally.stopped == (if serverCleanup then 1 else 0)
      && tally.reserved == (if serviceReservation then 1 else 0)
      && tally.restored == (if serviceRestoration then 1 else 0)
      && tally.stopped <= tally.stops <= (if server then 1 else 0)
      && tally.restored <= tally.restores <= tally.reserved
      && (serviceReservation ==> reservation && server)
      && (tally.restores > 0 ==> serverCleanup)
    }

    /** Inside the try block, before its end: nothing has been stopped or restored. */
    ghost predicate Running()
      reads this
    {
      Valid() && tally.stops == 0
    }

    /** One awaited call. */
    method Await(op: Op) returns (returned: bool)
      requires Recorded() && Allowed(server, tally, op)
      modifies this`trace, this`tally
      ensures Recorded() && tally == Counted(old(tally), op, returned)
      ensures returned == !world(old(trace), op) && trace == Then(old(trace), op, returned)
      ensures Went(world, old(trace), [op], trace, returned)
    {
      returned := !world(trace, op);
      trace, tally := Then(trace, op, returned), Counted(tally, op, returned);
    }

    /** A reservation, and a snapshot after it. */
    method PrepareReservation() returns (ok: bool)
      requires Running() && tally.executes == 0 && !serverAdmission && !serviceReservation && reservation && server
      requires tally.inspected > 0
      modifies this`trace, this`tally, this`serviceReservation
      ensures Running() && tally.executes == 0 && !serverAdmission && tally.inspected == old(tally.inspected)
      ensures ok ==> serviceReservation
      ensures Went(world, old(trace), [Reserve, Capture], trace, ok)
    {
      ghost var t := trace;
      serviceReservation := Await(Reserve);
      ok := serviceReservation;
      ghost var u, ok1 := trace, ok;
      if ok {
        ok := Await(Capture);
      }
      WentNext(world, t, [Reserve], u, ok1, [Capture], trace, ok);
      assert [Reserve] + [Capture] == [Reserve, Capture];
    }

    /** The identity check before anything is reserved or started. */
    method PrepareIdentity() returns (ok: bool)
      requires Fresh() && server
      modifies this`trace, this`tally
      ensures Running() && tally.executes == 0 && !serverAdmission && !serviceReservation
      ensures ok ==> tally.inspected > 0
      ensures Went(world, Nothing, [Capture, Inspect], trace, ok)
    {
      ok := Await(Capture);
      ghost var u, ok1 := trace, ok;
      if ok {
        ok := Await(Inspect);
      }
      WentNext(world, Nothing, [Capture], u, ok1, [Inspect], trace, ok);
      assert [Capture] + [Inspect] == [Capture, Inspect];
    }

    method StartServer() returns (ok: bool)
      requires Running() && tally.executes == 0 && !serverAdmission && server && tally.inspected > 0
      modifies this`trace, this`tally, this`serverAdmission
      ensures Running() && tally.executes == 0
      ensures ok ==> serverAdmission
      ensures Went(world, old(trace), [Start, Capture], trace, ok)
    {
      ghost var t := trace;
      serverAdmission := Await(Start);
      ok := serverAdmission;
      ghost var u, ok1 := trace, ok;
      if ok {
        ok := Await(Capture);
      }
      WentNext(world, t, [Start], u, ok1, [Capture], trace, ok);
      assert [Start] + [Capture] == [Start, Capture];
    }

    /** The beginning of the try block: `reserve` comes before `start`, and both before any case. */
    method Prepare() returns (ok: bool)
      requires Fresh() && server
      modifies this
      ensures Running() && tally.executes == 0
      ensures ok ==> serverAdmission && (reservation ==> serviceReservation)
      ensures Went(world, Nothing, Beginning(reservation), trace, ok)
    {
      ok := PrepareIdentity();
      ghost var u, ok1 := trace, ok;
      if ok && reservation {
        ok := PrepareReservation();
      }
      ghost var middle := if reservation then [Reserve, Capture] else [];
      WentNowhere(world, u);
      WentNext(world, Nothing, [Capture, Inspect], u, ok1, middle, trace, ok);
      ghost var v, ok2 := trace, ok;
      if ok {
        ok := StartServer();
      }
      WentNext(world, Nothing, [Capture, Inspect] + middle, v, ok2, [Start, Capture], trace, ok);
    }

    /** The loops over cases, repetitions and arms. */
    method RunCases(cases: nat, repetitions: nat, arms: nat) returns (ok: bool)
      requires Running() && tally.executes == 0 && (server ==> serverAdmission)
      modifies this`trace, this`tally
      ensures Running()
      ensures ok ==> tally.executes == cases * (repetitions * arms)
      ensures Went(world, old(trace), Repeat(cases, OneCase(server, repetitions, arms)), trace, ok)
    {
      ghost var t, ops := trace, OneCase(server, repetitions, arms);
      for c := 0 to cases
        invariant Running() && tally.executes == c * (repetitions * arms)
        invariant Went(world, t, Repeat(c, ops), trace, true)
      {
        ghost var u := trace;
        ok := RunCase(repetitions, arms);
        if !ok {
          LeftEarly(world, t, c, cases, ops, u, trace);
          return;
        }
        WentOn(world, t, Repeat(c, ops), u, ops, trace, true);
        OneMore(c, repetitions * arms);
      }
      ok := true;
    }

    /** One case: every repetition of every arm, once its identity is checked. */
    method RunCase(repetitions: nat, arms: nat) returns (ok: bool)
      requires Running() && (server ==> serverAdmission)
      modifies this`trace, this`tally
      ensures Running()
      ensures ok ==> tally.executes == old(tally.executes) + repetitions * arms
      ensures Went(world, old(trace), OneCase(server, repetitions, arms), trace, ok)
    {
      ghost var t := trace;
      ok := Await(CheckCase);
      ghost var u, ok1 := trace, ok;
      if ok {
        ok := RunRepetitions(repetitions, arms);
      }
      WentNext(world, t, [CheckCase], u, ok1, Repeat(repetitions, Repeat(arms, OneArm(server))), trace, ok);
    }

    method RunRepetitions(repetitions: nat, arms: nat) returns (ok: bool)
      requires Running() && tally.checked > 0 && (server ==> serverAdmission)
      modifies this`trace, this`tally
      ensures Running() && tally.checked == old(tally.checked)
      ensures ok ==> tally.executes == old(tally.executes) + repetitions * arms
      ensures Went(world, old(trace), Repeat(repetitions, Repeat(arms, OneArm(server))), trace, ok)
    {
      ghost var t, ops := trace, Repeat(arms, OneArm(server));
      for r := 0 to repetitions
        invariant Running() && tally.executes == old(tally.executes) + r * arms && tally.checked == old(tally.checked)
        invariant Went(world, t, Repeat(r, ops), trace, true)
      {
        ghost var u := trace;
        ok := RunArms(arms);
        if !ok {
          LeftEarly(world, t, r, repetitions, ops, u, trace);
          return;
        }
        WentOn(world, t, Repeat(r, ops), u, ops, trace, true);
        OneMore(r, arms);
      }
      ok := true;
    }

    /** One repetition: every arm, with a snapshot after each when the server is managed. */
    method RunArms(arms: nat) returns (ok: bool)
      requires Running() && tally.checked > 0 && (server ==> serverAdmission)
      modifies this`trace, this`tally
      ensures Running() && tally.checked == old(tally.checked)
      ensures ok ==> tally.executes == old(tally.executes) + arms
      ensures Went(world, old(trace), Repeat(arms, OneArm(server)), trace, ok)
    {
      ghost var t, ops := trace, OneArm(server);
      for a := 0 to arms
        invariant Running() && tally.executes == old(tally.executes) + a && tally.checked == old(tally.checked)
        invariant Went(world, t, Repeat(a, ops), trace, true)
      {
        ghost var u := trace;
        ok := RunArm();
        if !ok {
          LeftEarly(world, t, a, arms, ops, u, trace);
          return;
        }
        WentOn(world, t, Repeat(a, ops), u, ops, trace, true);
      }
      ok := true;
    }

    method RunArm() returns (ok: bool)
      requires Running() && tally.checked > 0 && (server ==> serverAdmission)
      modifies this`trace, this`tally
      ensures Running() && tally.checked == old(tally.checked)
      ensures ok ==> tally.executes == old(tally.executes) + 1
      ensures Went(world, old(trace), OneArm(server), trace, ok)
    {
      ghost var t := trace;
      ok := Await(Execute);
      ghost var u, ok1 := trace, ok;
      if ok && server {
        ok := Await(Capture);
      }
      if server {
        WentNext(world, t, [Execute], u, ok1, [Capture], trace, ok);
        assert [Execute] + [Capture] == [Execute, Capture];
      }
    }

    method StopServer() returns (ok: bool)
      requires Running() && server
      modifies this`trace, this`tally, this`serverCleanup
      ensures Valid() && tally.executes == old(tally.executes)
      ensures tally.restores == old(tally.restores)
      ensures ok ==> serverCleanup
      ensures Went(world, old(trace), [Capture, Stop, Capture], trace, ok)
    {
      ghost var t := trace;
      ok := Await(Capture);
      ghost var u, ok1 := trace, ok;
      if ok {
        serverCleanup := Await(Stop);
        ok := serverCleanup;
      }
      WentNext(world, t, [Capture], u, ok1, [Stop], trace, ok);
      ghost var v, ok2 := trace, ok;
      if ok {
        ok := Await(Capture);
      }
      WentNext(world, t, [Capture] + [Stop], v, ok2, [Capture], trace, ok);
      assert [Capture] + [Stop] + [Capture] == [Capture, Stop, Capture];
    }

    method RestoreServices() returns (ok: bool)
      requires Valid() && serverCleanup && serviceReservation && tally.restores == 0
      modifies this`trace, this`tally, this`serviceRestoration
      ensures Valid() && tally.executes == old(tally.executes)
      ensures ok ==> serviceRestoration
      ensures Went(world, old(trace), [Restore, Capture], trace, ok)
    {
      ghost var t := trace;
      serviceRestoration := Await(Restore);
      ok := serviceRestoration;
      ghost var u, ok1 := trace, ok;
      if ok {
        ok := Await(Capture);
      }
      WentNext(world, t, [Restore], u, ok1, [Capture], trace, ok);
      assert [Restore] + [Capture] == [Restore, Capture];
    }

    /** The end of the try block: stop, restore, report. */
    method Finish() returns (ok: bool)
      requires Running() && (reservation ==> serviceReservation)
      modifies this`trace, this`tally, this`serverCleanup, this`serviceRestoration
      ensures Valid() && tally.executes == old(tally.executes)
      ensures ok ==> serverCleanup == server && serviceRestoration == reservation
      ensures Went(world, old(trace), End(server, reservation), trace, ok)
    {
      ghost var t := trace;
      ok := true;
      if server {
        ok := StopServer();
      }
      ghost var first := if server then [Capture, Stop, Capture] else [];
      ghost var u, ok1 := trace, ok;
      if ok && reservation {
        ok := RestoreServices();
      }
      ghost var second := if reservation then [Restore, Capture] else [];
      WentNowhere(world, u);
      WentNext(world, t, first, u, ok1, second, trace, ok);
      ghost var v, ok2 := trace, ok;
      if ok {
        ok := Await(Report);
      }
      WentNext(world, t, first + second, v, ok2, [Report], trace, ok);
    }

    /** The finally block: whatever threw, stop what is not stopped, then restore what is reserved and not restored. */
    method CleanUp()
      requires Valid()
      modifies this`trace, this`tally, this`serverCleanup, this`serviceRestoration
      ensures Recorded() && tally.executes == old(tally.executes)
      ensures tally.stops == old(tally.stops) + if server && !old(serverCleanup) then 1 else 0
      ensures tally.restores == old(tally.restores) + if old(serviceReservation && !serviceRestoration) then 1 else 0
      ensures tally.reserved == old(tally.reserved) && tally.started == old(tally.started)
      ensures server ==> tally.stops > 0
      ensures old(serverCleanup) == server ==> tally.stopped == old(tally.stopped)
      ensures old(serviceRestoration) == reservation ==> tally.restored == old(tally.restored)
      ensures trace == CleanedUp(world, server, old(trace))
    {
      CountsMean(server, trace);
      if server && !serverCleanup {
        serverCleanup := Await(Stop);
      }
      if reservation && !serviceRestoration && serviceReservation {
        serviceRestoration := Await(Restore);
      }
    }

    /** `main`, from the check before the try block to the end of the finally block. */
    method Run(cases: nat, repetitions: nat, arms: nat) returns (ok: bool)
      requires Fresh()
      modifies this
      ensures Orderly(server, trace) == Some(tally)
      ensures reservation && !server ==> !ok && trace == Nothing
      ensures !(reservation && !server) ==>
        var script := Script(server, reservation, cases, repetitions, arms);
        ok == Completes(world, Nothing, script) && trace == CleanedUp(world, server, Try(world, Nothing, script))
      ensures tally.restores > 0 <==> tally.reserved > 0
      ensures !(reservation && !server) ==> (tally.stops > 0 <==> server)
      ensures tally.stops <= 2 && tally.restores <= 2
      ensures ok ==> tally.started == if server then 1 else 0
      ensures ok ==> tally.stops == tally.stopped == if server then 1 else 0
      ensures ok ==> tally.restores == tally.restored == if reservation then 1 else 0
      ensures ok ==> tally.executes == cases * (repetitions * arms)
    {
      if reservation && !server {
        return false;
      }
      ok := true;
      WentNowhere(world, Nothing);
      if server {
        ok := Prepare();
      }
      ghost var first := if server then Beginning(reservation) else [];
      ghost var u, ok1 := trace, ok;
      if ok {
        ok := RunCases(cases, repetitions, arms);
      }
      ghost var second := Repeat(cases, OneCase(server, repetitions, arms));
      WentNext(world, Nothing, first, u, ok1, second, trace, ok);
      ghost var v, ok2 := trace, ok;
      if ok {
        ok := Finish();
      }
      WentNext(world, Nothing, first + second, v, ok2, End(server, reservation), trace, ok);
      CleanUp();
    }
  }
}

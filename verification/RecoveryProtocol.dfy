/**
  Controllers that send, crash, restart and resend, and the authority between them: what holds
  of every run.
 */
module RecoveryProtocol {
  import opened Text
  import opened Json
  import opened RecoveryAuthority

  // ------------------------------------------------- accepted exactly once

  /** How many requests for execution `id` were accepted and held open. */
  ghost function HeldCount(h: History, id: string, digest: Digest): nat {
    if h == [] then 0
    else
      var before, last := h[..|h| - 1], h[|h| - 1];
      HeldCount(before, id, digest) + (if Asks(last, id) && Answer(before, last, digest) == Held then 1 else 0)
  }

  ghost function RefusedDuplicates(h: History, id: string, digest: Digest): nat {
    if h == [] then 0
    else
      var before, last := h[..|h| - 1], h[|h| - 1];
      RefusedDuplicates(before, id, digest)
      + (if Asks(last, id) && Answer(before, last, digest) == Refused(409, "duplicate_execution_forbidden") then 1 else 0)
  }

  /** Over every history an execution that was asked for is accepted once, and every other request for it refused. */
  lemma {:induction false} AcceptedOnce(h: History, id: string, digest: Digest)
    ensures HeldCount(h, id, digest) == if Executes(h, id) > 0 then 1 else 0
    ensures Executes(h, id) == HeldCount(h, id, digest) + RefusedDuplicates(h, id, digest)
  {
    if h != [] {
      AcceptedOnce(h[..|h| - 1], id, digest);
    }
  }

  /** The accepted route never changes. */
  lemma {:induction false} RouteIsFixed(h: History, later: History, id: string)
    requires FirstRoute(h, id).Some?
    ensures FirstRoute(h + later, id) == FirstRoute(h, id)
  {
    if later == [] {
      assert h + later == h;
    } else {
      var n := |later| - 1;
      RouteIsFixed(h, later[..n], id);
      assert h + later == (h + later[..n]) + [later[n]];
      OneMore(h + later[..n], later[n], id);
    }
  }

  // -------------------------------------------------- running, then completed

  /** Request number `i` reconciles execution `id` with its accepted route. */
  ghost predicate MatchedAt(h: History, i: nat, id: string) {
    i < |h| && Matches(h[..i], h[i], id)
  }

  lemma MatchedInPrefix(h: History, n: nat, i: nat, id: string)
    requires i < n <= |h|
    ensures MatchedAt(h[..n], i, id) == MatchedAt(h, i, id)
  {
    assert h[..n][..i] == h[..i] && h[..n][i] == h[i];
  }

  lemma {:induction false} MatchedIsCounted(h: History, i: nat, id: string)
    requires MatchedAt(h, i, id)
    ensures Reconciles(h, id) > 0
  {
    var n := |h| - 1;
    if i < n {
      MatchedInPrefix(h, n, i, id);
      MatchedIsCounted(h[..n], i, id);
    }
  }

  lemma {:induction false} CountedIsMatched(h: History, id: string) returns (i: nat)
    requires Reconciles(h, id) > 0
    ensures MatchedAt(h, i, id)
  {
    var n := |h| - 1;
    if Matches(h[..n], h[n], id) {
      i := n;
    } else {
      i := CountedIsMatched(h[..n], id);
      MatchedInPrefix(h, n, i, id);
    }
  }

  ghost predicate MatchedEarlier(h: History, i: nat, id: string) {
    exists j: nat :: j < i && MatchedAt(h, j, id)
  }

  lemma EarlierIsCounted(h: History, i: nat, id: string)
    requires i <= |h|
    ensures MatchedEarlier(h, i, id) <==> Reconciles(h[..i], id) > 0
  {
    if MatchedEarlier(h, i, id) {
      var j: nat :| j < i && MatchedAt(h, j, id);
      MatchedInPrefix(h, i, j, id);
      MatchedIsCounted(h[..i], j, id);
    }
    if Reconciles(h[..i], id) > 0 {
      var j := CountedIsMatched(h[..i], id);
      MatchedInPrefix(h, i, j, id);
    }
  }

  /**
    The replies to matching status requests: RUNNING to the first of them in the history,
    COMPLETED with one and the same response to every later one.
   */
  lemma StatusTimeline(h: History, i: nat, id: string, digest: Digest)
    requires MatchedAt(h, i, id)
    ensures Answer(h[..i], h[i], digest)
         == if MatchedEarlier(h, i, id)
            then Completed(id, Turn(id, digest), ReviewResponse(id, DEFAULT_TOTAL_TOKENS, digest))
            else Running(id, Turn(id, digest))
  {
    EarlierIsCounted(h, i, id);
  }

  /** The call neither asks for execution `id` nor reconciles it with its accepted route. */
  ghost predicate LeavesAlone(h: History, call: Call, id: string) {
    !Asks(call, id) && !Matches(h, call, id)
  }

  /** Whatever else arrives, and however much of it — other executions, wrong routes, refused calls — moves an execution by nothing. */
  lemma {:induction false} OthersDoNotAdvance(h: History, others: History, id: string)
    requires forall i :: 0 <= i < |others| ==> LeavesAlone(h, others[i], id)
    ensures Executes(h + others, id) == Executes(h, id)
    ensures FirstRoute(h + others, id) == FirstRoute(h, id)
    ensures Reconciles(h + others, id) == Reconciles(h, id)
  {
    if others == [] {
      assert h + others == h;
    } else {
      var n := |others| - 1;
      OthersDoNotAdvance(h, others[..n], id);
      assert h + others == (h + others[..n]) + [others[n]];
      assert LeavesAlone(h, others[n], id);
      OneMore(h + others[..n], others[n], id);
    }
  }

  /** The calls that name execution `id`. */
  ghost function OnlyAbout(h: History, id: string): History {
    if h == [] then []
    else OnlyAbout(h[..|h| - 1], id) + if Names(h[|h| - 1], id) then [h[|h| - 1]] else []
  }

  ghost predicate Names(call: Call, id: string) {
    (call.Execute? || call.Reconcile? || call.Unknown?) && call.id == id
  }

  lemma {:induction false} OnlyAboutCounts(h: History, id: string)
    ensures Executes(OnlyAbout(h, id), id) == Executes(h, id)
    ensures FirstRoute(OnlyAbout(h, id), id) == FirstRoute(h, id)
    ensures Reconciles(OnlyAbout(h, id), id) == Reconciles(h, id)
  {
    if h != [] {
      var before, last := h[..|h| - 1], h[|h| - 1];
      OnlyAboutCounts(before, id);
      if Names(last, id) {
        OneMore(OnlyAbout(before, id), last, id);
      } else {
        assert OnlyAbout(h, id) == OnlyAbout(before, id);
      }
    }
  }

  /** Executions do not interfere: the reply about one is what it would be had nothing else ever been asked. */
  lemma ExecutionsAreIsolated(h: History, call: Call, id: string, digest: Digest)
    requires Names(call, id)
    ensures Answer(h, call, digest) == Answer(OnlyAbout(h, id), call, digest)
  {
    OnlyAboutCounts(h, id);
    SameCountsSameAnswer(h, OnlyAbout(h, id), call, id, digest);
  }

  lemma SameCountsSameAnswer(h: History, g: History, call: Call, id: string, digest: Digest)
    requires Names(call, id) && Executes(h, id) == Executes(g, id)
    requires FirstRoute(h, id) == FirstRoute(g, id) && Reconciles(h, id) == Reconciles(g, id)
    ensures Answer(h, call, digest) == Answer(g, call, digest)
  {
    if !call.Execute? {
      assert AnswerKnown(h, id, call.route, call.Reconcile?, digest) == AnswerKnown(g, id, call.route, call.Reconcile?, digest);
    }
  }

  // ------------------------------------------------------------- controllers

  /** A model route as the runtime records it; the two node-bound fields may be missing. */
  datatype Route = Route(
    providerId: string, accountProfileId: Option<Json>, modelId: string,
    workloadNodeId: string, providerExecutionNodeId: string, credentialNodeId: Option<Json>)

  function OrNull(v: Option<Json>): Json {
    if v.Some? then v.value else Null
  }

  /** `routeIdentity`: the fields in one fixed order, missing ones as null. */
  function RouteIdentity(r: Route): Json {
    Obj([Entry("providerId", Str(r.providerId)), Entry("accountProfileId", OrNull(r.accountProfileId)),
         Entry("modelId", Str(r.modelId)), Entry("workloadNodeId", Str(r.workloadNodeId)),
         Entry("providerExecutionNodeId", Str(r.providerExecutionNodeId)), Entry("credentialNodeId", OrNull(r.credentialNodeId))])
  }

  /** The authority's comparison of texts accepts a route exactly when every field agrees, null standing for missing. */
  lemma RouteTextDecides(a: Route, b: Route)
    ensures Stringify(RouteIdentity(a)) == Stringify(RouteIdentity(b)) <==>
      && a.providerId == b.providerId && OrNull(a.accountProfileId) == OrNull(b.accountProfileId)
      && a.modelId == b.modelId && a.workloadNodeId == b.workloadNodeId
      && a.providerExecutionNodeId == b.providerExecutionNodeId && OrNull(a.credentialNodeId) == OrNull(b.credentialNodeId)
  {
    StringifyInjective(RouteIdentity(a), RouteIdentity(b));
    var p, q := RouteIdentity(a).entries, RouteIdentity(b).entries;
    assert p == q ==> p[0] == q[0] && p[1] == q[1] && p[2] == q[2] && p[3] == q[3] && p[4] == q[4] && p[5] == q[5];
  }

  /** The request `QualificationExecutor.authority` posts. */
  function ExecutorRequest(endpoint: string, id: string, route: Route): Request {
    Request(true, "POST", endpoint, Readable(Obj([Entry("executionId", Str(id)), Entry("route", RouteIdentity(route))])))
  }

  lemma ExecutorRequestIsRead(id: string, route: Route)
    requires ValidId(id) && route.modelId != ""
    ensures Read(ExecutorRequest("/execute", id, route)) == Execute(id, RouteIdentity(route))
    ensures Read(ExecutorRequest("/status", id, route)) == Reconcile(id, RouteIdentity(route))
  {
    ExecutorFields(id, route);
    ModelIsNamed(route);
    DifferentKeys();
  }

  /**
    What an executor posts for a run is read as what it asks, whatever the run's name; the first request for
    an execution never asked for is accepted and held.
   */
  lemma FirstRequestIsHeld(h: History, run: string, n: string, route: Route, digest: Digest)
    requires route.modelId != "" && IsReview("repository-review:" + run + ":" + n, run, n)
    ensures var id := "repository-review:" + run + ":" + n;
      && Read(ExecutorRequest("/execute", id, route)) == Execute(id, RouteIdentity(route))
      && Read(ExecutorRequest("/status", id, route)) == Reconcile(id, RouteIdentity(route))
      && ((forall i :: 0 <= i < |h| ==> !Asks(h[i], id)) ==>
            Answer(h, Read(ExecutorRequest("/execute", id, route)), digest) == Held)
  {
    var id := "repository-review:" + run + ":" + n;
    ValidIdExactly(id);
    ExecutorRequestIsRead(id, route);
    NeverAsked(h, id);
  }

  lemma {:induction false} NeverAsked(h: History, id: string)
    ensures (forall i :: 0 <= i < |h| ==> !Asks(h[i], id)) <==> Executes(h, id) == 0
  {
    if h != [] {
      var n := |h| - 1;
      NeverAsked(h[..n], id);
      assert forall i :: 0 <= i < n ==> h[..n][i] == h[i];
    }
  }

  lemma ExecutorFields(id: string, route: Route)
    ensures var body := Obj([Entry("executionId", Str(id)), Entry("route", RouteIdentity(route))]);
      Field(body, "executionId") == Some(Str(id)) && Field(body, "route") == Some(RouteIdentity(route))
  {
    var body := [Entry("executionId", Str(id)), Entry("route", RouteIdentity(route))];
    DifferentKeys();
    assert body[1..] == [Entry("route", RouteIdentity(route))];
    assert Lookup(body, "executionId") == Some(Str(id));
    assert Lookup(body, "route") == Lookup(body[1..], "route") == Some(RouteIdentity(route));
  }

  lemma ModelIsNamed(route: Route)
    ensures Field(RouteIdentity(route), "modelId") == Some(Str(route.modelId))
  {
    var fields := RouteIdentity(route).entries;
    DifferentKeys();
    assert fields[1..][1..][0] == Entry("modelId", Str(route.modelId));
    assert Lookup(fields, "modelId") == Lookup(fields[1..], "modelId") == Lookup(fields[1..][1..], "modelId") == Some(Str(route.modelId));
  }

  lemma DifferentKeys()
    ensures "executionId" != "route" && "providerId" != "modelId" && "accountProfileId" != "modelId"
    ensures "/execute" != "/status" && "POST" != "GET"
  {
    assert |"executionId"| != |"route"| && |"providerId"| != |"modelId"| && |"accountProfileId"| != |"modelId"|;
    assert |"/execute"| != |"/status"| && |"POST"| != |"GET"|;
  }

  datatype Message = Message(controller: nat, request: Request)

  /** What can happen between any number of controllers, the network and the authority. */
  datatype Event =
    | Send(controller: nat, request: Request)   // also: send again
    | Deliver(index: nat)                       // in any order
    | Abort(index: nat)                         // lost before the authority reads it
    | Crash(controller: nat)
    | Restart(controller: nat)

  datatype World = World(up: set<nat>, inFlight: seq<Message>, history: History, received: seq<(nat, Reply)>)

  const START := World({}, [], [], [])

  ghost function Next(w: World, e: Event, digest: Digest): World {
    match e
    case Send(c, request) => if c in w.up then w.(inFlight := w.inFlight + [Message(c, request)]) else w
    case Deliver(i) =>
      if i >= |w.inFlight| then w
      else
        var m := w.inFlight[i];
        var reply := Answer(w.history, Read(m.request), digest);
        World(w.up, w.inFlight[..i] + w.inFlight[i + 1..], w.history + [Read(m.request)],
              if m.controller in w.up && reply != Held then w.received + [(m.controller, reply)] else w.received)
    case Abort(i) => if i >= |w.inFlight| then w else w.(inFlight := w.inFlight[..i] + w.inFlight[i + 1..])
    case Crash(c) => w.(up := w.up - {c})
    case Restart(c) => w.(up := w.up + {c})
  }

  ghost function Run(events: seq<Event>, digest: Digest): World {
    if events == [] then START else Next(Run(events[..|events| - 1], digest), events[|events| - 1], digest)
  }

  /** Every request about `id` names the same route. */
  ghost predicate Agrees(call: Call, id: string, route: Json) {
    (call.Execute? || call.Reconcile? || call.Unknown?) && call.id == id ==> call.route == route
  }

  ghost predicate AllSendersAgree(events: seq<Event>, id: string, route: Json) {
    forall i :: 0 <= i < |events| && events[i].Send? ==> Agrees(Read(events[i].request), id, route)
  }

  ghost predicate Agreed(w: World, id: string, route: Json) {
    && (forall i :: 0 <= i < |w.inFlight| ==> Agrees(Read(w.inFlight[i].request), id, route))
    && (forall i :: 0 <= i < |w.history| ==> Agrees(w.history[i], id, route))
  }

  lemma NextKeepsAgreement(w: World, e: Event, id: string, route: Json, digest: Digest)
    requires Agreed(w, id, route) && (e.Send? ==> Agrees(Read(e.request), id, route))
    ensures Agreed(Next(w, e, digest), id, route)
  {
  }

  lemma {:induction false} AgreementReachesAuthority(events: seq<Event>, id: string, route: Json, digest: Digest)
    requires AllSendersAgree(events, id, route)
    ensures Agreed(Run(events, digest), id, route)
  {
    if events != [] {
      var n := |events| - 1;
      assert AllSendersAgree(events[..n], id, route);
      AgreementReachesAuthority(events[..n], id, route, digest);
      NextKeepsAgreement(Run(events[..n], digest), events[n], id, route, digest);
    }
  }

  lemma {:induction false} AgreedRoute(h: History, id: string, route: Json)
    requires forall i :: 0 <= i < |h| ==> Agrees(h[i], id, route)
    ensures FirstRoute(h, id).Some? ==> FirstRoute(h, id).value == route
  {
    if h != [] {
      AgreedRoute(h[..|h| - 1], id, route);
    }
  }

  /** A reply the authority sends about execution `id` when nobody disagrees on its route. */
  ghost predicate Proper(reply: Reply, id: string, digest: Digest) {
    || reply == Held
    || reply == Refused(409, "duplicate_execution_forbidden")
    || reply == Refused(404, "authority_execution_missing")
    || reply == Running(id, Turn(id, digest))
    || reply == Completed(id, Turn(id, digest), ReviewResponse(id, DEFAULT_TOTAL_TOKENS, digest))
  }

  /** How many RUNNING replies about execution `id` reached a controller. */
  ghost function RunningReceived(received: seq<(nat, Reply)>, id: string): nat {
    if received == [] then 0
    else
      var last := received[|received| - 1].1;
      RunningReceived(received[..|received| - 1], id) + if last.Running? && last.executionId == id then 1 else 0
  }

  /** How many requests in flight ask for execution `id`. */
  ghost function AskedInFlight(inFlight: seq<Message>, id: string): nat {
    if inFlight == [] then 0
    else AskedInFlight(inFlight[1..], id) + if Asks(Read(inFlight[0].request), id) then 1 else 0
  }

  /** How often a controller that was up sent a request for execution `id`. */
  ghost function AskedBySenders(events: seq<Event>, id: string, digest: Digest): nat {
    if events == [] then 0
    else
      var before, last := events[..|events| - 1], events[|events| - 1];
      AskedBySenders(before, id, digest)
      + if last.Send? && last.controller in Run(before, digest).up && Asks(Read(last.request), id) then 1 else 0
  }

  lemma {:induction false} InFlightAppend(a: seq<Message>, b: seq<Message>, id: string)
    ensures AskedInFlight(a + b, id) == AskedInFlight(a, id) + AskedInFlight(b, id)
  {
    if a == [] {
      assert a + b == b;
    } else {
      assert (a + b)[1..] == a[1..] + b;
      InFlightAppend(a[1..], b, id);
    }
  }

  /** Taking a message out of flight. */
  lemma InFlightWithout(inFlight: seq<Message>, i: nat, id: string)
    requires i < |inFlight|
    ensures AskedInFlight(inFlight, id)
         == AskedInFlight(inFlight[..i] + inFlight[i + 1..], id) + if Asks(Read(inFlight[i].request), id) then 1 else 0
  {
    var one := [inFlight[i]];
    assert inFlight == inFlight[..i] + one + inFlight[i + 1..];
    InFlightAppend(inFlight[..i] + one, inFlight[i + 1..], id);
    InFlightAppend(inFlight[..i], one, id);
    InFlightAppend(inFlight[..i], inFlight[i + 1..], id);
    assert one[1..] == [];
  }

  lemma NextAsks(w: World, e: Event, id: string, digest: Digest)
    ensures var next := Next(w, e, digest);
      Executes(next.history, id) + AskedInFlight(next.inFlight, id)
      <= Executes(w.history, id) + AskedInFlight(w.inFlight, id)
         + if e.Send? && e.controller in w.up && Asks(Read(e.request), id) then 1 else 0
  {
    match e {
      case Send(c, request) =>
        InFlightAppend(w.inFlight, [Message(c, request)], id);
        assert [Message(c, request)][1..] == [];
      case Deliver(i) =>
        if i < |w.inFlight| {
          InFlightWithout(w.inFlight, i, id);
          OneMore(w.history, Read(w.inFlight[i].request), id);
        }
      case Abort(i) =>
        if i < |w.inFlight| {
          InFlightWithout(w.inFlight, i, id);
        }
      case _ =>
    }
  }

  /** No execution is asked for more often than a controller that was up sent for it: a crashed controller sends nothing. */
  lemma {:induction false} AsksWereSent(events: seq<Event>, id: string, digest: Digest)
    ensures var w := Run(events, digest);
      Executes(w.history, id) + AskedInFlight(w.inFlight, id) <= AskedBySenders(events, id, digest)
  {
    if events != [] {
      var n := |events| - 1;
      AsksWereSent(events[..n], id, digest);
      NextAsks(Run(events[..n], digest), events[n], id, digest);
    }
  }

  lemma ReceivedNext(received: seq<(nat, Reply)>, c: nat, reply: Reply, id: string)
    ensures RunningReceived(received + [(c, reply)], id)
         == RunningReceived(received, id) + if reply.Running? && reply.executionId == id then 1 else 0
  {
    assert (received + [(c, reply)])[..|received|] == received;
  }

  /** RUNNING is answered to the first matching status request alone. */
  lemma RunningIsFirst(h: History, call: Call, id: string, digest: Digest)
    requires Answer(h, call, digest).Running? && Answer(h, call, digest).executionId == id
    ensures Reconciles(h, id) == 0 && Reconciles(h + [call], id) == 1
  {
    OneMore(h, call, id);
  }

  /** Over every run at most one RUNNING reply about an execution reaches any controller. */
  lemma {:induction false} RunningReceivedOnce(events: seq<Event>, id: string, digest: Digest)
    ensures var w := Run(events, digest);
      RunningReceived(w.received, id) <= (if Reconciles(w.history, id) > 0 then 1 else 0)
  {
    if events != [] {
      RunningReceivedOnce(events[..|events| - 1], id, digest);
      RunningNext(Run(events[..|events| - 1], digest), events[|events| - 1], id, digest);
    }
  }

  lemma RunningNext(w: World, e: Event, id: string, digest: Digest)
    requires RunningReceived(w.received, id) <= if Reconciles(w.history, id) > 0 then 1 else 0
    ensures var next := Next(w, e, digest);
      RunningReceived(next.received, id) <= (if Reconciles(next.history, id) > 0 then 1 else 0)
  {
    if e.Deliver? && e.index < |w.inFlight| {
      var m := w.inFlight[e.index];
      var call := Read(m.request);
      var reply := Answer(w.history, call, digest);
      OneMore(w.history, call, id);
      ReceivedNext(w.received, m.controller, reply, id);
      if reply.Running? && reply.executionId == id {
        RunningIsFirst(w.history, call, id, digest);
      }
    }
  }

  /**
    Every run of every set of controllers, with any crashes, losses, reorderings and resends: the
    execution is accepted at most once and, as long as its controllers agree on the route, nobody
    is ever told of a mismatch; once accepted, a status request is answered RUNNING or COMPLETED.
    At most one RUNNING reply about it is received by anybody, and it is never asked for more often
    than controllers that were up sent for it.
   */
  lemma EveryRun(events: seq<Event>, call: Call, id: string, route: Json, digest: Digest)
    requires AllSendersAgree(events, id, route) && Agrees(call, id, route)
    requires call.Execute? || call.Reconcile?
    requires call.id == id
    ensures var h := Run(events, digest).history;
      && HeldCount(h, id, digest) <= 1
      && Proper(Answer(h, call, digest), id, digest)
      && (call.Reconcile? && HeldCount(h, id, digest) == 1 ==>
            Answer(h, call, digest).Running? || Answer(h, call, digest).Completed?)
    ensures RunningReceived(Run(events, digest).received, id) <= 1
    ensures HeldCount(Run(events, digest).history, id, digest) + RefusedDuplicates(Run(events, digest).history, id, digest)
         <= AskedBySenders(events, id, digest)
  {
    var h := Run(events, digest).history;
    RunningReceivedOnce(events, id, digest);
    AsksWereSent(events, id, digest);
    AgreementReachesAuthority(events, id, route, digest);
    AgreedRoute(h, id, route);
    AcceptedOnce(h, id, digest);
    AcceptedWhenAsked(h, id);
    ProperAnswer(h, call, id, digest);
  }

  lemma ProperAnswer(h: History, call: Call, id: string, digest: Digest)
    requires call.Execute? || call.Reconcile?
    requires call.id == id
    requires FirstRoute(h, id).Some? ==> FirstRoute(h, id).value == call.route
    ensures Proper(Answer(h, call, digest), id, digest)
    ensures call.Reconcile? && FirstRoute(h, id).Some? ==>
      Answer(h, call, digest).Running? || Answer(h, call, digest).Completed?
  {
  }

  /** Recovery: after any one reconciliation, every later one returns the completed response. */
  lemma ReconciledThenCompleted(h: History, first: Call, between: History, again: Call, id: string, digest: Digest)
    requires Matches(h, first, id)
    requires again == first
    ensures Answer(h + [first] + between, again, digest)
         == Completed(id, Turn(id, digest), ReviewResponse(id, DEFAULT_TOTAL_TOKENS, digest))
  {
    OneMore(h, first, id);
    RouteIsFixed(h + [first], between, id);
    ReconcilesGrow(h + [first], between, id);
  }

  lemma {:induction false} ReconcilesGrow(h: History, later: History, id: string)
    ensures Reconciles(h + later, id) >= Reconciles(h, id)
  {
    if later == [] {
      assert h + later == h;
    } else {
      var n := |later| - 1;
      ReconcilesGrow(h, later[..n], id);
      assert h + later == (h + later[..n]) + [later[n]];
      OneMore(h + later[..n], later[n], id);
    }
  }
}

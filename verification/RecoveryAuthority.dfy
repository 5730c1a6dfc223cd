/**
  The recovery authority: a process of its own that accepts an execution once, outlives the
  controller that asked for it, and answers reconciliation.  Every request is handled atomically
  once its body is read, so an interleaving of requests is a history: the sequence in which
  the authority handles them.
 */
module RecoveryAuthority {
  import opened Text
  import opened Json

  datatype Body = Readable(value: Json) | Unreadable(message: string)

  datatype Request = Request(authorized: bool, verb: string, path: string, body: Body)

  datatype Accepted = Accepted(route: Json, executeCalls: nat, reconcileCalls: nat)

  datatype Usage = Usage(inputTokens: int, outputTokens: int, totalTokens: int)

  datatype Response = Response(usage: Usage, evidence: string, providerResponseId: string, workParcelId: string)

  datatype Reply =
    | Refused(status: nat, error: string)
    | Metrics(executions: map<string, Accepted>)
    | Held                                      // accepted; the connection stays open without an answer
    | Running(executionId: string, turn: string)
    | Completed(executionId: string, turn: string, response: Response)

  /** SHA-256 in hexadecimal. */
  type Digest = string -> string

  /** `response(executionId, totalTokens)`. */
  function ReviewResponse(executionId: string, totalTokens: int, digest: Digest): Response {
    Response(Usage(totalTokens - 20, 20, totalTokens),
             "authority-response-sha256:" + digest(executionId),
             "authority-response:" + Prefix(digest(executionId), 16),
             "parcel:" + Prefix(digest(executionId), 16))
  }

  const DEFAULT_TOTAL_TOKENS := 140

  // ------------------------------------------------------- reading a request

  /** `String(value)` on a parsed value. */
  function Coerce(v: Json): string
    decreases v, 1
  {
    match v
    case Null => "null"
    case Bool(flag) => if flag then "true" else "false"
    case Num(n) => Decimal(n)
    case Str(s) => s
    case Arr(items) => Join(CoerceItems(items), ",")
    case Obj(_) => "[object Object]"
  }

  function CoerceItems(items: seq<Json>): (r: seq<string>)
    ensures |r| == |items|
    decreases items, 0
  {
    if items == [] then []
    else [if items[0] == Null then "" else Coerce(items[0])] + CoerceItems(items[1..])
  }

  /** `String(body.executionId ?? '')`. */
  function ExecutionId(body: Json): string {
    match Field(body, "executionId")
    case None => ""
    case Some(Null) => ""
    case Some(v) => Coerce(v)
  }

  predicate IsLowerHexOrDash(c: char) {
    IsDigit(c) || 'a' <= c <= 'f' || c == '-'
  }

  const ID_PREFIX := "repository-review:"

  /** `/^repository-review:[a-f0-9-]+:[1-9][0-9]*$/`. */
  predicate ValidId(id: string) {
    StartsWith(id, ID_PREFIX) && ValidParts(SplitOn(id[|ID_PREFIX|..], ':'))
  }

  predicate ValidParts(parts: seq<string>) {
    && |parts| == 2
    && parts[0] != "" && (forall i :: 0 <= i < |parts[0]| ==> IsLowerHexOrDash(parts[0][i]))
    && parts[1] != "" && '1' <= parts[1][0] <= '9' && (forall i :: 0 <= i < |parts[1]| ==> IsDigit(parts[1][i]))
  }

  /** The id of attempt `n` of the run `run`, with every character spelled out. */
  ghost predicate IsReview(id: string, run: string, n: string) {
    && id == "repository-review:" + run + ":" + n
    && run != "" && (forall c :: c in run ==> '0' <= c <= '9' || 'a' <= c <= 'f' || c == '-')
    && n != "" && n[0] != '0' && (forall c :: c in n ==> '0' <= c <= '9')
  }

  /** Which ids are valid: those of a run named in lower-case hexadecimal and dashes, with a number that has no leading zero. */
  lemma ValidIdExactly(id: string)
    ensures ValidId(id) <==> exists run, n :: IsReview(id, run, n)
  {
    if ValidId(id) {
      var run, n := ValidIdParts(id);
    }
    if run, n :| IsReview(id, run, n) {
      ReviewIsValid(id, run, n);
    }
  }

  lemma ValidIdParts(id: string) returns (run: string, n: string)
    requires ValidId(id)
    ensures IsReview(id, run, n)
  {
    var rest := id[|ID_PREFIX|..];
    var parts := SplitOn(rest, ':');
    run, n := parts[0], parts[1];
    JoinOfSplit(rest, ':');
    assert parts[1..][0] == n && rest == run + ":" + n;
    assert id == ID_PREFIX + rest == "repository-review:" + run + ":" + n;
  }

  lemma ReviewIsValid(id: string, run: string, n: string)
    requires IsReview(id, run, n)
    ensures ValidId(id)
  {
    var rest := run + ":" + n;
    SplitAtFirst(run, ':', n);
    SplitOfPlain(n, ':');
    PartsAreValid(id, run, n);
    AfterPrefix(ID_PREFIX, run, ":", n);
  }

  lemma AfterPrefix(prefix: string, a: string, b: string, c: string)
    ensures var all := prefix + a + b + c;
      StartsWith(all, prefix) && all[|prefix|..] == a + b + c
  {
    assert prefix + a + b + c == prefix + (a + b + c);
  }

  lemma PartsAreValid(id: string, run: string, n: string)
    requires IsReview(id, run, n)
    ensures ValidParts([run, n])
  {
    forall i | 0 <= i < |run| ensures IsLowerHexOrDash(run[i]) {
      assert run[i] in run;
    }
    forall i | 0 <= i < |n| ensures IsDigit(n[i]) {
      assert n[i] in n;
    }
    assert IsDigit(n[0]);
  }

  lemma ValidIdHasNoComma(id: string)
    requires ValidId(id)
    ensures ',' !in id && id[0] == 'r'
  {
    ValidIdExactly(id);
    var run, n :| IsReview(id, run, n);
    assert ',' !in "repository-review:" && ',' !in ":";
    assert id[0] == "repository-review:"[0];
  }

  /** The text, or a list of one element that is such a value. */
  ghost predicate Wraps(v: Json, id: string) {
    v == Str(id) || (v.Arr? && |v.items| == 1 && Wraps(v.items[0], id))
  }

  lemma {:induction false} WrappedIsCoerced(v: Json, id: string)
    requires Wraps(v, id)
    ensures Coerce(v) == id
  {
    if v.Arr? {
      WrappedIsCoerced(v.items[0], id);
      assert CoerceItems(v.items) == [Coerce(v.items[0])] + CoerceItems(v.items[1..]);
    }
  }

  lemma {:induction false} ValidIsWrapped(v: Json)
    requires ValidId(Coerce(v))
    ensures Wraps(v, Coerce(v))
  {
    ValidIdHasNoComma(Coerce(v));
    match v {
      case Arr(items) =>
        if |items| == 1 {
          assert CoerceItems(items) == [if items[0] == Null then "" else Coerce(items[0])] + CoerceItems(items[1..]);
          ValidIsWrapped(items[0]);
        } else {
          SeveralHaveComma(CoerceItems(items));
        }
      case _ =>
    }
  }

  lemma SeveralHaveComma(texts: seq<string>)
    ensures |texts| > 1 ==> ',' in Join(texts, ",")
  {
    if |texts| > 1 {
      assert (texts[0] + "," + Join(texts[1..], ","))[|texts[0]|] == ',';
    }
  }

  /** Which bodies name an execution: the field holds its id, or lists nested around it with nothing else in them. */
  lemma NamedExactly(body: Json, id: string)
    ensures ValidId(id) && ExecutionId(body) == id
       <==> ValidId(id) && Field(body, "executionId").Some? && Wraps(Field(body, "executionId").value, id)
  {
    var field := Field(body, "executionId");
    if ValidId(id) {
      ValidIdHasNoComma(id);
      if field.Some? && Wraps(field.value, id) {
        WrappedIsCoerced(field.value, id);
      }
      if ExecutionId(body) == id {
        ValidIsWrapped(field.value);
      }
    }
  }

  /** `route?.modelId` is truthy. */
  predicate NamesModel(route: Option<Json>) {
    route.Some? && Truthy(Field(route.value, "modelId"))
  }

  const NULL_BODY := "Cannot read properties of null (reading 'executionId')"

  /** What a request asks for, or the reply it is turned away with before any execution is looked up. */
  datatype Call =
    | TurnedAway(status: nat, error: string)
    | Inspect
    | Execute(id: string, route: Json)
    | Reconcile(id: string, route: Json)
    | Unknown(id: string, route: Json)

  function Read(request: Request): Call {
    if !request.authorized then TurnedAway(401, "authority_authentication_required")
    else if request.verb == "GET" && request.path == "/metrics" then Inspect
    else if request.verb != "POST" then TurnedAway(404, "authority_operation_unknown")
    else match request.body
      case Unreadable(message) => TurnedAway(400, message)
      case Readable(Null) => TurnedAway(400, NULL_BODY)
      case Readable(body) => ReadNamed(request.path, ExecutionId(body), Field(body, "route"))
  }

  function ReadNamed(path: string, id: string, route: Option<Json>): Call {
    if !ValidId(id) || !NamesModel(route) then TurnedAway(400, "authority_identity_invalid")
    else if path == "/execute" then Execute(id, route.value)
    else if path == "/status" then Reconcile(id, route.value)
    else Unknown(id, route.value)
  }

  /** A body that names the execution and a route to a model, whatever else it holds. */
  ghost predicate Identifies(body: Body, id: string, route: Json) {
    && body.Readable? && (exists run, n :: IsReview(id, run, n))
    && Field(body.value, "executionId").Some? && Wraps(Field(body.value, "executionId").value, id)
    && Field(body.value, "route") == Some(route)
    && Field(route, "modelId") !in {None, Some(Null), Some(Bool(false)), Some(Num(0)), Some(Str(""))}
  }

  lemma NamedIsIdentified(body: Json, id: string, route: Json)
    ensures Identifies(Readable(body), id, route) <==>
      body != Null && ExecutionId(body) == id && ValidId(id) && Field(body, "route") == Some(route) && NamesModel(Some(route))
  {
    ValidIdExactly(id);
    NamedExactly(body, id);
    TruthyExactly(Field(route, "modelId"));
  }

  /** What every request is taken for. */
  lemma CallsExactly(request: Request, id: string, route: Json)
    ensures var posted := request.authorized && request.verb == "POST";
      && (Read(request) == Execute(id, route) <==> posted && request.path == "/execute" && Identifies(request.body, id, route))
      && (Read(request) == Reconcile(id, route) <==> posted && request.path == "/status" && Identifies(request.body, id, route))
      && (Read(request) == Unknown(id, route) <==>
            posted && request.path != "/execute" && request.path != "/status" && Identifies(request.body, id, route))
      && (Read(request) == Inspect <==> request.authorized && request.verb == "GET" && request.path == "/metrics")
  {
    if request.body.Readable? {
      NamedIsIdentified(request.body.value, id, route);
    }
    assert "/execute" != "/status" && "POST" != "GET" by { assert |"/execute"| != |"/status"| && |"POST"| != |"GET"|; }
  }

  /** And what the others are turned away with. */
  lemma RefusalsExactly(request: Request)
    requires Read(request).TurnedAway?
    ensures Read(request).status == 401 <==> !request.authorized
    ensures Read(request).status == 404 <==> request.authorized && request.verb != "POST"
    ensures request.authorized && request.verb == "POST" ==>
      && Read(request).status == 400
      && Read(request).error == match request.body
           case Unreadable(message) => message
           case Readable(body) => if body == Null then "Cannot read properties of null (reading 'executionId')" else "authority_identity_invalid"
  {
  }

  // -------------------------------------------- what the history determines

  /** What was asked of the authority so far, in the order it was handled. */
  type History = seq<Call>

  /** How often execution `id` was asked for. */
  ghost function Executes(h: History, id: string): nat {
    if h == [] then 0
    else Executes(h[..|h| - 1], id) + (if Asks(h[|h| - 1], id) then 1 else 0)
  }

  ghost predicate Asks(call: Call, id: string) {
    call.Execute? && call.id == id
  }

  /** The route of the first request for execution `id`. */
  ghost function FirstRoute(h: History, id: string): Option<Json> {
    if h == [] then None
    else
      var before := FirstRoute(h[..|h| - 1], id);
      if before.None? && Asks(h[|h| - 1], id) then Some(h[|h| - 1].route) else before
  }

  /** A status request for `id` with the route the execution was accepted with. */
  ghost predicate Matches(h: History, call: Call, id: string) {
    call.Reconcile? && call.id == id && FirstRoute(h, id) == Some(call.route)
  }

  /** How often execution `id` was reconciled with the matching route after it was accepted. */
  ghost function Reconciles(h: History, id: string): nat {
    if h == [] then 0
    else
      Reconciles(h[..|h| - 1], id) + (if Matches(h[..|h| - 1], h[|h| - 1], id) then 1 else 0)
  }

  ghost function Turn(id: string, digest: Digest): string {
    "turn:" + Prefix(digest(id), 12)
  }

  /** The reply to a request that arrives after the history `h`; counters play no part in it. */
  ghost function Answer(h: History, call: Call, digest: Digest): Reply {
    match call
    case TurnedAway(status, error) => Refused(status, error)
    case Inspect => Metrics(map id | id in AcceptedIds(h) :: Accepted(FirstRoute(h, id).value, Executes(h, id), Reconciles(h, id)))
    case Execute(id, route) => if Executes(h, id) == 0 then Held else Refused(409, "duplicate_execution_forbidden")
    case Reconcile(id, route) => AnswerKnown(h, id, route, true, digest)
    case Unknown(id, route) => AnswerKnown(h, id, route, false, digest)
  }

  /** The reply to a request about an execution that must exist and keep its route. */
  ghost function AnswerKnown(h: History, id: string, route: Json, status: bool, digest: Digest): Reply {
    if FirstRoute(h, id).None? then Refused(404, "authority_execution_missing")
    else if FirstRoute(h, id).value != route then Refused(409, "authority_route_identity_mismatch")
    else if !status then Refused(404, "authority_operation_unknown")
    else if Reconciles(h, id) == 0 then Running(id, Turn(id, digest))
    else Completed(id, Turn(id, digest), ReviewResponse(id, DEFAULT_TOTAL_TOKENS, digest))
  }

  /** The two answers about a running and a finished execution, spelled out. */
  lemma AnswersSay(h: History, id: string, route: Json, digest: Digest)
    requires FirstRoute(h, id) == Some(route) && |digest(id)| >= 16
    ensures var answer := Answer(h, Reconcile(id, route), digest);
      && answer.executionId == id && answer.turn == "turn:" + digest(id)[..12]
      && (answer.Running? <==> Reconciles(h, id) == 0)
      && (answer.Running? || answer == Completed(id, answer.turn, Response(
            Usage(120, 20, 140), "authority-response-sha256:" + digest(id),
            "authority-response:" + digest(id)[..16], "parcel:" + digest(id)[..16])))
  {
  }

  ghost function AcceptedIds(h: History): (ids: set<string>)
    ensures forall id :: id in ids <==> FirstRoute(h, id).Some?
  {
    if h == [] then {}
    else
      var call := h[|h| - 1];
      AcceptedIds(h[..|h| - 1]) + (if call.Execute? then {call.id} else {})
  }

  lemma {:induction false} AcceptedWhenAsked(h: History, id: string)
    ensures FirstRoute(h, id).Some? <==> Executes(h, id) > 0
  {
    if h != [] {
      AcceptedWhenAsked(h[..|h| - 1], id);
    }
  }

  lemma {:induction false} ReconcilesNeedAcceptance(h: History, id: string)
    requires FirstRoute(h, id).None?
    ensures Reconciles(h, id) == 0
  {
    if h != [] {
      ReconcilesNeedAcceptance(h[..|h| - 1], id);
    }
  }

  /** The route kept is that of the first request to execute. */
  lemma {:induction false} FirstRouteExactly(h: History, id: string, route: Json)
    ensures FirstRoute(h, id) == Some(route) <==>
      exists k :: 0 <= k < |h| && h[k] == Execute(id, route) && forall j :: 0 <= j < k ==> !(h[j].Execute? && h[j].id == id)
  {
    if h != [] {
      var n := |h| - 1;
      FirstRouteExactly(h[..n], id, route);
      assert forall j :: 0 <= j < n ==> h[..n][j] == h[j];
      NoRouteMeans(h[..n], id);
      if k :| 0 <= k < n && h[..n][k] == Execute(id, route) && forall j :: 0 <= j < k ==> !(h[..n][j].Execute? && h[..n][j].id == id) {
        assert h[k] == Execute(id, route);
      }
      if FirstRoute(h[..n], id).None? && h[n] == Execute(id, route) {
        assert forall j :: 0 <= j < n ==> !(h[j].Execute? && h[j].id == id);
      }
    }
  }

  lemma {:induction false} NoRouteMeans(h: History, id: string)
    ensures FirstRoute(h, id).None? <==> forall j :: 0 <= j < |h| ==> !(h[j].Execute? && h[j].id == id)
  {
    if h != [] {
      var n := |h| - 1;
      NoRouteMeans(h[..n], id);
      assert forall j :: 0 <= j < n ==> h[..n][j] == h[j];
    }
  }

  ghost function ExecutesAt(h: History, id: string): set<int> {
    set k | 0 <= k < |h| && h[k].Execute? && h[k].id == id
  }

  /** Requests about `id` with the route of the first request to execute it, which came before them. */
  ghost function ReconcilesAt(h: History, id: string): set<int> {
    set k | 0 <= k < |h| && h[k].Reconcile? && h[k].id == id && FirstRoute(h[..k], id) == Some(h[k].route)
  }

  lemma {:induction false} ExecutesCounts(h: History, id: string)
    ensures Executes(h, id) == |ExecutesAt(h, id)|
  {
    if h != [] {
      var n := |h| - 1;
      ExecutesCounts(h[..n], id);
      ExecutesNext(h, id);
    }
  }

  lemma ExecutesNext(h: History, id: string)
    requires h != []
    ensures var n, before := |h| - 1, ExecutesAt(h[..|h| - 1], id);
      n !in before && ExecutesAt(h, id) == if Asks(h[n], id) then before + {n} else before
  {
    assert forall k :: 0 <= k < |h| - 1 ==> h[..|h| - 1][k] == h[k];
  }

  lemma {:induction false} ReconcilesCounts(h: History, id: string)
    ensures Reconciles(h, id) == |ReconcilesAt(h, id)|
  {
    if h != [] {
      var n := |h| - 1;
      ReconcilesCounts(h[..n], id);
      ReconcilesNext(h, id);
    }
  }

  lemma ReconcilesNext(h: History, id: string)
    requires h != []
    ensures var n, before := |h| - 1, ReconcilesAt(h[..|h| - 1], id);
      n !in before && ReconcilesAt(h, id) == if Matches(h[..n], h[n], id) then before + {n} else before
  {
    assert forall k :: 0 <= k < |h| - 1 ==> h[..|h| - 1][k] == h[k] && h[..|h| - 1][..k] == h[..k];
  }

  /** The counters of an execution count the requests that they should. */
  lemma CountersExactly(h: History, id: string)
    ensures Executes(h, id) == |ExecutesAt(h, id)| && Reconciles(h, id) == |ReconcilesAt(h, id)|
  {
    ExecutesCounts(h, id);
    ReconcilesCounts(h, id);
  }

  /** The metrics list exactly the executions asked for, each with its route and its counters. */
  lemma MetricsExactly(h: History, id: string, digest: Digest)
    ensures var listed := Answer(h, Inspect, digest).executions;
      && (id in listed <==> ExecutesAt(h, id) != {})
      && (id in listed ==> FirstRoute(h, id) == Some(listed[id].route))
      && (id in listed ==> listed[id].executeCalls == |ExecutesAt(h, id)| && listed[id].reconcileCalls == |ReconcilesAt(h, id)|)
  {
    CountersExactly(h, id);
    AcceptedWhenAsked(h, id);
    assert ExecutesAt(h, id) != {} ==> |ExecutesAt(h, id)| > 0;
  }

  /** What one more request adds to the history of an execution. */
  lemma OneMore(h: History, call: Call, id: string)
    ensures var h' := h + [call];
      && Executes(h', id) == Executes(h, id) + (if Asks(call, id) then 1 else 0)
      && FirstRoute(h', id) == (if FirstRoute(h, id).None? && Asks(call, id) then Some(call.route) else FirstRoute(h, id))
      && Reconciles(h', id) == Reconciles(h, id) + (if Matches(h, call, id) then 1 else 0)
  {
    assert (h + [call])[..|h + [call]| - 1] == h;
  }

  // ------------------------------------------------------------ the authority

  /** The map records exactly what the history determines. */
  ghost predicate Tracks(executions: map<string, Accepted>, h: History) {
    && (forall id :: id in executions <==> FirstRoute(h, id).Some?)
    && (forall id :: id in executions ==>
          executions[id] == Accepted(FirstRoute(h, id).value, Executes(h, id), Reconciles(h, id)))
  }

  lemma IdleTracks(executions: map<string, Accepted>, h: History, call: Call)
    requires Tracks(executions, h)
    requires forall id :: !Asks(call, id) && !Matches(h, call, id)
    ensures Tracks(executions, h + [call])
  {
    forall id { OneMore(h, call, id); }
  }

  lemma AcceptTracks(executions: map<string, Accepted>, h: History, id: string, route: Json)
    requires Tracks(executions, h)
    ensures Tracks(executions[id := if id in executions
                                    then executions[id].(executeCalls := executions[id].executeCalls + 1)
                                    else Accepted(route, 1, 0)], h + [Execute(id, route)])
  {
    forall i { OneMore(h, Execute(id, route), i); }
    AcceptedWhenAsked(h, id);
    if id !in executions {
      ReconcilesNeedAcceptance(h, id);
    }
  }

  lemma StatusTracks(executions: map<string, Accepted>, h: History, id: string, route: Json)
    requires Tracks(executions, h) && FirstRoute(h, id) == Some(route)
    ensures id in executions
    ensures Tracks(executions[id := executions[id].(reconcileCalls := executions[id].reconcileCalls + 1)],
                   h + [Reconcile(id, route)])
  {
    forall i { OneMore(h, Reconcile(id, route), i); }
  }

  class Authority {
    var executions: map<string, Accepted>
    const digest: Digest
    ghost var history: History

    ghost predicate Valid()
      reads this
    {
      Tracks(executions, history)
    }

    constructor (digest: Digest)
      ensures Valid() && history == [] && this.digest == digest
    {
      this.digest := digest;
      executions, history := map[], [];
    }

    /** The request handler, in the order of its checks. */
    method Handle(request: Request) returns (reply: Reply)
      requires Valid()
      modifies this
      ensures Valid() && history == old(history) + [Read(request)]
      ensures reply == Answer(old(history), Read(request), digest)
    {
      ghost var h, call := history, Read(request);
      history := history + [call];
      if !request.authorized {
        IdleTracks(executions, h, call);
        return Refused(401, "authority_authentication_required");
      }
      if request.verb == "GET" && request.path == "/metrics" {
        IdleTracks(executions, h, call);
        return Metrics(executions);
      }
      if request.verb != "POST" {
        IdleTracks(executions, h, call);
        return Refused(404, "authority_operation_unknown");
      }
      if request.body.Unreadable? {
        IdleTracks(executions, h, call);
        return Refused(400, request.body.message);
      }
      var body := request.body.value;
      if body == Null {
        IdleTracks(executions, h, call);
        return Refused(400, NULL_BODY);
      }
      var id, route := ExecutionId(body), Field(body, "route");
      if !ValidId(id) || !NamesModel(route) {
        IdleTracks(executions, h, call);
        return Refused(400, "authority_identity_invalid");
      }
      if request.path == "/execute" {
        AcceptTracks(executions, h, id, route.value);
        AcceptedWhenAsked(h, id);
        if id in executions {
          var prior := executions[id];
          executions := executions[id := prior.(executeCalls := prior.executeCalls + 1)];
          return Refused(409, "duplicate_execution_forbidden");
        }
        executions := executions[id := Accepted(route.value, 1, 0)];
        return Held;
      }
      reply := HandleKnown(id, route.value, request.path, h);
    }

    /** The rest of the handler: operations on an execution that must exist and keep its route. */
    method HandleKnown(id: string, route: Json, path: string, ghost h: History) returns (reply: Reply)
      requires Tracks(executions, h)
      requires history == h + [if path == "/status" then Reconcile(id, route) else Unknown(id, route)]
      modifies this`executions
      ensures Valid()
      ensures reply == AnswerKnown(h, id, route, path == "/status", digest)
    {
      ghost var call := history[|history| - 1];
      if id !in executions {
        IdleTracks(executions, h, call);
        return Refused(404, "authority_execution_missing");
      }
      var record := executions[id];
      StringifyInjective(record.route, route);
      if Stringify(record.route) != Stringify(route) {
        IdleTracks(executions, h, call);
        return Refused(409, "authority_route_identity_mismatch");
      }
      if path == "/status" {
        StatusTracks(executions, h, id, route);
        executions := executions[id := record.(reconcileCalls := record.reconcileCalls + 1)];
        if record.reconcileCalls + 1 == 1 {
          return Running(id, "turn:" + Prefix(digest(id), 12));
        }
        return Completed(id, "turn:" + Prefix(digest(id), 12), ReviewResponse(id, DEFAULT_TOTAL_TOKENS, digest));
      }
      IdleTracks(executions, h, call);
      return Refused(404, "authority_operation_unknown");
    }
  }
}

/**
  One benchmark outcome: attempts at rising context profiles, each after the first resuming from
  a checkpoint of the one before, until one is verified or escalation has to stop.
 */
module EscalationLoop {
  import opened Text

  datatype Profile = THIN | STANDARD | DEEP

  datatype Strategy = THIN_ONLY | STANDARD_ONLY | DEEP_ONLY | ADAPTIVE_THIN_STANDARD_DEEP | PREDICTED_ADAPTIVE

  datatype Task = Task(id: string, escalationPermitted: bool, predicted: Profile)

  datatype Check = Check(id: string, detail: string, passed: bool)

  datatype Verifier = Verifier(passed: bool, checks: seq<Check>, changedFiles: seq<string>, diffSha256: string)

  /** What executing and verifying one attempt brings back; an empty error is no error. */
  datatype Trial = Trial(
    verifier: Verifier, executionError: string, classified: Option<string>,
    totalTokens: Option<int>, turns: int, toolCalls: int, elapsedMs: int)

  datatype Checkpoint = Checkpoint(
    priorProfile: Profile, reason: string, changedFiles: seq<string>, diffSha256: string, verifierFailures: seq<string>)

  /** An attempt with the checkpoint it was given. */
  datatype Attempt = Attempt(
    number: nat, profile: Profile, given: Option<Checkpoint>, verifier: Verifier,
    verifiedSuccess: bool, escalationReason: Option<string>,
    totalTokens: Option<int>, turns: int, toolCalls: int, elapsedMs: int)

  datatype Report = Report(
    startingProfile: Profile, attempts: seq<Attempt>, escalationCount: nat, verifiedSuccess: bool, finalProfile: Profile,
    totalTokens: Option<int>, turns: int, toolCalls: int, latencyMs: int, finalVerifier: Verifier)

  /** The outside world of an attempt: the workspace remembers the attempts so far. */
  type World = (seq<Attempt>, Profile, Option<Checkpoint>) -> Trial

  predicate Adaptive(s: Strategy) {
    s == ADAPTIVE_THIN_STANDARD_DEEP || s == PREDICTED_ADAPTIVE
  }

  function StartingProfile(s: Strategy, task: Task): Profile {
    if s == THIN_ONLY || s == ADAPTIVE_THIN_STANDARD_DEEP then THIN
    else if s == STANDARD_ONLY then STANDARD
    else if s == DEEP_ONLY then DEEP
    else task.predicted
  }

  const ORDER := [THIN, STANDARD, DEEP]

  function Rank(p: Profile): nat {
    match p
    case THIN => 0
    case STANDARD => 1
    case DEEP => 2
  }

  /** `HarnessEscalationController.next`: the first profile above the current one not attempted yet; None is REVIEW. */
  function NextProfile(current: Profile, attempted: seq<Profile>): Option<Profile> {
    FirstUnattempted(ORDER[Rank(current) + 1..], attempted)
  }

  function FirstUnattempted(candidates: seq<Profile>, attempted: seq<Profile>): Option<Profile> {
    if candidates == [] then None
    else if candidates[0] !in attempted then Some(candidates[0])
    else FirstUnattempted(candidates[1..], attempted)
  }

  function Failures(checks: seq<Check>): seq<string> {
    if checks == [] then []
    else (if checks[0].passed then [] else [checks[0].id + ":" + checks[0].detail]) + Failures(checks[1..])
  }

  function CheckpointOf(a: Attempt, reason: string): Checkpoint {
    Checkpoint(a.profile, reason, a.verifier.changedFiles, a.verifier.diffSha256, Failures(a.verifier.checks))
  }

  /** `runAttempt`: verified when the verifier passes and nothing failed, classified only when not verified. */
  function RunAttempt(before: seq<Attempt>, profile: Profile, given: Option<Checkpoint>, world: World): Attempt {
    var t := world(before, profile, given);
    var verified := t.verifier.passed && t.executionError == "";
    Attempt(|before| + 1, profile, given, t.verifier, verified, if verified then None else t.classified,
            t.totalTokens, t.turns, t.toolCalls, t.elapsedMs)
  }

  function Profiles(attempts: seq<Attempt>): (r: seq<Profile>)
    ensures |r| == |attempts|
  {
    seq(|attempts|, i requires 0 <= i < |attempts| => attempts[i].profile)
  }

  // ----------------------------------------------------- the chain of attempts

  /** The attempt after `before`, if there is to be one: its profile and its checkpoint. */
  ghost function Escalation(before: seq<Attempt>, s: Strategy, task: Task): Option<(Profile, Checkpoint)>
    requires before != []
  {
    var last := before[|before| - 1];
    if last.verifiedSuccess || !task.escalationPermitted || !Adaptive(s) || last.escalationReason.None? then None
    else match NextProfile(last.profile, Profiles(before))
      case None => None
      case Some(p) => Some((p, CheckpointOf(last, last.escalationReason.value)))
  }

  /** Attempt `k` starts the chain or follows by escalation from the attempts before it. */
  ghost predicate Step(attempts: seq<Attempt>, k: nat, s: Strategy, task: Task, world: World) {
    && k < |attempts|
    && if k == 0 then attempts[0] == RunAttempt([], StartingProfile(s, task), None, world)
    else
      var e := Escalation(attempts[..k], s, task);
      e.Some? && attempts[k] == RunAttempt(attempts[..k], e.value.0, Some(e.value.1), world)
  }

  ghost predicate Steps(attempts: seq<Attempt>, s: Strategy, task: Task, world: World) {
    forall k :: 0 <= k < |attempts| ==> Step(attempts, k, s, task, world)
  }

  /** Attempts follow each other by escalation, and the last one does not escalate. */
  ghost predicate Chain(attempts: seq<Attempt>, s: Strategy, task: Task, world: World) {
    attempts != [] && Steps(attempts, s, task, world) && Escalation(attempts, s, task).None?
  }

  /** The profiles climb one by one from the starting profile. */
  lemma {:induction false} ProfilesClimb(attempts: seq<Attempt>, s: Strategy, task: Task, world: World, k: nat)
    requires Steps(attempts, s, task, world) && k < |attempts|
    ensures Rank(attempts[k].profile) == Rank(StartingProfile(s, task)) + k
  {
    assert Step(attempts, k, s, task, world);
    if k > 0 {
      ProfilesClimb(attempts, s, task, world, k - 1);
      var current := attempts[k - 1].profile;
      forall i | 0 <= i < k ensures Rank(attempts[i].profile) <= Rank(current) {
        ProfilesClimb(attempts, s, task, world, i);
      }
      NextIsOneUp(current, Profiles(attempts[..k]));
    }
  }

  lemma NextIsOneUp(current: Profile, attempted: seq<Profile>)
    requires forall i :: 0 <= i < |attempted| ==> Rank(attempted[i]) <= Rank(current)
    ensures match NextProfile(current, attempted)
      case None => current == DEEP
      case Some(p) => Rank(p) == Rank(current) + 1
  {
    if current == THIN {
      assert ORDER[1..][0] == STANDARD;
    } else if current == STANDARD {
      assert ORDER[2..][0] == DEEP;
    }
  }

  /** At most three attempts, fewer when the starting profile is higher, one when the strategy is not adaptive. */
  lemma AttemptsBounded(attempts: seq<Attempt>, s: Strategy, task: Task, world: World)
    requires Steps(attempts, s, task, world)
    ensures |attempts| <= 3 - Rank(StartingProfile(s, task))
    ensures !Adaptive(s) || !task.escalationPermitted ==> |attempts| <= 1
  {
    if attempts != [] {
      ProfilesClimb(attempts, s, task, world, |attempts| - 1);
      if |attempts| > 1 {
        assert Step(attempts, 1, s, task, world);
      }
    }
  }

  /** Only the last attempt can be verified. */
  lemma OnlyLastVerified(attempts: seq<Attempt>, s: Strategy, task: Task, world: World)
    requires Chain(attempts, s, task, world)
    ensures forall k :: 0 <= k < |attempts| - 1 ==> !attempts[k].verifiedSuccess
    ensures attempts[|attempts| - 1].verifiedSuccess <==> exists k :: 0 <= k < |attempts| && attempts[k].verifiedSuccess
  {
    forall k | 0 <= k < |attempts| - 1 ensures !attempts[k].verifiedSuccess {
      assert Step(attempts, k + 1, s, task, world);
      assert attempts[..k + 1][k] == attempts[k];
    }
  }

  /** Why a chain ends: verified, not allowed to escalate, not classified, or at the deepest profile. */
  lemma ChainEnds(attempts: seq<Attempt>, s: Strategy, task: Task, world: World)
    requires Chain(attempts, s, task, world)
    ensures var last := attempts[|attempts| - 1];
      last.verifiedSuccess || !task.escalationPermitted || !Adaptive(s) || last.escalationReason.None? || last.profile == DEEP
  {
    var n := |attempts| - 1;
    forall i | 0 <= i < |attempts| ensures Rank(attempts[i].profile) <= Rank(attempts[n].profile) {
      ProfilesClimb(attempts, s, task, world, i);
      ProfilesClimb(attempts, s, task, world, n);
    }
    NextIsOneUp(attempts[n].profile, Profiles(attempts));
  }

  /** Each attempt resumes from the one before it: its profile, its diff, and exactly the checks that failed. */
  lemma ResumesFromPrevious(attempts: seq<Attempt>, s: Strategy, task: Task, world: World, k: nat)
    requires Chain(attempts, s, task, world) && 0 < k < |attempts|
    ensures attempts[k].given.Some?
    ensures var given, last := attempts[k].given.value, attempts[k - 1];
      && last.escalationReason == Some(given.reason) && !last.verifiedSuccess
      && given.priorProfile == last.profile && Rank(attempts[k].profile) == Rank(given.priorProfile) + 1
      && given.diffSha256 == last.verifier.diffSha256 && given.changedFiles == last.verifier.changedFiles
      && (given.verifierFailures == [] <==> forall c :: c in last.verifier.checks ==> c.passed)
      && (forall c :: c in last.verifier.checks && !c.passed ==> c.id + ":" + c.detail in given.verifierFailures)
      && (forall f :: f in given.verifierFailures ==> exists c :: c in last.verifier.checks && !c.passed && f == c.id + ":" + c.detail)
  {
    assert Step(attempts, k, s, task, world);
    assert attempts[..k][k - 1] == attempts[k - 1];
    ProfilesClimb(attempts, s, task, world, k);
    ProfilesClimb(attempts, s, task, world, k - 1);
    FailuresAreFailed(attempts[k - 1].verifier.checks);
  }

  lemma {:induction false} FailuresAreFailed(checks: seq<Check>)
    ensures Failures(checks) == [] <==> forall c :: c in checks ==> c.passed
    ensures forall c :: c in checks && !c.passed ==> c.id + ":" + c.detail in Failures(checks)
    ensures forall f :: f in Failures(checks) ==> exists c :: c in checks && !c.passed && f == c.id + ":" + c.detail
  {
    if checks != [] {
      var rest := checks[1..];
      FailuresAreFailed(rest);
      assert checks == [checks[0]] + rest;
      forall f | f in Failures(checks) ensures exists c :: c in checks && !c.passed && f == c.id + ":" + c.detail {
        if f in Failures(rest) {
          var c :| c in rest && !c.passed && f == c.id + ":" + c.detail;
          assert c in checks;
        } else {
          assert checks[0] in checks;
        }
      }
    }
  }

  /** The chain is determined: no two chains differ. */
  lemma ChainUnique(a: seq<Attempt>, b: seq<Attempt>, s: Strategy, task: Task, world: World)
    requires Chain(a, s, task, world) && Chain(b, s, task, world)
    ensures a == b
  {
    var n := if |a| < |b| then |a| else |b|;
    SamePrefix(a, b, n, s, task, world);
    assert |a| < |b| ==> Step(b, |a|, s, task, world);
    assert |b| < |a| ==> Step(a, |b|, s, task, world);
    assert n == |a| ==> a[..n] == a;
    assert n == |b| ==> b[..n] == b;
  }

  lemma {:induction false} SamePrefix(a: seq<Attempt>, b: seq<Attempt>, n: nat, s: Strategy, task: Task, world: World)
    requires Steps(a, s, task, world) && Steps(b, s, task, world) && n <= |a| && n <= |b|
    ensures a[..n] == b[..n]
  {
    if n > 0 {
      SamePrefix(a, b, n - 1, s, task, world);
      assert Step(a, n - 1, s, task, world) && Step(b, n - 1, s, task, world);
      assert a[..n] == a[..n - 1] + [a[n - 1]] && b[..n] == b[..n - 1] + [b[n - 1]];
    }
  }

  /** Where a chain starts, and with what. */
  lemma StartsExactly(attempts: seq<Attempt>, s: Strategy, task: Task, world: World)
    requires Chain(attempts, s, task, world)
    ensures attempts[0].given == None && attempts[0].number == 1
    ensures attempts[0].profile == match s
      case THIN_ONLY => THIN
      case STANDARD_ONLY => STANDARD
      case DEEP_ONLY => DEEP
      case ADAPTIVE_THIN_STANDARD_DEEP => THIN
      case PREDICTED_ADAPTIVE => task.predicted
  {
    assert Step(attempts, 0, s, task, world);
  }

  /**
    What an attempt of a chain records: the result of the trial it was, verified when its verifier passed and nothing
    failed while it ran, with the reason to escalate when it was not.
   */
  lemma AttemptExactly(attempts: seq<Attempt>, s: Strategy, task: Task, world: World, k: nat)
    requires Chain(attempts, s, task, world) && k < |attempts|
    ensures var a := attempts[k];
      var trial := world(attempts[..k], a.profile, a.given);
      && a.number == k + 1 && a.verifier == trial.verifier
      && (a.verifiedSuccess <==> trial.verifier.passed && trial.executionError == "")
      && (if a.verifiedSuccess then a.escalationReason == None else a.escalationReason == trial.classified)
      && a.totalTokens == trial.totalTokens && a.turns == trial.turns && a.toolCalls == trial.toolCalls && a.elapsedMs == trial.elapsedMs
  {
    assert Step(attempts, k, s, task, world);
    assert attempts[..0] == [];
  }

  /** When another attempt follows: exactly after one that is not verified and has a reason, if the strategy and the task let it, short of the deepest profile. */
  lemma EscalatesExactly(attempts: seq<Attempt>, s: Strategy, task: Task, world: World, k: nat)
    requires Chain(attempts, s, task, world) && k < |attempts|
    ensures k + 1 < |attempts| <==>
      && !attempts[k].verifiedSuccess && attempts[k].escalationReason.Some? && attempts[k].profile != DEEP
      && task.escalationPermitted && (s == ADAPTIVE_THIN_STANDARD_DEEP || s == PREDICTED_ADAPTIVE)
  {
    if k + 1 < |attempts| {
      assert Step(attempts, k + 1, s, task, world);
      assert attempts[..k + 1][k] == attempts[k];
      ResumesFromPrevious(attempts, s, task, world, k + 1);
    } else {
      ChainEnds(attempts, s, task, world);
    }
  }

  // ----------------------------------------------------------------- totals

  /** The sum over the attempts when every attempt reports the figure, and None otherwise. */
  function TotalTokens(attempts: seq<Attempt>): Option<int> {
    if attempts == [] then Some(0)
    else
      var n := |attempts| - 1;
      match (TotalTokens(attempts[..n]), attempts[n].totalTokens)
      case (Some(sum), Some(tokens)) => Some(sum + tokens)
      case _ => None
  }

  function TotalTurns(attempts: seq<Attempt>): int {
    if attempts == [] then 0 else TotalTurns(attempts[..|attempts| - 1]) + attempts[|attempts| - 1].turns
  }

  function TotalToolCalls(attempts: seq<Attempt>): int {
    if attempts == [] then 0 else TotalToolCalls(attempts[..|attempts| - 1]) + attempts[|attempts| - 1].toolCalls
  }

  function TotalLatency(attempts: seq<Attempt>): int {
    if attempts == [] then 0 else TotalLatency(attempts[..|attempts| - 1]) + attempts[|attempts| - 1].elapsedMs
  }

  /** No precursor hides behind a successful last attempt: a total is known just when every attempt's figure is. */
  lemma {:induction false} TotalKnown(attempts: seq<Attempt>)
    ensures TotalTokens(attempts).Some? <==> forall k :: 0 <= k < |attempts| ==> attempts[k].totalTokens.Some?
  {
    if attempts != [] {
      TotalKnown(attempts[..|attempts| - 1]);
    }
  }

  /** A sum of two figures that may be unknown. */
  function Plus(a: Option<int>, b: Option<int>): Option<int> {
    if a.Some? && b.Some? then Some(a.value + b.value) else None
  }

  /** The totals are sums: of nothing zero, of one attempt its own figure, and of two lists together the two sums. */
  lemma {:induction false} TotalsAdd(left: seq<Attempt>, right: seq<Attempt>)
    ensures TotalTurns(left + right) == TotalTurns(left) + TotalTurns(right)
    ensures TotalToolCalls(left + right) == TotalToolCalls(left) + TotalToolCalls(right)
    ensures TotalLatency(left + right) == TotalLatency(left) + TotalLatency(right)
    ensures TotalTokens(left + right) == Plus(TotalTokens(left), TotalTokens(right))
  {
    if right == [] {
      assert left + right == left;
    } else {
      var n := |right| - 1;
      var all := left + right;
      assert all[..|all| - 1] == left + right[..n] && all[|all| - 1] == right[n];
      TotalsAdd(left, right[..n]);
    }
  }

  lemma TotalsOfOne(a: Attempt)
    ensures TotalTurns([]) == TotalToolCalls([]) == TotalLatency([]) == 0
    ensures TotalTurns([a]) == a.turns && TotalToolCalls([a]) == a.toolCalls && TotalLatency([a]) == a.elapsedMs
    ensures TotalTokens([a]) == a.totalTokens
  {
    assert [a][..0] == [];
  }

  /** The loop of `runOutcome`. */
  method RunAttempts(s: Strategy, task: Task, world: World) returns (attempts: seq<Attempt>)
    ensures Chain(attempts, s, task, world)
  {
    attempts := [];
    var attempted: seq<Profile> := [];
    var profile := StartingProfile(s, task);
    var checkpoint: Option<Checkpoint> := None;
    while true
      invariant Steps(attempts, s, task, world) && attempted == Profiles(attempts)
      invariant if attempts == [] then profile == StartingProfile(s, task) && checkpoint == None
                else Escalation(attempts, s, task).Some? && profile == Escalation(attempts, s, task).value.0
                     && checkpoint == Some(Escalation(attempts, s, task).value.1)
      decreases 3 - |attempts|
    {
      ghost var before := attempts;
      var attempt := RunAttempt(attempts, profile, checkpoint, world);
      attempts, attempted := attempts + [attempt], attempted + [profile];
      OneMoreAttempt(before, attempt, s, task, world);
      if attempt.verifiedSuccess || !task.escalationPermitted || !Adaptive(s) || attempt.escalationReason.None? {
        break;
      }
      var decision := NextProfile(profile, attempted);
      if decision.None? {
        break;
      }
      checkpoint := Some(CheckpointOf(attempt, attempt.escalationReason.value));
      profile := decision.value;
    }
  }

  /** `runOutcome`. */
  method RunOutcome(s: Strategy, task: Task, world: World) returns (report: Report)
    ensures Chain(report.attempts, s, task, world)
    ensures report.startingProfile == StartingProfile(s, task)
    ensures report.escalationCount == |report.attempts| - 1
    ensures var last := report.attempts[|report.attempts| - 1];
      && report.verifiedSuccess == last.verifiedSuccess && report.finalProfile == last.profile
      && report.finalVerifier == last.verifier
    ensures report.totalTokens == TotalTokens(report.attempts)
    ensures report.turns == TotalTurns(report.attempts) && report.toolCalls == TotalToolCalls(report.attempts)
    ensures report.latencyMs == TotalLatency(report.attempts)
  {
    var attempts := RunAttempts(s, task, world);
    var final := attempts[|attempts| - 1];
    report := Report(StartingProfile(s, task), attempts, |attempts| - 1, final.verifiedSuccess, final.profile,
                     TotalTokens(attempts), TotalTurns(attempts), TotalToolCalls(attempts), TotalLatency(attempts), final.verifier);
  }

  /** One turn of the loop. */
  lemma OneMoreAttempt(before: seq<Attempt>, attempt: Attempt, s: Strategy, task: Task, world: World)
    requires Steps(before, s, task, world)
    requires if before == [] then attempt == RunAttempt([], StartingProfile(s, task), None, world)
             else var e := Escalation(before, s, task);
               e.Some? && attempt == RunAttempt(before, e.value.0, Some(e.value.1), world)
    ensures var attempts := before + [attempt];
      && Steps(attempts, s, task, world) && |attempts| <= 3
      && attempts[|attempts| - 1] == attempt && Profiles(attempts) == Profiles(before) + [attempt.profile]
  {
    StepsAppend(before, attempt, s, task, world);
    AttemptsBounded(before + [attempt], s, task, world);
  }

  lemma StepsAppend(before: seq<Attempt>, attempt: Attempt, s: Strategy, task: Task, world: World)
    requires Steps(before, s, task, world)
    requires if before == [] then attempt == RunAttempt([], StartingProfile(s, task), None, world)
             else var e := Escalation(before, s, task);
               e.Some? && attempt == RunAttempt(before, e.value.0, Some(e.value.1), world)
    ensures Steps(before + [attempt], s, task, world)
  {
    var after := before + [attempt];
    forall k | 0 <= k < |after| ensures Step(after, k, s, task, world) {
      if k < |before| {
        assert Step(before, k, s, task, world) && after[..k] == before[..k];
      } else {
        assert after[..k] == before;
      }
    }
  }
}

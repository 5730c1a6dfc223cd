/**
  The resumable benchmark loop: strategies times tasks, one outcome each, the list of outcomes
  rewritten to disk after every outcome by writing a temporary file and renaming it.
  `fuse` counts the steps the process still takes before it dies, so a contract over every
  fuse covers a crash at every step.
 */
module ResumableRun {
  import opened Text
  import E = EvidenceSealing
  import EscalationLoop

  datatype Pair = Pair(strategy: string, task: string)

  /** An outcome with the evidence ids that sealing rewrites. */
  datatype Outcome = Outcome(strategy: string, taskId: string, detail: EscalationLoop.Report, evidence: E.Outcome)

  datatype Performed = Performed(report: EscalationLoop.Report, evidence: E.Outcome)

  /** A fixed `runOutcome`. */
  type Runner = Pair -> Performed

  datatype Identity = Identity(suiteId: string, model: string, provider: string)

  datatype Partial = Partial(schema: string, identity: Identity, outcomes: seq<Outcome>)

  const PARTIAL_SCHEMA := "agent-control.harness-mutation-partial/v1"

  /** The strategies times tasks, in the order of the nested loops. */
  function Pairs(strategies: seq<string>, tasks: seq<string>): seq<Pair> {
    if strategies == [] then []
    else Pairs(strategies[..|strategies| - 1], tasks) + Row(strategies[|strategies| - 1], tasks)
  }

  function Row(strategy: string, tasks: seq<string>): (r: seq<Pair>)
    ensures |r| == |tasks|
  {
    seq(|tasks|, i requires 0 <= i < |tasks| => Pair(strategy, tasks[i]))
  }

  lemma {:induction false} PairsCount(strategies: seq<string>, tasks: seq<string>)
    ensures |Pairs(strategies, tasks)| == |strategies| * |tasks|
  {
    if strategies != [] {
      var n := |strategies| - 1;
      PairsCount(strategies[..n], tasks);
      assert (n + 1) * |tasks| == n * |tasks| + |tasks|;
    }
  }

  /** All pairs, strategy after strategy, each with the tasks in order. */
  lemma {:induction false} PairsAt(strategies: seq<string>, tasks: seq<string>, i: nat, j: nat)
    requires i < |strategies| && j < |tasks|
    ensures |Pairs(strategies, tasks)| == |strategies| * |tasks|
    ensures i * |tasks| + j < |Pairs(strategies, tasks)|
    ensures Pairs(strategies, tasks)[i * |tasks| + j] == Pair(strategies[i], tasks[j])
  {
    var n := |strategies| - 1;
    PairsCount(strategies, tasks);
    PairsCount(strategies[..n], tasks);
    if i < n {
      PairsAt(strategies[..n], tasks, i, j);
    }
  }

  lemma {:induction false} PairsAre(strategies: seq<string>, tasks: seq<string>, p: Pair)
    ensures p in Pairs(strategies, tasks) <==> p.strategy in strategies && p.task in tasks
  {
    if strategies != [] {
      var n := |strategies| - 1;
      PairsAre(strategies[..n], tasks, p);
      assert strategies == strategies[..n] + [strategies[n]];
      var row := Row(strategies[n], tasks);
      if p.strategy == strategies[n] && p.task in tasks {
        var t :| 0 <= t < |tasks| && tasks[t] == p.task;
        assert row[t] == p;
      }
    }
  }

  /** `outcomes.some(outcome => outcome.strategy === strategy && outcome.taskId === task.id)`. */
  predicate Present(outcomes: seq<Outcome>, p: Pair) {
    exists i :: 0 <= i < |outcomes| && outcomes[i].strategy == p.strategy && outcomes[i].taskId == p.task
  }

  function Perform(p: Pair, run: Runner): Outcome {
    Outcome(p.strategy, p.task, run(p).report, run(p).evidence)
  }

  /** The outcomes after going through `pairs` without interruption, starting from `outcomes`. */
  ghost function Grow(outcomes: seq<Outcome>, pairs: seq<Pair>, run: Runner): (r: seq<Outcome>)
    ensures outcomes <= r
  {
    if pairs == [] then outcomes
    else
      var before, last := Grow(outcomes, pairs[..|pairs| - 1], run), pairs[|pairs| - 1];
      if Present(before, last) then before else before + [Perform(last, run)]
  }

  // ---------------------------------------------------- the uninterrupted run

  ghost predicate NoDuplicates(outcomes: seq<Outcome>) {
    forall i, j :: 0 <= i < j < |outcomes| ==>
      outcomes[i].strategy != outcomes[j].strategy || outcomes[i].taskId != outcomes[j].taskId
  }

  /** One outcome for every pair, none twice, each the result of its own pair. */
  lemma {:induction false} GrowIsComplete(pairs: seq<Pair>, run: Runner)
    ensures var full := Grow([], pairs, run);
      && NoDuplicates(full)
      && (forall p :: p in pairs ==> Present(full, p))
      && (forall i :: 0 <= i < |full| ==>
            var p := Pair(full[i].strategy, full[i].taskId); p in pairs && full[i] == Perform(p, run))
  {
    if pairs != [] {
      var n := |pairs| - 1;
      GrowIsComplete(pairs[..n], run);
      var before, full := Grow([], pairs[..n], run), Grow([], pairs, run);
      assert pairs == pairs[..n] + [pairs[n]];
      forall p | p in pairs ensures Present(full, p) {
        if p in pairs[..n] {
          var i :| 0 <= i < |before| && before[i].strategy == p.strategy && before[i].taskId == p.task;
          assert full[i] == before[i];
        } else if !Present(before, p) {
          assert full[|before|] == Perform(p, run);
        }
      }
    }
  }

  /** Pair number `k` occurs there for the first time, and `outcome` is its outcome. */
  ghost predicate FirstAt(pairs: seq<Pair>, k: nat, outcome: Outcome, run: Runner) {
    k < |pairs| && outcome == Perform(pairs[k], run) && pairs[k] !in pairs[..k]
  }

  lemma FirstAtPrefix(pairs: seq<Pair>, n: nat, k: nat, outcome: Outcome, run: Runner)
    requires n <= |pairs| && FirstAt(pairs[..n], k, outcome, run)
    ensures FirstAt(pairs, k, outcome, run)
  {
    assert pairs[..n][..k] == pairs[..k];
  }

  /** Outcomes come in the order in which their pairs first occur. */
  lemma {:induction false} GrowKeepsOrder(pairs: seq<Pair>, run: Runner) returns (at: seq<nat>)
    ensures var full := Grow([], pairs, run);
      && |at| == |full|
      && (forall i :: 0 <= i < |at| ==> FirstAt(pairs, at[i], full[i], run))
      && (forall i, j :: 0 <= i < j < |at| ==> at[i] < at[j])
  {
    if pairs == [] {
      at := [];
    } else {
      var n := |pairs| - 1;
      var before := Grow([], pairs[..n], run);
      at := GrowKeepsOrder(pairs[..n], run);
      forall i | 0 <= i < |at| ensures FirstAt(pairs, at[i], before[i], run) && at[i] < n {
        FirstAtPrefix(pairs, n, at[i], before[i], run);
      }
      GrowIsComplete(pairs[..n], run);
      if !Present(before, pairs[n]) {
        assert FirstAt(pairs, n, Perform(pairs[n], run), run);
        at := at + [n];
      }
    }
  }

  // -------------------------------------------------------------- resuming

  lemma {:induction false} GrowPresent(outcomes: seq<Outcome>, pairs: seq<Pair>, run: Runner)
    requires forall p :: p in pairs ==> Present(outcomes, p)
    ensures Grow(outcomes, pairs, run) == outcomes
  {
    if pairs != [] {
      assert pairs[|pairs| - 1] in pairs;
      assert forall p :: p in pairs[..|pairs| - 1] ==> p in pairs;
      GrowPresent(outcomes, pairs[..|pairs| - 1], run);
    }
  }

  lemma {:induction false} GrowCovers(prior: seq<Outcome>, pairs: seq<Pair>, run: Runner)
    ensures forall p :: p in pairs ==> Present(Grow(prior, pairs, run), p)
  {
    if pairs != [] {
      var n := |pairs| - 1;
      var before, full := Grow(prior, pairs[..n], run), Grow(prior, pairs, run);
      GrowCovers(prior, pairs[..n], run);
      assert pairs == pairs[..n] + [pairs[n]];
      forall p | p in pairs ensures Present(full, p) {
        if Present(before, p) {
          var i :| 0 <= i < |before| && before[i].strategy == p.strategy && before[i].taskId == p.task;
          assert full[i] == before[i];
        } else {
          assert full[|before|] == Perform(p, run);
        }
      }
    }
  }

  /** Resuming from any prefix of the list grown from any start ends with that very list. */
  lemma {:induction false} ResumeFromPrefix(prior: seq<Outcome>, pairs: seq<Pair>, k: nat, run: Runner)
    requires |prior| <= k <= |Grow(prior, pairs, run)|
    ensures Grow(Grow(prior, pairs, run)[..k], pairs, run) == Grow(prior, pairs, run)
  {
    var full := Grow(prior, pairs, run);
    if k == |full| {
      GrowCovers(prior, pairs, run);
      GrowPresent(full, pairs, run);
      assert full[..k] == full;
    } else {
      var n := |pairs| - 1;
      var before := Grow(prior, pairs[..n], run);
      assert full[..k] == before[..k];
      ResumeFromPrefix(prior, pairs[..n], k, run);
    }
  }

  lemma {:induction false} GrowAppend(outcomes: seq<Outcome>, left: seq<Pair>, right: seq<Pair>, run: Runner)
    ensures Grow(outcomes, left + right, run) == Grow(Grow(outcomes, left, run), right, run)
  {
    if right == [] {
      assert left + right == left;
    } else {
      var n := |right| - 1;
      assert (left + right)[..|left + right| - 1] == left + right[..n];
      GrowAppend(outcomes, left, right[..n], run);
    }
  }

  lemma GrowNext(outcomes: seq<Outcome>, pairs: seq<Pair>, p: Pair, run: Runner)
    ensures var before := Grow(outcomes, pairs, run);
      Grow(outcomes, pairs + [p], run) == if Present(before, p) then before else before + [Perform(p, run)]
  {
    assert (pairs + [p])[..|pairs + [p]| - 1] == pairs;
  }

  /** The outcome is new at position `k`: it is that of its own pair, which is among `pairs` and occurs nowhere before. */
  ghost predicate NewAt(outcomes: seq<Outcome>, k: nat, pairs: seq<Pair>, run: Runner) {
    && k < |outcomes|
    && var p := Pair(outcomes[k].strategy, outcomes[k].taskId);
    && p in pairs && outcomes[k].detail == run(p).report && outcomes[k].evidence == run(p).evidence
    && forall j :: 0 <= j < k ==> outcomes[j].strategy != p.strategy || outcomes[j].taskId != p.task
  }

  lemma {:induction false} GrowAdds(prior: seq<Outcome>, pairs: seq<Pair>, k: nat, run: Runner)
    requires |prior| <= k < |Grow(prior, pairs, run)|
    ensures NewAt(Grow(prior, pairs, run), k, pairs, run)
  {
    var n := |pairs| - 1;
    var before := Grow(prior, pairs[..n], run);
    if k < |before| {
      GrowAdds(prior, pairs[..n], k, run);
      assert NewAt(before, k, pairs[..n], run);
      assert forall j :: 0 <= j <= k ==> Grow(prior, pairs, run)[j] == before[j];
    }
  }

  /**
    What a finished run comes to: the outcomes it started from, and after them one for every strategy and task
    that was missing, each the result of its own pair.
   */
  ghost predicate Complete(strategies: seq<string>, tasks: seq<string>, run: Runner, prior: seq<Outcome>, outcomes: seq<Outcome>) {
    && prior <= outcomes
    && (forall s, t :: s in strategies && t in tasks ==>
          exists i :: 0 <= i < |outcomes| && outcomes[i].strategy == s && outcomes[i].taskId == t)
    && forall k :: |prior| <= k < |outcomes| ==>
         var o := outcomes[k];
         && o.strategy in strategies && o.taskId in tasks
         && o.detail == run(Pair(o.strategy, o.taskId)).report && o.evidence == run(Pair(o.strategy, o.taskId)).evidence
         && forall j :: 0 <= j < k ==> outcomes[j].strategy != o.strategy || outcomes[j].taskId != o.taskId
  }

  lemma FullIsComplete(strategies: seq<string>, tasks: seq<string>, run: Runner, prior: seq<Outcome>)
    ensures Complete(strategies, tasks, run, prior, Grow(prior, Pairs(strategies, tasks), run))
  {
    var pairs := Pairs(strategies, tasks);
    var full := Grow(prior, pairs, run);
    GrowCovers(prior, pairs, run);
    forall s, t | s in strategies && t in tasks
      ensures exists i :: 0 <= i < |full| && full[i].strategy == s && full[i].taskId == t
    {
      PairsAre(strategies, tasks, Pair(s, t));
      assert Present(full, Pair(s, t));
    }
    forall k | |prior| <= k < |full|
      ensures NewAt(full, k, pairs, run) && full[k].strategy in strategies && full[k].taskId in tasks
    {
      GrowAdds(prior, pairs, k, run);
      PairsAre(strategies, tasks, Pair(full[k].strategy, full[k].taskId));
    }
  }

  // -------------------------------------------------------------- the process

  datatype Temporary = Absent | Torn | Whole(value: Partial)

  datatype End = Finished(outcomes: seq<Outcome>) | Died | Rejected(error: string)

  /** How many of the missing outcomes reach the disk before the fuse burns down: as many as there is time for. */
  ghost predicate Durable(done: nat, missing: int, fuse: nat) {
    done <= missing && 4 * done <= fuse + 1 && (done < missing ==> fuse + 1 < 4 * (done + 1))
  }

  /** The stored file after `done` outcomes reached the disk. */
  ghost function Stored(before: Option<Partial>, identity: Identity, outcomes: seq<Outcome>, done: nat): Option<Partial> {
    if done == 0 then before else Some(Partial(PARTIAL_SCHEMA, identity, outcomes))
  }

  /** Where a run starts. */
  datatype Origin = Origin(identity: Identity, prior: seq<Outcome>, fuse: nat, file: Option<Partial>)

  /**
    How far a run came on its way to the list `goal`: what is left of the fuse, the stored file, whether
    the process is alive, and how many of the missing outcomes are stored.
   */
  ghost predicate Reached(o: Origin, goal: seq<Outcome>, fuse: nat, file: Option<Partial>, alive: bool, done: nat) {
    && o.prior <= goal
    && var missing := |goal| - |o.prior|;
    && alive == (o.fuse >= 4 * missing)
    && fuse == (if alive then o.fuse - 4 * missing else 0)
    && Durable(done, missing, o.fuse)
    && file == Stored(o.file, o.identity, goal[..|o.prior| + done], done)
  }

  lemma ReachedStart(o: Origin)
    ensures Reached(o, o.prior, o.fuse, o.file, true, 0)
  {
  }

  /** One more outcome: it is stored after three steps and takes four. */
  lemma ReachedNext(o: Origin, goal: seq<Outcome>, outcome: Outcome, fuse: nat, file: Option<Partial>, done: nat)
    requires Reached(o, goal, fuse, file, true, done)
    ensures var more := goal + [outcome];
      Reached(o, more, if fuse >= 4 then fuse - 4 else 0,
              if fuse >= 3 then Some(Partial(PARTIAL_SCHEMA, o.identity, more)) else file,
              fuse >= 4, if fuse >= 3 then done + 1 else done)
  {
    var more := goal + [outcome];
    assert done == |goal| - |o.prior|;
    assert more[..|o.prior| + done] == goal == goal[..|o.prior| + done];
    assert more[..|o.prior| + (done + 1)] == more;
  }

  /** A run that died on the way died on the way to everything that would have followed. */
  lemma ReachedDies(o: Origin, goal: seq<Outcome>, further: seq<Outcome>, fuse: nat, file: Option<Partial>, done: nat)
    requires Reached(o, goal, fuse, file, false, done) && goal <= further
    ensures Reached(o, further, fuse, file, false, done)
  {
    assert further[..|o.prior| + done] == goal[..|o.prior| + done];
  }

  /** How a run from `prior` ends: with the full list, or dead with as many of the missing outcomes stored as there was time for. */
  ghost predicate Outcomes(before: Option<Partial>, fuse: nat, prior: seq<Outcome>, full: seq<Outcome>, identity: Identity,
                           end: End, after: Option<Partial>, done: nat) {
    && prior <= full
    && var missing := |full| - |prior|;
    && Durable(done, missing, fuse)
    && if fuse >= 4 * missing + 2
       then end == Finished(full) && after == Some(Partial(PARTIAL_SCHEMA, identity, full))
       else end == Died && after == Stored(before, identity, full[..|prior| + done], done)
  }

  /** The stored file belongs to another suite, model or provider. */
  ghost predicate Foreign(file: Option<Partial>, identity: Identity) {
    file.Some? && (file.value.schema != PARTIAL_SCHEMA || file.value.identity != identity)
  }

  /** What a run starts from: the stored outcomes when resuming, nothing otherwise. */
  ghost function Prior(file: Option<Partial>, resume: bool): seq<Outcome> {
    if resume && file.Some? then file.value.outcomes else []
  }

  // ------------------------------------------------------- sealing what was read

  function EvidenceOf(outcomes: seq<Outcome>): (r: seq<E.Outcome>)
    ensures |r| == |outcomes|
  {
    seq(|outcomes|, i requires 0 <= i < |outcomes| => outcomes[i].evidence)
  }

  function WithEvidence(outcomes: seq<Outcome>, evidence: seq<E.Outcome>): (r: seq<Outcome>)
    requires |evidence| == |outcomes|
    ensures |r| == |outcomes|
  {
    seq(|outcomes|, i requires 0 <= i < |outcomes| => outcomes[i].(evidence := evidence[i]))
  }

  ghost function SealedAll(outcomes: seq<Outcome>): (r: seq<Outcome>)
    ensures |r| == |outcomes|
  {
    WithEvidence(outcomes, E.SealedOutcomes(EvidenceOf(outcomes)))
  }

  /** The files sealing asks for. */
  ghost function Jobs(outcomes: seq<Outcome>): seq<E.Job> {
    E.JobsOfOutcomes(EvidenceOf(outcomes))
  }

  /** No patch id names an uncompressed patch. */
  ghost predicate Archived(outcomes: seq<Outcome>) {
    forall i :: 0 <= i < |outcomes| ==> E.SealedThroughout(outcomes[i].evidence)
  }

  /** The ids an attempt records name archives from the start. */
  ghost predicate RecordsArchives(run: Runner) {
    forall p :: E.SealedThroughout(run(p).evidence)
  }

  lemma ArchivedSealsToItself(files: E.Files, outcomes: seq<Outcome>, tools: E.Tools)
    requires Archived(outcomes)
    ensures E.Ready(files, EvidenceOf(outcomes), tools)
    ensures SealedAll(outcomes) == outcomes && E.After(files, Jobs(outcomes), tools) == files
  {
    E.SealingAgainIsIdentity(files, EvidenceOf(outcomes), tools);
    var sealed := E.SealedOutcomes(EvidenceOf(outcomes));
    forall i | 0 <= i < |outcomes| ensures SealedAll(outcomes)[i] == outcomes[i] {
      assert sealed[i] == outcomes[i].evidence;
    }
  }

  /** Sealing what was stored changes nothing but patch ids, which follow their archives. */
  lemma SealedAllExactly(outcomes: seq<Outcome>, i: nat)
    requires i < |outcomes|
    ensures var o, sealed := outcomes[i], SealedAll(outcomes)[i];
      && sealed.strategy == o.strategy && sealed.taskId == o.taskId && sealed.detail == o.detail
      && E.Follows(o.evidence.evidenceIds, sealed.evidence.evidenceIds) && |sealed.evidence.attempts| == |o.evidence.attempts|
      && forall j :: 0 <= j < |o.evidence.attempts| ==>
           E.Follows(o.evidence.attempts[j].evidenceIds, sealed.evidence.attempts[j].evidenceIds)
  {
    E.SealedExactly(EvidenceOf(outcomes), i);
  }

  lemma SealedIsArchived(files: E.Files, outcomes: seq<Outcome>, tools: E.Tools)
    requires E.Ready(files, EvidenceOf(outcomes), tools)
    ensures Archived(SealedAll(outcomes))
  {
    forall i | 0 <= i < |outcomes| ensures E.SealedThroughout(SealedAll(outcomes)[i].evidence) {
      E.SealingIsThorough(files, EvidenceOf(outcomes), i, tools);
    }
  }

  lemma {:induction false} GrowArchived(prior: seq<Outcome>, pairs: seq<Pair>, run: Runner)
    requires Archived(prior) && RecordsArchives(run)
    ensures Archived(Grow(prior, pairs, run))
  {
    if pairs != [] {
      GrowArchived(prior, pairs[..|pairs| - 1], run);
      assert E.SealedThroughout(run(pairs[|pairs| - 1]).evidence);
    }
  }

  class Process {
    var partialFile: Option<Partial>
    var temporary: Temporary
    var fuse: nat

    constructor (partialFile: Option<Partial>)
      ensures this.partialFile == partialFile && temporary == Absent && fuse == 0
    {
      this.partialFile, temporary, fuse := partialFile, Absent, 0;
    }

    /** One step during which the process may die. */
    method Step() returns (alive: bool)
      modifies this`fuse
      ensures alive == (old(fuse) > 0)
      ensures fuse == if alive then old(fuse) - 1 else 0
    {
      alive := fuse > 0;
      if alive {
        fuse := fuse - 1;
      }
    }

    /** `writeTextAtomic`: the file is the old one or the new one, never a torn one. */
    method WriteAtomic(value: Partial) returns (alive: bool)
      modifies this
      ensures alive == (old(fuse) >= 2)
      ensures fuse == if alive then old(fuse) - 2 else 0
      ensures partialFile == if alive then Some(value) else old(partialFile)
    {
      alive := Step();
      if !alive {
        temporary := Torn;
        return;
      }
      temporary := Whole(value);
      alive := Step();
      if alive {
        partialFile, temporary := Some(temporary.value), Absent;
      }
    }

    /** `readPartial`; an Err is its thrown identity mismatch. */
    method ReadPartial(identity: Identity) returns (ok: bool, outcomes: seq<Outcome>)
      ensures ok == !Foreign(partialFile, identity)
      ensures ok ==> outcomes == Prior(partialFile, true)
    {
      if partialFile.None? {
        return true, [];
      }
      var value := partialFile.value;
      if value.schema != PARTIAL_SCHEMA || value.identity != identity {
        return false, [];
      }
      return true, value.outcomes;
    }

    /** The body of the loop for a missing pair. */
    method RunPair(outcomes: seq<Outcome>, pair: Pair, run: Runner, identity: Identity, ghost o: Origin, ghost done: nat)
        returns (alive: bool, now: seq<Outcome>, ghost done': nat)
      requires o.identity == identity && Reached(o, outcomes, fuse, partialFile, true, done)
      modifies this
      ensures now == outcomes + [Perform(pair, run)] && Reached(o, now, fuse, partialFile, alive, done')
    {
      ReachedNext(o, outcomes, Perform(pair, run), fuse, partialFile, done);
      done' := done;
      alive := Step();
      now := outcomes + [Perform(pair, run)];
      if alive {
        alive := WriteAtomic(Partial(PARTIAL_SCHEMA, identity, now));
        if alive {
          done' := done + 1;
          alive := Step();
        }
      }
    }

    /** The inner loop, over the tasks of one strategy. */
    method RunTasks(outcomes: seq<Outcome>, strategy: string, tasks: seq<string>, run: Runner, identity: Identity,
                    ghost o: Origin, ghost done: nat)
        returns (alive: bool, now: seq<Outcome>, ghost done': nat)
      requires o.identity == identity && Reached(o, outcomes, fuse, partialFile, true, done)
      modifies this
      ensures var goal := Grow(outcomes, Row(strategy, tasks), run);
        Reached(o, goal, fuse, partialFile, alive, done') && (alive ==> now == goal)
    {
      ghost var row := Row(strategy, tasks);
      alive, now, done' := true, outcomes, done;
      assert row[..0] == [];
      var t := 0;
      while t < |tasks|
        invariant t <= |tasks| && now == Grow(outcomes, row[..t], run)
        invariant alive && Reached(o, now, fuse, partialFile, true, done')
      {
        var pair := Pair(strategy, tasks[t]);
        assert row[..t + 1] == row[..t] + [pair];
        GrowNext(outcomes, row[..t], pair, run);
        RowPrefix(outcomes, row, t + 1, run);
        t := t + 1;
        if Present(now, pair) {
          continue;
        }
        assert now + [Perform(pair, run)] == Grow(outcomes, row[..t], run);
        alive, now, done' := RunPair(now, pair, run, identity, o, done');
        if !alive {
          ReachedDies(o, now, Grow(outcomes, row, run), fuse, partialFile, done');
          return;
        }
      }
      assert row[..t] == row;
    }

    /** The outer loop, over the strategies. */
    method RunStrategies(prior: seq<Outcome>, strategies: seq<string>, tasks: seq<string>, run: Runner, identity: Identity)
        returns (alive: bool, now: seq<Outcome>, ghost done: nat)
      modifies this
      ensures var goal := Grow(prior, Pairs(strategies, tasks), run);
        && Reached(Origin(identity, prior, old(fuse), old(partialFile)), goal, fuse, partialFile, alive, done)
        && (alive ==> now == goal)
    {
      ghost var o := Origin(identity, prior, fuse, partialFile);
      ReachedStart(o);
      alive, now, done := true, prior, 0;
      var s := 0;
      while s < |strategies|
        invariant s <= |strategies| && now == Grow(prior, Pairs(strategies[..s], tasks), run)
        invariant alive && Reached(o, now, fuse, partialFile, true, done)
      {
        GrowStrategy(strategies, tasks, s, prior, now, run);
        ghost var goal := Grow(now, Row(strategies[s], tasks), run);
        alive, now, done := RunTasks(now, strategies[s], tasks, run, identity, o, done);
        if !alive {
          ReachedDies(o, goal, Grow(prior, Pairs(strategies, tasks), run), fuse, partialFile, done);
          return;
        }
        s := s + 1;
      }
      assert strategies[..s] == strategies;
    }

    /** The loops and the last write, starting from the outcomes read. */
    method RunFrom(prior: seq<Outcome>, strategies: seq<string>, tasks: seq<string>, run: Runner, identity: Identity)
        returns (end: End, ghost done: nat)
      modifies this
      ensures Outcomes(old(partialFile), old(fuse), prior, Grow(prior, Pairs(strategies, tasks), run), identity, end, partialFile, done)
    {
      var alive, outcomes;
      alive, outcomes, done := RunStrategies(prior, strategies, tasks, run, identity);
      if !alive {
        return Died, done;
      }
      alive := WriteAtomic(Partial(PARTIAL_SCHEMA, identity, outcomes));
      return if alive then Finished(outcomes) else Died, done;
    }

    /**
      One run of the script, which dies when the fuse burns down.  A missing outcome takes four
      steps (running it, writing, renaming, the health check) and the last write two; `done` of the
      missing outcomes are on disk at the end.
     */
    method Session(archive: E.Evidence, strategies: seq<string>, tasks: seq<string>, run: Runner, identity: Identity, resume: bool)
        returns (end: End, ghost done: nat)
      requires E.KeepsPatch(archive.tools)
      modifies this, archive
      ensures var prior := Prior(old(partialFile), resume);
        && end.Rejected? == ((resume && Foreign(old(partialFile), identity))
                             || !E.Ready(old(archive.files), EvidenceOf(prior), archive.tools))
        && (end.Rejected? ==> partialFile == old(partialFile))
        && (!end.Rejected? ==>
              && archive.files == E.After(old(archive.files), Jobs(prior), archive.tools)
              && Outcomes(old(partialFile), old(fuse), SealedAll(prior), Grow(SealedAll(prior), Pairs(strategies, tasks), run),
                          identity, end, partialFile, done))
      ensures end.Finished? && resume && old(partialFile).Some? ==>
        Complete(strategies, tasks, run, SealedAll(old(partialFile.value.outcomes)), end.outcomes)
      ensures end.Finished? && !(resume && old(partialFile).Some?) ==> Complete(strategies, tasks, run, [], end.outcomes)
      ensures !resume ==> !end.Rejected?
    {
      var prior: seq<Outcome> := [];
      if resume {
        var ok;
        ok, prior := ReadPartial(identity);
        if !ok {
          return Rejected("mutation_partial_identity_mismatch"), 0;
        }
      }
      var sealed := archive.SealLegacyPatchEvidence(EvidenceOf(prior));
      if sealed.Thrown? {
        return Rejected(sealed.error), 0;
      }
      end, done := RunFrom(WithEvidence(prior, sealed.value), strategies, tasks, run, identity);
      FullIsComplete(strategies, tasks, run, WithEvidence(prior, sealed.value));
    }
  }

  lemma RowPrefix(outcomes: seq<Outcome>, pairs: seq<Pair>, t: nat, run: Runner)
    requires t <= |pairs|
    ensures Grow(outcomes, pairs[..t], run) <= Grow(outcomes, pairs, run)
  {
    assert pairs == pairs[..t] + pairs[t..];
    GrowAppend(outcomes, pairs[..t], pairs[t..], run);
  }

  /** One more strategy adds one more row, and what the rows so far give is a prefix of the full list. */
  lemma GrowStrategy(strategies: seq<string>, tasks: seq<string>, s: nat, prior: seq<Outcome>, before: seq<Outcome>, run: Runner)
    requires s < |strategies| && before == Grow(prior, Pairs(strategies[..s], tasks), run)
    ensures var row := Grow(before, Row(strategies[s], tasks), run);
      && before <= row
      && row == Grow(prior, Pairs(strategies[..s + 1], tasks), run)
      && row <= Grow(prior, Pairs(strategies, tasks), run)
  {
    assert strategies[..s + 1][..s] == strategies[..s];
    GrowAppend(prior, Pairs(strategies[..s], tasks), Row(strategies[s], tasks), run);
    PairsAppend(strategies, tasks, s + 1);
    GrowAppend(prior, Pairs(strategies[..s + 1], tasks), Pairs(strategies[s + 1..], tasks), run);
  }

  lemma {:induction false} PairsAppend(strategies: seq<string>, tasks: seq<string>, s: nat)
    requires s <= |strategies|
    ensures Pairs(strategies, tasks) == Pairs(strategies[..s], tasks) + Pairs(strategies[s..], tasks)
  {
    if s == |strategies| {
      assert strategies[..s] == strategies;
    } else {
      var n := |strategies| - 1;
      PairsAppend(strategies[..n], tasks, s);
      assert strategies[..n][..s] == strategies[..s] && strategies[..n][s..] == strategies[s..][..n - s];
    }
  }

  /** The process holds the first `k` outcomes of the full list, under its own identity. */
  ghost predicate Holds(file: Option<Partial>, identity: Identity, full: seq<Outcome>, k: nat) {
    k <= |full| && Prior(file, true) == full[..k] && !Foreign(file, identity)
  }

  /** What is on disk between runs. */
  datatype Disk = Disk(file: Option<Partial>, files: E.Files)

  /** What a series of runs is about: the disk it began with, and the list it works towards. */
  datatype Series = Series(first: Disk, pairs: seq<Pair>, run: Runner, identity: Identity, tools: E.Tools)

  ghost function Told(s: Series): seq<Outcome> {
    Prior(s.first.file, true)
  }

  /** The list of a single uninterrupted run from the sealed stored outcomes. */
  ghost function Full(s: Series): seq<Outcome> {
    Grow(SealedAll(Told(s)), s.pairs, s.run)
  }

  /** The stored file is of this suite, and its evidence can be sealed. */
  ghost predicate Resumable(s: Series, now: Disk) {
    !Foreign(now.file, s.identity) && E.Ready(now.files, EvidenceOf(Prior(now.file, true)), s.tools)
  }

  /** A stored file is read if and only if schema, suite, model and provider are the run's own. */
  lemma ForeignExactly(file: Option<Partial>, identity: Identity)
    ensures !Foreign(file, identity) <==>
      (file.Some? ==> && file.value.schema == "agent-control.harness-mutation-partial/v1"
                      && file.value.identity.suiteId == identity.suiteId
                      && file.value.identity.model == identity.model && file.value.identity.provider == identity.provider)
  {
  }

  /** Where a series stands: as it began, sealed but with nothing stored, or with the first `k` outcomes stored. */
  datatype Stage = Begun | Unsaved | Holding(k: nat)

  ghost predicate At(stage: Stage, s: Series, now: Disk) {
    match stage
    case Begun => now == s.first
    case Unsaved =>
      && Resumable(s, s.first) && Jobs(Told(s)) != []
      && now == Disk(s.first.file, E.After(s.first.files, Jobs(Told(s)), s.tools))
    case Holding(k) => Resumable(s, s.first) && |Told(s)| <= k && Holds(now.file, s.identity, Full(s), k)
  }

  /** How many outcomes of the list are stored. */
  ghost function Have(stage: Stage, s: Series): nat {
    if stage.Holding? then stage.k else |Told(s)|
  }

  /** One run: what it read from the disk, and how it ended. */
  ghost predicate RunFromDisk(s: Series, now: Disk, fuse: nat, end: End, after: Disk, done: nat) {
    var prior := Prior(now.file, true);
    && after.files == E.After(now.files, Jobs(prior), s.tools)
    && Outcomes(now.file, fuse, SealedAll(prior), Grow(SealedAll(prior), s.pairs, s.run), s.identity, end, after.file, done)
  }

  /** A run that sealed and died before it stored anything cannot be resumed. */
  lemma UnsavedIsStuck(s: Series, now: Disk)
    requires E.KeepsPatch(s.tools) && At(Unsaved, s, now)
    ensures !Resumable(s, now)
  {
    var jobs := Jobs(Told(s));
    assert jobs[..|jobs|] == jobs;
    E.UnsavedSealingCannotResume(s.first.files, EvidenceOf(Told(s)), |jobs|, now.files, s.tools);
  }

  /** Stored outcomes seal to themselves and grow to the same list. */
  lemma HoldingGrows(s: Series, now: Disk, k: nat)
    requires RecordsArchives(s.run) && At(Holding(k), s, now)
    ensures var prior := Prior(now.file, true);
      && Resumable(s, now) && SealedAll(prior) == prior && E.After(now.files, Jobs(prior), s.tools) == now.files
      && Grow(prior, s.pairs, s.run) == Full(s)
  {
    SealedIsArchived(s.first.files, Told(s), s.tools);
    GrowArchived(SealedAll(Told(s)), s.pairs, s.run);
    ArchivedSealsToItself(now.files, Full(s)[..k], s.tools);
    ResumeFromPrefix(SealedAll(Told(s)), s.pairs, k, s.run);
  }

  /** The stage a run leaves behind. */
  ghost function NextStage(stage: Stage, s: Series, end: End, done: nat): Stage {
    if end.Finished? then Holding(|Full(s)|)
    else if stage.Holding? || done > 0 then Holding(Have(stage, s) + done)
    else if Jobs(Told(s)) == [] then Begun
    else Unsaved
  }

  /** How far a run comes: to the end when it lives long enough, and else as many outcomes on as it had time to store. */
  ghost predicate Comes(stage: Stage, s: Series, fuse: nat, end: End, stage': Stage) {
    var missing := |Full(s)| - Have(stage, s);
    if fuse >= 4 * missing + 2 then end == Finished(Full(s))
    else end == Died && Have(stage', s) >= Have(stage, s) && Durable(Have(stage', s) - Have(stage, s), missing, fuse)
  }

  lemma BegunAdvances(s: Series, fuse: nat, end: End, after: Disk, done: nat)
    requires Resumable(s, s.first) && RunFromDisk(s, s.first, fuse, end, after, done)
    ensures At(NextStage(Begun, s, end, done), s, after) && Comes(Begun, s, fuse, end, NextStage(Begun, s, end, done))
  {
    assert Full(s)[..|Full(s)|] == Full(s);
  }

  lemma HoldingAdvances(s: Series, now: Disk, k: nat, fuse: nat, end: End, after: Disk, done: nat)
    requires RecordsArchives(s.run) && At(Holding(k), s, now) && RunFromDisk(s, now, fuse, end, after, done)
    ensures var stage' := NextStage(Holding(k), s, end, done);
      At(stage', s, after) && Comes(Holding(k), s, fuse, end, stage')
  {
    HoldingGrows(s, now, k);
    assert Full(s)[..|Full(s)|] == Full(s);
  }

  /** One resumed run, at any stage: it is rejected exactly when it has to be, and otherwise comes as far as it has time for. */
  method ResumeOnce(process: Process, archive: E.Evidence, strategies: seq<string>, tasks: seq<string>, run: Runner,
                    identity: Identity, ghost s: Series, ghost stage: Stage)
      returns (end: End, ghost stage': Stage)
    requires s.pairs == Pairs(strategies, tasks) && s.run == run && s.identity == identity && s.tools == archive.tools
    requires E.KeepsPatch(archive.tools) && RecordsArchives(run)
    requires At(stage, s, Disk(process.partialFile, archive.files))
    modifies process, archive
    ensures end.Rejected? == (!Resumable(s, s.first) || stage == Unsaved)
    ensures !end.Rejected? ==>
      At(stage', s, Disk(process.partialFile, archive.files)) && Comes(stage, s, old(process.fuse), end, stage')
  {
    ghost var now, fuse := Disk(process.partialFile, archive.files), process.fuse;
    if stage.Holding? {
      HoldingGrows(s, now, stage.k);
    } else if stage == Unsaved {
      UnsavedIsStuck(s, now);
    }
    ghost var done;
    end, done := process.Session(archive, strategies, tasks, run, identity, true);
    stage' := NextStage(stage, s, end, done);
    if !end.Rejected? {
      if stage == Begun {
        BegunAdvances(s, fuse, end, Disk(process.partialFile, archive.files), done);
      } else {
        HoldingAdvances(s, now, stage.k, fuse, end, Disk(process.partialFile, archive.files), done);
      }
    }
  }

  /** Some run lives long enough to go through everything that was missing at the start. */
  ghost predicate LongEnough(s: Series, fuses: seq<nat>) {
    exists fuse :: fuse in fuses && fuse >= 4 * (|Full(s)| - |Told(s)|) + 2
  }

  /** Where the runs `gone` so far have led. */
  ghost predicate SoFar(s: Series, gone: seq<nat>, end: End, stage: Stage, now: Disk) {
    && (end.Finished? ==> end == Finished(Full(s)) && Resumable(s, s.first))
    && (end.Rejected? ==> !Resumable(s, s.first) || Jobs(Told(s)) != [])
    && (end.Died? ==> At(stage, s, now) && !LongEnough(s, gone) && (gone != [] ==> Resumable(s, s.first)))
  }

  lemma OneMoreRun(s: Series, gone: seq<nat>, stage: Stage, now: Disk, fuse: nat, end: End, stage': Stage, after: Disk)
    requires SoFar(s, gone, Died, stage, now)
    requires end.Rejected? == (!Resumable(s, s.first) || stage == Unsaved)
    requires !end.Rejected? ==> At(stage', s, after) && Comes(stage, s, fuse, end, stage')
    ensures SoFar(s, gone + [fuse], end, stage', after)
  {
    assert Have(stage, s) >= |Told(s)|;
  }

  /**
    Any number of runs from whatever is stored, each cut off at any step and each resuming from the file.
    Whenever one of them finishes, its outcomes are those of a single uninterrupted run from the sealed
    stored outcomes.  Runs are rejected only for a foreign file, for evidence that cannot be sealed, or
    after a run that sealed something and died before it stored anything.
   */
  method RunUntilDone(process: Process, archive: E.Evidence, strategies: seq<string>, tasks: seq<string>, run: Runner,
                      identity: Identity, fuses: seq<nat>)
      returns (end: End)
    requires E.KeepsPatch(archive.tools) && RecordsArchives(run)
    modifies process, archive
    ensures var s := Series(Disk(old(process.partialFile), old(archive.files)), Pairs(strategies, tasks), run, identity, archive.tools);
      && (end.Finished? ==> end == Finished(Full(s)) && Complete(strategies, tasks, run, SealedAll(Told(s)), end.outcomes))
      && (end.Rejected? ==> !Resumable(s, s.first) || Jobs(Told(s)) != [])
      && (!Resumable(s, s.first) && fuses != [] ==> end.Rejected?)
      && (Resumable(s, s.first) && Jobs(Told(s)) == [] && LongEnough(s, fuses) ==> end.Finished?)
  {
    ghost var s := Series(Disk(process.partialFile, archive.files), Pairs(strategies, tasks), run, identity, archive.tools);
    ghost var stage := Begun;
    end := Died;
    var i := 0;
    while i < |fuses| && end.Died?
      invariant i <= |fuses|
      invariant SoFar(s, fuses[..i], end, stage, Disk(process.partialFile, archive.files))
    {
      ghost var now, was := Disk(process.partialFile, archive.files), stage;
      process.fuse := fuses[i];
      end, stage := ResumeOnce(process, archive, strategies, tasks, run, identity, s, stage);
      OneMoreRun(s, fuses[..i], was, now, fuses[i], end, stage, Disk(process.partialFile, archive.files));
      assert fuses[..i + 1] == fuses[..i] + [fuses[i]];
      i := i + 1;
    }
    assert end.Died? ==> fuses[..i] == fuses;
    FullIsComplete(strategies, tasks, run, SealedAll(Told(s)));
  }

  /** With nothing stored there is nothing to seal, and the first run is never rejected. */
  lemma NothingStored(s: Series)
    requires s.first.file.None?
    ensures Resumable(s, s.first) && Jobs(Told(s)) == [] && Full(s) == Grow([], s.pairs, s.run)
  {
    assert SealedAll([]) == [];
  }
}

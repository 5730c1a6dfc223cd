/**
  Sealing legacy patch evidence: every uncompressed `.patch` an attempt refers to is replaced by a
  `.patch.gz`, its ids follow, and the outcome's own ids follow its attempts.
 */
module EvidenceSealing {
  import opened Text

  datatype Attempt = Attempt(evidenceIds: seq<string>, diffSha256: string)

  datatype Outcome = Outcome(attempts: seq<Attempt>, evidenceIds: seq<string>)

  datatype Result<+T> = Done(value: T) | Thrown(error: string)

  /** SHA-256, gzip, gunzip, `path.resolve(root, _)` and the test that a path stays inside the evidence directory. */
  datatype Tools = Tools(
    digest: string -> string, gzip: string -> string, gunzip: string -> string,
    resolve: string -> string, inside: string -> bool)

  type Files = map<string, string>

  const PATCH := "patch:"

  predicate Legacy(id: string) {
    StartsWith(id, PATCH) && !EndsWith(id, ".patch.gz")
  }

  function Relative(id: string): string
    requires Legacy(id)
  {
    id[|PATCH|..]
  }

  function Source(id: string, tools: Tools): string
    requires Legacy(id)
  {
    tools.resolve(Relative(id))
  }

  function SealedId(id: string): string {
    if Legacy(id) then id + ".gz" else id
  }

  function SealedIds(ids: seq<string>): (r: seq<string>)
    ensures |r| == |ids|
  {
    seq(|ids|, i requires 0 <= i < |ids| => SealedId(ids[i]))
  }

  /** Resolving a path keeps the name of the file it ends with. */
  ghost predicate KeepsPatch(tools: Tools) {
    forall p :: EndsWith(p, ".patch") ==> EndsWith(tools.resolve(p), ".patch")
  }

  // ---------------------------------------------------------- one legacy id

  /** A legacy id to seal, with the hash its attempt recorded. */
  datatype AnyJob = Job(id: string, expected: string)

  type Job = job: AnyJob | Legacy(job.id) witness AnyJob.Job("patch:", "")

  /** Why an id cannot be sealed, or None. */
  function Problem(files: Files, job: Job, tools: Tools): Option<string>
  {
    var source := Source(job.id, tools);
    if !EndsWith(Relative(job.id), ".patch") then Some("mutation_patch_evidence_extension_invalid")
    else if !tools.inside(source) then Some("mutation_patch_evidence_outside_directory")
    else if source !in files then Some("mutation_patch_evidence_missing")
    else if tools.digest(files[source]) != job.expected then Some("mutation_patch_evidence_hash_mismatch")
    else if tools.gunzip(tools.gzip(files[source])) != files[source] then Some("mutation_patch_evidence_round_trip_failed")
    else None
  }

  /** The files after sealing one source: the archive in, the source and the temporary file out. */
  ghost function SealFile(files: Files, source: string, tools: Tools): Files
    requires source in files
  {
    (files - {source, source + ".gz.tmp"})[source + ".gz" := tools.gzip(files[source])]
  }

  /** Every job can be sealed, and no file is asked for twice. */
  ghost predicate Good(files: Files, jobs: seq<Job>, tools: Tools)
  {
    && (forall i :: 0 <= i < |jobs| ==> Problem(files, jobs[i], tools).None?)
    && (forall i, j :: 0 <= i < j < |jobs| ==> Source(jobs[i].id, tools) != Source(jobs[j].id, tools))
  }

  ghost function After(files: Files, jobs: seq<Job>, tools: Tools): Files
  {
    if jobs == [] then files
    else
      var before := After(files, jobs[..|jobs| - 1], tools);
      var source := Source(jobs[|jobs| - 1].id, tools);
      if source in before then SealFile(before, source, tools) else before
  }

  lemma PatchNames(source: string)
    requires EndsWith(source, ".patch")
    ensures forall s :: source != s + ".gz" && source != s + ".gz.tmp"
  {
    forall s ensures source != s + ".gz" && source != s + ".gz.tmp" {
      assert source[|source| - 1] == 'h';
      assert (s + ".gz")[|s + ".gz"| - 1] == 'z';
      assert (s + ".gz.tmp")[|s + ".gz.tmp"| - 1] == 'p';
    }
  }

  /** Sealing other sources does not touch a source that has yet to be sealed. */
  lemma {:induction false} SourceUntouched(files: Files, jobs: seq<Job>, source: string, tools: Tools)
    requires EndsWith(source, ".patch")
    requires forall i :: 0 <= i < |jobs| ==> Source(jobs[i].id, tools) != source
    ensures source in After(files, jobs, tools) <==> source in files
    ensures source in files ==> After(files, jobs, tools)[source] == files[source]
  {
    if jobs != [] {
      SourceUntouched(files, jobs[..|jobs| - 1], source, tools);
      PatchNames(source);
    }
  }

  /** A sealed source is gone, so it cannot be sealed again. */
  lemma {:induction false} SourceGone(files: Files, jobs: seq<Job>, k: nat, tools: Tools)
    requires k < |jobs| && EndsWith(Source(jobs[k].id, tools), ".patch")
    ensures Source(jobs[k].id, tools) !in After(files, jobs, tools)
  {
    var n := |jobs| - 1;
    PatchNames(Source(jobs[k].id, tools));
    if k < n {
      SourceGone(files, jobs[..n], k, tools);
    }
  }

  lemma ProblemKept(files: Files, jobs: seq<Job>, job: Job, tools: Tools)
    requires KeepsPatch(tools)
    requires forall i :: 0 <= i < |jobs| ==> Source(jobs[i].id, tools) != Source(job.id, tools)
    ensures Problem(After(files, jobs, tools), job, tools) == Problem(files, job, tools)
  {
    if EndsWith(Relative(job.id), ".patch") {
      assert EndsWith(tools.resolve(Relative(job.id)), ".patch");
      SourceUntouched(files, jobs, Source(job.id, tools), tools);
    }
  }

  /** Sealing job after job succeeds exactly when all of them are good together. */
  lemma GoodNext(files: Files, jobs: seq<Job>, job: Job, tools: Tools)
    requires KeepsPatch(tools)
    ensures Good(files, jobs + [job], tools)
       <==> Good(files, jobs, tools) && Problem(After(files, jobs, tools), job, tools).None?
  {
    var all := jobs + [job];
    var n := |jobs|;
    assert all[n] == job && forall i :: 0 <= i < n ==> all[i] == jobs[i];
    if Good(files, all, tools) {
      assert Problem(files, all[n], tools).None?;
      forall i | 0 <= i < n ensures Source(jobs[i].id, tools) != Source(job.id, tools) && Problem(files, jobs[i], tools).None? {
        assert Source(all[i].id, tools) != Source(all[n].id, tools) && Problem(files, all[i], tools).None?;
      }
      ProblemKept(files, jobs, job, tools);
      assert Good(files, jobs, tools);
    }
    if Good(files, jobs, tools) && Problem(After(files, jobs, tools), job, tools).None? {
      forall i | 0 <= i < n ensures Source(jobs[i].id, tools) != Source(job.id, tools) {
        assert Problem(files, jobs[i], tools).None?;
        assert EndsWith(tools.resolve(Relative(jobs[i].id)), ".patch");
        SourceGone(files, jobs, i, tools);
      }
      ProblemKept(files, jobs, job, tools);
    }
  }

  lemma {:induction false} GoodPrefix(files: Files, jobs: seq<Job>, more: seq<Job>, tools: Tools)
    requires Good(files, jobs + more, tools)
    ensures Good(files, jobs, tools)
  {
    var all := jobs + more;
    assert forall i :: 0 <= i < |jobs| ==> all[i] == jobs[i];
    forall i, j | 0 <= i < j < |jobs| ensures Source(jobs[i].id, tools) != Source(jobs[j].id, tools) {
      assert Source(all[i].id, tools) != Source(all[j].id, tools);
    }
  }

  lemma Regroup(a: seq<Job>, b: seq<Job>, c: seq<Job>)
    ensures (a + b) + c == a + (b + c)
  {
  }

  lemma PrefixGood(files: Files, a: seq<Job>, b: seq<Job>, c: seq<Job>, tools: Tools)
    ensures Good(files, a + (b + c), tools) ==> Good(files, a + b, tools)
  {
    Regroup(a, b, c);
    if Good(files, a + (b + c), tools) {
      GoodPrefix(files, a + b, c, tools);
    }
  }

  lemma AfterNext(files: Files, jobs: seq<Job>, job: Job, tools: Tools)
    ensures var before, source := After(files, jobs, tools), Source(job.id, tools);
      After(files, jobs + [job], tools) == if source in before then SealFile(before, source, tools) else before
  {
    assert (jobs + [job])[..|jobs + [job]| - 1] == jobs;
  }

  // ------------------------------------------------------ what sealing leaves

  ghost predicate Touches(job: Job, path: string, tools: Tools)
  {
    var source := Source(job.id, tools);
    path == source || path == source + ".gz" || path == source + ".gz.tmp"
  }

  /** Files no job touches stay as they are. */
  lemma {:induction false} OthersUntouched(files: Files, jobs: seq<Job>, path: string, tools: Tools)
    requires forall i :: 0 <= i < |jobs| ==> !Touches(jobs[i], path, tools)
    ensures path in After(files, jobs, tools) <==> path in files
    ensures path in files ==> After(files, jobs, tools)[path] == files[path]
  {
    if jobs != [] {
      OthersUntouched(files, jobs[..|jobs| - 1], path, tools);
    }
  }

  lemma DifferentArchives(s: string, t: string)
    requires s != t
    ensures s + ".gz" != t + ".gz" && s + ".gz" != t + ".gz.tmp"
  {
    var a, b, c := s + ".gz", t + ".gz", t + ".gz.tmp";
    assert a[..|a| - 3] == s && b[..|b| - 3] == t;
    assert a[|a| - 1] == 'z' && c[|c| - 1] == 'p';
  }

  /** Each sealed patch is gone, and its archive is what the patch compresses to and decompresses to what it was. */
  lemma {:induction false} PatchBecomesArchive(files: Files, jobs: seq<Job>, k: nat, tools: Tools)
    requires KeepsPatch(tools) && Good(files, jobs, tools) && k < |jobs|
    ensures var source, after := Source(jobs[k].id, tools), After(files, jobs, tools);
      && source in files && source !in after
      && source + ".gz" in after && after[source + ".gz"] == tools.gzip(files[source])
      && tools.gunzip(after[source + ".gz"]) == files[source]
  {
    var n := |jobs| - 1;
    var before, source, last := jobs[..n], Source(jobs[k].id, tools), Source(jobs[n].id, tools);
    assert before + [jobs[n]] == jobs;
    GoodPrefix(files, before, [jobs[n]], tools);
    GoodNext(files, before, jobs[n], tools);
    GoodSource(files, jobs, k, tools);
    if k < n {
      PatchBecomesArchive(files, before, k, tools);
      GoodSource(files, jobs, n, tools);
      assert source != last;
      ArchiveStays(After(files, before, tools), last, source, tools);
    } else {
      forall i | 0 <= i < n ensures Source(before[i].id, tools) != source {
        assert Source(jobs[i].id, tools) != Source(jobs[n].id, tools);
      }
      SourceUntouched(files, before, source, tools);
      PatchNames(source);
    }
  }

  lemma GoodSource(files: Files, jobs: seq<Job>, k: nat, tools: Tools)
    requires KeepsPatch(tools) && Good(files, jobs, tools) && k < |jobs|
    ensures var source := Source(jobs[k].id, tools);
      EndsWith(source, ".patch") && source in files && tools.gunzip(tools.gzip(files[source])) == files[source]
  {
    assert Problem(files, jobs[k], tools).None?;
    assert EndsWith(tools.resolve(Relative(jobs[k].id)), ".patch");
  }

  /** Sealing another patch leaves an archive, and what is gone gone. */
  lemma ArchiveStays(files: Files, sealed: string, source: string, tools: Tools)
    requires EndsWith(sealed, ".patch") && EndsWith(source, ".patch") && sealed != source && sealed in files
    requires source !in files && source + ".gz" in files
    ensures var after := SealFile(files, sealed, tools);
      source !in after && source + ".gz" in after && after[source + ".gz"] == files[source + ".gz"]
  {
    PatchNames(source);
    PatchNames(sealed);
    DifferentArchives(source, sealed);
  }

  // ------------------------------------------------------------- jobs of lists

  function JobsOf(ids: seq<string>, expected: string): (r: seq<Job>)
  {
    if ids == [] then []
    else
      var last := ids[|ids| - 1];
      JobsOf(ids[..|ids| - 1], expected) + (if Legacy(last) then [Job(last, expected)] else [])
  }

  function JobsOfAttempts(attempts: seq<Attempt>): (r: seq<Job>)
  {
    if attempts == [] then []
    else
      var last := attempts[|attempts| - 1];
      JobsOfAttempts(attempts[..|attempts| - 1]) + JobsOf(last.evidenceIds, last.diffSha256)
  }

  function JobsOfOutcomes(outcomes: seq<Outcome>): (r: seq<Job>)
  {
    if outcomes == [] then []
    else JobsOfOutcomes(outcomes[..|outcomes| - 1]) + JobsOfAttempts(outcomes[|outcomes| - 1].attempts)
  }

  function SealedAttempts(attempts: seq<Attempt>): (r: seq<Attempt>)
    ensures |r| == |attempts|
  {
    seq(|attempts|, i requires 0 <= i < |attempts| => Attempt(SealedIds(attempts[i].evidenceIds), attempts[i].diffSha256))
  }

  function SealedOutcome(o: Outcome): Outcome {
    Outcome(SealedAttempts(o.attempts), SealedIds(o.evidenceIds))
  }

  function SealedOutcomes(outcomes: seq<Outcome>): (r: seq<Outcome>)
    ensures |r| == |outcomes|
  {
    seq(|outcomes|, i requires 0 <= i < |outcomes| => SealedOutcome(outcomes[i]))
  }

  /** Some attempt, once sealed, refers to the archive of the outcome's legacy id. */
  predicate Backed(attempts: seq<Attempt>, id: string) {
    exists i :: 0 <= i < |attempts| && id + ".gz" in attempts[i].evidenceIds
  }

  predicate AllBacked(attempts: seq<Attempt>, ids: seq<string>) {
    forall i :: 0 <= i < |ids| && Legacy(ids[i]) ==> Backed(attempts, ids[i])
  }

  /** Every outcome's legacy ids are backed by its attempts. */
  ghost predicate AllFollow(outcomes: seq<Outcome>) {
    forall i :: 0 <= i < |outcomes| ==> AllBacked(SealedAttempts(outcomes[i].attempts), outcomes[i].evidenceIds)
  }

  /** The exact condition for sealing to succeed. */
  ghost predicate Ready(files: Files, outcomes: seq<Outcome>, tools: Tools) {
    Good(files, JobsOfOutcomes(outcomes), tools) && AllFollow(outcomes)
  }

  class Evidence {
    var files: Files
    const tools: Tools

    constructor (files: Files, tools: Tools)
      ensures this.files == files && this.tools == tools
    {
      this.files, this.tools := files, tools;
    }

    /** `writePatchEvidence`: checks the hash and the round trip, then replaces the archive through a temporary file. */
    method WritePatchEvidence(file: string, content: string, expected: string) returns (error: Option<string>)
      modifies this
      ensures error == if tools.digest(content) != expected then Some("mutation_patch_evidence_hash_mismatch")
                       else if tools.gunzip(tools.gzip(content)) != content then Some("mutation_patch_evidence_round_trip_failed")
                       else None
      ensures files == if error.None? then (old(files) - {file + ".tmp"})[file := tools.gzip(content)] else old(files)
    {
      if tools.digest(content) != expected {
        return Some("mutation_patch_evidence_hash_mismatch");
      }
      var archive := tools.gzip(content);
      if tools.gunzip(archive) != content {
        return Some("mutation_patch_evidence_round_trip_failed");
      }
      files := files[file + ".tmp" := archive];
      assert |file + ".tmp"| != |file|;
      files := (files - {file + ".tmp"})[file := files[file + ".tmp"]];
      return None;
    }

    /** The body of `sealIds` for a legacy id. */
    method SealOne(id: string, expected: string) returns (error: Option<string>)
      requires Legacy(id) && KeepsPatch(tools)
      modifies this
      ensures error == Problem(old(files), Job(id, expected), tools)
      ensures error.None? ==> Source(id, tools) in old(files) && files == SealFile(old(files), Source(id, tools), tools)
      ensures error.Some? ==> files == old(files)
    {
      var relative := id[|PATCH|..];
      if !EndsWith(relative, ".patch") {
        return Some("mutation_patch_evidence_extension_invalid");
      }
      var source := tools.resolve(relative);
      if !tools.inside(source) {
        return Some("mutation_patch_evidence_outside_directory");
      }
      if source !in files {
        return Some("mutation_patch_evidence_missing");
      }
      error := WritePatchEvidence(source + ".gz", files[source], expected);
      if error.None? {
        PatchNames(source);
        assert source + ".gz" + ".tmp" == source + ".gz.tmp";
        files := files - {source};
      }
    }

    /** `sealIds`: on success every legacy id is replaced in place of the list, and every other id kept. */
    method SealIds(ids: seq<string>, expected: string, ghost start: Files, ghost before: seq<Job>) returns (r: Result<seq<string>>)
      requires KeepsPatch(tools) && Progress(start, before, files, tools)
      modifies this
      ensures r.Done? <==> Good(start, before + JobsOf(ids, expected), tools)
      ensures r.Done? ==> r.value == SealedIds(ids) && Progress(start, before + JobsOf(ids, expected), files, tools)
      ensures r.Thrown? ==> Stopped(start, before + JobsOf(ids, expected), files, r.error, tools)
    {
      var sealed: seq<string> := [];
      ghost var jobs := before;
      assert before + [] == before;
      var i := 0;
      while i < |ids|
        invariant i <= |ids| && sealed == SealedIds(ids[..i])
        invariant jobs == before + JobsOf(ids[..i], expected) && Progress(start, jobs, files, tools)
      {
        NextId(ids, i, expected, before);
        if !Legacy(ids[i]) {
          sealed := sealed + [ids[i]];
        } else {
          ghost var job := Job(ids[i], expected);
          ProgressNext(start, jobs, job, files, tools);
          var error := SealOne(ids[i], expected);
          if error.Some? {
            JobsOfPrefix(ids, i + 1, expected, start, before, tools);
            StoppedInIds(ids, i, expected, start, before, files, error.value, tools);
            return Thrown(error.value);
          }
          jobs := jobs + [job];
          sealed := sealed + [ids[i] + ".gz"];
        }
        i := i + 1;
      }
      assert ids[..i] == ids;
      return Done(sealed);
    }

    /** The attempts of one outcome. */
    method SealAttempts(attempts: seq<Attempt>, ghost start: Files, ghost before: seq<Job>) returns (r: Result<seq<Attempt>>)
      requires KeepsPatch(tools) && Progress(start, before, files, tools)
      modifies this
      ensures r.Done? <==> Good(start, before + JobsOfAttempts(attempts), tools)
      ensures r.Done? ==> r.value == SealedAttempts(attempts) && Progress(start, before + JobsOfAttempts(attempts), files, tools)
      ensures r.Thrown? ==> Stopped(start, before + JobsOfAttempts(attempts), files, r.error, tools)
    {
      var sealed: seq<Attempt> := [];
      ghost var jobs := before;
      assert before + [] == before;
      var i := 0;
      while i < |attempts|
        invariant i <= |attempts| && sealed == SealedAttempts(attempts[..i])
        invariant jobs == before + JobsOfAttempts(attempts[..i]) && Progress(start, jobs, files, tools)
      {
        NextAttempt(attempts, i, before);
        ghost var more := JobsOf(attempts[i].evidenceIds, attempts[i].diffSha256);
        var ids := SealIds(attempts[i].evidenceIds, attempts[i].diffSha256, start, jobs);
        if ids.Thrown? {
          AttemptsPrefix(attempts, i + 1, start, before, tools);
          StoppedInAttempts(attempts, i + 1, start, before, files, ids.error, tools);
          return Thrown(ids.error);
        }
        jobs := jobs + more;
        sealed := sealed + [Attempt(ids.value, attempts[i].diffSha256)];
        i := i + 1;
      }
      assert attempts[..i] == attempts;
      return Done(sealed);
    }

    /** The ids of the outcome itself, which follow its sealed attempts. */
    method FollowAttempts(ids: seq<string>, attempts: seq<Attempt>) returns (r: Result<seq<string>>)
      ensures r == if AllBacked(attempts, ids) then Done(SealedIds(ids)) else Thrown("mutation_patch_evidence_provenance_mismatch")
    {
      var sealed: seq<string> := [];
      var i := 0;
      while i < |ids|
        invariant i <= |ids| && sealed == SealedIds(ids[..i]) && AllBacked(attempts, ids[..i])
      {
        assert forall k :: 0 <= k < i ==> ids[..i][k] == ids[k];
        if !Legacy(ids[i]) {
          sealed := sealed + [ids[i]];
        } else {
          if !Backed(attempts, ids[i]) {
            return Thrown("mutation_patch_evidence_provenance_mismatch");
          }
          sealed := sealed + [ids[i] + ".gz"];
        }
        i := i + 1;
      }
      assert ids[..i] == ids;
      return Done(sealed);
    }

    /** One outcome: its attempts, then its own ids. */
    method SealOutcome(o: Outcome, ghost start: Files, ghost before: seq<Job>) returns (r: Result<Outcome>)
      requires KeepsPatch(tools) && Progress(start, before, files, tools)
      modifies this
      ensures var jobs := before + JobsOfAttempts(o.attempts);
        && (r.Done? <==> Good(start, jobs, tools) && AllBacked(SealedAttempts(o.attempts), o.evidenceIds))
        && (r.Done? ==> r.value == SealedOutcome(o) && Progress(start, jobs, files, tools))
      ensures r.Thrown? ==> FailedAt(start, before, o, files, r.error, tools)
    {
      var attempts := SealAttempts(o.attempts, start, before);
      if attempts.Thrown? {
        return Thrown(attempts.error);
      }
      var ids := FollowAttempts(o.evidenceIds, attempts.value);
      if ids.Thrown? {
        return Thrown(ids.error);
      }
      return Done(Outcome(attempts.value, ids.value));
    }

    /**
      `sealLegacyPatchEvidence`: it succeeds exactly on what is ready, and then seals everything; when it
      throws, the files are what the jobs before the one it threw at leave.
     */
    method SealLegacyPatchEvidence(outcomes: seq<Outcome>) returns (r: Result<seq<Outcome>>)
      requires KeepsPatch(tools)
      modifies this
      ensures r.Done? <==> Ready(old(files), outcomes, tools)
      ensures r.Done? ==> r.value == SealedOutcomes(outcomes) && files == After(old(files), JobsOfOutcomes(outcomes), tools)
      ensures r.Thrown? ==> Halted(old(files), outcomes, files, r.error, tools)
    {
      ghost var start := files;
      var sealed: seq<Outcome> := [];
      var i := 0;
      while i < |outcomes|
        invariant i <= |outcomes| && sealed == SealedOutcomes(outcomes[..i])
        invariant Progress(start, JobsOfOutcomes(outcomes[..i]), files, tools) && AllFollow(outcomes[..i])
      {
        ghost var before := JobsOfOutcomes(outcomes[..i]);
        NextOutcome(outcomes, i);
        var o := SealOutcome(outcomes[i], start, before);
        if o.Thrown? {
          HaltedHere(start, outcomes, i, files, o.error, tools);
          return Thrown(o.error);
        }
        sealed := sealed + [o.value];
        i := i + 1;
      }
      assert outcomes[..i] == outcomes;
      return Done(sealed);
    }
  }

  /** All jobs so far were good, and the files are what they leave. */
  ghost predicate Progress(start: Files, jobs: seq<Job>, files: Files, tools: Tools) {
    Good(start, jobs, tools) && files == After(start, jobs, tools)
  }

  /** Sealing threw at job `k`: the jobs before it are done, and the files are what they leave. */
  ghost predicate StoppedAt(start: Files, jobs: seq<Job>, k: nat, files: Files, error: string, tools: Tools) {
    k < |jobs| && Progress(start, jobs[..k], files, tools) && Problem(files, jobs[k], tools) == Some(error)
  }

  ghost predicate Stopped(start: Files, jobs: seq<Job>, files: Files, error: string, tools: Tools) {
    exists k: nat :: StoppedAt(start, jobs, k, files, error, tools)
  }

  lemma StoppedGrows(start: Files, jobs: seq<Job>, more: seq<Job>, files: Files, error: string, tools: Tools)
    requires Stopped(start, jobs, files, error, tools)
    ensures Stopped(start, jobs + more, files, error, tools)
  {
    var k: nat :| StoppedAt(start, jobs, k, files, error, tools);
    assert (jobs + more)[..k] == jobs[..k];
    assert StoppedAt(start, jobs + more, k, files, error, tools);
  }

  lemma StoppedInIds(ids: seq<string>, i: nat, expected: string, start: Files, before: seq<Job>, files: Files,
                     error: string, tools: Tools)
    requires i < |ids| && Legacy(ids[i])
    requires Progress(start, before + JobsOf(ids[..i], expected), files, tools)
    requires Problem(files, Job(ids[i], expected), tools) == Some(error)
    ensures Stopped(start, before + JobsOf(ids, expected), files, error, tools)
  {
    var done, job := before + JobsOf(ids[..i], expected), Job(ids[i], expected);
    var rest := JobsOf(ids[i + 1..], expected);
    NextId(ids, i, expected, before);
    assert (done + [job])[..|done|] == done;
    assert StoppedAt(start, done + [job], |done|, files, error, tools);
    assert ids == ids[..i + 1] + ids[i + 1..];
    JobsOfAppend(ids[..i + 1], ids[i + 1..], expected);
    Regroup(before, JobsOf(ids[..i + 1], expected), rest);
    StoppedGrows(start, done + [job], rest, files, error, tools);
  }

  lemma StoppedInAttempts(attempts: seq<Attempt>, i: nat, start: Files, before: seq<Job>, files: Files,
                          error: string, tools: Tools)
    requires i <= |attempts| && Stopped(start, before + JobsOfAttempts(attempts[..i]), files, error, tools)
    ensures Stopped(start, before + JobsOfAttempts(attempts), files, error, tools)
  {
    AttemptsSplit(attempts, i);
    var sofar, rest := JobsOfAttempts(attempts[..i]), JobsOfAttempts(attempts[i..]);
    Regroup(before, sofar, rest);
    StoppedGrows(start, before + sofar, rest, files, error, tools);
  }

  /** Sealing threw in an outcome: one of its files cannot be sealed, or all are and one of its own ids is not backed. */
  ghost predicate FailedAt(start: Files, before: seq<Job>, o: Outcome, files: Files, error: string, tools: Tools) {
    var jobs := before + JobsOfAttempts(o.attempts);
    if Good(start, jobs, tools)
    then files == After(start, jobs, tools) && error == "mutation_patch_evidence_provenance_mismatch"
         && !AllBacked(SealedAttempts(o.attempts), o.evidenceIds)
    else Stopped(start, jobs, files, error, tools)
  }

  /** Sealing threw in outcome `i`, and everything before it was ready. */
  ghost predicate HaltedAt(start: Files, outcomes: seq<Outcome>, i: nat, files: Files, error: string, tools: Tools) {
    && i < |outcomes| && Ready(start, outcomes[..i], tools)
    && FailedAt(start, JobsOfOutcomes(outcomes[..i]), outcomes[i], files, error, tools)
  }

  ghost predicate Halted(start: Files, outcomes: seq<Outcome>, files: Files, error: string, tools: Tools) {
    exists i: nat :: HaltedAt(start, outcomes, i, files, error, tools)
  }

  lemma NextOutcome(outcomes: seq<Outcome>, i: nat)
    requires i < |outcomes|
    ensures JobsOfOutcomes(outcomes[..i + 1]) == JobsOfOutcomes(outcomes[..i]) + JobsOfAttempts(outcomes[i].attempts)
    ensures SealedOutcomes(outcomes[..i + 1]) == SealedOutcomes(outcomes[..i]) + [SealedOutcome(outcomes[i])]
    ensures AllFollow(outcomes[..i + 1]) <==>
            AllFollow(outcomes[..i]) && AllBacked(SealedAttempts(outcomes[i].attempts), outcomes[i].evidenceIds)
  {
    var more := outcomes[..i + 1];
    assert more[..i] == outcomes[..i] && more[i] == outcomes[i];
    assert forall k :: 0 <= k < i ==> more[k] == outcomes[..i][k];
  }

  /** What stops one outcome stops them all. */
  lemma HaltedHere(start: Files, outcomes: seq<Outcome>, i: nat, files: Files, error: string, tools: Tools)
    requires HaltedAt(start, outcomes, i, files, error, tools)
    requires !Good(start, JobsOfOutcomes(outcomes[..i]) + JobsOfAttempts(outcomes[i].attempts), tools)
          || !AllBacked(SealedAttempts(outcomes[i].attempts), outcomes[i].evidenceIds)
    ensures Halted(start, outcomes, files, error, tools) && !Ready(start, outcomes, tools)
  {
    NextOutcome(outcomes, i);
    OutcomesPrefix(outcomes, i + 1, start, tools);
  }

  lemma ProgressNext(start: Files, jobs: seq<Job>, job: Job, files: Files, tools: Tools)
    requires Progress(start, jobs, files, tools) && KeepsPatch(tools)
    ensures Good(start, jobs + [job], tools) <==> Problem(files, job, tools).None?
    ensures Problem(files, job, tools).None? ==>
      Progress(start, jobs + [job], SealFile(files, Source(job.id, tools), tools), tools)
  {
    GoodNext(start, jobs, job, tools);
    AfterNext(start, jobs, job, tools);
  }

  lemma NextId(ids: seq<string>, i: nat, expected: string, before: seq<Job>)
    requires i < |ids|
    ensures before + JobsOf(ids[..i + 1], expected)
         == before + JobsOf(ids[..i], expected) + (if Legacy(ids[i]) then [Job(ids[i], expected)] else [])
    ensures SealedIds(ids[..i + 1]) == SealedIds(ids[..i]) + [SealedId(ids[i])]
  {
    assert ids[..i + 1][..i] == ids[..i];
  }

  lemma NextAttempt(attempts: seq<Attempt>, i: nat, before: seq<Job>)
    requires i < |attempts|
    ensures before + JobsOfAttempts(attempts[..i + 1])
         == before + JobsOfAttempts(attempts[..i]) + JobsOf(attempts[i].evidenceIds, attempts[i].diffSha256)
    ensures SealedAttempts(attempts[..i + 1])
         == SealedAttempts(attempts[..i]) + [Attempt(SealedIds(attempts[i].evidenceIds), attempts[i].diffSha256)]
  {
    assert attempts[..i + 1][..i] == attempts[..i];
  }

  lemma LastOfBoth<T>(left: seq<T>, right: seq<T>)
    requires right != []
    ensures var all := left + right;
      all != [] && all[..|all| - 1] == left + right[..|right| - 1] && all[|all| - 1] == right[|right| - 1]
  {
  }

  lemma {:induction false} AttemptsAppend(left: seq<Attempt>, right: seq<Attempt>)
    ensures JobsOfAttempts(left + right) == JobsOfAttempts(left) + JobsOfAttempts(right)
  {
    if right == [] {
      assert left + right == left;
    } else {
      var before, last := right[..|right| - 1], right[|right| - 1];
      LastOfBoth(left, right);
      AttemptsAppend(left, before);
      Regroup(JobsOfAttempts(left), JobsOfAttempts(before), JobsOf(last.evidenceIds, last.diffSha256));
    }
  }

  lemma AttemptsSplit(attempts: seq<Attempt>, i: nat)
    requires i <= |attempts|
    ensures JobsOfAttempts(attempts) == JobsOfAttempts(attempts[..i]) + JobsOfAttempts(attempts[i..])
  {
    assert attempts == attempts[..i] + attempts[i..];
    AttemptsAppend(attempts[..i], attempts[i..]);
  }

  lemma AttemptsPrefix(attempts: seq<Attempt>, i: nat, start: Files, before: seq<Job>, tools: Tools)
    requires i <= |attempts|
    ensures Good(start, before + JobsOfAttempts(attempts), tools) ==> Good(start, before + JobsOfAttempts(attempts[..i]), tools)
  {
    AttemptsSplit(attempts, i);
    PrefixGood(start, before, JobsOfAttempts(attempts[..i]), JobsOfAttempts(attempts[i..]), tools);
  }

  lemma {:induction false} OutcomesAppend(left: seq<Outcome>, right: seq<Outcome>)
    ensures JobsOfOutcomes(left + right) == JobsOfOutcomes(left) + JobsOfOutcomes(right)
  {
    if right == [] {
      assert left + right == left;
    } else {
      var before, last := right[..|right| - 1], right[|right| - 1];
      LastOfBoth(left, right);
      OutcomesAppend(left, before);
      Regroup(JobsOfOutcomes(left), JobsOfOutcomes(before), JobsOfAttempts(last.attempts));
    }
  }

  lemma OutcomesSplit(outcomes: seq<Outcome>, i: nat)
    requires i <= |outcomes|
    ensures JobsOfOutcomes(outcomes) == JobsOfOutcomes(outcomes[..i]) + JobsOfOutcomes(outcomes[i..])
  {
    assert outcomes == outcomes[..i] + outcomes[i..];
    OutcomesAppend(outcomes[..i], outcomes[i..]);
  }

  lemma OutcomesPrefix(outcomes: seq<Outcome>, i: nat, start: Files, tools: Tools)
    requires i <= |outcomes|
    ensures Good(start, JobsOfOutcomes(outcomes), tools) ==> Good(start, JobsOfOutcomes(outcomes[..i]), tools)
  {
    OutcomesSplit(outcomes, i);
    var sofar, rest := JobsOfOutcomes(outcomes[..i]), JobsOfOutcomes(outcomes[i..]);
    if Good(start, sofar + rest, tools) {
      GoodPrefix(start, sofar, rest, tools);
    }
  }

  // ------------------------------------------------- sealing, read off the outcomes and the files

  /** An id that names a patch, and not its archive. */
  ghost predicate NamesPatch(id: string) {
    "patch:" <= id && !EndsWith(id, ".patch.gz")
  }

  lemma NamesPatchMeans(id: string)
    ensures Legacy(id) <==> NamesPatch(id)
    ensures Legacy(id) ==> Relative(id) == id[6..]
  {
  }

  /** Where an id stands: the outcome, the attempt in it, and the position in the attempt's list. */
  datatype Place = Place(outcome: nat, attempt: nat, id: nat)

  ghost predicate At(outcomes: seq<Outcome>, p: Place) {
    && p.outcome < |outcomes| && p.attempt < |outcomes[p.outcome].attempts|
    && p.id < |outcomes[p.outcome].attempts[p.attempt].evidenceIds|
  }

  ghost function IdAt(outcomes: seq<Outcome>, p: Place): string
    requires At(outcomes, p)
  {
    outcomes[p.outcome].attempts[p.attempt].evidenceIds[p.id]
  }

  /** A patch is asked for there. */
  ghost predicate Asked(outcomes: seq<Outcome>, p: Place) {
    At(outcomes, p) && NamesPatch(IdAt(outcomes, p))
  }

  ghost function PathAt(outcomes: seq<Outcome>, p: Place, tools: Tools): string
    requires Asked(outcomes, p)
  {
    tools.resolve(IdAt(outcomes, p)[6..])
  }

  ghost predicate Distinct<T>(xs: seq<T>) {
    forall m, n :: 0 <= m < n < |xs| ==> xs[m] != xs[n]
  }

  lemma DistinctAppend<T>(a: seq<T>, b: seq<T>)
    requires Distinct(a) && Distinct(b) && forall x :: x in a ==> x !in b
    ensures Distinct(a + b)
  {
    forall m, n | 0 <= m < n < |a + b| ensures (a + b)[m] != (a + b)[n] {
      if m < |a| <= n {
        assert a[m] in a && b[n - |a|] in b;
      }
    }
  }

  /** The job asked for at position `k` of a list. */
  ghost predicate JobOfId(ids: seq<string>, expected: string, k: nat, job: Job) {
    k < |ids| && NamesPatch(ids[k]) && job == Job(ids[k], expected)
  }

  ghost predicate ListsIds(ids: seq<string>, expected: string, jobs: seq<Job>, at: seq<nat>) {
    && |at| == |jobs| && Distinct(at)
    && (forall n :: 0 <= n < |at| ==> JobOfId(ids, expected, at[n], jobs[n]))
    && (forall k: nat :: k < |ids| && NamesPatch(ids[k]) ==> k in at)
  }

  lemma {:induction false} IdPlaces(ids: seq<string>, expected: string) returns (at: seq<nat>)
    ensures ListsIds(ids, expected, JobsOf(ids, expected), at)
  {
    if ids == [] {
      at := [];
    } else {
      var n := |ids| - 1;
      at := IdPlaces(ids[..n], expected);
      NamesPatchMeans(ids[n]);
      if Legacy(ids[n]) {
        OneMoreId(ids, expected, JobsOf(ids[..n], expected), at);
        at := at + [n];
      } else {
        SameIds(ids, expected, JobsOf(ids[..n], expected), at);
      }
    }
  }

  lemma SameIds(ids: seq<string>, expected: string, jobs: seq<Job>, at: seq<nat>)
    requires ids != [] && ListsIds(ids[..|ids| - 1], expected, jobs, at) && !NamesPatch(ids[|ids| - 1])
    ensures ListsIds(ids, expected, jobs, at)
  {
    var n := |ids| - 1;
    assert forall k: nat :: k < n ==> ids[..n][k] == ids[k];
    assert forall m :: 0 <= m < |at| ==> JobOfId(ids[..n], expected, at[m], jobs[m]);
  }

  lemma OneMoreId(ids: seq<string>, expected: string, jobs: seq<Job>, at: seq<nat>)
    requires ids != [] && ListsIds(ids[..|ids| - 1], expected, jobs, at) && NamesPatch(ids[|ids| - 1])
    ensures ListsIds(ids, expected, jobs + [Job(ids[|ids| - 1], expected)], at + [|ids| - 1])
  {
    var n := |ids| - 1;
    assert forall k: nat :: k < n ==> ids[..n][k] == ids[k];
    assert forall m :: 0 <= m < |at| ==> JobOfId(ids[..n], expected, at[m], jobs[m]);
    DistinctAppend(at, [n]);
  }

  ghost function InAttempt(j: nat, at: seq<nat>): (r: seq<(nat, nat)>)
    ensures |r| == |at| && forall n :: 0 <= n < |at| ==> r[n] == (j, at[n])
  {
    seq(|at|, n requires 0 <= n < |at| => (j, at[n]))
  }

  ghost predicate JobOfAttempt(attempts: seq<Attempt>, a: (nat, nat), job: Job) {
    a.0 < |attempts| && JobOfId(attempts[a.0].evidenceIds, attempts[a.0].diffSha256, a.1, job)
  }

  ghost predicate AskedIn(attempts: seq<Attempt>, j: nat, k: nat) {
    j < |attempts| && k < |attempts[j].evidenceIds| && NamesPatch(attempts[j].evidenceIds[k])
  }

  ghost predicate ListsAttempts(attempts: seq<Attempt>, jobs: seq<Job>, at: seq<(nat, nat)>) {
    && |at| == |jobs| && Distinct(at)
    && (forall n :: 0 <= n < |at| ==> JobOfAttempt(attempts, at[n], jobs[n]))
    && (forall j: nat, k: nat :: AskedIn(attempts, j, k) ==> (j, k) in at)
  }

  lemma {:induction false} AttemptPlaces(attempts: seq<Attempt>) returns (at: seq<(nat, nat)>)
    ensures ListsAttempts(attempts, JobsOfAttempts(attempts), at)
  {
    if attempts == [] {
      at := [];
    } else {
      var n := |attempts| - 1;
      var before := AttemptPlaces(attempts[..n]);
      var last := IdPlaces(attempts[n].evidenceIds, attempts[n].diffSha256);
      MoreAttempts(attempts, JobsOfAttempts(attempts[..n]), before, JobsOf(attempts[n].evidenceIds, attempts[n].diffSha256), last);
      at := before + InAttempt(n, last);
    }
  }

  lemma MoreAttempts(attempts: seq<Attempt>, jobs: seq<Job>, before: seq<(nat, nat)>, more: seq<Job>, last: seq<nat>)
    requires attempts != [] && ListsAttempts(attempts[..|attempts| - 1], jobs, before)
    requires ListsIds(attempts[|attempts| - 1].evidenceIds, attempts[|attempts| - 1].diffSha256, more, last)
    ensures ListsAttempts(attempts, jobs + more, before + InAttempt(|attempts| - 1, last))
  {
    var n := |attempts| - 1;
    var here := InAttempt(n, last);
    forall m | 0 <= m < |before| ensures JobOfAttempt(attempts, before[m], jobs[m]) && before[m].0 < n {
      assert JobOfAttempt(attempts[..n], before[m], jobs[m]);
    }
    DistinctAppend(before, here);
    forall j: nat, k: nat | AskedIn(attempts, j, k) ensures (j, k) in before + here {
      if j < n {
        assert AskedIn(attempts[..n], j, k);
      } else {
        InAttemptHolds(n, last, k);
      }
    }
  }

  lemma InAttemptHolds(j: nat, at: seq<nat>, k: nat)
    requires k in at
    ensures (j, k) in InAttempt(j, at)
  {
    var m :| 0 <= m < |at| && at[m] == k;
    assert InAttempt(j, at)[m] == (j, k);
  }

  ghost function InOutcome(i: nat, at: seq<(nat, nat)>): (r: seq<Place>)
    ensures |r| == |at| && forall n :: 0 <= n < |at| ==> r[n] == Place(i, at[n].0, at[n].1)
  {
    seq(|at|, n requires 0 <= n < |at| => Place(i, at[n].0, at[n].1))
  }

  ghost predicate JobOfPlace(outcomes: seq<Outcome>, p: Place, job: Job) {
    p.outcome < |outcomes| && JobOfAttempt(outcomes[p.outcome].attempts, (p.attempt, p.id), job)
  }

  ghost predicate Lists(outcomes: seq<Outcome>, jobs: seq<Job>, places: seq<Place>) {
    && |places| == |jobs| && Distinct(places)
    && (forall n :: 0 <= n < |places| ==> JobOfPlace(outcomes, places[n], jobs[n]))
    && (forall p :: Asked(outcomes, p) ==> p in places)
  }

  /** Every place where a patch is asked for is a job, once. */
  lemma {:induction false} OutcomePlaces(outcomes: seq<Outcome>) returns (places: seq<Place>)
    ensures Lists(outcomes, JobsOfOutcomes(outcomes), places)
  {
    if outcomes == [] {
      places := [];
    } else {
      var n := |outcomes| - 1;
      var before := OutcomePlaces(outcomes[..n]);
      var last := AttemptPlaces(outcomes[n].attempts);
      MoreOutcomes(outcomes, JobsOfOutcomes(outcomes[..n]), before, JobsOfAttempts(outcomes[n].attempts), last);
      places := before + InOutcome(n, last);
    }
  }

  lemma MoreOutcomes(outcomes: seq<Outcome>, jobs: seq<Job>, before: seq<Place>, more: seq<Job>, last: seq<(nat, nat)>)
    requires outcomes != [] && Lists(outcomes[..|outcomes| - 1], jobs, before)
    requires ListsAttempts(outcomes[|outcomes| - 1].attempts, more, last)
    ensures Lists(outcomes, jobs + more, before + InOutcome(|outcomes| - 1, last))
  {
    var n := |outcomes| - 1;
    var here := InOutcome(n, last);
    forall m | 0 <= m < |before| ensures JobOfPlace(outcomes, before[m], jobs[m]) && before[m].outcome < n {
      assert JobOfPlace(outcomes[..n], before[m], jobs[m]);
    }
    DistinctAppend(before, here);
    forall p | Asked(outcomes, p) ensures p in before + here {
      if p.outcome < n {
        assert Asked(outcomes[..n], p);
      } else {
        assert AskedIn(outcomes[n].attempts, p.attempt, p.id);
        var m :| 0 <= m < |last| && last[m] == (p.attempt, p.id);
        assert here[m] == p;
      }
    }
  }

  /** The named patch can be sealed: it is there, inside the directory, hashes to what was recorded, and survives compression. */
  ghost predicate Sealable(files: Files, id: string, expected: string, tools: Tools)
    requires NamesPatch(id)
  {
    var path := tools.resolve(id[6..]);
    && EndsWith(id[6..], ".patch") && tools.inside(path) && path in files
    && tools.digest(files[path]) == expected && tools.gunzip(tools.gzip(files[path])) == files[path]
  }

  lemma SealableMeans(files: Files, outcomes: seq<Outcome>, p: Place, job: Job, tools: Tools)
    requires JobOfPlace(outcomes, p, job)
    ensures Asked(outcomes, p) && Source(job.id, tools) == PathAt(outcomes, p, tools)
    ensures Problem(files, job, tools).None? <==> SealableAt(files, outcomes, p, tools)
  {
    NamesPatchMeans(job.id);
  }

  ghost predicate SealableAt(files: Files, outcomes: seq<Outcome>, p: Place, tools: Tools)
    requires Asked(outcomes, p)
  {
    Sealable(files, IdAt(outcomes, p), outcomes[p.outcome].attempts[p.attempt].diffSha256, tools)
  }

  ghost predicate AllSealable(files: Files, outcomes: seq<Outcome>, tools: Tools) {
    forall p :: Asked(outcomes, p) ==> SealableAt(files, outcomes, p, tools)
  }

  ghost predicate NoneTwice(outcomes: seq<Outcome>, tools: Tools) {
    forall p, q :: Asked(outcomes, p) && Asked(outcomes, q) && p != q ==> PathAt(outcomes, p, tools) != PathAt(outcomes, q, tools)
  }

  lemma GoodMeans(files: Files, outcomes: seq<Outcome>, tools: Tools)
    ensures Good(files, JobsOfOutcomes(outcomes), tools) <==> AllSealable(files, outcomes, tools) && NoneTwice(outcomes, tools)
  {
    var jobs := JobsOfOutcomes(outcomes);
    var places := OutcomePlaces(outcomes);
    forall n | 0 <= n < |jobs|
      ensures Asked(outcomes, places[n]) && Source(jobs[n].id, tools) == PathAt(outcomes, places[n], tools)
      ensures Problem(files, jobs[n], tools).None? <==> SealableAt(files, outcomes, places[n], tools)
    {
      SealableMeans(files, outcomes, places[n], jobs[n], tools);
    }
    if Good(files, jobs, tools) {
      GoodPlaces(files, outcomes, jobs, places, tools);
    }
  }

  lemma GoodPlaces(files: Files, outcomes: seq<Outcome>, jobs: seq<Job>, places: seq<Place>, tools: Tools)
    requires Lists(outcomes, jobs, places) && Good(files, jobs, tools)
    ensures AllSealable(files, outcomes, tools) && NoneTwice(outcomes, tools)
  {
    forall p | Asked(outcomes, p) ensures SealableAt(files, outcomes, p, tools) {
      var n :| 0 <= n < |places| && places[n] == p;
      SealableMeans(files, outcomes, p, jobs[n], tools);
    }
    forall p, q | Asked(outcomes, p) && Asked(outcomes, q) && p != q ensures PathAt(outcomes, p, tools) != PathAt(outcomes, q, tools) {
      var m :| 0 <= m < |places| && places[m] == p;
      var n :| 0 <= n < |places| && places[n] == q;
      SealableMeans(files, outcomes, p, jobs[m], tools);
      SealableMeans(files, outcomes, q, jobs[n], tools);
      assert Source(jobs[if m < n then m else n].id, tools) != Source(jobs[if m < n then n else m].id, tools);
    }
  }

  /** Each patch an outcome itself names is named by one of its attempts, or its archive is. */
  ghost predicate OwnIdsOccur(o: Outcome) {
    forall id :: id in o.evidenceIds && NamesPatch(id) ==>
      exists j :: 0 <= j < |o.attempts| && (id in o.attempts[j].evidenceIds || id + ".gz" in o.attempts[j].evidenceIds)
  }

  lemma PatchIsNoArchive(id: string, other: string)
    requires NamesPatch(id) && EndsWith(id[6..], ".patch")
    ensures id != other + ".gz"
  {
    var archive := other + ".gz";
    assert id[|id| - 1] == id[6..][|id[6..]| - 1] == 'h' && archive[|archive| - 1] == 'z';
  }

  lemma SealedAs(ids: seq<string>, id: string)
    requires NamesPatch(id) && forall k :: 0 <= k < |ids| && NamesPatch(ids[k]) ==> EndsWith(ids[k][6..], ".patch")
    ensures id + ".gz" in SealedIds(ids) <==> id in ids || id + ".gz" in ids
  {
    var sealed := SealedIds(ids);
    forall k | 0 <= k < |ids| ensures sealed[k] == id + ".gz" <==> ids[k] == id || ids[k] == id + ".gz" {
      NamesPatchMeans(ids[k]);
      NamesPatchMeans(id);
      if Legacy(ids[k]) {
        assert sealed[k] == ids[k] + ".gz";
        assert sealed[k] == id + ".gz" ==> ids[k] == sealed[k][..|sealed[k]| - 3] == id;
        PatchIsNoArchive(ids[k], id);
      } else {
        assert ids[k] != id;
      }
    }
    if id in ids {
      var k :| 0 <= k < |ids| && ids[k] == id;
      assert sealed[k] == id + ".gz";
    }
    if id + ".gz" in ids {
      var k :| 0 <= k < |ids| && ids[k] == id + ".gz";
      assert sealed[k] == id + ".gz";
    }
    if id + ".gz" in sealed {
      var k :| 0 <= k < |ids| && sealed[k] == id + ".gz";
      assert ids[k] in ids;
    }
  }

  lemma FollowMeans(o: Outcome)
    requires forall j: nat, k: nat :: AskedIn(o.attempts, j, k) ==> EndsWith(o.attempts[j].evidenceIds[k][6..], ".patch")
    ensures AllBacked(SealedAttempts(o.attempts), o.evidenceIds) <==> OwnIdsOccur(o)
  {
    forall id | NamesPatch(id)
      ensures Backed(SealedAttempts(o.attempts), id) <==>
        exists j :: 0 <= j < |o.attempts| && (id in o.attempts[j].evidenceIds || id + ".gz" in o.attempts[j].evidenceIds)
    {
      forall j | 0 <= j < |o.attempts|
        ensures id + ".gz" in SealedAttempts(o.attempts)[j].evidenceIds <==>
                id in o.attempts[j].evidenceIds || id + ".gz" in o.attempts[j].evidenceIds
      {
        assert forall k: nat :: k < |o.attempts[j].evidenceIds| && NamesPatch(o.attempts[j].evidenceIds[k]) ==> AskedIn(o.attempts, j, k);
        SealedAs(o.attempts[j].evidenceIds, id);
      }
    }
    forall id ensures Legacy(id) <==> NamesPatch(id) {
      NamesPatchMeans(id);
    }
    assert forall i :: 0 <= i < |o.evidenceIds| ==> o.evidenceIds[i] in o.evidenceIds;
  }

  /**
    When sealing succeeds, in terms of the outcomes and the files: every patch an attempt names can be sealed, no
    file is named at two places, and an outcome names no patch of its own that its attempts do not.
   */
  lemma ReadyExactly(files: Files, outcomes: seq<Outcome>, tools: Tools)
    ensures Ready(files, outcomes, tools) <==>
      && AllSealable(files, outcomes, tools) && NoneTwice(outcomes, tools)
      && forall i :: 0 <= i < |outcomes| ==> OwnIdsOccur(outcomes[i])
  {
    GoodMeans(files, outcomes, tools);
    if AllSealable(files, outcomes, tools) {
      forall i | 0 <= i < |outcomes|
        ensures AllBacked(SealedAttempts(outcomes[i].attempts), outcomes[i].evidenceIds) <==> OwnIdsOccur(outcomes[i])
      {
        forall j: nat, k: nat | AskedIn(outcomes[i].attempts, j, k)
          ensures EndsWith(outcomes[i].attempts[j].evidenceIds[k][6..], ".patch")
        {
          assert Asked(outcomes, Place(i, j, k)) && SealableAt(files, outcomes, Place(i, j, k), tools);
        }
        FollowMeans(outcomes[i]);
      }
    }
  }

  /** A list of ids and what sealing makes of it: the archive's id in place of the patch's, every other id as it was. */
  ghost predicate Follows(ids: seq<string>, sealed: seq<string>) {
    && |sealed| == |ids|
    && forall k :: 0 <= k < |ids| ==> sealed[k] == if NamesPatch(ids[k]) then ids[k] + ".gz" else ids[k]
  }

  lemma SealedFollows(ids: seq<string>)
    ensures Follows(ids, SealedIds(ids))
  {
    forall k | 0 <= k < |ids| ensures SealedIds(ids)[k] == if NamesPatch(ids[k]) then ids[k] + ".gz" else ids[k] {
      NamesPatchMeans(ids[k]);
    }
  }

  /** What sealing returns. */
  lemma SealedExactly(outcomes: seq<Outcome>, i: nat)
    requires i < |outcomes|
    ensures var o, sealed := outcomes[i], SealedOutcomes(outcomes)[i];
      && Follows(o.evidenceIds, sealed.evidenceIds) && |sealed.attempts| == |o.attempts|
      && forall j :: 0 <= j < |o.attempts| ==>
           sealed.attempts[j].diffSha256 == o.attempts[j].diffSha256 && Follows(o.attempts[j].evidenceIds, sealed.attempts[j].evidenceIds)
  {
    SealedFollows(outcomes[i].evidenceIds);
    forall j | 0 <= j < |outcomes[i].attempts|
      ensures Follows(outcomes[i].attempts[j].evidenceIds, SealedOutcome(outcomes[i]).attempts[j].evidenceIds)
    {
      SealedFollows(outcomes[i].attempts[j].evidenceIds);
    }
  }

  lemma {:induction false} TemporaryGone(files: Files, jobs: seq<Job>, k: nat, tools: Tools)
    requires KeepsPatch(tools) && Good(files, jobs, tools) && k < |jobs|
    ensures Source(jobs[k].id, tools) + ".gz.tmp" !in After(files, jobs, tools)
  {
    var n := |jobs| - 1;
    assert jobs[..n] + [jobs[n]] == jobs;
    GoodPrefix(files, jobs[..n], [jobs[n]], tools);
    GoodNext(files, jobs[..n], jobs[n], tools);
    if k < n {
      TemporaryGone(files, jobs[..n], k, tools);
    }
    SealedTemporary(After(files, jobs[..n], tools), Source(jobs[n].id, tools), Source(jobs[k].id, tools), tools);
  }

  lemma SealedTemporary(files: Files, source: string, other: string, tools: Tools)
    requires source in files
    ensures other + ".gz.tmp" in SealFile(files, source, tools) ==> other != source && other + ".gz.tmp" in files
  {
    TemporaryIsNoArchive(other, source);
  }

  lemma TemporaryIsNoArchive(s: string, t: string)
    ensures s + ".gz.tmp" != t + ".gz"
  {
    var a, b := s + ".gz.tmp", t + ".gz";
    assert a[|a| - 1] == 'p' && b[|b| - 1] == 'z';
  }

  /**
    The files a successful sealing leaves: a named patch is gone and so is a temporary file of its archive, the archive
    holds the compressed patch, and every other file is as it was.
   */
  lemma FilesExactly(files: Files, outcomes: seq<Outcome>, tools: Tools)
    requires KeepsPatch(tools) && Ready(files, outcomes, tools)
    ensures var after := After(files, JobsOfOutcomes(outcomes), tools);
      && (forall p :: Asked(outcomes, p) ==>
            var path := PathAt(outcomes, p, tools);
            && path in files && path !in after && path + ".gz.tmp" !in after
            && path + ".gz" in after && after[path + ".gz"] == tools.gzip(files[path]))
      && (forall other ::
            (forall p :: Asked(outcomes, p) ==>
               var path := PathAt(outcomes, p, tools); other != path && other != path + ".gz" && other != path + ".gz.tmp")
            ==> (other in after <==> other in files) && (other in files ==> after[other] == files[other]))
  {
    var jobs := JobsOfOutcomes(outcomes);
    var places := OutcomePlaces(outcomes);
    forall n | 0 <= n < |jobs|
      ensures Asked(outcomes, places[n]) && Source(jobs[n].id, tools) == PathAt(outcomes, places[n], tools)
    {
      SealableMeans(files, outcomes, places[n], jobs[n], tools);
    }
    forall p | Asked(outcomes, p)
      ensures var path, after := PathAt(outcomes, p, tools), After(files, jobs, tools);
        && path in files && path !in after && path + ".gz.tmp" !in after
        && path + ".gz" in after && after[path + ".gz"] == tools.gzip(files[path])
    {
      var n :| 0 <= n < |places| && places[n] == p;
      PatchBecomesArchive(files, jobs, n, tools);
      TemporaryGone(files, jobs, n, tools);
    }
    forall other | forall p :: Asked(outcomes, p) ==>
        var path := PathAt(outcomes, p, tools); other != path && other != path + ".gz" && other != path + ".gz.tmp"
      ensures var after := After(files, jobs, tools);
        (other in after <==> other in files) && (other in files ==> after[other] == files[other])
    {
      forall n | 0 <= n < |jobs| ensures !Touches(jobs[n], other, tools) {
        assert Asked(outcomes, places[n]);
      }
      OthersUntouched(files, jobs, other, tools);
    }
  }

  /** Why a named patch cannot be sealed: the first of the conditions that fails. */
  lemma ProblemExactly(files: Files, job: Job, tools: Tools)
    ensures var path, problem := tools.resolve(job.id[6..]), Problem(files, job, tools);
      && (problem == Some("mutation_patch_evidence_extension_invalid") <==> !EndsWith(job.id, ".patch"))
      && (problem == Some("mutation_patch_evidence_outside_directory") <==> EndsWith(job.id, ".patch") && !tools.inside(path))
      && (problem == Some("mutation_patch_evidence_missing") <==> EndsWith(job.id, ".patch") && tools.inside(path) && path !in files)
      && (EndsWith(job.id, ".patch") && tools.inside(path) && path in files ==>
            && (problem == Some("mutation_patch_evidence_hash_mismatch") <==> tools.digest(files[path]) != job.expected)
            && (problem == Some("mutation_patch_evidence_round_trip_failed") <==>
                  tools.digest(files[path]) == job.expected && tools.gunzip(tools.gzip(files[path])) != files[path]))
  {
    NamesPatchMeans(job.id);
    EndsAfterPrefix(job.id);
    DifferentErrors();
  }

  lemma EndsAfterPrefix(id: string)
    requires "patch:" <= id
    ensures EndsWith(id[6..], ".patch") <==> EndsWith(id, ".patch")
  {
    if EndsWith(id, ".patch") {
      assert id[|id| - 6] == '.';
      assert forall i :: 0 <= i < 6 ==> id[i] == "patch:"[i];
      assert |id| >= 12;
      assert id[6..][|id[6..]| - 6..] == id[|id| - 6..];
    }
    assert EndsWith(id[6..], ".patch") ==> id[6..][|id[6..]| - 6..] == id[|id| - 6..];
  }

  /** The errors differ in the first letter of what they say. */
  lemma DifferentErrors()
    ensures "mutation_patch_evidence_extension_invalid"[24] == 'e' && "mutation_patch_evidence_outside_directory"[24] == 'o'
    ensures "mutation_patch_evidence_missing"[24] == 'm' && "mutation_patch_evidence_hash_mismatch"[24] == 'h'
    ensures "mutation_patch_evidence_round_trip_failed"[24] == 'r'
  {
  }

  // ------------------------------------------------------------- sealing again

  ghost predicate NoLegacy(ids: seq<string>) {
    forall i :: 0 <= i < |ids| ==> !Legacy(ids[i])
  }

  lemma {:induction false} JobFor(ids: seq<string>, expected: string, i: nat)
    requires i < |ids| && Legacy(ids[i])
    ensures Job(ids[i], expected) in JobsOf(ids, expected)
  {
    if i < |ids| - 1 {
      JobFor(ids[..|ids| - 1], expected, i);
    }
  }

  /** A good job's id stops being a legacy id by gaining the archive's ending. */
  lemma SealedIsNotLegacy(id: string)
    requires Legacy(id) && EndsWith(Relative(id), ".patch")
    ensures !Legacy(id + ".gz")
  {
    var s := id + ".gz";
    assert id[|id| - 6..] == Relative(id)[|Relative(id)| - 6..] == ".patch";
    assert s[|s| - 9..] == ".patch" + ".gz" == ".patch.gz";
  }

  lemma SealedIdsNotLegacy(files: Files, ids: seq<string>, expected: string, jobs: seq<Job>, tools: Tools)
    requires Good(files, jobs, tools)
    requires forall job :: job in JobsOf(ids, expected) ==> job in jobs
    ensures NoLegacy(SealedIds(ids))
  {
    forall i | 0 <= i < |ids| ensures !Legacy(SealedIds(ids)[i]) {
      if Legacy(ids[i]) {
        JobFor(ids, expected, i);
        var k :| 0 <= k < |jobs| && jobs[k] == Job(ids[i], expected);
        assert Problem(files, jobs[k], tools).None?;
        SealedIsNotLegacy(ids[i]);
      }
    }
  }

  lemma {:induction false} AttemptJobs(attempts: seq<Attempt>, i: nat)
    requires i < |attempts|
    ensures forall job :: job in JobsOf(attempts[i].evidenceIds, attempts[i].diffSha256) ==> job in JobsOfAttempts(attempts)
  {
    if i < |attempts| - 1 {
      AttemptJobs(attempts[..|attempts| - 1], i);
    }
  }

  lemma {:induction false} OutcomeJobs(outcomes: seq<Outcome>, i: nat)
    requires i < |outcomes|
    ensures forall job :: job in JobsOfAttempts(outcomes[i].attempts) ==> job in JobsOfOutcomes(outcomes)
  {
    if i < |outcomes| - 1 {
      OutcomeJobs(outcomes[..|outcomes| - 1], i);
    }
  }

  ghost predicate SealedThroughout(o: Outcome) {
    NoLegacy(o.evidenceIds) && forall i :: 0 <= i < |o.attempts| ==> NoLegacy(o.attempts[i].evidenceIds)
  }

  /** An id that one of the outcome's attempts has. */
  ghost predicate Occurs(o: Outcome, id: string) {
    exists j :: 0 <= j < |o.attempts| && id in o.attempts[j].evidenceIds
  }

  lemma SealedInPlace(ids: seq<string>, id: string)
    requires id in ids
    ensures SealedId(id) in SealedIds(ids)
  {
    var i :| 0 <= i < |ids| && ids[i] == id;
    assert SealedIds(ids)[i] == SealedId(id);
  }

  /** Outcomes whose patch ids all occur in their attempts are never refused for them. */
  lemma OccurringIdsAreBacked(o: Outcome)
    requires forall id :: id in o.evidenceIds && Legacy(id) ==> Occurs(o, id)
    ensures AllBacked(SealedAttempts(o.attempts), o.evidenceIds)
  {
    forall i | 0 <= i < |o.evidenceIds| && Legacy(o.evidenceIds[i])
      ensures Backed(SealedAttempts(o.attempts), o.evidenceIds[i])
    {
      var id := o.evidenceIds[i];
      var j :| 0 <= j < |o.attempts| && id in o.attempts[j].evidenceIds;
      SealedInPlace(o.attempts[j].evidenceIds, id);
      assert id + ".gz" in SealedAttempts(o.attempts)[j].evidenceIds;
    }
  }

  /**
    Nothing legacy is left; every id of the outcome that was legacy is an id of one of its attempts; and
    every id an attempt had, sealed before or not, it has after sealing.
   */
  lemma SealingIsThorough(files: Files, outcomes: seq<Outcome>, k: nat, tools: Tools)
    requires Ready(files, outcomes, tools) && k < |outcomes|
    ensures SealedThroughout(SealedOutcome(outcomes[k]))
    ensures forall id :: id in outcomes[k].evidenceIds ==> SealedId(id) in SealedOutcome(outcomes[k]).evidenceIds
    ensures forall id :: id in outcomes[k].evidenceIds && Legacy(id) ==> Occurs(SealedOutcome(outcomes[k]), SealedId(id))
    ensures forall id, j :: 0 <= j < |outcomes[k].attempts| && id in outcomes[k].attempts[j].evidenceIds ==>
      SealedId(id) in SealedOutcome(outcomes[k]).attempts[j].evidenceIds
  {
    var o, jobs := outcomes[k], JobsOfOutcomes(outcomes);
    var attempts := SealedAttempts(o.attempts);
    OutcomeJobs(outcomes, k);
    forall i | 0 <= i < |o.attempts| ensures NoLegacy(attempts[i].evidenceIds) {
      AttemptJobs(o.attempts, i);
      SealedIdsNotLegacy(files, o.attempts[i].evidenceIds, o.attempts[i].diffSha256, jobs, tools);
    }
    assert AllBacked(attempts, o.evidenceIds);
    forall id | id in o.evidenceIds && Legacy(id) ensures !Legacy(SealedId(id)) && Occurs(SealedOutcome(o), SealedId(id)) {
      var i :| 0 <= i < |o.evidenceIds| && o.evidenceIds[i] == id;
      assert Backed(attempts, id);
      BackedIsSealed(o, id);
    }
    forall id | id in o.evidenceIds ensures SealedId(id) in SealedOutcome(o).evidenceIds {
      SealedInPlace(o.evidenceIds, id);
    }
    forall id, j | 0 <= j < |o.attempts| && id in o.attempts[j].evidenceIds
      ensures SealedId(id) in SealedOutcome(o).attempts[j].evidenceIds
    {
      SealedInPlace(o.attempts[j].evidenceIds, id);
    }
    OnlySealedLegacy(o.evidenceIds);
  }

  lemma BackedIsSealed(o: Outcome, id: string)
    requires Legacy(id) && Backed(SealedAttempts(o.attempts), id)
    ensures Occurs(SealedOutcome(o), SealedId(id))
  {
    var i :| 0 <= i < |o.attempts| && id + ".gz" in SealedAttempts(o.attempts)[i].evidenceIds;
    assert SealedId(id) in SealedOutcome(o).attempts[i].evidenceIds;
  }

  lemma OnlySealedLegacy(ids: seq<string>)
    requires forall id :: id in ids && Legacy(id) ==> !Legacy(SealedId(id))
    ensures NoLegacy(SealedIds(ids))
  {
    forall i | 0 <= i < |ids| ensures !Legacy(SealedIds(ids)[i]) {
      assert ids[i] in ids;
    }
  }

  lemma {:induction false} NoJobs(outcomes: seq<Outcome>)
    requires forall i :: 0 <= i < |outcomes| ==> SealedThroughout(outcomes[i])
    ensures JobsOfOutcomes(outcomes) == []
  {
    if outcomes != [] {
      NoJobs(outcomes[..|outcomes| - 1]);
      NoAttemptJobs(outcomes[|outcomes| - 1].attempts);
    }
  }

  lemma {:induction false} NoAttemptJobs(attempts: seq<Attempt>)
    requires forall i :: 0 <= i < |attempts| ==> NoLegacy(attempts[i].evidenceIds)
    ensures JobsOfAttempts(attempts) == []
  {
    if attempts != [] {
      var n := |attempts| - 1;
      assert forall i :: 0 <= i < n ==> attempts[..n][i] == attempts[i];
      NoAttemptJobs(attempts[..n]);
      NoIdJobs(attempts[n].evidenceIds, attempts[n].diffSha256);
    }
  }

  lemma {:induction false} NoIdJobs(ids: seq<string>, expected: string)
    requires NoLegacy(ids)
    ensures JobsOf(ids, expected) == []
  {
    if ids != [] {
      NoIdJobs(ids[..|ids| - 1], expected);
    }
  }

  /** Sealed outcomes are always ready, and sealing them again changes neither them nor any file. */
  lemma SealingAgainIsIdentity(files: Files, outcomes: seq<Outcome>, tools: Tools)
    requires forall i :: 0 <= i < |outcomes| ==> SealedThroughout(outcomes[i])
    ensures Ready(files, outcomes, tools)
    ensures SealedOutcomes(outcomes) == outcomes && After(files, JobsOfOutcomes(outcomes), tools) == files
  {
    NoJobs(outcomes);
    forall i | 0 <= i < |outcomes| ensures SealedOutcome(outcomes[i]) == outcomes[i] {
      var o := outcomes[i];
      assert SealedThroughout(o);
      assert SealedIds(o.evidenceIds) == o.evidenceIds;
      forall j | 0 <= j < |o.attempts| ensures SealedAttempts(o.attempts)[j] == o.attempts[j] {
        assert NoLegacy(o.attempts[j].evidenceIds);
        assert SealedIds(o.attempts[j].evidenceIds) == o.attempts[j].evidenceIds;
      }
      assert SealedAttempts(o.attempts) == o.attempts;
    }
    assert forall i :: 0 <= i < |outcomes| ==> SealedThroughout(outcomes[i]);
  }

  /** Idempotence: what a successful sealing returns is left alone by the next one. */
  lemma SealingIsIdempotent(files: Files, outcomes: seq<Outcome>, tools: Tools)
    requires Ready(files, outcomes, tools)
    ensures var once, after := SealedOutcomes(outcomes), After(files, JobsOfOutcomes(outcomes), tools);
      && Ready(after, once, tools)
      && SealedOutcomes(once) == once && After(after, JobsOfOutcomes(once), tools) == after
  {
    forall k | 0 <= k < |outcomes| ensures SealedThroughout(SealedOutcomes(outcomes)[k]) {
      SealingIsThorough(files, outcomes, k, tools);
    }
    SealingAgainIsIdentity(After(files, JobsOfOutcomes(outcomes), tools), SealedOutcomes(outcomes), tools);
  }

  /** What a crash can leave in the middle of a job: a temporary file at most, or the archive beside its source. */
  ghost predicate MidJob(files: Files, job: Job, left: Files, tools: Tools) {
    var source := Source(job.id, tools);
    var temporary := source + ".gz.tmp";
    || left - {temporary} == files - {temporary}
    || (source in files && left == (files - {temporary})[source + ".gz" := tools.gzip(files[source])])
  }

  /** What sealing can leave when it throws or dies after `k` jobs are done. */
  ghost predicate Interrupted(files: Files, jobs: seq<Job>, k: nat, left: Files, tools: Tools) {
    && k <= |jobs| && Good(files, jobs[..k], tools)
    && var done := After(files, jobs[..k], tools);
    && if k == |jobs| then left == done else MidJob(done, jobs[k], left, tools)
  }

  /** A half-done job touches no patch. */
  lemma PatchKept(files: Files, job: Job, left: Files, tools: Tools, patch: string)
    requires MidJob(files, job, left, tools) && EndsWith(patch, ".patch")
    ensures patch in left <==> patch in files
    ensures patch in left ==> left[patch] == files[patch]
  {
    PatchNames(patch);
    var temporary := Source(job.id, tools) + ".gz.tmp";
    assert patch != temporary;
    if left - {temporary} == files - {temporary} {
      assert patch in left <==> patch in left - {temporary};
      assert patch in left ==> (left - {temporary})[patch] == left[patch];
    }
  }

  lemma PatchesKept(files: Files, jobs: seq<Job>, k: nat, left: Files, tools: Tools, patch: string)
    requires Interrupted(files, jobs, k, left, tools) && EndsWith(patch, ".patch")
    ensures patch in left <==> patch in After(files, jobs[..k], tools)
    ensures patch in left ==> left[patch] == After(files, jobs[..k], tools)[patch]
  {
    if k < |jobs| {
      PatchKept(After(files, jobs[..k], tools), jobs[k], left, tools, patch);
    }
  }

  lemma SameProblem(files: Files, left: Files, job: Job, tools: Tools)
    requires KeepsPatch(tools)
    requires forall p :: EndsWith(p, ".patch") ==> (p in left <==> p in files) && (p in left ==> left[p] == files[p])
    ensures Problem(left, job, tools) == Problem(files, job, tools)
  {
    if EndsWith(Relative(job.id), ".patch") {
      assert EndsWith(tools.resolve(Relative(job.id)), ".patch");
    }
  }

  /**
    The stored outcomes are rewritten only after the next outcome completes.  A process that throws or dies
    while sealing, or after it and before that write, leaves the old ids on disk; sealing them again
    succeeds exactly when not one file had been sealed yet and all were ready.
   */
  lemma UnsavedSealingCannotResume(files: Files, outcomes: seq<Outcome>, k: nat, left: Files, tools: Tools)
    requires KeepsPatch(tools) && Interrupted(files, JobsOfOutcomes(outcomes), k, left, tools)
    ensures Ready(left, outcomes, tools) <==> k == 0 && Ready(files, outcomes, tools)
  {
    var jobs := JobsOfOutcomes(outcomes);
    if k > 0 {
      assert jobs[..k][0] == jobs[0] && Problem(files, jobs[..k][0], tools).None?;
      assert EndsWith(tools.resolve(Relative(jobs[0].id)), ".patch");
      SourceGone(files, jobs[..k], 0, tools);
      PatchesKept(files, jobs, k, left, tools, Source(jobs[0].id, tools));
      assert Problem(left, jobs[0], tools).Some?;
    } else {
      forall p | EndsWith(p, ".patch") ensures (p in left <==> p in files) && (p in left ==> left[p] == files[p]) {
        PatchesKept(files, jobs, k, left, tools, p);
      }
      forall i | 0 <= i < |jobs| ensures Problem(left, jobs[i], tools) == Problem(files, jobs[i], tools) {
        SameProblem(files, left, jobs[i], tools);
      }
    }
  }

  lemma FailedIsInterrupted(files: Files, before: seq<Job>, o: Outcome, rest: seq<Job>, left: Files, error: string, tools: Tools)
      returns (k: nat)
    requires FailedAt(files, before, o, left, error, tools)
    ensures Interrupted(files, before + JobsOfAttempts(o.attempts) + rest, k, left, tools)
  {
    var here := before + JobsOfAttempts(o.attempts);
    if Good(files, here, tools) {
      k := |here|;
    } else {
      k :| StoppedAt(files, here, k, left, error, tools);
    }
    assert (here + rest)[..k] == here[..k];
    assert k == |here| ==> here[..k] == here;
  }

  /** In particular, what sealing leaves when it throws cannot be sealed again as it is. */
  lemma HaltedSealingIsInterrupted(files: Files, outcomes: seq<Outcome>, left: Files, error: string, tools: Tools)
      returns (k: nat)
    requires KeepsPatch(tools) && Halted(files, outcomes, left, error, tools)
    ensures Interrupted(files, JobsOfOutcomes(outcomes), k, left, tools)
    ensures !Ready(left, outcomes, tools)
  {
    var i: nat :| HaltedAt(files, outcomes, i, left, error, tools);
    HaltedHere(files, outcomes, i, left, error, tools);
    NextOutcome(outcomes, i);
    OutcomesSplit(outcomes, i + 1);
    k := FailedIsInterrupted(files, JobsOfOutcomes(outcomes[..i]), outcomes[i], JobsOfOutcomes(outcomes[i + 1..]), left, error, tools);
    UnsavedSealingCannotResume(files, outcomes, k, left, tools);
  }

  lemma {:induction false} JobsOfAppend(left: seq<string>, right: seq<string>, expected: string)
    ensures JobsOf(left + right, expected) == JobsOf(left, expected) + JobsOf(right, expected)
  {
    if right == [] {
      assert left + right == left;
    } else {
      var n := |right| - 1;
      assert (left + right)[..|left + right| - 1] == left + right[..n];
      JobsOfAppend(left, right[..n], expected);
    }
  }

  lemma JobsOfPrefix(ids: seq<string>, i: nat, expected: string, start: Files, before: seq<Job>, tools: Tools)
    requires i <= |ids|
    ensures Good(start, before + JobsOf(ids, expected), tools) ==> Good(start, before + JobsOf(ids[..i], expected), tools)
  {
    assert ids == ids[..i] + ids[i..];
    JobsOfAppend(ids[..i], ids[i..], expected);
    PrefixGood(start, before, JobsOf(ids[..i], expected), JobsOf(ids[i..], expected), tools);
  }
}

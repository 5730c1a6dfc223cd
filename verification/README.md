# Verification of the qualification scripts

A Dafny model of the self-contained protocols and algorithms in Agent Control's `scripts/`
directory, with proofs of what they promise. `dafny verify dfyconfig.toml` checks the whole
project.

| module | what it models |
|---|---|
| `Text`, `Json` | joining, splitting and stripping; JSON values and `JSON.stringify` |
| `StableText`, `Facts`, `Assessment`, `AssessmentOrder` | the canonical text `stable`, the flattening `leaves`, the assessor `assess`, and when its verdict is independent of key order |
| `ServiceCleanup` | the reserve / start / stop / restore lifecycle of the evidence-verifier run |
| `PhaseChannel` | `writePhase` and the incremental `PhaseReader` |
| `RecoveryAuthority`, `RecoveryProtocol` | the recovery authority, and any number of controllers that crash and resend |
| `ResumableRun`, `EscalationLoop`, `EvidenceSealing` | the mutation benchmark driver: resume, escalation, sealing of patch evidence |
| `ReservationLedger` | the fixture ledger whose check and store are separated by an await |
| `GuideBlocks`, `GuideText`, `InlineMarkup`, `GuideStory` | the operator guide: block parser, printed text, inline markup, and what is printed read back |
| `MatchIndex`, `ProcessClosure`, `SentenceParts`, `HistoryMerge` | the match index, the browser process tree, the sentence splitter, the usage-history merge |

Code that updates state step by step is modelled by methods and classes proved against
specification functions; the promises are lemmas about those functions. Lemmas named `…Exactly` say what a
function gives in terms of its input alone.

How the surroundings are modelled:

- An object is a sequence of entries in any order. A JavaScript object lists integer-like keys first, so not
  every sequence is one. Where a tie involves an integer-like key ("1" and "1" with an ignorable character),
  only one order can occur, and the "only if" half of `StableText.StableCanonicalExactly` speaks of a reordering
  no object shows; so it is with the "only if" halves of the two exact conditions in `AssessmentOrder`.
- JSON numbers are integers, strings hold no lone surrogates, and values are parsed JSON (there is
  no `undefined` inside them). `JSON.parse` is any function that undoes `Stringify`
  (`PhaseChannel.ParserExists` shows there is one).
- `localeCompare` is any total preorder on strings, given as the parameter `le`. Distinct strings may
  collate as equal (a composed and a decomposed letter do), and the sort is stable.
- SHA-256, gzip, gunzip and `path.resolve` are parameters. `KeepsPatch` says that resolving a path
  keeps the file name it ends with.
- Python's white space, digit and word classes are parameters of type `CharClass`; `White` holds of
  the real white-space class (`SentenceParts.PythonSpaceIsWhite`).
- A process may die at any step: `Process.fuse` counts the steps it still has. An awaited call may
  throw at any time: `ServiceCleanup.World` decides from everything that happened before. The
  benchmark's `runAttempt` is an arbitrary function of the attempts so far, and `runOutcome` an arbitrary function
  of its pair where the resume loop calls it.
- The authority handles each request atomically once its body is read, so an interleaving of
  requests is the sequence in which they are handled.

Where the code does not do what one would expect, the code is kept and the difference proved:

- `stable` is canonical exactly on values without two keys that collate as equal in one object
  (`StableText.StableCanonicalExactly`), and `indexesEqual` exactly on indexes without two such file
  names (`MatchIndex.IndexesEqualExactly`; for the sequences of matches they are built from, `MatchIndex.MatchesEqualExactly`).
- `assess` ignores the key order of expected facts, or of a candidate, exactly when leaves of one path print
  the same text and no leaf value holds tied keys (`AssessmentOrder.ExpectedOrderExactly`,
  `AssessmentOrder.CandidateOrderExactly`). Keys without dots meet the first half; a dotted key beside the
  nesting it mimics can break it (`AssessmentOrder.DottedKeysMatter`).
- `writePhase` lets details replace the phase, and `PhaseReader` drops records whose phase is falsy
  (`PhaseChannel.EveryPhaseArrivesExactly`).
- The recovery authority turns the execution id into text before testing it, so it also accepts an id inside a
  list of one element (`RecoveryAuthority.NamedExactly`).
- A crash or a throw while sealing, or after it and before the next write, leaves a partial file that can no
  longer be resumed once a single patch was sealed (`EvidenceSealing.UnsavedSealingCannotResume`).
- The fixture ledger breaks the first acceptance invariant its own README states (line 117 of
  `scripts/qualify-crew-wopr-escalation.ts`): any number of overlapping calls can all win
  (`ReservationLedger.OverlappingCallsAllWin`). `ReservationLedger.OneWinnerExactly` reads off the schedule
  alone when at most one does.
- `sentence_parts` says it rewrites no text (line 1 of `scripts/speech_chunks.py`), but joining its parts gives the stripped text back
  exactly when sentences are separated by single blanks (`SentenceParts.PartsJoinToText`).
- A table row is dropped as a separator exactly when a dash, or a colon and a dash, follows its bar and white space
  (`GuideBlocks.SeparatorRowExactly`), a table that a fence follows comes after the code
  (`GuideBlocks.SourceOrderExactly`), and bold that ends inside a code span is badly nested
  (`InlineMarkup.CrossingIsNotNested`).

## Model

| member | source | states |
|---|---|---|
| Json.StringifyInjective | scripts/qualify-evidence-verifier.ts:38 | the text of a value determines the value; comparing `JSON.stringify` texts is comparing values |
| Json.Unambiguous | scripts/qualify-evidence-verifier.ts:38 | a value followed by text that cannot continue it is read in one way only: texts are uniquely decodable in place |
| Json.StringifyPrintable | scripts/qualify-recovery-3.9.ts:29 | a JSON text holds no control character, so a written phase is one line |
| Json.TruthyExactly | scripts/qualify-recovery-3.9.ts:54 | what counts as no phase, or no model: a missing value, null, false, zero and the empty string |
| StableText.StablePrintsNorm | scripts/qualify-evidence-verifier.ts:38 | `stable` prints the value with the entries of every object stably sorted by key |
| StableText.SortKeepsOrder | scripts/qualify-evidence-verifier.ts:38 | an entry stays before every later entry that does not collate before it, so ties keep their order |
| StableText.StableDecodable | scripts/qualify-evidence-verifier.ts:38 | whatever the collation, equal texts mean values equal up to key order at every depth |
| StableText.StableCanonical | scripts/qualify-evidence-verifier.ts:38 | on a value without tied keys, two texts are equal if and only if the values are equal up to key order |
| StableText.StableCanonicalExactly | scripts/qualify-evidence-verifier.ts:38 | `stable` ignores the key order of a value if and only if none of its objects has two keys that collate as equal |
| StableText.TiedKeysPrintDifferently | scripts/qualify-evidence-verifier.ts:38 | two keys that collate as equal, listed in either order, give two texts for the same object |
| Facts.LeavesExactly | scripts/qualify-evidence-verifier.ts:40 | the leaves are exactly the values that are no objects, wherever keys lead to them, each under its keys joined by dots (empty keys in front leave no trace) |
| Facts.LeavesDistinct | scripts/qualify-evidence-verifier.ts:40 | an object with non-empty, dot-free keys is flattened to pairwise distinct paths |
| Facts.UnflattenLeaves | scripts/qualify-evidence-verifier.ts:40 | unflattening the leaves rebuilds the object, short of the sub-objects that hold no leaf |
| Assessment.AcceptedExactly | scripts/qualify-evidence-verifier.ts:41-46 | for every candidate: what makes an answer completed, compliant, accepted in substance and accepted in full, in terms of its own outcome, evidence and actions fields and of what is missing |
| Assessment.FindingsExactly | scripts/qualify-evidence-verifier.ts:44 | missing paths are, in order, those of the expected leaves that the last reported leaf of that path does not confirm; unsupported ones those of the reported leaves, null apart, that the expected facts do not confirm |
| Assessment.NothingAnswered | scripts/qualify-evidence-verifier.ts:43 | without an answer that is an object every expected path is missing, nothing is claimed and nothing accepted |
| Assessment.CorrectPlusMissing | scripts/qualify-evidence-verifier.ts:41-46 | correct facts plus missing paths are the facts asked for; the score is their share, between 0 and 1, and 1 exactly when a completed answer misses nothing |
| Assessment.AcceptanceMeans | scripts/qualify-evidence-verifier.ts:44-45 | an accepted answer misses nothing, and its unsupported claims are at paths the expected facts do not have |
| Assessment.UnsupportedOutside | scripts/qualify-evidence-verifier.ts:44 | when every expected leaf is confirmed and reported leaves of one path print the same text, an unsupported path is outside the expected facts |
| AssessmentOrder.BagReordered | scripts/qualify-evidence-verifier.ts:40-44 | reordering keys at any depth rearranges the leaves, so any measure that ignores key order inside leaf values gives the same total |
| AssessmentOrder.ConfirmsReordered | scripts/qualify-evidence-verifier.ts:44 | whether consistent facts confirm a leaf does not depend on the order of their keys, if either side holds no ties |
| AssessmentOrder.AssessInvariant | scripts/qualify-evidence-verifier.ts:41-46 | the whole verdict, with the same paths as often in both lists, is the same for any key order of candidate and expected facts when reported leaves of one path print the same text and so do expected ones, which hold no ties inside |
| AssessmentOrder.PlainFactsAreConsistent | scripts/qualify-evidence-verifier.ts:40 | with non-empty, dot-free keys leaves of one path always print the same text, so only ties inside leaf values are left to matter |
| AssessmentOrder.BringLast | scripts/qualify-evidence-verifier.ts:40 | any leaf can be listed last by reordering keys, so any leaf of a path can be the one looked up |
| AssessmentOrder.ExpectedOrderExactly | scripts/qualify-evidence-verifier.ts:41-46 | the key order of expected facts plays no part in the verdict on any candidate if and only if leaves of one path print the same text and no leaf holds tied keys inside its value |
| AssessmentOrder.CandidateOrderExactly | scripts/qualify-evidence-verifier.ts:41-46 | the key order of a candidate plays no part in its verdict against any expected facts if and only if its reported leaves of one path print the same text and none holds tied keys inside its value |
| AssessmentOrder.DottedKeysMatter | scripts/qualify-evidence-verifier.ts:41-46 | a candidate that reports a dotted key beside the nesting it mimics has its one expected fact right in one key order and missing in the other |
| ServiceCleanup.AtMostOnce | scripts/qualify-evidence-verifier.ts:60-71 | in an orderly trace a reservation returns, a stop succeeds and a restore succeeds at most once each |
| ServiceCleanup.RestoreComesAfter | scripts/qualify-evidence-verifier.ts:60-71 | in an orderly trace a stop was attempted and a reservation returned before any restore attempt |
| ServiceCleanup.RestoreComesLast | scripts/qualify-evidence-verifier.ts:60-71 | after a restore attempt nothing is reserved, started, executed or stopped |
| ServiceCleanup.ChecksComeFirst | scripts/qualify-evidence-verifier.ts:60-71 | in an orderly trace the identity was inspected before anything is reserved or started, and a case was checked and a managed server started before any execution |
| ServiceCleanup.ScriptSpelledOut | scripts/qualify-evidence-verifier.ts:61-70 | the calls of a run with one case, repetition and arm, listed one by one, with and without managed server and reservation |
| ServiceCleanup.Qualification.Await | scripts/qualify-evidence-verifier.ts:61-68 | one awaited call that returns or throws as the world decides; it must be allowed by what happened before |
| ServiceCleanup.Qualification.Prepare | scripts/qualify-evidence-verifier.ts:61 | the start of the try block makes its calls in order up to the first that throws, and leaves the lifecycle variables saying what returned; when it completes, the server is admitted and any reservation held |
| ServiceCleanup.Qualification.RunCases | scripts/qualify-evidence-verifier.ts:62-67 | the loops make the calls of every arm of every repetition of every case, in order, up to the first that throws, and never stop or restore anything |
| ServiceCleanup.Qualification.RunArms | scripts/qualify-evidence-verifier.ts:62-66 | one repetition executes every arm, with a snapshot after each when the server is managed, up to the first call that throws |
| ServiceCleanup.Qualification.Finish | scripts/qualify-evidence-verifier.ts:68-70 | the end of the try block makes its calls in order up to the first that throws; when it completes, the server is stopped and the services are restored, each if it was used |
| ServiceCleanup.Qualification.CleanUp | scripts/qualify-evidence-verifier.ts:71 | one more stop attempt exactly when no stop succeeded, then one more restore attempt exactly when a reservation is held and not restored |
| ServiceCleanup.Qualification.Run | scripts/qualify-evidence-verifier.ts:57-71 | whatever the world lets throw, the trace is exactly that of the script's calls up to the first that throws, followed by the cleanup it needs; it is orderly, a restore is attempted if and only if a reservation returned, a stop if and only if there is a server, at most two attempts of each; a completed run stops and restores exactly once and executes everything |
| PhaseChannel.SplitResumes | scripts/qualify-recovery-3.9.ts:54 | splitting can be resumed from the remainder, even when a line break is cut between CR and LF |
| PhaseChannel.LinesAreRead | scripts/qualify-recovery-3.9.ts:54 | lines are read whichever line break ends them, and what follows the last break remains |
| PhaseChannel.PhaseReader.OnData | scripts/qualify-recovery-3.9.ts:54 | after any chunk, values and remainder are those of one split of everything received |
| PhaseChannel.PhaseReader.AcceptLines | scripts/qualify-recovery-3.9.ts:54 | the handler's loop appends, in order, exactly the lines that parse to a value with a phase |
| PhaseChannel.Read | scripts/qualify-recovery-3.9.ts:54 | for any chunks, the values and the remainder are those of the concatenation |
| PhaseChannel.RecordExactly | scripts/qualify-recovery-3.9.ts:29 | what a written record holds under every key: the time, else the last detail under that key, else the name as the phase, else nothing |
| PhaseChannel.RecordReads | scripts/qualify-recovery-3.9.ts:29 | the phase of a written record is the last detail under that key, or else the name |
| PhaseChannel.WrittenPhasesAreRead | scripts/qualify-recovery-3.9.ts:29-54 | for every sequence of written phases, however the stream is cut, exactly the records with a truthy phase are read, in order, and nothing remains |
| PhaseChannel.WrittenDetailsAreRead | scripts/qualify-recovery-3.9.ts:29-54 | however the stream is cut, the values read are those of the phases that are not falsy, in order, and hold under every key what was written |
| PhaseChannel.EveryPhaseArrivesExactly | scripts/qualify-recovery-3.9.ts:29-54 | all written records are read, or as many as were written, if and only if the phase of every one is truthy |
| PhaseChannel.NamedPhasesAreRead | scripts/qualify-recovery-3.9.ts:29-54 | in particular all are read when every phase has a name that its details do not replace |
| PhaseChannel.ParserExists | scripts/qualify-recovery-3.9.ts:54 | some parser inverts the printer, so the assumption on `JSON.parse` can be met |
| RecoveryAuthority.Authority.Handle | scripts/qualify-recovery-3.9.ts:36 | the reply and the new state are those the history of requests determines; the counters of the map play no part |
| RecoveryAuthority.Authority.HandleKnown | scripts/qualify-recovery-3.9.ts:36 | status and unknown operations on an execution: missing, mismatched, running once, then completed |
| RecoveryAuthority.ValidIdExactly | scripts/qualify-recovery-3.9.ts:36 | the ids accepted are those of a run named in digits, a to f and dashes, followed by a number without leading zero |
| RecoveryAuthority.NamedExactly | scripts/qualify-recovery-3.9.ts:36 | a body names an execution if and only if its field is the id, or lists of one element nested around it |
| RecoveryAuthority.CallsExactly | scripts/qualify-recovery-3.9.ts:36 | what every request is taken for, read off its method, path and body |
| RecoveryAuthority.RefusalsExactly | scripts/qualify-recovery-3.9.ts:36 | status and error of every request that is turned away before an execution is looked up |
| RecoveryAuthority.AnswersSay | scripts/qualify-recovery-3.9.ts:32-36 | the fields of the RUNNING and the COMPLETED answer |
| RecoveryAuthority.FirstRouteExactly | scripts/qualify-recovery-3.9.ts:36 | the route kept is that of the first request to execute |
| RecoveryAuthority.MetricsExactly | scripts/qualify-recovery-3.9.ts:36 | the metrics list exactly the executions asked for, with route, number of execute requests and number of matching status requests |
| RecoveryProtocol.AcceptedOnce | scripts/qualify-recovery-3.9.ts:36 | over every history an execution asked for is accepted exactly once, and its execute calls are one plus the duplicates refused |
| RecoveryProtocol.RouteIsFixed | scripts/qualify-recovery-3.9.ts:36 | once accepted, the route of an execution never changes |
| RecoveryProtocol.StatusTimeline | scripts/qualify-recovery-3.9.ts:36 | the first matching status request is answered RUNNING, every later one COMPLETED with the same response |
| RecoveryProtocol.OthersDoNotAdvance | scripts/qualify-recovery-3.9.ts:36 | any sequence of other requests, mismatched routes included, leaves an execution's counters and route alone |
| RecoveryProtocol.ExecutionsAreIsolated | scripts/qualify-recovery-3.9.ts:36 | the reply to a request that names an execution is what it would be had nothing but that execution ever been asked for |
| RecoveryProtocol.RouteTextDecides | scripts/qualify-recovery-3.9.ts:31-36 | the authority's comparison of route texts accepts exactly the routes that agree field by field, missing fields being null |
| RecoveryProtocol.ExecutorRequestIsRead | scripts/qualify-recovery-3.9.ts:45 | what the executor posts is read by the authority as the operation, the execution and the route it names |
| RecoveryProtocol.FirstRequestIsHeld | scripts/qualify-recovery-3.9.ts:36-45 | what the executor posts for any run is read as what it asks, and the first request for an execution never asked for is accepted and held |
| RecoveryProtocol.AgreementReachesAuthority | scripts/qualify-recovery-3.9.ts:36-45 | in every run, if all senders agree on the route of an execution, so do all messages in flight and everything handled |
| RecoveryProtocol.AsksWereSent | scripts/qualify-recovery-3.9.ts:36-45 | in every run an execution is asked for, handled or in flight, at most as often as controllers that were up sent for it |
| RecoveryProtocol.RunningReceivedOnce | scripts/qualify-recovery-3.9.ts:36-45 | in every run at most one RUNNING reply about an execution reaches any controller, and none before it is reconciled |
| RecoveryProtocol.EveryRun | scripts/qualify-recovery-3.9.ts:36-45 | over every run with crashes, losses, reordering and resends: accepted at most once, accepted and refused requests no more than were sent, at most one RUNNING reply received; with agreeing senders no mismatch is ever answered, and once accepted a status request is answered RUNNING or COMPLETED |
| RecoveryProtocol.ReconciledThenCompleted | scripts/qualify-recovery-3.9.ts:36-45 | after one reconciliation, whatever is handled in between, every later one returns the completed response |
| ResumableRun.PairsAt | scripts/benchmark-harness-mutation-live.ts:97-98 | the pairs are all strategies with all tasks, in the order of the nested loops |
| ResumableRun.GrowIsComplete | scripts/benchmark-harness-mutation-live.ts:97-106 | the uninterrupted loop yields an outcome for every pair, none twice, each the result of its own pair |
| ResumableRun.GrowKeepsOrder | scripts/benchmark-harness-mutation-live.ts:97-106 | outcomes come in the order in which their pairs first occur |
| ResumableRun.FullIsComplete | scripts/benchmark-harness-mutation-live.ts:97-106 | a finished list is the outcomes it started from and, for every strategy and task that was missing, one new outcome, the result of that very pair |
| ResumableRun.ResumeFromPrefix | scripts/benchmark-harness-mutation-live.ts:91-106 | resuming from any prefix of the list grown from any stored outcomes, those included, ends with that very list |
| ResumableRun.Process.WriteAtomic | scripts/benchmark-harness-mutation-live.ts:283-284 | the stored file is the old one or the new one, wherever the process dies |
| ResumableRun.Process.ReadPartial | scripts/benchmark-harness-mutation-live.ts:238-243 | a file of another suite, model or provider is refused; otherwise its outcomes are the start |
| ResumableRun.ForeignExactly | scripts/benchmark-harness-mutation-live.ts:238-243 | a stored file is read if and only if schema, suite, model and provider are the run's own |
| ResumableRun.SealedAllExactly | scripts/benchmark-harness-mutation-live.ts:92 | sealing changes nothing in a stored outcome but patch ids, each of which follows its archive |
| ResumableRun.Process.RunPair | scripts/benchmark-harness-mutation-live.ts:100-104 | one missing pair: its outcome is appended and reaches the disk before anything else happens |
| ResumableRun.Process.Session | scripts/benchmark-harness-mutation-live.ts:91-108 | a run is rejected exactly on a foreign file or when the evidence of its outcomes cannot be sealed; otherwise it seals them and, with any number of steps to live, finishes with an outcome for every strategy and task on top of the sealed ones, or leaves exactly the prefix it had time to store; without `--resume` it starts from nothing |
| ResumableRun.ResumeOnce | scripts/benchmark-harness-mutation-live.ts:91-108 | a resumed run is rejected exactly when the first stored file was not resumable or a run before sealed something and stored nothing; otherwise it finishes, or leaves the stored file a prefix of the full list, longer by what it had time for |
| ResumableRun.UnsavedIsStuck | scripts/benchmark-harness-mutation-live.ts:91-103 | after a run that sealed something and died before it stored anything, no run can resume |
| ResumableRun.RunUntilDone | scripts/benchmark-harness-mutation-live.ts:91-108 | from any stored file, runs interrupted at any steps, any number of times, and resumed give the outcome list of one uninterrupted run from the sealed stored outcomes, with every strategy and task in it; with nothing to seal, one run that lives long enough is all it takes |
| ResumableRun.NothingStored | scripts/benchmark-harness-mutation-live.ts:91-92 | without a stored file nothing is sealed, no run is rejected, and the list is that of a fresh run |
| EscalationLoop.RunOutcome | scripts/benchmark-harness-mutation-live.ts:121-151 | the report's attempts are that chain; verdict, profile and verifier are the last attempt's, totals are sums over all |
| EscalationLoop.StartsExactly | scripts/benchmark-harness-mutation-live.ts:122-131 | the first attempt runs at the profile the strategy names, or the predicted one, without a checkpoint |
| EscalationLoop.AttemptExactly | scripts/benchmark-harness-mutation-live.ts:184-202 | an attempt is verified if and only if its verifier passed and nothing failed while it ran; it has a reason to escalate only otherwise, and records its own trial's figures |
| EscalationLoop.EscalatesExactly | scripts/benchmark-harness-mutation-live.ts:136-138 | another attempt follows if and only if this one is not verified, has a reason, is not at the deepest profile, and task and strategy let it |
| EscalationLoop.RunAttempts | scripts/benchmark-harness-mutation-live.ts:131-142 | the loop makes the escalation chain of the strategy and the task |
| EscalationLoop.ProfilesClimb | scripts/benchmark-harness-mutation-live.ts:132-141 | the profiles climb one step per attempt from the starting profile |
| EscalationLoop.AttemptsBounded | scripts/benchmark-harness-mutation-live.ts:132-141 | at most three attempts, fewer from a higher start, one when the strategy is not adaptive or the task forbids escalation |
| EscalationLoop.OnlyLastVerified | scripts/benchmark-harness-mutation-live.ts:136-146 | no attempt but the last is verified, so the outcome is verified if and only if some attempt was |
| EscalationLoop.ChainEnds | scripts/benchmark-harness-mutation-live.ts:136-138 | a chain ends because it is verified, may not escalate, has no reason to, or is at the deepest profile |
| EscalationLoop.ResumesFromPrevious | scripts/benchmark-harness-mutation-live.ts:137-140 | each further attempt follows an unverified one, one profile up, and is given its profile, reason, diff hash, changed files and exactly its failed checks |
| EscalationLoop.ChainUnique | scripts/benchmark-harness-mutation-live.ts:132-141 | strategy, task and world determine the chain |
| EscalationLoop.TotalKnown | src/control/harness-mutation-benchmark.ts:401-404 | a token total is known exactly when every attempt reports its figure |
| EscalationLoop.TotalsAdd | scripts/benchmark-harness-mutation-live.ts:146 | totals of attempts together are the sums of the totals, an unknown figure making the token total unknown |
| EscalationLoop.TotalsOfOne | scripts/benchmark-harness-mutation-live.ts:146 | the totals of one attempt are its own figures |
| EvidenceSealing.Evidence.WritePatchEvidence | scripts/benchmark-harness-mutation-live.ts:276-282 | the archive is written exactly when hash and round trip agree; otherwise no file changes |
| EvidenceSealing.Evidence.SealOne | scripts/benchmark-harness-mutation-live.ts:246-258 | a legacy id fails with the first problem its file has and no file changes; otherwise its archive replaces it |
| EvidenceSealing.Evidence.SealIds | scripts/benchmark-harness-mutation-live.ts:246-258 | a list is sealed in place exactly when all its jobs are good after those before; order, length and other ids stay; when it throws, the files are what the jobs before the failing one leave |
| EvidenceSealing.Evidence.SealAttempts | scripts/benchmark-harness-mutation-live.ts:259-260 | the attempts of an outcome are sealed one after the other, each against its own diff hash; when it throws, the files are what the jobs before the failing one leave |
| EvidenceSealing.Evidence.FollowAttempts | scripts/benchmark-harness-mutation-live.ts:261-265 | an outcome's legacy id becomes the archive's when an attempt refers to it, and is refused when none does |
| EvidenceSealing.Evidence.SealOutcome | scripts/benchmark-harness-mutation-live.ts:259-265 | an outcome is sealed exactly when its jobs are good and its own ids backed; when it throws, which of the two failed and what it left |
| EvidenceSealing.Evidence.SealLegacyPatchEvidence | scripts/benchmark-harness-mutation-live.ts:244-268 | sealing succeeds if and only if every legacy file exists, is named once and matches its hash, and every outcome id is backed by an attempt; then every list and every file is the sealed one; when it throws, the files are what the jobs before the failing one leave |
| EvidenceSealing.ReadyExactly | scripts/benchmark-harness-mutation-live.ts:244-282 | read off outcomes and files: sealing succeeds if and only if every patch an attempt names can be sealed, no file is named at two places, and an outcome names no patch that its attempts do not |
| EvidenceSealing.ProblemExactly | scripts/benchmark-harness-mutation-live.ts:246-280 | why a named patch cannot be sealed: its ending, its place, its absence, its hash, or compression, in that order |
| EvidenceSealing.SealedExactly | scripts/benchmark-harness-mutation-live.ts:244-268 | what sealing returns: at every position the archive's id in place of the patch's, and every other id as it was |
| EvidenceSealing.FilesExactly | scripts/benchmark-harness-mutation-live.ts:244-282 | what it leaves: every named patch and temporary file gone, every archive the compressed patch, every other file as it was |
| EvidenceSealing.GoodNext | scripts/benchmark-harness-mutation-live.ts:246-258 | sealing file after file succeeds exactly when all files are good together, none asked for twice |
| EvidenceSealing.PatchBecomesArchive | scripts/benchmark-harness-mutation-live.ts:253-257 | every sealed patch is gone and its archive decompresses to what it was |
| EvidenceSealing.OthersUntouched | scripts/benchmark-harness-mutation-live.ts:244-268 | files no job touches stay as they are |
| EvidenceSealing.SealingIsThorough | scripts/benchmark-harness-mutation-live.ts:259-266 | no legacy id is left; every id of the outcome that was legacy is an id of one of its attempts; every id an attempt had it still has, sealed |
| EvidenceSealing.OccurringIdsAreBacked | scripts/benchmark-harness-mutation-live.ts:261-265 | an outcome whose legacy ids all occur in its attempts is never refused for them |
| EvidenceSealing.SealingAgainIsIdentity | scripts/benchmark-harness-mutation-live.ts:244-268 | sealing sealed outcomes succeeds and changes neither lists nor files |
| EvidenceSealing.SealingIsIdempotent | scripts/benchmark-harness-mutation-live.ts:244-268 | what a successful sealing returns is left alone by the next |
| EvidenceSealing.UnsavedSealingCannotResume | scripts/benchmark-harness-mutation-live.ts:91-92 | whatever a crash or a throw leaves after any number of jobs, in the middle of a job too, sealing the stored outcomes succeeds if and only if no job was done and all was ready |
| EvidenceSealing.HaltedSealingIsInterrupted | scripts/benchmark-harness-mutation-live.ts:244-268 | what sealing leaves when it throws is such a state, and cannot be sealed as it is |
| ReservationLedger.Drive | scripts/qualify-crew-wopr-escalation.ts:122-133 | any schedule of halves of calls ends in the state the schedule determines |
| ReservationLedger.StatusMeans | scripts/qualify-crew-wopr-escalation.ts:125-130 | how far a call is depends only on how often it was scheduled and on whether a store for its resource preceded its check |
| ReservationLedger.WinsWhenCheckedFirst | scripts/qualify-crew-wopr-escalation.ts:125-130 | over every schedule, a returned call won if and only if it checked before the first store for its resource |
| ReservationLedger.StoredMeansTwice | scripts/qualify-crew-wopr-escalation.ts:125-130 | a store for a resource precedes a moment of the schedule if and only if some call for it was scheduled twice before |
| ReservationLedger.StoresExactly | scripts/qualify-crew-wopr-escalation.ts:125-130 | a step stores if and only if it is the second of a call that first came before any call for its resource came twice |
| ReservationLedger.WinsWhenInTime | scripts/qualify-crew-wopr-escalation.ts:125-130 | a call wins if and only if it is scheduled at least twice, and for the first time before any call for its resource was scheduled twice |
| ReservationLedger.OwnerIsLastStore | scripts/qualify-crew-wopr-escalation.ts:128-132 | the owner of a resource is the caller that stored last |
| ReservationLedger.SequentialCallsHaveOneWinner | scripts/qualify-crew-wopr-escalation.ts:117-130 | calls that do not overlap have at most one winner |
| ReservationLedger.OneWinnerExactly | scripts/qualify-crew-wopr-escalation.ts:117-130 | at most one call for a resource wins if and only if at most one call for it is in time, which is read off calls and schedule alone |
| ReservationLedger.OverlappingCallsAllWin | scripts/qualify-crew-wopr-escalation.ts:117-130 | any number of distinct calls that are each scheduled once before any is scheduled again all win |
| ReservationLedger.OverlappingCallsBothWin | scripts/qualify-crew-wopr-escalation.ts:144-152 | any two calls for one resource, among any others, that both check before either stores both win, against the invariant; the second store owns the resource |
| GuideBlocks.MarkedLineIsRead | scripts/generate-operator-guide.py:134-149 | a line written with a heading or bullet marker is read as that kind, and all that follows the marker is shown |
| GuideBlocks.KindExactly | scripts/generate-operator-guide.py:117-154 | which kind a line is, read off its characters |
| GuideBlocks.SeparatorRowExactly | scripts/generate-operator-guide.py:104 | a row with anything but white space behind its bar is a separator if and only if a dash, or a colon and a dash, comes next |
| GuideBlocks.EmptyRowIsKept | scripts/generate-operator-guide.py:104 | a row of one bar and white space is no separator |
| GuideBlocks.BuffersExclude | scripts/generate-operator-guide.py:116-154 | prose and table rows never wait together, and code waits only inside a fence |
| GuideBlocks.HeldOnce | scripts/generate-operator-guide.py:116-154 | at any time a line that counts is in the story or in one buffer, once, and no other line is |
| GuideBlocks.CodeIsOpen | scripts/generate-operator-guide.py:117-126 | the code buffer holds exactly the lines of a fence that is still open |
| GuideBlocks.EveryLineOnce | scripts/generate-operator-guide.py:86-157 | a line is in the story exactly once if it is content, and not at all if it is blank, a fence, a separator row or code of an unclosed fence |
| GuideBlocks.NoForeignLines | scripts/generate-operator-guide.py:86-157 | the story holds only lines of the source |
| GuideBlocks.SourceOrderExactly | scripts/generate-operator-guide.py:116-157 | the story is in source order if and only if no line of closed code stands behind table rows that wait |
| GuideBlocks.OrderedWithoutRowBeforeFence | scripts/generate-operator-guide.py:116-157 | the story is in source order when no table row is immediately followed by a fence |
| GuideBlocks.FirstTitleIsFirst | scripts/generate-operator-guide.py:117-140 | the title that becomes the cover is the first title line outside all fences, and there is none exactly when there is no such line |
| GuideBlocks.GuideParser.FlushParagraph | scripts/generate-operator-guide.py:95-99 | a paragraph that waits becomes one block at the end of the story |
| GuideBlocks.GuideParser.FlushTable | scripts/generate-operator-guide.py:101-114 | the table's rows that are no separators become one block at the end of the story; a table of separators alone leaves nothing |
| GuideBlocks.DataRows | scripts/generate-operator-guide.py:104 | the rows kept are those that are no separators, in order |
| GuideBlocks.GuideParser.AddFence | scripts/generate-operator-guide.py:117-123 | a fence flushes prose but not the table, and closing it places its code as one block |
| GuideBlocks.GuideParser.AddRow | scripts/generate-operator-guide.py:127-130 | a row flushes prose and joins the table |
| GuideBlocks.GuideParser.AddOther | scripts/generate-operator-guide.py:131-154 | every other line flushes the table, and all but prose flush the paragraph |
| GuideBlocks.GuideParser.AddBlock | scripts/generate-operator-guide.py:134-152 | headings, bullets and numbered lines become a block of their kind; the first title becomes the cover, later ones headings |
| GuideBlocks.GuideParser.AddLine | scripts/generate-operator-guide.py:116-154 | one turn of the loop takes buffers and story from one view of the lines to the next |
| GuideBlocks.GuideParser.Read | scripts/generate-operator-guide.py:116-154 | after any lines one more turn leaves the parser as those lines and this one determine: its buffers, its story and whether a title was seen |
| GuideBlocks.GuideParser.Finish | scripts/generate-operator-guide.py:155-157 | the last flushes complete the story of the lines read |
| GuideBlocks.Parse | scripts/generate-operator-guide.py:86-157 | the story is the one `Story` of its lines |
| GuideBlocks.StoryIsOrdered | scripts/generate-operator-guide.py:86-157 | the lines of the story are those of `StoryOrder`, in that order |
| GuideBlocks.StoryGrounded | scripts/generate-operator-guide.py:86-157 | what every block is in the source: a paragraph is a whole run of prose, code everything between two fences, a table the data rows up to a line that ends it, headings and bullets lines of their kind outside all fences |
| GuideBlocks.CoverExactly | scripts/generate-operator-guide.py:136-140 | the story has exactly one cover, showing the first title outside all fences, if there is such a title, and else none |
| GuideText.ParagraphKeepsInk | scripts/generate-operator-guide.py:97 | a printed paragraph has the characters of its lines, in order, up to white space |
| GuideText.ParagraphExactly | scripts/generate-operator-guide.py:97 | a paragraph is its lines without their outer white space, one blank between any two |
| GuideText.RowKeepsInk | scripts/generate-operator-guide.py:106 | the cells of a row have its characters, in order, up to white space and bars |
| GuideText.CellsExactly | scripts/generate-operator-guide.py:106 | the cells of a row are exactly the texts between its bars without their outer white space, whether the row begins or ends with bars or not |
| GuideText.CellsAreClean | scripts/generate-operator-guide.py:106 | no cell contains a bar or begins or ends with white space |
| InlineMarkup.EscIsEach | scripts/generate-operator-guide.py:34-35 | the three replacements in sequence replace every character by its entity once |
| InlineMarkup.EscHasLeftInverse | scripts/generate-operator-guide.py:34-35 | escaping can be undone |
| InlineMarkup.SubExpand | scripts/generate-operator-guide.py:40-41 | the substitution on text is the substitution on tokens, for any way of showing tokens that keeps the delimiter apart |
| InlineMarkup.SubAtFirst | scripts/generate-operator-guide.py:40-41 | the leftmost text between delimiters is replaced, and the substitution goes on behind it |
| InlineMarkup.SubNowhere | scripts/generate-operator-guide.py:40-41 | where nothing stands between delimiters, nothing changes |
| InlineMarkup.InlineIsMarking | scripts/generate-operator-guide.py:38-42 | the three passes over text equal marking the raw text and escaping each character in place |
| InlineMarkup.PlainPrints | scripts/generate-operator-guide.py:38-42 | text without delimiters is escaped and nothing else |
| InlineMarkup.CodePrints | scripts/generate-operator-guide.py:40 | a code span is printed between font tags, escaped, and what follows it is marked up on its own |
| InlineMarkup.BoldPrints | scripts/generate-operator-guide.py:41 | bold text is printed between bold tags, escaped, and what follows it is marked up on its own |
| InlineMarkup.InlineLosesOnlyDelimiters | scripts/generate-operator-guide.py:38-42 | stripped of tags and unescaped, the markup is the text without its marks, and putting a delimiter for every mark gives the text back |
| InlineMarkup.InlineReadsBack | scripts/generate-operator-guide.py:38-42 | reading markup back (tags as their delimiters, entities as their characters) undoes `inline` on every text |
| InlineMarkup.SpansByTurns | scripts/generate-operator-guide.py:40 | code spans open and close by turns and never overlap |
| InlineMarkup.NestedExactly | scripts/generate-operator-guide.py:38-42 | tags are well nested if and only if the two delimiters of every bold match lie outside all code spans or inside the same one |
| InlineMarkup.NestedWithoutStars | scripts/generate-operator-guide.py:38-42 | tags are well nested when no code span contains an asterisk |
| InlineMarkup.CrossingIsNotNested | scripts/generate-operator-guide.py:38-42 | bold that begins outside a code span and ends inside it is never well nested |
| InlineMarkup.CodeTextIsReadable | scripts/generate-operator-guide.py:120 | the lines of a code block can be read back from its text, character for character |
| InlineMarkup.CodeReadsBack | scripts/generate-operator-guide.py:120 | reading the text of a code block back gives its lines |
| GuideStory.BlockReadsBack | scripts/generate-operator-guide.py:95-152 | what a block prints, read back, is the text of its lines short of their markers, up to white space and bars |
| GuideStory.StoryReadsBack | scripts/generate-operator-guide.py:86-157 | so it is for the whole story, in order |
| GuideStory.ContentsAreLines | scripts/generate-operator-guide.py:86-157 | these texts are, one for one and in order, those of the story's lines |
| GuideStory.BodyExactly | scripts/generate-operator-guide.py:97-98 | the text of a paragraph block that is marked up |
| GuideStory.RowExactly | scripts/generate-operator-guide.py:105-108 | a table with one more row has the texts between that row's bars as further cells |
| GuideStory.HeadingExactly | scripts/generate-operator-guide.py:134-152 | a heading or a bullet is what follows its marker, a numbered line all of itself |
| GuideStory.PrintedExactly | scripts/generate-operator-guide.py:95-152 | everything but code is printed text by text through the inline markup |
| MatchIndex.IndexBuilder.AddIndexLine | scripts/benchmark-token-aware-output.ts:151-155 | exactly the added match is gained, and files and lines stay distinct |
| MatchIndex.BuildIndex | scripts/benchmark-token-aware-output.ts:129-149 | the index is the one function of the matches that `Indexed` gives, files and lines in the order first met; it holds exactly those matches |
| MatchIndex.EqualIndexesSameMatches | scripts/benchmark-token-aware-output.ts:157-160 | whatever the collation, equal indexes hold the same matches |
| MatchIndex.IndexesEqualDecides | scripts/benchmark-token-aware-output.ts:157-160 | without tied file names, indexes are equal if and only if they hold the same matches, whatever the order of files and lines |
| MatchIndex.TiedFilesCompareUnequal | scripts/benchmark-token-aware-output.ts:157-160 | an index with two tied file names differs from its own reversal, whatever else it holds |
| MatchIndex.IndexesEqualExactly | scripts/benchmark-token-aware-output.ts:157-160 | comparing decides equality of matches for an index if and only if no two of its file names are tied |
| MatchIndex.MatchesEqualExactly | scripts/benchmark-token-aware-output.ts:129-160 | the indexes of a sequence of matches and of every other with the same matches compare equal if and only if no two of its file names are tied; then comparing decides whether two sequences have the same matches |
| ProcessClosure.Descendants | scripts/qualify-estate-multihost-preflight.ts:9 | the `changed` loop ends on every table, cycles included, with exactly the descendants of the root: the least set that contains the root and its members' children |
| ProcessClosure.DescendantsAreLeast | scripts/qualify-estate-multihost-preflight.ts:9 | descendants lie in every set that contains the root and is closed under children |
| ProcessClosure.BrowserRss | scripts/qualify-estate-multihost-preflight.ts:9 | count and memory sum are those of the browser processes among the descendants |
| ProcessClosure.BrowserExactly | scripts/qualify-estate-multihost-preflight.ts:9 | a browser is a process whose name contains the letters c, h, r, o, m in a row, in either case |
| ProcessClosure.CountExactly | scripts/qualify-estate-multihost-preflight.ts:9 | the count is the number of rows of browser processes below the root |
| ProcessClosure.SumExactly | scripts/qualify-estate-multihost-preflight.ts:9 | the sum grows, row by row, by the memory of those rows and by nothing else |
| ProcessClosure.BrowserRssOrderFree | scripts/qualify-estate-multihost-preflight.ts:9 | tree, count and sum do not depend on the order of rows |
| SentenceParts.ComputeSentenceParts | scripts/speech_chunks.py:4-11 | the loop computes the pieces of the split merged after abbreviations |
| SentenceParts.AbbreviatedExactly | scripts/speech_chunks.py:7 | which texts end in an abbreviation: one of the six titles and a full stop, after nothing or a character that is no part of a word |
| SentenceParts.SplitExactly | scripts/speech_chunks.py:6 | the split of a text: pieces in which no white space follows a sentence end, all but the last ending a sentence, with nothing but white space between, that make up the text |
| SentenceParts.MergeExactly | scripts/speech_chunks.py:6-10 | the parts are the pieces in consecutive groups joined by blanks, where a group goes on exactly as long as what it has so far ends in an abbreviation |
| SentenceParts.MergeKeepsText | scripts/speech_chunks.py:6-10 | merging leaves the text joined by single blanks as it is |
| SentenceParts.OpenPartsAreMerged | scripts/speech_chunks.py:7-10 | only the last part may end in a listed abbreviation |
| SentenceParts.SplitOfJoined | scripts/speech_chunks.py:6 | splitting joined sentences gives them back |
| SentenceParts.PartsAreStable | scripts/speech_chunks.py:4-11 | joining the parts equals joining the raw split, no part but the last ends in an abbreviation, and splitting the joined parts again changes nothing |
| SentenceParts.NothingRewritten | scripts/speech_chunks.py:1-11 | apart from white space the parts hold the text, character by character |
| SentenceParts.JoinedSplitIsText | scripts/speech_chunks.py:6 | joining the split gives the text if and only if its sentences are separated by single blanks |
| SentenceParts.PartsJoinToText | scripts/speech_chunks.py:1-11 | joining the parts gives the stripped text if and only if its sentences are separated by single blanks |
| HistoryMerge.FilledExactly | scripts/qualify-usage-history.ts:6 | no row is refused if and only if rows sharing an id agree; the map then holds the first row of every id in first-seen order |
| HistoryMerge.AddRows | scripts/qualify-usage-history.ts:6 | the inner loop takes the map of the rows before to the map of all rows, or reports the conflict |
| HistoryMerge.MergeKey | scripts/qualify-usage-history.ts:6 | one key merges if and only if all its rows sharing an id agree, and gives the first row of each id |
| HistoryMerge.Merge | scripts/qualify-usage-history.ts:6 | all listed keys merge or none does; every other key of the first source is kept |
| HistoryMerge.AllRowsExactly | scripts/qualify-usage-history.ts:6 | the rows merged are those of the sources, one source after the other, none from a source without the key |
| HistoryMerge.FirstsAreDistinct | scripts/qualify-usage-history.ts:6 | merged rows have distinct ids, are rows of the sources, and cover every id |
| HistoryMerge.FirstsInOrder | scripts/qualify-usage-history.ts:6 | merged rows are those at the first occurrence of their id, in the order in which they occur |
| HistoryMerge.FirstsAreUnion | scripts/qualify-usage-history.ts:6 | merged rows are exactly the union of the sources' rows |
| HistoryMerge.MergeOrderFree | scripts/qualify-usage-history.ts:6 | the same rows in another order merge alike, up to a permutation |
| HistoryMerge.SourcesSameRows | scripts/qualify-usage-history.ts:6 | rearranging or repeating sources gives the same rows |
| HistoryMerge.MergeInGroups | scripts/qualify-usage-history.ts:6 | merging some sources first and the rest into their result succeeds exactly when merging all does, and gives the same rows |
| HistoryMerge.RemergeAddsNothing | scripts/qualify-usage-history.ts:6 | merging the result again with any of its sources changes nothing |

## Left out

- Assessment.AcceptanceMeans: asks that reported leaves of one path print the same text, which plain keys give (`AssessmentOrder.PlainFactsAreConsistent`); otherwise a later leaf can confirm an expected fact that an earlier one contradicts.
- AssessmentOrder.AssessInvariant: reorders both sides at once under conditions on each; `AssessmentOrder.ExpectedOrderExactly` and `AssessmentOrder.CandidateOrderExactly` say when they cannot be dropped.
- ResumableRun.RunUntilDone: asks that runs record ids of archives and not of patches (`RecordsArchives`), as they do (lines 191-194 of `scripts/benchmark-harness-mutation-live.ts`); the stored file it starts from may hold any.
- RecoveryProtocol.EveryRun: concerns requests the authority reads as operations on the execution; authentication failures and malformed bodies are refused before that and are covered by `RecoveryProtocol.OthersDoNotAdvance`.
- RecoveryAuthority.Authority.Handle: URL parsing, the 64 KiB body limit (its error is one of the unreadable bodies), HTTP encoding and timestamps are not modelled.
- EscalationLoop.RunOutcome: the set of evidence ids, monetary fields and provenance hashes of the report are not modelled; they are copied or computed without a decision.
- ResumableRun.Process.Session: sealing is not a step at which the process dies (`EvidenceSealing.UnsavedSealingCannotResume` covers that), and a stored file is JSON of the expected shape; progress output and the report written after the loop are not modelled.
- MatchIndex.BuildIndex: starts from parsed matches; the grep line pattern and the event parsing of the two index readers are not modelled.
- ProcessClosure.BrowserRss: the `ps` call and the parsing of its output are not modelled; rows are given.
- HistoryMerge.Merge: rows have string ids; reading and writing files and the usage indexing before the merge are not modelled.
- GuideBlocks.Parse: styles, widths, spacers' sizes and the fixed texts of the cover are not modelled; `splitlines` has already been applied, and `KindOf` is the classification the parser is used with.
- ServiceCleanup.Qualification.Run: removing the state directory at the end of the finally block, and the contents of report and snapshots, are not modelled.
- `QualificationExecutor`: its attempt counters, fixed answers and cancellation carry no property; the request it posts is modelled.
- `PhaseReader.wait`: a polling loop over a clock.
- `summarize`: groups the runs by arm and reports counts, means and sums per group.
- Real SHA-256, gzip, JSON number formatting and Unicode collation are parameters.
- Browser driving, screenshots, SSE, SSH, git, GPU probes, SQLite, model calls and command-line parsing: input and output without an inspectable algorithm.
- `scripts/qualify-agent-templates-native.ts`: repeats `stable` and `leaves` with a near-identical assessor.

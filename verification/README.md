# Autoskill: a verified model

This project models the parts of autoskill whose correctness rests on more than one function or on
more than one call, and proves what they promise over every input and every run. Code that works
step by step (a lexing loop, a store over tables) is modelled by methods and classes with the same
loops and branches, each proved equal to a specification function; the properties are lemmas about
those functions.

**The SQL statement splitter** (`SqlSplitter`, `SplitterForms`, `SplitterLaws`).
`split_sql_statements` is one loop with a start mark, four mode flags, a dollar tag and a look-ahead
for the closing `$` of a tag that searches the whole remaining text. It is proved equal to cutting
at the top-level semicolons of a lexer that has one mode, reads tag names forward, and lets a quote
merely toggle (so the doubled quotes need no case), and that lexer to recognise exactly the
comments, quotes and dollar blocks: every text is a sequence of such forms and plain characters, and
is cut after the plain semicolons. Splitting is a homomorphism for exactly the texts whose last
top-level semicolon is followed by white space only; joining statements with any white space, or
none, and splitting again gives them back; no character but white space is ever lost. The lexer is
the program's own: block comments do not nest and `E''` escapes are unknown to it. Unicode's letter
and digit tables are a parameter; the one law used is that `;` and `$` are neither.

**The proposal-gate state machine** (`EvaluationModel`, `EvaluationRuns`, `RemediationLaws`,
`RemediationCounts`, `RemediationMeaning`, `EvaluationStore`, `Activation`). An evaluation goes from
planned through a gate verdict and a recorded fallback to a remediation, which resets it, parks it,
leaves it waiting or fails it. Gate verdicts, recorded actions, the probes a replay can be derived
for, the planned probes of a version and the rows a call claims are arbitrary. A run interleaves
gate runs, fallback recordings, remediation runs, invalidations and the inserts of the other stores
in any order. What one remediation decides, records and resets is stated condition by condition.
Along every run, resets are bounded by a budget that each reset spends, stagings for trial by the
evidence still to come, parked evaluations stay parked, the attempt log is the end of the true
history, and activation is allowed only on accepted verdicts. A staging that brings a replay does
not park and can be followed by another. That an evaluation is remediated only so often rests on the
one caller that records fallbacks: `sidecar/autoskill/services/autonomy_orchestrator.py:80-106`
passes over evaluations that no gate run has just left in need of intervention, and over those with
hard failures. That a gate verdict overwrites neither the probe hashes nor the remediation and
fallback records follows `sidecar/autoskill/services/evaluator.py:77-97`, whose keys are disjoint
from them.

**The audit chain and the canonical encoding** (`AuditChain`, `AuditLaws`, `AuditStore`, `RawVault`,
`CanonicalLaws`, `JsonReader`). The hash is an arbitrary function of a record's other fields,
injective where a result needs it. `occurred_at` is stamped before the lock is taken and the head is
found by it, so a window of the table that a sequence of appends leaves verifies exactly when the
records inside it came in increasing (occurred_at, audit_id) order, whatever the limit, and a record
taken out of its middle, or changed below its newest, is noticed. `canonicalJson` prints two values
alike exactly when they are equal up to the order of object members, strings as in section 7 of RFC
8259, keys in the order of section 3.2.3 of RFC 8785; an independent reader of JSON texts reads
every printed value back.

**Three stores with invariants** (`BrokerPolicy`; `DriftContracts`, `DriftHistory`, `DriftStore`;
`CandidateModel`, `CandidateLaws`, `CandidateStore`). Which policy is active is characterised by the
history of calls. A contract is a false positive by its status or by a marker that extraction drops;
after every run, which of the two stands is characterised by the history of marks, checks and
extractions, also when checks act on rows read before a mark, and such a run is shown to lose the
mark of every contract. With transactions one after the other, a contract once marked stays a false
positive. Drift probes agree with the contracts' status except when two checks of one contract
overlap; which overlaps break it is stated exactly. The versions of every skill are exactly 1..n
with distinct compiled hashes in every reachable state, and persisting a batch again changes nothing
but clocks. Between two batches the rest of the program may do anything but add versions, delete
skills, versions or gates, or rewrite a compiled hash; no module of the sidecar does any of these.

**Redaction** (`Redaction`, `RedactionMeaning`, `RedactionLaws`). Two mutually recursive functions
replace content by a marker that holds the content's size, and a marker is itself content on the
next pass. Nothing but null and markers is left under content keys, which are told by their ASCII
letters and digits up to case. Three passes are as good as four exactly when every content leaf
prints to fewer than 10^72 characters, one pass is enough exactly when each prints to 29, every
number of passes from three on has its own exact threshold, and every tree settles after finitely
many passes. The two regular-expression steps are arbitrary functions; that redacting text twice is
redacting it once is assumed where needed. Inside content, keys are not compared with the secret
keys; the model does the same.

## Model

| member | source | states |
|---|---|---|
| SqlSplitter.SplitSqlStatements | scripts/migrate.py:20-115 | the flag-driven loop returns the stripped, non-empty pieces that an independent one-mode lexer cuts at its top-level semicolons; at most one flag is ever set |
| SplitterForms.FormIsSkipped | scripts/migrate.py:46-105 | a closed line comment, block comment, single-quoted or double-quoted text or dollar block is passed over whole, whatever it holds and whatever follows |
| SplitterForms.OpenFormHasNoCut | scripts/migrate.py:46-77 | a form that is never closed holds no cut |
| SplitterForms.PlainIsRead | scripts/migrate.py:78-111 | a character that opens none of these forms is read alone, and a semicolon cuts |
| SplitterForms.CutsAreThePlainSemicolons | scripts/migrate.py:32-115 | the pieces of a sequence of forms and plain characters end exactly at its plain semicolons |
| SplitterForms.EveryTextIsForms | scripts/migrate.py:32-115 | every text is such a sequence, so the cuts of every text are these |
| SplitterForms.TheWhiteSpace | scripts/migrate.py:108 | the white space that strip removes, code point by code point |
| SqlSplitter.SearchFindsTheTag | scripts/migrate.py:92-105 | finding the next `$` anywhere in the rest and testing the slice recognises exactly the tags that reading a name forward does |
| SqlSplitter.Find | scripts/migrate.py:93 | str.find: the first occurrence at or after a position, or none |
| SqlSplitter.PendingStep | scripts/migrate.py:46-90 | reading one token, whatever its kind, leaves the pieces still to come unchanged |
| SplitterLaws.StepLocal | scripts/migrate.py:92-105 | no token reaches across a semicolon, so texts that agree up to one read alike before it |
| SplitterLaws.FirstCutLocal | scripts/migrate.py:92-111 | a first top-level semicolon stays the first one whatever text follows it |
| SplitterLaws.NoCutExtends | scripts/migrate.py:32-115 | appending text without a semicolon creates no cut, also inside open quotes, comments and dollar blocks |
| SplitterLaws.SplitConcat | scripts/migrate.py:20-115 | split(s + z) = split(s) + split(z) when only white space follows the last top-level semicolon of s |
| SplitterLaws.SplitHomomorphism | scripts/migrate.py:20-115 | that condition is exact: it holds if and only if split distributes over s + z for every z |
| SplitterLaws.SplitGivesStatements | scripts/migrate.py:107-115 | every result is a stripped statement with no inner top-level semicolon, and all but the last end in theirs |
| SplitterLaws.Resplit | scripts/migrate.py:20-115 | splitting a statement of any split gives that statement alone |
| SplitterLaws.RoundTrip | scripts/migrate.py:20-115 | the statements joined by any blank gaps, or none, split into the same statements, also when the last ends in an open block |
| SplitterLaws.PiecesAreTheText | scripts/migrate.py:107-115 | the pieces concatenate to the text, and each but the last ends at its first top-level semicolon |
| SplitterLaws.NothingLost | scripts/migrate.py:20-115 | the statements hold every character of the text that is not white space, in order |
| EvaluationStore.EligibleForTrialLane | sidecar/autoskill/db/evaluations.py:1288-1322 | the probe-by-probe test accepts a result if and only if the second disjunct of the claim query selects it |
| EvaluationStore.ChooseAction | sidecar/autoskill/db/evaluations.py:1266-1285 | the action stays as selected, or becomes staging for trial and then the trial-lane condition holds |
| EvaluationStore.MakePatch | sidecar/autoskill/db/evaluations.py:1155-1263 | the record of an attempt: each status and each recommendation on exactly its own condition on the action, the attempts so far, the new evidence and the hard failures; count, deadlock flag and the log of the last ten attempts |
| RemediationMeaning.StatusMeans | sidecar/autoskill/db/evaluations.py:1193-1223 | each of the nine statuses is recorded if and only if its own condition holds |
| RemediationMeaning.RecommendationMeans | sidecar/autoskill/db/evaluations.py:1325-1380 | each recommendation for a deadlock is given if and only if its own codes or, failing all codes, its own action are there |
| RemediationMeaning.PatchMeans | sidecar/autoskill/db/evaluations.py:1155-1263 | the whole record of an attempt |
| RemediationMeaning.ResetMeans | sidecar/autoskill/db/evaluations.py:488-546 | an evaluation is reset if and only if it is not rejected and there is new evidence, or it is staged, or it is one of its first two attempts with an action that asks for another run |
| RemediationMeaning.RunMeans | sidecar/autoskill/db/evaluations.py:400-583 | the same of every row of a run, whatever its other rows are |
| RemediationMeaning.DecisionMeans | sidecar/autoskill/db/evaluations.py:429-464 | which probes get a replay, which are added, which are blocked, and which action is taken |
| RemediationMeaning.StoredMeans | sidecar/autoskill/db/evaluations.py:811-858 | the planned probes that are stored: new ones only, inactive and without a replay |
| RemediationMeaning.TrialLaneMeans | sidecar/autoskill/db/evaluations.py:757-785 | the trial lane, clause by clause |
| RemediationMeaning.ClaimMeans | sidecar/autoskill/db/evaluations.py:668-735 | which rows a gate run and a remediation run may claim |
| RemediationMeaning.VersionMeans | sidecar/autoskill/db/evaluations.py:1039-1063 | the version is pending after a reset, failed after a rejection, and otherwise as it was |
| RemediationMeaning.FindingsMean | sidecar/autoskill/db/evaluations.py:1066-1152 | a deadlock leaves an open finding with its codes, nothing else opens one, and staging leaves none open |
| RemediationMeaning.GateMeans | sidecar/autoskill/db/evaluations.py:296-340 | what a verdict writes to the row, the version, the compatibility table and the probes |
| RemediationMeaning.InvalidationMeans | sidecar/autoskill/db/evaluations.py:585-665 | what is retired and revoked: the targets and what is derived from target versions and skills |
| EvaluationStore.AttemptedRemedies | sidecar/autoskill/db/evaluations.py:1171-1192 | a remedy is listed if and only if its own condition on the action, the added and the blocked probes holds, and none is listed twice |
| EvaluationStore.Store.AttachContrastiveReplays | sidecar/autoskill/db/evaluations.py:917-971 | of the loaded probes, exactly the control probes without a replay for which one can be derived get one, each once; no other probe changes |
| EvaluationStore.Store.UpsertMissingCandidateProbes | sidecar/autoskill/db/evaluations.py:811-858 | adds the planned probes not yet named and leaves stored probes as they are; reports the added and the blocked |
| EvaluationStore.Store.RunPendingProposalGates | sidecar/autoskill/db/evaluations.py:281-359 | a gate run is its rows one after the other, each with its verdict, replays and version status; the report lists what each row then holds and counts the statuses |
| EvaluationStore.Store.RemediateAutonomyFallbacks | sidecar/autoskill/db/evaluations.py:400-583 | a remediation run is its rows one after the other, and each row is reset, failed or left waiting on exactly its own condition; scanned = remediations = reset + waiting + failed, deadlocks never exceed waiting, and the report says what each row's record says |
| EvaluationStore.Store.RecordProposalGateFallback | sidecar/autoskill/db/autonomy.py:728-736 | only the fallback of the given evaluation changes |
| EvaluationStore.Store.InvalidateObjects | sidecar/autoskill/db/evaluations.py:585-660 | retires the probes and revokes the evaluations of revoked objects, and returns how many rows changed |
| EvaluationStore.Store.FinishEvaluation | sidecar/autoskill/db/evaluations.py:1383-1441 | writes a verdict to the evaluation, its version and, with an executor, the compatibility table |
| EvaluationStore.Store.ResetToPlanned | sidecar/autoskill/db/evaluations.py:1039-1063 | the evaluation is planned with the new result and its version pending |
| EvaluationStore.Store.MarkThresholdDeadlockStatus | sidecar/autoskill/db/evaluations.py:1066-1131 | opens a finding unless the same one is open |
| EvaluationStore.Store.StageCandidate | sidecar/autoskill/db/evaluations.py:861-886 | a stageable skill becomes an ephemeral candidate, and its version's open findings go on trial |
| RemediationLaws.LateResetConsumes | sidecar/autoskill/db/evaluations.py:1170-1223 | after two attempts a reset consumes a new replay or a new probe, or is the staging for trial, which parks |
| RemediationLaws.ResetPays | sidecar/autoskill/db/evaluations.py:408-583 | a remediation that resets the evaluation spends at least one unit of its budget, and none adds to it |
| RemediationLaws.RemediationTerminates | sidecar/autoskill/db/evaluations.py:400-583 | over every run, resets plus the remaining budget never exceed the initial budget |
| RemediationLaws.ResetBound | sidecar/autoskill/db/evaluations.py:29-35 | an evaluation is reset at most 2 + 1 + control probes without a replay + planned probes not yet named times |
| RemediationLaws.ParkedStaysParked | sidecar/autoskill/db/evaluations.py:730-735 | an evaluation whose record says ephemeral_candidate_staged, canary_staged, scope_reduction_recorded or auto_rejected is never remediated again, in any run |
| RemediationLaws.StagedAtMostOnce | sidecar/autoskill/db/evaluations.py:1202-1203 | over every run the record's status becomes ephemeral_candidate_staged at most once; the staging action itself may repeat |
| RemediationCounts.TrialsBound | sidecar/autoskill/db/evaluations.py:474-488 | over every run an evaluation is remediated by staging it for trial at most 1 + control probes without a replay + planned probes not yet named times |
| RemediationCounts.StagedAgain | sidecar/autoskill/db/evaluations.py:1194-1203 | once is not enough: every staging that brings a replay can be followed by another, after a gate run and a fallback that the recorder may record |
| RemediationCounts.QuietBound | sidecar/autoskill/db/evaluations.py:1193-1223 | over every run the remediations on results without hard failures never exceed the early attempts, twice the supply of evidence and parking, and one deadlock |
| RemediationCounts.SoundStays | sidecar/autoskill/services/autonomy_orchestrator.py:101-106 | the recorder's guard keeps it so: a planned evaluation holds no fallback, and one that holds a fallback has no hard failures |
| RemediationCounts.HardFailuresAreNotClaimed | sidecar/autoskill/db/evaluations.py:704-735 | an evaluation with hard failures is never claimed for remediation |
| RemediationCounts.RemediationsBounded | sidecar/autoskill/db/evaluations.py:400-583 | over every run, gate runs included, an evaluation is remediated at most 5 times and twice more for each control probe without a replay and each planned probe not yet named |
| RemediationCounts.GuardIsNeeded | sidecar/autoskill/services/autonomy_orchestrator.py:101-106 | the guard is needed: with one fallback recorded in spite of hard failures, which the recorder refuses, an evaluation could be remediated any number of times |
| RemediationLaws.AttemptLogIsHistory | sidecar/autoskill/db/evaluations.py:1215-1263 | the stored log is the last ten entries of the full history, numbered consecutively up to attempt_count |
| RemediationLaws.OneGateOverRun | sidecar/autoskill/db/candidates.py:756-773 | one proposal gate per version stays one over every run |
| RemediationLaws.DeadlockedIsStaged | sidecar/autoskill/db/evaluations.py:736-785 | a deadlocked evaluation can be claimed only to be staged for trial |
| RemediationLaws.DeadlockEscape | sidecar/autoskill/db/evaluations.py:488-546 | a claimed deadlocked evaluation ends the run planned, without a deadlock, its open findings on trial |
| Activation.ActivationBlockers | sidecar/autoskill/db/activation.py:293-375 | the branches with early returns list exactly the blockers whose own conditions hold, in the order of the checks and each once; none means allowed |
| Activation.AllowedExactly | sidecar/autoskill/db/activation.py:293-375 | activation is allowed if and only if actions, scanner, version, gate, executor and, where required, every part of the compile proof are in order |
| Activation.StricterAllowsLess | sidecar/autoskill/db/activation.py:308-375 | raising thresholds, turning requirements on or shrinking the action set never allows what was blocked |
| Activation.AllowedMeans | sidecar/autoskill/db/activation.py:308-375 | an allowed version passed its scanner, and its status and its gate each passed or hold a canary decision whose hard invariants passed |
| Activation.UndecidedGateBlocks | sidecar/autoskill/db/activation.py:308-375 | a planned, revoked, failed or blocked gate blocks its version for every request |
| Activation.RevokedForever | sidecar/autoskill/db/evaluations.py:635-656 | a revoked gate blocks its version in every later state of every run |
| Activation.ActivationAlongRuns | sidecar/autoskill/db/evaluations.py:1039-1063 | in every state of every run, activation is allowed only when version and gate carry the same accepted verdict |
| AuditChain.VerifyHashChain | sidecar/autoskill/core/audit.py:27-39 | true exactly when each record names the hash before it and carries its own |
| AuditChain.ChainAppend | sidecar/autoskill/core/audit.py:27-39 | a ++ b verifies from p if and only if a does and b verifies from a's last hash |
| AuditChain.HeadCommits | sidecar/autoskill/core/audit.py:22-39 | two lists that verify from the beginning and end in the same hash are equal in every field |
| AuditStore.Store.AppendRecord | sidecar/autoskill/db/audit.py:51-98 | the record is stored with the hash of the workspace's row that is latest by occurred_at and then audit_id, and with its own hash; or refused when its id is known |
| AuditStore.Store.ListRecent | sidecar/autoskill/db/audit.py:100-120 | as many wanted records as there are, between 1 and 1000 as asked, by descending occurred_at and then audit_id, only of the workspace asked for, and none left out that is later than a listed one |
| AuditStore.Store.VerifyChain | sidecar/autoskill/db/audit.py:122-143 | one segment for a workspace; otherwise every workspace's share of the newest rows |
| AuditStore.GroupByWorkspace | sidecar/autoskill/db/audit.py:137-141 | the loop splits a window into each workspace's rows, in window order |
| AuditLaws.AppendsGrow | sidecar/autoskill/db/audit.py:51-98 | after any appends, every record of a workspace was sealed against the newest of the ones before it, and ids are distinct |
| AuditLaws.WindowExactness | sidecar/autoskill/db/audit.py:122-151 | for every limit, a workspace's window verifies if and only if the rows inside it were appended in strictly increasing (occurred_at, audit_id) order |
| AuditLaws.ChainExactness | sidecar/autoskill/db/audit.py:122-151 | a window over all of a workspace's records verifies if and only if they were appended in strictly increasing (occurred_at, audit_id) order |
| AuditLaws.EveryWindowVerifies | sidecar/autoskill/db/audit.py:145-151 | in that order, every shorter window verifies too |
| AuditLaws.WindowCommits | sidecar/autoskill/db/audit.py:145-151 | two windows that verify and start at the same newest record agree as far as both go |
| AuditLaws.RemovalIsDetected | sidecar/autoskill/db/audit.py:145-151 | a window that verifies no longer does once a record is taken out of its middle |
| AuditLaws.ChangeIsDetected | sidecar/autoskill/db/audit.py:145-151 | nor once a record other than its newest is changed |
| AuditLaws.GlobalWindow | sidecar/autoskill/db/audit.py:122-143 | the newest rows over all workspaces give each one a contiguous most recent segment of its own chain |
| AuditLaws.GlobalVerifies | sidecar/autoskill/db/audit.py:122-151 | with every chain appended in order, global verification succeeds for every limit |
| AuditLaws.GlobalWindowExactness | sidecar/autoskill/db/audit.py:122-151 | for every limit, global verification succeeds if and only if every workspace's rows inside the window were appended in order |
| AuditLaws.GlobalExactness | sidecar/autoskill/db/audit.py:122-151 | over a window that covers the table it succeeds if and only if every workspace was in order |
| RawVault.SortKeys | plugin/autoskill/src/raw-vault.js:149-151 | sorting keeps every key and adds none |
| JsonReader.StringReadsBack | plugin/autoskill/src/raw-vault.js:152 | a reader with the escapes of section 7 of RFC 8259 reads every printed string back, whatever follows |
| JsonReader.StringIsPrinted | plugin/autoskill/src/raw-vault.js:152 | and what that reader accepts is exactly what is printed |
| JsonReader.KeysAreSorted | plugin/autoskill/src/raw-vault.js:151 | each key is before all later ones: at the first difference it has the smaller code unit, or it ends there |
| JsonReader.ReadsBack | plugin/autoskill/src/raw-vault.js:145-156 | a reader of JSON texts reads the printed text of every value back as that value up to member order, with every object's keys in order |
| CanonicalLaws.EscapeUnambiguous | plugin/autoskill/src/raw-vault.js:152 | escaped text up to the closing quote can be read back in one way only |
| CanonicalLaws.Unambiguous | plugin/autoskill/src/raw-vault.js:145-156 | a printed value followed by a delimiter is the print of one value only, up to member order |
| CanonicalLaws.SortKeysIncreasing | plugin/autoskill/src/raw-vault.js:151 | the keys are printed in increasing order of code units |
| CanonicalLaws.SamePrintsAlike | plugin/autoskill/src/raw-vault.js:145-156 | values equal up to member order print alike |
| CanonicalLaws.CanonicalIsUnambiguous | plugin/autoskill/src/raw-vault.js:145-156 | canonicalJson(v) = canonicalJson(w) if and only if v and w are equal up to object key order |
| BrokerPolicy.Store.UpsertPolicyVersion | sidecar/autoskill/db/broker_policy.py:569-618 | an upsert as active supersedes first; it overwrites the version's row or inserts one, and a taken id undoes it all |
| BrokerPolicy.Store.ActivatePolicyVersion | sidecar/autoskill/db/broker_policy.py:620-644 | supersedes the active rows even when the id is unknown |
| BrokerPolicy.Store.RecordCanaryFeedback | sidecar/autoskill/db/broker_policy.py:646-685 | records feedback, and rolls the row back when it is critical |
| BrokerPolicy.Store.GetActivePolicy | sidecar/autoskill/db/broker_policy.py:547-567 | the first active row in query order, or none when there is none |
| BrokerPolicy.NextActive | sidecar/autoskill/db/broker_policy.py:547-700 | one call leaves p active if and only if it activates p, or p was active and the call does not displace it |
| BrokerPolicy.UpsertMeans | sidecar/autoskill/db/broker_policy.py:569-618 | an upsert leaves its version with its payload and status, without feedback or rollback, and supersedes the others only when active |
| BrokerPolicy.OtherCallsMean | sidecar/autoskill/db/broker_policy.py:620-685 | what activation and canary feedback write, and that they leave every other row alone but for superseding |
| BrokerPolicy.RunsAreConsistent | sidecar/autoskill/db/broker_policy.py:547-700 | after every run at most one row per workspace is active, and a row with rolled_back_at is rolled back |
| BrokerPolicy.ActiveByHistory | sidecar/autoskill/db/broker_policy.py:547-700 | p is the active policy if and only if some call activated it and none since displaced it; it is then the only one |
| DriftStore.ContractStore.ExtractContracts | sidecar/autoskill/db/contracts.py:227-287 | extraction is the run of its upserts on (version, name, expectation) |
| DriftStore.ContractStore.RunDriftChecks | sidecar/autoskill/db/contracts.py:289-424 | a batch is the run of its checks on the rows read first; scanned = valid + violated + unknown + false positive, and created probes, retired probes and opened events add up |
| DriftStore.ContractStore.CheckRow | sidecar/autoskill/db/contracts.py:314-414 | one turn of the loop: what it writes to the contract, its probes and its events |
| DriftStore.ContractStore.MarkDriftFalsePositive | sidecar/autoskill/db/contracts.py:426-485 | marks the contract, retires its probes and closes its pending events, with exact counts; an unknown id changes nothing |
| DriftStore.ContractStore.ClaimOpenDriftRepairEvents | sidecar/autoskill/db/contracts.py:487-529 | the chosen open events become repairing, nothing else changes |
| DriftStore.ContractStore.CompleteDriftRepairExecution | sidecar/autoskill/db/contracts.py:531-556 | sets any status on a known event |
| DriftStore.ContractStore.UpsertDriftProbe | sidecar/autoskill/db/contracts.py:559-602 | inserts the probe or makes it active again, and says which |
| DriftStore.ContractStore.RetireResolvedDriftProbes | sidecar/autoskill/db/contracts.py:605-624 | retires the contract's active probes and counts them |
| DriftStore.ContractStore.CloseFalsePositiveDriftEvents | sidecar/autoskill/db/contracts.py:627-647 | closes the contract's open, repairing and queued events and counts them |
| DriftContracts.ProbesAgreeAlways | sidecar/autoskill/db/contracts.py:314-424 | after any run, even with checks on stale rows, an active drift probe belongs to a contract that is violated or unknown, as long as no check of a contract writes between the two writes of another |
| DriftContracts.CheckInHalves | sidecar/autoskill/db/contracts.py:315-343 | a check that settles its contract is two writes: it retires the probes, and only then takes the contract's lock |
| DriftHistory.ProbesByHistory | sidecar/autoskill/db/contracts.py:314-381 | over every run, overlapping checks included, an active probe belongs to a settled contract if and only if a violation activated one, nothing since retired it, and the last write of the status settled it |
| DriftHistory.OverlapBreaksAgreement | sidecar/autoskill/db/contracts.py:338-374 | an overlap that does this to every contract that is no false positive: one check retires, another finds a violation, the first writes valid |
| DriftContracts.OnlyStaleChecksForget | sidecar/autoskill/db/contracts.py:650-656 | one call makes a false positive none if and only if it is a check that saw none, with the marker gone, or an extraction of the contract, with the status gone |
| DriftContracts.SignsAfter | sidecar/autoskill/db/contracts.py:249-485 | what each call does to the status and to the marker of a contract, both directions |
| DriftHistory.ViolationMeans | sidecar/autoskill/db/contracts.py:363-400 | a violation opens an event with its reason and activates a probe with the row's contents |
| DriftHistory.VerdictMeans | sidecar/autoskill/db/contracts.py:314-362 | a check writes its verdict and reason, or the operator's for a false positive, and nothing else of the row |
| DriftHistory.ExtractionMeans | sidecar/autoskill/db/contracts.py:249-285 | extraction overwrites kind, validation, severity and metadata of the contract with its key and nothing else; a new contract starts unknown |
| DriftContracts.FalsePositiveByHistory | sidecar/autoskill/db/contracts.py:249-485 | over every run a contract counts as a false positive if and only if its last mark or check was a mark or saw a false positive, or a mark has no later extraction of it (or so it started) |
| DriftContracts.FalsePositiveSinceCreation | sidecar/autoskill/db/contracts.py:249-287 | the same counted from the extraction that creates the contract |
| DriftContracts.FalsePositiveForever | sidecar/autoskill/db/contracts.py:249-287 | a false-positive status outlasts every run in which the contract's own checks write after no mark that they have not seen, whatever is extracted, checked and marked besides |
| DriftContracts.FalsePositiveWhenMarked | sidecar/autoskill/db/contracts.py:249-485 | when the contract's own checks act on current rows, it is a false positive if and only if it was one at the start or has been marked since |
| DriftHistory.MarkedStaysMarked | sidecar/autoskill/db/contracts.py:227-485 | transactions one after the other, check batches on the rows as they were read included, act on current rows, so a contract is a false positive if and only if it was one or has been marked since |
| DriftContracts.StaleCheckForgets | sidecar/autoskill/db/contracts.py:300-358 | without timeliness it fails for every contract: a mark during a check, the check's write and an extraction lose it |
| DriftContracts.BatchSettles | sidecar/autoskill/db/contracts.py:314-424 | a batch acts on current rows, leaves each contract with its verdict or false positive, and no checked false positive with a pending event |
| CandidateStore.HighestNumber | sidecar/autoskill/db/candidates.py:313-319 | COALESCE(max(version), 0) over a skill's rows |
| CandidateStore.Store.UpsertSkill | sidecar/autoskill/db/candidates.py:280-298 | a known slug keeps its skill and id; a new slug needs a free id |
| CandidateStore.Store.FindOrInsertVersion | sidecar/autoskill/db/candidates.py:300-374 | the skill's version with the compiled hash, or the next number inserted |
| CandidateStore.Store.PersistCandidateArtifacts | sidecar/autoskill/db/candidates.py:495-655 | the compiled file and both documents are inserted once; the context artifact is overwritten |
| CandidateStore.Store.PersistEvidenceProvenance | sidecar/autoskill/db/candidates.py:692-730 | one edge for each evidence id that is a UUID |
| CandidateStore.Store.PersistProbePlan | sidecar/autoskill/db/candidates.py:658-689 | inserts the unblocked probes that are not stored, and returns their hashes in order |
| CandidateStore.Store.PersistEvaluationGate | sidecar/autoskill/db/candidates.py:733-791 | inserts the gate once and returns the status it would get |
| CandidateStore.Store.PersistTransactionItems | sidecar/autoskill/db/candidates.py:410-492 | both items of the transaction, each once |
| CandidateStore.Store.PersistCandidate | sidecar/autoskill/db/candidates.py:269-407 | one proposal step by step is its specification, or fails where that fails |
| CandidateLaws.OneMeans | sidecar/autoskill/db/candidates.py:313-407 | what a new version and a new gate say: scanner and gate are blocked if and only if an error or critical finding is there |
| CandidateLaws.GateMeans | sidecar/autoskill/db/candidates.py:733-791 | status, reasons and probe hashes of a gate, each on its own condition |
| CandidateLaws.ArtifactMeans | sidecar/autoskill/db/candidates.py:570-655 | safety by the scanner, budget by 1200 tokens of four characters |
| CandidateLaws.AttachedMeans | sidecar/autoskill/db/candidates.py:410-568 | which file, documents, edges and items are there afterwards, and what the new ones hold |
| CandidateLaws.ProbesMean | sidecar/autoskill/db/candidates.py:658-689 | which probes are stored afterwards, and what the new ones hold |
| CandidateStore.Store.PersistCandidateProposals | sidecar/autoskill/db/candidates.py:189-219 | the batch in one transaction: persisted plus skipped are all, and a failure leaves every table as it was |
| CandidateLaws.VersionsAreDense | sidecar/autoskill/db/candidates.py:300-353 | in every reachable state each skill's versions are exactly 1..n with pairwise distinct compiled hashes |
| CandidateLaws.BatchSucceeds | sidecar/autoskill/db/candidates.py:195-210 | a batch succeeds if and only if every compiled text has its hash and every skill it creates has an id that neither the table nor another created skill has |
| CandidateLaws.ReplayChangesNothing | sidecar/autoskill/db/candidates.py:189-219 | persisting a batch again, duplicates and shared slugs included, succeeds, changes nothing but clocks and creates nothing |
| CandidateLaws.ReplayExact | sidecar/autoskill/db/candidates.py:570-655 | a batch whose rows are all there changes only clocks if and only if, for each artifact key, the value its last writer in the batch would write is the stored one |
| CandidateLaws.PutUnchanged | sidecar/autoskill/db/candidates.py:621-640 | a sequence of upserts changes no row if and only if every key's last writer finds its own value stored |
| CandidateLaws.ReviewOverwritten | sidecar/autoskill/db/candidates.py:630-640 | the artifact of the last proposal of a batch is pending again, whatever a review had recorded |
| CandidateLaws.OnceIsEnough | sidecar/autoskill/db/candidates.py:300-312 | after any run in between, persisting the batch again creates no version and neither adds nor alters a gate |
| CandidateLaws.GatesStay | sidecar/autoskill/db/candidates.py:756-773 | no batch alters an existing gate |
| CandidateLaws.PutTwice | sidecar/autoskill/db/candidates.py:621-640 | applying the same upserts twice is applying them once: the last writer of each key wins both times |
| Redaction.RedactTextLoop | sidecar/autoskill/core/redaction.py:39-44 | the patterns are substituted in order, the e-mail pattern last |
| Redaction.RedactPayload | sidecar/autoskill/core/redaction.py:82-103 | the loops that fill a dictionary or list compute the structural recursion |
| Redaction.RedactContent | sidecar/autoskill/core/redaction.py:62-79 | the same for content: metadata and other keys back to payload, content keys on, leaves to their size marker |
| RedactionMeaning.CaseDoesNotMatter | sidecar/autoskill/core/redaction.py:47-52 | upper and lower case make the same content and metadata keys |
| RedactionMeaning.OthersDoNotMatter | sidecar/autoskill/core/redaction.py:47-52 | so do keys that differ in characters other than ASCII letters and digits |
| RedactionMeaning.TheKeys | sidecar/autoskill/core/redaction.py:20-36 | among keys of lower-case letters and digits, the content keys and the metadata keys are exactly the listed ones |
| RedactionMeaning.RedactedIsClean | sidecar/autoskill/core/redaction.py:62-103 | in a redacted tree, at any depth, nothing but null and markers stands under a content key, secret keys hold the fixed text, and every other text has been through the patterns |
| RedactionMeaning.SizeMeasures | sidecar/autoskill/core/redaction.py:55-59 | the size in a marker is the length of the leaf as json.dumps writes it |
| RedactionMeaning.LeafBecomesMarker | sidecar/autoskill/core/redaction.py:79 | a content leaf becomes the fixed text with that length in decimal |
| Redaction.Assign | sidecar/autoskill/core/redaction.py:86-101 | assigning a new dictionary key appends it, assigning a known one replaces its value in place |
| RedactionLaws.MarkerSize | sidecar/autoskill/core/redaction.py:55-59 | the marker of a leaf of size n itself has size 27 plus the number of digits of n |
| RedactionLaws.PassesSettle | sidecar/autoskill/core/redaction.py:62-103 | pass k + 1 changes nothing if and only if it leaves the marker size of every content leaf as it is |
| RedactionLaws.ThreePasses | sidecar/autoskill/core/redaction.py:62-103 | three passes equal four if and only if every content leaf prints to fewer than 10^72 characters |
| RedactionLaws.PassesThreshold | sidecar/autoskill/core/redaction.py:62-103 | for every k from three on, k passes equal k + 1 if and only if every content leaf is below the threshold of k: 10^72, then 10^(10^72 - 28), and so on |
| RedactionLaws.OnePass | sidecar/autoskill/core/redaction.py:62-103 | one pass equals two if and only if every content leaf prints to exactly 29 characters |
| RedactionLaws.OnePassIsNotIdempotent | sidecar/autoskill/core/redaction.py:79 | a witness: the text "hi" under the key "text" |
| RedactionLaws.EveryTreeSettles | sidecar/autoskill/core/redaction.py:62-103 | for every tree there is a number of passes after which none changes anything |
| RedactionLaws.CapturedOnce | sidecar/autoskill/core/redaction.py:82-103 | with raw conversation captured, one pass is idempotent |
| RedactionLaws.PassesKeepShape | sidecar/autoskill/core/redaction.py:62-103 | any number of passes keeps keys, their order and list lengths, except below secret keys |

## Left out

- PostgreSQL itself: pools, SQL text, JSON columns, transactions that deadlock. A statement is one atomic update of a table; a call that fails leaves the tables as they were.
- Two transactions of one store at once, except for drift checks: there the row a check acts on may be older than the table, and other calls may come between the two writes of a check that settles its contract.
- The order and limit of claimed, checked and extracted rows, and SKIP LOCKED: a call works on arbitrary distinct rows that qualify, which covers every choice.
- More than one workspace in the evaluation, drift and candidate models; audit and broker policy have all of them.
- A probe hash is modelled as carrying its probe's kind, and a drift probe's hash as the contents it digests: the program hashes a payload that holds them.
- EvaluationStore.Store.MarkThresholdDeadlockStatus: does not update the admin status row of the autonomy decision, which no modelled operation reads.
- DriftStore.ContractStore.ExtractContracts: does not choose the versions it reads, newest first up to a limit, nor count them; it takes their parsed contracts in order.
- DriftStore.ContractStore.ClaimOpenDriftRepairEvents: does not choose the oldest open events up to a limit, nor test for a repair plan, which every stored event has.
- The evaluator's verdicts, the derivation of replays, probe planning and the checks of files, sockets and HTTP: arbitrary inputs.
- Trace and span ids, created_at and updated_at columns other than the clock of a skill, evidence maturity, autonomy decision records: nothing modelled reads them.
- SHA-256 is an arbitrary injective function; UUIDs are arbitrary values, fresh where a row is inserted. A version's UUID is represented by its skill and number.
- The audit record's actor, action, resource and details are opaque values; the advisory lock is the atomicity of an append.
- Numbers in `canonicalJson` are their printed texts; NaN and the infinities, which JSON.stringify prints as null and so confuses with null, are excluded, and so are values that it turns to undefined.
- Lone surrogates in redacted Python strings, bytes, non-string keys and non-JSON values in `_content_size`.
- `redact_text`: the regular expressions are arbitrary functions; their idempotence together is assumed, not derived.
- `_validation_method_for_probe` and the parsing of environment contracts from a SkillIR: an item arrives parsed.
- The probe scan envelopes of a gate are kept as the list of blocked hashes, and a proposal's recommendation, findings and rollback action as one metadata value.
- Agreement of the splitter with PostgreSQL's own lexer: nested comments and `E''` escapes differ.
- The Null stores, review listings, `to_json` and `from_row`, broker replay episodes, calibration and utility scores: outside the behaviour this model is about.

/**
 The rows and the specification functions of the proposal-gate store
 (sidecar/autoskill/db/evaluations.py), for one workspace. Each function says what one operation makes
 of the tables; EvaluationStore proves the step-by-step program against them.
 */
module EvaluationModel {
  import opened Wrappers

  type Id = nat
  type Code = string

  // ----- Rows -----

  datatype ProbeKind = Target | NoSkillControl | Regression | Adversarial | OtherKind(name: string)

  /** A probe hash digests a payload that names the probe's kind, so the hash determines the kind. */
  datatype ProbeHash = ProbeHash(kind: ProbeKind, digest: Id)

  /** `cited`: the probe's specification names at least one evidence id; `replay`: it holds a replay. */
  datatype Probe = Probe(versionId: Id, cited: bool, replay: bool, active: bool, retired: bool)

  /** A probe that planning derives from a SkillIR; `ok`: the scanner does not block it. */
  datatype PlannedProbe = PlannedProbe(hash: ProbeHash, cited: bool, ok: bool)

  datatype Action =
    | CollectMoreEvidence | RunMoreProbes | RunReAdjudication | StageEphemeralCandidate | StageCanary
    | ReduceScope | AutoReject | NoOpReschedule | OtherAction(name: string)

  datatype Status = Planned | NeedsIntervention | Passed | Failed | Blocked | Revoked | Pending

  datatype RemediationStatus =
    | WaitingForContrastiveEvidence | RescheduledForContrastiveReplay | RescheduledForAdditionalProbes
    | RescheduledForReAdjudication | EphemeralCandidateStaged | CanaryStaged | ScopeReductionRecorded
    | AutoRejected | ThresholdDeadlockCandidate | NoOpRescheduled

  /** The remedies that an attempt lists. */
  datatype Remedy =
    | InspectEvidenceCoverage | DeriveContrastiveReplay | GenerateAdditionalProbePlan
    | PersistMissingCandidateProbes | BlockedGeneratedProbes | RunLlmReAdjudication | StageForTrial
    | StageSmallerCanary | RecordScopeReduction | RejectWithReason | RescheduleOnly

  /** What a deadlock finding recommends to the operator. */
  datatype Recommendation =
    | CollectEvidence | GenerateMoreProbes | RelaxSoftThreshold | NarrowScope | IncreaseCanaryBudget
    | RejectCohort | NoAction

  datatype Attempt = Attempt(number: nat, action: Action, status: RemediationStatus, remedies: seq<Remedy>,
                             replays: nat, supplemental: seq<ProbeHash>, blockedScans: seq<ProbeHash>)

  datatype Remediation = Remediation(action: Action, status: RemediationStatus, attemptCount: nat,
                                     remedies: seq<Remedy>, replays: seq<ProbeHash>,
                                     supplemental: seq<ProbeHash>, blockedScans: seq<ProbeHash>,
                                     reasonCodes: seq<Code>, deadlock: bool,
                                     recommended: Option<Recommendation>, attempts: seq<Attempt>)

  datatype Fallback = Fallback(action: Action, reasonCodes: seq<Code>, hardInvariantsPassed: Option<bool>)

  datatype ProbeResult = ProbeResult(kind: ProbeKind, status: Status)

  /** What the evaluator reports; the verdict is arbitrary. */
  datatype Gate = Gate(status: Status, probeResults: seq<ProbeResult>, reasonCodes: seq<Code>,
                       hardFailures: seq<Code>, softMisses: seq<Code>)

  /** The JSON result column of an evaluation. */
  datatype Result = Result(probeHashes: seq<ProbeHash>, probeResults: seq<ProbeResult>,
                           reasonCodes: seq<Code>, hardFailures: seq<Code>, softMisses: seq<Code>,
                           fallback: Option<Fallback>, remediation: Option<Remediation>)

  datatype Evaluation = Evaluation(versionId: Id, executor: Option<Id>, status: Status, result: Result)

  /** `plan` is what plan_candidate_probes returns for the version's SkillIR; None when it is invalid. */
  datatype Version = Version(skillId: Id, scannerStatus: Status, evaluatorStatus: Status,
                             plan: Option<seq<PlannedProbe>>)

  datatype Lifecycle =
    | ObservedPattern | CandidateCluster | EphemeralCandidate | TrialCandidate | ValidatedCandidate
    | Candidate | Active | CanaryActive | Archived | Frozen | RevokedSkill | Superseded
    | ExternalReadonly | Quarantined | Deleted

  datatype FindingStatus = Open | TrialingPolicy | Resolved | Rejected | QuarantinedFinding

  datatype Finding = Finding(versionId: Id, reasonCodes: seq<Code>, recommended: Recommendation, status: FindingStatus)

  datatype Compatibility = Compatible | Degraded | Incompatible

  datatype Db = Db(evaluations: map<Id, Evaluation>, versions: map<Id, Version>,
                   lifecycles: map<Id, Lifecycle>, probes: map<ProbeHash, Probe>,
                   findings: seq<Finding>, compatibility: map<(Id, Id), Compatibility>)

  /** Foreign keys hold. */
  predicate Valid(db: Db) {
    && (forall e | e in db.evaluations :: db.evaluations[e].versionId in db.versions)
    && (forall v | v in db.versions :: db.versions[v].skillId in db.lifecycles)
  }

  // ----- Claiming -----

  predicate GateLifecycle(s: Lifecycle) {
    s.EphemeralCandidate? || s.TrialCandidate? || s.ValidatedCandidate? || s.Candidate?
  }

  /** The rows a gate run may claim. */
  predicate Runnable(db: Db, e: Id)
    requires Valid(db)
  {
    && e in db.evaluations && db.evaluations[e].status == Planned
    && GateLifecycle(db.lifecycles[db.versions[db.evaluations[e].versionId].skillId])
  }

  predicate Parked(result: Result) {
    && result.remediation.Some?
    && var s := result.remediation.value.status;
       s.EphemeralCandidateStaged? || s.CanaryStaged? || s.ScopeReductionRecorded? || s.AutoRejected?
  }

  predicate Deadlocked(db: Db, e: Id)
    requires e in db.evaluations
  {
    var ev := db.evaluations[e];
    || (ev.result.remediation.Some?
        && (ev.result.remediation.value.status.ThresholdDeadlockCandidate? || ev.result.remediation.value.deadlock))
    || exists i | 0 <= i < |db.findings| :: db.findings[i].versionId == ev.versionId && db.findings[i].status.Open?
  }

  predicate IsTrialLaneAction(action: Action) {
    action.CollectMoreEvidence? || action.RunMoreProbes? || action.RunReAdjudication? || action.NoOpReschedule?
  }

  predicate InterventionCode(code: Code) {
    code == "intervention-required" || code == "no_skill_control-evidence-insufficient"
  }

  predicate StalledControl(p: ProbeResult) {
    p.kind.NoSkillControl? && p.status.NeedsIntervention?
  }

  predicate PassedProbe(p: ProbeResult) {
    (p.kind.Target? || p.kind.Regression? || p.kind.Adversarial?) && p.status.Passed?
  }

  /** The second disjunct of the claim query, clause by clause. */
  predicate TrialLaneClaim(result: Result, scannerStatus: Status) {
    && scannerStatus.Passed?
    && result.fallback.Some? && IsTrialLaneAction(result.fallback.value.action)
    && |result.hardFailures| == 0
    && result.fallback.value.hardInvariantsPassed.GetOr(true)
    && ((exists c | c in result.reasonCodes :: InterventionCode(c))
        || (exists c | c in result.softMisses :: InterventionCode(c)))
    && (exists p | p in result.probeResults :: StalledControl(p))
    && !exists p | p in result.probeResults :: !(StalledControl(p) || PassedProbe(p))
  }

  predicate AutonomousAction(action: Action) {
    !action.OtherAction?
  }

  /** The rows a remediation run may claim. */
  predicate Claimable(db: Db, e: Id)
    requires Valid(db)
  {
    && e in db.evaluations
    && var ev := db.evaluations[e];
       var version := db.versions[ev.versionId];
       && ev.status == NeedsIntervention
       && ev.result.fallback.Some? && AutonomousAction(ev.result.fallback.value.action)
       && !Parked(ev.result)
       && (!Deadlocked(db, e) || TrialLaneClaim(ev.result, version.scannerStatus))
       && GateLifecycle(db.lifecycles[version.skillId])
  }

  // ----- Probes -----

  function Distinct<T(==)>(s: seq<T>): seq<T> {
    if s == [] then [] else
      var front := Distinct(s[..|s| - 1]);
      if s[|s| - 1] in s[..|s| - 1] then front else front + [s[|s| - 1]]
  }

  /** The stored probes among the given hashes, each once, in the order of first mention. */
  function Loaded(probes: map<ProbeHash, Probe>, hashes: seq<ProbeHash>): seq<ProbeHash> {
    if hashes == [] then [] else
      var h, front := hashes[|hashes| - 1], Loaded(probes, hashes[..|hashes| - 1]);
      if h in probes && h !in hashes[..|hashes| - 1] then front + [h] else front
  }

  predicate Replayable(probes: map<ProbeHash, Probe>, h: ProbeHash) {
    h in probes && h.kind.NoSkillControl? && !probes[h].replay && probes[h].cited
  }

  /**
   The probes that get a contrastive replay; `derivable` is the set of probes for which the evidence
   at hand yields one.
   */
  function Replays(probes: map<ProbeHash, Probe>, loaded: seq<ProbeHash>, derivable: set<ProbeHash>): seq<ProbeHash> {
    if loaded == [] then [] else
      var h, front := loaded[|loaded| - 1], Replays(probes, loaded[..|loaded| - 1], derivable);
      if Replayable(probes, h) && h in derivable then front + [h] else front
  }

  function WithReplays(probes: map<ProbeHash, Probe>, replays: seq<ProbeHash>): map<ProbeHash, Probe> {
    map h | h in probes :: if h in replays then probes[h].(replay := true) else probes[h]
  }

  /** The planned probes that are not yet named by the evaluation: to add, or blocked by the scanner. */
  function Missing(plan: seq<PlannedProbe>, current: seq<ProbeHash>, ok: bool): seq<ProbeHash> {
    if plan == [] then [] else
      var p, front := plan[|plan| - 1], Missing(plan[..|plan| - 1], current, ok);
      if p.hash !in current && p.ok == ok then front + [p.hash] else front
  }

  /** INSERT ... ON CONFLICT DO NOTHING for every planned probe that is missing and not blocked. */
  function WithPlanned(probes: map<ProbeHash, Probe>, versionId: Id, plan: seq<PlannedProbe>,
                       current: seq<ProbeHash>): map<ProbeHash, Probe>
  {
    if plan == [] then probes else
      var p, before := plan[|plan| - 1], WithPlanned(probes, versionId, plan[..|plan| - 1], current);
      if p.hash !in current && p.ok && p.hash !in before
      then before[p.hash := Probe(versionId, p.cited, false, false, false)]
      else before
  }

  // ----- One remediation -----

  /** The action taken for a fallback: an eligible stall goes to the trial lane. */
  function EffectiveAction(result: Result, action: Action, scannerStatus: Status): Action
    requires result.fallback.Some? && result.fallback.value.action == action
  {
    if TrialLaneClaim(result, scannerStatus) then StageEphemeralCandidate else action
  }

  function PreviousAttempts(result: Result): nat {
    if result.remediation.None? then 0 else result.remediation.value.attemptCount
  }

  function AttemptLog(result: Result): seq<Attempt> {
    if result.remediation.None? then [] else result.remediation.value.attempts
  }

  /** Python's s[-n:]. */
  function LastOf<T>(s: seq<T>, n: nat): seq<T> {
    if |s| <= n then s else s[|s| - n..]
  }

  function ReasonCodesForDeadlock(result: Result): seq<Code> {
    if result.softMisses != [] then result.softMisses
    else if result.reasonCodes != [] then result.reasonCodes
    else ["intervention-required"]
  }

  predicate AnyOf(codes: seq<Code>, wanted: set<Code>) {
    exists c | c in codes :: c in wanted
  }

  function RecommendedDeadlockAction(result: Result, action: Action): Recommendation {
    var codes := ReasonCodesForDeadlock(result)
                 + if result.fallback.Some? then result.fallback.value.reasonCodes else [];
    if AnyOf(codes, {"token-delta-without-utility-gain"}) then NarrowScope
    else if AnyOf(codes, {"utility-delta-below-threshold", "probe-margin-low", "probe-failed",
                          "llm-json-invalid", "autonomous-re-adjudication-required"}) then GenerateMoreProbes
    else if AnyOf(codes, {"auto-reject-with-reason", "candidate-utility-negative",
                          "repeated-contradictory-adjudications"}) then RejectCohort
    else if AnyOf(codes, {"qualified-autonomous-model-profile-unavailable", "llm-adjudication-unavailable",
                          "required-infrastructure-unavailable"}) then NoAction
    else match action
      case RunReAdjudication => GenerateMoreProbes
      case ReduceScope => NarrowScope
      case AutoReject => RejectCohort
      case StageCanary => IncreaseCanaryBudget
      case _ => CollectEvidence
  }

  function AppendIf(s: seq<Remedy>, condition: bool, x: Remedy): seq<Remedy> {
    if condition then s + [x] else s
  }

  function Remedies(action: Action, supplemental: seq<ProbeHash>, blockedScans: seq<ProbeHash>): seq<Remedy> {
    var inspected := [InspectEvidenceCoverage, DeriveContrastiveReplay];
    var planned := AppendIf(inspected, action.RunMoreProbes?, GenerateAdditionalProbePlan);
    var persisted := AppendIf(planned, supplemental != [], PersistMissingCandidateProbes);
    var scanned := AppendIf(persisted, blockedScans != [], BlockedGeneratedProbes);
    match action
    case RunReAdjudication => scanned + [RunLlmReAdjudication]
    case StageEphemeralCandidate => scanned + [StageForTrial]
    case StageCanary => scanned + [StageSmallerCanary]
    case ReduceScope => scanned + [RecordScopeReduction]
    case AutoReject => scanned + [RejectWithReason]
    case NoOpReschedule => scanned + [RescheduleOnly]
    case _ => scanned
  }

  /** Three attempts and nothing new to try: a soft threshold that will not give way. */
  predicate IsDeadlock(result: Result, action: Action, replays: seq<ProbeHash>, supplemental: seq<ProbeHash>) {
    && !action.AutoReject? && !action.StageEphemeralCandidate? && !action.StageCanary?
    && replays == [] && supplemental == [] && PreviousAttempts(result) >= 2 && result.hardFailures == []
  }

  function PatchStatus(result: Result, action: Action, replays: seq<ProbeHash>,
                       supplemental: seq<ProbeHash>): RemediationStatus
  {
    var early := PreviousAttempts(result) < 2;
    if IsDeadlock(result, action, replays, supplemental) then ThresholdDeadlockCandidate
    else if action.NoOpReschedule? && result.hardFailures == [] then RescheduledForReAdjudication
    else if replays != [] then RescheduledForContrastiveReplay
    else if supplemental != [] || (action.RunMoreProbes? && early) then RescheduledForAdditionalProbes
    else match action
      case RunReAdjudication => if early then RescheduledForReAdjudication else WaitingForContrastiveEvidence
      case StageEphemeralCandidate => EphemeralCandidateStaged
      case StageCanary => CanaryStaged
      case ReduceScope => ScopeReductionRecorded
      case AutoReject => AutoRejected
      case _ => WaitingForContrastiveEvidence
  }

  /** The remediation record written for one attempt. */
  function Patch(result: Result, action: Action, replays: seq<ProbeHash>, supplemental: seq<ProbeHash>,
                 blockedScans: seq<ProbeHash>): Remediation
  {
    var count := PreviousAttempts(result) + 1;
    var status := PatchStatus(result, action, replays, supplemental);
    var remedies := Remedies(action, supplemental, blockedScans);
    var deadlock := IsDeadlock(result, action, replays, supplemental);
    var attempt := Attempt(count, action, status, remedies, |replays|, supplemental, blockedScans);
    Remediation(action, status, count, remedies, replays, supplemental, blockedScans,
                if blockedScans != [] then ["probe-scanner-blocked"] else [], deadlock,
                if deadlock then Some(RecommendedDeadlockAction(result, action)) else None,
                LastOf(AttemptLog(result), 9) + [attempt])
  }

  predicate Rescheduled(status: RemediationStatus) {
    || status.RescheduledForContrastiveReplay? || status.RescheduledForReAdjudication?
    || status.RescheduledForAdditionalProbes? || status.EphemeralCandidateStaged? || status.NoOpRescheduled?
  }

  // ----- Findings and skills -----

  predicate SameOpenFinding(f: Finding, versionId: Id, codes: seq<Code>) {
    f.status.Open? && f.versionId == versionId && f.reasonCodes == codes
  }

  /** Opens a finding unless the same one is open already. */
  function WithDeadlock(findings: seq<Finding>, versionId: Id, result: Result, action: Action): seq<Finding> {
    var codes := ReasonCodesForDeadlock(result);
    if exists i | 0 <= i < |findings| :: SameOpenFinding(findings[i], versionId, codes) then findings
    else findings + [Finding(versionId, codes, RecommendedDeadlockAction(result, action), Open)]
  }

  function WithTrialing(findings: seq<Finding>, versionId: Id): seq<Finding> {
    seq(|findings|, i requires 0 <= i < |findings| =>
      if findings[i].versionId == versionId && findings[i].status.Open?
      then findings[i].(status := TrialingPolicy) else findings[i])
  }

  predicate StageableLifecycle(s: Lifecycle) {
    s.ObservedPattern? || s.CandidateCluster? || GateLifecycle(s)
  }

  function WithStaged(lifecycles: map<Id, Lifecycle>, skillId: Id): map<Id, Lifecycle> {
    if skillId in lifecycles && StageableLifecycle(lifecycles[skillId])
    then lifecycles[skillId := EphemeralCandidate] else lifecycles
  }

  function CompatibilityFor(status: Status): Compatibility {
    match status case Passed => Compatible case NeedsIntervention => Degraded case _ => Incompatible
  }

  /** Writes a verdict to the evaluation, its version and, with an executor, the compatibility table. */
  function Finished(db: Db, e: Id, status: Status, result: Result): Db
    requires e in db.evaluations && db.evaluations[e].versionId in db.versions
  {
    var ev := db.evaluations[e];
    db.(evaluations := db.evaluations[e := ev.(status := status, result := result)],
        versions := db.versions[ev.versionId := db.versions[ev.versionId].(evaluatorStatus := status)],
        compatibility := if ev.executor.None? then db.compatibility
                         else db.compatibility[(ev.versionId, ev.executor.value) := CompatibilityFor(status)])
  }

  function NonEmpty(codes: seq<Code>): seq<Code> {
    if codes == [] then [] else
      NonEmpty(codes[..|codes| - 1]) + if codes[|codes| - 1] == "" then [] else [codes[|codes| - 1]]
  }

  const AUTO_REJECTED_CODE: Code := "auto-rejected-by-autonomy-fallback"

  // ----- The operations on the tables -----

  /** One claimed row of a gate run. */
  function RunGateRow(db: Db, e: Id, gate: Gate, derivable: set<ProbeHash>): Db
    requires Valid(db) && e in db.evaluations
  {
    var result := db.evaluations[e].result;
    var replays := Replays(db.probes, Loaded(db.probes, result.probeHashes), derivable);
    Finished(db.(probes := WithReplays(db.probes, replays)), e, gate.status,
             result.(probeResults := gate.probeResults, reasonCodes := gate.reasonCodes,
                     hardFailures := gate.hardFailures, softMisses := gate.softMisses))
  }

  /** What one claimed row of a remediation run is decided on. */
  datatype Decision = Decision(action: Action, replays: seq<ProbeHash>, supplemental: seq<ProbeHash>,
                               blockedScans: seq<ProbeHash>, probes: map<ProbeHash, Probe>)

  function Decide(db: Db, e: Id, derivable: set<ProbeHash>): Decision
    requires Valid(db) && e in db.evaluations && db.evaluations[e].result.fallback.Some?
  {
    var ev := db.evaluations[e];
    var version := db.versions[ev.versionId];
    var hashes := ev.result.probeHashes;
    var chosen := ev.result.fallback.value.action;
    var plan := if chosen.RunMoreProbes? && version.plan.Some? then version.plan.value else [];
    var stored := WithPlanned(db.probes, ev.versionId, plan, hashes);
    var replays := Replays(db.probes, Loaded(db.probes, hashes), derivable);
    Decision(EffectiveAction(ev.result, chosen, version.scannerStatus), replays,
             Missing(plan, hashes, true), Missing(plan, hashes, false), WithReplays(stored, replays))
  }

  function Remediated(result: Result, d: Decision): Result {
    result.(remediation := Some(Patch(result, d.action, d.replays, d.supplemental, d.blockedScans)),
            probeHashes := if d.supplemental != [] then Distinct(result.probeHashes + d.supplemental)
                           else result.probeHashes)
  }

  /** One claimed row of a remediation run. */
  function RemediateRow(db: Db, e: Id, derivable: set<ProbeHash>): Db
    requires Valid(db) && e in db.evaluations && db.evaluations[e].result.fallback.Some?
  {
    var ev := db.evaluations[e];
    var d := Decide(db, e, derivable);
    var remediation := Patch(ev.result, d.action, d.replays, d.supplemental, d.blockedScans);
    var result := Remediated(ev.result, d);
    var recorded := if remediation.deadlock
                  then WithDeadlock(db.findings, ev.versionId, ev.result, ev.result.fallback.value.action)
                  else db.findings;
    var staged := d.action.StageEphemeralCandidate?;
    var tables := db.(probes := d.probes,
                      findings := if staged then WithTrialing(recorded, ev.versionId) else recorded,
                      lifecycles := if staged then WithStaged(db.lifecycles, db.versions[ev.versionId].skillId)
                                    else db.lifecycles);
    if d.action.AutoReject? then
      Finished(tables, e, Failed,
               result.(fallback := None,
                       reasonCodes := Distinct(NonEmpty(ev.result.reasonCodes + [AUTO_REJECTED_CODE]))))
    else if !remediation.deadlock && Rescheduled(remediation.status) then
      tables.(evaluations := tables.evaluations[e := ev.(status := Planned, result := result.(fallback := None))],
              versions := tables.versions[ev.versionId := tables.versions[ev.versionId].(evaluatorStatus := Pending)])
    else
      tables.(evaluations := tables.evaluations[e := ev.(result := result)])
  }

  datatype Targets = Targets(evaluations: set<Id>, versions: set<Id>, skills: set<Id>, probes: set<ProbeHash>)

  predicate TargetVersion(db: Db, t: Targets, v: Id) {
    v in t.versions || (v in db.versions && db.versions[v].skillId in t.skills)
  }

  predicate Retires(db: Db, t: Targets, h: ProbeHash) {
    h in db.probes && !db.probes[h].retired && (h in t.probes || TargetVersion(db, t, db.probes[h].versionId))
  }

  predicate Revokes(db: Db, t: Targets, e: Id) {
    && e in db.evaluations && db.evaluations[e].status != Revoked
    && (e in t.evaluations || TargetVersion(db, t, db.evaluations[e].versionId))
  }

  /** Retires the probes and revokes the evaluations derived from revoked objects. */
  function Invalidated(db: Db, t: Targets): Db {
    db.(probes := map h | h in db.probes ::
          if Retires(db, t, h) then db.probes[h].(active := false, retired := true) else db.probes[h],
        evaluations := map e | e in db.evaluations ::
          if Revokes(db, t, e) then db.evaluations[e].(status := Revoked) else db.evaluations[e])
  }

  function FallbackRecorded(db: Db, e: Id, fallback: Fallback): Db {
    if e !in db.evaluations then db else
      var ev := db.evaluations[e];
      db.(evaluations := db.evaluations[e := ev.(result := ev.result.(fallback := Some(fallback)))])
  }
}

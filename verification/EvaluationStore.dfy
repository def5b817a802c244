/**
 The proposal-gate store as the program runs it (sidecar/autoskill/db/evaluations.py): tables are
 fields, each SQL statement is one assignment, and the loops go row by row, probe by probe. Every
 operation is proved equal to its specification in EvaluationModel and EvaluationRuns.
 */
module EvaluationStore {
  import opened Wrappers
  import opened EvaluationModel
  import opened EvaluationRuns
  import opened RemediationLaws
  import opened RemediationMeaning

  /** One line of the remediation report. */
  datatype Item = Item(e: Id, action: Action, status: RemediationStatus, attemptCount: nat,
                       replays: nat, deadlock: bool)

  /** One line of the gate report, and the whole of it. */
  datatype GateItem = GateItem(e: Id, versionId: Id, executor: Option<Id>, status: Status, result: Result)

  datatype GateSummary = GateSummary(scanned: nat, evaluated: nat, blocked: nat, failed: nat, needsIntervention: nat,
                                     passed: nat, items: seq<GateItem>)

  datatype Summary = Summary(scanned: nat, resetToPlanned: nat, waitingForEvidence: nat,
                             contrastiveReplays: nat, thresholdDeadlocks: nat, remediations: seq<Item>)

  /** How many of the rows now have the given status. */
  function StatusCount(evaluations: map<Id, Evaluation>, rows: seq<Id>, status: Status): nat
    requires forall e | e in rows :: e in evaluations
  {
    if rows == [] then 0 else
      StatusCount(evaluations, rows[..|rows| - 1], status)
      + if evaluations[rows[|rows| - 1]].status == status then 1 else 0
  }

  /** How many of the rows now carry a threshold deadlock. */
  function DeadlockCount(evaluations: map<Id, Evaluation>, rows: seq<Id>): nat
    requires forall e | e in rows :: e in evaluations
  {
    if rows == [] then 0 else
      var r := evaluations[rows[|rows| - 1]].result.remediation;
      DeadlockCount(evaluations, rows[..|rows| - 1]) + if r.Some? && r.value.deadlock then 1 else 0
  }

  /** What the rows' remediation records say, line by line. */
  function Lines(evaluations: map<Id, Evaluation>, rows: seq<Id>): seq<Item>
    requires forall e | e in rows :: e in evaluations
  {
    if rows == [] then [] else
      var e := rows[|rows| - 1];
      Lines(evaluations, rows[..|rows| - 1])
      + match evaluations[e].result.remediation
        case None => []
        case Some(r) => [Item(e, r.action, r.status, r.attemptCount, |r.replays|, r.deadlock)]
  }

  /** What the rows now hold, line by line. */
  function Stored(evaluations: map<Id, Evaluation>, rows: seq<Id>): (items: seq<GateItem>)
    requires forall e | e in rows :: e in evaluations
    ensures |items| == |rows|
  {
    seq(|rows|, i requires 0 <= i < |rows| =>
      assert rows[i] in rows;
      var ev := evaluations[rows[i]];
      GateItem(rows[i], ev.versionId, ev.executor, ev.status, ev.result))
  }

  /** sum(1 for item in items if item.status == status). */
  method CountItems(items: seq<GateItem>, ghost evaluations: map<Id, Evaluation>, ghost rows: seq<Id>, status: Status)
    returns (count: nat)
    requires (forall e | e in rows :: e in evaluations) && items == Stored(evaluations, rows)
    ensures count == StatusCount(evaluations, rows, status)
  {
    count := 0;
    for i := 0 to |items|
      invariant forall e | e in rows[..i] :: e in evaluations
      invariant count == StatusCount(evaluations, rows[..i], status)
    {
      assert rows[..i + 1][..i] == rows[..i] && rows[i] in rows;
      if items[i].status == status {
        count := count + 1;
      }
    }
    assert rows[..|items|] == rows;
  }

  /** One more row of a gate run in the report. */
  lemma StoredSnoc(at: Db, rows: seq<Id>, i: nat, gate: Gate, derivable: set<ProbeHash>)
    requires Valid(at) && i < |rows| && NoDuplicates(rows) && forall e | e in rows[..i + 1] :: e in at.evaluations
    ensures rows[i] in at.evaluations && forall e | e in rows[..i] :: e in at.evaluations
    ensures var after := RunGateRow(at, rows[i], gate, derivable).evaluations;
            var ev := at.evaluations[rows[i]];
            && (forall e | e in rows[..i + 1] :: e in after)
            && Stored(after, rows[..i + 1])
               == Stored(at.evaluations, rows[..i])
                  + [GateItem(rows[i], ev.versionId, ev.executor, gate.status,
                              ev.result.(probeResults := gate.probeResults, reasonCodes := gate.reasonCodes,
                                         hardFailures := gate.hardFailures, softMisses := gate.softMisses))]
  {
    hide Replays, Loaded, WithReplays;
    var more := rows[..i + 1];
    assert more[i] in more && forall j | 0 <= j < i :: rows[..i][j] == more[j] && more[j] in more;
  }

  function ReplaySum(items: seq<Item>): nat {
    if items == [] then 0 else ReplaySum(items[..|items| - 1]) + items[|items| - 1].replays
  }

  lemma ReplaySumSnoc(items: seq<Item>, item: Item)
    ensures ReplaySum(items + [item]) == ReplaySum(items) + item.replays
  {
  }

  lemma {:induction false} CountsKept(before: map<Id, Evaluation>, after: map<Id, Evaluation>, rows: seq<Id>)
    requires forall e | e in rows :: e in before && e in after && after[e] == before[e]
    ensures forall s :: StatusCount(after, rows, s) == StatusCount(before, rows, s)
    ensures DeadlockCount(after, rows) == DeadlockCount(before, rows)
    ensures Lines(after, rows) == Lines(before, rows)
  {
    if rows != [] {
      assert rows[|rows| - 1] in rows && forall e | e in rows[..|rows| - 1] :: e in rows;
      CountsKept(before, after, rows[..|rows| - 1]);
    }
  }

  // ----- The pure helpers -----

  /** The program's probe-by-probe test accepts exactly what the claim query's second disjunct selects. */
  method EligibleForTrialLane(result: Result, scannerStatus: Status) returns (ok: bool)
    requires result.fallback.Some? && IsTrialLaneAction(result.fallback.value.action)
    ensures ok <==> TrialLaneClaim(result, scannerStatus)
  {
    if scannerStatus != Passed {
      return false;
    }
    if result.hardFailures != [] {
      return false;
    }
    if result.fallback.value.hardInvariantsPassed == Some(false) {
      return false;
    }
    var codes := result.reasonCodes + result.softMisses;
    if !exists c | c in codes :: InterventionCode(c) {
      assert forall c | c in result.reasonCodes || c in result.softMisses :: c in codes;
      return false;
    }
    if result.probeResults == [] {
      return false;
    }
    var hasNoSkillIntervention := false;
    for i := 0 to |result.probeResults|
      invariant forall j | 0 <= j < i :: StalledControl(result.probeResults[j]) || PassedProbe(result.probeResults[j])
      invariant hasNoSkillIntervention <==> exists j | 0 <= j < i :: StalledControl(result.probeResults[j])
    {
      var probe := result.probeResults[i];
      if probe.kind.NoSkillControl? && probe.status.NeedsIntervention? {
        hasNoSkillIntervention := true;
        continue;
      }
      if (probe.kind.Target? || probe.kind.Regression? || probe.kind.Adversarial?) && probe.status.Passed? {
        continue;
      }
      assert probe in result.probeResults;
      return false;
    }
    return hasNoSkillIntervention;
  }

  method ChooseAction(result: Result, selected: Action, scannerStatus: Status) returns (action: Action)
    requires result.fallback.Some? && result.fallback.value.action == selected
    ensures action == EffectiveAction(result, selected, scannerStatus)
    ensures action == selected || (action == StageEphemeralCandidate && TrialLaneClaim(result, scannerStatus))
  {
    if selected.StageEphemeralCandidate? || selected.StageCanary? || selected.AutoReject? {
      return selected;
    }
    if !IsTrialLaneAction(selected) {
      return selected;
    }
    var eligible := EligibleForTrialLane(result, scannerStatus);
    return if eligible then StageEphemeralCandidate else selected;
  }

  /** When an attempt lists a remedy. */
  predicate Attempted(r: Remedy, action: Action, supplemental: seq<ProbeHash>, blockedScans: seq<ProbeHash>) {
    match r
    case InspectEvidenceCoverage => true
    case DeriveContrastiveReplay => true
    case GenerateAdditionalProbePlan => action.RunMoreProbes?
    case PersistMissingCandidateProbes => supplemental != []
    case BlockedGeneratedProbes => blockedScans != []
    case RunLlmReAdjudication => action.RunReAdjudication?
    case StageForTrial => action.StageEphemeralCandidate?
    case StageSmallerCanary => action.StageCanary?
    case RecordScopeReduction => action.ReduceScope?
    case RejectWithReason => action.AutoReject?
    case RescheduleOnly => action.NoOpReschedule?
  }

  /** The remedies that apply, each once; `Remedies` is their order. */
  method AttemptedRemedies(action: Action, supplemental: seq<ProbeHash>, blockedScans: seq<ProbeHash>)
    returns (attempted: seq<Remedy>)
    ensures forall r :: r in attempted <==> Attempted(r, action, supplemental, blockedScans)
    ensures NoDuplicates(attempted)
    ensures attempted == Remedies(action, supplemental, blockedScans)
  {
    attempted := [InspectEvidenceCoverage, DeriveContrastiveReplay];
    if action.RunMoreProbes? {
      attempted := attempted + [GenerateAdditionalProbePlan];
    }
    if supplemental != [] {
      attempted := attempted + [PersistMissingCandidateProbes];
    }
    if blockedScans != [] {
      attempted := attempted + [BlockedGeneratedProbes];
    }
    match action {
      case RunReAdjudication => attempted := attempted + [RunLlmReAdjudication];
      case StageEphemeralCandidate => attempted := attempted + [StageForTrial];
      case StageCanary => attempted := attempted + [StageSmallerCanary];
      case ReduceScope => attempted := attempted + [RecordScopeReduction];
      case AutoReject => attempted := attempted + [RejectWithReason];
      case NoOpReschedule => attempted := attempted + [RescheduleOnly];
      case _ =>
    }
  }

  method MakePatch(result: Result, action: Action, replays: seq<ProbeHash>, supplemental: seq<ProbeHash>,
                   blockedScans: seq<ProbeHash>)
    returns (remediation: Remediation, attemptCount: nat, deadlock: bool)
    ensures remediation == Patch(result, action, replays, supplemental, blockedScans)
    ensures attemptCount == remediation.attemptCount && deadlock == remediation.deadlock
    ensures RecordMeans(remediation, result) && remediation.action == action && remediation.replays == replays
    ensures remediation.supplemental == supplemental && remediation.blockedScans == blockedScans
  {
    hide RecordMeans;
    PatchMeans(result, action, replays, supplemental, blockedScans);
    hide Remedies, RecommendedDeadlockAction, LastOf;
    attemptCount := PreviousAttempts(result) + 1;
    var attempted := AttemptedRemedies(action, supplemental, blockedScans);
    var status := WaitingForContrastiveEvidence;
    if replays != [] {
      status := RescheduledForContrastiveReplay;
    } else if supplemental != [] || (action.RunMoreProbes? && attemptCount < 3) {
      status := RescheduledForAdditionalProbes;
    } else if action.RunReAdjudication? && attemptCount < 3 {
      status := RescheduledForReAdjudication;
    } else if action.StageEphemeralCandidate? {
      status := EphemeralCandidateStaged;
    } else if action.StageCanary? {
      status := CanaryStaged;
    } else if action.ReduceScope? {
      status := ScopeReductionRecorded;
    } else if action.AutoReject? {
      status := AutoRejected;
    }
    if action.NoOpReschedule? && result.hardFailures == [] {
      status := RescheduledForReAdjudication;
    }
    deadlock := !action.AutoReject? && !action.StageEphemeralCandidate? && !action.StageCanary?
                && replays == [] && supplemental == [] && attemptCount >= 3 && result.hardFailures == [];
    if deadlock {
      status := ThresholdDeadlockCandidate;
    }
    var recommended := if deadlock then Some(RecommendedDeadlockAction(result, action)) else None;
    var attempt := Attempt(attemptCount, action, status, attempted, |replays|, supplemental, blockedScans);
    remediation := Remediation(action, status, attemptCount, attempted, replays, supplemental, blockedScans,
                               if blockedScans != [] then ["probe-scanner-blocked"] else [], deadlock, recommended,
                               LastOf(AttemptLog(result), 9) + [attempt]);
  }

  // ----- The store -----

  class Store {
    var evaluations: map<Id, Evaluation>
    var versions: map<Id, Version>
    var lifecycles: map<Id, Lifecycle>
    var probes: map<ProbeHash, Probe>
    var findings: seq<Finding>
    var compatibility: map<(Id, Id), Compatibility>

    /** The tables as one value. */
    ghost function Tables(): Db
      reads this
    {
      Db(evaluations, versions, lifecycles, probes, findings, compatibility)
    }

    constructor (db: Db)
      ensures Tables() == db
    {
      evaluations, versions, lifecycles := db.evaluations, db.versions, db.lifecycles;
      probes, findings, compatibility := db.probes, db.findings, db.compatibility;
    }

    /**
     Derives a replay for each loaded control probe that has none and whose evidence yields one; `fetched`
     is the probe table as it was read.
     */
    method AttachContrastiveReplays(fetched: map<ProbeHash, Probe>, loaded: seq<ProbeHash>, derivable: set<ProbeHash>)
      returns (replays: seq<ProbeHash>)
      requires forall h | h in fetched :: h in probes && probes[h] == fetched[h]
      requires NoDuplicates(loaded) && forall h | h in loaded :: h in fetched
      modifies this`probes
      ensures replays == Replays(fetched, loaded, derivable)
      ensures NoDuplicates(replays)
      ensures forall h :: h in replays <==> h in loaded && Replayable(fetched, h) && h in derivable
      ensures probes == WithReplays(old(probes), replays)
    {
      ReplaysDistinct(fetched, loaded, derivable);
      replays := [];
      assert probes == WithReplays(old(probes), []);
      for i := 0 to |loaded|
        invariant replays == Replays(fetched, loaded[..i], derivable)
        invariant probes == WithReplays(old(probes), replays)
      {
        var h := loaded[i];
        assert h in loaded && loaded[..i + 1][..i] == loaded[..i];
        var probe := fetched[h];
        if !h.kind.NoSkillControl? || probe.replay {
          continue;
        }
        if !probe.cited {
          continue;
        }
        if h !in derivable {
          continue;
        }
        probes := probes[h := probes[h].(replay := true)];
        replays := replays + [h];
        assert probes == WithReplays(old(probes), replays);
      }
      assert loaded[..|loaded|] == loaded;
    }

    /** Inserts the planned probes that the evaluation does not name; a blocked one is only reported. */
    method UpsertMissingCandidateProbes(versionId: Id, plan: Option<seq<PlannedProbe>>, current: seq<ProbeHash>)
      returns (added: seq<ProbeHash>, blockedScans: seq<ProbeHash>)
      modifies this`probes
      ensures var planned := plan.GetOr([]);
              && added == Missing(planned, current, true) && blockedScans == Missing(planned, current, false)
              && probes == WithPlanned(old(probes), versionId, planned, current)
    {
      added, blockedScans := [], [];
      if plan.None? {
        return;
      }
      for i := 0 to |plan.value|
        invariant added == Missing(plan.value[..i], current, true)
        invariant blockedScans == Missing(plan.value[..i], current, false)
        invariant probes == WithPlanned(old(probes), versionId, plan.value[..i], current)
      {
        var probe := plan.value[i];
        assert plan.value[..i + 1][..i] == plan.value[..i];
        if probe.hash in current {
          continue;
        }
        if !probe.ok {
          blockedScans := blockedScans + [probe.hash];
          continue;
        }
        if probe.hash !in probes {
          probes := probes[probe.hash := Probe(versionId, probe.cited, false, false, false)];
        }
        added := added + [probe.hash];
      }
      assert plan.value[..|plan.value|] == plan.value;
    }

    method FinishEvaluation(e: Id, status: Status, result: Result)
      requires e in evaluations && evaluations[e].versionId in versions
      modifies this
      ensures Tables() == Finished(old(Tables()), e, status, result)
    {
      var ev := evaluations[e];
      evaluations := evaluations[e := ev.(status := status, result := result)];
      versions := versions[ev.versionId := versions[ev.versionId].(evaluatorStatus := status)];
      if ev.executor.Some? {
        compatibility := compatibility[(ev.versionId, ev.executor.value) := CompatibilityFor(status)];
      }
    }

    method ResetToPlanned(e: Id, result: Result)
      requires e in evaluations && evaluations[e].versionId in versions
      modifies this
      ensures Tables() == old(Tables()).(
                evaluations := old(evaluations)[e := old(evaluations)[e].(status := Planned, result := result)],
                versions := old(versions)[old(evaluations)[e].versionId :=
                              old(versions)[old(evaluations)[e].versionId].(evaluatorStatus := Pending)])
    {
      var v := evaluations[e].versionId;
      evaluations := evaluations[e := evaluations[e].(status := Planned, result := result)];
      versions := versions[v := versions[v].(evaluatorStatus := Pending)];
    }

    /** Claims `rows`, runs the gate on each, stores the verdict and reports what is stored. */
    method RunPendingProposalGates(rows: seq<Id>, gates: seq<Gate>, derivable: seq<set<ProbeHash>>)
      returns (summary: GateSummary)
      requires Valid(Tables()) && Enabled(Tables(), GateRun(rows, gates, derivable))
      modifies this
      ensures Tables() == Next(old(Tables()), GateRun(rows, gates, derivable))
      ensures forall e | e in rows :: e in evaluations
      ensures summary.scanned == summary.evaluated == |rows|
      ensures summary.items == Stored(evaluations, rows)
      ensures summary.blocked == StatusCount(evaluations, rows, Blocked)
      ensures summary.failed == StatusCount(evaluations, rows, Failed)
      ensures summary.needsIntervention == StatusCount(evaluations, rows, NeedsIntervention)
      ensures summary.passed == StatusCount(evaluations, rows, Passed)
    {
      hide RunGateRow, Frame, Valid, StatusCount;
      ghost var before := Tables();
      HaveClaimedRows(before, rows);
      var claimed := seq(|rows|, i requires 0 <= i < |rows| reads this requires rows[i] in evaluations =>
        evaluations[rows[i]]);
      var items: seq<GateItem> := [];
      for i := 0 to |rows|
        invariant HaveRows(before, rows[..i])
        invariant Tables() == GateRows(before, rows[..i], gates[..i], derivable[..i])
        invariant forall e | e in rows[..i] :: e in evaluations
        invariant items == Stored(evaluations, rows[..i])
      {
        GateLoopStep(before, rows, gates, derivable, i);
        ghost var at := Tables();
        RunGateOn(rows[i], claimed[i].result, gates[i], derivable[i]);
        var result := claimed[i].result.(probeResults := gates[i].probeResults, reasonCodes := gates[i].reasonCodes,
                                         hardFailures := gates[i].hardFailures, softMisses := gates[i].softMisses);
        items := items + [GateItem(rows[i], claimed[i].versionId, claimed[i].executor, gates[i].status, result)];
        StoredSnoc(at, rows, i, gates[i], derivable[i]);
      }
      assert rows[..|rows|] == rows && gates[..|rows|] == gates && derivable[..|rows|] == derivable;
      var blocked := CountItems(items, evaluations, rows, Blocked);
      var failed := CountItems(items, evaluations, rows, Failed);
      var intervention := CountItems(items, evaluations, rows, NeedsIntervention);
      var passed := CountItems(items, evaluations, rows, Passed);
      summary := GateSummary(|rows|, |items|, blocked, failed, intervention, passed, items);
    }

    /** One row of the gate loop, on the result column as it was claimed. */
    method RunGateOn(e: Id, claimed: Result, gate: Gate, derivable: set<ProbeHash>)
      requires Valid(Tables()) && e in evaluations && evaluations[e].result == claimed
      modifies this
      ensures Tables() == RunGateRow(old(Tables()), e, gate, derivable)
    {
      hide Replays, Loaded, WithReplays;
      var loaded := Loaded(probes, claimed.probeHashes);
      LoadedAreStored(probes, claimed.probeHashes);
      LoadedDistinct(probes, claimed.probeHashes);
      var replays := AttachContrastiveReplays(probes, loaded, derivable);
      FinishEvaluation(e, gate.status,
                       claimed.(probeResults := gate.probeResults, reasonCodes := gate.reasonCodes,
                                hardFailures := gate.hardFailures, softMisses := gate.softMisses));
    }

    /** Opens a finding unless the same one is open already. */
    method MarkThresholdDeadlockStatus(versionId: Id, result: Result, action: Action)
      modifies this`findings
      ensures findings == WithDeadlock(old(findings), versionId, result, action)
    {
      var codes := ReasonCodesForDeadlock(result);
      if !exists i | 0 <= i < |findings| :: SameOpenFinding(findings[i], versionId, codes) {
        findings := findings + [Finding(versionId, codes, RecommendedDeadlockAction(result, action), Open)];
      }
    }

    method StageCandidate(skillId: Id, versionId: Id)
      modifies this`lifecycles, this`findings
      ensures lifecycles == WithStaged(old(lifecycles), skillId) && findings == WithTrialing(old(findings), versionId)
    {
      if skillId in lifecycles && StageableLifecycle(lifecycles[skillId]) {
        lifecycles := lifecycles[skillId := EphemeralCandidate];
      }
      findings := WithTrialing(findings, versionId);
    }

    /** Replays and planned probes for one claimed row, and the action they lead to. */
    method DecideOn(ghost e: Id, claimed: Evaluation, derivable: set<ProbeHash>) returns (d: Decision)
      requires Valid(Tables()) && e in evaluations && evaluations[e] == claimed && claimed.result.fallback.Some?
      modifies this`probes
      ensures d == Decide(old(Tables()), e, derivable)
      ensures probes == d.probes
    {
      hide Replays, Loaded, WithReplays, EffectiveAction, Missing, WithPlanned;
      var version := versions[claimed.versionId];
      var selected := claimed.result.fallback.value.action;
      var fetched := probes;
      var loaded := Loaded(fetched, claimed.result.probeHashes);
      LoadedAreStored(fetched, claimed.result.probeHashes);
      LoadedDistinct(fetched, claimed.result.probeHashes);
      var supplemental, blockedScans := [], [];
      if selected.RunMoreProbes? {
        supplemental, blockedScans := UpsertMissingCandidateProbes(claimed.versionId, version.plan,
                                                                  claimed.result.probeHashes);
        PlannedKeepsStored(fetched, claimed.versionId, version.plan.GetOr([]), claimed.result.probeHashes);
      } else {
        NothingPlanned(fetched, claimed.versionId, claimed.result.probeHashes);
      }
      if version.plan.None? {
        NothingPlanned(fetched, claimed.versionId, claimed.result.probeHashes);
      }
      var replays := AttachContrastiveReplays(fetched, loaded, derivable);
      var action := ChooseAction(claimed.result, selected, version.scannerStatus);
      d := Decision(action, replays, supplemental, blockedScans, probes);
    }

    /** One row of the remediation loop, on the row as it was claimed. */
    method RemediateOn(e: Id, claimed: Evaluation, derivable: set<ProbeHash>) returns (item: Item)
      requires Valid(Tables()) && e in evaluations && evaluations[e] == claimed && claimed.result.fallback.Some?
      modifies this
      ensures Tables() == RemediateRow(old(Tables()), e, derivable)
      ensures var d := Decide(old(Tables()), e, derivable);
              var record := Patch(claimed.result, d.action, d.replays, d.supplemental, d.blockedScans);
              item == Item(e, d.action, record.status, record.attemptCount, |d.replays|, record.deadlock)
    {
      hide Decide, Patch, WithDeadlock, WithTrialing, WithStaged, Distinct, NonEmpty, RecordMeans;
      var result := claimed.result;
      var d := DecideOn(e, claimed, derivable);
      var remediation, attemptCount, deadlock := MakePatch(result, d.action, d.replays, d.supplemental, d.blockedScans);
      if deadlock {
        MarkThresholdDeadlockStatus(claimed.versionId, result, result.fallback.value.action);
      }
      var updated := result.(remediation := Some(remediation));
      if d.supplemental != [] {
        updated := updated.(probeHashes := Distinct(result.probeHashes + d.supplemental));
      }
      if d.action.StageEphemeralCandidate? {
        StageCandidate(versions[claimed.versionId].skillId, claimed.versionId);
      }
      item := Item(e, d.action, remediation.status, attemptCount, |d.replays|, deadlock);
      if d.action.AutoReject? {
        updated := updated.(fallback := None,
                            reasonCodes := Distinct(NonEmpty(result.reasonCodes + [AUTO_REJECTED_CODE])));
        FinishEvaluation(e, Failed, updated);
        return;
      }
      if !deadlock && Rescheduled(remediation.status) {
        ResetToPlanned(e, updated.(fallback := None));
      } else {
        evaluations := evaluations[e := claimed.(result := updated)];
      }
    }

    /** Claims `rows` and remediates each. */
    method RemediateAutonomyFallbacks(rows: seq<Id>, derivable: seq<set<ProbeHash>>) returns (summary: Summary)
      requires Valid(Tables()) && Enabled(Tables(), RemediationRun(rows, derivable))
      modifies this
      ensures Tables() == Next(old(Tables()), RemediationRun(rows, derivable))
      ensures forall e | e in rows :: e in evaluations
      ensures forall e | e in rows :: e in old(evaluations) && old(evaluations)[e].versionId in old(versions)
      ensures forall e | e in rows :: RowMeans(old(evaluations)[e], evaluations[e],
                                               old(versions)[old(evaluations)[e].versionId].scannerStatus)
      ensures summary.scanned == |rows| == |summary.remediations|
      ensures summary.resetToPlanned == StatusCount(evaluations, rows, Planned)
      ensures summary.waitingForEvidence == StatusCount(evaluations, rows, NeedsIntervention)
      ensures summary.scanned == summary.resetToPlanned + summary.waitingForEvidence
                                 + StatusCount(evaluations, rows, Failed)
      ensures summary.thresholdDeadlocks == DeadlockCount(evaluations, rows) <= summary.waitingForEvidence
      ensures summary.remediations == Lines(evaluations, rows)
      ensures summary.contrastiveReplays == ReplaySum(summary.remediations)
    {
      hide RemediateRow, RemediationRows, Frame, Valid, Claimable, StatusCount, DeadlockCount, Lines, ReplaySum,
           Rescheduled, Decide, Patch, RowMeans;
      ghost var before := Tables();
      ClaimedRows(before, rows);
      NoRows(before);
      var claimed := seq(|rows|, i requires 0 <= i < |rows| reads this requires rows[i] in evaluations =>
        evaluations[rows[i]]);
      var items: seq<Item> := [];
      var reset: nat, waiting: nat, replayCount: nat, deadlocks: nat := 0, 0, 0, 0;
      assert rows[..0] == [] && derivable[..0] == [];
      for i := 0 to |rows|
        invariant HaveFallbacks(before, rows[..i]) && NoDuplicates(rows[..i])
        invariant Tables() == RemediationRows(before, rows[..i], derivable[..i])
        invariant |items| == i && forall e | e in rows[..i] :: e in evaluations
        invariant reset == StatusCount(evaluations, rows[..i], Planned)
        invariant waiting == StatusCount(evaluations, rows[..i], NeedsIntervention)
        invariant i == reset + waiting + StatusCount(evaluations, rows[..i], Failed)
        invariant deadlocks == DeadlockCount(evaluations, rows[..i]) <= waiting
        invariant items == Lines(evaluations, rows[..i]) && replayCount == ReplaySum(items)
      {
        RemediationLoopStep(before, rows, derivable, i);
        assert claimed[i] == before.evaluations[rows[i]];
        ghost var at := Tables();
        var item := RemediateOn(rows[i], claimed[i], derivable[i]);
        replayCount := replayCount + item.replays;
        if item.deadlock {
          deadlocks := deadlocks + 1;
        }
        if !item.action.AutoReject? {
          if !item.deadlock && Rescheduled(item.status) {
            reset := reset + 1;
          } else {
            waiting := waiting + 1;
          }
        }
        ReplaySumSnoc(items, item);
        items := items + [item];
        RowCounts(at, rows, i, derivable[i], item);
      }
      assert rows[..|rows|] == rows && derivable[..|rows|] == derivable;
      RowsMean(before, rows, derivable);
      summary := Summary(|rows|, reset, waiting, replayCount, deadlocks, items);
    }

    /** UPDATE ... SET result = result || {autonomy_fallback}. */
    method RecordProposalGateFallback(e: Id, fallback: Fallback)
      modifies this`evaluations
      ensures Tables() == FallbackRecorded(old(Tables()), e, fallback)
    {
      if e in evaluations {
        var ev := evaluations[e];
        evaluations := evaluations[e := ev.(result := ev.result.(fallback := Some(fallback)))];
      }
    }

    /** Retires probes and revokes evaluations derived from revoked objects; returns how many rows changed. */
    method InvalidateObjects(targets: Targets) returns (invalidated: nat)
      modifies this`probes, this`evaluations
      ensures Tables() == Invalidated(old(Tables()), targets)
      ensures invalidated == |set h | h in old(probes) && probes[h] != old(probes)[h]|
                             + |set e | e in old(evaluations) && evaluations[e] != old(evaluations)[e]|
    {
      var db := Db(evaluations, versions, lifecycles, probes, findings, compatibility);
      var retired := set h | h in probes && Retires(db, targets, h);
      var revoked := set e | e in evaluations && Revokes(db, targets, e);
      probes := map h | h in probes ::
        if Retires(db, targets, h) then probes[h].(active := false, retired := true) else probes[h];
      evaluations := map e | e in evaluations ::
        if Revokes(db, targets, e) then evaluations[e].(status := Revoked) else evaluations[e];
      invalidated := |retired| + |revoked|;
      assert retired == set h | h in db.probes && probes[h] != db.probes[h];
      assert revoked == set e | e in db.evaluations && evaluations[e] != db.evaluations[e];
    }
  }

  lemma {:induction false} PlannedKeepsStored(probes: map<ProbeHash, Probe>, versionId: Id, plan: seq<PlannedProbe>,
                                              current: seq<ProbeHash>)
    ensures var after := WithPlanned(probes, versionId, plan, current);
            forall h | h in probes :: h in after && after[h] == probes[h]
  {
    if plan != [] {
      PlannedKeepsStored(probes, versionId, plan[..|plan| - 1], current);
    }
  }

  lemma NothingPlanned(probes: map<ProbeHash, Probe>, versionId: Id, current: seq<ProbeHash>)
    ensures WithPlanned(probes, versionId, [], current) == probes
    ensures Missing([], current, true) == Missing([], current, false) == []
  {
  }

  lemma NoRows(db: Db)
    requires Valid(db)
    ensures RemediationRows(db, [], []) == db
    ensures (forall s :: StatusCount(db.evaluations, [], s) == 0) && DeadlockCount(db.evaluations, []) == 0
    ensures Lines(db.evaluations, []) == [] && ReplaySum([]) == 0
  {
  }

  lemma ClaimedRows(db: Db, rows: seq<Id>)
    requires Valid(db) && forall e | e in rows :: Claimable(db, e)
    ensures HaveFallbacks(db, rows)
    ensures forall i | 0 <= i < |rows| ::
              rows[i] in db.evaluations && db.evaluations[rows[i]].status == NeedsIntervention
  {
    hide Deadlocked, TrialLaneClaim, Parked;
    assert forall i | 0 <= i < |rows| :: rows[i] in rows;
  }

  /** What one remediated row adds to each count. */
  lemma RowCounts(at: Db, rows: seq<Id>, i: nat, derivable: set<ProbeHash>, item: Item)
    requires Valid(at) && i < |rows| && rows[i] !in rows[..i] && (forall e | e in rows[..i] :: e in at.evaluations)
    requires rows[i] in at.evaluations && at.evaluations[rows[i]].result.fallback.Some?
    requires at.evaluations[rows[i]].status == NeedsIntervention
    requires var result := at.evaluations[rows[i]].result;
             var d := Decide(at, rows[i], derivable);
             var record := Patch(result, d.action, d.replays, d.supplemental, d.blockedScans);
             item == Item(rows[i], d.action, record.status, record.attemptCount, |d.replays|, record.deadlock)
    ensures var after := RemediateRow(at, rows[i], derivable).evaluations;
            && (forall e | e in rows[..i + 1] :: e in after)
            && (forall s :: StatusCount(after, rows[..i + 1], s)
                  == StatusCount(at.evaluations, rows[..i], s)
                     + if (if item.action.AutoReject? then Failed
                           else if !item.deadlock && Rescheduled(item.status) then Planned
                           else NeedsIntervention) == s then 1 else 0)
            && DeadlockCount(after, rows[..i + 1])
               == DeadlockCount(at.evaluations, rows[..i]) + (if item.deadlock then 1 else 0)
            && Lines(after, rows[..i + 1]) == Lines(at.evaluations, rows[..i]) + [item]
    ensures item.deadlock ==> !item.action.AutoReject?
  {
    hide RemediateRow, Decide, StatusCount, DeadlockCount, Lines;
    RemediatedEvaluation(at, rows[i], derivable);
    RemediateRowFrame(at, rows[i], derivable);
    var after := RemediateRow(at, rows[i], derivable).evaluations;
    CountsKept(at.evaluations, after, rows[..i]);
    CountsSnoc(after, rows, i);
  }

  lemma CountsSnoc(evaluations: map<Id, Evaluation>, rows: seq<Id>, i: nat)
    requires i < |rows| && forall e | e in rows[..i + 1] :: e in evaluations
    ensures rows[i] in evaluations && forall e | e in rows[..i] :: e in evaluations
    ensures forall s :: StatusCount(evaluations, rows[..i + 1], s)
                        == StatusCount(evaluations, rows[..i], s) + if evaluations[rows[i]].status == s then 1 else 0
    ensures var r := evaluations[rows[i]].result.remediation;
            DeadlockCount(evaluations, rows[..i + 1])
            == DeadlockCount(evaluations, rows[..i]) + if r.Some? && r.value.deadlock then 1 else 0
    ensures Lines(evaluations, rows[..i + 1])
         == Lines(evaluations, rows[..i])
            + match evaluations[rows[i]].result.remediation
              case None => []
              case Some(r) => [Item(rows[i], r.action, r.status, r.attemptCount, |r.replays|, r.deadlock)]
  {
    var front := rows[..i + 1];
    assert front[i] in front && front[..i] == rows[..i] && forall e | e in rows[..i] :: e in front;
  }

  lemma {:induction false} LoadedAreStored(probes: map<ProbeHash, Probe>, hashes: seq<ProbeHash>)
    ensures forall h | h in Loaded(probes, hashes) :: h in probes
  {
    if hashes != [] {
      LoadedAreStored(probes, hashes[..|hashes| - 1]);
    }
  }

  lemma {:induction false} LoadedDistinct(probes: map<ProbeHash, Probe>, hashes: seq<ProbeHash>)
    ensures NoDuplicates(Loaded(probes, hashes))
    ensures forall h | h in Loaded(probes, hashes) :: h in hashes
  {
    if hashes != [] {
      LoadedDistinct(probes, hashes[..|hashes| - 1]);
    }
  }

  lemma {:induction false} ReplaysDistinct(probes: map<ProbeHash, Probe>, loaded: seq<ProbeHash>,
                                           derivable: set<ProbeHash>)
    requires NoDuplicates(loaded)
    ensures NoDuplicates(Replays(probes, loaded, derivable))
    ensures forall h :: h in Replays(probes, loaded, derivable)
                 <==> h in loaded && Replayable(probes, h) && h in derivable
  {
    if loaded != [] {
      var front, last := loaded[..|loaded| - 1], loaded[|loaded| - 1];
      assert loaded == front + [last] && last !in front;
      ReplaysDistinct(probes, front, derivable);
    }
  }

  lemma RowsMean(db: Db, rows: seq<Id>, derivable: seq<set<ProbeHash>>)
    requires Valid(db) && Enabled(db, RemediationRun(rows, derivable))
    ensures forall e | e in rows :: e in db.evaluations && db.evaluations[e].versionId in db.versions
    ensures forall e | e in rows :: e in Next(db, RemediationRun(rows, derivable)).evaluations
    ensures forall e | e in rows ::
              RowMeans(db.evaluations[e], Next(db, RemediationRun(rows, derivable)).evaluations[e],
                       db.versions[db.evaluations[e].versionId].scannerStatus)
  {
    hide Next, Enabled, RowMeans;
    forall i | 0 <= i < |rows|
      ensures rows[i] in db.evaluations && rows[i] in Next(db, RemediationRun(rows, derivable)).evaluations
      ensures RowMeans(db.evaluations[rows[i]], Next(db, RemediationRun(rows, derivable)).evaluations[rows[i]],
                       db.versions[db.evaluations[rows[i]].versionId].scannerStatus)
    {
      RunMeans(db, rows, derivable, i);
    }
  }

  lemma HaveClaimedRows(db: Db, rows: seq<Id>)
    requires Valid(db) && forall e | e in rows :: Runnable(db, e)
    ensures HaveRows(db, rows) && forall i | 0 <= i < |rows| :: rows[i] in db.evaluations
  {
    assert forall i | 0 <= i < |rows| :: rows[i] in rows;
  }

  /** The gate loop after one more row; the row still holds what was claimed. */
  lemma GateLoopStep(db: Db, rows: seq<Id>, gates: seq<Gate>, derivable: seq<set<ProbeHash>>, i: nat)
    requires Valid(db) && HaveRows(db, rows) && NoDuplicates(rows)
    requires |rows| == |gates| == |derivable| && i < |rows|
    ensures HaveRows(db, rows[..i]) && HaveRows(db, rows[..i + 1]) && rows[i] in db.evaluations
    ensures var before := GateRows(db, rows[..i], gates[..i], derivable[..i]);
            && Valid(before) && rows[i] in before.evaluations
            && before.evaluations[rows[i]] == db.evaluations[rows[i]]
            && GateRows(db, rows[..i + 1], gates[..i + 1], derivable[..i + 1])
               == RunGateRow(before, rows[i], gates[i], derivable[i])
  {
    hide RunGateRow, Frame, Valid;
    var front, gs, ds := rows[..i + 1], gates[..i + 1], derivable[..i + 1];
    assert forall e | e in front :: e in rows;
    assert front[..i] == rows[..i] && gs[..i] == gates[..i] && ds[..i] == derivable[..i];
    assert front[i] == rows[i] && gs[i] == gates[i] && ds[i] == derivable[i];
    assert rows[i] in rows && rows[i] !in rows[..i];
    Prefix(db, front);
    var before := GateRows(db, rows[..i], gates[..i], derivable[..i]);
    FrameRow(db, before, rows[..i], rows[i]);
  }

  /** The remediation loop after one more row. */
  lemma RemediationLoopStep(db: Db, rows: seq<Id>, derivable: seq<set<ProbeHash>>, i: nat)
    requires Valid(db) && HaveFallbacks(db, rows) && NoDuplicates(rows) && |rows| == |derivable| && i < |rows|
    ensures HaveFallbacks(db, rows[..i]) && NoDuplicates(rows[..i])
    ensures HaveFallbacks(db, rows[..i + 1]) && NoDuplicates(rows[..i + 1])
    ensures rows[i] in db.evaluations && rows[i] !in rows[..i]
    ensures var before := RemediationRows(db, rows[..i], derivable[..i]);
            && Valid(before) && Frame(db, before, rows[..i]) && rows[i] in before.evaluations
            && before.evaluations[rows[i]] == db.evaluations[rows[i]]
            && before.evaluations[rows[i]].result.fallback.Some?
            && RemediationRows(db, rows[..i + 1], derivable[..i + 1])
               == RemediateRow(before, rows[i], derivable[i])
  {
    hide RemediateRow, Frame, Valid;
    var front, ds := rows[..i + 1], derivable[..i + 1];
    assert forall e | e in front :: e in rows;
    assert front[..i] == rows[..i] && ds[..i] == derivable[..i] && front[i] == rows[i] && ds[i] == derivable[i];
    assert rows[i] in rows;
    Prefix(db, front);
    var before := RemediationRows(db, rows[..i], derivable[..i]);
    FrameRow(db, before, rows[..i], rows[i]);
  }
}

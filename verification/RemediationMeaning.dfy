/**
 What one remediation decides and records, case by case and in the terms of the row it is made of
 (sidecar/autoskill/db/evaluations.py).
 */
module RemediationMeaning {
  import opened Wrappers
  import opened EvaluationModel
  import opened EvaluationRuns
  import opened RemediationLaws

  // ----- What is claimed -----

  /** Ephemeral, on trial, validated, or a candidate of old. */
  predicate CandidateSkill(s: Lifecycle) {
    s == EphemeralCandidate || s == TrialCandidate || s == ValidatedCandidate || s == Candidate
  }

  /** Every probe passed but the control, which needs intervention, and the verdict says so. */
  ghost predicate Stalled(result: Result) {
    && (exists p | p in result.probeResults :: p.kind == NoSkillControl && p.status == NeedsIntervention)
    && (forall p | p in result.probeResults ::
          || (p.kind == NoSkillControl && p.status == NeedsIntervention)
          || ((p.kind == Target || p.kind == Regression || p.kind == Adversarial) && p.status == Passed))
    && exists c | c in result.reasonCodes + result.softMisses ::
         c == "intervention-required" || c == "no_skill_control-evidence-insufficient"
  }

  /** The trial lane: a stall without hard failures, whose fallback only asks for more. */
  lemma TrialLaneMeans(result: Result, scannerStatus: Status)
    ensures TrialLaneClaim(result, scannerStatus)
       <==> && scannerStatus == Passed && result.hardFailures == [] && Stalled(result)
            && result.fallback.Some? && result.fallback.value.hardInvariantsPassed != Some(false)
            && var action := result.fallback.value.action;
               || action == CollectMoreEvidence || action == RunMoreProbes
               || action == RunReAdjudication || action == NoOpReschedule
  {
    forall c | InterventionCode(c)
      ensures c in result.reasonCodes + result.softMisses <==> c in result.reasonCodes || c in result.softMisses
    {
    }
  }

  /** A record or an open finding says that the evaluation is deadlocked. */
  predicate SaysDeadlock(db: Db, e: Id)
    requires e in db.evaluations
  {
    var ev := db.evaluations[e];
    || (&& ev.result.remediation.Some?
        && (ev.result.remediation.value.deadlock || ev.result.remediation.value.status == ThresholdDeadlockCandidate))
    || exists f | f in db.findings :: f.versionId == ev.versionId && f.status == Open
  }

  lemma DeadlockedMeans(db: Db, e: Id)
    requires e in db.evaluations
    ensures Deadlocked(db, e) <==> SaysDeadlock(db, e)
  {
    var v := db.evaluations[e].versionId;
    if i :| 0 <= i < |db.findings| && db.findings[i].versionId == v && db.findings[i].status.Open? {
      assert db.findings[i] in db.findings;
    }
    if f :| f in db.findings && f.versionId == v && f.status == Open {
      var i :| 0 <= i < |db.findings| && db.findings[i] == f;
    }
  }

  /** The rows that a remediation run and a gate run may claim. */
  lemma ClaimMeans(db: Db, e: Id)
    requires Valid(db) && e in db.evaluations
    ensures var ev := db.evaluations[e];
            var version := db.versions[ev.versionId];
            && (Runnable(db, e) <==> ev.status == Planned && CandidateSkill(db.lifecycles[version.skillId]))
            && (Claimable(db, e)
                <==> && ev.status == NeedsIntervention && CandidateSkill(db.lifecycles[version.skillId])
                     && ev.result.fallback.Some? && !ev.result.fallback.value.action.OtherAction?
                     && (ev.result.remediation.Some? ==>
                           var s := ev.result.remediation.value.status;
                           && s != EphemeralCandidateStaged && s != CanaryStaged
                           && s != ScopeReductionRecorded && s != AutoRejected)
                     && (SaysDeadlock(db, e) ==> TrialLaneClaim(ev.result, version.scannerStatus)))
  {
    hide TrialLaneClaim, Deadlocked, SaysDeadlock;
    DeadlockedMeans(db, e);
  }

  /** What is retired and revoked: what is a target itself, or derived from a version or a skill that is. */
  lemma InvalidationMeans(db: Db, t: Targets)
    requires Valid(db)
    ensures Invalidated(db, t).probes.Keys == db.probes.Keys
    ensures Invalidated(db, t).evaluations.Keys == db.evaluations.Keys
    ensures forall h | h in db.probes :: var was, now := db.probes[h], Invalidated(db, t).probes[h];
              var hit := || h in t.probes || was.versionId in t.versions
                         || (was.versionId in db.versions && db.versions[was.versionId].skillId in t.skills);
              now == if hit && !was.retired then was.(active := false, retired := true) else was
    ensures forall e | e in db.evaluations :: var was, now := db.evaluations[e], Invalidated(db, t).evaluations[e];
              var hit := || e in t.evaluations || was.versionId in t.versions
                         || db.versions[was.versionId].skillId in t.skills;
              now == was.(status := if hit then Revoked else was.status)
    ensures Invalidated(db, t).(probes := db.probes, evaluations := db.evaluations) == db
  {
  }

  // ----- What is decided -----

  lemma {:induction false} LoadedMeans(probes: map<ProbeHash, Probe>, hashes: seq<ProbeHash>)
    ensures forall h :: h in Loaded(probes, hashes) <==> h in hashes && h in probes
  {
    if hashes != [] {
      LoadedMeans(probes, hashes[..|hashes| - 1]);
      assert hashes == hashes[..|hashes| - 1] + [hashes[|hashes| - 1]];
    }
  }

  lemma {:induction false} ReplaysMean(probes: map<ProbeHash, Probe>, loaded: seq<ProbeHash>, derivable: set<ProbeHash>)
    ensures forall h :: h in Replays(probes, loaded, derivable)
                 <==> && h in loaded && h in probes && h in derivable
                      && h.kind.NoSkillControl? && !probes[h].replay && probes[h].cited
  {
    if loaded != [] {
      ReplaysMean(probes, loaded[..|loaded| - 1], derivable);
      assert loaded == loaded[..|loaded| - 1] + [loaded[|loaded| - 1]];
    }
  }

  ghost predicate Plans(plan: seq<PlannedProbe>, h: ProbeHash, ok: bool) {
    exists p | p in plan :: p.hash == h && p.ok == ok
  }

  lemma {:induction false} MissingMeans(plan: seq<PlannedProbe>, current: seq<ProbeHash>, ok: bool)
    ensures forall h :: h in Missing(plan, current, ok)
                 <==> h !in current && Plans(plan, h, ok)
  {
    if plan != [] {
      var front, last := plan[..|plan| - 1], plan[|plan| - 1];
      MissingMeans(front, current, ok);
      assert plan == front + [last];
      forall h
        ensures Plans(plan, h, ok) <==> (last.hash == h && last.ok == ok) || Plans(front, h, ok)
      {
        assert last in plan && forall p | p in front :: p in plan;
      }
    }
  }

  /** The planned probes that are stored: inactive, without a replay, and only when there was none. */
  lemma {:induction false} StoredMeans(probes: map<ProbeHash, Probe>, versionId: Id, plan: seq<PlannedProbe>,
                                       current: seq<ProbeHash>)
    ensures var after := WithPlanned(probes, versionId, plan, current);
            && (forall h :: h in after <==> h in probes || (h !in current && Plans(plan, h, true)))
            && (forall h | h in probes :: after[h] == probes[h])
            && (forall h | h in after && h !in probes ::
                  && after[h].versionId == versionId && !after[h].replay && !after[h].active && !after[h].retired
                  && exists p | p in plan :: p.hash == h && p.ok && p.cited == after[h].cited)
  {
    if plan != [] {
      var front, last := plan[..|plan| - 1], plan[|plan| - 1];
      StoredMeans(probes, versionId, front, current);
      assert plan == front + [last];
      forall h
        ensures Plans(plan, h, true) <==> (last.hash == h && last.ok) || Plans(front, h, true)
      {
        assert last in plan && forall p | p in front :: p in plan;
      }
      assert last in plan && forall p | p in front :: p in plan;
    }
  }

  /** What a decision brings: replays, added and blocked probes, and the action. */
  lemma DecisionMeans(db: Db, e: Id, derivable: set<ProbeHash>)
    requires Valid(db) && e in db.evaluations && db.evaluations[e].result.fallback.Some?
    ensures var ev := db.evaluations[e];
            var version := db.versions[ev.versionId];
            var chosen := ev.result.fallback.value.action;
            var d := Decide(db, e, derivable);
            && (forall h :: h in d.replays
                     <==> && h in ev.result.probeHashes && h in db.probes && h in derivable
                          && h.kind.NoSkillControl? && !db.probes[h].replay && db.probes[h].cited)
            && (forall h :: h in d.supplemental
                     <==> && chosen.RunMoreProbes? && version.plan.Some? && h !in ev.result.probeHashes
                          && Plans(version.plan.value, h, true))
            && (forall h :: h in d.blockedScans
                     <==> && chosen.RunMoreProbes? && version.plan.Some? && h !in ev.result.probeHashes
                          && Plans(version.plan.value, h, false))
            && d.action == if TrialLaneClaim(ev.result, version.scannerStatus) then StageEphemeralCandidate else chosen
  {
    hide Loaded, Replays, Missing, WithPlanned, WithReplays, TrialLaneClaim;
    var ev := db.evaluations[e];
    var version := db.versions[ev.versionId];
    var plan := if ev.result.fallback.value.action.RunMoreProbes? && version.plan.Some? then version.plan.value else [];
    LoadedMeans(db.probes, ev.result.probeHashes);
    ReplaysMean(db.probes, Loaded(db.probes, ev.result.probeHashes), derivable);
    MissingMeans(plan, ev.result.probeHashes, true);
    MissingMeans(plan, ev.result.probeHashes, false);
  }

  // ----- What is recorded -----

  predicate Early(result: Result) {
    result.remediation.None? || result.remediation.value.attemptCount < 2
  }

  /** No new replay and no new probe. */
  predicate NoEvidence(record: Remediation) {
    record.replays == [] && record.supplemental == []
  }

  /** When an attempt is a threshold deadlock. */
  predicate Deadlocks(record: Remediation, result: Result) {
    && NoEvidence(record) && !Early(result) && result.hardFailures == []
    && !record.action.AutoReject? && !record.action.StageEphemeralCandidate? && !record.action.StageCanary?
  }

  /** The attempt is a rescheduling that asks for nothing, and no hard failure forbids it. */
  predicate FreeReschedule(record: Remediation, result: Result) {
    record.action.NoOpReschedule? && result.hardFailures == []
  }

  /** Each status is recorded on exactly its own condition. */
  predicate StatusFits(record: Remediation, result: Result) {
    var r, s, early := record.replays != [], record.supplemental != [], Early(result);
    && (record.status.ThresholdDeadlockCandidate? <==> Deadlocks(record, result))
    && (record.status.RescheduledForContrastiveReplay? <==> r && !FreeReschedule(record, result))
    && (record.status.RescheduledForAdditionalProbes?
        <==> !r && ((s && !FreeReschedule(record, result)) || (record.action.RunMoreProbes? && early)))
    && (record.status.RescheduledForReAdjudication?
        <==> || (FreeReschedule(record, result) && (early || r || s))
             || (record.action.RunReAdjudication? && early && !r && !s))
    && (record.status.EphemeralCandidateStaged? <==> record.action.StageEphemeralCandidate? && !r && !s)
    && (record.status.CanaryStaged? <==> record.action.StageCanary? && !r && !s)
    && (record.status.AutoRejected? <==> record.action.AutoReject? && !r && !s)
    && (record.status.ScopeReductionRecorded?
        <==> record.action.ReduceScope? && !r && !s && (early || result.hardFailures != []))
    && (record.status.WaitingForContrastiveEvidence? <==> Waits(record, result))
    && !record.status.NoOpRescheduled?
  }

  /** What remains waits for evidence. */
  predicate Waits(record: Remediation, result: Result) {
    && NoEvidence(record)
    && match record.action
       case CollectMoreEvidence => Early(result) || result.hardFailures != []
       case OtherAction(_) => Early(result) || result.hardFailures != []
       case RunMoreProbes => !Early(result) && result.hardFailures != []
       case RunReAdjudication => !Early(result) && result.hardFailures != []
       case NoOpReschedule => result.hardFailures != []
       case _ => false
  }

  /** The record of an attempt on the given result, and its entry in the log. */
  ghost predicate RecordMeans(record: Remediation, result: Result) {
    && StatusFits(record, result)
    && (record.deadlock <==> Deadlocks(record, result))
    && record.attemptCount == 1 + (if result.remediation.None? then 0 else result.remediation.value.attemptCount)
    && (record.recommended.Some? <==> record.deadlock)
    && (record.recommended.Some? ==> RecommendationFits(record.recommended.value, result, record.action))
    && record.reasonCodes == (if record.blockedScans == [] then [] else ["probe-scanner-blocked"])
    && LoggedLast(record, result)
  }

  /** At most nine earlier entries, the latest, and then the new one. */
  predicate LoggedLast(record: Remediation, result: Result) {
    var earlier := if result.remediation.None? then [] else result.remediation.value.attempts;
    var n := |record.attempts| - 1;
    && 0 <= n <= 9 && n == (if |earlier| < 9 then |earlier| else 9)
    && record.attempts[..n] == earlier[|earlier| - n..]
    && record.attempts[n] == Attempt(record.attemptCount, record.action, record.status, record.remedies,
                                     |record.replays|, record.supplemental, record.blockedScans)
  }

  /** The codes that a deadlock is judged by. */
  ghost predicate Judged(code: Code, result: Result) {
    || code in result.softMisses
    || (result.softMisses == [] && code in result.reasonCodes)
    || (result.softMisses == [] && result.reasonCodes == [] && code == "intervention-required")
    || (result.fallback.Some? && code in result.fallback.value.reasonCodes)
  }

  ghost predicate Narrowing(result: Result) {
    Judged("token-delta-without-utility-gain", result)
  }

  ghost predicate Probing(result: Result) {
    || Judged("utility-delta-below-threshold", result) || Judged("probe-margin-low", result)
    || Judged("probe-failed", result) || Judged("llm-json-invalid", result)
    || Judged("autonomous-re-adjudication-required", result)
  }

  ghost predicate Rejecting(result: Result) {
    || Judged("auto-reject-with-reason", result) || Judged("candidate-utility-negative", result)
    || Judged("repeated-contradictory-adjudications", result)
  }

  ghost predicate Unavailable(result: Result) {
    || Judged("qualified-autonomous-model-profile-unavailable", result)
    || Judged("llm-adjudication-unavailable", result) || Judged("required-infrastructure-unavailable", result)
  }

  /** None of the codes decides. */
  ghost predicate Undecided(result: Result) {
    !Narrowing(result) && !Probing(result) && !Rejecting(result) && !Unavailable(result)
  }

  /** Each recommendation for a deadlock is given on exactly its own condition. */
  ghost predicate RecommendationFits(r: Recommendation, result: Result, action: Action) {
    && (r.NarrowScope? <==> Narrowing(result) || (Undecided(result) && action.ReduceScope?))
    && (r.GenerateMoreProbes?
        <==> (Probing(result) && !Narrowing(result)) || (Undecided(result) && action.RunReAdjudication?))
    && (r.RejectCohort?
        <==> || (Rejecting(result) && !Narrowing(result) && !Probing(result))
             || (Undecided(result) && action.AutoReject?))
    && (r.NoAction? <==> Unavailable(result) && !Narrowing(result) && !Probing(result) && !Rejecting(result))
    && (r.IncreaseCanaryBudget? <==> Undecided(result) && action.StageCanary?)
    && (r.CollectEvidence?
        <==> Undecided(result) && !action.ReduceScope? && !action.RunReAdjudication?
             && !action.AutoReject? && !action.StageCanary?)
    && !r.RelaxSoftThreshold?
  }

  function DeadlockCodes(result: Result): seq<Code> {
    ReasonCodesForDeadlock(result) + if result.fallback.Some? then result.fallback.value.reasonCodes else []
  }

  lemma JudgedMeans(result: Result, code: Code)
    ensures code in DeadlockCodes(result) <==> Judged(code, result)
  {
  }

  lemma AnyOfFive(codes: seq<Code>, a: Code, b: Code, c: Code, d: Code, e: Code)
    ensures AnyOf(codes, {a}) <==> a in codes
    ensures AnyOf(codes, {a, b, c}) <==> a in codes || b in codes || c in codes
    ensures AnyOf(codes, {a, b, c, d, e}) <==> a in codes || b in codes || c in codes || d in codes || e in codes
  {
  }

  lemma NarrowingMeans(result: Result)
    ensures AnyOf(DeadlockCodes(result), {"token-delta-without-utility-gain"}) <==> Narrowing(result)
  {
    hide DeadlockCodes, Judged, AnyOf;
    JudgedMeans(result, "token-delta-without-utility-gain");
    AnyOfFive(DeadlockCodes(result), "token-delta-without-utility-gain", "", "", "", "");
  }

  lemma ProbingMeans(result: Result)
    ensures AnyOf(DeadlockCodes(result), {"utility-delta-below-threshold", "probe-margin-low", "probe-failed",
                                          "llm-json-invalid", "autonomous-re-adjudication-required"})
         == Probing(result)
  {
    hide DeadlockCodes, Judged, AnyOf;
    JudgedMeans(result, "utility-delta-below-threshold");
    JudgedMeans(result, "probe-margin-low");
    JudgedMeans(result, "probe-failed");
    JudgedMeans(result, "llm-json-invalid");
    JudgedMeans(result, "autonomous-re-adjudication-required");
    AnyOfFive(DeadlockCodes(result), "utility-delta-below-threshold", "probe-margin-low", "probe-failed",
              "llm-json-invalid", "autonomous-re-adjudication-required");
  }

  lemma RejectingMeans(result: Result)
    ensures AnyOf(DeadlockCodes(result), {"auto-reject-with-reason", "candidate-utility-negative",
                                          "repeated-contradictory-adjudications"})
         == Rejecting(result)
  {
    hide DeadlockCodes, Judged, AnyOf;
    JudgedMeans(result, "auto-reject-with-reason");
    JudgedMeans(result, "candidate-utility-negative");
    JudgedMeans(result, "repeated-contradictory-adjudications");
    AnyOfFive(DeadlockCodes(result), "auto-reject-with-reason", "candidate-utility-negative",
              "repeated-contradictory-adjudications", "", "");
  }

  lemma UnavailableMeans(result: Result)
    ensures AnyOf(DeadlockCodes(result), {"qualified-autonomous-model-profile-unavailable",
                                          "llm-adjudication-unavailable", "required-infrastructure-unavailable"})
         == Unavailable(result)
  {
    hide DeadlockCodes, Judged, AnyOf;
    JudgedMeans(result, "qualified-autonomous-model-profile-unavailable");
    JudgedMeans(result, "llm-adjudication-unavailable");
    JudgedMeans(result, "required-infrastructure-unavailable");
    AnyOfFive(DeadlockCodes(result), "qualified-autonomous-model-profile-unavailable",
              "llm-adjudication-unavailable", "required-infrastructure-unavailable", "", "");
  }

  lemma RecommendationMeans(result: Result, action: Action)
    ensures RecommendationFits(RecommendedDeadlockAction(result, action), result, action)
  {
    hide ReasonCodesForDeadlock, AnyOf, Narrowing, Probing, Rejecting, Unavailable;
    NarrowingMeans(result);
    ProbingMeans(result);
    RejectingMeans(result);
    UnavailableMeans(result);
  }

  lemma StatusMeans(result: Result, action: Action, replays: seq<ProbeHash>, supplemental: seq<ProbeHash>,
                    blockedScans: seq<ProbeHash>)
    ensures var record := Patch(result, action, replays, supplemental, blockedScans);
            StatusFits(record, result) && (record.deadlock <==> Deadlocks(record, result))
  {
    hide Remedies, RecommendedDeadlockAction, LastOf;
  }

  lemma LogMeans(result: Result, action: Action, replays: seq<ProbeHash>, supplemental: seq<ProbeHash>,
                 blockedScans: seq<ProbeHash>)
    ensures LoggedLast(Patch(result, action, replays, supplemental, blockedScans), result)
  {
    hide Remedies, RecommendedDeadlockAction, PatchStatus, IsDeadlock, LastOf;
    LastOfMeans(AttemptLog(result), 9);
  }

  /** What is written as the record of an attempt. */
  lemma PatchMeans(result: Result, action: Action, replays: seq<ProbeHash>, supplemental: seq<ProbeHash>,
                   blockedScans: seq<ProbeHash>)
    ensures var record := Patch(result, action, replays, supplemental, blockedScans);
            && RecordMeans(record, result)
            && record.action == action && record.replays == replays && record.supplemental == supplemental
            && record.blockedScans == blockedScans
  {
    hide Remedies, RecommendedDeadlockAction, RecommendationFits, LastOf, PatchStatus, IsDeadlock, StatusFits,
         Deadlocks, LoggedLast;
    RecommendationMeans(result, action);
    StatusMeans(result, action, replays, supplemental, blockedScans);
    LogMeans(result, action, replays, supplemental, blockedScans);
  }

  lemma LastOfMeans(log: seq<Attempt>, n: nat)
    ensures var k := if |log| < n then |log| else n;
            |LastOf(log, n)| == k && LastOf(log, n) == log[|log| - k..]
  {
  }

  // ----- When the evaluation is reset -----

  /** The exact condition of a reset, in terms of the row before and the record after. */
  predicate Resets(record: Remediation, result: Result) {
    && !record.action.AutoReject?
    && (!NoEvidence(record) || record.action.StageEphemeralCandidate?
        || (Early(result) && (record.action.RunMoreProbes? || record.action.RunReAdjudication?
                              || FreeReschedule(record, result))))
  }

  /** What a remediation leaves of its row, given the scanner's status of its version. */
  ghost predicate RowMeans(before: Evaluation, after: Evaluation, scannerStatus: Status) {
    && after.versionId == before.versionId && after.executor == before.executor
    && after.result.remediation.Some? && before.result.fallback.Some?
    && var record := after.result.remediation.value;
       && RecordMeans(record, before.result)
       && record.action == (if TrialLaneClaim(before.result, scannerStatus) then StageEphemeralCandidate
                            else before.result.fallback.value.action)
       && (after.status == Planned <==> Resets(record, before.result))
       && (after.status == Failed <==> record.action.AutoReject?)
       && (after.status == NeedsIntervention <==> !Resets(record, before.result) && !record.action.AutoReject?)
       && after.result.fallback == (if after.status == NeedsIntervention then before.result.fallback else None)
       && after.result.hardFailures == before.result.hardFailures
       && after.result.softMisses == before.result.softMisses
       && after.result.probeResults == before.result.probeResults
       && (forall c :: c in after.result.reasonCodes
                <==> if record.action.AutoReject?
                     then (c in before.result.reasonCodes && c != "") || c == "auto-rejected-by-autonomy-fallback"
                     else c in before.result.reasonCodes)
       && (forall h :: h in after.result.probeHashes <==> h in before.result.probeHashes || h in record.supplemental)
  }

  lemma ResetMeans(db: Db, e: Id, derivable: set<ProbeHash>)
    requires Valid(db) && e in db.evaluations && db.evaluations[e].result.fallback.Some?
    requires db.evaluations[e].status == NeedsIntervention
    ensures e in RemediateRow(db, e, derivable).evaluations
    ensures RowMeans(db.evaluations[e], RemediateRow(db, e, derivable).evaluations[e],
                     db.versions[db.evaluations[e].versionId].scannerStatus)
    ensures var d := Decide(db, e, derivable);
            var result := db.evaluations[e].result;
            RemediateRow(db, e, derivable).evaluations[e].status == Planned
            <==> && !d.action.AutoReject?
                 && (d.replays != [] || d.supplemental != [] || d.action.StageEphemeralCandidate?
                     || (PreviousAttempts(result) < 2
                         && (d.action.RunMoreProbes? || d.action.RunReAdjudication?
                             || (d.action.NoOpReschedule? && result.hardFailures == []))))
  {
    hide RemediateRow, Decide, Patch, TrialLaneClaim, LoggedLast, RecommendationFits, Distinct, NonEmpty;
    var ev := db.evaluations[e];
    var d := Decide(db, e, derivable);
    RemediatedEvaluation(db, e, derivable);
    RemediatedColumns(db, e, derivable);
    RejectionCodes(ev.result.reasonCodes);
    PatchMeans(ev.result, d.action, d.replays, d.supplemental, d.blockedScans);
    DecidedAction(db, e, derivable);
    DistinctMembers(ev.result.probeHashes + d.supplemental);
  }

  lemma DecidedAction(db: Db, e: Id, derivable: set<ProbeHash>)
    requires Valid(db) && e in db.evaluations && db.evaluations[e].result.fallback.Some?
    ensures var ev := db.evaluations[e];
            Decide(db, e, derivable).action
            == if TrialLaneClaim(ev.result, db.versions[ev.versionId].scannerStatus) then StageEphemeralCandidate
               else ev.result.fallback.value.action
  {
    hide TrialLaneClaim;
  }

  /** The columns that a remediation leaves alone, and the reason codes of a rejection. */
  lemma RemediatedColumns(db: Db, e: Id, derivable: set<ProbeHash>)
    requires Valid(db) && e in db.evaluations && db.evaluations[e].result.fallback.Some?
    ensures e in RemediateRow(db, e, derivable).evaluations
    ensures var before, after := db.evaluations[e], RemediateRow(db, e, derivable).evaluations[e];
            && after.executor == before.executor
            && after.result.softMisses == before.result.softMisses
            && after.result.probeResults == before.result.probeResults
            && after.result.reasonCodes
               == if Decide(db, e, derivable).action.AutoReject?
                  then Distinct(NonEmpty(before.result.reasonCodes + [AUTO_REJECTED_CODE]))
                  else before.result.reasonCodes
  {
    hide Decide, Patch, WithDeadlock, WithTrialing, WithStaged, Distinct, NonEmpty, CompatibilityFor;
  }

  lemma {:induction false} NonEmptyMeans(codes: seq<Code>)
    ensures forall c :: c in NonEmpty(codes) <==> c in codes && c != ""
  {
    if codes != [] {
      NonEmptyMeans(codes[..|codes| - 1]);
      assert codes == codes[..|codes| - 1] + [codes[|codes| - 1]];
    }
  }

  lemma RejectionCodes(codes: seq<Code>)
    ensures forall c :: c in Distinct(NonEmpty(codes + [AUTO_REJECTED_CODE]))
                 <==> (c in codes && c != "") || c == "auto-rejected-by-autonomy-fallback"
  {
    hide Distinct, NonEmpty;
    NonEmptyMeans(codes + [AUTO_REJECTED_CODE]);
    DistinctMembers(NonEmpty(codes + [AUTO_REJECTED_CODE]));
  }

  /** What a remediation does to the status of its version. */
  lemma VersionMeans(db: Db, e: Id, derivable: set<ProbeHash>)
    requires Valid(db) && e in db.evaluations && db.evaluations[e].result.fallback.Some?
    requires db.evaluations[e].status == NeedsIntervention
    ensures e in RemediateRow(db, e, derivable).evaluations
    ensures var v := db.evaluations[e].versionId;
            var after := RemediateRow(db, e, derivable);
            var status := after.evaluations[e].status;
            && v in after.versions
            && after.versions[v].evaluatorStatus
               == (if status == Planned then Pending else if status == Failed then Failed
                   else db.versions[v].evaluatorStatus)
  {
    hide Decide, Patch, Remediated, WithDeadlock, WithTrialing, WithStaged, Distinct, NonEmpty, CompatibilityFor;
  }

  /** A deadlock leaves an open finding with its codes; nothing else opens one, and staging leaves none open. */
  lemma FindingsMean(db: Db, e: Id, derivable: set<ProbeHash>)
    requires Valid(db) && e in db.evaluations && db.evaluations[e].result.fallback.Some?
    ensures var v := db.evaluations[e].versionId;
            var after := RemediateRow(db, e, derivable).findings;
            var result := db.evaluations[e].result;
            var d := Decide(db, e, derivable);
            && (IsDeadlock(result, d.action, d.replays, d.supplemental) ==>
                  exists f | f in after ::
                    f.versionId == v && f.status.Open? && f.reasonCodes == ReasonCodesForDeadlock(result))
            && (!IsDeadlock(result, d.action, d.replays, d.supplemental) ==> |after| == |db.findings|)
            && (d.action.StageEphemeralCandidate? ==> forall f | f in after && f.versionId == v :: !f.status.Open?)
  {
    hide Decide, IsDeadlock, ReasonCodesForDeadlock, RecommendedDeadlockAction, Remediated;
    var ev := db.evaluations[e];
    var d := Decide(db, e, derivable);
    RemediatedFindings(db, e, derivable);
    StagingIsNoDeadlock(ev.result, d);
    OpenedFinding(db.findings, ev.versionId, ev.result, ev.result.fallback.value.action);
  }

  lemma StagingIsNoDeadlock(result: Result, d: Decision)
    ensures d.action.StageEphemeralCandidate? ==> !IsDeadlock(result, d.action, d.replays, d.supplemental)
  {
  }

  lemma RemediatedFindings(db: Db, e: Id, derivable: set<ProbeHash>)
    requires Valid(db) && e in db.evaluations && db.evaluations[e].result.fallback.Some?
    ensures var ev := db.evaluations[e];
            var d := Decide(db, e, derivable);
            var recorded := if IsDeadlock(ev.result, d.action, d.replays, d.supplemental)
                            then WithDeadlock(db.findings, ev.versionId, ev.result, ev.result.fallback.value.action)
                            else db.findings;
            RemediateRow(db, e, derivable).findings
            == if d.action.StageEphemeralCandidate? then WithTrialing(recorded, ev.versionId) else recorded
  {
    hide Decide, IsDeadlock, PatchStatus, Remedies, LastOf, Remediated, WithDeadlock, WithTrialing, WithStaged,
         RecommendedDeadlockAction, Distinct, NonEmpty, CompatibilityFor;
  }

  lemma OpenedFinding(findings: seq<Finding>, v: Id, result: Result, action: Action)
    ensures exists f | f in WithDeadlock(findings, v, result, action) ::
              f.versionId == v && f.status.Open? && f.reasonCodes == ReasonCodesForDeadlock(result)
  {
    hide ReasonCodesForDeadlock, RecommendedDeadlockAction;
    var codes := ReasonCodesForDeadlock(result);
    var after := WithDeadlock(findings, v, result, action);
    if i :| 0 <= i < |findings| && SameOpenFinding(findings[i], v, codes) {
      assert findings[i] in after;
    } else {
      assert after[|findings|] in after;
    }
  }

  /** The same of every row of a run, whatever the other rows are. */
  lemma RunMeans(db: Db, rows: seq<Id>, derivable: seq<set<ProbeHash>>, i: nat)
    requires Valid(db) && Enabled(db, RemediationRun(rows, derivable)) && i < |rows|
    ensures rows[i] in db.evaluations
    ensures rows[i] in Next(db, RemediationRun(rows, derivable)).evaluations
    ensures RowMeans(db.evaluations[rows[i]], Next(db, RemediationRun(rows, derivable)).evaluations[rows[i]],
                     db.versions[db.evaluations[rows[i]].versionId].scannerStatus)
  {
    hide Claimable, RemediateRow, RemediationRows, RowMeans, ProbesGrow;
    ClaimedFallbacks(db, rows);
    var e := rows[i];
    assert e in rows && e !in rows[i + 1..];
    var at := RowInRun(db, rows, derivable, i);
    ResetMeans(at, e, derivable[i]);
    FrameRow(RemediateRow(at, e, derivable[i]), RemediationRows(db, rows, derivable), rows[i + 1..], e);
  }

  // ----- Gate runs -----

  /** What a gate's verdict leaves of its row, its version, the compatibility table and the probes. */
  lemma GateMeans(db: Db, e: Id, gate: Gate, derivable: set<ProbeHash>)
    requires Valid(db) && e in db.evaluations
    ensures var ev := db.evaluations[e];
            var next := RunGateRow(db, e, gate, derivable);
            && e in next.evaluations && ev.versionId in next.versions
            && next.evaluations[e].status == gate.status
            && next.versions[ev.versionId].evaluatorStatus == gate.status
            && next.evaluations[e].result.probeResults == gate.probeResults
            && next.evaluations[e].result.reasonCodes == gate.reasonCodes
            && next.evaluations[e].result.hardFailures == gate.hardFailures
            && next.evaluations[e].result.softMisses == gate.softMisses
            && next.evaluations[e].result.probeHashes == ev.result.probeHashes
            && next.evaluations[e].result.fallback == ev.result.fallback
            && next.evaluations[e].result.remediation == ev.result.remediation
            && (ev.executor.None? ==> next.compatibility == db.compatibility)
            && (ev.executor.Some? ==>
                  var key := (ev.versionId, ev.executor.value);
                  && key in next.compatibility
                  && (next.compatibility[key].Compatible? <==> gate.status == Passed)
                  && (next.compatibility[key].Degraded? <==> gate.status == NeedsIntervention))
            && next.probes.Keys == db.probes.Keys
            && forall h | h in db.probes ::
                 next.probes[h].replay
                 <==> || db.probes[h].replay
                      || (h in ev.result.probeHashes && h in derivable && h.kind.NoSkillControl? && db.probes[h].cited)
  {
    hide Loaded, Replays;
    var loaded := Loaded(db.probes, db.evaluations[e].result.probeHashes);
    LoadedMeans(db.probes, db.evaluations[e].result.probeHashes);
    ReplaysMean(db.probes, loaded, derivable);
  }
}

/**
 How often an evaluation is remediated and staged for trial over a run (sidecar/autoskill/db/evaluations.py),
 given the guard of the recorder of fallbacks (sidecar/autoskill/services/autonomy_orchestrator.py:80-106).
 */
module RemediationCounts {
  import opened Wrappers
  import opened EvaluationModel
  import opened EvaluationRuns
  import opened RemediationLaws

  // ----- The quantities that remediations spend -----

  function Supply(db: Db, e: Id): nat
    requires Valid(db) && e in db.evaluations
  {
    var ev := db.evaluations[e];
    SupplyOf(ev.result, db.versions[ev.versionId], db.probes)
  }

  /** The evaluation's own record says that it is deadlocked. */
  predicate Flagged(result: Result) {
    && result.remediation.Some?
    && (result.remediation.value.status.ThresholdDeadlockCandidate? || result.remediation.value.deadlock)
  }

  /** How often the evaluation can still be remediated on a result without hard failures. */
  function Allowance(db: Db, e: Id): nat
    requires Valid(db) && e in db.evaluations
  {
    var result := db.evaluations[e].result;
    EarlyAttempts(result) + 2 * Supply(db, e) + if Flagged(result) then 0 else 1
  }

  lemma SupplyKept(result: Result, after: Result, version: Version, version': Version,
                   probes: map<ProbeHash, Probe>, probes': map<ProbeHash, Probe>)
    requires after.probeHashes == result.probeHashes
    requires version'.plan == version.plan && ProbesGrow(probes, probes')
    ensures |Unreplayed(after, version', probes')| <= |Unreplayed(result, version, probes)|
    ensures |Unnamed(after, version')| == |Unnamed(result, version)|
  {
    assert Unreplayed(after, version', probes') <= Unreplayed(result, version, probes);
    SubsetSize(Unreplayed(after, version', probes'), Unreplayed(result, version, probes));
  }

  /** An event that does not remediate the evaluation leaves its record and adds to nothing. */
  lemma OthersSpendNothing(db: Db, event: Event, e: Id)
    requires Valid(db) && Enabled(db, event) && e in db.evaluations && !Remediates(event, e)
    ensures e in Next(db, event).evaluations
    ensures Next(db, event).evaluations[e].result.remediation == db.evaluations[e].result.remediation
    ensures Supply(Next(db, event), e) <= Supply(db, e)
    ensures Allowance(Next(db, event), e) <= Allowance(db, e)
  {
    hide Next, Enabled, ProbesGrow, Unreplayed, Unnamed;
    NextStable(db, event);
    NextKeeps(db, event, e);
    var ev, after := db.evaluations[e], Next(db, event);
    SupplyKept(ev.result, after.evaluations[e].result, db.versions[ev.versionId], after.versions[ev.versionId],
               db.probes, after.probes);
  }

  /** What a remediation run does to one of its evaluations, whatever its other rows are. */
  ghost predicate Spends(db: Db, after: Db, e: Id, d: Decision)
    requires Valid(db) && Valid(after) && e in db.evaluations && db.evaluations[e].result.fallback.Some?
  {
    var ev := db.evaluations[e];
    var version := db.versions[ev.versionId];
    var record := Patch(ev.result, d.action, d.replays, d.supplemental, d.blockedScans);
    && e in after.evaluations && after.evaluations[e].versionId == ev.versionId
    && after.evaluations[e].result.remediation == Some(record)
    && after.evaluations[e].result.hardFailures == ev.result.hardFailures
    && after.evaluations[e].result.fallback
       == (if after.evaluations[e].status == NeedsIntervention then ev.result.fallback else None)
    && d.action == EffectiveAction(ev.result, ev.result.fallback.value.action, version.scannerStatus)
    && var (result', version') := (after.evaluations[e].result, after.versions[ev.versionId]);
       && |Unreplayed(result', version', after.probes)| + (if d.replays != [] then 1 else 0)
          <= |Unreplayed(ev.result, version, db.probes)|
       && |Unnamed(result', version')| + (if d.supplemental != [] then 1 else 0) <= |Unnamed(ev.result, version)|
  }

  lemma RowSpends(db: Db, e: Id, derivable: set<ProbeHash>)
    requires Valid(db) && e in db.evaluations && db.evaluations[e].result.fallback.Some?
    requires db.evaluations[e].status == NeedsIntervention
    ensures Valid(RemediateRow(db, e, derivable))
    ensures Spends(db, RemediateRow(db, e, derivable), e, Decide(db, e, derivable))
  {
    hide RemediateRow, Decide, Patch, Unreplayed, Unnamed, EffectiveAction;
    var ev := db.evaluations[e];
    RemediateRowFrame(db, e, derivable);
    RemediatedEvaluation(db, e, derivable);
    DecideFacts(db, e, derivable);
    var after := RemediateRow(db, e, derivable);
    SetsShrink(ev.result, after.evaluations[e].result, db.versions[ev.versionId], after.versions[ev.versionId],
               db.probes, Decide(db, e, derivable));
  }

  /** Rows before and after this one change neither what it spends nor what it leaves. */
  lemma SpendsAmongOthers(db: Db, at: Db, row: Db, after: Db, e: Id, d: Decision, before: seq<Id>, later: seq<Id>)
    requires Valid(db) && Valid(at) && Valid(row) && Valid(after)
    requires e in db.evaluations && db.evaluations[e].result.fallback.Some?
    requires Frame(db, at, before) && e !in before && Frame(row, after, later) && e !in later
    requires at.evaluations[e] == db.evaluations[e] && Spends(at, row, e, d)
    ensures Spends(db, after, e, d)
  {
    hide ProbesGrow, Unreplayed, Unnamed, Patch, EffectiveAction;
    var ev := db.evaluations[e];
    SupplyKept(ev.result, ev.result, db.versions[ev.versionId], at.versions[ev.versionId], db.probes, at.probes);
    var result' := row.evaluations[e].result;
    SupplyKept(result', result', row.versions[ev.versionId], after.versions[ev.versionId], row.probes, after.probes);
  }

  lemma RemediatedInRun(db: Db, event: Event, e: Id) returns (d: Decision)
    requires Valid(db) && Enabled(db, event) && Remediates(event, e)
    ensures Claimable(db, e) && e in db.evaluations && db.evaluations[e].result.fallback.Some?
    ensures Spends(db, Next(db, event), e, d)
  {
    hide Claimable, Frame, RemediateRow, RemediationRows, Decide, Spends;
    ClaimedFallbacks(db, event.rows);
    var i :| 0 <= i < |event.rows| && event.rows[i] == e;
    assert e !in event.rows[..i] && e !in event.rows[i + 1..];
    var at := RowInRun(db, event.rows, event.derivable, i);
    RowSpends(at, e, event.derivable[i]);
    d := Decide(at, e, event.derivable[i]);
    SpendsAmongOthers(db, at, RemediateRow(at, e, event.derivable[i]), Next(db, event), e, d,
                      event.rows[..i], event.rows[i + 1..]);
  }

  lemma NotParkedWhenClaimed(db: Db, e: Id)
    requires Valid(db) && Claimable(db, e)
    ensures e in db.evaluations && !Parked(db.evaluations[e].result)
    ensures db.evaluations[e].result.fallback.Some?
    ensures Deadlocked(db, e) ==> TrialLaneClaim(db.evaluations[e].result,
                                                 db.versions[db.evaluations[e].versionId].scannerStatus)
    ensures Flagged(db.evaluations[e].result) ==> Deadlocked(db, e)
  {
    hide TrialLaneClaim;
  }

  // ----- Staging for trial -----

  /** The remediation stages the candidate for trial: its record's action says so, whatever its status is. */
  predicate IsTrial(db: Db, event: Event, e: Id)
    requires Valid(db) && Enabled(db, event) && e in db.evaluations
  {
    && Remediates(event, e)
    && (NextStable(db, event);
        var r := Next(db, event).evaluations[e].result.remediation;
        r.Some? && r.value.action.StageEphemeralCandidate?)
  }

  /** How often a run stages the evaluation for trial. */
  function Trials(db: Db, run: seq<Event>, e: Id): nat
    requires Valid(db) && Admissible(db, run) && e in db.evaluations
    decreases |run|
  {
    if run == [] then 0 else
      NextStable(db, run[0]);
      (if IsTrial(db, run[0], e) then 1 else 0) + Trials(Next(db, run[0]), run[1..], e)
  }

  /** A staging brings new evidence or parks the evaluation. */
  lemma StagingPays(result: Result, d: Decision)
    requires d.action == StageEphemeralCandidate && d.replays == [] && d.supplemental == []
    ensures PatchStatus(result, d.action, d.replays, d.supplemental).EphemeralCandidateStaged?
  {
  }

  lemma NextSupply(db: Db, event: Event, e: Id)
    requires Valid(db) && Enabled(db, event) && e in db.evaluations
    ensures e in Next(db, event).evaluations
    ensures Supply(Next(db, event), e) + (if IsTrial(db, event, e) then 1 else 0) <= Supply(db, e)
  {
    hide Next, Enabled, Unreplayed, Unnamed, Claimable, PatchStatus, EffectiveAction;
    if Remediates(event, e) {
      var d := RemediatedInRun(db, event, e);
      NotParkedWhenClaimed(db, e);
      PatchCounts(db.evaluations[e].result, d);
      if d.action == StageEphemeralCandidate && d.replays == [] && d.supplemental == [] {
        StagingPays(db.evaluations[e].result, d);
      }
    } else {
      OthersSpendNothing(db, event, e);
    }
  }

  /** Over every run, an evaluation is staged for trial no more often than its supply says. */
  lemma {:induction false} TrialsBound(db: Db, run: seq<Event>, e: Id)
    requires Valid(db) && Admissible(db, run) && e in db.evaluations
    ensures e in Final(db, run).evaluations
    ensures Trials(db, run, e) + Supply(Final(db, run), e) <= Supply(db, e)
    ensures var ev := db.evaluations[e];
            var version := db.versions[ev.versionId];
            Trials(db, run, e) <= 1 + |Unreplayed(ev.result, version, db.probes)| + |Unnamed(ev.result, version)|
    decreases |run|
  {
    hide Next, Enabled, IsTrial, Unreplayed, Unnamed;
    if run != [] {
      NextSupply(db, run[0], e);
      TrialsBound(Next(db, run[0]), run[1..], e);
    }
  }

  /** The remediation run of one row. */
  function Single(e: Id, derivable: set<ProbeHash>): Event {
    RemediationRun([e], [derivable])
  }

  lemma OneRow(db: Db, e: Id, derivable: set<ProbeHash>)
    requires Valid(db) && Claimable(db, e)
    ensures e in db.evaluations && db.evaluations[e].result.fallback.Some?
    ensures Enabled(db, Single(e, derivable))
    ensures Next(db, Single(e, derivable)) == RemediateRow(db, e, derivable)
  {
    hide RemediateRow, Deadlocked, TrialLaneClaim, Frame, Parked;
    assert RemediationRows(db, [], []) == db;
    assert [e][..0] == [] && [derivable][..0] == [];
    assert RemediationRows(db, [e], [derivable]) == RemediateRow(db, e, derivable);
  }

  lemma OneGate(db: Db, e: Id, gate: Gate, derivable: set<ProbeHash>)
    requires Valid(db) && Runnable(db, e)
    ensures Enabled(db, GateRun([e], [gate], [derivable]))
    ensures Next(db, GateRun([e], [gate], [derivable])) == RunGateRow(db, e, gate, derivable)
  {
    hide RunGateRow, Frame;
    assert GateRows(db, [], [], []) == db;
    assert [e][..0] == [] && [gate][..0] == [] && [derivable][..0] == [];
    assert GateRows(db, [e], [gate], [derivable]) == RunGateRow(db, e, gate, derivable);
  }

  /** Planned, and nothing on record that keeps the evaluation from being claimed after a gate run. */
  predicate Unblocked(db: Db, e: Id, status: Status)
    requires Valid(db)
  {
    && e in db.evaluations && db.evaluations[e].status == status
    && !Parked(db.evaluations[e].result) && !Deadlocked(db, e)
    && GateLifecycle(db.lifecycles[db.versions[db.evaluations[e].versionId].skillId])
  }

  lemma StagedWithReplay(db: Db, e: Id, derivable: set<ProbeHash>)
    requires Valid(db) && Claimable(db, e)
    requires Decide(db, e, derivable).action == StageEphemeralCandidate && Decide(db, e, derivable).replays != []
    ensures Enabled(db, Single(e, derivable)) && IsTrial(db, Single(e, derivable), e)
    ensures Unblocked(Next(db, Single(e, derivable)), e, Planned)
  {
    hide Decide, Patch, RemediateRow, RemediationRows, TrialLaneClaim, Claimable, Enabled;
    OneRow(db, e, derivable);
    assert db.evaluations[e].status == NeedsIntervention by { ClaimedStatus(db, e); }
    RemediatedEvaluation(db, e, derivable);
    StagedRowEscapes(db, e, derivable);
    StagedLifecycle(db, e, derivable);
    PatchCounts(db.evaluations[e].result, Decide(db, e, derivable));
    PatchAction(db.evaluations[e].result, Decide(db, e, derivable));
  }

  lemma ClaimedStatus(db: Db, e: Id)
    requires Valid(db) && Claimable(db, e)
    ensures e in db.evaluations && db.evaluations[e].status == NeedsIntervention
    ensures GateLifecycle(db.lifecycles[db.versions[db.evaluations[e].versionId].skillId])
  {
  }

  lemma PatchAction(result: Result, d: Decision)
    ensures Patch(result, d.action, d.replays, d.supplemental, d.blockedScans).action == d.action
  {
  }

  lemma StagedLifecycle(db: Db, e: Id, derivable: set<ProbeHash>)
    requires Valid(db) && Claimable(db, e) && db.evaluations[e].result.fallback.Some?
    requires Decide(db, e, derivable).action == StageEphemeralCandidate
    ensures var after := RemediateRow(db, e, derivable);
            && Valid(after) && e in after.evaluations
            && GateLifecycle(after.lifecycles[after.versions[after.evaluations[e].versionId].skillId])
  {
    hide Decide, Patch, Remediated, WithDeadlock, WithTrialing, Distinct, NonEmpty, Rescheduled, TrialLaneClaim,
         Deadlocked, Parked;
    RemediateRowFrame(db, e, derivable);
  }

  const RETURNED := Gate(NeedsIntervention, [], [], [], [])
  const TRIAL := Fallback(StageEphemeralCandidate, [], Some(true))

  lemma ReturnedForTrial(db: Db, e: Id)
    requires Valid(db) && Unblocked(db, e, Planned)
    ensures Enabled(db, GateRun([e], [RETURNED], [{}]))
    ensures var gated := Next(db, GateRun([e], [RETURNED], [{}]));
            && Enabled(gated, FallbackRecording(e, TRIAL)) && Guarded(gated, FallbackRecording(e, TRIAL), e)
            && var ready := Next(gated, FallbackRecording(e, TRIAL));
               Claimable(ready, e) && ready.evaluations[e].result.fallback == Some(TRIAL)
  {
    hide Replays, Loaded, WithReplays, GateRows;
    OneGate(db, e, RETURNED, {});
  }

  lemma TrialRecorded(db: Db, e: Id)
    requires Valid(db) && Claimable(db, e) && db.evaluations[e].result.fallback == Some(TRIAL)
    ensures Enabled(db, Single(e, {})) && IsTrial(db, Single(e, {}), e)
  {
    hide Claimable, RemediateRow, RemediationRows, Remedies, LastOf, RecommendedDeadlockAction, TrialLaneClaim, Spends;
    OneRow(db, e, {});
    var d := RemediatedInRun(db, Single(e, {}), e);
    TrialIsStaged(db, e);
    assert d.action == StageEphemeralCandidate by { SpendsAction(db, Next(db, Single(e, {})), e, d); }
    RecordedAction(db, Single(e, {}), e, d);
  }

  lemma TrialIsStaged(db: Db, e: Id)
    requires Valid(db) && e in db.evaluations && db.evaluations[e].result.fallback == Some(TRIAL)
    ensures EffectiveAction(db.evaluations[e].result, TRIAL.action,
                            db.versions[db.evaluations[e].versionId].scannerStatus) == StageEphemeralCandidate
  {
    hide TrialLaneClaim;
  }

  lemma SpendsAction(db: Db, after: Db, e: Id, d: Decision)
    requires Valid(db) && Valid(after) && e in db.evaluations && db.evaluations[e].result.fallback.Some?
    requires Spends(db, after, e, d)
    ensures var ev := db.evaluations[e];
            d.action == EffectiveAction(ev.result, ev.result.fallback.value.action,
                                        db.versions[ev.versionId].scannerStatus)
  {
    hide EffectiveAction, Patch, Unreplayed, Unnamed;
  }

  lemma RecordedAction(db: Db, event: Event, e: Id, d: Decision)
    requires Valid(db) && Enabled(db, event) && e in db.evaluations && db.evaluations[e].result.fallback.Some?
    requires Spends(db, Next(db, event), e, d)
    ensures e in Next(db, event).evaluations
    ensures var r := Next(db, event).evaluations[e].result.remediation; r.Some? && r.value.action == d.action
  {
    hide Next, Enabled, Unreplayed, Unnamed, EffectiveAction, IsDeadlock, PatchStatus, Remedies, LastOf;
  }

  /** A staging that brings a replay does not park: a gate run and a fallback later it is staged again. */
  lemma StagedAgain(db: Db, e: Id, derivable: set<ProbeHash>) returns (run: seq<Event>)
    requires Valid(db) && Claimable(db, e)
    requires Decide(db, e, derivable).action == StageEphemeralCandidate && Decide(db, e, derivable).replays != []
    ensures e in db.evaluations && Admissible(db, run) && GuardedRun(db, run, e) && Trials(db, run, e) == 2
  {
    hide Next, Enabled, Claimable, Unblocked, Decide, IsTrial;
    ClaimedStatus(db, e);
    var a, b := Single(e, derivable), GateRun([e], [RETURNED], [{}]);
    var c, d := FallbackRecording(e, TRIAL), Single(e, {});
    StagedWithReplay(db, e, derivable);
    StaysStored(db, a, e);
    var one := Next(db, a);
    ReturnedForTrial(one, e);
    StaysStored(one, b, e);
    StaysStored(Next(one, b), c, e);
    var three := Next(Next(one, b), c);
    TrialRecorded(three, e);
    StaysStored(three, d, e);
    TrialsOfNothing(Next(three, d), e);
    TrialsCons(three, d, [], e);
    TrialsCons(Next(one, b), c, [d], e);
    TrialsCons(one, b, [c, d], e);
    TrialsCons(db, a, [b, c, d], e);
    run := [a, b, c, d];
  }

  lemma StaysStored(db: Db, event: Event, e: Id)
    requires Valid(db) && Enabled(db, event) && e in db.evaluations
    ensures e in Next(db, event).evaluations
  {
    hide Next, Enabled;
    NextStable(db, event);
  }

  lemma TrialsOfNothing(db: Db, e: Id)
    requires Valid(db) && e in db.evaluations
    ensures Admissible(db, []) && GuardedRun(db, [], e) && Trials(db, [], e) == 0
  {
  }

  lemma TrialsCons(db: Db, event: Event, run: seq<Event>, e: Id)
    requires Valid(db) && Enabled(db, event) && e in db.evaluations && Admissible(Next(db, event), run)
    ensures e in Next(db, event).evaluations
    ensures Admissible(db, [event] + run)
    ensures Trials(db, [event] + run, e) == (if IsTrial(db, event, e) then 1 else 0) + Trials(Next(db, event), run, e)
    ensures GuardedRun(db, [event] + run, e) <==> Guarded(db, event, e) && GuardedRun(Next(db, event), run, e)
    ensures !event.RemediationRun? ==> !IsTrial(db, event, e)
    ensures !event.FallbackRecording? ==> Guarded(db, event, e)
  {
    hide Next, Enabled;
    NextStable(db, event);
    assert ([event] + run)[1..] == run;
  }

  // ----- Remediations without hard failures -----

  predicate IsQuiet(db: Db, event: Event, e: Id)
    requires e in db.evaluations
  {
    Remediates(event, e) && db.evaluations[e].result.hardFailures == []
  }

  /** How often a run remediates the evaluation on a result without hard failures. */
  function QuietRemediations(db: Db, run: seq<Event>, e: Id): nat
    requires Valid(db) && Admissible(db, run) && e in db.evaluations
    decreases |run|
  {
    if run == [] then 0 else
      NextStable(db, run[0]);
      (if IsQuiet(db, run[0], e) then 1 else 0) + QuietRemediations(Next(db, run[0]), run[1..], e)
  }

  /** What one remediation takes from the early attempts, the parking, the deadlock and the evidence. */
  lemma QuietPays(result: Result, after: Result, d: Decision)
    requires !Parked(result) && (Flagged(result) ==> d.action == StageEphemeralCandidate && result.hardFailures == [])
    requires after.remediation == Some(Patch(result, d.action, d.replays, d.supplemental, d.blockedScans))
    ensures EarlyAttempts(after) + 2 * (if Parked(after) then 0 else 1) + (if Flagged(after) then 0 else 1)
            + (if result.hardFailures == [] then 1 else 0)
            <= EarlyAttempts(result) + 2 + (if Flagged(result) then 0 else 1)
               + 2 * (if d.replays != [] then 1 else 0) + 2 * (if d.supplemental != [] then 1 else 0)
  {
    hide Remedies, RecommendedDeadlockAction, LastOf;
  }

  lemma NextAllowance(db: Db, event: Event, e: Id)
    requires Valid(db) && Enabled(db, event) && e in db.evaluations
    ensures e in Next(db, event).evaluations
    ensures Allowance(Next(db, event), e) + (if IsQuiet(db, event, e) then 1 else 0) <= Allowance(db, e)
  {
    hide Next, Enabled, Unreplayed, Unnamed, Claimable, Patch, EffectiveAction, EarlyAttempts, Parked, Flagged;
    if Remediates(event, e) {
      var d := RemediatedInRun(db, event, e);
      NotParkedWhenClaimed(db, e);
      FlaggedIsStaged(db, e);
      QuietPays(db.evaluations[e].result, Next(db, event).evaluations[e].result, d);
    } else {
      OthersSpendNothing(db, event, e);
    }
  }

  lemma FlaggedIsStaged(db: Db, e: Id)
    requires Valid(db) && Claimable(db, e)
    ensures var ev := db.evaluations[e];
            && ev.result.fallback.Some?
            && (Flagged(ev.result) ==>
                  && ev.result.hardFailures == []
                  && EffectiveAction(ev.result, ev.result.fallback.value.action,
                                     db.versions[ev.versionId].scannerStatus) == StageEphemeralCandidate)
  {
    NotParkedWhenClaimed(db, e);
  }

  /**
   Over every run, the remediations of an evaluation without hard failures are bounded by its early attempts,
   twice its supply and one deadlock.
   */
  lemma {:induction false} QuietBound(db: Db, run: seq<Event>, e: Id)
    requires Valid(db) && Admissible(db, run) && e in db.evaluations
    ensures e in Final(db, run).evaluations
    ensures QuietRemediations(db, run, e) + Allowance(Final(db, run), e) <= Allowance(db, e)
    decreases |run|
  {
    hide Next, Enabled, IsQuiet, Allowance;
    if run != [] {
      NextAllowance(db, run[0], e);
      QuietBound(Next(db, run[0]), run[1..], e);
    }
  }

  // ----- Every remediation is quiet -----

  /** A planned evaluation holds no fallback, and one that holds a fallback has no hard failures. */
  predicate Sound(db: Db, e: Id)
    requires e in db.evaluations
  {
    var ev := db.evaluations[e];
    (ev.status == Planned ==> ev.result.fallback.None?) && (ev.result.fallback.Some? ==> ev.result.hardFailures == [])
  }

  /** The recorder's guard: it records fallbacks only for gated evaluations without hard failures. */
  predicate Guarded(db: Db, event: Event, e: Id) {
    event.FallbackRecording? && event.e == e && e in db.evaluations ==>
      db.evaluations[e].status != Planned && db.evaluations[e].result.hardFailures == []
  }

  predicate GuardedRun(db: Db, run: seq<Event>, e: Id)
    requires Valid(db) && Admissible(db, run)
    decreases |run|
  {
    run == [] || (Guarded(db, run[0], e) && GuardedRun(Next(db, run[0]), run[1..], e))
  }

  lemma {:induction false} GateRowsFallback(db: Db, rows: seq<Id>, gates: seq<Gate>, derivable: seq<set<ProbeHash>>,
                                            e: Id)
    requires Valid(db) && |rows| == |gates| == |derivable| && HaveRows(db, rows) && e in db.evaluations
    ensures var after := GateRows(db, rows, gates, derivable);
            && e in after.evaluations
            && after.evaluations[e].result.fallback == db.evaluations[e].result.fallback
            && (e !in rows ==> after.evaluations[e] == db.evaluations[e])
  {
    hide Replays, Loaded, WithReplays;
    if rows != [] {
      Prefix(db, rows);
      GateRowsFallback(db, rows[..|rows| - 1], gates[..|rows| - 1], derivable[..|rows| - 1], e);
    }
  }

  /** A remediation leaves no fallback on a row it resets, and the verdict as it was. */
  lemma RemediatedIsSound(db: Db, event: Event, e: Id)
    requires Valid(db) && Enabled(db, event) && Remediates(event, e) && e in db.evaluations && Sound(db, e)
    ensures e in Next(db, event).evaluations && Sound(Next(db, event), e)
  {
    hide Next, Enabled, Patch, EffectiveAction, Unreplayed, Unnamed, Claimable;
    var d := RemediatedInRun(db, event, e);
  }

  /** An event that neither gates nor remediates the evaluation nor records a fallback for it. */
  lemma OthersKeepSound(db: Db, event: Event, e: Id)
    requires Valid(db) && Enabled(db, event) && e in db.evaluations && Sound(db, e)
    requires !Remediates(event, e) && !event.GateRun? && !(event.FallbackRecording? && event.e == e)
    ensures e in Next(db, event).evaluations && Sound(Next(db, event), e)
  {
    hide RemediateRow, RemediationRows;
  }

  /** A gated row was planned, so it holds no fallback. */
  lemma GatedIsSound(db: Db, event: Event, e: Id)
    requires Valid(db) && Enabled(db, event) && event.GateRun? && e in db.evaluations && Sound(db, e)
    ensures e in Next(db, event).evaluations && Sound(Next(db, event), e)
  {
    hide GateRows, Frame;
    GateRowsFallback(db, event.rows, event.gates, event.derivable, e);
  }

  lemma RecordedIsSound(db: Db, e: Id, fallback: Fallback)
    requires Valid(db) && e in db.evaluations && Sound(db, e) && Guarded(db, FallbackRecording(e, fallback), e)
    ensures Enabled(db, FallbackRecording(e, fallback))
    ensures var next := Next(db, FallbackRecording(e, fallback)); e in next.evaluations && Sound(next, e)
  {
    hide GateRows, RemediationRows, Frame;
  }

  lemma SoundStays(db: Db, event: Event, e: Id)
    requires Valid(db) && Enabled(db, event) && e in db.evaluations && Sound(db, e) && Guarded(db, event, e)
    ensures e in Next(db, event).evaluations && Sound(Next(db, event), e)
  {
    hide Next, Enabled, Sound, Guarded;
    if Remediates(event, e) {
      RemediatedIsSound(db, event, e);
    } else if event.GateRun? {
      GatedIsSound(db, event, e);
    } else if event.FallbackRecording? && event.e == e {
      RecordedIsSound(db, e, event.fallback);
    } else {
      OthersKeepSound(db, event, e);
    }
  }

  lemma SoundIsQuiet(db: Db, event: Event, e: Id)
    requires Valid(db) && Enabled(db, event) && e in db.evaluations && Sound(db, e)
    ensures IsQuiet(db, event, e) <==> Remediates(event, e)
  {
    hide Deadlocked, TrialLaneClaim, Parked;
  }

  /** Hard failures keep an evaluation from being claimed, because it never gets a fallback. */
  lemma HardFailuresAreNotClaimed(db: Db, e: Id)
    requires Valid(db) && e in db.evaluations && Sound(db, e) && db.evaluations[e].result.hardFailures != []
    ensures !Claimable(db, e)
  {
    hide Deadlocked, TrialLaneClaim, Parked;
  }

  /**
   Over every run, gate runs included, an evaluation is remediated at most five times and twice more for each
   control probe without a replay and each planned probe that it does not name yet.
   */
  lemma {:induction false} RemediationsBounded(db: Db, run: seq<Event>, e: Id)
    requires Valid(db) && Admissible(db, run) && e in db.evaluations && Sound(db, e) && GuardedRun(db, run, e)
    ensures e in Final(db, run).evaluations && Sound(Final(db, run), e)
    ensures Remediations(db, run, e) + Allowance(Final(db, run), e) <= Allowance(db, e)
    ensures var ev := db.evaluations[e];
            var version := db.versions[ev.versionId];
            Remediations(db, run, e)
            <= 5 + 2 * (|Unreplayed(ev.result, version, db.probes)| + |Unnamed(ev.result, version)|)
    decreases |run|
  {
    hide Next, Enabled, IsQuiet, Sound, Guarded, Unreplayed, Unnamed, Parked;
    if run != [] {
      SoundStays(db, run[0], e);
      SoundIsQuiet(db, run[0], e);
      NextAllowance(db, run[0], e);
      RemediationsBounded(Next(db, run[0]), run[1..], e);
    }
  }

  // ----- The guard is needed -----

  /** An evaluation with hard failures that waits for more evidence, ready to be claimed. */
  predicate Waiting(db: Db, e: Id)
    requires Valid(db)
  {
    && Unblocked(db, e, NeedsIntervention) && db.evaluations[e].result.hardFailures != []
    && db.evaluations[e].result.fallback == Some(COLLECT)
  }

  const COLLECT := Fallback(CollectMoreEvidence, [], Some(true))

  lemma {:induction false} NothingDerivable(probes: map<ProbeHash, Probe>, loaded: seq<ProbeHash>)
    ensures Replays(probes, loaded, {}) == []
  {
    if loaded != [] {
      NothingDerivable(probes, loaded[..|loaded| - 1]);
    }
  }

  lemma WaitingDecides(db: Db, e: Id)
    requires Valid(db) && Waiting(db, e)
    ensures var d := Decide(db, e, {});
            d.action == CollectMoreEvidence && d.replays == [] && d.supplemental == []
  {
    hide Loaded, Replays, WithPlanned, Deadlocked, Parked;
    NothingDerivable(db.probes, Loaded(db.probes, db.evaluations[e].result.probeHashes));
  }

  lemma WaitingStays(db: Db, e: Id)
    requires Valid(db) && Waiting(db, e)
    ensures Claimable(db, e) && Enabled(db, Single(e, {}))
    ensures Waiting(Next(db, Single(e, {})), e)
  {
    hide Decide, Remedies, LastOf, Distinct, NonEmpty, RecommendedDeadlockAction, RemediationRows;
    OneRow(db, e, {});
    WaitingDecides(db, e);
  }

  function Repeated(e: Id, n: nat): seq<Event> {
    if n == 0 then [] else [Single(e, {})] + Repeated(e, n - 1)
  }

  lemma {:induction false} WaitingRuns(db: Db, e: Id, n: nat)
    requires Valid(db) && Waiting(db, e)
    ensures Admissible(db, Repeated(e, n)) && Remediations(db, Repeated(e, n), e) == n
    decreases n
  {
    hide Next, Enabled, Waiting;
    if n > 0 {
      WaitingStays(db, e);
      WaitingRuns(Next(db, Single(e, {})), e, n - 1);
      assert Repeated(e, n)[1..] == Repeated(e, n - 1) && Repeated(e, n)[0] == Single(e, {});
    }
  }

  /**
   A recorder without the guard would leave no bound: with one fallback recorded in spite of hard failures the
   evaluation is remediated as often as one likes.
   */
  lemma GuardIsNeeded(db: Db, e: Id, n: nat) returns (run: seq<Event>)
    requires Valid(db) && Unblocked(db, e, NeedsIntervention) && db.evaluations[e].result.hardFailures != []
    ensures Admissible(db, run) && Remediations(db, run, e) == n
    ensures run != [] && run[0] == FallbackRecording(e, COLLECT) && !Guarded(db, run[0], e)
  {
    hide Next, Enabled, Waiting;
    Recorded(db, e);
    WaitingRuns(Next(db, FallbackRecording(e, COLLECT)), e, n);
    run := [FallbackRecording(e, COLLECT)] + Repeated(e, n);
    assert run[1..] == Repeated(e, n);
  }

  lemma Recorded(db: Db, e: Id)
    requires Valid(db) && Unblocked(db, e, NeedsIntervention) && db.evaluations[e].result.hardFailures != []
    ensures Enabled(db, FallbackRecording(e, COLLECT)) && Waiting(Next(db, FallbackRecording(e, COLLECT)), e)
  {
  }
}

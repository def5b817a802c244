/**
 What remediation guarantees over every run: it terminates, a parked evaluation stays parked, a
 deadlocked one is only ever staged for trial, and the attempt log is the end of the full history.
 */
module RemediationLaws {
  import opened Wrappers
  import opened EvaluationModel
  import opened EvaluationRuns

  // ----- What the list-building functions hold -----

  lemma {:induction false} DistinctMembers<T>(s: seq<T>)
    ensures forall x :: x in Distinct(s) <==> x in s
  {
    if s != [] {
      DistinctMembers(s[..|s| - 1]);
      assert s == s[..|s| - 1] + [s[|s| - 1]];
    }
  }

  lemma {:induction false} LoadedMembers(probes: map<ProbeHash, Probe>, hashes: seq<ProbeHash>)
    ensures forall h | h in Loaded(probes, hashes) :: h in hashes && h in probes
  {
    if hashes != [] {
      LoadedMembers(probes, hashes[..|hashes| - 1]);
    }
  }

  lemma {:induction false} ReplaysMembers(probes: map<ProbeHash, Probe>, loaded: seq<ProbeHash>,
                                          derivable: set<ProbeHash>)
    ensures forall h | h in Replays(probes, loaded, derivable) :: h in loaded && Replayable(probes, h)
  {
    if loaded != [] {
      ReplaysMembers(probes, loaded[..|loaded| - 1], derivable);
    }
  }

  lemma {:induction false} MissingMembers(plan: seq<PlannedProbe>, current: seq<ProbeHash>)
    ensures forall h | h in Missing(plan, current, true) ::
              h !in current && exists p | p in plan :: p.hash == h && p.ok
  {
    if plan != [] {
      MissingMembers(plan[..|plan| - 1], current);
      assert plan[|plan| - 1] in plan && forall p | p in plan[..|plan| - 1] :: p in plan;
    }
  }

  // ----- The budget of resets -----

  function PlannedHashes(version: Version): set<ProbeHash> {
    if version.plan.None? then {} else set p | p in version.plan.value && p.ok :: p.hash
  }

  function Named(result: Result): set<ProbeHash> {
    set h | h in result.probeHashes
  }

  /** The control probes, named by the evaluation or planned for it, that have no replay yet. */
  function Unreplayed(result: Result, version: Version, probes: map<ProbeHash, Probe>): set<ProbeHash> {
    set h | h in Named(result) + PlannedHashes(version)
            && h.kind.NoSkillControl? && !(h in probes && probes[h].replay)
  }

  /** The planned probes that the evaluation does not name yet. */
  function Unnamed(result: Result, version: Version): set<ProbeHash> {
    PlannedHashes(version) - Named(result)
  }

  function EarlyAttempts(result: Result): nat {
    if PreviousAttempts(result) < 2 then 2 - PreviousAttempts(result) else 0
  }

  /** What a late reset can be paid with: the one staging that parks, and the evidence still to come. */
  function SupplyOf(result: Result, version: Version, probes: map<ProbeHash, Probe>): nat {
    (if Parked(result) then 0 else 1) + |Unreplayed(result, version, probes)| + |Unnamed(result, version)|
  }

  /** How often the evaluation can still be reset to planned. */
  function BudgetOf(result: Result, version: Version, probes: map<ProbeHash, Probe>): nat {
    EarlyAttempts(result) + SupplyOf(result, version, probes)
  }

  function Budget(db: Db, e: Id): nat
    requires Valid(db) && e in db.evaluations
  {
    var ev := db.evaluations[e];
    BudgetOf(ev.result, db.versions[ev.versionId], db.probes)
  }

  lemma SubsetSize<T>(a: set<T>, b: set<T>)
    requires a <= b
    ensures |a| <= |b| && (a < b ==> |a| < |b|)
  {
    assert b == a + (b - a);
    if a < b {
      assert b - a != {};
    }
  }

  /** The budget never grows while the record stays and probes only gain replays. */
  lemma BudgetKept(result: Result, after: Result, version: Version, version': Version,
                   probes: map<ProbeHash, Probe>, probes': map<ProbeHash, Probe>)
    requires after.remediation == result.remediation && after.probeHashes == result.probeHashes
    requires version'.plan == version.plan && ProbesGrow(probes, probes')
    ensures BudgetOf(after, version', probes') <= BudgetOf(result, version, probes)
  {
    assert Unreplayed(after, version', probes') <= Unreplayed(result, version, probes);
    SubsetSize(Unreplayed(after, version', probes'), Unreplayed(result, version, probes));
  }

  // ----- One remediation -----

  /** What one remediation decides: which hashes are new, which probes get a replay. */
  lemma DecideFacts(db: Db, e: Id, derivable: set<ProbeHash>)
    requires Valid(db) && e in db.evaluations && db.evaluations[e].result.fallback.Some?
    ensures var ev := db.evaluations[e];
            var d := Decide(db, e, derivable);
            && ProbesGrow(db.probes, d.probes)
            && (forall h | h in d.supplemental :: h in Unnamed(ev.result, db.versions[ev.versionId]))
            && (forall h | h in d.replays ::
                  && h in Unreplayed(ev.result, db.versions[ev.versionId], db.probes)
                  && h in d.probes && d.probes[h].replay)
            && d.action == EffectiveAction(ev.result, ev.result.fallback.value.action,
                                           db.versions[ev.versionId].scannerStatus)
  {
    hide Loaded, Replays, Missing, WithPlanned, EffectiveAction;
    var ev := db.evaluations[e];
    var version := db.versions[ev.versionId];
    var plan := if ev.result.fallback.value.action.RunMoreProbes? && version.plan.Some? then version.plan.value else [];
    DecideGrows(db, e, derivable);
    WithPlannedGrows(db.probes, ev.versionId, plan, ev.result.probeHashes);
    LoadedMembers(db.probes, ev.result.probeHashes);
    ReplaysMembers(db.probes, Loaded(db.probes, ev.result.probeHashes), derivable);
    MissingMembers(plan, ev.result.probeHashes);
  }

  /** The evaluation after its remediation, field by field. */
  lemma RemediatedEvaluation(db: Db, e: Id, derivable: set<ProbeHash>)
    requires Valid(db) && e in db.evaluations && db.evaluations[e].result.fallback.Some?
    requires db.evaluations[e].status == NeedsIntervention
    ensures var ev := db.evaluations[e];
            var d := Decide(db, e, derivable);
            var after := RemediateRow(db, e, derivable);
            var record := Patch(ev.result, d.action, d.replays, d.supplemental, d.blockedScans);
            && e in after.evaluations && after.probes == d.probes
            && after.evaluations[e].versionId == ev.versionId
            && after.evaluations[e].result.remediation == Some(record)
            && after.evaluations[e].result.probeHashes == Remediated(ev.result, d).probeHashes
            && after.evaluations[e].result.hardFailures == ev.result.hardFailures
            && after.evaluations[e].status
               == (if d.action.AutoReject? then Failed
                   else if !record.deadlock && Rescheduled(record.status) then Planned else ev.status)
            && after.evaluations[e].result.fallback
               == (if after.evaluations[e].status == NeedsIntervention then ev.result.fallback else None)
  {
    hide Decide, Patch, WithDeadlock, WithTrialing, WithStaged, Distinct, NonEmpty, CompatibilityFor;
  }

  /** After the second attempt, a reset is paid for by fresh evidence or by the one staging for trial. */
  lemma LateResetConsumes(result: Result, d: Decision)
    requires PreviousAttempts(result) >= 2
    requires var record := Patch(result, d.action, d.replays, d.supplemental, d.blockedScans);
             !d.action.AutoReject? && !record.deadlock && Rescheduled(record.status)
    ensures d.replays != [] || d.supplemental != []
         || (d.action.StageEphemeralCandidate? && Parked(Remediated(result, d)))
  {
    hide Distinct, Remedies, LastOf;
  }

  /** A remediation that resets an evaluation spends some of its budget; no remediation adds to it. */
  lemma ResetPays(db: Db, e: Id, derivable: set<ProbeHash>)
    requires Valid(db) && e in db.evaluations && db.evaluations[e].result.fallback.Some?
    requires db.evaluations[e].status == NeedsIntervention && !Parked(db.evaluations[e].result)
    ensures var after := RemediateRow(db, e, derivable);
            && Valid(after) && e in after.evaluations
            && Budget(after, e) + (if after.evaluations[e].status == Planned then 1 else 0) <= Budget(db, e)
  {
    hide RemediateRow, Decide, Patch, Unreplayed, Unnamed;
    var ev := db.evaluations[e];
    var d := Decide(db, e, derivable);
    var after := RemediateRow(db, e, derivable);
    var version := db.versions[ev.versionId];
    RemediateRowFrame(db, e, derivable);
    RemediatedEvaluation(db, e, derivable);
    var result' := after.evaluations[e].result;
    DecideFacts(db, e, derivable);
    SetsShrink(ev.result, result', version, after.versions[ev.versionId], db.probes, d);
    PatchCounts(ev.result, d);
    if after.evaluations[e].status == Planned && PreviousAttempts(ev.result) >= 2 {
      LateResetConsumes(ev.result, d);
    }
  }

  lemma PatchCounts(result: Result, d: Decision)
    ensures var record := Patch(result, d.action, d.replays, d.supplemental, d.blockedScans);
            && record.attemptCount == PreviousAttempts(result) + 1
            && record.status == PatchStatus(result, d.action, d.replays, d.supplemental)
  {
  }

  lemma SetsShrink(result: Result, after: Result, version: Version, version': Version,
                   probes: map<ProbeHash, Probe>, d: Decision)
    requires version'.plan == version.plan && after.probeHashes == Remediated(result, d).probeHashes
    requires ProbesGrow(probes, d.probes)
    requires forall h | h in d.supplemental :: h in Unnamed(result, version)
    requires forall h | h in d.replays ::
               h in Unreplayed(result, version, probes) && h in d.probes && d.probes[h].replay
    ensures |Unreplayed(after, version', d.probes)| + (if d.replays != [] then 1 else 0)
            <= |Unreplayed(result, version, probes)|
    ensures |Unnamed(after, version')| + (if d.supplemental != [] then 1 else 0) <= |Unnamed(result, version)|
  {
    hide Patch;
    DistinctMembers(result.probeHashes + d.supplemental);
    assert PlannedHashes(version') == PlannedHashes(version);
    assert Named(after) == Named(result) + set h | h in d.supplemental;
    assert Unnamed(after, version') <= Unnamed(result, version);
    assert Unreplayed(after, version', d.probes) <= Unreplayed(result, version, probes);
    if d.supplemental != [] {
      assert d.supplemental[0] in d.supplemental;
      assert d.supplemental[0] in Unnamed(result, version) - Unnamed(after, version');
    }
    if d.replays != [] {
      assert d.replays[0] in d.replays;
      assert d.replays[0] in Unreplayed(result, version, probes) - Unreplayed(after, version', d.probes);
    }
    SubsetSize(Unreplayed(after, version', d.probes), Unreplayed(result, version, probes));
    SubsetSize(Unnamed(after, version'), Unnamed(result, version));
  }

  // ----- Termination over runs -----

  predicate IsReset(db: Db, event: Event, e: Id)
    requires Valid(db) && Enabled(db, event) && e in db.evaluations
  {
    Remediates(event, e) && (NextStable(db, event); Next(db, event).evaluations[e].status == Planned)
  }

  /** How often a run resets the evaluation to planned. */
  function Resets(db: Db, run: seq<Event>, e: Id): nat
    requires Valid(db) && Admissible(db, run) && e in db.evaluations
    decreases |run|
  {
    if run == [] then 0 else
      NextStable(db, run[0]);
      (if IsReset(db, run[0], e) then 1 else 0) + Resets(Next(db, run[0]), run[1..], e)
  }

  lemma StableBudget(db: Db, after: Db, e: Id)
    requires Valid(db) && Valid(after) && e in db.evaluations && Stable(db, after)
    requires after.evaluations[e].result.remediation == db.evaluations[e].result.remediation
    requires after.evaluations[e].result.probeHashes == db.evaluations[e].result.probeHashes
    ensures Budget(after, e) <= Budget(db, e)
  {
    hide BudgetOf;
    var ev := db.evaluations[e];
    BudgetKept(ev.result, after.evaluations[e].result, db.versions[ev.versionId], after.versions[ev.versionId],
               db.probes, after.probes);
  }

  lemma FrameBudget(db: Db, after: Db, rows: seq<Id>, e: Id)
    requires Valid(db) && Valid(after) && e in db.evaluations && Frame(db, after, rows) && e !in rows
    ensures e in after.evaluations && after.evaluations[e] == db.evaluations[e]
    ensures Budget(after, e) <= Budget(db, e)
  {
    hide Budget, ProbesGrow;
    StableBudget(db, after, e);
  }

  lemma NextBudget(db: Db, event: Event, e: Id)
    requires Valid(db) && Enabled(db, event) && e in db.evaluations
    ensures e in Next(db, event).evaluations
    ensures Budget(Next(db, event), e) + (if IsReset(db, event, e) then 1 else 0) <= Budget(db, e)
  {
    hide Budget, Stable, GateRows, RemediationRows, RemediateRow, Frame;
    NextStable(db, event);
    StableHas(db, Next(db, event), e);
    if Remediates(event, e) {
      var i :| 0 <= i < |event.rows| && event.rows[i] == e;
      RunRowBudget(db, event.rows, event.derivable, i);
    } else {
      NextKeeps(db, event, e);
      StableBudget(db, Next(db, event), e);
    }
  }

  lemma StableHas(db: Db, after: Db, e: Id)
    requires Stable(db, after) && e in db.evaluations
    ensures e in after.evaluations
  {
  }

  lemma ClaimedFallbacks(db: Db, rows: seq<Id>)
    requires Valid(db) && forall e | e in rows :: Claimable(db, e)
    ensures HaveFallbacks(db, rows)
    ensures forall e | e in rows ::
              db.evaluations[e].status == NeedsIntervention && !Parked(db.evaluations[e].result)
  {
    hide Deadlocked, TrialLaneClaim, Parked;
  }

  lemma RunRowBudget(db: Db, rows: seq<Id>, derivable: seq<set<ProbeHash>>, i: nat)
    requires Valid(db) && |rows| == |derivable| && NoDuplicates(rows) && i < |rows|
    requires forall e | e in rows :: Claimable(db, e)
    ensures HaveFallbacks(db, rows) && rows[i] in db.evaluations
    ensures var after := RemediationRows(db, rows, derivable);
            && rows[i] in after.evaluations
            && Budget(after, rows[i]) + (if after.evaluations[rows[i]].status == Planned then 1 else 0)
               <= Budget(db, rows[i])
  {
    hide Budget, Frame, RemediateRow, Valid, Claimable, RemediationRows, Parked;
    ClaimedFallbacks(db, rows);
    var e := rows[i];
    assert e in rows && e !in rows[..i] && e !in rows[i + 1..];
    var at := RowInRun(db, rows, derivable, i);
    FrameBudget(db, at, rows[..i], e);
    ResetPays(at, e, derivable[i]);
    FrameBudget(RemediateRow(at, e, derivable[i]), RemediationRows(db, rows, derivable), rows[i + 1..], e);
  }

  /** Over every run, an evaluation is reset to planned no more often than its budget says. */
  lemma {:induction false} RemediationTerminates(db: Db, run: seq<Event>, e: Id)
    requires Valid(db) && Admissible(db, run) && e in db.evaluations
    ensures e in Final(db, run).evaluations
    ensures Resets(db, run, e) + Budget(Final(db, run), e) <= Budget(db, e)
    decreases |run|
  {
    hide Budget, Next, Enabled, IsReset;
    if run != [] {
      NextBudget(db, run[0], e);
      RemediationTerminates(Next(db, run[0]), run[1..], e);
    }
  }

  /** The bound in the terms of the tables: two early attempts, one staging, and the evidence still to come. */
  lemma ResetBound(db: Db, run: seq<Event>, e: Id)
    requires Valid(db) && Admissible(db, run) && e in db.evaluations
    ensures var ev := db.evaluations[e];
            var version := db.versions[ev.versionId];
            Resets(db, run, e) <= 2 + 1 + |Unreplayed(ev.result, version, db.probes)| + |Unnamed(ev.result, version)|
  {
    hide Resets, Final, Unreplayed, Unnamed, Admissible;
    RemediationTerminates(db, run, e);
  }

  // ----- Parked means parked -----

  /** How often a run remediates the evaluation. */
  function Remediations(db: Db, run: seq<Event>, e: Id): nat
    requires Valid(db) && Admissible(db, run)
    decreases |run|
  {
    if run == [] then 0 else
      (if Remediates(run[0], e) then 1 else 0) + Remediations(Next(db, run[0]), run[1..], e)
  }

  lemma ParkedIsNotClaimed(db: Db, event: Event, e: Id)
    requires Valid(db) && Enabled(db, event) && e in db.evaluations && Parked(db.evaluations[e].result)
    ensures !Remediates(event, e)
  {
    hide Parked, TrialLaneClaim, Deadlocked;
  }

  /** A parked evaluation is never remediated again, and its record stays as it is. */
  lemma {:induction false} ParkedStaysParked(db: Db, run: seq<Event>, e: Id)
    requires Valid(db) && Admissible(db, run) && e in db.evaluations && Parked(db.evaluations[e].result)
    ensures Remediations(db, run, e) == 0
    ensures e in Final(db, run).evaluations
    ensures Final(db, run).evaluations[e].result.remediation == db.evaluations[e].result.remediation
    decreases |run|
  {
    hide Next, Enabled, Stable;
    if run != [] {
      ParkedIsNotClaimed(db, run[0], e);
      NextStable(db, run[0]);
      StableHas(db, Next(db, run[0]), e);
      NextKeeps(db, run[0], e);
      ParkedStaysParked(Next(db, run[0]), run[1..], e);
    }
  }

  predicate IsStaging(db: Db, event: Event, e: Id)
    requires Valid(db) && Enabled(db, event) && e in db.evaluations
  {
    && Remediates(event, e)
    && (NextStable(db, event);
        var r := Next(db, event).evaluations[e].result.remediation;
        r.Some? && r.value.status.EphemeralCandidateStaged?)
  }

  /** How often a run sets the evaluation's status to ephemeral_candidate_staged. */
  function Stagings(db: Db, run: seq<Event>, e: Id): nat
    requires Valid(db) && Admissible(db, run) && e in db.evaluations
    decreases |run|
  {
    if run == [] then 0 else
      NextStable(db, run[0]);
      (if IsStaging(db, run[0], e) then 1 else 0) + Stagings(Next(db, run[0]), run[1..], e)
  }

  lemma {:induction false} NoRemediationNoStaging(db: Db, run: seq<Event>, e: Id)
    requires Valid(db) && Admissible(db, run) && e in db.evaluations && Remediations(db, run, e) == 0
    ensures Stagings(db, run, e) == 0
    decreases |run|
  {
    hide Next, Enabled, Stable;
    if run != [] {
      NextStable(db, run[0]);
      StableHas(db, Next(db, run[0]), e);
      NoRemediationNoStaging(Next(db, run[0]), run[1..], e);
    }
  }

  lemma {:induction false} StagedAtMostOnce(db: Db, run: seq<Event>, e: Id)
    requires Valid(db) && Admissible(db, run) && e in db.evaluations
    ensures Stagings(db, run, e) <= 1
    decreases |run|
  {
    hide Next, Enabled, Stable;
    if run != [] {
      NextStable(db, run[0]);
      StableHas(db, Next(db, run[0]), e);
      if IsStaging(db, run[0], e) {
        ParkedStaysParked(Next(db, run[0]), run[1..], e);
        NoRemediationNoStaging(Next(db, run[0]), run[1..], e);
      } else {
        StagedAtMostOnce(Next(db, run[0]), run[1..], e);
      }
    }
  }

  // ----- The attempt log -----

  /** The entries that the run's remediations of the evaluation wrote, oldest first. */
  function History(db: Db, run: seq<Event>, e: Id): seq<Attempt>
    requires Valid(db) && Admissible(db, run) && e in db.evaluations
    decreases |run|
  {
    if run == [] then [] else
      NextStable(db, run[0]);
      var log := AttemptLog(Next(db, run[0]).evaluations[e].result);
      (if Remediates(run[0], e) then LastOf(log, 1) else []) + History(Next(db, run[0]), run[1..], e)
  }

  /** The stored log is the end of the full history, whose entries are numbered consecutively. */
  ghost predicate LogMatches(result: Result, history: seq<Attempt>) {
    && AttemptLog(result) == LastOf(history, 10)
    && PreviousAttempts(result) == |history|
    && forall k | 0 <= k < |history| :: history[k].number == k + 1
  }

  lemma LastOfSnoc<T>(s: seq<T>, x: T, n: nat)
    ensures LastOf(LastOf(s, n + 1), n) + [x] == LastOf(s + [x], n + 1)
    ensures LastOf(s + [x], 1) == [x]
  {
  }

  lemma PatchExtendsLog(result: Result, d: Decision, history: seq<Attempt>) returns (attempt: Attempt)
    requires LogMatches(result, history)
    ensures var record := Patch(result, d.action, d.replays, d.supplemental, d.blockedScans);
            var after := result.(remediation := Some(record));
            LogMatches(after, history + [attempt]) && LastOf(AttemptLog(after), 1) == [attempt]
  {
    hide PatchStatus, Remedies, IsDeadlock, RecommendedDeadlockAction, LastOf;
    var record := Patch(result, d.action, d.replays, d.supplemental, d.blockedScans);
    attempt := record.attempts[|record.attempts| - 1];
    assert record.attempts == LastOf(AttemptLog(result), 9) + [attempt];
    LastOfSnoc(history, attempt, 9);
    LastOfSnoc(LastOf(AttemptLog(result), 9), attempt, 9);
  }

  lemma NextLog(db: Db, event: Event, e: Id, history: seq<Attempt>)
    requires Valid(db) && Enabled(db, event) && e in db.evaluations
    requires LogMatches(db.evaluations[e].result, history)
    ensures e in Next(db, event).evaluations
    ensures var after := Next(db, event).evaluations[e].result;
            LogMatches(after, history + if Remediates(event, e) then LastOf(AttemptLog(after), 1) else [])
  {
    hide Stable, GateRows, RemediationRows, RemediateRow, Frame, LastOf, Patch, Decide;
    NextStable(db, event);
    StableHas(db, Next(db, event), e);
    if Remediates(event, e) {
      ClaimedFallbacks(db, event.rows);
      var i :| 0 <= i < |event.rows| && event.rows[i] == e;
      assert e !in event.rows[i + 1..];
      var at := RowInRun(db, event.rows, event.derivable, i);
      RemediatedEvaluation(at, e, event.derivable[i]);
      var row := RemediateRow(at, e, event.derivable[i]);
      FrameRow(row, Next(db, event), event.rows[i + 1..], e);
      var d := Decide(at, e, event.derivable[i]);
      var attempt := PatchExtendsLog(at.evaluations[e].result, d, history);
    } else {
      NextKeeps(db, event, e);
      assert history + [] == history;
    }
  }

  lemma {:induction false} LogOverRun(db: Db, run: seq<Event>, e: Id, history: seq<Attempt>)
    requires Valid(db) && Admissible(db, run) && e in db.evaluations
    requires LogMatches(db.evaluations[e].result, history)
    ensures e in Final(db, run).evaluations
    ensures LogMatches(Final(db, run).evaluations[e].result, history + History(db, run, e))
    decreases |run|
  {
    hide Next, Enabled, Stable, LogMatches, LastOf;
    if run == [] {
      assert history + [] == history;
    } else {
      NextLog(db, run[0], e, history);
      var after := Next(db, run[0]).evaluations[e].result;
      var entry := if Remediates(run[0], e) then LastOf(AttemptLog(after), 1) else [];
      LogOverRun(Next(db, run[0]), run[1..], e, history + entry);
      assert history + entry + History(Next(db, run[0]), run[1..], e)
          == history + (entry + History(Next(db, run[0]), run[1..], e));
    }
  }

  /** The log holds the last ten attempts of an evaluation that the run found without a record. */
  lemma AttemptLogIsHistory(db: Db, run: seq<Event>, e: Id)
    requires Valid(db) && Admissible(db, run) && e in db.evaluations
    requires db.evaluations[e].result.remediation.None?
    ensures e in Final(db, run).evaluations
    ensures LogMatches(Final(db, run).evaluations[e].result, History(db, run, e))
  {
    hide Next, Enabled, Final, Admissible;
    LogOverRun(db, run, e, []);
    assert [] + History(db, run, e) == History(db, run, e);
  }

  // ----- The way out of a deadlock -----

  /** Every skill version has one proposal gate, as candidate persistence creates them. */
  ghost predicate OneGatePerVersion(db: Db) {
    forall e, f | e in db.evaluations && f in db.evaluations
               && db.evaluations[e].versionId == db.evaluations[f].versionId :: e == f
  }

  lemma OneGateKept(db: Db, event: Event)
    requires Valid(db) && Enabled(db, event) && OneGatePerVersion(db)
    ensures OneGatePerVersion(Next(db, event))
  {
    hide GateRows, RemediationRows, RunGateRow, RemediateRow;
  }

  lemma {:induction false} OneGateOverRun(db: Db, run: seq<Event>)
    requires Valid(db) && Admissible(db, run) && OneGatePerVersion(db)
    ensures OneGatePerVersion(Final(db, run))
    decreases |run|
  {
    hide Next, Enabled, OneGatePerVersion;
    if run != [] {
      OneGateKept(db, run[0]);
      OneGateOverRun(Next(db, run[0]), run[1..]);
    }
  }

  /** A deadlocked evaluation that is claimed again is claimed for the trial lane only. */
  lemma DeadlockedIsStaged(db: Db, e: Id)
    requires Valid(db) && Claimable(db, e) && Deadlocked(db, e)
    ensures var ev := db.evaluations[e];
            EffectiveAction(ev.result, ev.result.fallback.value.action, db.versions[ev.versionId].scannerStatus)
            == StageEphemeralCandidate
  {
    hide Deadlocked, TrialLaneClaim;
  }

  /** Findings of version v keep their place and their fields, and no new one appears. */
  ghost predicate FindingsKept(before: seq<Finding>, after: seq<Finding>, v: Id) {
    && |before| <= |after|
    && (forall i | 0 <= i < |before| ::
          after[i].versionId == before[i].versionId && (before[i].versionId == v ==> after[i] == before[i]))
    && (forall i | |before| <= i < |after| :: after[i].versionId != v)
  }

  lemma RowKeepsOtherFindings(db: Db, e: Id, derivable: set<ProbeHash>, v: Id)
    requires Valid(db) && e in db.evaluations && db.evaluations[e].result.fallback.Some?
    requires db.evaluations[e].versionId != v
    ensures FindingsKept(db.findings, RemediateRow(db, e, derivable).findings, v)
  {
    hide Decide, Patch, Remediated, Distinct, NonEmpty, ReasonCodesForDeadlock, RecommendedDeadlockAction;
  }

  /** What a deadlocked evaluation has become once its remediation is done. */
  ghost predicate Escaped(db: Db, after: Db, e: Id)
    requires e in db.evaluations
  {
    var v := db.evaluations[e].versionId;
    && e in after.evaluations && after.evaluations[e].versionId == v
    && after.evaluations[e].status == Planned
    && after.evaluations[e].result.fallback.None?
    && after.evaluations[e].result.remediation.Some?
    && after.evaluations[e].result.remediation.value.action == StageEphemeralCandidate
    && !after.evaluations[e].result.remediation.value.deadlock
    && !after.evaluations[e].result.remediation.value.status.ThresholdDeadlockCandidate?
    && |db.findings| <= |after.findings|
    && (forall i | 0 <= i < |db.findings| && db.findings[i].versionId == v ::
          after.findings[i] == if db.findings[i].status.Open? then db.findings[i].(status := TrialingPolicy)
                               else db.findings[i])
    && (forall i | |db.findings| <= i < |after.findings| :: after.findings[i].versionId != v)
    && (forall i | 0 <= i < |db.findings| :: after.findings[i].versionId == db.findings[i].versionId)
  }

  lemma StagedRowEscapes(db: Db, e: Id, derivable: set<ProbeHash>)
    requires Valid(db) && e in db.evaluations && db.evaluations[e].result.fallback.Some?
    requires db.evaluations[e].status == NeedsIntervention
    requires Decide(db, e, derivable).action == StageEphemeralCandidate
    ensures Escaped(db, RemediateRow(db, e, derivable), e)
  {
    hide Decide, Distinct, NonEmpty, Remedies, LastOf;
  }

  /** Rows of other versions undo nothing of it, before or after. */
  lemma EscapedSurvives(db: Db, before: Db, after: Db, e: Id)
    requires e in db.evaluations && Escaped(db, before, e)
    requires e in after.evaluations && after.evaluations[e] == before.evaluations[e]
    requires FindingsKept(before.findings, after.findings, db.evaluations[e].versionId)
    ensures Escaped(db, after, e)
  {
  }

  lemma EscapedFromKept(db: Db, at: Db, after: Db, e: Id)
    requires e in db.evaluations && e in at.evaluations && at.evaluations[e] == db.evaluations[e]
    requires FindingsKept(db.findings, at.findings, db.evaluations[e].versionId) && Escaped(at, after, e)
    ensures Escaped(db, after, e)
  {
  }

  /** Rows of other versions only, in front of the escaping row or behind it. */
  lemma {:induction false} OtherRowsKeep(db: Db, rows: seq<Id>, derivable: seq<set<ProbeHash>>, v: Id)
    requires Valid(db) && |rows| == |derivable| && NoDuplicates(rows) && HaveFallbacks(db, rows)
    requires forall e | e in rows :: db.evaluations[e].versionId != v
    ensures FindingsKept(db.findings, RemediationRows(db, rows, derivable).findings, v)
  {
    hide RemediateRow, Frame, Valid, HaveFallbacks, FindingsKept;
    if rows == [] {
      FindingsKeptReflexive(db.findings, v);
    } else {
      var n := |rows| - 1;
      Prefix(db, rows);
      assert rows[n] in rows && forall e | e in rows[..n] :: e in rows;
      OtherRowsKeep(db, rows[..n], derivable[..n], v);
      var before := RemediationRows(db, rows[..n], derivable[..n]);
      RemediationStep(db, before, rows, derivable[n]);
      RowKeepsOtherFindings(before, rows[n], derivable[n], v);
      FindingsKeptTransitive(db.findings, before.findings, RemediationRows(db, rows, derivable).findings, v);
    }
  }

  lemma FindingsKeptReflexive(findings: seq<Finding>, v: Id)
    ensures FindingsKept(findings, findings, v)
  {
  }

  lemma FindingsKeptTransitive(a: seq<Finding>, b: seq<Finding>, c: seq<Finding>, v: Id)
    requires FindingsKept(a, b, v) && FindingsKept(b, c, v)
    ensures FindingsKept(a, c, v)
  {
  }

  lemma {:induction false} EscapeInRun(db: Db, rows: seq<Id>, derivable: seq<set<ProbeHash>>, i: nat)
    requires Valid(db) && OneGatePerVersion(db) && |rows| == |derivable| && NoDuplicates(rows) && i < |rows|
    requires forall e | e in rows :: Claimable(db, e)
    requires rows[i] in db.evaluations && Deadlocked(db, rows[i])
    ensures HaveFallbacks(db, rows)
    ensures Escaped(db, RemediationRows(db, rows, derivable), rows[i])
    decreases |rows|
  {
    hide RemediateRow, Frame, Valid, HaveFallbacks, FindingsKept, Escaped, Claimable, Deadlocked, Parked,
         EffectiveAction;
    ClaimedFallbacks(db, rows);
    var n := |rows| - 1;
    Prefix(db, rows);
    assert rows[n] in rows && rows[i] in rows && forall e | e in rows[..n] :: e in rows;
    var before := RemediationRows(db, rows[..n], derivable[..n]);
    RemediationStep(db, before, rows, derivable[n]);
    var after := RemediateRow(before, rows[n], derivable[n]);
    if i == n {
      OthersOnly(db, rows[..n], rows[n], rows);
      OtherRowsKeep(db, rows[..n], derivable[..n], db.evaluations[rows[n]].versionId);
      DeadlockedRow(db, before, rows[..n], rows[n], derivable[n]);
      StagedRowEscapes(before, rows[n], derivable[n]);
      EscapedFromKept(db, before, after, rows[n]);
    } else {
      assert rows[..n][i] == rows[i];
      EscapeInRun(db, rows[..n], derivable[..n], i);
      HasFallback(db, rows, rows[i]);
      OthersOnly(db, [rows[n]], rows[i], rows);
      RowKeepsOtherFindings(before, rows[n], derivable[n], db.evaluations[rows[i]].versionId);
      RemediateRowFrame(before, rows[n], derivable[n]);
      FrameRow(db, before, rows[..n], rows[i]);
      FrameRow(before, after, [rows[n]], rows[i]);
      EscapedSurvives(db, before, after, rows[i]);
    }
  }

  lemma HasFallback(db: Db, rows: seq<Id>, e: Id)
    requires HaveFallbacks(db, rows) && e in rows
    ensures e in db.evaluations && db.evaluations[e].result.fallback.Some?
  {
  }

  lemma OthersOnly(db: Db, others: seq<Id>, e: Id, rows: seq<Id>)
    requires OneGatePerVersion(db) && HaveFallbacks(db, rows) && e in rows && e !in others
    requires forall f | f in others :: f in rows
    ensures e in db.evaluations
    ensures forall f | f in others :: f in db.evaluations && db.evaluations[f].versionId != db.evaluations[e].versionId
  {
  }

  /** The row is decided on the record it was claimed with, so its action is the one claimed for. */
  lemma DeadlockedRow(db: Db, before: Db, rows: seq<Id>, e: Id, derivable: set<ProbeHash>)
    requires Valid(db) && Valid(before) && Frame(db, before, rows)
    requires Claimable(db, e) && Deadlocked(db, e)
    requires e in before.evaluations && before.evaluations[e] == db.evaluations[e]
    ensures before.evaluations[e].result.fallback.Some? && before.evaluations[e].status == NeedsIntervention
    ensures Decide(before, e, derivable).action == StageEphemeralCandidate
  {
    hide Replays, Loaded, Missing, WithPlanned, Parked, EffectiveAction, TrialLaneClaim, Deadlocked;
    DeadlockedIsStaged(db, e);
  }

  /**
   A deadlocked evaluation that a run claims again ends in planned, staged for trial, with every open
   finding of its version moved to trialing_policy; it is no longer deadlocked.
   */
  lemma DeadlockEscape(db: Db, event: Event, e: Id)
    requires Valid(db) && OneGatePerVersion(db) && Enabled(db, event) && Remediates(event, e)
    requires e in db.evaluations && Deadlocked(db, e)
    ensures Escaped(db, Next(db, event), e) && !Deadlocked(Next(db, event), e)
  {
    hide Claimable, RemediationRows, OneGatePerVersion, Frame;
    var i :| 0 <= i < |event.rows| && event.rows[i] == e;
    EscapeInRun(db, event.rows, event.derivable, i);
  }
}

/**
 Runs of the proposal-gate store: any interleaving of gate runs, fallback recordings, remediation runs,
 invalidations and the inserts and lifecycle changes that other stores make.
 */
module EvaluationRuns {
  import opened Wrappers
  import opened EvaluationModel

  datatype Event =
    | GateRun(rows: seq<Id>, gates: seq<Gate>, derivable: seq<set<ProbeHash>>)
    | RemediationRun(rows: seq<Id>, derivable: seq<set<ProbeHash>>)
    | FallbackRecording(e: Id, fallback: Fallback)
    | Invalidation(targets: Targets)
    | SkillInsert(skill: Id, state: Lifecycle)
    | LifecycleChange(skill: Id, state: Lifecycle)
    | VersionInsert(v: Id, version: Version)
    | EvaluationInsert(e: Id, evaluation: Evaluation)
    | ProbeInsert(h: ProbeHash, probe: Probe)

  predicate NoDuplicates<T(==)>(s: seq<T>) {
    forall i, j | 0 <= i < j < |s| :: s[i] != s[j]
  }

  /** The rows an operation holds keep their place; other evaluations and all plans stay as they are. */
  ghost predicate Frame(before: Db, after: Db, rows: seq<Id>) {
    && after.evaluations.Keys == before.evaluations.Keys
    && after.versions.Keys == before.versions.Keys
    && after.lifecycles.Keys == before.lifecycles.Keys
    && (forall e | e in before.evaluations :: after.evaluations[e].versionId == before.evaluations[e].versionId)
    && (forall e | e in before.evaluations && e !in rows :: after.evaluations[e] == before.evaluations[e])
    && (forall v | v in before.versions ::
          && after.versions[v].skillId == before.versions[v].skillId
          && after.versions[v].scannerStatus == before.versions[v].scannerStatus
          && after.versions[v].plan == before.versions[v].plan)
    && ProbesGrow(before.probes, after.probes)
  }

  /** Probes are never removed and never lose their replay. */
  ghost predicate ProbesGrow(before: map<ProbeHash, Probe>, after: map<ProbeHash, Probe>) {
    forall h | h in before :: h in after && (before[h].replay ==> after[h].replay)
  }

  lemma WithPlannedGrows(probes: map<ProbeHash, Probe>, versionId: Id, plan: seq<PlannedProbe>, current: seq<ProbeHash>)
    ensures ProbesGrow(probes, WithPlanned(probes, versionId, plan, current))
  {
    if plan != [] {
      WithPlannedGrows(probes, versionId, plan[..|plan| - 1], current);
    }
  }

  lemma RunGateRowFrame(db: Db, e: Id, gate: Gate, derivable: set<ProbeHash>)
    requires Valid(db) && e in db.evaluations
    ensures Frame(db, RunGateRow(db, e, gate, derivable), [e]) && Valid(RunGateRow(db, e, gate, derivable))
  {
    hide Replays, Loaded;
  }

  /** Only e's row and its version's evaluator status differ, and that only when e is no longer undecided. */
  ghost predicate TouchesOnly(db: Db, after: Db, e: Id)
    requires Valid(db) && e in db.evaluations
  {
    var v := db.evaluations[e].versionId;
    && e in after.evaluations && v in after.versions
    && after.evaluations == db.evaluations[e := after.evaluations[e]]
    && after.evaluations[e].versionId == v
    && after.versions == db.versions[v := db.versions[v].(evaluatorStatus := after.versions[v].evaluatorStatus)]
    && after.lifecycles.Keys == db.lifecycles.Keys
    && (after.evaluations[e].status == Failed || after.evaluations[e].status == Planned
        || (after.evaluations[e].status == db.evaluations[e].status && after.versions == db.versions))
  }

  lemma RemediateRowTouches(db: Db, e: Id, derivable: set<ProbeHash>)
    requires Valid(db) && e in db.evaluations && db.evaluations[e].result.fallback.Some?
    ensures TouchesOnly(db, RemediateRow(db, e, derivable), e)
    ensures RemediateRow(db, e, derivable).probes == Decide(db, e, derivable).probes
  {
    hide Decide, Patch, Remediated, Distinct, WithDeadlock, WithTrialing, NonEmpty, CompatibilityFor, Rescheduled;
  }

  lemma TouchesFrame(db: Db, after: Db, e: Id)
    requires Valid(db) && e in db.evaluations && TouchesOnly(db, after, e) && ProbesGrow(db.probes, after.probes)
    ensures Frame(db, after, [e]) && Valid(after)
  {
    hide ProbesGrow;
  }

  lemma RemediateRowFrame(db: Db, e: Id, derivable: set<ProbeHash>)
    requires Valid(db) && e in db.evaluations && db.evaluations[e].result.fallback.Some?
    ensures Frame(db, RemediateRow(db, e, derivable), [e]) && Valid(RemediateRow(db, e, derivable))
  {
    hide Decide, RemediateRow, TouchesOnly, Frame, ProbesGrow;
    RemediateRowTouches(db, e, derivable);
    DecideGrows(db, e, derivable);
    TouchesFrame(db, RemediateRow(db, e, derivable), e);
  }

  lemma DecideGrows(db: Db, e: Id, derivable: set<ProbeHash>)
    requires Valid(db) && e in db.evaluations && db.evaluations[e].result.fallback.Some?
    ensures ProbesGrow(db.probes, Decide(db, e, derivable).probes)
  {
    hide Replays, Loaded, Missing, WithPlanned, EffectiveAction;
    var ev := db.evaluations[e];
    var version := db.versions[ev.versionId];
    var plan := if ev.result.fallback.value.action.RunMoreProbes? && version.plan.Some? then version.plan.value else [];
    WithPlannedGrows(db.probes, ev.versionId, plan, ev.result.probeHashes);
  }

  lemma FrameRow(a: Db, b: Db, rows: seq<Id>, e: Id)
    requires Frame(a, b, rows) && e in a.evaluations
    ensures e in b.evaluations && (e !in rows ==> b.evaluations[e] == a.evaluations[e])
  {
  }

  lemma FrameTransitive(a: Db, b: Db, c: Db, rows: seq<Id>, e: Id)
    requires Frame(a, b, rows) && Frame(b, c, [e])
    ensures Frame(a, c, rows + [e])
  {
  }

  predicate HaveRows(db: Db, rows: seq<Id>) {
    forall e | e in rows :: e in db.evaluations
  }

  predicate HaveFallbacks(db: Db, rows: seq<Id>) {
    forall e | e in rows :: e in db.evaluations && db.evaluations[e].result.fallback.Some?
  }

  /** One more row of a gate run. */
  lemma GateStep(db: Db, before: Db, rows: seq<Id>, gate: Gate, derivable: set<ProbeHash>)
    requires rows != [] && HaveRows(db, rows) && Valid(before) && Frame(db, before, rows[..|rows| - 1])
    ensures var e := rows[|rows| - 1];
            && e in before.evaluations
            && Valid(RunGateRow(before, e, gate, derivable))
            && Frame(db, RunGateRow(before, e, gate, derivable), rows)
  {
    hide RunGateRow, Frame, Valid;
    var e := rows[|rows| - 1];
    assert e in rows && rows[..|rows| - 1] + [e] == rows;
    FrameRow(db, before, rows[..|rows| - 1], e);
    RunGateRowFrame(before, e, gate, derivable);
    FrameTransitive(db, before, RunGateRow(before, e, gate, derivable), rows[..|rows| - 1], e);
  }

  /** One more row of a remediation run: its own record is still the one that was claimed. */
  lemma RemediationStep(db: Db, before: Db, rows: seq<Id>, derivable: set<ProbeHash>)
    requires rows != [] && NoDuplicates(rows) && HaveFallbacks(db, rows)
    requires Valid(before) && Frame(db, before, rows[..|rows| - 1])
    ensures var e := rows[|rows| - 1];
            && e in db.evaluations && e in before.evaluations
            && before.evaluations[e] == db.evaluations[e] && before.evaluations[e].result.fallback.Some?
            && Valid(RemediateRow(before, e, derivable))
            && Frame(db, RemediateRow(before, e, derivable), rows)
  {
    hide RemediateRow, Frame, Valid;
    var e := rows[|rows| - 1];
    assert e in rows && rows[..|rows| - 1] + [e] == rows;
    FrameRow(db, before, rows[..|rows| - 1], e);
    RemediateRowFrame(before, e, derivable);
    FrameTransitive(db, before, RemediateRow(before, e, derivable), rows[..|rows| - 1], e);
  }

  lemma Prefix(db: Db, rows: seq<Id>)
    requires rows != []
    ensures HaveRows(db, rows) ==> HaveRows(db, rows[..|rows| - 1])
    ensures HaveFallbacks(db, rows) ==> HaveFallbacks(db, rows[..|rows| - 1])
    ensures NoDuplicates(rows) ==> NoDuplicates(rows[..|rows| - 1])
  {
    assert forall e | e in rows[..|rows| - 1] :: e in rows;
  }

  /** A gate run: its rows one after the other. */
  function GateRows(db: Db, rows: seq<Id>, gates: seq<Gate>, derivable: seq<set<ProbeHash>>): (r: Db)
    requires Valid(db) && |rows| == |gates| == |derivable| && HaveRows(db, rows)
    ensures Valid(r) && Frame(db, r, rows)
  {
    if rows == [] then db else
      var n := |rows| - 1;
      Prefix(db, rows);
      var before := GateRows(db, rows[..n], gates[..n], derivable[..n]);
      GateStep(db, before, rows, gates[n], derivable[n]);
      RunGateRow(before, rows[n], gates[n], derivable[n])
  }

  /** A remediation run: its rows one after the other. */
  function RemediationRows(db: Db, rows: seq<Id>, derivable: seq<set<ProbeHash>>): (r: Db)
    requires Valid(db) && |rows| == |derivable| && NoDuplicates(rows) && HaveFallbacks(db, rows)
    ensures Valid(r) && Frame(db, r, rows)
  {
    if rows == [] then db else
      var n := |rows| - 1;
      Prefix(db, rows);
      var before := RemediationRows(db, rows[..n], derivable[..n]);
      RemediationStep(db, before, rows, derivable[n]);
      RemediateRow(before, rows[n], derivable[n])
  }

  predicate Enabled(db: Db, event: Event)
    requires Valid(db)
  {
    match event
    case GateRun(rows, gates, derivable) =>
      |rows| == |gates| == |derivable| && NoDuplicates(rows) && forall e | e in rows :: Runnable(db, e)
    case RemediationRun(rows, derivable) =>
      |rows| == |derivable| && NoDuplicates(rows) && forall e | e in rows :: Claimable(db, e)
    case FallbackRecording(_, _) => true
    case Invalidation(_) => true
    case SkillInsert(skill, _) => skill !in db.lifecycles
    case LifecycleChange(skill, _) => skill in db.lifecycles
    case VersionInsert(v, version) => v !in db.versions && version.skillId in db.lifecycles
    case EvaluationInsert(e, evaluation) =>
      && e !in db.evaluations && evaluation.versionId in db.versions
      && (evaluation.status == Planned || evaluation.status == Blocked)
      && evaluation.result.remediation.None? && evaluation.result.fallback.None?
      && forall other | other in db.evaluations :: db.evaluations[other].versionId != evaluation.versionId
    case ProbeInsert(h, _) => h !in db.probes
  }

  function Next(db: Db, event: Event): (r: Db)
    requires Valid(db) && Enabled(db, event)
    ensures Valid(r)
  {
    match event
    case GateRun(rows, gates, derivable) => GateRows(db, rows, gates, derivable)
    case RemediationRun(rows, derivable) => RemediationRows(db, rows, derivable)
    case FallbackRecording(e, fallback) => FallbackRecorded(db, e, fallback)
    case Invalidation(targets) => Invalidated(db, targets)
    case SkillInsert(skill, state) => db.(lifecycles := db.lifecycles[skill := state])
    case LifecycleChange(skill, state) => db.(lifecycles := db.lifecycles[skill := state])
    case VersionInsert(v, version) => db.(versions := db.versions[v := version])
    case EvaluationInsert(e, evaluation) => db.(evaluations := db.evaluations[e := evaluation])
    case ProbeInsert(h, probe) => db.(probes := db.probes[h := probe])
  }

  predicate Admissible(db: Db, run: seq<Event>)
    requires Valid(db)
    decreases |run|
  {
    run == [] || (Enabled(db, run[0]) && Admissible(Next(db, run[0]), run[1..]))
  }

  function Final(db: Db, run: seq<Event>): (r: Db)
    requires Valid(db) && Admissible(db, run)
    ensures Valid(r)
    decreases |run|
  {
    if run == [] then db else Final(Next(db, run[0]), run[1..])
  }

  /** What any event leaves alone: the version of an evaluation, plans, stored probes and their replays. */
  ghost predicate Stable(before: Db, after: Db) {
    && (forall e | e in before.evaluations ::
          e in after.evaluations && after.evaluations[e].versionId == before.evaluations[e].versionId)
    && (forall v | v in before.versions :: v in after.versions && after.versions[v].plan == before.versions[v].plan)
    && ProbesGrow(before.probes, after.probes)
  }

  lemma NextStable(db: Db, event: Event)
    requires Valid(db) && Enabled(db, event)
    ensures Stable(db, Next(db, event))
  {
    hide RunGateRow, RemediateRow, GateRows, RemediationRows;
  }

  /** An event that does not remediate an evaluation keeps its remediation record and its probe hashes. */
  lemma {:induction false} GateRowsKeep(db: Db, rows: seq<Id>, gates: seq<Gate>, derivable: seq<set<ProbeHash>>, e: Id)
    requires Valid(db) && |rows| == |gates| == |derivable| && e in db.evaluations
    requires HaveRows(db, rows)
    ensures var after := GateRows(db, rows, gates, derivable).evaluations[e].result;
            && after.remediation == db.evaluations[e].result.remediation
            && after.probeHashes == db.evaluations[e].result.probeHashes
  {
    hide Replays, Loaded;
    if rows != [] {
      var n := |rows| - 1;
      GateRowsKeep(db, rows[..n], gates[..n], derivable[..n], e);
    }
  }

  predicate Remediates(event: Event, e: Id) {
    event.RemediationRun? && e in event.rows
  }

  lemma NextKeeps(db: Db, event: Event, e: Id)
    requires Valid(db) && Enabled(db, event) && e in db.evaluations && !Remediates(event, e)
    ensures var after := Next(db, event).evaluations[e].result;
            && after.remediation == db.evaluations[e].result.remediation
            && after.probeHashes == db.evaluations[e].result.probeHashes
  {
    hide RunGateRow, RemediateRow, GateRows, RemediationRows;
    if event.GateRun? {
      GateRowsKeep(db, event.rows, event.gates, event.derivable, e);
    }
  }

  /** A remediated row is decided on its own record, whatever rows of the run came before it. */
  lemma {:induction false} RowInRun(db: Db, rows: seq<Id>, derivable: seq<set<ProbeHash>>, i: nat) returns (at: Db)
    requires Valid(db) && |rows| == |derivable| && NoDuplicates(rows) && HaveFallbacks(db, rows) && i < |rows|
    ensures rows[i] in db.evaluations && db.evaluations[rows[i]].result.fallback.Some?
    ensures Valid(at) && Frame(db, at, rows[..i])
    ensures rows[i] in at.evaluations && at.evaluations[rows[i]] == db.evaluations[rows[i]]
    ensures Frame(RemediateRow(at, rows[i], derivable[i]), RemediationRows(db, rows, derivable), rows[i + 1..])
  {
    hide RemediateRow, Frame, Valid, HaveFallbacks;
    var n := |rows| - 1;
    Prefix(db, rows);
    var before := RemediationRows(db, rows[..n], derivable[..n]);
    RemediationStep(db, before, rows, derivable[n]);
    var after := RemediateRow(before, rows[n], derivable[n]);
    assert RemediationRows(db, rows, derivable) == after;
    if i == n {
      at := before;
      assert rows[i + 1..] == [];
      FrameReflexive(after);
    } else {
      at := RowInRun(db, rows[..n], derivable[..n], i);
      assert rows[..n][..i] == rows[..i] && rows[..n][i] == rows[i];
      RemediateRowFrame(before, rows[n], derivable[n]);
      FrameTransitive(RemediateRow(at, rows[i], derivable[i]), before, after, rows[..n][i + 1..], rows[n]);
      assert rows[..n][i + 1..] + [rows[n]] == rows[i + 1..];
    }
  }

  lemma FrameReflexive(db: Db)
    ensures Frame(db, db, [])
  {
  }
}

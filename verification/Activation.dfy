/**
 The activation gate (sidecar/autoskill/db/activation.py): which blockers a skill version has, when it
 has none, and what that means along runs of the proposal-gate store.
 */
module Activation {
  import opened Wrappers
  import opened EvaluationModel
  import opened EvaluationRuns
  import opened RemediationLaws

  // ----- The row and the request -----

  /** What the query finds about the version's compiled context. */
  datatype Context = Context(runId: Option<Id>, runStatus: Option<Status>, equivalenceScore: Option<real>,
                             artifactId: Option<Id>, valuePerToken: Option<real>, safety: Option<Status>,
                             equivalence: Option<Status>, budget: Option<Status>)

  datatype Row = Row(scannerStatus: Status, evaluatorStatus: Status, gateStatus: Option<Status>,
                     compatibility: Option<Compatibility>, autonomyAction: Option<Action>,
                     hardInvariantsPassed: Option<bool>, context: Context)

  datatype Request = Request(executor: Option<Id>, requireProof: bool, runId: Option<Id>, artifactId: Option<Id>,
                             textHash: Option<string>, manifestHash: Option<string>,
                             requireEquivalence: bool, minEquivalence: Option<real>,
                             requireValue: bool, minValue: Option<real>,
                             allowedActions: Option<set<Action>>)

  datatype Blocker =
    | AutonomyActionNotApproved | AutonomyHardInvariantsNotPassed | ScannerNotPassed | EvaluatorNotPassed
    | ProposalGateNotPassed | ExecutorNotCompatible | ContextProofMissing | ContextRunNotFound
    | ContextRunNotPassed | EquivalenceMissing | EquivalenceBelowThreshold | ValueMissing
    | ValueBelowThreshold | ArtifactNotFound | ContextSafetyNotPassed | ContextEquivalenceNotPassed
    | ContextBudgetNotPassed

  // ----- When each blocker applies -----

  predicate HardPassed(row: Row) {
    row.hardInvariantsPassed == Some(true)
  }

  predicate Approved(row: Row, req: Request)
    requires req.allowedActions.Some?
  {
    row.autonomyAction.Some? && row.autonomyAction.value in req.allowedActions.value
  }

  /** A canary decision with its hard invariants passed, for a caller that accepts canaries. */
  predicate CanaryAuthorized(row: Row, req: Request) {
    && row.autonomyAction == Some(StageCanary) && HardPassed(row)
    && req.allowedActions.Some? && StageCanary in req.allowedActions.value
  }

  predicate StatusAccepted(status: Option<Status>, row: Row, req: Request) {
    status == Some(Passed) || (status == Some(NeedsIntervention) && CanaryAuthorized(row, req))
  }

  predicate ProofGiven(req: Request) {
    && req.runId.Some? && req.artifactId.Some?
    && req.textHash.GetOr("") != "" && req.manifestHash.GetOr("") != ""
  }

  predicate Below(value: Option<real>, minimum: Option<real>) {
    value.Some? && minimum.Some? && value.value < minimum.value
  }

  /** Each blocker's own condition on the row and the request. */
  predicate Blocks(b: Blocker, row: Row, req: Request) {
    var c := row.context;
    var proof := req.requireProof && ProofGiven(req);
    var compiled := proof && c.runId.Some? && c.runStatus == Some(Passed);
    var valued := proof && (req.requireValue || req.minValue.Some?);
    match b
    case AutonomyActionNotApproved => req.allowedActions.Some? && !Approved(row, req)
    case AutonomyHardInvariantsNotPassed => req.allowedActions.Some? && Approved(row, req) && !HardPassed(row)
    case ScannerNotPassed => row.scannerStatus != Passed
    case EvaluatorNotPassed => !StatusAccepted(Some(row.evaluatorStatus), row, req)
    case ProposalGateNotPassed => !StatusAccepted(row.gateStatus, row, req)
    case ExecutorNotCompatible => req.executor.Some? && row.compatibility != Some(Compatible)
    case ContextProofMissing => req.requireProof && !ProofGiven(req)
    case ContextRunNotFound => proof && c.runId.None?
    case ContextRunNotPassed => proof && c.runId.Some? && c.runStatus != Some(Passed)
    case EquivalenceMissing => compiled && req.requireEquivalence && c.equivalenceScore.None?
    case EquivalenceBelowThreshold =>
      compiled && req.requireEquivalence && Below(c.equivalenceScore, req.minEquivalence)
    case ValueMissing => valued && c.valuePerToken.None?
    case ValueBelowThreshold => valued && Below(c.valuePerToken, req.minValue)
    case ArtifactNotFound => proof && c.artifactId.None?
    case ContextSafetyNotPassed => proof && c.artifactId.Some? && c.safety != Some(Passed)
    case ContextEquivalenceNotPassed => proof && c.artifactId.Some? && c.equivalence != Some(Passed)
    case ContextBudgetNotPassed => proof && c.artifactId.Some? && c.budget != Some(Passed)
  }

  predicate Allowed(row: Row, req: Request) {
    forall b :: !Blocks(b, row, req)
  }

  const AUTONOMY_BLOCKERS := {AutonomyActionNotApproved, AutonomyHardInvariantsNotPassed}
  const VERDICT_BLOCKERS := {ScannerNotPassed, EvaluatorNotPassed, ProposalGateNotPassed, ExecutorNotCompatible}
  const COMPILE_BLOCKERS := {ContextRunNotFound, ContextRunNotPassed, EquivalenceMissing, EquivalenceBelowThreshold}
  const VALUE_BLOCKERS := {ValueMissing, ValueBelowThreshold}
  const ARTIFACT_BLOCKERS :=
    {ArtifactNotFound, ContextSafetyNotPassed, ContextEquivalenceNotPassed, ContextBudgetNotPassed}

  /** The place of a blocker in the order of the checks. */
  function Rank(b: Blocker): nat {
    match b
    case AutonomyActionNotApproved => 0
    case AutonomyHardInvariantsNotPassed => 1
    case ScannerNotPassed => 2
    case EvaluatorNotPassed => 3
    case ProposalGateNotPassed => 4
    case ExecutorNotCompatible => 5
    case ContextProofMissing => 6
    case ContextRunNotFound => 7
    case ContextRunNotPassed => 8
    case EquivalenceMissing => 9
    case EquivalenceBelowThreshold => 10
    case ValueMissing => 11
    case ValueBelowThreshold => 12
    case ArtifactNotFound => 13
    case ContextSafetyNotPassed => 14
    case ContextEquivalenceNotPassed => 15
    case ContextBudgetNotPassed => 16
  }

  /** In the order of the checks, and none twice. */
  ghost predicate Ordered(blockers: seq<Blocker>) {
    forall i, j | 0 <= i < j < |blockers| :: Rank(blockers[i]) < Rank(blockers[j])
  }

  /** The list holds exactly the blockers of one group that apply, in order. */
  ghost predicate Lists(blockers: seq<Blocker>, group: set<Blocker>, row: Row, req: Request) {
    (forall b :: b in blockers <==> b in group && Blocks(b, row, req)) && Ordered(blockers)
  }

  /** The ranks of a group lie in a range. */
  ghost predicate Ranked(group: set<Blocker>, low: nat, high: nat) {
    forall b | b in group :: low <= Rank(b) < high
  }

  lemma ListsAppend(a: seq<Blocker>, b: seq<Blocker>, g: set<Blocker>, h: set<Blocker>, low: nat, mid: nat, high: nat,
                    row: Row, req: Request)
    requires Lists(a, g, row, req) && Lists(b, h, row, req)
    requires low <= mid <= high && Ranked(g, low, mid) && Ranked(h, mid, high)
    ensures Lists(a + b, g + h, row, req) && Ranked(g + h, low, high)
  {
    hide Blocks, Rank;
    assert forall i | 0 <= i < |a| :: a[i] in a && a[i] in g;
    assert forall i | 0 <= i < |b| :: b[i] in b && b[i] in h;
  }

  function IfBlocks(b: Blocker, row: Row, req: Request): seq<Blocker> {
    if Blocks(b, row, req) then [b] else []
  }

  lemma FourLists(a: Blocker, b: Blocker, c: Blocker, d: Blocker, row: Row, req: Request)
    requires Rank(a) < Rank(b) < Rank(c) < Rank(d)
    ensures Lists(IfBlocks(a, row, req) + IfBlocks(b, row, req) + IfBlocks(c, row, req) + IfBlocks(d, row, req),
                  {a, b, c, d}, row, req)
  {
    hide Blocks, Rank;
  }

  lemma GroupRanks()
    ensures Ranked(AUTONOMY_BLOCKERS, 0, 2) && Ranked(VERDICT_BLOCKERS, 2, 6) && Ranked(CONTEXT_BLOCKERS, 6, 17)
    ensures Ranked(COMPILE_BLOCKERS, 7, 11) && Ranked(VALUE_BLOCKERS, 11, 13) && Ranked(ARTIFACT_BLOCKERS, 13, 17)
  {
  }

  /** Blockers that do not apply may be added to the group. */
  lemma ListsMore(a: seq<Blocker>, g: set<Blocker>, more: set<Blocker>, row: Row, req: Request)
    requires Lists(a, g, row, req) && forall b | b in more :: !Blocks(b, row, req)
    ensures Lists(a, g + more, row, req)
  {
    hide Blocks, Rank;
  }

  /** The program's list of blockers holds exactly the ones that apply, in order; empty means allowed. */
  method ActivationBlockers(row: Row, req: Request) returns (blockers: seq<Blocker>)
    ensures forall b :: b in blockers <==> Blocks(b, row, req)
    ensures Ordered(blockers)
    ensures blockers == [] <==> Allowed(row, req)
  {
    hide Blocks, Lists, Ranked, Ordered;
    var canaryAuthorized := row.autonomyAction == Some(StageCanary) && row.hardInvariantsPassed == Some(true)
                            && req.allowedActions.Some? && StageCanary in req.allowedActions.value;
    blockers := AutonomyBlockers(row, req);
    var verdicts := VerdictBlockers(row, req, canaryAuthorized);
    GroupRanks();
    ListsAppend(blockers, verdicts, AUTONOMY_BLOCKERS, VERDICT_BLOCKERS, 0, 2, 6, row, req);
    blockers := blockers + verdicts;
    if req.requireProof {
      var context := ContextBlockers(row, req);
      ListsAppend(blockers, context, AUTONOMY_BLOCKERS + VERDICT_BLOCKERS, CONTEXT_BLOCKERS, 0, 6, 17, row, req);
      blockers := blockers + context;
    } else {
      NoProofRequired(row, req);
      ListsMore(blockers, AUTONOMY_BLOCKERS + VERDICT_BLOCKERS, CONTEXT_BLOCKERS, row, req);
    }
    AllListed(blockers, row, req);
  }

  lemma AllListed(blockers: seq<Blocker>, row: Row, req: Request)
    requires Lists(blockers, ALL_BLOCKERS, row, req)
    ensures (forall b :: b in blockers <==> Blocks(b, row, req)) && Ordered(blockers)
    ensures blockers == [] <==> Allowed(row, req)
  {
    hide Blocks, Rank;
    EveryBlocker();
    if blockers != [] {
      assert blockers[0] in blockers;
    }
  }

  const ALL_BLOCKERS := AUTONOMY_BLOCKERS + VERDICT_BLOCKERS + CONTEXT_BLOCKERS
  const CONTEXT_BLOCKERS := COMPILE_BLOCKERS + VALUE_BLOCKERS + ARTIFACT_BLOCKERS + {ContextProofMissing}

  lemma EveryBlocker()
    ensures forall b :: b in ALL_BLOCKERS
  {
    forall b ensures b in ALL_BLOCKERS {
      match b
      case AutonomyActionNotApproved | AutonomyHardInvariantsNotPassed => assert b in AUTONOMY_BLOCKERS;
      case ScannerNotPassed | EvaluatorNotPassed | ProposalGateNotPassed | ExecutorNotCompatible =>
        assert b in VERDICT_BLOCKERS;
      case _ => assert b in CONTEXT_BLOCKERS;
    }
  }

  lemma NoProofRequired(row: Row, req: Request)
    requires !req.requireProof
    ensures forall b | b in CONTEXT_BLOCKERS :: !Blocks(b, row, req)
  {
  }

  method AutonomyBlockers(row: Row, req: Request) returns (blockers: seq<Blocker>)
    ensures Lists(blockers, AUTONOMY_BLOCKERS, row, req)
  {
    blockers := [];
    if req.allowedActions.Some? {
      if row.autonomyAction.None? || row.autonomyAction.value !in req.allowedActions.value {
        blockers := blockers + [AutonomyActionNotApproved];
      } else if row.hardInvariantsPassed != Some(true) {
        blockers := blockers + [AutonomyHardInvariantsNotPassed];
      }
    }
  }

  method VerdictBlockers(row: Row, req: Request, canaryAuthorized: bool) returns (blockers: seq<Blocker>)
    requires canaryAuthorized == CanaryAuthorized(row, req)
    ensures Lists(blockers, VERDICT_BLOCKERS, row, req)
  {
    hide Lists;
    blockers := [];
    if row.scannerStatus != Passed {
      blockers := blockers + [ScannerNotPassed];
    }
    if row.evaluatorStatus != Passed && !(row.evaluatorStatus == NeedsIntervention && canaryAuthorized) {
      blockers := blockers + [EvaluatorNotPassed];
    }
    if row.gateStatus != Some(Passed) && !(row.gateStatus == Some(NeedsIntervention) && canaryAuthorized) {
      blockers := blockers + [ProposalGateNotPassed];
    }
    if req.executor.Some? && row.compatibility != Some(Compatible) {
      blockers := blockers + [ExecutorNotCompatible];
    }
    assert blockers == IfBlocks(ScannerNotPassed, row, req) + IfBlocks(EvaluatorNotPassed, row, req)
                       + IfBlocks(ProposalGateNotPassed, row, req) + IfBlocks(ExecutorNotCompatible, row, req);
    FourLists(ScannerNotPassed, EvaluatorNotPassed, ProposalGateNotPassed, ExecutorNotCompatible, row, req);
  }

  /** The second half of the checks, made when a compile proof is required. */
  method ContextBlockers(row: Row, req: Request) returns (blockers: seq<Blocker>)
    requires req.requireProof
    ensures Lists(blockers, CONTEXT_BLOCKERS, row, req)
  {
    if req.runId.None? || req.artifactId.None? || req.textHash.GetOr("") == "" || req.manifestHash.GetOr("") == "" {
      return [ContextProofMissing];
    }
    assert !Blocks(ContextProofMissing, row, req);
    hide Blocks, Lists, Ranked, Ordered;
    var compile := CompileBlockers(row, req);
    var value := ValueBlockers(row, req);
    var artifact := ArtifactBlockers(row, req);
    GroupRanks();
    ListsAppend(compile, value, COMPILE_BLOCKERS, VALUE_BLOCKERS, 7, 11, 13, row, req);
    ListsAppend(compile + value, artifact, COMPILE_BLOCKERS + VALUE_BLOCKERS, ARTIFACT_BLOCKERS, 7, 13, 17, row, req);
    blockers := compile + value + artifact;
    ListsMore(blockers, COMPILE_BLOCKERS + VALUE_BLOCKERS + ARTIFACT_BLOCKERS, {ContextProofMissing}, row, req);
  }

  method CompileBlockers(row: Row, req: Request) returns (blockers: seq<Blocker>)
    requires req.requireProof && ProofGiven(req)
    ensures Lists(blockers, COMPILE_BLOCKERS, row, req)
  {
    var c := row.context;
    blockers := [];
    if c.runId.None? {
      blockers := blockers + [ContextRunNotFound];
    } else if c.runStatus != Some(Passed) {
      blockers := blockers + [ContextRunNotPassed];
    } else if req.requireEquivalence {
      if c.equivalenceScore.None? {
        blockers := blockers + [EquivalenceMissing];
      } else if req.minEquivalence.Some? && c.equivalenceScore.value < req.minEquivalence.value {
        blockers := blockers + [EquivalenceBelowThreshold];
      }
    }
  }

  method ValueBlockers(row: Row, req: Request) returns (blockers: seq<Blocker>)
    requires req.requireProof && ProofGiven(req)
    ensures Lists(blockers, VALUE_BLOCKERS, row, req)
  {
    var c := row.context;
    blockers := [];
    if req.requireValue || req.minValue.Some? {
      if c.valuePerToken.None? {
        blockers := blockers + [ValueMissing];
      } else if req.minValue.Some? && c.valuePerToken.value < req.minValue.value {
        blockers := blockers + [ValueBelowThreshold];
      }
    }
  }

  method ArtifactBlockers(row: Row, req: Request) returns (blockers: seq<Blocker>)
    requires req.requireProof && ProofGiven(req)
    ensures Lists(blockers, ARTIFACT_BLOCKERS, row, req)
  {
    hide Lists;
    var c := row.context;
    blockers := [];
    if c.artifactId.None? {
      blockers := blockers + [ArtifactNotFound];
    } else {
      if c.safety != Some(Passed) {
        blockers := blockers + [ContextSafetyNotPassed];
      }
      if c.equivalence != Some(Passed) {
        blockers := blockers + [ContextEquivalenceNotPassed];
      }
      if c.budget != Some(Passed) {
        blockers := blockers + [ContextBudgetNotPassed];
      }
    }
    assert blockers == IfBlocks(ArtifactNotFound, row, req) + IfBlocks(ContextSafetyNotPassed, row, req)
                       + IfBlocks(ContextEquivalenceNotPassed, row, req) + IfBlocks(ContextBudgetNotPassed, row, req);
    FourLists(ArtifactNotFound, ContextSafetyNotPassed, ContextEquivalenceNotPassed, ContextBudgetNotPassed, row, req);
  }

  // ----- What an allowed activation means -----

  /** Passed, or in need of intervention under a canary decision that the caller accepts. */
  predicate Acceptable(status: Option<Status>, row: Row, req: Request) {
    || status == Some(Passed)
    || (&& status == Some(NeedsIntervention) && row.autonomyAction == Some(StageCanary)
        && row.hardInvariantsPassed == Some(true)
        && req.allowedActions.Some? && StageCanary in req.allowedActions.value)
  }

  /** What a compile proof has to show: its ids and hashes, its run, its artifact, its score and its value. */
  predicate Proven(row: Row, req: Request) {
    var c := row.context;
    && req.runId.Some? && req.artifactId.Some?
    && req.textHash.Some? && req.textHash.value != "" && req.manifestHash.Some? && req.manifestHash.value != ""
    && c.runId.Some? && c.runStatus == Some(Passed)
    && c.artifactId.Some? && c.safety == Some(Passed) && c.equivalence == Some(Passed) && c.budget == Some(Passed)
    && (req.requireEquivalence ==>
          c.equivalenceScore.Some?
          && (req.minEquivalence.Some? ==> c.equivalenceScore.value >= req.minEquivalence.value))
    && (req.requireValue ==> c.valuePerToken.Some?)
    && (req.minValue.Some? ==> c.valuePerToken.Some? && c.valuePerToken.value >= req.minValue.value)
  }

  /** Activation is allowed exactly when all of this holds. */
  lemma AllowedExactly(row: Row, req: Request)
    ensures Allowed(row, req)
       <==> && (req.allowedActions.Some? ==>
                  && row.autonomyAction.Some? && row.autonomyAction.value in req.allowedActions.value
                  && row.hardInvariantsPassed == Some(true))
            && row.scannerStatus == Passed
            && Acceptable(Some(row.evaluatorStatus), row, req) && Acceptable(row.gateStatus, row, req)
            && (req.executor.Some? ==> row.compatibility == Some(Compatible))
            && (req.requireProof ==> Proven(row, req))
  {
    hide Blocks, Proven, Acceptable, ProofUnblocked, VerdictUnblocked;
    EachBlocker(row, req);
    VerdictsMean(row, req);
    ProofMeans(row, req);
  }

  predicate VerdictUnblocked(row: Row, req: Request) {
    && !Blocks(AutonomyActionNotApproved, row, req) && !Blocks(AutonomyHardInvariantsNotPassed, row, req)
    && !Blocks(ScannerNotPassed, row, req) && !Blocks(EvaluatorNotPassed, row, req)
    && !Blocks(ProposalGateNotPassed, row, req) && !Blocks(ExecutorNotCompatible, row, req)
  }

  predicate ProofUnblocked(row: Row, req: Request) {
    && !Blocks(ContextProofMissing, row, req)
    && !Blocks(ContextRunNotFound, row, req) && !Blocks(ContextRunNotPassed, row, req)
    && !Blocks(EquivalenceMissing, row, req) && !Blocks(EquivalenceBelowThreshold, row, req)
    && !Blocks(ValueMissing, row, req) && !Blocks(ValueBelowThreshold, row, req)
    && !Blocks(ArtifactNotFound, row, req) && !Blocks(ContextSafetyNotPassed, row, req)
    && !Blocks(ContextEquivalenceNotPassed, row, req) && !Blocks(ContextBudgetNotPassed, row, req)
  }

  lemma VerdictsMean(row: Row, req: Request)
    ensures VerdictUnblocked(row, req)
       <==> && (req.allowedActions.Some? ==>
                  && row.autonomyAction.Some? && row.autonomyAction.value in req.allowedActions.value
                  && row.hardInvariantsPassed == Some(true))
            && row.scannerStatus == Passed
            && Acceptable(Some(row.evaluatorStatus), row, req) && Acceptable(row.gateStatus, row, req)
            && (req.executor.Some? ==> row.compatibility == Some(Compatible))
  {
  }

  lemma ProofMeans(row: Row, req: Request)
    ensures ProofUnblocked(row, req) <==> (req.requireProof ==> Proven(row, req))
  {
  }

  lemma EachBlocker(row: Row, req: Request)
    ensures Allowed(row, req) <==> VerdictUnblocked(row, req) && ProofUnblocked(row, req)
  {
    hide Blocks;
    if VerdictUnblocked(row, req) && ProofUnblocked(row, req) {
      forall b
        ensures !Blocks(b, row, req)
      {
        match b
        case AutonomyActionNotApproved =>
        case AutonomyHardInvariantsNotPassed =>
        case ScannerNotPassed =>
        case EvaluatorNotPassed =>
        case ProposalGateNotPassed =>
        case ExecutorNotCompatible =>
        case ContextProofMissing =>
        case ContextRunNotFound =>
        case ContextRunNotPassed =>
        case EquivalenceMissing =>
        case EquivalenceBelowThreshold =>
        case ValueMissing =>
        case ValueBelowThreshold =>
        case ArtifactNotFound =>
        case ContextSafetyNotPassed =>
        case ContextEquivalenceNotPassed =>
        case ContextBudgetNotPassed =>
      }
    }
  }

  // ----- Asking for more never allows more -----

  predicate AtLeast(minimum: Option<real>, other: Option<real>) {
    other.Some? ==> minimum.Some? && other.value <= minimum.value
  }

  /** The same executor and proofs, with requirements on, thresholds up or a given action set smaller. */
  predicate Stricter(strict: Request, req: Request) {
    && strict.executor == req.executor && strict.runId == req.runId && strict.artifactId == req.artifactId
    && strict.textHash == req.textHash && strict.manifestHash == req.manifestHash
    && (req.requireProof ==> strict.requireProof)
    && (req.requireEquivalence ==> strict.requireEquivalence)
    && (req.requireValue ==> strict.requireValue)
    && AtLeast(strict.minEquivalence, req.minEquivalence) && AtLeast(strict.minValue, req.minValue)
    && match (strict.allowedActions, req.allowedActions)
       case (None, None) => true
       case (Some(s), Some(t)) => s <= t
       case _ => false
  }

  lemma StricterAllowsLess(row: Row, strict: Request, req: Request)
    requires Stricter(strict, req) && Allowed(row, strict)
    ensures Allowed(row, req)
  {
    forall b ensures !Blocks(b, row, req) {
      assert !Blocks(b, row, strict) && !Blocks(ValueMissing, row, strict) && !Blocks(EquivalenceMissing, row, strict);
      assert !Blocks(ContextRunNotFound, row, strict) && !Blocks(ContextRunNotPassed, row, strict);
      assert !Blocks(EvaluatorNotPassed, row, strict) && !Blocks(ProposalGateNotPassed, row, strict);
      assert !Blocks(AutonomyActionNotApproved, row, strict) && !Blocks(AutonomyHardInvariantsNotPassed, row, strict);
      assert !Blocks(ContextProofMissing, row, strict) && !Blocks(ArtifactNotFound, row, strict);
    }
  }

  // ----- The row as the tables give it -----

  /** A gate of version v that the request's executor may use. */
  predicate GateFor(db: Db, e: Id, v: Id, executor: Option<Id>) {
    && e in db.evaluations && db.evaluations[e].versionId == v
    && (executor.None? || db.evaluations[e].executor.None? || db.evaluations[e].executor == executor)
  }

  ghost predicate HasGate(db: Db, v: Id, executor: Option<Id>) {
    exists e :: GateFor(db, e, v, executor)
  }

  /** The row the query returns: the version, its newest gate and the compatibility with the executor. */
  ghost function ReadRow(db: Db, v: Id, executor: Option<Id>, context: Context): Row
    requires v in db.versions
  {
    var version := db.versions[v];
    var compatibility := if executor.Some? && (v, executor.value) in db.compatibility
                         then Some(db.compatibility[(v, executor.value)]) else None;
    if HasGate(db, v, executor) then
      var e :| GateFor(db, e, v, executor);
      var ev := db.evaluations[e];
      var fallback := ev.result.fallback;
      Row(version.scannerStatus, version.evaluatorStatus, Some(ev.status), compatibility,
          if fallback.Some? then Some(fallback.value.action) else None,
          if fallback.Some? then fallback.value.hardInvariantsPassed else None, context)
    else
      Row(version.scannerStatus, version.evaluatorStatus, None, compatibility, None, None, context)
  }

  ghost predicate Activatable(db: Db, v: Id, req: Request, context: Context)
    requires v in db.versions
  {
    Allowed(ReadRow(db, v, req.executor, context), req)
  }

  /** The gate's own record is a canary decision whose hard invariants passed. */
  predicate CanaryGate(ev: Evaluation) {
    && ev.result.fallback.Some? && ev.result.fallback.value.action == StageCanary
    && ev.result.fallback.value.hardInvariantsPassed == Some(true)
  }

  /** What an allowed activation says about the version and about its gate. */
  lemma AllowedMeans(db: Db, e: Id, req: Request, context: Context)
    requires Valid(db) && OneGatePerVersion(db) && e in db.evaluations
    requires Activatable(db, db.evaluations[e].versionId, req, context)
    ensures var ev := db.evaluations[e];
            var version := db.versions[ev.versionId];
            && version.scannerStatus == Passed
            && GateFor(db, e, ev.versionId, req.executor)
            && (version.evaluatorStatus == Passed || (version.evaluatorStatus == NeedsIntervention && CanaryGate(ev)))
            && (ev.status == Passed || (ev.status == NeedsIntervention && CanaryGate(ev)))
            && (req.executor.Some? ==>
                  (ev.versionId, req.executor.value) in db.compatibility
                  && db.compatibility[(ev.versionId, req.executor.value)] == Compatible)
  {
    var row := ReadRow(db, db.evaluations[e].versionId, req.executor, context);
    assert !Blocks(ScannerNotPassed, row, req) && !Blocks(EvaluatorNotPassed, row, req);
    assert !Blocks(ProposalGateNotPassed, row, req) && !Blocks(ExecutorNotCompatible, row, req);
  }

  /** Whatever the request: a gate that is planned, revoked, failed or blocked keeps its version out. */
  lemma UndecidedGateBlocks(db: Db, e: Id, req: Request, context: Context)
    requires Valid(db) && OneGatePerVersion(db) && e in db.evaluations
    requires db.evaluations[e].status != Passed && db.evaluations[e].status != NeedsIntervention
    ensures !Activatable(db, db.evaluations[e].versionId, req, context)
  {
    if Activatable(db, db.evaluations[e].versionId, req, context) {
      AllowedMeans(db, e, req, context);
    }
  }

  // ----- Along runs -----

  /** A revoked gate is never claimed again. */
  lemma RevokedStays(db: Db, event: Event, e: Id)
    requires Valid(db) && Enabled(db, event) && e in db.evaluations && db.evaluations[e].status == Revoked
    ensures e in Next(db, event).evaluations && Next(db, event).evaluations[e].status == Revoked
  {
    hide GateRows, RemediationRows, RunGateRow, RemediateRow, ProbesGrow;
  }

  /** Once revoked, a gate blocks its version in every later state of every run, for every request. */
  lemma {:induction false} RevokedForever(db: Db, run: seq<Event>, e: Id, req: Request, context: Context)
    requires Valid(db) && Admissible(db, run) && OneGatePerVersion(db)
    requires e in db.evaluations && db.evaluations[e].status == Revoked
    ensures e in Final(db, run).evaluations && Final(db, run).evaluations[e].status == Revoked
    ensures !Activatable(Final(db, run), Final(db, run).evaluations[e].versionId, req, context)
    decreases |run|
  {
    hide Next, Enabled, Activatable, OneGatePerVersion;
    if run == [] {
      UndecidedGateBlocks(db, e, req, context);
    } else {
      RevokedStays(db, run[0], e);
      OneGateKept(db, run[0]);
      RevokedForever(Next(db, run[0]), run[1..], e, req, context);
    }
  }

  /** Verdicts that activation can accept stand on the gate and on its version alike. */
  ghost predicate VerdictsAgree(db: Db)
    requires Valid(db)
  {
    forall e | e in db.evaluations
               && (db.evaluations[e].status.Passed? || db.evaluations[e].status.NeedsIntervention?) ::
      db.versions[db.evaluations[e].versionId].evaluatorStatus == db.evaluations[e].status
  }

  lemma GateRowAgrees(db: Db, e: Id, gate: Gate, derivable: set<ProbeHash>)
    requires Valid(db) && OneGatePerVersion(db) && VerdictsAgree(db) && e in db.evaluations
    ensures var after := RunGateRow(db, e, gate, derivable);
            Valid(after) && OneGatePerVersion(after) && VerdictsAgree(after)
  {
    hide Replays, Loaded, WithReplays;
  }

  lemma RemediationRowAgrees(db: Db, e: Id, derivable: set<ProbeHash>)
    requires Valid(db) && OneGatePerVersion(db) && VerdictsAgree(db)
    requires e in db.evaluations && db.evaluations[e].result.fallback.Some?
    ensures var after := RemediateRow(db, e, derivable);
            Valid(after) && OneGatePerVersion(after) && VerdictsAgree(after)
  {
    hide Decide, RemediateRow;
    RemediateRowTouches(db, e, derivable);
    RemediateRowFrame(db, e, derivable);
  }

  lemma {:induction false} GateRowsAgree(db: Db, rows: seq<Id>, gates: seq<Gate>, derivable: seq<set<ProbeHash>>)
    requires Valid(db) && OneGatePerVersion(db) && VerdictsAgree(db)
    requires |rows| == |gates| == |derivable| && HaveRows(db, rows)
    ensures var after := GateRows(db, rows, gates, derivable);
            OneGatePerVersion(after) && VerdictsAgree(after)
  {
    hide RunGateRow, Valid, Frame, OneGatePerVersion, VerdictsAgree;
    if rows != [] {
      var n := |rows| - 1;
      Prefix(db, rows);
      GateRowsAgree(db, rows[..n], gates[..n], derivable[..n]);
      var before := GateRows(db, rows[..n], gates[..n], derivable[..n]);
      GateStep(db, before, rows, gates[n], derivable[n]);
      GateRowAgrees(before, rows[n], gates[n], derivable[n]);
    }
  }

  lemma {:induction false} RemediationRowsAgree(db: Db, rows: seq<Id>, derivable: seq<set<ProbeHash>>)
    requires Valid(db) && OneGatePerVersion(db) && VerdictsAgree(db)
    requires |rows| == |derivable| && NoDuplicates(rows) && HaveFallbacks(db, rows)
    ensures var after := RemediationRows(db, rows, derivable);
            OneGatePerVersion(after) && VerdictsAgree(after)
  {
    hide RemediateRow, Valid, Frame, OneGatePerVersion, VerdictsAgree;
    if rows != [] {
      var n := |rows| - 1;
      Prefix(db, rows);
      RemediationRowsAgree(db, rows[..n], derivable[..n]);
      var before := RemediationRows(db, rows[..n], derivable[..n]);
      RemediationStep(db, before, rows, derivable[n]);
      RemediationRowAgrees(before, rows[n], derivable[n]);
    }
  }

  lemma RunnableRows(db: Db, rows: seq<Id>)
    requires Valid(db) && forall e | e in rows :: Runnable(db, e)
    ensures HaveRows(db, rows)
  {
  }

  lemma NextAgrees(db: Db, event: Event)
    requires Valid(db) && Enabled(db, event) && OneGatePerVersion(db) && VerdictsAgree(db)
    ensures OneGatePerVersion(Next(db, event)) && VerdictsAgree(Next(db, event))
  {
    hide GateRows, RemediationRows, RunGateRow, RemediateRow, Frame, Claimable, Runnable;
    OneGateKept(db, event);
    match event {
      case GateRun(rows, gates, derivable) =>
        RunnableRows(db, rows);
        GateRowsAgree(db, rows, gates, derivable);
      case RemediationRun(rows, derivable) =>
        ClaimedFallbacks(db, rows);
        RemediationRowsAgree(db, rows, derivable);
      case _ =>
    }
  }

  /**
   In every state of every run, a gate that activation can accept and its version's evaluator status
   agree, so an activation is allowed only on a gate that passed, or on one that needs intervention
   and still holds a canary decision with its hard invariants passed.
   */
  lemma {:induction false} ActivationAlongRuns(db: Db, run: seq<Event>, e: Id, req: Request, context: Context)
    requires Valid(db) && Admissible(db, run) && OneGatePerVersion(db) && VerdictsAgree(db)
    ensures var final := Final(db, run);
            && OneGatePerVersion(final) && VerdictsAgree(final)
            && (e in final.evaluations && Activatable(final, final.evaluations[e].versionId, req, context) ==>
                  var ev := final.evaluations[e];
                  && final.versions[ev.versionId].scannerStatus == Passed
                  && final.versions[ev.versionId].evaluatorStatus == ev.status
                  && (ev.status == Passed || (ev.status == NeedsIntervention && CanaryGate(ev))))
    decreases |run|
  {
    hide Next, Enabled, Activatable, OneGatePerVersion;
    if run == [] {
      if e in db.evaluations && Activatable(db, db.evaluations[e].versionId, req, context) {
        AllowedMeans(db, e, req, context);
      }
    } else {
      NextAgrees(db, run[0]);
      ActivationAlongRuns(Next(db, run[0]), run[1..], e, req, context);
    }
  }
}

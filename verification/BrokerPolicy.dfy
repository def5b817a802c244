/**
 The broker policy store (sidecar/autoskill/db/broker_policy.py, AsyncpgBrokerPolicyStore): one row per
 policy version, and which of them a history of calls leaves active.
 */
module BrokerPolicy {
  import opened Wrappers

  type Id = nat
  type Time = nat

  datatype Status = Active | Superseded | RolledBack | OtherStatus(name: string)

  datatype Policy = Policy(workspace: Id, version: string, payload: string, feedback: Option<string>,
                           status: Status, createdAt: Time, activatedAt: Option<Time>, rolledBackAt: Option<Time>)

  type Table = map<Id, Policy>

  /** A call of the store; `id` of an upsert is the given or generated id of a row to insert. */
  datatype Call =
    | Upsert(workspace: Id, version: string, payload: string, status: Status, id: Id, now: Time)
    | Activate(workspace: Id, id: Id, now: Time)
    | Canary(workspace: Id, id: Id, critical: bool, feedback: string, now: Time)

  // ----- What each call makes of the table -----

  function Deactivated(t: Table, w: Id): Table {
    map p | p in t :: if t[p].workspace == w && t[p].status.Active? then t[p].(status := Superseded) else t[p]
  }

  predicate IsVersion(t: Table, p: Id, w: Id, version: string) {
    p in t && t[p].workspace == w && t[p].version == version
  }

  predicate HasVersion(t: Table, w: Id, version: string) {
    exists p | p in t :: IsVersion(t, p, w, version)
  }

  /** An insert needs a fresh id; otherwise it violates the primary key and the transaction is undone. */
  predicate Fails(t: Table, call: Call) {
    call.Upsert? && !HasVersion(t, call.workspace, call.version) && call.id in t
  }

  function Next(t: Table, call: Call): Table {
    if Fails(t, call) then t else
      match call
      case Upsert(w, version, payload, status, id, now) =>
        var u := if status.Active? then Deactivated(t, w) else t;
        var activatedAt := if status.Active? then Some(now) else None;
        if HasVersion(t, w, version) then
          map p | p in u ::
            if IsVersion(t, p, w, version)
            then u[p].(payload := payload, feedback := None, status := status, activatedAt := activatedAt,
                       rolledBackAt := None)
            else u[p]
        else
          u[id := Policy(w, version, payload, None, status, now, activatedAt, None)]
      case Activate(w, id, now) =>
        var u := Deactivated(t, w);
        if id in u && u[id].workspace == w
        then u[id := u[id].(status := Active, activatedAt := Some(now), rolledBackAt := None)]
        else u
      case Canary(w, id, critical, feedback, now) =>
        if id in t && t[id].workspace == w then
          var r := t[id].(feedback := Some(feedback));
          t[id := if critical then r.(status := RolledBack, rolledBackAt := Some(now)) else r]
        else t
  }

  /** The rows get_active_policy chooses from. */
  predicate IsActive(t: Table, w: Id, p: Id) {
    p in t && t[p].workspace == w && t[p].status.Active? && t[p].rolledBackAt.None?
  }

  /** ORDER BY activated_at DESC NULLS LAST, created_at DESC. */
  predicate Before(a: Policy, b: Policy) {
    match (a.activatedAt, b.activatedAt)
    case (Some(x), Some(y)) => x > y || (x == y && a.createdAt > b.createdAt)
    case (Some(_), None) => true
    case (None, Some(_)) => false
    case (None, None) => a.createdAt > b.createdAt
  }

  // ----- The store -----

  class Store {
    var table: Table

    constructor ()
      ensures table == map[]
    {
      table := map[];
    }

    method DeactivateActivePolicies(w: Id)
      modifies this
      ensures table == Deactivated(old(table), w)
    {
      table := map p | p in table ::
        if table[p].workspace == w && table[p].status.Active? then table[p].(status := Superseded) else table[p];
    }

    /** Returns false when the insert fails; then nothing has changed. */
    method UpsertPolicyVersion(w: Id, version: string, payload: string, status: Status, id: Id, now: Time)
      returns (ok: bool)
      modifies this
      ensures table == Next(old(table), Upsert(w, version, payload, status, id, now))
      ensures ok == !Fails(old(table), Upsert(w, version, payload, status, id, now))
    {
      var before := table;
      if status.Active? {
        DeactivateActivePolicies(w);
      }
      var activatedAt := if status.Active? then Some(now) else None;
      if HasVersion(before, w, version) {
        table := map p | p in table ::
          if IsVersion(before, p, w, version)
          then table[p].(payload := payload, feedback := None, status := status, activatedAt := activatedAt,
                         rolledBackAt := None)
          else table[p];
      } else if id in table {
        table := before;
        return false;
      } else {
        table := table[id := Policy(w, version, payload, None, status, now, activatedAt, None)];
      }
      return true;
    }

    /** Supersedes the active rows first, even when the id is unknown. */
    method ActivatePolicyVersion(w: Id, id: Id, now: Time) returns (found: bool)
      modifies this
      ensures table == Next(old(table), Activate(w, id, now))
      ensures found == (id in old(table) && old(table)[id].workspace == w)
    {
      DeactivateActivePolicies(w);
      found := id in table && table[id].workspace == w;
      if found {
        table := table[id := table[id].(status := Active, activatedAt := Some(now), rolledBackAt := None)];
      }
    }

    method RecordCanaryFeedback(w: Id, id: Id, critical: bool, feedback: string, now: Time) returns (found: bool)
      modifies this
      ensures table == Next(old(table), Canary(w, id, critical, feedback, now))
      ensures found == (id in old(table) && old(table)[id].workspace == w)
    {
      found := id in table && table[id].workspace == w;
      if found {
        var r := table[id].(feedback := Some(feedback));
        if critical {
          r := r.(status := RolledBack, rolledBackAt := Some(now));
        }
        table := table[id := r];
      }
    }

    /** The first active row in query order. */
    method GetActivePolicy(w: Id) returns (p: Option<Id>)
      ensures p.None? <==> forall q :: !IsActive(table, w, q)
      ensures p.Some? ==> IsActive(table, w, p.value)
                          && forall q :: IsActive(table, w, q) ==> !Before(table[q], table[p.value])
    {
      p := None;
      var todo := table.Keys;
      while todo != {}
        invariant todo <= table.Keys
        invariant p.None? <==> forall q | q in table.Keys - todo :: !IsActive(table, w, q)
        invariant p.Some? ==> p.value in table.Keys - todo && IsActive(table, w, p.value)
        invariant p.Some? ==> forall q | q in table.Keys - todo && IsActive(table, w, q) ::
                    !Before(table[q], table[p.value])
        decreases |todo|
      {
        var q :| q in todo;
        todo := todo - {q};
        if IsActive(table, w, q) && (p.None? || Before(table[q], table[p.value])) {
          p := Some(q);
        }
      }
    }
  }

  // ----- Invariants of every run -----

  /** The table after a run of calls on an empty store. */
  function After(calls: seq<Call>): Table {
    if calls == [] then map[] else Next(After(calls[..|calls| - 1]), calls[|calls| - 1])
  }

  ghost predicate VersionsUnique(t: Table) {
    forall p, q | p in t && q in t && t[p].workspace == t[q].workspace && t[p].version == t[q].version :: p == q
  }

  ghost predicate AtMostOneActive(t: Table) {
    forall p, q | p in t && q in t && t[p].workspace == t[q].workspace
               && t[p].status.Active? && t[q].status.Active? :: p == q
  }

  ghost predicate RolledBackIsMarked(t: Table) {
    forall p | p in t && t[p].rolledBackAt.Some? :: t[p].status.RolledBack?
  }

  ghost predicate Consistent(t: Table) {
    VersionsUnique(t) && AtMostOneActive(t) && RolledBackIsMarked(t)
  }

  lemma NextConsistent(t: Table, call: Call)
    requires Consistent(t)
    ensures Consistent(Next(t, call))
  {
    hide VersionsUnique, AtMostOneActive, RolledBackIsMarked, Next;
    NextVersions(t, call);
    NextOneActive(t, call);
    NextMarked(t, call);
  }

  /** Rows keep their workspace and version, and only a first upsert of a version adds one. */
  lemma NamesKept(t: Table, call: Call)
    ensures forall p | p in t ::
              && p in Next(t, call) && Next(t, call)[p].workspace == t[p].workspace
              && Next(t, call)[p].version == t[p].version
    ensures forall p | p in Next(t, call) && p !in t ::
              && call.Upsert? && p == call.id && !HasVersion(t, call.workspace, call.version)
              && Next(t, call)[p].workspace == call.workspace && Next(t, call)[p].version == call.version
  {
    hide HasVersion;
  }

  lemma NextVersions(t: Table, call: Call)
    requires VersionsUnique(t)
    ensures VersionsUnique(Next(t, call))
  {
    hide Next;
    NamesKept(t, call);
    forall p | p in t && call.Upsert? && t[p].workspace == call.workspace && t[p].version == call.version
      ensures HasVersion(t, call.workspace, call.version)
    {
      assert IsVersion(t, p, call.workspace, call.version);
    }
  }

  lemma NextOneActive(t: Table, call: Call)
    requires Consistent(t)
    ensures AtMostOneActive(Next(t, call))
  {
    hide RolledBackIsMarked;
  }

  lemma NextMarked(t: Table, call: Call)
    requires RolledBackIsMarked(t)
    ensures RolledBackIsMarked(Next(t, call))
  {
    hide HasVersion;
  }

  lemma {:induction false} RunsAreConsistent(calls: seq<Call>)
    ensures Consistent(After(calls))
  {
    hide Next;
    if calls != [] {
      RunsAreConsistent(calls[..|calls| - 1]);
      NextConsistent(After(calls[..|calls| - 1]), calls[|calls| - 1]);
    }
  }

  // ----- The active policy by history -----

  /** An activation call: by activate, for a known id or not, or by an upsert as active that succeeds. */
  predicate IsActivationCall(t: Table, call: Call, w: Id) {
    call.workspace == w && (call.Activate? || (call.Upsert? && call.status.Active? && !Fails(t, call)))
  }

  /** The call makes p the active policy. */
  predicate Activates(t: Table, call: Call, w: Id, p: Id) {
    && IsActivationCall(t, call, w)
    && match call
       case Activate(_, id, _) => id == p && p in t && t[p].workspace == w
       case Upsert(_, version, _, _, id, _) =>
         if HasVersion(t, w, version) then IsVersion(t, p, w, version) else p == id
       case _ => false
  }

  /** The call ends p's time as the active policy. */
  predicate Displaces(t: Table, call: Call, w: Id, p: Id) {
    || (IsActivationCall(t, call, w) && !Activates(t, call, w, p))
    || (call.Upsert? && !call.status.Active? && IsVersion(t, p, call.workspace, call.version) && call.workspace == w)
    || (call.Canary? && call.critical && call.workspace == w && call.id == p)
  }

  lemma NextActive(t: Table, call: Call, w: Id, p: Id)
    requires Consistent(t)
    ensures IsActive(Next(t, call), w, p)
       <==> Activates(t, call, w, p) || (IsActive(t, w, p) && !Displaces(t, call, w, p))
  {
  }

  /** Some call of the run activated p and no later one displaced it. */
  ghost predicate ActivatedAndKept(calls: seq<Call>, w: Id, p: Id) {
    exists i | 0 <= i < |calls| ::
      Activates(After(calls[..i]), calls[i], w, p)
      && forall j | i < j < |calls| :: !Displaces(After(calls[..j]), calls[j], w, p)
  }

  lemma {:induction false} KeptSnoc(calls: seq<Call>, call: Call, w: Id, p: Id)
    ensures ActivatedAndKept(calls + [call], w, p)
       <==> Activates(After(calls), call, w, p)
            || (ActivatedAndKept(calls, w, p) && !Displaces(After(calls), call, w, p))
  {
    hide Activates, Displaces, After;
    var all := calls + [call];
    assert all[..|calls|] == calls && all[|calls|] == call;
    assert forall k | 0 <= k < |calls| :: all[..k] == calls[..k] && all[k] == calls[k];
    if Activates(After(calls), call, w, p) {
      assert Activates(After(all[..|calls|]), all[|calls|], w, p);
    }
    if ActivatedAndKept(calls, w, p) && !Displaces(After(calls), call, w, p) {
      var i :| 0 <= i < |calls| && Activates(After(calls[..i]), calls[i], w, p)
            && forall j | i < j < |calls| :: !Displaces(After(calls[..j]), calls[j], w, p);
      assert Activates(After(all[..i]), all[i], w, p);
    }
    if ActivatedAndKept(all, w, p) && !Activates(After(calls), call, w, p) {
      var i :| 0 <= i < |all| && Activates(After(all[..i]), all[i], w, p)
            && forall j | i < j < |all| :: !Displaces(After(all[..j]), all[j], w, p);
      assert !Displaces(After(all[..|calls|]), all[|calls|], w, p);
      assert Activates(After(calls[..i]), calls[i], w, p);
    }
  }

  /**
   Over every run: a policy is the active one exactly when some call activated it and no later call
   displaced it, and it is then the only one.
   */
  lemma {:induction false} ActiveByHistory(calls: seq<Call>, w: Id, p: Id)
    ensures IsActive(After(calls), w, p) <==> ActivatedAndKept(calls, w, p)
    ensures IsActive(After(calls), w, p) ==> forall q | IsActive(After(calls), w, q) :: q == p
  {
    hide Next, Activates, Displaces, ActivatedAndKept, IsActive;
    RunsAreConsistent(calls);
    if calls == [] {
      NothingActive(w, p);
    } else {
      var front, last := calls[..|calls| - 1], calls[|calls| - 1];
      assert calls == front + [last];
      RunsAreConsistent(front);
      ActiveByHistory(front, w, p);
      NextActive(After(front), last, w, p);
      KeptSnoc(front, last, w, p);
    }
    OnlyOne(After(calls), w, p);
  }

  lemma NothingActive(w: Id, p: Id)
    ensures !IsActive(After([]), w, p) && !ActivatedAndKept([], w, p)
  {
  }

  lemma OnlyOne(t: Table, w: Id, p: Id)
    requires Consistent(t)
    ensures IsActive(t, w, p) ==> forall q | IsActive(t, w, q) :: q == p
  {
  }

  // ----- What the calls write -----

  /** A row as a call leaves it, when the call is not about it: an activation supersedes the active ones. */
  predicate Bystander(was: Policy, now: Policy, superseded: bool) {
    now == if superseded && was.status.Active? then was.(status := Superseded) else was
  }

  /** The row of the version after an upsert. */
  predicate Upserted(now: Policy, call: Call, createdAt: Time)
    requires call.Upsert?
  {
    && now.payload == call.payload && now.status == call.status && now.createdAt == createdAt
    && now.feedback == None && now.rolledBackAt == None
    && now.activatedAt == if call.status.Active? then Some(call.now) else None
  }

  /** An upsert gives the version its payload and status, without feedback or rollback. */
  lemma UpsertMeans(t: Table, call: Call)
    requires call.Upsert? && !Fails(t, call) && VersionsUnique(t)
    ensures exists p | p in Next(t, call) ::
              && IsVersion(Next(t, call), p, call.workspace, call.version)
              && Upserted(Next(t, call)[p], call, if p in t then t[p].createdAt else call.now)
              && Next(t, call).Keys == t.Keys + {p}
              && forall q | q in t && q != p ::
                   Bystander(t[q], Next(t, call)[q], call.status.Active? && t[q].workspace == call.workspace)
  {
    if p :| p in t && IsVersion(t, p, call.workspace, call.version) {
      assert HasVersion(t, call.workspace, call.version);
      assert forall q | q in t && q != p :: !IsVersion(t, q, call.workspace, call.version);
      assert Next(t, call).Keys == t.Keys + {p};
    } else {
      assert !HasVersion(t, call.workspace, call.version);
      assert call.id in Next(t, call);
    }
  }

  /** Activation touches the status and the two times of one row; canary feedback rolls back when critical. */
  lemma OtherCallsMean(t: Table, call: Call)
    requires !call.Upsert?
    ensures Next(t, call).Keys == t.Keys
    ensures forall q | q in t :: var was, now := t[q], Next(t, call)[q];
              if q == call.id && was.workspace == call.workspace then
                if call.Activate? then
                  now == was.(status := Active, activatedAt := Some(call.now), rolledBackAt := None)
                else
                  && now == was.(feedback := Some(call.feedback), status := now.status,
                              rolledBackAt := now.rolledBackAt)
                  && now.status == (if call.critical then RolledBack else was.status)
                  && now.rolledBackAt == (if call.critical then Some(call.now) else was.rolledBackAt)
              else Bystander(was, now, call.Activate? && was.workspace == call.workspace)
  {
  }
}

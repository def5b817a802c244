/**
 Runs of whole transactions of the contract store, and what becomes of drift probes when two checks of one
 contract overlap (sidecar/autoskill/db/contracts.py).
 */
module DriftHistory {
  import opened Wrappers
  import opened DriftContracts

  // ----- Transactions one after the other -----

  /** A transaction of the store: one call, or a batch of checks on the rows as they are when it starts. */
  datatype Transaction = Single(call: Call) | CheckBatch(outcomes: seq<Outcome>)

  predicate MayRun(db: Db, t: Transaction) {
    match t
    case Single(call) => Enabled(db, call) && !call.Check? && !call.Clear? && !call.Write?
    case CheckBatch(outcomes) => Batch(db, outcomes)
  }

  /** The calls of one transaction. */
  function CallsOf(db: Db, t: Transaction): (calls: seq<Call>)
    requires MayRun(db, t)
    ensures Possible(db, calls) && forall c :: OwnCurrent(db, calls, c)
  {
    match t
    case Single(call) =>
      OneCall(db, call);
      [call]
    case CheckBatch(outcomes) =>
      BatchSettles(db, outcomes);
      Checks(db.contracts, outcomes)
  }

  lemma OneCall(db: Db, call: Call)
    requires Enabled(db, call) && !call.Check? && !call.Write?
    ensures Possible(db, [call]) && forall c :: OwnCurrent(db, [call], c)
  {
    hide Next, Enabled;
    assert [call][1..] == [];
  }

  predicate MayRunAll(db: Db, ts: seq<Transaction>)
    decreases |ts|
  {
    ts != [] ==> MayRun(db, ts[0]) && MayRunAll(Run(db, CallsOf(db, ts[0])), ts[1..])
  }

  function AllCalls(db: Db, ts: seq<Transaction>): seq<Call>
    requires MayRunAll(db, ts)
    decreases |ts|
  {
    if ts == [] then [] else
      var calls := CallsOf(db, ts[0]);
      calls + AllCalls(Run(db, calls), ts[1..])
  }

  lemma {:induction false} RunAppend(db: Db, a: seq<Call>, b: seq<Call>)
    requires Possible(db, a) && Possible(Run(db, a), b)
    ensures Possible(db, a + b) && Run(db, a + b) == Run(Run(db, a), b)
    ensures forall c :: OwnCurrent(db, a + b, c) <==> OwnCurrent(db, a, c) && OwnCurrent(Run(db, a), b, c)
    decreases |a|
  {
    hide Next, Enabled, Current;
    if a == [] {
      assert a + b == b;
    } else {
      assert (a + b)[1..] == a[1..] + b;
      RunAppend(Next(db, a[0]), a[1..], b);
    }
  }

  lemma {:induction false} TransactionsAreCurrent(db: Db, ts: seq<Transaction>)
    requires MayRunAll(db, ts)
    ensures Possible(db, AllCalls(db, ts)) && forall c :: OwnCurrent(db, AllCalls(db, ts), c)
    decreases |ts|
  {
    hide Possible, Run, OwnCurrent, CallsOf, MayRun;
    if ts == [] {
      NoCalls(db);
    } else {
      var calls := CallsOf(db, ts[0]);
      TransactionsAreCurrent(Run(db, calls), ts[1..]);
      RunAppend(db, calls, AllCalls(Run(db, calls), ts[1..]));
    }
  }

  lemma NoCalls(db: Db)
    ensures Possible(db, []) && Run(db, []) == db && forall c :: OwnCurrent(db, [], c)
  {
  }

  /**
   Transactions one after the other, in any order: a contract is a false positive exactly when it was one at
   the start or has been marked since.
   */
  lemma MarkedStaysMarked(db: Db, ts: seq<Transaction>, c: Id)
    requires MayRunAll(db, ts) && c in db.contracts
    requires db.contracts[c].marked ==> db.contracts[c].status.FalsePositive?
    ensures Possible(db, AllCalls(db, ts))
    ensures var calls := AllCalls(db, ts);
            && c in Run(db, calls).contracts
            && (IsFalsePositive(Run(db, calls).contracts[c])
                <==> IsFalsePositive(db.contracts[c]) || Single(Mark(c)) in ts)
  {
    hide Possible, Run, OwnCurrent, AllCalls, MayRunAll;
    TransactionsAreCurrent(db, ts);
    FalsePositiveWhenMarked(db, AllCalls(db, ts), c);
    MarksAreTransactions(db, ts, c);
  }

  lemma {:induction false} MarksAreTransactions(db: Db, ts: seq<Transaction>, c: Id)
    requires MayRunAll(db, ts)
    ensures Mark(c) in AllCalls(db, ts) <==> Single(Mark(c)) in ts
    decreases |ts|
  {
    hide Run, Batch, Enabled;
    if ts != [] {
      var calls := CallsOf(db, ts[0]);
      MarksAreTransactions(Run(db, calls), ts[1..], c);
      assert ts == [ts[0]] + ts[1..];
      assert Mark(c) in calls <==> ts[0] == Single(Mark(c));
    }
  }

  // ----- Probes when checks overlap -----

  predicate HasActive(probes: map<ProbeSpec, bool>, c: Id) {
    exists p | p in probes :: probes[p] && p.contract == c
  }

  predicate Settled(s: Status) {
    s.Valid? || s.FalsePositive?
  }

  /** The call finds the contract violated, and so activates a probe of it. */
  predicate Activates(call: Call, c: Id) {
    call.Check? && call.outcome.contract == c && call.outcome.verdict.Violated? && !IsFalsePositive(call.seen)
  }

  /** The call retires the probes of the contract. */
  predicate Retires(call: Call, c: Id) {
    || call == Mark(c)
    || (call.Clear? && call.outcome.contract == c)
    || (call.Check? && call.outcome.contract == c && Settles(call.outcome, call.seen))
  }

  /** The call writes a status with which no probe should be active. */
  predicate WritesSettled(call: Call, c: Id) {
    call == Mark(c) || (WritesCheck(call, c) && Settles(call.outcome, call.seen))
  }

  predicate WritesUnsettled(call: Call, c: Id) {
    WritesCheck(call, c) && !Settles(call.outcome, call.seen)
  }

  lemma ActiveAfter(db: Db, call: Call, c: Id)
    requires Enabled(db, call) && c in db.contracts
    ensures HasActive(Next(db, call).probes, c)
       <==> Activates(call, c) || (HasActive(db.probes, c) && !Retires(call, c))
  {
    hide Declared, Extracted, Closed;
    if call.Check? {
      CheckActive(db, call.outcome, call.seen, c);
    }
  }

  lemma CheckActive(db: Db, o: Outcome, seen: Contract, c: Id)
    requires o.contract in db.contracts && o.event !in db.events
    ensures HasActive(Checked(db, o, seen).probes, c)
       <==> Activates(Check(o, seen), c) || (HasActive(db.probes, c) && !Retires(Check(o, seen), c))
  {
    hide Closed;
    var next := Checked(db, o, seen).probes;
    if HasActive(db.probes, c) && !Retires(Check(o, seen), c) {
      var p :| p in db.probes && db.probes[p] && p.contract == c;
      assert p in next && next[p];
    }
    if Activates(Check(o, seen), c) {
      assert next[SpecOf(c, seen, o.reason)];
    }
  }

  lemma SettledAfter(db: Db, call: Call, c: Id)
    requires Enabled(db, call) && c in db.contracts
    ensures c in Next(db, call).contracts
    ensures Settled(Next(db, call).contracts[c].status)
       <==> WritesSettled(call, c) || (Settled(db.contracts[c].status) && !WritesUnsettled(call, c))
  {
    hide Declared, Closed, Retired;
  }

  /** Some call activated a probe of the contract, and none since retired it. */
  ghost predicate ActiveStands(calls: seq<Call>, c: Id, start: bool) {
    Stands(calls, (call: Call) => Activates(call, c), (call: Call) => Retires(call, c), start)
  }

  /** The last check or mark of the contract to write its status settled it. */
  ghost predicate SettledStands(calls: seq<Call>, c: Id, start: bool) {
    Stands(calls, (call: Call) => WritesSettled(call, c), (call: Call) => WritesUnsettled(call, c), start)
  }

  lemma StandsStep(call: Call, calls: seq<Call>, c: Id, start: bool)
    ensures ActiveStands([call] + calls, c, start)
       <==> ActiveStands(calls, c, Activates(call, c) || (start && !Retires(call, c)))
    ensures SettledStands([call] + calls, c, start)
       <==> SettledStands(calls, c, WritesSettled(call, c) || (start && !WritesUnsettled(call, c)))
  {
    hide Stands;
    StandsCons(call, calls, (call: Call) => Activates(call, c), (call: Call) => Retires(call, c), start);
    StandsCons(call, calls, (call: Call) => WritesSettled(call, c), (call: Call) => WritesUnsettled(call, c), start);
  }

  lemma NothingStandsHere(c: Id, start: bool)
    ensures ActiveStands([], c, start) == start && SettledStands([], c, start) == start
  {
  }

  /** The invariant of probes, for one contract. */
  predicate Agrees(db: Db, c: Id)
    requires c in db.contracts
  {
    HasActive(db.probes, c) ==> !Settled(db.contracts[c].status)
  }

  /**
   Over every run, the halves of overlapping checks included: a contract has an active probe exactly when a
   violation activated one and nothing since retired it, its status is settled exactly when the last write
   settled it, and so the two disagree exactly when both stand.
   */
  lemma {:induction false} ProbesByHistory(db: Db, calls: seq<Call>, c: Id)
    requires Possible(db, calls) && c in db.contracts
    ensures c in Run(db, calls).contracts
    ensures var now := Run(db, calls);
            var active := ActiveStands(calls, c, HasActive(db.probes, c));
            var settled := SettledStands(calls, c, Settled(db.contracts[c].status));
            && (HasActive(now.probes, c) <==> active)
            && (Settled(now.contracts[c].status) <==> settled)
            && (Agrees(now, c) <==> !(active && settled))
    decreases |calls|
  {
    hide Next, Enabled, ActiveStands, SettledStands, HasActive, Settled, Activates, Retires, WritesSettled,
         WritesUnsettled;
    if calls == [] {
      NothingStandsHere(c, HasActive(db.probes, c));
      NothingStandsHere(c, Settled(db.contracts[c].status));
    } else {
      var call, rest := calls[0], calls[1..];
      assert calls == [call] + rest;
      ActiveAfter(db, call, c);
      SettledAfter(db, call, c);
      StandsStep(call, rest, c, HasActive(db.probes, c));
      StandsStep(call, rest, c, Settled(db.contracts[c].status));
      ProbesByHistory(Next(db, call), rest, c);
    }
  }

  /**
   An overlap that breaks the invariant: one check finds the contract valid and retires its probes, another
   finds it violated and is done, and then the first writes valid. It can happen to every contract that is no
   false positive.
   */
  lemma OverlapBreaksAgreement(db: Db, c: Id, valid: Outcome, violated: Outcome)
    requires c in db.contracts && !IsFalsePositive(db.contracts[c])
    requires valid.contract == c && valid.verdict.Valid?
    requires violated.contract == c && violated.verdict.Violated? && violated.event !in db.events
    ensures var seen := db.contracts[c];
            var calls := [Clear(valid, seen), Check(violated, seen), Write(valid, seen)];
            && Possible(db, calls)
            && c in Run(db, calls).contracts && !Agrees(Run(db, calls), c) && !ProbesAgree(Run(db, calls))
  {
    hide Retired, Closed;
    var seen := db.contracts[c];
    var a, b, d := Clear(valid, seen), Check(violated, seen), Write(valid, seen);
    var one := Cleared(db, valid, seen);
    var two := Checked(one, violated, seen);
    var three := Written(two, valid, seen);
    assert three.probes[SpecOf(c, seen, violated.reason)];
    assert [a, b, d][1..] == [b, d] && [b, d][1..] == [d] && [d][1..] == [];
    assert Next(db, a) == one && Next(one, b) == two && Next(two, d) == three;
    assert Possible(three, []) && Run(three, []) == three;
    assert Possible(two, [d]) && Run(two, [d]) == three;
    assert Possible(one, [b, d]) && Run(one, [b, d]) == three;
  }

  // ----- What the calls write -----

  /** A check that finds a violation opens an event with its reason, and activates a probe with the row's contents. */
  lemma ViolationMeans(db: Db, o: Outcome, seen: Contract)
    requires Enabled(db, Check(o, seen)) && !IsFalsePositive(seen) && o.verdict.Violated?
    ensures var next := Next(db, Check(o, seen));
            && o.contract in next.contracts && o.event in next.events
            && next.contracts[o.contract].status.Violated?
            && next.contracts[o.contract].lastReason == Some(o.reason)
            && next.events[o.event].contract == o.contract && next.events[o.event].status == Open
            && next.events[o.event].reason == o.reason
            && next.events.Keys == db.events.Keys + {o.event}
            && (forall e | e in db.events :: next.events[e] == db.events[e])
            && exists p | p in next.probes ::
                 && next.probes[p] && next.events[o.event].probe == p && p.contract == o.contract
                 && p.versionId == seen.versionId && p.name == seen.name && p.kind == seen.kind
                 && p.expectation == seen.expectation && p.validation == seen.validation
                 && p.reason == o.reason && p.probe == seen.probe
  {
    assert SpecOf(o.contract, seen, o.reason) in Next(db, Check(o, seen)).probes;
  }

  /** A check that finds none writes its verdict and its reason; a false positive keeps the operator's. */
  lemma VerdictMeans(db: Db, o: Outcome, seen: Contract)
    requires Enabled(db, Check(o, seen))
    ensures var next := Next(db, Check(o, seen));
            && o.contract in next.contracts
            && var now := next.contracts[o.contract];
               && now == db.contracts[o.contract].(status := now.status, lastReason := now.lastReason)
               && now.status == (if IsFalsePositive(seen) then FalsePositive else o.verdict)
               && now.lastReason
                  == Some(if IsFalsePositive(seen) then "operator-marked false positive" else o.reason)
  {
  }

  /** Extraction overwrites what the SkillIR declares and nothing else; a new contract starts unknown. */
  lemma ExtractionMeans(db: Db, item: Item, id: Id)
    requires Enabled(db, Extract(item, id)) && KeysUnique(db.contracts)
    ensures var next := Next(db, Extract(item, id)).contracts;
            exists c | c in next ::
              && SameKey(next[c], item)
              && next[c].kind == item.kind && next[c].validation == item.validation
              && next[c].severity == item.severity && next[c].probe == item.probe
              && !next[c].marked && next[c].lastReason == None
              && (forall d | d in db.contracts && d != c :: d in next && next[d] == db.contracts[d])
              && next.Keys == db.contracts.Keys + {c}
              && if c in db.contracts then next[c].status == db.contracts[c].status
                 else c == id && next[c].status.Unknown?
  {
    var next := Next(db, Extract(item, id)).contracts;
    if c :| c in db.contracts && SameKey(db.contracts[c], item) {
      Declares(db.contracts, item, c);
      assert next[c] == Refreshed(db.contracts[c], item);
      assert forall d | d in db.contracts && d != c :: !SameKey(db.contracts[d], item);
      assert next.Keys == db.contracts.Keys + {c};
    } else {
      assert !Declared(db.contracts, item);
      assert next == db.contracts[id := Fresh(item)];
    }
  }
}

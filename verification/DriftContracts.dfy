/**
 Environment contracts, drift probes and drift events (sidecar/autoskill/db/contracts.py,
 AsyncpgContractStore): what extraction, drift checks, false-positive marks and repairs make of the three
 tables in any order.
 */
module DriftContracts {
  import opened Wrappers

  type Id = nat

  datatype Status = Unknown | Valid | Violated | FalsePositive

  /** What the probe of a contract can report. */
  type Verdict = s: Status | !s.FalsePositive? witness Unknown

  /** A row; `marked`, `probe` and `lastReason` are the metadata keys false_positive, probe and last_reason. */
  datatype Contract = Contract(versionId: Id, name: string, expectation: string, kind: string,
                               validation: string, severity: string, status: Status,
                               marked: bool, probe: Option<string>, lastReason: Option<string>)

  /** A contract as a SkillIR declares it. */
  datatype Item = Item(versionId: Id, name: string, expectation: string, kind: string,
                       validation: string, severity: string, probe: Option<string>)

  /** The contents a drift probe's hash is taken of. */
  datatype ProbeSpec = ProbeSpec(contract: Id, versionId: Id, name: string, kind: string, expectation: string,
                                 validation: string, reason: string, probe: Option<string>)

  datatype EventStatus = Open | Repairing | RepairQueued | MarkedFalsePositive | Other(name: string)

  datatype Event = Event(contract: Id, status: EventStatus, reason: string, probe: ProbeSpec)

  /** The tables; a drift probe is in its table once it was created, and mapped to whether it is active. */
  datatype Db = Db(contracts: map<Id, Contract>, probes: map<ProbeSpec, bool>, events: map<Id, Event>)

  /** What checking a contract reports, and the id of the event it may open. */
  datatype Outcome = Outcome(contract: Id, verdict: Verdict, reason: string, event: Id)

  /**
   One row's worth of work of the store; a check acts on the row as it was `seen` when the batch was read. A
   check that settles the contract is also there in two halves, Clear and Write, for checks that overlap: it
   takes the contract's lock only with the second.
   */
  datatype Call =
    | Extract(item: Item, id: Id)
    | Check(outcome: Outcome, seen: Contract)
    | Clear(outcome: Outcome, seen: Contract)
    | Write(outcome: Outcome, seen: Contract)
    | Mark(contract: Id)
    | Claim(events: set<Id>)
    | Complete(event: Id, status: EventStatus)

  const OPERATOR_REASON := "operator-marked false positive"
  const EMPTY := Db(map[], map[], map[])

  // ----- What each call makes of the tables -----

  predicate IsFalsePositive(c: Contract) {
    c.marked || c.status.FalsePositive?
  }

  predicate SameKey(c: Contract, item: Item) {
    c.versionId == item.versionId && c.name == item.name && c.expectation == item.expectation
  }

  predicate Declared(contracts: map<Id, Contract>, item: Item) {
    exists c | c in contracts :: SameKey(contracts[c], item)
  }

  /** Extraction replaces the metadata, so it drops the false-positive marker; the status it keeps. */
  function Refreshed(c: Contract, item: Item): Contract {
    c.(kind := item.kind, validation := item.validation, severity := item.severity,
       marked := false, probe := item.probe, lastReason := None)
  }

  function Fresh(item: Item): Contract {
    Contract(item.versionId, item.name, item.expectation, item.kind, item.validation, item.severity,
             Unknown, false, item.probe, None)
  }

  function Extracted(contracts: map<Id, Contract>, item: Item, id: Id): map<Id, Contract> {
    if Declared(contracts, item)
    then map c | c in contracts :: if SameKey(contracts[c], item) then Refreshed(contracts[c], item) else contracts[c]
    else contracts[id := Fresh(item)]
  }

  function SpecOf(id: Id, c: Contract, reason: string): ProbeSpec {
    ProbeSpec(id, c.versionId, c.name, c.kind, c.expectation, c.validation, reason, c.probe)
  }

  function Retired(probes: map<ProbeSpec, bool>, c: Id): map<ProbeSpec, bool> {
    map p | p in probes :: probes[p] && p.contract != c
  }

  predicate Pending(e: Event) {
    e.status.Open? || e.status.Repairing? || e.status.RepairQueued?
  }

  function Closed(events: map<Id, Event>, c: Id): map<Id, Event> {
    map e | e in events ::
      if events[e].contract == c && Pending(events[e]) then events[e].(status := MarkedFalsePositive) else events[e]
  }

  function Checked(db: Db, o: Outcome, seen: Contract): Db
    requires o.contract in db.contracts
  {
    var c := o.contract;
    if IsFalsePositive(seen) then
      Db(db.contracts[c := db.contracts[c].(status := FalsePositive, lastReason := Some(OPERATOR_REASON))],
         Retired(db.probes, c), Closed(db.events, c))
    else
      var contracts := db.contracts[c := db.contracts[c].(status := o.verdict, lastReason := Some(o.reason))];
      match o.verdict
      case Valid => Db(contracts, Retired(db.probes, c), db.events)
      case Violated =>
        var spec := SpecOf(c, seen, o.reason);
        Db(contracts, db.probes[spec := true], db.events[o.event := Event(c, Open, o.reason, spec)])
      case _ => Db(contracts, db.probes, db.events)
  }

  /** The check finds the contract valid, or has read it as a false positive. */
  predicate Settles(o: Outcome, seen: Contract) {
    IsFalsePositive(seen) || o.verdict.Valid?
  }

  /** The first half of a settling check: probes and, for a false positive, events. */
  function Cleared(db: Db, o: Outcome, seen: Contract): Db {
    db.(probes := Retired(db.probes, o.contract),
        events := if IsFalsePositive(seen) then Closed(db.events, o.contract) else db.events)
  }

  /** The second half: the contract. */
  function Written(db: Db, o: Outcome, seen: Contract): Db
    requires o.contract in db.contracts
  {
    var c := db.contracts[o.contract];
    db.(contracts := db.contracts[o.contract :=
                       if IsFalsePositive(seen)
                       then c.(status := FalsePositive, lastReason := Some(OPERATOR_REASON))
                       else c.(status := o.verdict, lastReason := Some(o.reason))])
  }

  lemma CheckInHalves(db: Db, o: Outcome, seen: Contract)
    requires o.contract in db.contracts && Settles(o, seen)
    ensures Checked(db, o, seen) == Written(Cleared(db, o, seen), o, seen)
  {
  }

  function Marked(db: Db, c: Id): Db {
    if c !in db.contracts then db else
      Db(db.contracts[c := db.contracts[c].(status := FalsePositive, marked := true,
                                            lastReason := Some(OPERATOR_REASON))],
         Retired(db.probes, c), Closed(db.events, c))
  }

  function Claimed(events: map<Id, Event>, chosen: set<Id>): map<Id, Event> {
    map e | e in events :: if e in chosen then events[e].(status := Repairing) else events[e]
  }

  function Next(db: Db, call: Call): Db
    requires Enabled(db, call)
  {
    match call
    case Extract(item, id) => db.(contracts := Extracted(db.contracts, item, id))
    case Check(o, seen) => Checked(db, o, seen)
    case Clear(o, seen) => Cleared(db, o, seen)
    case Write(o, seen) => Written(db, o, seen)
    case Mark(c) => Marked(db, c)
    case Claim(chosen) => db.(events := Claimed(db.events, chosen))
    case Complete(e, status) =>
      if e in db.events then db.(events := db.events[e := db.events[e].(status := status)]) else db
  }

  /** New ids are fresh, checked rows exist, and only open events are claimed. */
  predicate Enabled(db: Db, call: Call) {
    match call
    case Extract(_, id) => id !in db.contracts
    case Check(o, _) => o.contract in db.contracts && o.event !in db.events
    case Clear(o, seen) => o.contract in db.contracts && Settles(o, seen)
    case Write(o, seen) => o.contract in db.contracts && Settles(o, seen)
    case Claim(chosen) => forall e | e in chosen :: e in db.events && db.events[e].status.Open?
    case _ => true
  }

  /** The call writes the contract's row for a check. */
  predicate WritesCheck(call: Call, c: Id) {
    (call.Check? || call.Write?) && call.outcome.contract == c
  }

  /** A check of the contract writes its row as it was read, or at least after no mark that it has not seen. */
  predicate Timely(db: Db, call: Call, c: Id) {
    WritesCheck(call, c) && c in db.contracts && IsFalsePositive(db.contracts[c]) ==> IsFalsePositive(call.seen)
  }

  /** A check of the contract writes its row as it was read. */
  predicate Current(db: Db, call: Call, c: Id) {
    WritesCheck(call, c) && c in db.contracts ==> call.seen == db.contracts[c]
  }

  // ----- Runs -----

  predicate Possible(db: Db, calls: seq<Call>)
    decreases |calls|
  {
    calls != [] ==> Enabled(db, calls[0]) && Possible(Next(db, calls[0]), calls[1..])
  }

  function Run(db: Db, calls: seq<Call>): Db
    requires Possible(db, calls)
    decreases |calls|
  {
    if calls == [] then db else Run(Next(db, calls[0]), calls[1..])
  }

  /** Every check of the contract is timely, each in the state in which it writes. */
  predicate OwnTimely(db: Db, calls: seq<Call>, c: Id)
    requires Possible(db, calls)
    decreases |calls|
  {
    calls != [] ==> Timely(db, calls[0], c) && OwnTimely(Next(db, calls[0]), calls[1..], c)
  }

  /** Every check of the contract is current, each in the state in which it writes. */
  predicate OwnCurrent(db: Db, calls: seq<Call>, c: Id)
    requires Possible(db, calls)
    decreases |calls|
  {
    calls != [] ==> Current(db, calls[0], c) && OwnCurrent(Next(db, calls[0]), calls[1..], c)
  }

  lemma {:induction false} CurrentIsTimely(db: Db, calls: seq<Call>, c: Id)
    requires Possible(db, calls) && OwnCurrent(db, calls, c)
    ensures OwnTimely(db, calls, c)
    decreases |calls|
  {
    hide Next, Enabled;
    if calls != [] {
      CurrentIsTimely(Next(db, calls[0]), calls[1..], c);
    }
  }

  lemma {:induction false} RunSnoc(db: Db, calls: seq<Call>, call: Call)
    requires Possible(db, calls) && Enabled(Run(db, calls), call)
    ensures Possible(db, calls + [call]) && Run(db, calls + [call]) == Next(Run(db, calls), call)
    ensures forall c :: OwnCurrent(db, calls + [call], c)
                    <==> OwnCurrent(db, calls, c) && Current(Run(db, calls), call, c)
    decreases |calls|
  {
    hide Next, Enabled, Current;
    if calls == [] {
      assert [] + [call] == [call] && [call][1..] == [];
    } else {
      assert (calls + [call])[1..] == calls[1..] + [call];
      RunSnoc(Next(db, calls[0]), calls[1..], call);
    }
  }

  // ----- Invariants of every run -----

  /** An active drift probe belongs to a contract last found violated, or neither way. */
  predicate ProbesAgree(db: Db) {
    forall p | p in db.probes && db.probes[p] ::
      && p.contract in db.contracts
      && (db.contracts[p.contract].status.Violated? || db.contracts[p.contract].status.Unknown?)
  }

  predicate KeysUnique(contracts: map<Id, Contract>) {
    forall c, d | c in contracts && d in contracts
               && contracts[c].versionId == contracts[d].versionId && contracts[c].name == contracts[d].name
               && contracts[c].expectation == contracts[d].expectation :: c == d
  }

  lemma NextProbesAgree(db: Db, call: Call)
    requires Enabled(db, call) && !call.Write? && ProbesAgree(db)
    ensures ProbesAgree(Next(db, call))
  {
    hide Declared;
  }

  lemma NextKeysUnique(db: Db, call: Call)
    requires Enabled(db, call) && KeysUnique(db.contracts)
    ensures KeysUnique(Next(db, call).contracts)
  {
    if call.Extract? && !Declared(db.contracts, call.item) {
      assert forall c | c in db.contracts :: !SameKey(db.contracts[c], call.item);
    }
  }

  /**
   Whatever is extracted, checked (even on stale rows), marked, claimed and completed, in any order, as long as
   no other check of the same contract writes between the two halves of one.
   */
  lemma {:induction false} ProbesAgreeAlways(db: Db, calls: seq<Call>)
    requires Possible(db, calls) && ProbesAgree(db) && KeysUnique(db.contracts)
    requires forall i | 0 <= i < |calls| :: !calls[i].Write?
    ensures ProbesAgree(Run(db, calls)) && KeysUnique(Run(db, calls).contracts)
    decreases |calls|
  {
    hide ProbesAgree, KeysUnique, Next, Enabled;
    if calls != [] {
      NextProbesAgree(db, calls[0]);
      NextKeysUnique(db, calls[0]);
      ProbesAgreeAlways(Next(db, calls[0]), calls[1..]);
    }
  }

  // ----- False positives by history -----

  /** The call writes the false-positive status: a mark, or a check that saw a false positive. */
  predicate SaysFalsePositive(call: Call, c: Id) {
    || (call.Mark? && call.contract == c)
    || (WritesCheck(call, c) && IsFalsePositive(call.seen))
  }

  /** The call writes another status: a check that saw none. */
  predicate SaysOtherwise(call: Call, c: Id) {
    WritesCheck(call, c) && !IsFalsePositive(call.seen)
  }

  /** The call extracts the contract again and so drops its marker. */
  predicate DropsMarker(call: Call, key: Contract) {
    call.Extract? && SameKey(key, call.item)
  }

  /** What one call does to the two signs of a false positive; the contract keeps its key. */
  lemma SignsAfter(db: Db, call: Call, c: Id)
    requires Enabled(db, call) && c in db.contracts
    ensures c in Next(db, call).contracts
    ensures var was, now := db.contracts[c], Next(db, call).contracts[c];
            && now.versionId == was.versionId && now.name == was.name && now.expectation == was.expectation
            && (now.status.FalsePositive?
                <==> SaysFalsePositive(call, c) || (was.status.FalsePositive? && !SaysOtherwise(call, c)))
            && (now.marked <==> call == Mark(c) || (was.marked && !DropsMarker(call, was)))
  {
    hide Declared;
    if call.Extract? && SameKey(db.contracts[c], call.item) {
      assert Declared(db.contracts, call.item) by { Declares(db.contracts, call.item, c); }
    }
  }

  lemma Declares(contracts: map<Id, Contract>, item: Item, c: Id)
    requires c in contracts && SameKey(contracts[c], item)
    ensures Declared(contracts, item)
  {
  }

  /**
   One call makes a false positive none exactly when it is a check that read the row before it was marked,
   with the marker gone already, or an extraction of the contract, with the status gone already.
   */
  lemma OnlyStaleChecksForget(db: Db, call: Call, c: Id)
    requires Enabled(db, call) && c in db.contracts && IsFalsePositive(db.contracts[c])
    ensures c in Next(db, call).contracts
    ensures !IsFalsePositive(Next(db, call).contracts[c])
       <==> || (SaysOtherwise(call, c) && !db.contracts[c].marked)
            || (DropsMarker(call, db.contracts[c]) && !db.contracts[c].status.FalsePositive?)
  {
    hide Next, Enabled;
    SignsAfter(db, call, c);
  }

  /** Some call set the sign, or it was set at the start, and no later call cleared it. */
  ghost predicate Stands(calls: seq<Call>, sets: Call -> bool, clears: Call -> bool, start: bool) {
    || (exists i | 0 <= i < |calls| :: sets(calls[i]) && forall j | i < j < |calls| :: !clears(calls[j]))
    || (start && forall j | 0 <= j < |calls| :: !clears(calls[j]))
  }

  lemma StandsCons(call: Call, calls: seq<Call>, sets: Call -> bool, clears: Call -> bool, start: bool)
    ensures Stands([call] + calls, sets, clears, start)
       <==> Stands(calls, sets, clears, sets(call) || (start && !clears(call)))
  {
    hide Stands;
    var all := [call] + calls;
    assert all[0] == call && all[1..] == calls;
    if Stands(all, sets, clears, start) {
      StandsRest(all, sets, clears, start);
    }
    if Stands(all[1..], sets, clears, sets(all[0]) || (start && !clears(all[0]))) {
      StandsAll(all, sets, clears, start);
    }
  }

  lemma StandsRest(all: seq<Call>, sets: Call -> bool, clears: Call -> bool, start: bool)
    requires all != [] && Stands(all, sets, clears, start)
    ensures Stands(all[1..], sets, clears, sets(all[0]) || (start && !clears(all[0])))
  {
    var rest := all[1..];
    if i :| 0 <= i < |all| && sets(all[i]) && forall j | i < j < |all| :: !clears(all[j]) {
      forall j | 0 <= j < |rest| && i <= j
        ensures !clears(rest[j])
      {
        assert rest[j] == all[j + 1];
      }
      if i > 0 {
        assert sets(rest[i - 1]);
      }
    } else {
      forall j | 0 <= j < |rest|
        ensures !clears(rest[j])
      {
        assert rest[j] == all[j + 1];
      }
    }
  }

  lemma StandsAll(all: seq<Call>, sets: Call -> bool, clears: Call -> bool, start: bool)
    requires all != [] && Stands(all[1..], sets, clears, sets(all[0]) || (start && !clears(all[0])))
    ensures Stands(all, sets, clears, start)
  {
    var rest := all[1..];
    if i :| 0 <= i < |rest| && sets(rest[i]) && forall j | i < j < |rest| :: !clears(rest[j]) {
      forall j | i + 1 < j < |all|
        ensures !clears(all[j])
      {
        assert all[j] == rest[j - 1];
      }
      assert sets(all[i + 1]);
    } else {
      forall j | 0 < j < |all|
        ensures !clears(all[j])
      {
        assert all[j] == rest[j - 1];
      }
    }
  }

  /** The status: the last mark or check of the contract wrote it. */
  ghost predicate StatusStands(calls: seq<Call>, c: Id, start: bool) {
    Stands(calls, (call: Call) => SaysFalsePositive(call, c), (call: Call) => SaysOtherwise(call, c), start)
  }

  /** The marker: a mark without a later extraction of the contract. */
  ghost predicate MarkerStands(calls: seq<Call>, c: Id, key: Contract, start: bool) {
    Stands(calls, (call: Call) => call == Mark(c), (call: Call) => DropsMarker(call, key), start)
  }

  lemma StatusStandsCons(call: Call, calls: seq<Call>, c: Id, start: bool)
    ensures StatusStands([call] + calls, c, start)
       <==> StatusStands(calls, c, SaysFalsePositive(call, c) || (start && !SaysOtherwise(call, c)))
  {
    hide Stands;
    StandsCons(call, calls, (call: Call) => SaysFalsePositive(call, c), (call: Call) => SaysOtherwise(call, c), start);
  }

  lemma MarkerStandsCons(call: Call, calls: seq<Call>, c: Id, key: Contract, start: bool)
    ensures MarkerStands([call] + calls, c, key, start)
       <==> MarkerStands(calls, c, key, call == Mark(c) || (start && !DropsMarker(call, key)))
  {
    hide Stands;
    StandsCons(call, calls, (call: Call) => call == Mark(c), (call: Call) => DropsMarker(call, key), start);
  }

  lemma SameMarkerStands(calls: seq<Call>, c: Id, key: Contract, key': Contract, start: bool)
    requires key'.versionId == key.versionId && key'.name == key.name && key'.expectation == key.expectation
    ensures MarkerStands(calls, c, key', start) <==> MarkerStands(calls, c, key, start)
  {
  }

  /**
   Over every run, whatever its checks have read: the status is false positive exactly when the last mark or
   check of the contract wrote it, the marker is there exactly when no extraction came since the last mark,
   and the contract counts as a false positive exactly when either is so.
   */
  lemma {:induction false} FalsePositiveByHistory(db: Db, calls: seq<Call>, c: Id)
    requires Possible(db, calls) && c in db.contracts
    ensures c in Run(db, calls).contracts
    ensures var was, now := db.contracts[c], Run(db, calls).contracts[c];
            && (now.status.FalsePositive? <==> StatusStands(calls, c, was.status.FalsePositive?))
            && (now.marked <==> MarkerStands(calls, c, was, was.marked))
            && (IsFalsePositive(now) <==> StatusStands(calls, c, was.status.FalsePositive?)
                                          || MarkerStands(calls, c, was, was.marked))
    decreases |calls|
  {
    hide Next, Enabled, StatusStands, MarkerStands;
    var was := db.contracts[c];
    if calls == [] {
      NothingStands(c, was, was.status.FalsePositive?);
      NothingStands(c, was, was.marked);
    } else {
      var next, call, rest := Next(db, calls[0]), calls[0], calls[1..];
      assert calls == [call] + rest;
      SignsAfter(db, call, c);
      FalsePositiveByHistory(next, rest, c);
      StatusStandsCons(call, rest, c, was.status.FalsePositive?);
      MarkerStandsCons(call, rest, c, was, was.marked);
      SameMarkerStands(rest, c, was, next.contracts[c], next.contracts[c].marked);
    }
  }

  lemma NothingStands(c: Id, key: Contract, start: bool)
    ensures StatusStands([], c, start) == start && MarkerStands([], c, key, start) == start
  {
  }

  /** The same from a contract's creation: no sign is set then. */
  lemma FalsePositiveSinceCreation(db: Db, created: Db, item: Item, c: Id, calls: seq<Call>)
    requires Enabled(db, Extract(item, c)) && created == Next(db, Extract(item, c)) && c in created.contracts
    requires Possible(created, calls)
    ensures c in Run(created, calls).contracts
    ensures IsFalsePositive(Run(created, calls).contracts[c])
       <==> StatusStands(calls, c, false) || MarkerStands(calls, c, created.contracts[c], false)
  {
    hide Possible, Run, StatusStands, MarkerStands;
    assert created.contracts[c] == Fresh(item);
    FalsePositiveByHistory(created, calls, c);
  }

  /**
   A false-positive status outlasts every run in which the contract's own checks are timely, whatever else is
   extracted, checked and marked, and in whatever order.
   */
  lemma {:induction false} FalsePositiveForever(db: Db, calls: seq<Call>, c: Id)
    requires Possible(db, calls) && c in db.contracts && db.contracts[c].status.FalsePositive?
    requires OwnTimely(db, calls, c)
    ensures c in Run(db, calls).contracts && Run(db, calls).contracts[c].status.FalsePositive?
    decreases |calls|
  {
    hide Next, Enabled;
    if calls != [] {
      SignsAfter(db, calls[0], c);
      FalsePositiveForever(Next(db, calls[0]), calls[1..], c);
    }
  }

  /**
   When the contract's own checks act on current rows, it is a false positive exactly when it was one at the
   start or has been marked since, though extraction drops the marker; the marker never outlives the status.
   */
  lemma {:induction false} FalsePositiveWhenMarked(db: Db, calls: seq<Call>, c: Id)
    requires Possible(db, calls) && c in db.contracts && OwnCurrent(db, calls, c)
    requires db.contracts[c].marked ==> db.contracts[c].status.FalsePositive?
    ensures c in Run(db, calls).contracts
    ensures var now := Run(db, calls).contracts[c];
            && (IsFalsePositive(now) <==> IsFalsePositive(db.contracts[c]) || Mark(c) in calls)
            && (now.marked ==> now.status.FalsePositive?)
    decreases |calls|
  {
    hide Next, Enabled;
    if calls != [] {
      SignsAfter(db, calls[0], c);
      assert calls == [calls[0]] + calls[1..];
      FalsePositiveWhenMarked(Next(db, calls[0]), calls[1..], c);
    }
  }

  /**
   Without timeliness it fails: a contract is marked while a check of it is under way, the check writes
   its verdict, and the next extraction drops the marker. This happens to every contract not yet marked.
   */
  lemma StaleCheckForgets(db: Db, c: Id, o: Outcome, item: Item, id: Id)
    requires KeysUnique(db.contracts) && id !in db.contracts
    requires c in db.contracts && !IsFalsePositive(db.contracts[c]) && SameKey(db.contracts[c], item)
    requires o.contract == c && o.event !in db.events
    ensures var calls := [Mark(c), Check(o, db.contracts[c]), Extract(item, id)];
            Possible(db, calls) && !OwnTimely(db, calls, c)
            && c in Run(db, calls).contracts && !IsFalsePositive(Run(db, calls).contracts[c])
  {
    hide Retired, SpecOf;
    var seen := db.contracts[c];
    var marked, checked := Marked(db, c), Checked(Marked(db, c), o, seen);
    assert SameKey(checked.contracts[c], item);
    RunSnoc(db, [], Mark(c));
    RunSnoc(db, [Mark(c)], Check(o, seen));
    RunSnoc(db, [Mark(c), Check(o, seen)], Extract(item, id));
    assert [] + [Mark(c)] == [Mark(c)];
    assert [Mark(c)] + [Check(o, seen)] == [Mark(c), Check(o, seen)];
    assert [Mark(c), Check(o, seen)] + [Extract(item, id)] == [Mark(c), Check(o, seen), Extract(item, id)];
  }

  // ----- A batch of checks -----

  /** The checks of a batch: every row as it was read at the start. */
  function Checks(rows: map<Id, Contract>, outcomes: seq<Outcome>): (calls: seq<Call>)
    requires forall o | o in outcomes :: o.contract in rows
    ensures |calls| == |outcomes|
  {
    seq(|outcomes|, i requires 0 <= i < |outcomes| =>
      assert outcomes[i] in outcomes; Check(outcomes[i], rows[outcomes[i].contract]))
  }

  /** Distinct contracts that exist, and distinct fresh ids for events. */
  predicate Batch(db: Db, outcomes: seq<Outcome>) {
    && (forall i | 0 <= i < |outcomes| :: outcomes[i].contract in db.contracts && outcomes[i].event !in db.events)
    && (forall i, j | 0 <= i < j < |outcomes| ::
          outcomes[i].contract != outcomes[j].contract && outcomes[i].event != outcomes[j].event)
  }

  ghost predicate NoPending(events: map<Id, Event>, c: Id) {
    forall e | e in events && events[e].contract == c ::
      !events[e].status.Open? && !events[e].status.Repairing? && !events[e].status.RepairQueued?
  }

  lemma ChecksSnoc(rows: map<Id, Contract>, outcomes: seq<Outcome>, n: nat)
    requires n < |outcomes| && forall o | o in outcomes :: o.contract in rows
    ensures outcomes[n].contract in rows
    ensures Checks(rows, outcomes[..n + 1])
         == Checks(rows, outcomes[..n]) + [Check(outcomes[n], rows[outcomes[n].contract])]
  {
    assert outcomes[n] in outcomes;
    var some, more := outcomes[..n], outcomes[..n + 1];
    assert forall i | 0 <= i < n :: some[i] == more[i];
  }

  /** How far a batch has come after its first n checks. */
  ghost predicate Progress(before: Db, outcomes: seq<Outcome>, n: nat, db: Db)
    requires n <= |outcomes| && Batch(before, outcomes)
  {
    && db.contracts.Keys == before.contracts.Keys
    && (forall c | c in before.contracts && (forall i | 0 <= i < n :: outcomes[i].contract != c) ::
          db.contracts[c] == before.contracts[c])
    && (forall i | n <= i < |outcomes| :: outcomes[i].event !in db.events)
    && (forall i | 0 <= i < n ::
          var was := before.contracts[outcomes[i].contract];
          db.contracts[outcomes[i].contract].status
          == if IsFalsePositive(was) then FalsePositive else outcomes[i].verdict)
    && (forall i | 0 <= i < n && IsFalsePositive(before.contracts[outcomes[i].contract]) ::
          NoPending(db.events, outcomes[i].contract))
  }

  /** What one check does to its own contract, and that it leaves the others alone. */
  lemma CheckedFacts(db: Db, o: Outcome, seen: Contract)
    requires o.contract in db.contracts && o.event !in db.events
    ensures var next := Checked(db, o, seen);
            && next.contracts.Keys == db.contracts.Keys
            && (forall c | c in db.contracts && c != o.contract :: next.contracts[c] == db.contracts[c])
            && next.contracts[o.contract].status == (if IsFalsePositive(seen) then FalsePositive else o.verdict)
            && next.events.Keys <= db.events.Keys + {o.event}
            && (IsFalsePositive(seen) ==> NoPending(next.events, o.contract))
            && (forall c | c != o.contract && NoPending(db.events, c) :: NoPending(next.events, c))
  {
    hide SpecOf, Retired;
  }

  lemma ProgressStep(before: Db, outcomes: seq<Outcome>, n: nat, db: Db)
    requires n < |outcomes| && Batch(before, outcomes) && Progress(before, outcomes, n, db)
    ensures Enabled(db, Check(outcomes[n], before.contracts[outcomes[n].contract]))
    ensures forall c :: Current(db, Check(outcomes[n], before.contracts[outcomes[n].contract]), c)
    ensures Progress(before, outcomes, n + 1, Next(db, Check(outcomes[n], before.contracts[outcomes[n].contract])))
  {
    hide Checked, NoPending, Next, IsFalsePositive, Batch;
    DistinctBatch(before, outcomes, n);
    var o, seen := outcomes[n], before.contracts[outcomes[n].contract];
    assert db.contracts[o.contract] == seen;
    CheckedIsNext(db, o, seen);
    CheckedFacts(db, o, seen);
  }

  /** Outcome n shares neither its contract nor its event with another. */
  lemma DistinctBatch(db: Db, outcomes: seq<Outcome>, n: nat)
    requires n < |outcomes| && Batch(db, outcomes)
    ensures forall i | 0 <= i < |outcomes| :: outcomes[i].contract in db.contracts
    ensures forall i | 0 <= i < |outcomes| && i != n ::
              outcomes[i].contract != outcomes[n].contract && outcomes[i].event != outcomes[n].event
  {
  }

  lemma CheckedIsNext(db: Db, o: Outcome, seen: Contract)
    requires Enabled(db, Check(o, seen))
    ensures o.contract in db.contracts && o.event !in db.events
    ensures Next(db, Check(o, seen)) == Checked(db, o, seen)
  {
  }

  lemma {:induction false} BatchProgress(db: Db, outcomes: seq<Outcome>, n: nat)
    requires n <= |outcomes| && Batch(db, outcomes)
    ensures forall o | o in outcomes :: o.contract in db.contracts
    ensures var calls := Checks(db.contracts, outcomes[..n]);
            && Possible(db, calls) && (forall c :: OwnCurrent(db, calls, c))
            && Progress(db, outcomes, n, Run(db, calls))
  {
    hide Next, Enabled, Current, Progress;
    if n == 0 {
      assert Checks(db.contracts, outcomes[..0]) == [];
      ProgressStart(db, outcomes);
    } else {
      BatchProgress(db, outcomes, n - 1);
      ProgressStep(db, outcomes, n - 1, Run(db, Checks(db.contracts, outcomes[..n - 1])));
      ChecksSnoc(db.contracts, outcomes, n - 1);
      RunSnoc(db, Checks(db.contracts, outcomes[..n - 1]),
              Check(outcomes[n - 1], db.contracts[outcomes[n - 1].contract]));
    }
  }

  lemma ProgressStart(db: Db, outcomes: seq<Outcome>)
    requires Batch(db, outcomes)
    ensures Progress(db, outcomes, 0, db)
  {
  }

  /**
   A batch acts on current rows only; it leaves every checked contract with its verdict, or false positive
   when it was one, and no checked false positive with an open, repairing or queued event.
   */
  lemma BatchSettles(db: Db, outcomes: seq<Outcome>)
    requires Batch(db, outcomes)
    ensures forall o | o in outcomes :: o.contract in db.contracts
    ensures var calls := Checks(db.contracts, outcomes);
            && Possible(db, calls) && (forall c :: OwnCurrent(db, calls, c))
            && forall o | o in outcomes ::
                 var was, now := db.contracts[o.contract], Run(db, calls);
                 && o.contract in now.contracts
                 && now.contracts[o.contract].status == (if IsFalsePositive(was) then FalsePositive else o.verdict)
                 && (IsFalsePositive(was) ==> NoPending(now.events, o.contract))
  {
    hide Next, Enabled, Current, NoPending;
    BatchProgress(db, outcomes, |outcomes|);
    assert outcomes[..|outcomes|] == outcomes;
  }
}

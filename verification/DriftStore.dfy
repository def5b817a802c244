/**
 The contract store as the program runs it (sidecar/autoskill/db/contracts.py, AsyncpgContractStore): three
 tables, and batches that go row by row. Every operation is proved to be a run of the calls of DriftContracts.
 */
module DriftStore {
  import opened Wrappers
  import opened DriftContracts

  datatype CheckResult = CheckResult(scanned: nat, valid: nat, violated: nat, unknown: nat, falsePositive: nat,
                                     probesCreated: nat, probesRetired: nat, reported: seq<Id>)

  /** The status a check of the row leaves. */
  function Settled(rows: map<Id, Contract>, o: Outcome): Status
    requires o.contract in rows
  {
    if IsFalsePositive(rows[o.contract]) then FalsePositive else o.verdict
  }

  /** How many of the checks leave the given status. */
  function Count(rows: map<Id, Contract>, outcomes: seq<Outcome>, s: Status): nat
    requires forall o | o in outcomes :: o.contract in rows
  {
    if outcomes == [] then 0 else
      var last := outcomes[|outcomes| - 1];
      Count(rows, outcomes[..|outcomes| - 1], s) + if Settled(rows, last) == s then 1 else 0
  }

  /** The events the checks open, in order. */
  function Opened(rows: map<Id, Contract>, outcomes: seq<Outcome>): seq<Id>
    requires forall o | o in outcomes :: o.contract in rows
  {
    if outcomes == [] then [] else
      var last := outcomes[|outcomes| - 1];
      Opened(rows, outcomes[..|outcomes| - 1]) + if Settled(rows, last).Violated? then [last.event] else []
  }

  /** How many active probes the checks retire: those of the contracts left valid or false positive. */
  function RetiredCount(db: Db, outcomes: seq<Outcome>): nat
    requires forall o | o in outcomes :: o.contract in db.contracts
  {
    if outcomes == [] then 0 else
      var last := outcomes[|outcomes| - 1];
      var s := Settled(db.contracts, last);
      RetiredCount(db, outcomes[..|outcomes| - 1])
      + if s.Valid? || s.FalsePositive? then |ActiveProbes(db.probes, last.contract)| else 0
  }

  lemma RetiredSnoc(db: Db, outcomes: seq<Outcome>, n: nat)
    requires n < |outcomes| && forall o | o in outcomes :: o.contract in db.contracts
    ensures outcomes[n].contract in db.contracts
    ensures RetiredCount(db, outcomes[..n + 1])
         == RetiredCount(db, outcomes[..n])
            + var s := Settled(db.contracts, outcomes[n]);
              if s.Valid? || s.FalsePositive? then |ActiveProbes(db.probes, outcomes[n].contract)| else 0
  {
    hide ActiveProbes, Settled;
    assert outcomes[n] in outcomes;
    assert outcomes[..n + 1][..n] == outcomes[..n];
  }

  lemma CountSnoc(rows: map<Id, Contract>, outcomes: seq<Outcome>, n: nat)
    requires n < |outcomes| && forall o | o in outcomes :: o.contract in rows
    ensures outcomes[n].contract in rows
    ensures forall s :: Count(rows, outcomes[..n + 1], s)
                     == Count(rows, outcomes[..n], s) + if Settled(rows, outcomes[n]) == s then 1 else 0
    ensures Opened(rows, outcomes[..n + 1])
         == Opened(rows, outcomes[..n]) + if Settled(rows, outcomes[n]).Violated? then [outcomes[n].event] else []
  {
    assert outcomes[n] in outcomes;
    assert outcomes[..n + 1][..n] == outcomes[..n];
  }

  /** The contracts, one by one, that extraction writes. */
  function Extractions(items: seq<Item>, ids: seq<Id>): (calls: seq<Call>)
    requires |items| == |ids|
  {
    seq(|items|, i requires 0 <= i < |items| => Extract(items[i], ids[i]))
  }

  predicate FreshIds(contracts: map<Id, Contract>, ids: seq<Id>) {
    (forall i | 0 <= i < |ids| :: ids[i] !in contracts) && forall i, j | 0 <= i < j < |ids| :: ids[i] != ids[j]
  }

  function ActiveProbes(probes: map<ProbeSpec, bool>, c: Id): set<ProbeSpec> {
    set p | p in probes && probes[p] && p.contract == c
  }

  function PendingEvents(events: map<Id, Event>, c: Id): set<Id> {
    set e | e in events && events[e].contract == c && Pending(events[e])
  }

  class ContractStore {
    var contracts: map<Id, Contract>
    var probes: map<ProbeSpec, bool>
    var events: map<Id, Event>

    ghost function Contents(): Db
      reads this
    {
      Db(contracts, probes, events)
    }

    constructor ()
      ensures Contents() == EMPTY
      ensures ProbesAgree(Contents()) && KeysUnique(contracts)
    {
      contracts, probes, events := map[], map[], map[];
    }

    method RetireResolvedDriftProbes(c: Id) returns (count: nat)
      modifies this`probes
      ensures probes == Retired(old(probes), c)
      ensures count == |ActiveProbes(old(probes), c)|
    {
      count := |ActiveProbes(probes, c)|;
      probes := map p | p in probes :: if p.contract == c then false else probes[p];
    }

    method CloseFalsePositiveDriftEvents(c: Id) returns (count: nat)
      modifies this`events
      ensures events == Closed(old(events), c)
      ensures count == |PendingEvents(old(events), c)|
    {
      var pending := PendingEvents(events, c);
      events := map e | e in events :: if e in pending then events[e].(status := MarkedFalsePositive) else events[e];
      count := |pending|;
    }

    /** Inserts the probe, or makes it active again. */
    method UpsertDriftProbe(id: Id, row: Contract, reason: string) returns (spec: ProbeSpec, created: bool)
      modifies this`probes
      ensures spec == SpecOf(id, row, reason)
      ensures created == (spec !in old(probes))
      ensures probes == old(probes)[spec := true]
    {
      spec := ProbeSpec(id, row.versionId, row.name, row.kind, row.expectation, row.validation, reason, row.probe);
      created := spec !in probes;
      probes := probes[spec := true];
    }

    /** One turn of the checking loop, on the row as it was fetched. */
    method CheckRow(o: Outcome, row: Contract) returns (created: nat, retired: nat)
      requires o.contract in contracts && o.event !in events
      modifies this
      ensures Contents() == Checked(old(Contents()), o, row)
      ensures |probes| == |old(probes)| + created
      ensures |events| == |old(events)| + if !IsFalsePositive(row) && o.verdict.Violated? then 1 else 0
      ensures retired == if IsFalsePositive(row) || o.verdict.Valid? then |ActiveProbes(old(probes), o.contract)| else 0
    {
      var c := o.contract;
      ghost var before := Contents();
      created, retired := 0, 0;
      if IsFalsePositive(row) {
        retired := RetireResolvedDriftProbes(c);
        var _ := CloseFalsePositiveDriftEvents(c);
        contracts := contracts[c := contracts[c].(status := FalsePositive, lastReason := Some(OPERATOR_REASON))];
        SameSize(before.probes, probes);
        SameSize(before.events, events);
        return;
      }
      if o.verdict.Valid? {
        retired := RetireResolvedDriftProbes(c);
        SameSize(before.probes, probes);
      }
      contracts := contracts[c := contracts[c].(status := o.verdict, lastReason := Some(o.reason))];
      if o.verdict.Violated? {
        var spec, inserted := UpsertDriftProbe(c, row, o.reason);
        created := if inserted then 1 else 0;
        events := events[o.event := Event(c, Open, o.reason, spec)];
      }
    }

    /** The batch is the run of its checks on the rows read first; every number of the report adds up. */
    method RunDriftChecks(outcomes: seq<Outcome>) returns (r: CheckResult)
      requires Batch(Contents(), outcomes)
      modifies this
      ensures forall o | o in outcomes :: o.contract in old(contracts)
      ensures Possible(old(Contents()), Checks(old(contracts), outcomes))
      ensures Contents() == Run(old(Contents()), Checks(old(contracts), outcomes))
      ensures r.scanned == |outcomes| == r.valid + r.violated + r.unknown + r.falsePositive
      ensures r.valid == Count(old(contracts), outcomes, Valid)
      ensures r.violated == Count(old(contracts), outcomes, Violated)
      ensures r.unknown == Count(old(contracts), outcomes, Unknown)
      ensures r.falsePositive == Count(old(contracts), outcomes, FalsePositive)
      ensures r.reported == Opened(old(contracts), outcomes) && |r.reported| == r.violated
      ensures |probes| == |old(probes)| + r.probesCreated
      ensures r.probesRetired == RetiredCount(old(Contents()), outcomes)
      ensures |events| == |old(events)| + r.violated
    {
      hide Checked, Next, Enabled, Current, Progress, Possible, Run, OwnCurrent, Checks, Batch, ActiveProbes,
           Count, Opened, RetiredCount;
      var rows := contracts;
      ghost var before := Contents();
      BatchProgress(before, outcomes, 0);
      RunOfNothing(before, rows, outcomes);
      NoCounts(before, outcomes);
      var valid, violated, unknown, falsePositive, created, retired: nat := 0, 0, 0, 0, 0, 0;
      var reported: seq<Id> := [];
      for i := 0 to |outcomes|
        invariant forall o | o in outcomes :: o.contract in rows
        invariant Possible(before, Checks(rows, outcomes[..i]))
        invariant Contents() == Run(before, Checks(rows, outcomes[..i]))
        invariant i == valid + violated + unknown + falsePositive
        invariant valid == Count(rows, outcomes[..i], Valid) && violated == Count(rows, outcomes[..i], Violated)
        invariant unknown == Count(rows, outcomes[..i], Unknown)
        invariant falsePositive == Count(rows, outcomes[..i], FalsePositive)
        invariant reported == Opened(rows, outcomes[..i]) && |reported| == violated
        invariant |probes| == |before.probes| + created && |events| == |before.events| + violated
        invariant forall j | i <= j < |outcomes| ::
                    ActiveProbes(probes, outcomes[j].contract) == ActiveProbes(before.probes, outcomes[j].contract)
        invariant retired == RetiredCount(before, outcomes[..i])
      {
        var o := outcomes[i];
        BatchProgress(before, outcomes, i);
        ProgressStep(before, outcomes, i, Contents());
        CheckedIsNext(Contents(), o, rows[o.contract]);
        RunSnoc(before, Checks(rows, outcomes[..i]), Check(o, rows[o.contract]));
        ChecksSnoc(rows, outcomes, i);
        CountSnoc(rows, outcomes, i);
        RetiredSnoc(before, outcomes, i);
        BatchDistinct(before, outcomes, i);
        OtherProbesKept(Contents(), o, rows[o.contract]);
        var added, gone := CheckRow(o, rows[o.contract]);
        created, retired := created + added, retired + gone;
        if IsFalsePositive(rows[o.contract]) {
          falsePositive := falsePositive + 1;
        } else {
          match o.verdict {
            case Valid => valid := valid + 1;
            case Violated =>
              violated := violated + 1;
              reported := reported + [o.event];
            case _ => unknown := unknown + 1;
          }
        }
      }
      assert outcomes[..|outcomes|] == outcomes;
      r := CheckResult(|outcomes|, valid, violated, unknown, falsePositive, created, retired, reported);
    }

    method ExtractContracts(items: seq<Item>, ids: seq<Id>) returns (extracted: nat)
      requires |items| == |ids| && FreshIds(contracts, ids)
      modifies this`contracts
      ensures extracted == |items|
      ensures Possible(old(Contents()), Extractions(items, ids))
      ensures Contents() == Run(old(Contents()), Extractions(items, ids))
    {
      hide Extracted, Possible, Run, OwnCurrent, Current;
      ghost var before := Contents();
      ghost var calls := Extractions(items, ids);
      RunsOfNothing(before);
      assert calls[..0] == [];
      extracted := 0;
      while extracted < |items|
        invariant 0 <= extracted <= |items|
        invariant Possible(before, calls[..extracted]) && Contents() == Run(before, calls[..extracted])
        invariant forall i | extracted <= i < |ids| :: ids[i] !in contracts
      {
        var item, id := items[extracted], ids[extracted];
        ghost var was := contracts;
        ExtractedAt(was, item, id);
        RunSnoc(before, calls[..extracted], Extract(item, id));
        assert calls[..extracted + 1] == calls[..extracted] + [Extract(item, id)];
        if Declared(contracts, item) {
          contracts := map c | c in contracts ::
            if SameKey(contracts[c], item) then Refreshed(contracts[c], item) else contracts[c];
        } else {
          contracts := contracts[id := Fresh(item)];
        }
        extracted := extracted + 1;
      }
      assert calls[..|items|] == calls;
    }

    method MarkDriftFalsePositive(c: Id) returns (found: bool, probesRetired: nat, driftEventsClosed: nat)
      modifies this
      ensures Contents() == Next(old(Contents()), Mark(c))
      ensures found == (c in old(contracts))
      ensures found ==> NoPending(events, c) && ActiveProbes(probes, c) == {}
      ensures probesRetired == if found then |ActiveProbes(old(probes), c)| else 0
      ensures driftEventsClosed == if found then |PendingEvents(old(events), c)| else 0
    {
      found := c in contracts;
      if !found {
        return false, 0, 0;
      }
      contracts := contracts[c := contracts[c].(status := FalsePositive, marked := true,
                                                lastReason := Some(OPERATOR_REASON))];
      probesRetired := RetireResolvedDriftProbes(c);
      driftEventsClosed := CloseFalsePositiveDriftEvents(c);
    }

    /** `chosen` are the oldest open events not locked by another worker. */
    method ClaimOpenDriftRepairEvents(chosen: set<Id>)
      requires Enabled(Contents(), Claim(chosen))
      modifies this`events
      ensures Contents() == Next(old(Contents()), Claim(chosen))
    {
      events := map e | e in events :: if e in chosen then events[e].(status := Repairing) else events[e];
    }

    method CompleteDriftRepairExecution(e: Id, status: EventStatus) returns (found: bool)
      modifies this`events
      ensures Contents() == Next(old(Contents()), Complete(e, status))
      ensures found == (e in old(events))
    {
      found := e in events;
      if found {
        events := events[e := events[e].(status := status)];
      }
    }
  }

  // ----- Small facts the methods use -----

  lemma SameSize<K, V>(a: map<K, V>, b: map<K, V>)
    requires a.Keys == b.Keys
    ensures |a| == |b|
  {
    assert |a| == |a.Keys| && |b| == |b.Keys|;
  }

  lemma RunsOfNothing(db: Db)
    ensures Possible(db, []) && Run(db, []) == db
  {
  }

  lemma RunOfNothing(db: Db, rows: map<Id, Contract>, outcomes: seq<Outcome>)
    requires forall o | o in outcomes :: o.contract in rows
    ensures Possible(db, Checks(rows, outcomes[..0])) && Run(db, Checks(rows, outcomes[..0])) == db
  {
    assert Checks(rows, outcomes[..0]) == [];
  }

  lemma BatchDistinct(db: Db, outcomes: seq<Outcome>, n: nat)
    requires n < |outcomes| && Batch(db, outcomes)
    ensures forall j | n < j < |outcomes| :: outcomes[j].contract != outcomes[n].contract
  {
  }

  lemma OtherProbesKept(db: Db, o: Outcome, seen: Contract)
    requires o.contract in db.contracts
    ensures forall c | c != o.contract :: ActiveProbes(Checked(db, o, seen).probes, c) == ActiveProbes(db.probes, c)
  {
  }

  lemma NoCounts(db: Db, outcomes: seq<Outcome>)
    requires forall o | o in outcomes :: o.contract in db.contracts
    ensures forall s :: Count(db.contracts, outcomes[..0], s) == 0
    ensures Opened(db.contracts, outcomes[..0]) == [] && RetiredCount(db, outcomes[..0]) == 0
  {
  }

  lemma ExtractedAt(contracts: map<Id, Contract>, item: Item, id: Id)
    ensures Extracted(contracts, item, id).Keys <= contracts.Keys + {id}
    ensures Extracted(contracts, item, id)
         == if Declared(contracts, item)
            then map c | c in contracts ::
                   if SameKey(contracts[c], item) then Refreshed(contracts[c], item) else contracts[c]
            else contracts[id := Fresh(item)]
  {
    hide SameKey;
  }
}

/**
 The audit hash chain: sidecar/autoskill/core/audit.py (sealing and verifying) and
 sidecar/autoskill/db/audit.py (the table, its windows and their verification); AuditStore has the store.

 SHA-256 over the canonical text is a function `digest` of a record's fields; where a result needs
 it, `digest` is assumed injective.
 */
module AuditChain {
  import opened Wrappers

  type Id = nat
  type Hash = string

  /** The hashed fields of a record: all but its own hash. */
  datatype Body = Body(auditId: Id, occurredAt: int, action: string, actor: string,
                       subjectType: string, subjectId: string, previousHash: Option<Hash>, details: string)

  datatype Record = Record(body: Body, auditHash: Option<Hash>)

  type Digest = Body -> Hash

  ghost predicate Injective(digest: Digest) {
    forall a, b :: digest(a) == digest(b) ==> a == b
  }

  function Sealed(digest: Digest, r: Record): Record {
    r.(auditHash := Some(digest(r.body)))
  }

  // ----- Verifying a list of records -----

  /** Each record names the hash before it and carries its own. */
  predicate ChainOk(digest: Digest, records: seq<Record>, previous: Option<Hash>) {
    records == [] ||
    (&& records[0].body.previousHash == previous
     && Sealed(digest, records[0]) == records[0]
     && ChainOk(digest, records[1..], records[0].auditHash))
  }

  method VerifyHashChain(digest: Digest, records: seq<Record>, initialPreviousHash: Option<Hash>) returns (ok: bool)
    ensures ok == ChainOk(digest, records, initialPreviousHash)
  {
    var previous := initialPreviousHash;
    for i := 0 to |records|
      invariant ChainOk(digest, records, initialPreviousHash) == ChainOk(digest, records[i..], previous)
    {
      var record := records[i];
      assert records[i..][1..] == records[i + 1..];
      if record.body.previousHash != previous {
        return false;
      }
      if Sealed(digest, record).auditHash != record.auditHash {
        return false;
      }
      previous := record.auditHash;
    }
    return true;
  }

  function LastHash(records: seq<Record>, previous: Option<Hash>): Option<Hash> {
    if records == [] then previous else records[|records| - 1].auditHash
  }

  /** A chain verifies in two parts, the second from where the first ends. */
  lemma {:induction false} ChainAppend(digest: Digest, a: seq<Record>, b: seq<Record>, previous: Option<Hash>)
    ensures ChainOk(digest, a + b, previous)
       <==> ChainOk(digest, a, previous) && ChainOk(digest, b, LastHash(a, previous))
  {
    if a == [] {
      assert a + b == b;
    } else {
      assert (a + b)[0] == a[0] && (a + b)[1..] == a[1..] + b;
      ChainAppend(digest, a[1..], b, a[0].auditHash);
    }
  }

  /** The last hash commits to the whole list: two verified chains that end alike are equal. */
  lemma {:induction false} HeadCommits(digest: Digest, a: seq<Record>, b: seq<Record>)
    requires Injective(digest)
    requires ChainOk(digest, a, None) && ChainOk(digest, b, None)
    requires LastHash(a, None) == LastHash(b, None)
    ensures a == b
    decreases |a|
  {
    LastIsSealed(digest, a);
    LastIsSealed(digest, b);
    if a != [] && b != [] {
      var m, n := |a| - 1, |b| - 1;
      assert a == a[..m] + [a[m]] && b == b[..n] + [b[n]];
      assert a[m].body == b[n].body;
      HeadCommits(digest, a[..m], b[..n]);
    }
  }

  /** The last hash of a window commits to all of it: of two that verify and end alike, one ends the other. */
  lemma {:induction false} TailCommits(digest: Digest, a: seq<Record>, p: Option<Hash>, b: seq<Record>, q: Option<Hash>)
    requires Injective(digest) && a != [] && |a| <= |b|
    requires ChainOk(digest, a, p) && ChainOk(digest, b, q) && LastHash(a, p) == LastHash(b, q)
    ensures a == b[|b| - |a|..]
  {
    hide ChainOk;
    var m, n := |a| - 1, |b| - 1;
    var a', b' := a[..m], b[..n];
    assert a == a' + [a[m]] && b == b' + [b[n]];
    ChainAppend(digest, a', [a[m]], p);
    ChainAppend(digest, b', [b[n]], q);
    ChainOfOne(digest, a[m], LastHash(a', p));
    ChainOfOne(digest, b[n], LastHash(b', q));
    assert a[m] == b[n];
    if m > 0 {
      TailCommits(digest, a', p, b', q);
      assert b[n - m..] == b'[n - m..] + [b[n]];
    }
  }

  lemma LastIsSealed(digest: Digest, a: seq<Record>)
    requires ChainOk(digest, a, None)
    ensures a != [] ==>
              var last := a[|a| - 1];
              && ChainOk(digest, a[..|a| - 1], None)
              && last.body.previousHash == LastHash(a[..|a| - 1], None)
              && last.auditHash == Some(digest(last.body))
  {
    if a != [] {
      var front, last := a[..|a| - 1], a[|a| - 1];
      assert a == front + [last];
      ChainAppend(digest, front, [last], None);
      ChainOfOne(digest, last, LastHash(front, None));
    }
  }

  lemma ChainOfOne(digest: Digest, r: Record, previous: Option<Hash>)
    ensures ChainOk(digest, [r], previous) <==> r.body.previousHash == previous && Sealed(digest, r) == r
  {
    assert ChainOk(digest, [r][1..], r.auditHash);
  }

  // ----- The table -----

  datatype Row = Row(workspace: Id, record: Record)

  /** ORDER BY occurred_at, audit_id. */
  predicate Older(a: Row, b: Row) {
    || a.record.body.occurredAt < b.record.body.occurredAt
    || (a.record.body.occurredAt == b.record.body.occurredAt && a.record.body.auditId < b.record.body.auditId)
  }

  function Insert(row: Row, sorted: seq<Row>): seq<Row> {
    if sorted == [] || !Older(row, sorted[0]) then [row] + sorted else [sorted[0]] + Insert(row, sorted[1..])
  }

  /** Newest first. */
  function SortDesc(rows: seq<Row>): seq<Row> {
    if rows == [] then [] else Insert(rows[|rows| - 1], SortDesc(rows[..|rows| - 1]))
  }

  /** The rows of one workspace, in table order. */
  function RowsOf(table: seq<Row>, workspace: Id): seq<Row> {
    if table == [] then [] else
      RowsOf(table[..|table| - 1], workspace)
      + if table[|table| - 1].workspace == workspace then [table[|table| - 1]] else []
  }

  function Take<T>(s: seq<T>, n: nat): seq<T> {
    if |s| <= n then s else s[..n]
  }

  function Records(rows: seq<Row>): (r: seq<Record>)
    ensures |r| == |rows|
  {
    seq(|rows|, i requires 0 <= i < |rows| => rows[i].record)
  }

  function Reverse<T>(s: seq<T>): (r: seq<T>)
    ensures |r| == |s|
  {
    seq(|s|, i requires 0 <= i < |s| => s[|s| - 1 - i])
  }

  /** The hash a new record links to: that of the newest row, not of the last inserted one. */
  function HeadHash(rows: seq<Row>): Option<Hash> {
    if SortDesc(rows) == [] then None else SortDesc(rows)[0].record.auditHash
  }

  predicate KnownId(table: seq<Row>, id: Id) {
    exists i | 0 <= i < |table| :: table[i].record.body.auditId == id
  }

  function Linked(digest: Digest, rows: seq<Row>, record: Record): Record {
    Sealed(digest, record.(body := record.body.(previousHash := HeadHash(rows))))
  }

  /** An insert whose audit_id is taken violates the primary key, and the transaction leaves no trace. */
  function Appended(digest: Digest, table: seq<Row>, workspace: Id, record: Record): seq<Row> {
    if KnownId(table, record.body.auditId) then table
    else table + [Row(workspace, Linked(digest, RowsOf(table, workspace), record))]
  }

  function Clamp(limit: int): nat {
    if limit > 1000 then 1000 else if limit < 1 then 1 else limit
  }

  /** The recent rows of one workspace, newest first. */
  function Recent(table: seq<Row>, workspace: Id, limit: nat): seq<Row> {
    Take(SortDesc(RowsOf(table, workspace)), limit)
  }

  predicate SegmentOk(digest: Digest, newestFirst: seq<Record>) {
    var ordered := Reverse(newestFirst);
    ChainOk(digest, ordered, if ordered == [] then None else ordered[0].body.previousHash)
  }

  /** The newest rows over all workspaces, each workspace's share verified as a segment of its own. */
  ghost predicate GlobalOk(digest: Digest, table: seq<Row>, limit: nat) {
    var window := Take(SortDesc(table), limit);
    forall i | 0 <= i < |window| :: SegmentOk(digest, Records(RowsOf(window, window[i].workspace)))
  }
}

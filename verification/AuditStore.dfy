/**
 The audit store as the program runs it (sidecar/autoskill/db/audit.py): appending under the lock, listing
 and verifying recent records.
 */
module AuditStore {
  import opened Wrappers
  import opened AuditChain
  import opened AuditLaws

  /** a comes before b in the order of (occurred_at, audit_id), or ties with it. */
  predicate NotLater(a: Body, b: Body) {
    a.occurredAt < b.occurredAt || (a.occurredAt == b.occurredAt && a.auditId <= b.auditId)
  }

  predicate Wanted(r: Row, workspace: Option<Id>) {
    workspace.None? || r.workspace == workspace.value
  }

  function WantedRows(table: seq<Row>, workspace: Option<Id>): seq<Row> {
    match workspace
    case Some(w) => RowsOf(table, w)
    case None => table
  }

  /**
   As many of the wanted rows as there are, up to n, newest first; each as often as the table has it, and
   none left out that is newer than one that is listed.
   */
  ghost predicate Newest(table: seq<Row>, workspace: Option<Id>, n: nat, listed: seq<Row>) {
    var wanted := WantedRows(table, workspace);
    && |listed| == (if |wanted| <= n then |wanted| else n)
    && multiset(listed) <= multiset(table)
    && (forall r | r in listed :: Wanted(r, workspace))
    && (forall i, j | 0 <= i < j < |listed| :: NotLater(listed[j].record.body, listed[i].record.body))
    && (forall r, s | r in table && Wanted(r, workspace) && r !in listed && s in listed ::
          NotLater(r.record.body, s.record.body))
  }

  /** The hash is that of the workspace's latest row by (occurred_at, audit_id), or none when it has no row. */
  ghost predicate LinksToNewest(table: seq<Row>, workspace: Id, previousHash: Option<Hash>) {
    if exists r | r in table :: r.workspace == workspace then
      exists r | r in table && r.workspace == workspace ::
        && previousHash == r.record.auditHash
        && forall s | s in table && s.workspace == workspace :: NotLater(s.record.body, r.record.body)
    else
      previousHash == None
  }

  lemma HeadIsNewest(table: seq<Row>, workspace: Id)
    ensures LinksToNewest(table, workspace, HeadHash(RowsOf(table, workspace)))
  {
    hide RowsOf, SortDesc, Older, NotLater;
    var rows := RowsOf(table, workspace);
    RowsOfMembers(table, workspace);
    SortFacts(rows);
    NotOlderAreNotLater();
    var sorted := SortDesc(rows);
    if sorted != [] {
      var head := sorted[0];
      assert head in sorted && head in rows;
      forall s | s in table && s.workspace == workspace
        ensures NotLater(s.record.body, head.record.body)
      {
        assert s in sorted;
        var k :| 0 <= k < |sorted| && sorted[k] == s;
        if k == 0 {
          Reflexive(s.record.body);
        }
      }
    } else {
      assert rows == [];
    }
  }

  lemma Reflexive(b: Body)
    ensures NotLater(b, b)
  {
  }

  lemma {:induction false} RowsOfMultiset(table: seq<Row>, w: Id)
    ensures multiset(RowsOf(table, w)) <= multiset(table)
  {
    if table != [] {
      RowsOfMultiset(table[..|table| - 1], w);
      assert table == table[..|table| - 1] + [table[|table| - 1]];
    }
  }

  lemma ListedAreNewest(table: seq<Row>, workspace: Option<Id>, n: nat)
    ensures Newest(table, workspace, n, Take(SortDesc(WantedRows(table, workspace)), n))
  {
    hide SortDesc, RowsOf, Older, NotLater, Take;
    var wanted := WantedRows(table, workspace);
    if workspace.Some? {
      RowsOfMembers(table, workspace.value);
      RowsOfMultiset(table, workspace.value);
    }
    SortFacts(wanted);
    NotOlderAreNotLater();
    TakeLength(SortDesc(wanted), n);
    TakeFacts(SortDesc(wanted), n);
  }

  lemma NotOlderAreNotLater()
    ensures forall a: Row, b: Row :: !Older(a, b) <==> NotLater(b.record.body, a.record.body)
  {
  }

  lemma TakeLength(s: seq<Row>, n: nat)
    ensures |Take(s, n)| == if |s| <= n then |s| else n
  {
  }

  /** The front of a sorted list. */
  lemma TakeFacts(sorted: seq<Row>, n: nat)
    requires Descending(sorted)
    ensures Descending(Take(sorted, n)) && multiset(Take(sorted, n)) <= multiset(sorted)
    ensures forall r | r in Take(sorted, n) :: r in sorted
    ensures forall r, s | r in sorted && r !in Take(sorted, n) && s in Take(sorted, n) :: !Older(s, r)
  {
    hide Older;
    var listed := Take(sorted, n);
    var rest := sorted[|listed|..];
    assert sorted == listed + rest;
    forall r, s | r in sorted && r !in listed && s in listed
      ensures !Older(s, r)
    {
      assert r in listed + rest;
      var a :| 0 <= a < |rest| && rest[a] == r;
      var b :| 0 <= b < |listed| && listed[b] == s;
      assert sorted[b] == s && sorted[|listed| + a] == r;
    }
  }

  // ----- The store -----

  class Store {
    const digest: Digest
    var table: seq<Row>

    constructor (digest: Digest)
      ensures this.digest == digest && table == []
    {
      this.digest := digest;
      table := [];
    }

    /** Returns the sealed record, or nothing when the insert violates the primary key. */
    method AppendRecord(workspace: Id, record: Record) returns (stored: Option<Record>)
      modifies this`table
      ensures table == Appended(digest, old(table), workspace, record)
      ensures stored == if KnownId(old(table), record.body.auditId) then None
                        else Some(table[|table| - 1].record)
      ensures stored.None? <==> exists r | r in old(table) :: r.record.body.auditId == record.body.auditId
      ensures stored.Some? ==>
                && table == old(table) + [Row(workspace, stored.value)]
                && stored.value.body == record.body.(previousHash := stored.value.body.previousHash)
                && stored.value.auditHash == Some(digest(stored.value.body))
                && LinksToNewest(old(table), workspace, stored.value.body.previousHash)
    {
      hide SortDesc;
      HeadIsNewest(table, workspace);
      var previousHash := HeadHash(RowsOf(table, workspace));
      var sealed := Sealed(digest, record.(body := record.body.(previousHash := previousHash)));
      if KnownId(table, sealed.body.auditId) {
        return None;
      }
      table := table + [Row(workspace, sealed)];
      return Some(sealed);
    }

    /** The newest records, at most 1000, of one workspace or of all. */
    method ListRecent(workspace: Option<Id>, limit: int) returns (records: seq<Record>)
      ensures exists listed ::
                && records == Records(listed)
                && Newest(table, workspace, if limit < 1 then 1 else if limit > 1000 then 1000 else limit, listed)
      ensures records == match workspace
                         case Some(w) => Records(Recent(table, w, Clamp(limit)))
                         case None => Records(Take(SortDesc(table), Clamp(limit)))
    {
      hide SortDesc, RowsOf;
      ListedAreNewest(table, workspace, Clamp(limit));
      match workspace {
        case Some(w) => records := Records(Recent(table, w, Clamp(limit)));
        case None => records := Records(Take(SortDesc(table), Clamp(limit)));
      }
    }

    method VerifyRecentSegment(records: seq<Record>) returns (ok: bool)
      ensures ok == SegmentOk(digest, records)
    {
      var ordered := Reverse(records);
      var initial := if ordered == [] then None else ordered[0].body.previousHash;
      ok := VerifyHashChain(digest, ordered, initial);
    }

    method VerifyChain(workspace: Option<Id>, limit: int) returns (ok: bool)
      ensures ok == match workspace
                    case Some(w) => SegmentOk(digest, Records(Recent(table, w, Clamp(limit))))
                    case None => GlobalOk(digest, table, Clamp(limit))
    {
      hide Newest;
      if workspace.Some? {
        var records := ListRecent(workspace, limit);
        ok := VerifyRecentSegment(records);
        return;
      }
      hide SortDesc, SegmentOk, RowsOf, Take, GlobalOk;
      var window := Take(SortDesc(table), Clamp(limit));
      var byWorkspace := GroupByWorkspace(window);
      ok := true;
      var todo := byWorkspace.Keys;
      while todo != {}
        invariant todo <= byWorkspace.Keys
        invariant ok == forall w | w in byWorkspace.Keys - todo :: SegmentOk(digest, byWorkspace[w])
        decreases |todo|
      {
        var w :| w in todo;
        var segment := VerifyRecentSegment(byWorkspace[w]);
        ok := ok && segment;
        todo := todo - {w};
      }
      AllSegmentsOk(digest, table, Clamp(limit), window, byWorkspace);
    }
  }

  /** Every share of the window verifies exactly when the verification over all workspaces succeeds. */
  lemma AllSegmentsOk(digest: Digest, table: seq<Row>, limit: nat, window: seq<Row>, byWorkspace: map<Id, seq<Record>>)
    requires window == Take(SortDesc(table), limit)
    requires forall w :: w in byWorkspace <==> exists j | 0 <= j < |window| :: window[j].workspace == w
    requires forall w | w in byWorkspace :: byWorkspace[w] == Records(RowsOf(window, w))
    ensures GlobalOk(digest, table, limit) <==> forall w | w in byWorkspace :: SegmentOk(digest, byWorkspace[w])
  {
    hide SortDesc, SegmentOk, RowsOf, Take, Records;
    if GlobalOk(digest, table, limit) {
      forall w | w in byWorkspace
        ensures SegmentOk(digest, byWorkspace[w])
      {
        var j :| 0 <= j < |window| && window[j].workspace == w;
        assert SegmentOk(digest, Records(RowsOf(window, window[j].workspace)));
      }
    }
    if forall w | w in byWorkspace :: SegmentOk(digest, byWorkspace[w]) {
      forall i | 0 <= i < |window|
        ensures SegmentOk(digest, Records(RowsOf(window, window[i].workspace)))
      {
        var w := window[i].workspace;
        assert exists j | 0 <= j < |window| :: window[j].workspace == w;
        assert SegmentOk(digest, byWorkspace[w]);
      }
    }
  }

  /** The rows of a window, split by workspace in window order. */
  method GroupByWorkspace(window: seq<Row>) returns (byWorkspace: map<Id, seq<Record>>)
    ensures forall w :: w in byWorkspace <==> exists j | 0 <= j < |window| :: window[j].workspace == w
    ensures forall w | w in byWorkspace :: byWorkspace[w] == Records(RowsOf(window, w))
  {
    hide RowsOf, Records;
    byWorkspace := map[];
    RowsOfNothing();
    assert window[..0] == [];
    for i := 0 to |window|
      invariant forall w :: w in byWorkspace <==> exists j | 0 <= j < i :: window[j].workspace == w
      invariant forall w | w in byWorkspace :: byWorkspace[w] == Records(RowsOf(window[..i], w))
      invariant forall w | w !in byWorkspace :: Records(RowsOf(window[..i], w)) == []
    {
      var w := window[i].workspace;
      RowsOfSnoc(window, i);
      byWorkspace := byWorkspace[w := (if w in byWorkspace then byWorkspace[w] else []) + [window[i].record]];
    }
    assert window[..|window|] == window;
  }

  lemma RowsOfNothing()
    ensures forall w :: Records(RowsOf([], w)) == []
  {
  }

  lemma RowsOfSnoc(rows: seq<Row>, i: nat)
    requires i < |rows|
    ensures forall w | w != rows[i].workspace :: RowsOf(rows[..i + 1], w) == RowsOf(rows[..i], w)
    ensures var w := rows[i].workspace;
            && RowsOf(rows[..i + 1], w) == RowsOf(rows[..i], w) + [rows[i]]
            && Records(RowsOf(rows[..i + 1], w)) == Records(RowsOf(rows[..i], w)) + [rows[i].record]
  {
    assert rows[..i + 1][..i] == rows[..i];
  }
}

/**
 When the audit log verifies: for every sequence of appends, exactly when each workspace's records were
 appended in the order of (occurred_at, audit_id).
 */
module AuditLaws {
  import opened Wrappers
  import opened AuditChain

  // ----- Tables that appends produce -----

  /** The table after a sequence of append calls, refused ones included. */
  function AppendAll(digest: Digest, calls: seq<(Id, Record)>): seq<Row> {
    if calls == [] then [] else
      var call := calls[|calls| - 1];
      Appended(digest, AppendAll(digest, calls[..|calls| - 1]), call.0, call.1)
  }

  ghost predicate DistinctIds(rows: seq<Row>) {
    forall i, j | 0 <= i < j < |rows| :: rows[i].record.body.auditId != rows[j].record.body.auditId
  }

  /** Each record was sealed against the newest of the rows before it. */
  ghost predicate Grown(digest: Digest, rows: seq<Row>) {
    && DistinctIds(rows)
    && forall k | 0 <= k < |rows| :: rows[k].record == Linked(digest, rows[..k], rows[k].record)
  }

  /** The rows were appended in strictly increasing (occurred_at, audit_id) order. */
  ghost predicate InOrder(rows: seq<Row>) {
    forall i, j | 0 <= i < j < |rows| ::
      var a, b := rows[i].record.body, rows[j].record.body;
      a.occurredAt < b.occurredAt || (a.occurredAt == b.occurredAt && a.auditId < b.auditId)
  }

  ghost predicate AllInOrder(table: seq<Row>) {
    forall w :: InOrder(RowsOf(table, w))
  }

  lemma {:induction false} RowsOfMembers(table: seq<Row>, w: Id)
    ensures forall r :: r in RowsOf(table, w) <==> r in table && r.workspace == w
  {
    if table != [] {
      RowsOfMembers(table[..|table| - 1], w);
      assert table == table[..|table| - 1] + [table[|table| - 1]];
    }
  }

  lemma GrownSnoc(digest: Digest, rows: seq<Row>, row: Row)
    requires Grown(digest, rows) && row.record == Linked(digest, rows, row.record)
    requires forall r | r in rows :: r.record.body.auditId != row.record.body.auditId
    ensures Grown(digest, rows + [row])
  {
    hide Linked;
    var all := rows + [row];
    forall k | 0 <= k < |all| ensures all[k].record == Linked(digest, all[..k], all[k].record) {
      assert all[..k] == rows[..k];
      assert rows[..|rows|] == rows;
    }
    assert forall i | 0 <= i < |rows| :: rows[i] in rows;
  }

  /** In every table that appends produce, every workspace's rows have grown one by one. */
  lemma {:induction false} AppendsGrow(digest: Digest, calls: seq<(Id, Record)>)
    ensures forall w :: Grown(digest, RowsOf(AppendAll(digest, calls), w))
    ensures DistinctIds(AppendAll(digest, calls))
  {
    hide Grown, Linked;
    if calls == [] {
      forall w ensures Grown(digest, RowsOf([], w)) {
        GrownEmpty(digest);
      }
    } else {
      var (w, record) := calls[|calls| - 1];
      var before := AppendAll(digest, calls[..|calls| - 1]);
      AppendsGrow(digest, calls[..|calls| - 1]);
      if !KnownId(before, record.body.auditId) {
        AppendGrows(digest, before, w, record);
      }
    }
  }

  lemma GrownEmpty(digest: Digest)
    ensures Grown(digest, [])
  {
  }

  lemma AppendGrows(digest: Digest, before: seq<Row>, w: Id, record: Record)
    requires !KnownId(before, record.body.auditId) && DistinctIds(before)
    requires forall v :: Grown(digest, RowsOf(before, v))
    ensures var after := Appended(digest, before, w, record);
            DistinctIds(after) && forall v :: Grown(digest, RowsOf(after, v))
  {
    hide Grown, HeadHash;
    var row := Row(w, Linked(digest, RowsOf(before, w), record));
    var after := before + [row];
    assert after[..|before|] == before;
    RowsOfMembers(before, w);
    GrownSnoc(digest, RowsOf(before, w), row);
    forall v ensures Grown(digest, RowsOf(after, v)) {
      assert RowsOf(after, v) == if w == v then RowsOf(before, v) + [row] else RowsOf(before, v) + [];
      assert RowsOf(before, v) + [] == RowsOf(before, v);
    }
  }

  // ----- Sorting -----

  ghost predicate Descending(s: seq<Row>) {
    forall i, j | 0 <= i < j < |s| :: !Older(s[i], s[j])
  }

  lemma NotOlder(a: Row, b: Row, c: Row)
    ensures Older(a, b) ==> !Older(b, a)
    ensures !Older(a, b) && !Older(b, c) ==> !Older(a, c)
  {
  }

  lemma {:induction false} InsertFacts(row: Row, s: seq<Row>)
    requires Descending(s)
    ensures Descending(Insert(row, s)) && multiset(Insert(row, s)) == multiset(s) + multiset{row}
  {
    hide Older;
    if s == [] || !Older(row, s[0]) {
      assert Insert(row, s) == [row] + s;
      forall i | 0 <= i < |s|
        ensures !Older(row, s[i])
      {
        NotOlder(row, s[0], s[i]);
      }
    } else {
      var rest := Insert(row, s[1..]);
      InsertFacts(row, s[1..]);
      assert s == [s[0]] + s[1..] && Insert(row, s) == [s[0]] + rest;
      forall i | 0 <= i < |rest|
        ensures !Older(s[0], rest[i])
      {
        InsertedFrom(row, s[1..], rest, rest[i]);
        NotOlder(row, s[0], row);
      }
    }
  }

  lemma InsertedFrom(row: Row, s: seq<Row>, inserted: seq<Row>, r: Row)
    requires multiset(inserted) == multiset(s) + multiset{row} && r in inserted
    ensures r == row || r in s
  {
    assert r in multiset(inserted);
  }

  lemma {:induction false} SortFacts(rows: seq<Row>)
    ensures Descending(SortDesc(rows)) && multiset(SortDesc(rows)) == multiset(rows)
    ensures |SortDesc(rows)| == |rows| && forall r :: r in SortDesc(rows) <==> r in rows
  {
    if rows != [] {
      var front, last := rows[..|rows| - 1], rows[|rows| - 1];
      SortFacts(front);
      InsertFacts(last, SortDesc(front));
      assert rows == front + [last];
    }
    assert |multiset(SortDesc(rows))| == |multiset(rows)|;
    assert forall r :: r in SortDesc(rows) <==> r in multiset(SortDesc(rows));
  }

  lemma {:induction false} RowsOfCons(row: Row, s: seq<Row>, w: Id)
    ensures RowsOf([row] + s, w) == (if row.workspace == w then [row] else []) + RowsOf(s, w)
  {
    if s != [] {
      assert ([row] + s)[..|s|] == [row] + s[..|s| - 1];
      RowsOfCons(row, s[..|s| - 1], w);
    } else {
      assert [row] + s == [row] && [row][..0] == [];
    }
  }

  lemma {:induction false} RowsOfInsert(row: Row, s: seq<Row>, w: Id)
    requires Descending(s)
    ensures RowsOf(Insert(row, s), w) == if row.workspace == w then Insert(row, RowsOf(s, w)) else RowsOf(s, w)
  {
    if s == [] || !Older(row, s[0]) {
      RowsOfCons(row, s, w);
      RowsOfMembers(s, w);
      if row.workspace == w && RowsOf(s, w) != [] {
        var first := RowsOf(s, w)[0];
        assert first in RowsOf(s, w);
        var i :| 0 <= i < |s| && s[i] == first;
        assert !Older(row, first);
      }
    } else {
      assert s == [s[0]] + s[1..];
      RowsOfInsert(row, s[1..], w);
      RowsOfCons(s[0], Insert(row, s[1..]), w);
      RowsOfCons(s[0], s[1..], w);
      assert [] + RowsOf(Insert(row, s[1..]), w) == RowsOf(Insert(row, s[1..]), w);
      assert [] + RowsOf(s[1..], w) == RowsOf(s[1..], w);
      if s[0].workspace == w {
        assert RowsOf(s, w)[0] == s[0] && RowsOf(s, w)[1..] == RowsOf(s[1..], w);
      }
    }
  }

  /** Choosing a workspace's rows commutes with sorting. */
  lemma {:induction false} RowsOfSort(table: seq<Row>, w: Id)
    ensures RowsOf(SortDesc(table), w) == SortDesc(RowsOf(table, w))
  {
    if table != [] {
      var front, last := table[..|table| - 1], table[|table| - 1];
      RowsOfSort(front, w);
      SortFacts(front);
      RowsOfInsert(last, SortDesc(front), w);
      if last.workspace == w {
        var chosen := RowsOf(front, w) + [last];
        assert RowsOf(table, w) == chosen && chosen[..|chosen| - 1] == RowsOf(front, w);
      } else {
        assert RowsOf(table, w) == RowsOf(front, w) + [] == RowsOf(front, w);
      }
    }
  }

  lemma {:induction false} RowsOfPrefix(s: seq<Row>, n: nat, w: Id)
    requires n <= |s|
    ensures RowsOf(s[..n], w) <= RowsOf(s, w)
    decreases |s|
  {
    if n < |s| {
      assert s[..|s| - 1][..n] == s[..n];
      RowsOfPrefix(s[..|s| - 1], n, w);
    } else {
      assert s[..n] == s;
    }
  }

  /** Newest first, and no two alike. */
  ghost predicate NewestFirst(s: seq<Row>) {
    forall i, j | 0 <= i < j < |s| :: Older(s[j], s[i])
  }

  lemma {:induction false} InsertNewestFirst(row: Row, s: seq<Row>)
    requires NewestFirst(s) && forall r | r in s :: r.record.body.auditId != row.record.body.auditId
    ensures NewestFirst(Insert(row, s)) && forall r :: r in Insert(row, s) <==> r == row || r in s
  {
    if s != [] {
      assert s == [s[0]] + s[1..] && s[0] in s;
      if Older(row, s[0]) {
        InsertNewestFirst(row, s[1..]);
        assert forall r | r in s[1..] :: Older(r, s[0]);
      } else {
        assert forall r | r in s :: Older(r, row);
      }
    }
  }

  lemma {:induction false} SortNewestFirst(rows: seq<Row>)
    requires DistinctIds(rows)
    ensures NewestFirst(SortDesc(rows))
  {
    hide NewestFirst, Insert;
    if rows == [] {
      NothingFirst();
    } else {
      var front, last := rows[..|rows| - 1], rows[|rows| - 1];
      SortNewestFirst(front);
      SortFacts(front);
      InsertNewestFirst(last, SortDesc(front));
    }
  }

  lemma NothingFirst()
    ensures NewestFirst([])
  {
  }

  /** What a window of the newest rows holds. */
  ghost predicate Window(rows: seq<Row>, window: seq<Row>) {
    && NewestFirst(window)
    && (forall r | r in window :: r in rows)
    && (forall r, s | r in rows && r !in window && s in window :: Older(r, s))
  }

  lemma WindowFacts(rows: seq<Row>, n: nat)
    requires DistinctIds(rows)
    ensures Window(rows, Take(SortDesc(rows), n))
    ensures |Take(SortDesc(rows), n)| == if |rows| <= n then |rows| else n
  {
    hide SortDesc, Older;
    SortFacts(rows);
    SortNewestFirst(rows);
    var sorted := SortDesc(rows);
    var window := Take(sorted, n);
    var rest := sorted[|window|..];
    assert sorted == window + rest;
    forall r, s | r in rows && r !in window && s in window
      ensures Older(r, s)
    {
      assert r in window + rest;
      var a :| 0 <= a < |rest| && rest[a] == r;
      var b :| 0 <= b < |window| && window[b] == s;
      assert sorted[b] == s && sorted[|window| + a] == r;
    }
  }

  /** Of the rows, those in the window were appended in strictly increasing order. */
  ghost predicate InOrderWithin(rows: seq<Row>, window: seq<Row>) {
    forall i, j | 0 <= i < j < |rows| && rows[i] in window && rows[j] in window ::
      var a, b := rows[i].record.body, rows[j].record.body;
      a.occurredAt < b.occurredAt || (a.occurredAt == b.occurredAt && a.auditId < b.auditId)
  }

  /** The same of every workspace's rows. */
  ghost predicate AllInOrderWithin(table: seq<Row>, window: seq<Row>) {
    forall w :: InOrderWithin(RowsOf(table, w), window)
  }

  // ----- In order: the window verifies -----

  /** A row of the window was sealed against its older neighbour there. */
  lemma HeadInWindow(digest: Digest, rows: seq<Row>, window: seq<Row>, j: nat, p: nat)
    requires Grown(digest, rows) && Window(rows, window) && InOrderWithin(rows, window)
    requires j < |rows| && p + 1 < |window| && window[p] == rows[j]
    ensures rows[j].record.body.previousHash == window[p + 1].record.auditHash
  {
    hide SortDesc;
    var before := window[p + 1];
    assert before in window && rows[j] in window && Older(before, rows[j]);
    var i :| 0 <= i < |rows| && rows[i] == before;
    assert i < j;
    assert rows[j].record == Linked(digest, rows[..j], rows[j].record);
    SortFacts(rows[..j]);
    var sorted := SortDesc(rows[..j]);
    assert rows[..j][i] == before && before in rows[..j];
    var b :| 0 <= b < |sorted| && sorted[b] == before;
    var head := sorted[0];
    assert head in sorted && !(b > 0 && Older(head, before));
    var m :| 0 <= m < j && rows[m] == head;
    Between(digest, rows, window, m, j, p);
    SameOrOlder(digest, rows, m, i);
  }

  /** No row appended before row j lies between row j and its older neighbour in the window. */
  lemma Between(digest: Digest, rows: seq<Row>, window: seq<Row>, m: nat, j: nat, p: nat)
    requires Grown(digest, rows) && Window(rows, window) && InOrderWithin(rows, window) && m < j < |rows|
    requires p + 1 < |window| && window[p] == rows[j]
    ensures !Older(window[p + 1], rows[m])
  {
    hide Grown;
    assert rows[m] in rows && window[p + 1] in window && rows[j] in window;
    if rows[m] in window {
      var q :| 0 <= q < |window| && window[q] == rows[m];
      assert Older(rows[m], rows[j]);
      if q == p {
        SamePosition(digest, rows, m, j);
      }
    }
  }

  lemma {:induction false} ChainFromLinks(digest: Digest, rs: seq<Record>)
    requires forall k | 0 <= k < |rs| :: rs[k] == Sealed(digest, rs[k])
    requires forall k | 0 < k < |rs| :: rs[k].body.previousHash == rs[k - 1].auditHash
    ensures rs != [] ==> ChainOk(digest, rs, rs[0].body.previousHash)
  {
    if rs != [] {
      assert forall k | 0 <= k < |rs| - 1 :: rs[1..][k] == rs[k + 1];
      assert forall k | 0 < k < |rs| - 1 :: rs[1..][k - 1] == rs[k];
      ChainFromLinks(digest, rs[1..]);
    }
  }

  lemma WindowVerifies(digest: Digest, rows: seq<Row>, window: seq<Row>)
    requires Grown(digest, rows) && Window(rows, window) && InOrderWithin(rows, window)
    ensures SegmentOk(digest, Records(window))
  {
    hide InOrderWithin, Window;
    var rs := Reverse(Records(window));
    forall k | 0 <= k < |rs|
      ensures rs[k] == Sealed(digest, rs[k])
      ensures k > 0 ==> rs[k].body.previousHash == rs[k - 1].auditHash
    {
      var p := |window| - 1 - k;
      var j := PositionOf(rows, window, p);
      assert rows[j].record == Linked(digest, rows[..j], rows[j].record);
      if k > 0 {
        HeadInWindow(digest, rows, window, j, p);
      }
    }
    ChainFromLinks(digest, rs);
    if rs == [] {
      EmptyChain(digest);
    }
  }

  lemma PositionOf(rows: seq<Row>, window: seq<Row>, p: nat) returns (j: nat)
    requires Window(rows, window) && p < |window|
    ensures j < |rows| && rows[j] == window[p]
  {
    assert window[p] in window;
    j :| 0 <= j < |rows| && rows[j] == window[p];
  }

  lemma EmptyChain(digest: Digest)
    ensures ChainOk(digest, [], None)
  {
  }

  // ----- Verified: the rows were in order -----

  lemma {:induction false} ChainLinks(digest: Digest, rs: seq<Record>, previous: Option<Hash>)
    requires ChainOk(digest, rs, previous)
    ensures forall k | 0 < k < |rs| :: rs[k].body.previousHash == rs[k - 1].auditHash
  {
    if rs != [] {
      ChainLinks(digest, rs[1..], rs[0].auditHash);
      forall k | 0 < k < |rs| ensures rs[k].body.previousHash == rs[k - 1].auditHash {
        assert rs[1..][k - 1] == rs[k];
        if k > 1 {
          assert rs[1..][k - 2] == rs[k - 1];
        }
      }
    }
  }

  /** A row linked to the hash of another was appended after it. */
  lemma LinkedLater(digest: Digest, rows: seq<Row>, i: nat, j: nat)
    requires Injective(digest) && Grown(digest, rows) && i < |rows| && j < |rows|
    requires rows[j].record.body.previousHash == rows[i].record.auditHash
    ensures i < j
  {
    assert rows[j].record == Linked(digest, rows[..j], rows[j].record);
    assert rows[i].record == Linked(digest, rows[..i], rows[i].record);
    SortFacts(rows[..j]);
    var head := SortDesc(rows[..j])[0];
    assert head in SortDesc(rows[..j]);
    var m :| 0 <= m < j && rows[m] == head;
    assert rows[m].record == Linked(digest, rows[..m], rows[m].record);
    assert rows[m].record.body == rows[i].record.body;
  }

  /** If the window verifies, a row that is older in it was appended earlier. */
  lemma {:induction false} OlderIsEarlier(digest: Digest, rows: seq<Row>, window: seq<Row>, p: nat, q: nat)
    returns (i: nat, j: nat)
    requires Injective(digest) && Grown(digest, rows) && Window(rows, window) && p < q < |window|
    requires forall k | 0 <= k < |window| - 1 :: window[k].record.body.previousHash == window[k + 1].record.auditHash
    ensures i < j < |rows| && rows[i] == window[q] && rows[j] == window[p]
    decreases q - p
  {
    hide Grown, Window;
    var before := PositionOf(rows, window, p + 1);
    j := PositionOf(rows, window, p);
    LinkedLater(digest, rows, before, j);
    if q == p + 1 {
      i := before;
    } else {
      var j';
      i, j' := OlderIsEarlier(digest, rows, window, p + 1, q);
      SamePosition(digest, rows, j', before);
    }
  }

  lemma SamePosition(digest: Digest, rows: seq<Row>, i: nat, j: nat)
    requires Grown(digest, rows) && i < |rows| && j < |rows| && rows[i] == rows[j]
    ensures i == j
  {
  }

  lemma VerifiedIsInOrder(digest: Digest, rows: seq<Row>, window: seq<Row>)
    requires Injective(digest) && Grown(digest, rows) && Window(rows, window)
    requires SegmentOk(digest, Records(window))
    ensures InOrderWithin(rows, window)
  {
    hide ChainOk, Grown, Window;
    var ordered := Reverse(Records(window));
    ChainLinks(digest, ordered, if ordered == [] then None else ordered[0].body.previousHash);
    forall k | 0 <= k < |window| - 1
      ensures window[k].record.body.previousHash == window[k + 1].record.auditHash
    {
      var c := |window| - 1 - k;
      assert ordered[c] == window[k].record && ordered[c - 1] == window[k + 1].record;
    }
    forall a, b | 0 <= a < b < |rows| && rows[a] in window && rows[b] in window
      ensures Older(rows[a], rows[b])
    {
      EarlierIsOlder(digest, rows, window, a, b);
    }
  }

  lemma EarlierIsOlder(digest: Digest, rows: seq<Row>, window: seq<Row>, a: nat, b: nat)
    requires Injective(digest) && Grown(digest, rows) && Window(rows, window)
    requires a < b < |rows| && rows[a] in window && rows[b] in window
    requires forall k | 0 <= k < |window| - 1 :: window[k].record.body.previousHash == window[k + 1].record.auditHash
    ensures Older(rows[a], rows[b])
  {
    hide Grown;
    var p :| 0 <= p < |window| && window[p] == rows[a];
    var q :| 0 <= q < |window| && window[q] == rows[b];
    if p == q {
      SamePosition(digest, rows, a, b);
    } else if p < q {
      var i, j := OlderIsEarlier(digest, rows, window, p, q);
      SamePosition(digest, rows, i, b);
      SamePosition(digest, rows, j, a);
    }
  }

  lemma SameOrOlder(digest: Digest, rows: seq<Row>, a: nat, b: nat)
    requires Grown(digest, rows) && a < |rows| && b < |rows|
    ensures a == b || Older(rows[a], rows[b]) || Older(rows[b], rows[a])
  {
    hide Linked;
  }

  // ----- What a verifying window detects -----

  /** Two windows that verify and start at the same newest record are the same as far as both go. */
  lemma WindowCommits(digest: Digest, window: seq<Record>, other: seq<Record>)
    requires Injective(digest) && SegmentOk(digest, window) && SegmentOk(digest, other)
    requires 0 < |other| <= |window| && other[0].auditHash == window[0].auditHash
    ensures other == window[..|other|]
  {
    hide ChainOk;
    var a, b := Reverse(other), Reverse(window);
    TailCommits(digest, a, a[0].body.previousHash, b, b[0].body.previousHash);
    forall k | 0 <= k < |other|
      ensures other[k] == window[k]
    {
      assert other[k] == a[|other| - 1 - k] && window[k] == b[|window| - 1 - k];
      assert a[|other| - 1 - k] == b[|b| - |a|..][|other| - 1 - k];
    }
  }

  /** A record taken out of the middle of a verifying window is noticed. */
  lemma RemovalIsDetected(digest: Digest, window: seq<Record>, k: nat)
    requires Injective(digest) && SegmentOk(digest, window) && 0 < k < |window| - 1
    requires forall i, j | 0 <= i < j < |window| :: window[i].body.auditId != window[j].body.auditId
    ensures !SegmentOk(digest, window[..k] + window[k + 1..])
  {
    hide SegmentOk;
    var other := window[..k] + window[k + 1..];
    assert other[0] == window[0] && other[k] == window[k + 1] && window[..|other|][k] == window[k];
    if SegmentOk(digest, other) {
      WindowCommits(digest, window, other);
    }
  }

  /** A record of a verifying window changed, but for its newest, is noticed. */
  lemma ChangeIsDetected(digest: Digest, window: seq<Record>, k: nat, changed: Record)
    requires Injective(digest) && SegmentOk(digest, window) && 0 < k < |window| && changed != window[k]
    ensures !SegmentOk(digest, window[k := changed])
  {
    hide SegmentOk;
    var other := window[k := changed];
    assert other[k] == changed && window[..|other|][k] == window[k];
    if SegmentOk(digest, other) {
      WindowCommits(digest, window, other);
    }
  }

  // ----- The theorems, for every sequence of appends -----

  /** A window verifies exactly when its rows were appended in strictly increasing (occurred_at, audit_id) order. */
  lemma WindowExactness(digest: Digest, calls: seq<(Id, Record)>, w: Id, limit: nat)
    requires Injective(digest)
    ensures var table := AppendAll(digest, calls);
            SegmentOk(digest, Records(Recent(table, w, limit)))
            <==> InOrderWithin(RowsOf(table, w), Recent(table, w, limit))
  {
    hide SegmentOk, InOrderWithin, Window, AppendAll, RowsOf, SortDesc;
    var rows := RowsOf(AppendAll(digest, calls), w);
    var window := Recent(AppendAll(digest, calls), w, limit);
    AppendsGrow(digest, calls);
    WindowFacts(rows, limit);
    if InOrderWithin(rows, window) {
      WindowVerifies(digest, rows, window);
    } else if SegmentOk(digest, Records(window)) {
      VerifiedIsInOrder(digest, rows, window);
    }
  }

  /** All rows in order is every covering window in order, and gives every other one. */
  lemma InOrderIsWithin(rows: seq<Row>, n: nat)
    ensures InOrder(rows) ==> InOrderWithin(rows, Take(SortDesc(rows), n))
    ensures |rows| <= n && InOrderWithin(rows, Take(SortDesc(rows), n)) ==> InOrder(rows)
  {
    hide SortDesc;
    SortFacts(rows);
    assert forall i | 0 <= i < |rows| :: rows[i] in rows;
  }

  /**
   A window that covers all of a workspace's records verifies exactly when they were appended in
   strictly increasing (occurred_at, audit_id) order.
   */
  lemma ChainExactness(digest: Digest, calls: seq<(Id, Record)>, w: Id, limit: nat)
    requires Injective(digest)
    requires |RowsOf(AppendAll(digest, calls), w)| <= limit
    ensures SegmentOk(digest, Records(Recent(AppendAll(digest, calls), w, limit)))
       <==> InOrder(RowsOf(AppendAll(digest, calls), w))
  {
    hide SegmentOk, InOrder, InOrderWithin, AppendAll, RowsOf, SortDesc;
    WindowExactness(digest, calls, w, limit);
    InOrderIsWithin(RowsOf(AppendAll(digest, calls), w), limit);
  }

  /** In that order, every shorter window verifies too, whatever the digest. */
  lemma EveryWindowVerifies(digest: Digest, calls: seq<(Id, Record)>, w: Id, limit: nat)
    requires InOrder(RowsOf(AppendAll(digest, calls), w))
    ensures SegmentOk(digest, Records(Recent(AppendAll(digest, calls), w, limit)))
  {
    hide SegmentOk, InOrder, InOrderWithin, Window, AppendAll, RowsOf, SortDesc;
    var rows := RowsOf(AppendAll(digest, calls), w);
    AppendsGrow(digest, calls);
    WindowFacts(rows, limit);
    InOrderIsWithin(rows, limit);
    WindowVerifies(digest, rows, Recent(AppendAll(digest, calls), w, limit));
  }

  /** The newest rows over all workspaces give each workspace its own most recent segment. */
  lemma GlobalWindow(table: seq<Row>, limit: nat, w: Id) returns (m: nat)
    ensures RowsOf(Take(SortDesc(table), limit), w) == Take(SortDesc(RowsOf(table, w)), m)
    ensures |table| <= limit ==> RowsOf(Take(SortDesc(table), limit), w) == SortDesc(RowsOf(table, w))
  {
    hide SortDesc, RowsOf;
    var s := SortDesc(table);
    SortFacts(table);
    RowsOfSort(table, w);
    var n := if |s| <= limit then |s| else limit;
    assert Take(s, limit) == s[..n];
    RowsOfPrefix(s, n, w);
    m := |RowsOf(s[..n], w)|;
    assert s[..|s|] == s;
  }

  /** One workspace's share of a window over all of them. */
  lemma ShareExactness(digest: Digest, calls: seq<(Id, Record)>, limit: nat, w: Id)
    ensures var table := AppendAll(digest, calls);
            var window := Take(SortDesc(table), limit);
            && (InOrderWithin(RowsOf(table, w), window) ==> SegmentOk(digest, Records(RowsOf(window, w))))
            && (Injective(digest) && SegmentOk(digest, Records(RowsOf(window, w))) ==>
                  InOrderWithin(RowsOf(table, w), window))
  {
    hide SegmentOk, Grown, Window, Injective, AppendAll, RowsOf, SortDesc, Take, Older;
    var table := AppendAll(digest, calls);
    var window := Take(SortDesc(table), limit);
    var rows := RowsOf(table, w);
    var m := GlobalWindow(table, limit, w);
    var share := RowsOf(window, w);
    AppendsGrow(digest, calls);
    assert DistinctIds(rows) by { GrownDistinct(digest, rows); }
    WindowFacts(rows, m);
    RowsOfMembers(window, w);
    RowsOfMembers(table, w);
    assert forall i | 0 <= i < |rows| :: rows[i] in rows;
    assert InOrderWithin(rows, window) <==> InOrderWithin(rows, share);
    if InOrderWithin(rows, share) {
      WindowVerifies(digest, rows, share);
    } else if Injective(digest) && SegmentOk(digest, Records(share)) {
      VerifiedIsInOrder(digest, rows, share);
    }
  }

  lemma GrownDistinct(digest: Digest, rows: seq<Row>)
    requires Grown(digest, rows)
    ensures DistinctIds(rows)
  {
  }

  /**
   Verification over all workspaces succeeds, for every limit, exactly when every workspace's rows in the
   window were appended in order.
   */
  lemma GlobalWindowExactness(digest: Digest, calls: seq<(Id, Record)>, limit: nat)
    requires Injective(digest)
    ensures var table := AppendAll(digest, calls);
            GlobalOk(digest, table, limit) <==> AllInOrderWithin(table, Take(SortDesc(table), limit))
  {
    hide SegmentOk, InOrderWithin, Injective, AppendAll, RowsOf, SortDesc, Take;
    var table := AppendAll(digest, calls);
    var window := Take(SortDesc(table), limit);
    if GlobalOk(digest, table, limit) {
      forall w
        ensures InOrderWithin(RowsOf(table, w), window)
      {
        ShareExactness(digest, calls, limit, w);
        if exists i | 0 <= i < |window| :: window[i].workspace == w {
          var i :| 0 <= i < |window| && window[i].workspace == w;
          assert SegmentOk(digest, Records(RowsOf(window, window[i].workspace)));
        } else {
          NoneInWindow(table, window, w);
        }
      }
    }
    if AllInOrderWithin(table, window) {
      forall i | 0 <= i < |window|
        ensures SegmentOk(digest, Records(RowsOf(window, window[i].workspace)))
      {
        ShareExactness(digest, calls, limit, window[i].workspace);
      }
    }
  }

  lemma NoneInWindow(table: seq<Row>, window: seq<Row>, w: Id)
    requires !exists i | 0 <= i < |window| :: window[i].workspace == w
    ensures InOrderWithin(RowsOf(table, w), window)
  {
    RowsOfMembers(table, w);
    assert forall i | 0 <= i < |RowsOf(table, w)| :: RowsOf(table, w)[i] in RowsOf(table, w);
  }

  /** With every chain in order, verification over all workspaces succeeds for every limit. */
  lemma GlobalVerifies(digest: Digest, calls: seq<(Id, Record)>, limit: nat)
    requires AllInOrder(AppendAll(digest, calls))
    ensures GlobalOk(digest, AppendAll(digest, calls), limit)
  {
    hide SegmentOk, AppendAll, RowsOf, SortDesc, Take;
    var table := AppendAll(digest, calls);
    var window := Take(SortDesc(table), limit);
    forall i | 0 <= i < |window|
      ensures SegmentOk(digest, Records(RowsOf(window, window[i].workspace)))
    {
      ShareExactness(digest, calls, limit, window[i].workspace);
      assert InOrder(RowsOf(table, window[i].workspace));
    }
  }

  /** Over a window that covers the table it succeeds exactly when every workspace was in order. */
  lemma GlobalExactness(digest: Digest, calls: seq<(Id, Record)>, limit: nat)
    requires Injective(digest) && |AppendAll(digest, calls)| <= limit
    ensures GlobalOk(digest, AppendAll(digest, calls), limit)
       <==> AllInOrder(AppendAll(digest, calls))
  {
    hide SegmentOk, Injective, AppendAll, RowsOf, SortDesc, GlobalOk, Older;
    var table := AppendAll(digest, calls);
    GlobalWindowExactness(digest, calls, limit);
    SortFacts(table);
    forall w
      ensures InOrderWithin(RowsOf(table, w), SortDesc(table)) <==> InOrder(RowsOf(table, w))
    {
      hide AllInOrder, AllInOrderWithin;
      RowsOfMembers(table, w);
      assert forall i | 0 <= i < |RowsOf(table, w)| :: RowsOf(table, w)[i] in RowsOf(table, w);
    }
    assert Take(SortDesc(table), limit) == SortDesc(table);
  }
}

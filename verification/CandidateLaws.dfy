/** What persisting candidates keeps over every run, and that persisting again adds nothing. */
module CandidateLaws {
  import opened Wrappers
  import opened CandidateModel

  // ----- What persisting keeps -----

  /** Nothing stored is lost or altered, and a compiled hash a skill has stays with the same versions. */
  ghost predicate Extends(a: Db, b: Db) {
    && SkillsStay(a.skills, b.skills)
    && VersionsStay(a.versions, b.versions)
    && Within(a.files, b.files) && Within(a.documents, b.documents) && Within(a.probes, b.probes)
    && Within(a.gates, b.gates) && Within(a.items, b.items) && a.edges <= b.edges
  }

  ghost predicate Within<K, V>(a: map<K, V>, b: map<K, V>) {
    forall k | k in a :: k in b && b[k] == a[k]
  }

  predicate SkillsStay(a: map<string, SkillRow>, b: map<string, SkillRow>) {
    forall t | t in a :: t in b && b[t].id == a[t].id && b[t].name == a[t].name
  }

  ghost predicate VersionsStay(a: map<Key, VersionRow>, b: map<Key, VersionRow>) {
    Within(a, b) && forall s, sha | Matching(a, s, sha) != {} :: Matching(b, s, sha) == Matching(a, s, sha)
  }

  lemma ExtendsTransitive(a: Db, b: Db, c: Db)
    requires Extends(a, b) && Extends(b, c)
    ensures Extends(a, c)
  {
    hide Matching;
  }

  /** The version that holds the proposal. */
  ghost function Home(db: Db, p: Proposal): Key
    requires !Skipped(p) && p.skill.value.slug in db.skills
  {
    KeyFor(db.versions, db.skills[p.skill.value.slug].id, p.compiledSha)
  }

  ghost predicate Placed(db: Db, p: Proposal)
    requires !Skipped(p)
  {
    && p.compiledSha.Some? && p.skill.value.slug in db.skills
    && Matching(db.versions, db.skills[p.skill.value.slug].id, p.compiledSha) != {}
  }

  lemma HomeStored(db: Db, p: Proposal)
    requires !Skipped(p) && Placed(db, p)
    ensures Home(db, p) in db.versions && Home(db, p).skill == db.skills[p.skill.value.slug].id
    ensures db.versions[Home(db, p)].sha == p.compiledSha
  {
    hide Top;
    var s := db.skills[p.skill.value.slug].id;
    var m := Matching(db.versions, s, p.compiledSha);
    var k :| k in m;
    if Top(m, s) == 0 {
      assert k.number == 0;
      assert k == Key(s, 0);
    }
  }

  /** Every row that persisting p would insert is there. */
  ghost predicate Covered(db: Db, tx: Option<Id>, p: Proposal)
    requires !Skipped(p)
  {
    && Placed(db, p)
    && var k := Home(db, p);
       RowsAt(db, tx, p, k)
  }

  predicate RowsAt(db: Db, tx: Option<Id>, p: Proposal, k: Key)
    requires !Skipped(p) && p.compiledSha.Some?
  {
    && FileKey(k, p.slug, p.compiledSha.value) in db.files
    && DocumentKey(k, IrDocument(k.skill, p.skill.value.ir)) in db.documents
    && DocumentKey(k, RuntimeDocument(p.runtimeText.value)) in db.documents
    && EdgesOf(p.evidence, k) <= db.edges
    && HashesIn(p.probePlan, db.probes)
    && k in db.gates
    && (tx.Some? ==> ItemKey(tx.value, SkillVersionItem, k, p.compiledSha.value) in db.items
                     && ItemKey(tx.value, CompiledFileItem(p.slug), k, p.compiledSha.value) in db.items)
  }

  predicate HashesIn(plan: seq<PlannedProbe>, probes: map<Hash, ProbeRow>) {
    forall q | q in plan && !Blocking(q.findings) :: q.hash in probes
  }

  lemma {:induction false} ProbesOnceFacts(m: map<Hash, ProbeRow>, plan: seq<PlannedProbe>, k: Key, slug: string)
    ensures Within(m, ProbesOnce(m, plan, k, slug))
    ensures HashesIn(plan, ProbesOnce(m, plan, k, slug))
    ensures HashesIn(plan, m) ==> ProbesOnce(m, plan, k, slug) == m
  {
    hide Blocking;
    if plan != [] {
      var front, last := plan[..|plan| - 1], plan[|plan| - 1];
      ProbesOnceFacts(m, front, k, slug);
      assert plan == front + [last];
    }
  }

  /** Attaching keeps what is stored, completes the rows of the version, and leaves complete rows alone. */
  lemma AttachedFacts(db: Db, tx: Option<Id>, p: Proposal, k: Key, scanner: Status)
    requires !Skipped(p) && p.compiledSha.Some?
    ensures var next := Attached(db, tx, p, k, scanner);
            && RowsAt(next, tx, p, k)
            && next.skills == db.skills && next.versions == db.versions
            && Within(db.files, next.files) && Within(db.documents, next.documents) && Within(db.probes, next.probes)
            && Within(db.gates, next.gates) && Within(db.items, next.items) && db.edges <= next.edges
            && (RowsAt(db, tx, p, k) ==> next == db.(artifacts := next.artifacts))
            && next.artifacts == db.artifacts[ArtifactKey(k, p.compiledSha.value) := ArtifactOf(p, scanner)]
  {
    hide ProbesOnce, HashesIn, EdgesOf, GateOf, ArtifactOf;
    ProbesOnceFacts(db.probes, p.probePlan, k, p.slug);
    if EdgesOf(p.evidence, k) <= db.edges {
      assert db.edges + EdgesOf(p.evidence, k) == db.edges;
    }
  }

  lemma VersionStepFacts(versions: map<Key, VersionRow>, s: Id, p: Proposal, tx: Option<Id>)
    requires !Skipped(p) && p.compiledSha.Some?
    ensures var next, k := VersionStep(versions, s, p, tx), KeyFor(versions, s, p.compiledSha);
            && VersionsStay(versions, next) && k in next && k.skill == s
            && Matching(next, s, p.compiledSha) != {} && KeyFor(next, s, p.compiledSha) == k
            && (k in versions <==> Matching(versions, s, p.compiledSha) != {})
            && (Matching(versions, s, p.compiledSha) != {} ==> next == versions)
  {
    hide Top;
    var m := Matching(versions, s, p.compiledSha);
    var next, k := VersionStep(versions, s, p, tx), KeyFor(versions, s, p.compiledSha);
    if m != {} {
      var j :| j in m;
      assert j.number == 0 ==> j == Key(s, 0);
    } else {
      assert Matching(next, s, p.compiledSha) == {k};
      TopIs({k}, s, k.number);
      forall t: Id, sha: Option<Hash> | Matching(versions, t, sha) != {}
        ensures Matching(next, t, sha) == Matching(versions, t, sha)
      {
        assert (t, sha) != (s, p.compiledSha);
      }
    }
  }

  /** The report on a covered proposal. */
  ghost function RowOf(db: Db, tx: Option<Id>, p: Proposal): Persisted
    requires !Skipped(p) && Placed(db, p)
  {
    HomeStored(db, p);
    var v := db.versions[Home(db, p)];
    Persisted(p.slug, tx, Home(db, p), false, v.scanner, v.evaluator, OkHashes(p.probePlan), GateStatus(p, v.scanner))
  }

  /** The artifact row that persisting p writes. */
  ghost function UpdateOf(db: Db, p: Proposal): (ArtifactKey, Artifact)
    requires !Skipped(p) && Placed(db, p)
  {
    HomeStored(db, p);
    (ArtifactKey(Home(db, p), p.compiledSha.value), ArtifactOf(p, db.versions[Home(db, p)].scanner))
  }

  lemma OneFacts(db: Db, tx: Option<Id>, p: Proposal, now: Time)
    requires !Skipped(p) && PersistOne(db, tx, p, now).Some?
    ensures var step := PersistOne(db, tx, p, now).value;
            && Extends(db, step.db) && Covered(step.db, tx, p)
            && step.row.(created := false) == RowOf(step.db, tx, p)
            && step.db.artifacts == db.artifacts[UpdateOf(step.db, p).0 := UpdateOf(step.db, p).1]
  {
    hide Attached, VersionStep, KeyFor, Matching, RowsAt, ArtifactOf, GateStatus, OkHashes, IdTaken;
    var skill := p.skill.value;
    var skills := SkillStep(db.skills, skill, now).value;
    var s := skills[skill.slug].id;
    var versions, k := VersionStep(db.versions, s, p, tx), KeyFor(db.versions, s, p.compiledSha);
    VersionStepFacts(db.versions, s, p, tx);
    AttachedFacts(db.(skills := skills, versions := versions), tx, p, k, versions[k].scanner);
  }

  /** What a step with nothing to insert does: a clock and the artifact. */
  lemma OneCovered(db: Db, tx: Option<Id>, p: Proposal, now: Time)
    requires !Skipped(p) && Covered(db, tx, p)
    ensures PersistOne(db, tx, p, now).Some?
    ensures var step := PersistOne(db, tx, p, now).value;
            && step.db == db.(skills := step.db.skills, artifacts := step.db.artifacts)
            && step.db.skills.Keys == db.skills.Keys
            && !step.row.created
  {
    hide Attached, VersionStep, KeyFor, Matching, RowsAt, ArtifactOf, GateStatus, OkHashes;
    var skill := p.skill.value;
    var skills := SkillStep(db.skills, skill, now).value;
    var s := skills[skill.slug].id;
    VersionStepFacts(db.versions, s, p, tx);
    var k := KeyFor(db.versions, s, p.compiledSha);
    var clocked := db.(skills := skills);
    assert RowsAt(clocked, tx, p, k) by { RowsAtSkills(db, skills, tx, p, k); }
    AttachedFacts(clocked, tx, p, k, db.versions[k].scanner);
    assert db.(skills := skills, versions := db.versions) == clocked;
  }

  lemma RowsAtSkills(db: Db, skills: map<string, SkillRow>, tx: Option<Id>, p: Proposal, k: Key)
    requires !Skipped(p) && p.compiledSha.Some? && RowsAt(db, tx, p, k)
    ensures RowsAt(db.(skills := skills), tx, p, k)
  {
  }

  lemma CoveredKept(a: Db, b: Db, tx: Option<Id>, p: Proposal)
    requires !Skipped(p) && Extends(a, b) && Covered(a, tx, p)
    ensures Covered(b, tx, p) && RowOf(b, tx, p) == RowOf(a, tx, p) && UpdateOf(b, p) == UpdateOf(a, p)
  {
    hide Matching, Top, ArtifactOf, GateStatus, OkHashes, EdgesOf;
    HomeStored(a, p);
    assert Home(b, p) == Home(a, p);
  }

  // ----- Batches -----

  ghost predicate AllCovered(db: Db, tx: Option<Id>, ps: seq<Proposal>) {
    forall p | p in ps && !Skipped(p) :: Covered(db, tx, p)
  }

  ghost function RowsOf(db: Db, tx: Option<Id>, ps: seq<Proposal>): seq<Persisted>
    requires AllCovered(db, tx, ps)
  {
    if ps == [] then [] else
      RowsOf(db, tx, ps[..|ps| - 1]) + if Skipped(ps[|ps| - 1]) then [] else [RowOf(db, tx, ps[|ps| - 1])]
  }

  ghost function Updates(db: Db, tx: Option<Id>, ps: seq<Proposal>): seq<(ArtifactKey, Artifact)>
    requires AllCovered(db, tx, ps)
  {
    if ps == [] then [] else
      Updates(db, tx, ps[..|ps| - 1]) + if Skipped(ps[|ps| - 1]) then [] else [UpdateOf(db, ps[|ps| - 1])]
  }

  /** The rows with the updates applied in order. */
  function Put<K, V>(m: map<K, V>, updates: seq<(K, V)>): map<K, V> {
    if updates == [] then m else
      var last := updates[|updates| - 1];
      Put(m, updates[..|updates| - 1])[last.0 := last.1]
  }

  function Again(rows: seq<Persisted>): seq<Persisted> {
    seq(|rows|, i requires 0 <= i < |rows| => rows[i].(created := false))
  }

  lemma {:induction false} AllCoveredKept(a: Db, b: Db, tx: Option<Id>, ps: seq<Proposal>)
    requires Extends(a, b) && AllCovered(a, tx, ps)
    ensures AllCovered(b, tx, ps) && RowsOf(b, tx, ps) == RowsOf(a, tx, ps) && Updates(b, tx, ps) == Updates(a, tx, ps)
  {
    hide Extends, Covered, RowOf, UpdateOf;
    forall p | p in ps && !Skipped(p)
      ensures Covered(b, tx, p)
    {
      CoveredKept(a, b, tx, p);
    }
    if ps != [] {
      AllCoveredKept(a, b, tx, ps[..|ps| - 1]);
      if !Skipped(ps[|ps| - 1]) {
        CoveredKept(a, b, tx, ps[|ps| - 1]);
      }
    }
  }

  lemma ExtendsItself(db: Db)
    ensures Extends(db, db)
  {
  }

  /** One more proposal in the lists. */
  lemma ListsSnoc(db: Db, tx: Option<Id>, ps: seq<Proposal>)
    requires ps != [] && AllCovered(db, tx, ps[..|ps| - 1])
    requires !Skipped(ps[|ps| - 1]) ==> Covered(db, tx, ps[|ps| - 1])
    ensures AllCovered(db, tx, ps)
    ensures !Skipped(ps[|ps| - 1]) ==> Placed(db, ps[|ps| - 1])
    ensures Updates(db, tx, ps) == Updates(db, tx, ps[..|ps| - 1])
                                   + if Skipped(ps[|ps| - 1]) then [] else [UpdateOf(db, ps[|ps| - 1])]
  {
    hide UpdateOf, Placed, RowOf;
    if !Skipped(ps[|ps| - 1]) {
      CoveredPlaced(db, tx, ps[|ps| - 1]);
    }
    assert ps == ps[..|ps| - 1] + [ps[|ps| - 1]];
  }

  lemma {:induction false} BatchFacts(db: Db, tx: Option<Id>, ps: seq<Proposal>, now: Time)
    requires PersistAll(db, tx, ps, now).Some?
    ensures var r := PersistAll(db, tx, ps, now).value;
            && Extends(db, r.db) && AllCovered(r.db, tx, ps)
            && Again(r.rows) == RowsOf(r.db, tx, ps)
            && r.db.artifacts == Put(db.artifacts, Updates(r.db, tx, ps))
  {
    hide Extends, Covered, PersistOne, RowOf, UpdateOf;
    var r := PersistAll(db, tx, ps, now).value;
    if ps == [] {
      ExtendsItself(db);
    } else {
      var front, p := ps[..|ps| - 1], ps[|ps| - 1];
      BatchFacts(db, tx, front, now);
      var mid := PersistAll(db, tx, front, now).value;
      if !Skipped(p) {
        OneFacts(mid.db, tx, p, now);
        ExtendsTransitive(db, mid.db, r.db);
        AllCoveredKept(mid.db, r.db, tx, front);
        AgainSnoc(mid.rows, r.rows[|mid.rows|]);
        CoveredPlaced(r.db, tx, p);
        assert Updates(r.db, tx, front) == Updates(mid.db, tx, front);
        PutSnoc(db.artifacts, Updates(mid.db, tx, front), UpdateOf(r.db, p));
        ListsSnoc(r.db, tx, ps);
      } else {
        ListsSnoc(r.db, tx, ps);
        assert Updates(r.db, tx, ps) == Updates(r.db, tx, front);
      }
    }
  }

  lemma CoveredPlaced(db: Db, tx: Option<Id>, p: Proposal)
    requires !Skipped(p) && Covered(db, tx, p)
    ensures Placed(db, p)
  {
  }

  lemma PutSnoc<K, V>(m: map<K, V>, updates: seq<(K, V)>, last: (K, V))
    ensures Put(m, updates + [last]) == Put(m, updates)[last.0 := last.1]
  {
    assert (updates + [last])[..|updates|] == updates;
  }

  lemma AgainSnoc(rows: seq<Persisted>, row: Persisted)
    ensures Again(rows + [row]) == Again(rows) + [row.(created := false)]
  {
  }

  /** Same rows, up to the clock of a skill. */
  predicate SameButClocks(a: Db, b: Db) {
    && b == a.(skills := b.skills)
    && b.skills.Keys == a.skills.Keys
    && forall t | t in a.skills :: b.skills[t] == a.skills[t].(updatedAt := b.skills[t].updatedAt)
  }

  ghost predicate NoneCreated(rows: seq<Persisted>) {
    forall i | 0 <= i < |rows| :: !rows[i].created
  }

  /** A batch of covered proposals succeeds and writes clocks and artifacts only. */
  lemma {:induction false} CoveredBatch(db: Db, tx: Option<Id>, ps: seq<Proposal>, now: Time)
    requires AllCovered(db, tx, ps)
    ensures PersistAll(db, tx, ps, now).Some?
    ensures var r := PersistAll(db, tx, ps, now).value;
            && Extends(db, r.db) && r.db.skills.Keys == db.skills.Keys
            && r.db == db.(skills := r.db.skills, artifacts := r.db.artifacts)
            && NoneCreated(r.rows)
  {
    hide Extends, Covered, PersistOne, RowOf, UpdateOf;
    if ps == [] {
      ExtendsItself(db);
    } else {
      var front, p := ps[..|ps| - 1], ps[|ps| - 1];
      CoveredBatch(db, tx, front, now);
      var mid := PersistAll(db, tx, front, now).value;
      if !Skipped(p) {
        CoveredKept(db, mid.db, tx, p);
        OneCovered(mid.db, tx, p, now);
        OneFacts(mid.db, tx, p, now);
        ExtendsTransitive(db, mid.db, PersistOne(mid.db, tx, p, now).value.db);
      }
    }
  }

  // ----- What a new version and its gate say -----

  predicate Blocks(findings: seq<Severity>) {
    Error in findings || Critical in findings
  }

  lemma BlockingMeans(findings: seq<Severity>)
    ensures Blocking(findings) <==> Blocks(findings)
  {
  }

  lemma {:induction false} HashesMean(plan: seq<PlannedProbe>)
    ensures forall h :: h in OkHashes(plan)
                 <==> exists i | 0 <= i < |plan| :: plan[i].hash == h && !Blocks(plan[i].findings)
    ensures forall h :: h in BlockedHashes(plan)
                 <==> exists i | 0 <= i < |plan| :: plan[i].hash == h && Blocks(plan[i].findings)
    ensures |OkHashes(plan)| + |BlockedHashes(plan)| == |plan|
  {
    hide Blocking, Blocks;
    if plan != [] {
      var front, last := plan[..|plan| - 1], plan[|plan| - 1];
      HashesMean(front);
      BlockingMeans(last.findings);
      assert forall i | 0 <= i < |front| :: front[i] == plan[i];
      assert plan[|plan| - 1] == last;
    }
  }

  /** A gate is blocked by its version's scanner or by one of its probes, and says which. */
  ghost predicate GateFits(gate: GateRow, p: Proposal, scanner: Status) {
    && (gate.status == Blocked <==> scanner != Passed || exists q | q in p.probePlan :: Blocks(q.findings))
    && (gate.status == Planned <==> gate.status != Blocked)
    && (ScannerBlocked in gate.reasons <==> scanner != Passed)
    && (ProbeScannerBlocked in gate.reasons <==> exists q | q in p.probePlan :: Blocks(q.findings))
    && (forall h :: h in gate.probeHashes
             <==> exists i | 0 <= i < |p.probePlan| :: p.probePlan[i].hash == h && !Blocks(p.probePlan[i].findings))
    && gate.scanner == scanner && gate.slug == p.slug && gate.metadata == p.metadata
  }

  lemma GateMeans(p: Proposal, scanner: Status)
    ensures GateFits(GateOf(p, scanner), p, scanner)
  {
    hide OkHashes, BlockedHashes, Blocks;
    HashesMean(p.probePlan);
    var blocked := BlockedHashes(p.probePlan);
    if blocked != [] {
      assert blocked[0] in blocked;
      var i :| 0 <= i < |p.probePlan| && p.probePlan[i].hash == blocked[0] && Blocks(p.probePlan[i].findings);
      assert p.probePlan[i] in p.probePlan;
    }
    if q :| q in p.probePlan && Blocks(q.findings) {
      var i :| 0 <= i < |p.probePlan| && p.probePlan[i] == q;
      assert q.hash in blocked;
    }
  }

  /** The artifact says whether the scanner passed and whether the text fits into 1200 tokens of four characters. */
  lemma ArtifactMeans(p: Proposal, scanner: Status)
    requires !Skipped(p)
    ensures var a := ArtifactOf(p, scanner);
            && (a.safety == if scanner == Passed then Passed else Blocked)
            && (a.budget == if |p.runtimeText.value| <= 4800 then Passed else OverBudget)
            && a.equivalence == Passed && a.shadowing == Pending && a.maxTokens == 1200
            && a.tokens >= 1 && 4 * a.tokens >= |p.runtimeText.value|
            && (a.tokens > 1 ==> 4 * (a.tokens - 1) < |p.runtimeText.value|)
  {
  }

  /** What persisting a proposal stores for a new version and a new gate. */
  lemma OneMeans(db: Db, tx: Option<Id>, p: Proposal, now: Time)
    requires !Skipped(p) && PersistOne(db, tx, p, now).Some?
    ensures var Step(next, row) := PersistOne(db, tx, p, now).value;
            && row.key in next.versions && row.key in next.gates
            && row.created == (row.key !in db.versions)
            && (row.created ==>
                  var v := next.versions[row.key];
                  && v.sha == p.compiledSha && v.evaluator == Pending && v.transaction == tx
                  && v.ir == IrDocument(row.key.skill, p.skill.value.ir) && v.metadata == p.metadata
                  && v.scanner == if Blocks(p.findings) then Blocked else Passed)
            && row.scanner == next.versions[row.key].scanner
            && (row.key !in db.gates ==> GateFits(next.gates[row.key], p, row.scanner))
            && (row.evaluation == Blocked
                <==> row.scanner != Passed || exists q | q in p.probePlan :: Blocks(q.findings))
  {
    hide ProbesOnce, EdgesOf, DocumentsOnce, ItemsOnce, ArtifactOf, OkHashes, BlockedHashes, Matching, Top,
         IdTaken, Blocks, GateFits, GateOf, GateStatus;
    var skill := p.skill.value;
    var skills := SkillStep(db.skills, skill, now).value;
    var s := skills[skill.slug].id;
    VersionStepFacts(db.versions, s, p, tx);
    BlockingMeans(p.findings);
    var scanner := PersistOne(db, tx, p, now).value.row.scanner;
    GateMeans(p, scanner);
    GateStatusOf(p, scanner);
  }

  /** What the rows that hang on a version hold when they are new. */
  lemma AttachedMeans(db: Db, tx: Option<Id>, p: Proposal, k: Key, scanner: Status)
    requires !Skipped(p) && p.compiledSha.Some?
    ensures var next := Attached(db, tx, p, k, scanner);
            var file := FileKey(k, p.slug, p.compiledSha.value);
            var ir, body := DocumentKey(k, IrDocument(k.skill, p.skill.value.ir)),
                            DocumentKey(k, RuntimeDocument(p.runtimeText.value));
            && file in next.files && (file !in db.files ==> next.files[file] == p.runtimeText.value)
            && next.files.Keys == db.files.Keys + {file}
            && next.documents.Keys == db.documents.Keys + {ir, body}
            && (ir !in db.documents ==> next.documents[ir] == if scanner == Passed then Passed else Blocked)
            && (body !in db.documents ==> next.documents[body] == if scanner == Passed then Passed else Blocked)
            && (forall e :: e in next.edges <==> e in db.edges || (e.version == k && Some(e.evidence) in p.evidence))
            && (tx.None? ==> next.items == db.items)
            && (tx.Some? ==>
                  next.items.Keys
                  == db.items.Keys + {ItemKey(tx.value, SkillVersionItem, k, p.compiledSha.value),
                                      ItemKey(tx.value, CompiledFileItem(p.slug), k, p.compiledSha.value)})
  {
    hide ProbesOnce, GateOf, ArtifactOf;
  }

  /** The stored probes: the unblocked ones, each with the contents of its first mention when it is new. */
  lemma {:induction false} ProbesMean(m: map<Hash, ProbeRow>, plan: seq<PlannedProbe>, k: Key, slug: string)
    ensures var after := ProbesOnce(m, plan, k, slug);
            && (forall h :: h in after
                     <==> h in m || exists i | 0 <= i < |plan| :: plan[i].hash == h && !Blocks(plan[i].findings))
            && (forall h | h in m :: after[h] == m[h])
            && (forall h | h in after && h !in m ::
                  && after[h].version == k && after[h].slug == slug
                  && exists i | 0 <= i < |plan| ::
                       plan[i].hash == h && !Blocks(plan[i].findings) && after[h].content == plan[i].content)
  {
    hide Blocking, Blocks;
    if plan != [] {
      var front, last := plan[..|plan| - 1], plan[|plan| - 1];
      ProbesMean(m, front, k, slug);
      BlockingMeans(last.findings);
      assert forall i | 0 <= i < |front| :: front[i] == plan[i];
      assert plan[|plan| - 1] == last;
    }
  }

  lemma GateStatusOf(p: Proposal, scanner: Status)
    ensures GateOf(p, scanner).status == GateStatus(p, scanner)
    ensures GateFits(GateOf(p, scanner), p, scanner) ==>
              (GateStatus(p, scanner) == Blocked
               <==> scanner != Passed || exists q | q in p.probePlan :: Blocks(q.findings))
  {
    hide OkHashes, BlockedHashes, Blocks;
  }

  // ----- When a batch succeeds -----

  /** Proposal i is the first of the batch for a slug that has no skill yet. */
  predicate Creates(skills: map<string, SkillRow>, ps: seq<Proposal>, i: nat)
    requires i < |ps|
  {
    && !Skipped(ps[i]) && ps[i].skill.value.slug !in skills
    && forall j | 0 <= j < i && !Skipped(ps[j]) :: ps[j].skill.value.slug != ps[i].skill.value.slug
  }

  predicate ProposesSlug(ps: seq<Proposal>, slug: string) {
    exists i | 0 <= i < |ps| :: !Skipped(ps[i]) && ps[i].skill.value.slug == slug
  }

  predicate CreatesId(skills: map<string, SkillRow>, ps: seq<Proposal>, id: Id) {
    exists i | 0 <= i < |ps| :: Creates(skills, ps, i) && ps[i].skill.value.id == id
  }

  /** Every text comes with its hash, and every skill that is created has an id of its own. */
  predicate Acceptable(skills: map<string, SkillRow>, ps: seq<Proposal>) {
    && (forall i | 0 <= i < |ps| && !Skipped(ps[i]) :: ps[i].compiledSha.Some?)
    && (forall i | 0 <= i < |ps| && Creates(skills, ps, i) :: !IdTaken(skills, ps[i].skill.value.id))
    && (forall i, j | 0 <= i < j < |ps| && Creates(skills, ps, i) && Creates(skills, ps, j) ::
          ps[i].skill.value.id != ps[j].skill.value.id)
  }

  /** One more proposal creates a skill exactly when its slug is new to the table and to the batch. */
  lemma CreatesSnoc(skills: map<string, SkillRow>, ps: seq<Proposal>, p: Proposal)
    ensures forall i | 0 <= i < |ps| :: Creates(skills, ps + [p], i) <==> Creates(skills, ps, i)
    ensures Creates(skills, ps + [p], |ps|)
       <==> !Skipped(p) && p.skill.value.slug !in skills && !ProposesSlug(ps, p.skill.value.slug)
  {
    hide Skipped;
    var all := ps + [p];
    assert forall j | 0 <= j < |ps| :: all[j] == ps[j];
    assert all[|ps|] == p;
  }

  lemma ProposesSnoc(ps: seq<Proposal>, p: Proposal, slug: string)
    ensures ProposesSlug(ps + [p], slug)
       <==> ProposesSlug(ps, slug) || (!Skipped(p) && p.skill.value.slug == slug)
  {
    hide Skipped;
    var all := ps + [p];
    assert forall j | 0 <= j < |ps| :: all[j] == ps[j];
    assert all[|ps|] == p;
  }

  lemma CreatesIdSnoc(skills: map<string, SkillRow>, ps: seq<Proposal>, p: Proposal, id: Id)
    ensures CreatesId(skills, ps + [p], id)
       <==> CreatesId(skills, ps, id) || (Creates(skills, ps + [p], |ps|) && p.skill.value.id == id)
  {
    CreatesSnoc(skills, ps, p);
    hide Creates, Skipped;
    var all := ps + [p];
    assert forall j | 0 <= j < |ps| :: all[j] == ps[j];
    assert all[|ps|] == p;
  }

  lemma AcceptableSnoc(skills: map<string, SkillRow>, ps: seq<Proposal>, p: Proposal)
    ensures Acceptable(skills, ps + [p])
       <==> && Acceptable(skills, ps) && (!Skipped(p) ==> p.compiledSha.Some?)
            && (Creates(skills, ps + [p], |ps|) ==>
                  !IdTaken(skills, p.skill.value.id) && !CreatesId(skills, ps, p.skill.value.id))
  {
    CreatesSnoc(skills, ps, p);
    hide Creates, Skipped, IdTaken;
    var all := ps + [p];
    assert forall j | 0 <= j < |ps| :: all[j] == ps[j];
    assert all[|ps|] == p;
  }

  /** The slugs and ids that are taken once the batch is through. */
  ghost predicate SkillsAfter(before: map<string, SkillRow>, ps: seq<Proposal>, after: map<string, SkillRow>) {
    && (forall t :: t in after <==> t in before || ProposesSlug(ps, t))
    && (forall id :: IdTaken(after, id) <==> IdTaken(before, id) || CreatesId(before, ps, id))
  }

  lemma SkillStepTaken(skills: map<string, SkillRow>, skill: Skill, now: Time)
    requires SkillStep(skills, skill, now).Some?
    ensures var next := SkillStep(skills, skill, now).value;
            && (forall t :: t in next <==> t in skills || t == skill.slug)
            && (forall id :: IdTaken(next, id) <==> IdTaken(skills, id) || (skill.slug !in skills && id == skill.id))
  {
    var next := SkillStep(skills, skill, now).value;
    forall id | IdTaken(skills, id)
      ensures IdTaken(next, id)
    {
      var t :| t in skills && skills[t].id == id;
      assert next[t].id == id;
    }
    assert skill.slug in next;
  }

  lemma PersistOneSkills(db: Db, tx: Option<Id>, p: Proposal, now: Time)
    requires !Skipped(p)
    ensures PersistOne(db, tx, p, now).Some?
       <==> p.compiledSha.Some? && SkillStep(db.skills, p.skill.value, now).Some?
    ensures PersistOne(db, tx, p, now).Some? ==>
              Some(PersistOne(db, tx, p, now).value.db.skills) == SkillStep(db.skills, p.skill.value, now)
  {
    hide VersionStep, KeyFor, SkillStep, ArtifactOf, GateOf, GateStatus, OkHashes, ProbesOnce, EdgesOf,
         DocumentsOnce, ItemsOnce, Once;
    if SkillStep(db.skills, p.skill.value, now).Some? && p.compiledSha.Some? {
      var skills := SkillStep(db.skills, p.skill.value, now).value;
      SkillStepTaken(db.skills, p.skill.value, now);
      VersionStepFacts(db.versions, skills[p.skill.value.slug].id, p, tx);
    }
  }

  lemma NothingCreated(skills: map<string, SkillRow>)
    ensures Acceptable(skills, []) && SkillsAfter(skills, [], skills)
  {
  }

  lemma SkillsAfterSnoc(before: map<string, SkillRow>, ps: seq<Proposal>, p: Proposal, mid: map<string, SkillRow>,
                        now: Time)
    requires SkillsAfter(before, ps, mid)
    ensures !Skipped(p) ==>
              (SkillStep(mid, p.skill.value, now).Some?
               <==> (Creates(before, ps + [p], |ps|) ==>
                       !IdTaken(before, p.skill.value.id) && !CreatesId(before, ps, p.skill.value.id)))
    ensures !Skipped(p) && SkillStep(mid, p.skill.value, now).Some? ==>
              SkillsAfter(before, ps + [p], SkillStep(mid, p.skill.value, now).value)
    ensures Skipped(p) ==> SkillsAfter(before, ps + [p], mid)
  {
    CreatesSnoc(before, ps, p);
    forall t
      ensures ProposesSlug(ps + [p], t) <==> ProposesSlug(ps, t) || (!Skipped(p) && p.skill.value.slug == t)
    {
      ProposesSnoc(ps, p, t);
    }
    forall id
      ensures CreatesId(before, ps + [p], id)
         <==> CreatesId(before, ps, id) || (Creates(before, ps + [p], |ps|) && p.skill.value.id == id)
    {
      CreatesIdSnoc(before, ps, p, id);
    }
    hide Creates, CreatesId, ProposesSlug, IdTaken;
    if !Skipped(p) && SkillStep(mid, p.skill.value, now).Some? {
      SkillStepTaken(mid, p.skill.value, now);
    }
  }

  /**
   A batch succeeds exactly when every compiled text comes with its hash and every skill it creates, the first
   proposal for a new slug, has an id that neither the table nor another skill it creates has.
   */
  lemma {:induction false} BatchSucceeds(db: Db, tx: Option<Id>, ps: seq<Proposal>, now: Time)
    ensures PersistAll(db, tx, ps, now).Some? <==> Acceptable(db.skills, ps)
    ensures PersistAll(db, tx, ps, now).Some? ==>
              SkillsAfter(db.skills, ps, PersistAll(db, tx, ps, now).value.db.skills)
  {
    hide PersistOne, SkillStep, Acceptable, SkillsAfter, Creates, CreatesId, IdTaken;
    if ps == [] {
      NothingCreated(db.skills);
    } else {
      var front, p := ps[..|ps| - 1], ps[|ps| - 1];
      assert ps == front + [p];
      BatchSucceeds(db, tx, front, now);
      AcceptableSnoc(db.skills, front, p);
      if PersistAll(db, tx, front, now).Some? {
        var mid := PersistAll(db, tx, front, now).value.db;
        SkillsAfterSnoc(db.skills, front, p, mid.skills, now);
        if !Skipped(p) {
          PersistOneSkills(mid, tx, p, now);
        }
      }
      if Skipped(p) {
        SkippedCreatesNothing(db.skills, front, p);
      }
    }
  }

  lemma SkippedCreatesNothing(skills: map<string, SkillRow>, ps: seq<Proposal>, p: Proposal)
    requires Skipped(p)
    ensures !Creates(skills, ps + [p], |ps|)
  {
  }

  // ----- The last writer wins -----

  ghost predicate Named<K, V>(updates: seq<(K, V)>, k: K) {
    exists i | 0 <= i < |updates| :: updates[i].0 == k
  }

  lemma {:induction false} PutAt<K, V>(a: map<K, V>, b: map<K, V>, updates: seq<(K, V)>, k: K)
    ensures Named(updates, k) ==>
              k in Put(a, updates) && k in Put(b, updates) && Put(a, updates)[k] == Put(b, updates)[k]
    ensures !Named(updates, k) ==> (k in Put(a, updates) <==> k in a) && (k in a ==> Put(a, updates)[k] == a[k])
  {
    if updates != [] {
      var front, last := updates[..|updates| - 1], updates[|updates| - 1];
      PutAt(a, b, front, k);
      assert updates == front + [last];
      if Named(updates, k) && last.0 != k {
        assert Named(front, k);
      }
      if Named(front, k) {
        var i :| 0 <= i < |front| && front[i].0 == k;
        assert updates[i].0 == k;
      }
    }
  }

  lemma PutTwice<K, V>(m: map<K, V>, updates: seq<(K, V)>)
    ensures Put(Put(m, updates), updates) == Put(m, updates)
  {
    var once := Put(m, updates);
    var twice := Put(once, updates);
    forall k | k in twice.Keys + once.Keys
      ensures k in twice && k in once && twice[k] == once[k]
    {
      PutAt(once, m, updates, k);
    }
    assert twice.Keys == once.Keys;
  }

  /** No later update writes the same key. */
  ghost predicate LastWriter<K, V>(updates: seq<(K, V)>, i: nat)
    requires i < |updates|
  {
    forall j | i < j < |updates| :: updates[j].0 != updates[i].0
  }

  /** Every last writer's value is stored. */
  ghost predicate WritersStand<K, V>(m: map<K, V>, updates: seq<(K, V)>) {
    forall i | 0 <= i < |updates| && LastWriter(updates, i) ::
      updates[i].0 in m && m[updates[i].0] == updates[i].1
  }

  lemma {:induction false} PutLast<K, V>(m: map<K, V>, updates: seq<(K, V)>, i: nat)
    requires i < |updates| && LastWriter(updates, i)
    ensures updates[i].0 in Put(m, updates) && Put(m, updates)[updates[i].0] == updates[i].1
  {
    var n := |updates| - 1;
    if i < n {
      assert updates[..n][i] == updates[i] && forall j | i < j < n :: updates[..n][j] == updates[j];
      PutLast(m, updates[..n], i);
    }
  }

  lemma {:induction false} LastOne<K, V>(updates: seq<(K, V)>, k: K) returns (i: nat)
    requires Named(updates, k)
    ensures i < |updates| && updates[i].0 == k && LastWriter(updates, i)
  {
    i :| 0 <= i < |updates| && updates[i].0 == k;
    while exists j | i < j < |updates| :: updates[j].0 == k
      invariant i < |updates| && updates[i].0 == k
      decreases |updates| - i
    {
      var j :| i < j < |updates| && updates[j].0 == k;
      i := j;
    }
  }

  /** Upserts change nothing exactly when every last writer's value is stored already. */
  lemma PutUnchanged<K, V>(m: map<K, V>, updates: seq<(K, V)>)
    ensures Put(m, updates) == m <==> WritersStand(m, updates)
  {
    hide Put;
    forall i | 0 <= i < |updates| && LastWriter(updates, i)
      ensures updates[i].0 in Put(m, updates) && Put(m, updates)[updates[i].0] == updates[i].1
    {
      PutLast(m, updates, i);
    }
    if WritersStand(m, updates) {
      var after := Put(m, updates);
      forall k | k in after.Keys + m.Keys
        ensures k in after && k in m && after[k] == m[k]
      {
        PutAt(m, m, updates, k);
        if Named(updates, k) {
          var i := LastOne(updates, k);
        }
      }
      assert after.Keys == m.Keys;
    }
  }

  // ----- Persisting again -----

  /**
   Persisting a batch a second time, duplicates and shared slugs included, succeeds and changes nothing but
   clocks; it reports the same versions, none of them created.
   */
  lemma ReplayChangesNothing(db: Db, tx: Option<Id>, ps: seq<Proposal>, now: Time, later: Time)
    requires PersistAll(db, tx, ps, now).Some?
    ensures var first := PersistAll(db, tx, ps, now).value;
            var second := PersistAll(first.db, tx, ps, later);
            && second.Some?
            && SameButClocks(first.db, second.value.db)
            && second.value.rows == Again(first.rows)
            && second.value.skipped == first.skipped
  {
    hide Covered, PersistOne, RowOf, UpdateOf, Put, PersistAll, RowsOf, Updates, Again, Within, VersionsStay;
    BatchFacts(db, tx, ps, now);
    var first := PersistAll(db, tx, ps, now).value;
    CoveredBatch(first.db, tx, ps, later);
    BatchFacts(first.db, tx, ps, later);
    var second := PersistAll(first.db, tx, ps, later).value;
    AllCoveredKept(first.db, second.db, tx, ps);
    PutTwice(db.artifacts, Updates(first.db, tx, ps));
    AgainSame(second.rows);
    SameSkipped(db, first.db, tx, ps, now, later);
  }

  /**
   A batch whose rows are all there changes nothing but clocks exactly when, of its artifacts, the one that no
   later proposal of the batch rewrites is stored as it would be written: a review recorded on it in between
   is overwritten.
   */
  lemma ReplayExact(db: Db, tx: Option<Id>, ps: seq<Proposal>, now: Time)
    requires AllCovered(db, tx, ps)
    ensures PersistAll(db, tx, ps, now).Some?
    ensures SameButClocks(db, PersistAll(db, tx, ps, now).value.db)
       <==> WritersStand(db.artifacts, Updates(db, tx, ps))
  {
    hide WritersStand;
    hide Covered, PersistOne, RowOf, UpdateOf, Put, PersistAll, RowsOf, Updates, Again, Within, VersionsStay;
    CoveredBatch(db, tx, ps, now);
    BatchFacts(db, tx, ps, now);
    AllCoveredKept(db, PersistAll(db, tx, ps, now).value.db, tx, ps);
    PutUnchanged(db.artifacts, Updates(db, tx, ps));
  }

  /** Whatever a review had recorded, the artifact of the last proposal of a batch is pending afterwards. */
  lemma ReviewOverwritten(db: Db, tx: Option<Id>, ps: seq<Proposal>, now: Time)
    requires ps != [] && !Skipped(ps[|ps| - 1]) && PersistAll(db, tx, ps, now).Some?
    ensures var next, p := PersistAll(db, tx, ps, now).value.db, ps[|ps| - 1];
            && Placed(next, p)
            && ArtifactKey(Home(next, p), p.compiledSha.value) in next.artifacts
            && next.artifacts[ArtifactKey(Home(next, p), p.compiledSha.value)].shadowing.Pending?
  {
    hide PersistOne, RowOf, Home, Placed;
    OneFacts(PersistAll(db, tx, ps[..|ps| - 1], now).value.db, tx, ps[|ps| - 1], now);
    CoveredPlaced(PersistAll(db, tx, ps, now).value.db, tx, ps[|ps| - 1]);
  }

  lemma AgainSame(rows: seq<Persisted>)
    requires NoneCreated(rows)
    ensures Again(rows) == rows
  {
  }

  lemma {:induction false} SameSkipped(a: Db, b: Db, tx: Option<Id>, ps: seq<Proposal>, now: Time, later: Time)
    requires PersistAll(a, tx, ps, now).Some? && PersistAll(b, tx, ps, later).Some?
    ensures PersistAll(a, tx, ps, now).value.skipped == PersistAll(b, tx, ps, later).value.skipped
  {
    hide PersistOne;
    if ps != [] {
      SameSkipped(a, b, tx, ps[..|ps| - 1], now, later);
    }
  }

  // ----- Runs -----

  /** The store's own calls, and whatever the rest of the program does to its tables in between. */
  datatype Event = Persist(tx: Option<Id>, proposals: seq<Proposal>, now: Time) | Outside(next: Db)

  /** The rest of the program adds no version, deletes neither versions, skills nor gates, and rewrites no hash. */
  predicate Harmless(db: Db, next: Db) {
    && SkillsStay(db.skills, next.skills)
    && next.versions.Keys == db.versions.Keys
    && (forall k | k in db.versions :: next.versions[k].sha == db.versions[k].sha)
    && db.gates.Keys <= next.gates.Keys
  }

  predicate Enabled(db: Db, event: Event) {
    event.Outside? ==> Harmless(db, event.next)
  }

  ghost function Next(db: Db, event: Event): Db {
    match event
    case Outside(next) => next
    case Persist(tx, ps, now) =>
      var r := PersistAll(db, tx, ps, now);
      if r.Some? then r.value.db else db
  }

  ghost predicate Possible(db: Db, events: seq<Event>)
    decreases |events|
  {
    events != [] ==> Enabled(db, events[0]) && Possible(Next(db, events[0]), events[1..])
  }

  ghost function Run(db: Db, events: seq<Event>): Db
    decreases |events|
  {
    if events == [] then db else Run(Next(db, events[0]), events[1..])
  }

  // ----- Dense versions -----

  /** The versions of every skill are exactly 1..n, with pairwise distinct compiled hashes. */
  ghost predicate Dense(db: Db) {
    DenseKeys(db.versions.Keys) && DistinctHashes(db.versions)
  }

  ghost predicate DenseKeys(keys: set<Key>) {
    forall s, i: nat :: Key(s, i) in keys <==> 1 <= i <= Top(keys, s)
  }

  predicate DistinctHashes(versions: map<Key, VersionRow>) {
    && (forall k | k in versions :: versions[k].sha.Some?)
    && (forall j, k | j in versions && k in versions && j.skill == k.skill && versions[j].sha == versions[k].sha ::
          j == k)
  }

  lemma OneDense(db: Db, tx: Option<Id>, p: Proposal, now: Time)
    requires !Skipped(p) && Dense(db) && PersistOne(db, tx, p, now).Some?
    ensures Dense(PersistOne(db, tx, p, now).value.db)
  {
    hide Dense, GateStatus, OkHashes, Attached, VersionStep, KeyFor, IdTaken;
    var skill := p.skill.value;
    var skills := SkillStep(db.skills, skill, now).value;
    var s := skills[skill.slug].id;
    var versions, k := VersionStep(db.versions, s, p, tx), KeyFor(db.versions, s, p.compiledSha);
    VersionStepFacts(db.versions, s, p, tx);
    AttachedVersions(db.(skills := skills, versions := versions), tx, p, k, versions[k].scanner);
    VersionStepDense(db, s, p, tx);
    DenseVersions(db.(versions := versions), PersistOne(db, tx, p, now).value.db);
  }

  lemma DenseVersions(a: Db, b: Db)
    requires Dense(a) && b.versions == a.versions
    ensures Dense(b)
  {
  }

  lemma VersionStepDense(db: Db, s: Id, p: Proposal, tx: Option<Id>)
    requires !Skipped(p) && Dense(db) && p.compiledSha.Some?
    ensures Dense(db.(versions := VersionStep(db.versions, s, p, tx)))
  {
    hide Top, DenseKeys, DistinctHashes;
    if Matching(db.versions, s, p.compiledSha) == {} {
      var k := KeyFor(db.versions, s, p.compiledSha);
      var versions := VersionStep(db.versions, s, p, tx);
      assert versions.Keys == db.versions.Keys + {k};
      AddDenseKeys(db.versions.Keys, s);
      AddDistinct(db.versions, k, versions[k]);
    }
  }

  lemma DenseAt(keys: set<Key>, s: Id, i: nat)
    requires DenseKeys(keys)
    ensures Key(s, i) in keys <==> 1 <= i <= Top(keys, s)
  {
    hide Top;
  }

  lemma DenseIf(keys: set<Key>)
    requires forall s, i: nat :: Key(s, i) in keys <==> 1 <= i <= Top(keys, s)
    ensures DenseKeys(keys)
  {
    hide Top;
  }

  lemma AddDenseKeys(keys: set<Key>, s: Id)
    requires DenseKeys(keys)
    ensures DenseKeys(keys + {Key(s, Top(keys, s) + 1)})
  {
    hide Top, DenseKeys;
    var more := keys + {Key(s, Top(keys, s) + 1)};
    forall t: Id, i: nat
      ensures Key(t, i) in more <==> 1 <= i <= Top(more, t)
    {
      TopAdd(keys, s, t);
      DenseAt(keys, t, i);
    }
    DenseIf(more);
  }

  lemma AddDistinct(versions: map<Key, VersionRow>, k: Key, row: VersionRow)
    requires DistinctHashes(versions) && row.sha.Some? && Matching(versions, k.skill, row.sha) == {} && k !in versions
    ensures DistinctHashes(versions[k := row])
  {
    assert forall j | j in versions && j.skill == k.skill :: j !in Matching(versions, k.skill, row.sha);
  }

  lemma TopAdd(keys: set<Key>, s: Id, t: Id)
    ensures Top(keys + {Key(s, Top(keys, s) + 1)}, t) == if t == s then Top(keys, s) + 1 else Top(keys, t)
  {
    hide Top;
    TopIs(keys + {Key(s, Top(keys, s) + 1)}, t, if t == s then Top(keys, s) + 1 else Top(keys, t));
  }

  lemma AttachedVersions(db: Db, tx: Option<Id>, p: Proposal, k: Key, scanner: Status)
    requires !Skipped(p) && p.compiledSha.Some?
    ensures Attached(db, tx, p, k, scanner).versions == db.versions
  {
  }

  lemma {:induction false} BatchDense(db: Db, tx: Option<Id>, ps: seq<Proposal>, now: Time)
    requires Dense(db) && PersistAll(db, tx, ps, now).Some?
    ensures Dense(PersistAll(db, tx, ps, now).value.db)
  {
    hide Dense, PersistOne;
    if ps != [] {
      var front, p := ps[..|ps| - 1], ps[|ps| - 1];
      BatchDense(db, tx, front, now);
      if !Skipped(p) {
        OneDense(PersistAll(db, tx, front, now).value.db, tx, p, now);
      }
    }
  }

  lemma HarmlessDense(db: Db, next: Db)
    requires Dense(db) && Harmless(db, next)
    ensures Dense(next)
  {
    hide Top;
  }

  lemma EmptyDense()
    ensures Dense(EMPTY)
  {
  }

  /** In every reachable state, whatever was persisted, the versions of each skill are 1..n and differ in hash. */
  lemma {:induction false} VersionsAreDense(db: Db, events: seq<Event>)
    requires Possible(db, events) && Dense(db)
    ensures Dense(Run(db, events))
    decreases |events|
  {
    hide Dense, Harmless, PersistAll;
    if events != [] {
      match events[0] {
        case Outside(next) => HarmlessDense(db, next);
        case Persist(tx, ps, now) =>
          if PersistAll(db, tx, ps, now).Some? {
            BatchDense(db, tx, ps, now);
          }
      }
      VersionsAreDense(Next(db, events[0]), events[1..]);
    }
  }

  // ----- Once is enough -----

  ghost predicate Known(db: Db, p: Proposal) {
    !Skipped(p) ==> Placed(db, p) && Home(db, p) in db.gates
  }

  lemma KnownStep(db: Db, event: Event, p: Proposal)
    requires Enabled(db, event) && Known(db, p)
    ensures Known(Next(db, event), p)
  {
    hide PersistAll, Covered, Top;
    if Skipped(p) {
      return;
    }
    match event {
      case Outside(next) =>
        var s := db.skills[p.skill.value.slug].id;
        assert Matching(next.versions, s, p.compiledSha) == Matching(db.versions, s, p.compiledSha);
      case Persist(tx, ps, now) =>
        if PersistAll(db, tx, ps, now).Some? {
          BatchFacts(db, tx, ps, now);
          assert Home(PersistAll(db, tx, ps, now).value.db, p) == Home(db, p);
        }
    }
  }

  lemma {:induction false} KnownForever(db: Db, events: seq<Event>, p: Proposal)
    requires Possible(db, events) && Known(db, p)
    ensures Known(Run(db, events), p)
    decreases |events|
  {
    hide Known, Next, Enabled;
    if events != [] {
      KnownStep(db, events[0], p);
      KnownForever(Next(db, events[0]), events[1..], p);
    }
  }

  /** Persisting a known proposal. */
  lemma OneKnown(db: Db, tx: Option<Id>, p: Proposal, now: Time)
    requires !Skipped(p) && Known(db, p)
    ensures PersistOne(db, tx, p, now).Some?
    ensures var step := PersistOne(db, tx, p, now).value;
            step.db.versions == db.versions && step.db.gates == db.gates && !step.row.created
  {
    hide VersionStep, KeyFor, Matching, ArtifactOf, GateStatus, OkHashes, ProbesOnce, EdgesOf, DocumentsOnce, ItemsOnce;
    var skill := p.skill.value;
    VersionStepFacts(db.versions, db.skills[skill.slug].id, p, tx);
  }

  lemma {:induction false} KnownBatch(db: Db, tx: Option<Id>, ps: seq<Proposal>, now: Time)
    requires forall p | p in ps :: Known(db, p)
    ensures PersistAll(db, tx, ps, now).Some?
    ensures var r := PersistAll(db, tx, ps, now).value;
            r.db.versions == db.versions && r.db.gates == db.gates && NoneCreated(r.rows)
  {
    hide Known, PersistOne;
    if ps != [] {
      var front, p := ps[..|ps| - 1], ps[|ps| - 1];
      KnownBatch(db, tx, front, now);
      if !Skipped(p) {
        KnownStep(db, Persist(tx, front, now), p);
        OneKnown(PersistAll(db, tx, front, now).value.db, tx, p, now);
      }
    }
  }

  /**
   After a batch was persisted, and whatever runs in between (other batches, gate runs, reviews), persisting
   it again under any transaction creates no version and neither adds nor alters a gate.
   */
  lemma OnceIsEnough(db: Db, tx: Option<Id>, ps: seq<Proposal>, now: Time, events: seq<Event>, tx': Option<Id>,
                     later: Time)
    requires PersistAll(db, tx, ps, now).Some?
    requires Possible(PersistAll(db, tx, ps, now).value.db, events)
    ensures var then' := Run(PersistAll(db, tx, ps, now).value.db, events);
            var r := PersistAll(then', tx', ps, later);
            && r.Some? && r.value.db.versions == then'.versions && r.value.db.gates == then'.gates
            && NoneCreated(r.value.rows)
  {
    hide Covered, PersistAll, Extends, Run, Possible;
    BatchFacts(db, tx, ps, now);
    var first := PersistAll(db, tx, ps, now).value.db;
    forall p | p in ps
      ensures Known(Run(first, events), p)
    {
      assert Known(first, p) by { CoveredIsKnown(first, tx, p); }
      KnownForever(first, events, p);
    }
    KnownBatch(Run(first, events), tx', ps, later);
  }

  lemma CoveredIsKnown(db: Db, tx: Option<Id>, p: Proposal)
    requires !Skipped(p) ==> Covered(db, tx, p)
    ensures Known(db, p)
  {
  }

  /** No batch alters or drops a gate that is there, whatever its status has become. */
  lemma GatesStay(db: Db, tx: Option<Id>, ps: seq<Proposal>, now: Time)
    requires PersistAll(db, tx, ps, now).Some?
    ensures forall k | k in db.gates ::
              && k in PersistAll(db, tx, ps, now).value.db.gates
              && PersistAll(db, tx, ps, now).value.db.gates[k] == db.gates[k]
  {
    hide PersistAll, Covered;
    BatchFacts(db, tx, ps, now);
  }
}

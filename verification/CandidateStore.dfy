/**
 Persisting candidates as the program runs it (sidecar/autoskill/db/candidates.py): one table after the
 other, with loops over proposals, probes and evidence, undone as a whole when a statement fails. Every
 operation is proved equal to its specification in CandidateModel.
 */
module CandidateStore {
  import opened Wrappers
  import opened CandidateModel
  import opened CandidateLaws

  /** The highest version number of a skill among the keys, or 0. */
  method HighestNumber(keys: set<Key>, s: Id) returns (n: nat)
    ensures n == Top(keys, s)
  {
    n := 0;
    var todo := keys;
    while todo != {}
      invariant todo <= keys
      invariant forall k | k in keys - todo && k.skill == s :: k.number <= n
      invariant n == 0 || Key(s, n) in keys
      decreases |todo|
    {
      var k :| k in todo;
      todo := todo - {k};
      if k.skill == s && k.number > n {
        n := k.number;
      }
    }
    TopIs(keys, s, n);
  }

  class Store {
    var skills: map<string, SkillRow>
    var versions: map<Key, VersionRow>
    var files: map<FileKey, string>
    var documents: map<DocumentKey, Status>
    var artifacts: map<ArtifactKey, Artifact>
    var edges: set<EdgeKey>
    var probes: map<Hash, ProbeRow>
    var gates: map<Key, GateRow>
    var items: map<ItemKey, ItemRow>

    ghost function Contents(): Db
      reads this
    {
      Db(skills, versions, files, documents, artifacts, edges, probes, gates, items)
    }

    constructor ()
      ensures Contents() == EMPTY && Dense(Contents())
    {
      skills, versions, files, documents, artifacts := map[], map[], map[], map[], map[];
      edges, probes, gates, items := {}, map[], map[], map[];
      new;
      EmptyDense();
    }

    /** Creates the skill, or touches the one with its slug; None when its id belongs to another slug. */
    method UpsertSkill(skill: Skill, now: Time) returns (id: Option<Id>)
      modifies this`skills
      ensures id.Some? <==> SkillStep(old(skills), skill, now).Some?
      ensures id.Some? ==> Some(skills) == SkillStep(old(skills), skill, now) && id.value == skills[skill.slug].id
      ensures id.None? ==> skills == old(skills)
    {
      if skill.slug in skills {
        skills := skills[skill.slug := skills[skill.slug].(updatedAt := now)];
      } else if exists t | t in skills :: skills[t].id == skill.id {
        return None;
      } else {
        skills := skills[skill.slug := SkillRow(skill.id, skill.name, now)];
      }
      return Some(skills[skill.slug].id);
    }

    /** Finds the version with the compiled hash, or inserts the next number. */
    method FindOrInsertVersion(s: Id, p: Proposal, tx: Option<Id>) returns (k: Key, created: bool)
      requires !Skipped(p)
      modifies this`versions
      ensures versions == VersionStep(old(versions), s, p, tx) && k == KeyFor(old(versions), s, p.compiledSha)
      ensures k in versions && created == (k !in old(versions)) && k.skill == s
    {
      hide Top;
      var existing := Matching(versions, s, p.compiledSha);
      if existing != {} {
        ghost var j :| j in existing;
        var number := HighestNumber(existing, s);
        assert number == 0 ==> j == Key(s, 0);
        return Key(s, number), false;
      }
      var top := HighestNumber(versions.Keys, s);
      k := Key(s, top + 1);
      created := true;
      versions := versions[k := VersionRow(p.compiledSha, IrDocument(s, p.skill.value.ir), ScannerStatus(p),
                                           Pending, p.metadata, tx)];
    }

    method PersistContextArtifact(p: Proposal, k: Key, scanner: Status)
      requires !Skipped(p) && p.compiledSha.Some?
      modifies this`artifacts
      ensures artifacts == old(artifacts)[ArtifactKey(k, p.compiledSha.value) := ArtifactOf(p, scanner)]
    {
      var tokens := EstimateTokens(p.runtimeText.value);
      var budget := if tokens <= MAX_CONTEXT_TOKENS then Passed else OverBudget;
      var safety := if scanner.Passed? then Passed else Blocked;
      artifacts := artifacts[ArtifactKey(k, p.compiledSha.value) :=
                               Artifact(tokens, MAX_CONTEXT_TOKENS, safety, Passed, budget, Pending, p.slug, scanner,
                                        p.metadata)];
    }

    method PersistCandidateArtifacts(p: Proposal, k: Key, scanner: Status)
      requires !Skipped(p) && p.compiledSha.Some?
      modifies this`files, this`documents, this`artifacts
      ensures files == Once(old(files), FileKey(k, p.slug, p.compiledSha.value), p.runtimeText.value)
      ensures documents == DocumentsOnce(old(documents), k, IrDocument(k.skill, p.skill.value.ir), p.runtimeText.value,
                                         PassedOrBlocked(scanner))
      ensures artifacts == old(artifacts)[ArtifactKey(k, p.compiledSha.value) := ArtifactOf(p, scanner)]
    {
      var file := FileKey(k, p.slug, p.compiledSha.value);
      if file !in files {
        files := files[file := p.runtimeText.value];
      }
      var docs := [IrDocument(k.skill, p.skill.value.ir), RuntimeDocument(p.runtimeText.value)];
      ghost var before := documents;
      for i := 0 to 2
        invariant files == Once(old(files), file, p.runtimeText.value) && artifacts == old(artifacts)
        invariant i == 0 ==> documents == before
        invariant i == 1 ==> documents == Once(before, DocumentKey(k, docs[0]), PassedOrBlocked(scanner))
        invariant i == 2 ==> documents == DocumentsOnce(before, k, docs[0], p.runtimeText.value,
                                                        PassedOrBlocked(scanner))
      {
        var row := DocumentKey(k, docs[i]);
        if row !in documents {
          documents := documents[row := if scanner.Passed? then Passed else Blocked];
        }
      }
      PersistContextArtifact(p, k, scanner);
    }

    method PersistEvidenceProvenance(p: Proposal, k: Key)
      modifies this`edges
      ensures edges == old(edges) + EdgesOf(p.evidence, k)
    {
      for i := 0 to |p.evidence|
        invariant edges == old(edges) + EdgesOf(p.evidence[..i], k)
      {
        assert p.evidence[..i + 1] == p.evidence[..i] + [p.evidence[i]];
        EdgesSnoc(p.evidence[..i], p.evidence[i], k);
        if p.evidence[i].None? {
          continue;
        }
        edges := edges + {EdgeKey(p.evidence[i].value, k)};
      }
      assert p.evidence[..|p.evidence|] == p.evidence;
    }

    method PersistProbePlan(p: Proposal, k: Key) returns (probeHashes: seq<Hash>)
      modifies this`probes
      ensures probes == ProbesOnce(old(probes), p.probePlan, k, p.slug)
      ensures probeHashes == OkHashes(p.probePlan)
    {
      hide Blocking;
      probeHashes := [];
      for i := 0 to |p.probePlan|
        invariant probes == ProbesOnce(old(probes), p.probePlan[..i], k, p.slug)
        invariant probeHashes == OkHashes(p.probePlan[..i])
      {
        var probe := p.probePlan[i];
        assert p.probePlan[..i + 1][..i] == p.probePlan[..i];
        if Blocking(probe.findings) {
          continue;
        }
        probeHashes := probeHashes + [probe.hash];
        if probe.hash !in probes {
          probes := probes[probe.hash := ProbeRow(probe.content, k, p.slug)];
        }
      }
      assert p.probePlan[..|p.probePlan|] == p.probePlan;
    }

    /** Reports the status the gate would get, also when there is a gate already. */
    method PersistEvaluationGate(p: Proposal, k: Key, probeHashes: seq<Hash>, scanner: Status) returns (status: Status)
      requires probeHashes == OkHashes(p.probePlan)
      modifies this`gates
      ensures status == GateStatus(p, scanner)
      ensures gates == Once(old(gates), k, GateOf(p, scanner))
    {
      hide OkHashes, BlockedHashes;
      var blocked := BlockedHashes(p.probePlan);
      status := if !scanner.Passed? || blocked != [] then Blocked else Planned;
      var reasons := [];
      if !scanner.Passed? {
        reasons := reasons + [ScannerBlocked];
      }
      if blocked != [] {
        reasons := reasons + [ProbeScannerBlocked];
      }
      assert reasons == GateReasons(p, scanner);
      if k !in gates {
        gates := gates[k := GateRow(status, p.slug, probeHashes, scanner, blocked, reasons, p.metadata)];
      }
    }

    method InsertTransactionItemOnce(item: ItemKey, row: ItemRow)
      modifies this`items
      ensures items == Once(old(items), item, row)
    {
      if item !in items {
        items := items[item := row];
      }
    }

    method PersistTransactionItems(tx: Id, p: Proposal, k: Key)
      requires p.compiledSha.Some?
      modifies this`items
      ensures items == ItemsOnce(old(items), Some(tx), p, k)
    {
      var rollback := ItemRow(p.metadata, k, p.slug);
      InsertTransactionItemOnce(ItemKey(tx, SkillVersionItem, k, p.compiledSha.value), rollback);
      InsertTransactionItemOnce(ItemKey(tx, CompiledFileItem(p.slug), k, p.compiledSha.value), rollback);
    }

    /** None: a statement failed, and the tables are in the middle of the transaction. */
    method PersistCandidate(tx: Option<Id>, p: Proposal, now: Time) returns (row: Option<Persisted>)
      requires !Skipped(p)
      modifies this
      ensures row.Some? <==> PersistOne(old(Contents()), tx, p, now).Some?
      ensures row.Some? ==> PersistOne(old(Contents()), tx, p, now) == Some(Step(Contents(), row.value))
    {
      hide VersionStep, KeyFor, SkillStep, ArtifactOf, GateOf, GateStatus, OkHashes, ProbesOnce, EdgesOf,
           DocumentsOnce, ItemsOnce, Once;
      var id := UpsertSkill(p.skill.value, now);
      if id.None? {
        return None;
      }
      var k, created := FindOrInsertVersion(id.value, p, tx);
      var scanner, evaluator := versions[k].scanner, versions[k].evaluator;
      if p.compiledSha.None? {
        return None;
      }
      PersistCandidateArtifacts(p, k, scanner);
      PersistEvidenceProvenance(p, k);
      var probeHashes := PersistProbePlan(p, k);
      var evaluation := PersistEvaluationGate(p, k, probeHashes, scanner);
      if tx.Some? {
        PersistTransactionItems(tx.value, p, k);
      } else {
        NoItems(items, p, k);
      }
      row := Some(Persisted(p.slug, tx, k, created, scanner, evaluator, probeHashes, evaluation));
    }

    /** The whole batch in one transaction: None, and nothing changed, when a statement fails. */
    method PersistCandidateProposals(tx: Option<Id>, ps: seq<Proposal>, now: Time)
      returns (report: Option<(seq<Persisted>, nat)>)
      modifies this
      ensures var r := PersistAll(old(Contents()), tx, ps, now);
              && (report.Some? <==> r.Some?)
              && (r.Some? ==> Contents() == r.value.db && report.value == (r.value.rows, r.value.skipped)
                              && |r.value.rows| + r.value.skipped == |ps|)
              && (r.None? ==> Contents() == old(Contents()))
    {
      hide PersistOne, PersistAll, Skipped;
      ghost var before := Contents();
      var savedSkills, savedVersions, savedFiles, savedDocuments := skills, versions, files, documents;
      var savedArtifacts, savedEdges, savedProbes, savedGates, savedItems := artifacts, edges, probes, gates, items;
      var rows: seq<Persisted> := [];
      var skipped := 0;
      NothingPersisted(before, tx, ps, now);
      for i := 0 to |ps|
        invariant PersistAll(before, tx, ps[..i], now) == Some(Report(Contents(), rows, skipped))
        invariant |rows| + skipped == i
      {
        PersistSnoc(before, tx, ps, now, i);
        if Skipped(ps[i]) {
          skipped := skipped + 1;
          continue;
        }
        var row := PersistCandidate(tx, ps[i], now);
        if row.None? {
          FailsWithPrefix(before, tx, ps, now, i + 1);
          skills, versions, files, documents := savedSkills, savedVersions, savedFiles, savedDocuments;
          artifacts, edges, probes, gates, items := savedArtifacts, savedEdges, savedProbes, savedGates, savedItems;
          return None;
        }
        rows := rows + [row.value];
      }
      assert ps[..|ps|] == ps;
      return Some((rows, skipped));
    }
  }

  lemma EdgesSnoc(evidence: seq<Option<Id>>, id: Option<Id>, k: Key)
    ensures EdgesOf(evidence + [id], k) == EdgesOf(evidence, k) + if id.Some? then {EdgeKey(id.value, k)} else {}
  {
    var all := evidence + [id];
    assert all[|evidence|] == id;
    forall i | 0 <= i < |evidence| && evidence[i].Some?
      ensures EdgeKey(evidence[i].value, k) in EdgesOf(all, k)
    {
      assert all[i] == evidence[i];
    }
  }

  lemma NothingPersisted(db: Db, tx: Option<Id>, ps: seq<Proposal>, now: Time)
    ensures PersistAll(db, tx, ps[..0], now) == Some(Report(db, [], 0))
  {
  }

  /** One turn of the loop over proposals. */
  lemma PersistSnoc(db: Db, tx: Option<Id>, ps: seq<Proposal>, now: Time, i: nat)
    requires i < |ps| && PersistAll(db, tx, ps[..i], now).Some?
    ensures var Report(mid, rows, skipped) := PersistAll(db, tx, ps[..i], now).value;
            PersistAll(db, tx, ps[..i + 1], now)
            == if Skipped(ps[i]) then Some(Report(mid, rows, skipped + 1))
               else if PersistOne(mid, tx, ps[i], now).None? then None
               else Some(Report(PersistOne(mid, tx, ps[i], now).value.db,
                                rows + [PersistOne(mid, tx, ps[i], now).value.row], skipped))
  {
    hide PersistOne, Skipped;
    assert ps[..i + 1][..i] == ps[..i];
  }

  lemma NoItems(items: map<ItemKey, ItemRow>, p: Proposal, k: Key)
    requires p.compiledSha.Some?
    ensures ItemsOnce(items, None, p, k) == items
  {
  }

  /** A batch fails when a part of it does. */
  lemma {:induction false} FailsWithPrefix(db: Db, tx: Option<Id>, ps: seq<Proposal>, now: Time, n: nat)
    requires n <= |ps| && PersistAll(db, tx, ps[..n], now).None?
    ensures PersistAll(db, tx, ps, now).None?
    decreases |ps|
  {
    hide PersistOne;
    if n == |ps| {
      assert ps[..n] == ps;
    } else {
      var front := ps[..|ps| - 1];
      assert front[..n] == ps[..n];
      FailsWithPrefix(db, tx, front, now, n);
    }
  }
}

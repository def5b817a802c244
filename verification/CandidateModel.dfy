/**
 The rows that persisting candidate proposals writes (sidecar/autoskill/db/candidates.py), for one
 workspace, and what persisting makes of them. Every unique index, and every "insert where not exists",
 is the key of a map. A version is identified by its skill and number, which are unique together.
 */
module CandidateModel {
  import opened Wrappers

  type Id = nat
  type Hash = string
  type Time = nat

  datatype Status = Passed | Blocked | Planned | Pending | OverBudget | OtherStatus(name: string)

  datatype Severity = Info | Warning | Error | Critical

  datatype Skill = Skill(id: Id, slug: string, name: string, ir: string)

  datatype PlannedProbe = PlannedProbe(hash: Hash, content: string, findings: seq<Severity>)

  /** `evidence` holds None for an evidence id that is not a UUID; such ids are passed over. */
  datatype Proposal = Proposal(slug: string, skill: Option<Skill>, runtimeText: Option<string>,
                               compiledSha: Option<Hash>, findings: seq<Severity>, evidence: seq<Option<Id>>,
                               probePlan: seq<PlannedProbe>, metadata: string)

  // ----- Rows -----

  datatype SkillRow = SkillRow(id: Id, name: string, updatedAt: Time)

  datatype Key = Key(skill: Id, number: nat)

  /** `ir` is the SkillIR, stored with the skill's own id. */
  datatype VersionRow = VersionRow(sha: Option<Hash>, ir: Document, scanner: Status, evaluator: Status,
                                   metadata: string, transaction: Option<Id>)

  datatype Document = IrDocument(skill: Id, ir: string) | RuntimeDocument(text: string)

  datatype FileKey = FileKey(version: Key, slug: string, sha: Hash)
  datatype DocumentKey = DocumentKey(version: Key, content: Document)
  datatype ArtifactKey = ArtifactKey(version: Key, sha: Hash)
  datatype EdgeKey = EdgeKey(evidence: Id, version: Key)

  datatype ItemKind = SkillVersionItem | CompiledFileItem(slug: string)
  datatype ItemKey = ItemKey(transaction: Id, kind: ItemKind, version: Key, sha: Hash)
  datatype ItemRow = ItemRow(rollback: string, deletes: Key, path: string)

  datatype Artifact = Artifact(tokens: nat, maxTokens: nat, safety: Status, equivalence: Status, budget: Status,
                               shadowing: Status, slug: string, scanner: Status, metadata: string)

  datatype ProbeRow = ProbeRow(content: string, version: Key, slug: string)

  datatype Reason = ScannerBlocked | ProbeScannerBlocked

  datatype GateRow = GateRow(status: Status, slug: string, probeHashes: seq<Hash>, scanner: Status,
                             blockedProbes: seq<Hash>, reasons: seq<Reason>, metadata: string)

  datatype Db = Db(skills: map<string, SkillRow>, versions: map<Key, VersionRow>, files: map<FileKey, string>,
                   documents: map<DocumentKey, Status>, artifacts: map<ArtifactKey, Artifact>,
                   edges: set<EdgeKey>, probes: map<Hash, ProbeRow>, gates: map<Key, GateRow>,
                   items: map<ItemKey, ItemRow>)

  const EMPTY := Db(map[], map[], map[], map[], map[], {}, map[], map[], map[])

  const MAX_CONTEXT_TOKENS := 1200

  /** The report on one proposal. */
  datatype Persisted = Persisted(slug: string, transaction: Option<Id>, key: Key, created: bool, scanner: Status,
                                 evaluator: Status, probeHashes: seq<Hash>, evaluation: Status)

  // ----- Pure parts -----

  predicate Blocking(findings: seq<Severity>) {
    exists f | f in findings :: f.Error? || f.Critical?
  }

  function ScannerStatus(p: Proposal): Status {
    if Blocking(p.findings) then Blocked else Passed
  }

  function PassedOrBlocked(scanner: Status): Status {
    if scanner.Passed? then Passed else Blocked
  }

  /** Proposals without a SkillIR or a compiled text are skipped. */
  predicate Skipped(p: Proposal) {
    p.skill.None? || p.runtimeText.None?
  }

  function OkHashes(plan: seq<PlannedProbe>): seq<Hash> {
    if plan == [] then [] else
      var last := plan[|plan| - 1];
      OkHashes(plan[..|plan| - 1]) + if Blocking(last.findings) then [] else [last.hash]
  }

  function BlockedHashes(plan: seq<PlannedProbe>): seq<Hash> {
    if plan == [] then [] else
      var last := plan[|plan| - 1];
      BlockedHashes(plan[..|plan| - 1]) + if Blocking(last.findings) then [last.hash] else []
  }

  function GateStatus(p: Proposal, scanner: Status): Status {
    if !scanner.Passed? || BlockedHashes(p.probePlan) != [] then Blocked else Planned
  }

  function GateReasons(p: Proposal, scanner: Status): seq<Reason> {
    (if scanner.Passed? then [] else [ScannerBlocked])
    + if BlockedHashes(p.probePlan) != [] then [ProbeScannerBlocked] else []
  }

  function EstimateTokens(text: string): nat {
    var quarters := (|text| + 3) / 4;
    if quarters < 1 then 1 else quarters
  }

  function ArtifactOf(p: Proposal, scanner: Status): Artifact
    requires !Skipped(p)
  {
    var tokens := EstimateTokens(p.runtimeText.value);
    Artifact(tokens, MAX_CONTEXT_TOKENS, PassedOrBlocked(scanner), Passed,
             if tokens <= MAX_CONTEXT_TOKENS then Passed else OverBudget, Pending, p.slug, scanner, p.metadata)
  }

  function GateOf(p: Proposal, scanner: Status): GateRow {
    GateRow(GateStatus(p, scanner), p.slug, OkHashes(p.probePlan), scanner, BlockedHashes(p.probePlan),
            GateReasons(p, scanner), p.metadata)
  }

  function EdgesOf(evidence: seq<Option<Id>>, k: Key): set<EdgeKey> {
    set i | 0 <= i < |evidence| && evidence[i].Some? :: EdgeKey(evidence[i].value, k)
  }

  // ----- Insert once -----

  function Once<K, V>(m: map<K, V>, key: K, value: V): map<K, V> {
    if key in m then m else m[key := value]
  }

  function ProbesOnce(m: map<Hash, ProbeRow>, plan: seq<PlannedProbe>, k: Key, slug: string): map<Hash, ProbeRow> {
    if plan == [] then m else
      var last := plan[|plan| - 1];
      var rest := ProbesOnce(m, plan[..|plan| - 1], k, slug);
      if Blocking(last.findings) then rest else Once(rest, last.hash, ProbeRow(last.content, k, slug))
  }

  function DocumentsOnce(m: map<DocumentKey, Status>, k: Key, ir: Document, text: string,
                         status: Status): map<DocumentKey, Status> {
    Once(Once(m, DocumentKey(k, ir), status), DocumentKey(k, RuntimeDocument(text)), status)
  }

  function ItemsOnce(m: map<ItemKey, ItemRow>, tx: Option<Id>, p: Proposal, k: Key): map<ItemKey, ItemRow>
    requires p.compiledSha.Some?
  {
    if tx.None? then m else
      var row := ItemRow(p.metadata, k, p.slug);
      Once(Once(m, ItemKey(tx.value, SkillVersionItem, k, p.compiledSha.value), row),
           ItemKey(tx.value, CompiledFileItem(p.slug), k, p.compiledSha.value), row)
  }

  // ----- The skill and its version -----

  /** The primary key of a new skill must not belong to a skill with another slug. */
  predicate IdTaken(skills: map<string, SkillRow>, id: Id) {
    exists t | t in skills :: skills[t].id == id
  }

  function SkillStep(skills: map<string, SkillRow>, skill: Skill, now: Time): Option<map<string, SkillRow>> {
    if skill.slug in skills then Some(skills[skill.slug := skills[skill.slug].(updatedAt := now)])
    else if IdTaken(skills, skill.id) then None
    else Some(skills[skill.slug := SkillRow(skill.id, skill.name, now)])
  }

  /** COALESCE(max(version), 0) over the rows of a skill. */
  ghost function Top(keys: set<Key>, s: Id): (n: nat)
    ensures forall k | k in keys && k.skill == s :: k.number <= n
    ensures n == 0 || Key(s, n) in keys
  {
    if keys == {} then 0 else
      var k :| k in keys;
      var n := Top(keys - {k}, s);
      if k.skill == s && k.number > n then k.number else n
  }

  lemma TopIs(keys: set<Key>, s: Id, n: nat)
    requires forall k | k in keys && k.skill == s :: k.number <= n
    requires n == 0 || Key(s, n) in keys
    ensures Top(keys, s) == n
  {
    hide Top;
    var t := Top(keys, s);
    assert t == 0 || (Key(s, t) in keys && Key(s, t).number <= n);
    assert n == 0 || Key(s, n).number <= t;
  }

  function Matching(versions: map<Key, VersionRow>, s: Id, sha: Option<Hash>): set<Key> {
    set k | k in versions && k.skill == s && sha.Some? && versions[k].sha == sha
  }

  /** The version of the skill that has the compiled hash: the latest stored one, or the next number. */
  ghost function KeyFor(versions: map<Key, VersionRow>, s: Id, sha: Option<Hash>): Key {
    if Matching(versions, s, sha) != {} then Key(s, Top(Matching(versions, s, sha), s))
    else Key(s, Top(versions.Keys, s) + 1)
  }

  ghost function VersionStep(versions: map<Key, VersionRow>, s: Id, p: Proposal, tx: Option<Id>): map<Key, VersionRow>
    requires !Skipped(p)
  {
    if Matching(versions, s, p.compiledSha) != {} then versions
    else versions[KeyFor(versions, s, p.compiledSha) :=
                    VersionRow(p.compiledSha, IrDocument(s, p.skill.value.ir), ScannerStatus(p), Pending,
                               p.metadata, tx)]
  }

  // ----- One proposal -----

  /** The rows that hang on the version. */
  function Attached(db: Db, tx: Option<Id>, p: Proposal, k: Key, scanner: Status): Db
    requires !Skipped(p) && p.compiledSha.Some?
  {
    var sha, text := p.compiledSha.value, p.runtimeText.value;
    db.(files := Once(db.files, FileKey(k, p.slug, sha), text),
        documents := DocumentsOnce(db.documents, k, IrDocument(k.skill, p.skill.value.ir), text,
                                   PassedOrBlocked(scanner)),
        artifacts := db.artifacts[ArtifactKey(k, sha) := ArtifactOf(p, scanner)],
        edges := db.edges + EdgesOf(p.evidence, k),
        probes := ProbesOnce(db.probes, p.probePlan, k, p.slug),
        gates := Once(db.gates, k, GateOf(p, scanner)),
        items := ItemsOnce(db.items, tx, p, k))
  }

  datatype Step = Step(db: Db, row: Persisted)

  /** None: a primary key or a NOT NULL column is violated, and the transaction is undone. */
  ghost function PersistOne(db: Db, tx: Option<Id>, p: Proposal, now: Time): Option<Step>
    requires !Skipped(p)
  {
    var skill := p.skill.value;
    var skills := SkillStep(db.skills, skill, now);
    if skills.None? || p.compiledSha.None? then None else
      var s := skills.value[skill.slug].id;
      var k := KeyFor(db.versions, s, p.compiledSha);
      var versions := VersionStep(db.versions, s, p, tx);
      var v := versions[k];
      Some(Step(Attached(db.(skills := skills.value, versions := versions), tx, p, k, v.scanner),
                Persisted(p.slug, tx, k, k !in db.versions, v.scanner, v.evaluator, OkHashes(p.probePlan),
                          GateStatus(p, v.scanner))))
  }

  // ----- A batch -----

  datatype Report = Report(db: Db, rows: seq<Persisted>, skipped: nat)

  ghost function PersistAll(db: Db, tx: Option<Id>, ps: seq<Proposal>, now: Time): Option<Report> {
    if ps == [] then Some(Report(db, [], 0)) else
      var p := ps[|ps| - 1];
      var before := PersistAll(db, tx, ps[..|ps| - 1], now);
      if before.None? then None else
        var Report(mid, rows, skipped) := before.value;
        if Skipped(p) then Some(Report(mid, rows, skipped + 1)) else
          var step := PersistOne(mid, tx, p, now);
          if step.None? then None else Some(Report(step.value.db, rows + [step.value.row], skipped))
  }
}

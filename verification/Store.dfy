/** The tables of the memory store and its transactions
    (aret-memory/core/repository.py), as functions from one database to the next.
    A refused transaction rolls back. */
module Store {
  import opened Basics
  import opened Ids

  datatype Status = Active | Proven | Observed | Hypothesis | Superseded | Obsolete | Conflicting

  datatype Kind =
    | Rule | Architecture | Decision | Forensic | Observation | HypothesisKind | StateKind | Measurement | Discovery

  datatype Result = Pass | Failed | Error | Skipped | Unknown

  datatype BrickState = Planned | BrickActive | Blocked | Done | BrickObsolete

  datatype RelationType =
    | VerifiedBy | Supersedes | InformedBy | BlockedBy | Implements
    | DerivedFrom | Concerns | AppliesTo | CausedBy | EvolvesTo

  datatype Knowledge = Knowledge(
    kind: Kind, status: Status, title: string, content: string,
    component: Option<string>, function_: Option<string>, brick: Option<string>,
    supersedes: Option<string>, version: nat)

  /** `admissible` is the outcome of the receipt check. */
  datatype Proof = Proof(result: Result, admissible: bool)

  datatype Relation = Relation(from: string, kind: RelationType, to: string, live: bool, supersededBy: Option<string>)

  datatype Brick = Brick(state: BrickState, component: Option<string>)

  /** Keys of the Front, after recognising the ones the code names. */
  datatype FrontKey =
    | Subsystem | BrickKey | CurrentWall | LastAction | NextAction
    | CheckpointState
    | HandoffField(i: nat)
    | CheckpointField(i: nat)
    | RelevantAddress(i: nat)
    | FrontHash | PreparedAt | PipelineCutoff | ProofCutoff
    | OtherKey(name: string)

  type Front = map<FrontKey, string>

  datatype Db = Db(
    components: set<string>,
    functions: set<string>,
    bricks: map<string, Brick>,
    knowledge: map<string, Knowledge>,
    proofs: map<string, Proof>,
    links: set<(string, string)>,
    relations: map<string, Relation>,
    front: Front,
    seqs: map<string, nat>,
    audits: set<string>)

  const EMPTY: Db := Db({}, {}, map[], map[], map[], {}, map[], map[], map[], {})

  /** The outcome of a transaction: the new database and the id it is about. */
  datatype Reply = Ok(db: Db, id: string) | Refused

  // ---- identifiers ----------------------------------------------------------------------

  function SeqKey(entity: string, prefix: string): string { entity + ":" + prefix }

  function NextNumber(db: Db, entity: string, prefix: string): nat {
    if SeqKey(entity, prefix) in db.seqs then db.seqs[SeqKey(entity, prefix)] else 1
  }

  function NextId(db: Db, entity: string, prefix: string): string { Format(prefix, NextNumber(db, entity, prefix)) }

  function Bump(db: Db, entity: string, prefix: string): Db {
    db.(seqs := db.seqs[SeqKey(entity, prefix) := NextNumber(db, entity, prefix) + 1])
  }

  /** One more audit event; its payload is not modelled. */
  function Audit(db: Db): Db {
    Bump(db, "audit", "A").(audits := db.audits + {NextId(db, "audit", "A")})
  }

  function AuditTimes(db: Db, n: nat): Db
    decreases n
  {
    if n == 0 then db else AuditTimes(Audit(db), n - 1)
  }

  // ---- relations --------------------------------------------------------------------------

  predicate Exists(db: Db, id: string) {
    id in db.knowledge || id in db.components || id in db.functions || id in db.bricks || id in db.proofs
  }

  predicate HasTriple(db: Db, id: string, from: string, kind: RelationType, to: string) {
    id in db.relations && db.relations[id].from == from && db.relations[id].kind == kind && db.relations[id].to == to
  }

  ghost predicate Related(db: Db, from: string, kind: RelationType, to: string) {
    exists id :: HasTriple(db, id, from, kind, to)
  }

  /** `_insert_relation`: an existing triple is reused, whatever its status. */
  ghost function RelationId(db: Db, from: string, kind: RelationType, to: string): (id: string) {
    if Related(db, from, kind, to) then
      var id :| HasTriple(db, id, from, kind, to); id
    else NextId(db, "relation", "R")
  }

  ghost function InsertRelation(db: Db, from: string, kind: RelationType, to: string): Db {
    if Related(db, from, kind, to) then db
    else
      var id := NextId(db, "relation", "R");
      Audit(Bump(db, "relation", "R").(relations := db.relations[id := Relation(from, kind, to, true, None)]))
  }

  ghost function AddRelation(db: Db, from: string, kind: RelationType, to: string): Reply {
    if from == to || !Exists(db, from) || !Exists(db, to) then Refused
    else Ok(InsertRelation(db, from, kind, to), RelationId(db, from, kind, to))
  }

  ghost function SupersedeRelation(db: Db, rid: string, from: string, kind: RelationType, to: string): Reply {
    if from == to || rid !in db.relations || !db.relations[rid].live || !Exists(db, from) || !Exists(db, to)
       || HasTriple(db, rid, from, kind, to)
    then Refused
    else
      var new' := RelationId(db, from, kind, to);
      var db1 := InsertRelation(db, from, kind, to);
      var old' := db.relations[rid];
      Ok(Audit(db1.(relations := db1.relations[rid := old'.(live := false, supersededBy := Some(new'))])), new')
  }

  // ---- proofs and knowledge -------------------------------------------------------------------

  predicate Admissible(p: Proof) { p.result == Pass && p.admissible }

  /** A linked proof that is PASS and admissible. */
  ghost predicate Justified(db: Db, k: string) {
    exists p :: (k, p) in db.links && p in db.proofs && Admissible(db.proofs[p])
  }

  function RecordProof(db: Db, kind: string, result: Result, admissible: bool): Reply {
    if kind == "" then Refused
    else
      var id := NextId(db, "proof", "P");
      Ok(Audit(Bump(db, "proof", "P").(proofs := db.proofs[id := Proof(result, admissible)])), id)
  }

  function SetStatus(db: Db, k: string, st: Status): Db
    requires k in db.knowledge
  {
    db.(knowledge := db.knowledge[k := db.knowledge[k].(status := st)])
  }

  ghost function Link(db: Db, k: string, p: string): Db {
    InsertRelation(db.(links := db.links + {(k, p)}), k, VerifiedBy, p)
  }

  ghost function AttachProof(db: Db, k: string, p: string, promote: bool): Reply {
    if k !in db.knowledge || p !in db.proofs || (promote && !Admissible(db.proofs[p])) then Refused
    else
      var db1 := if (k, p) in db.links then db else Link(db, k, p);
      LinkKeepsTables(db, k, p);
      Ok(Audit(if promote then SetStatus(db1, k, Proven) else db1), k)
  }

  /** Inserting a relation touches the relation, sequence and audit tables only. */
  lemma {:induction false} InsertKeepsTables(db: Db, from: string, kind: RelationType, to: string)
    ensures var db1 := InsertRelation(db, from, kind, to);
            db1 == db.(relations := db1.relations, seqs := db1.seqs, audits := db1.audits)
  {}

  lemma {:induction false} LinkKeepsTables(db: Db, k: string, p: string)
    ensures var db1 := Link(db, k, p);
            db1 == db.(links := db.links + {(k, p)}, relations := db1.relations, seqs := db1.seqs, audits := db1.audits)
  {
    InsertKeepsTables(db.(links := db.links + {(k, p)}), k, VerifiedBy, p);
  }

  /** PROVEN items of this proof that are left without justification. */
  ghost function Demoted(db: Db, p: string): set<string> {
    set k | k in db.knowledge && (k, p) in db.links && db.knowledge[k].status == Proven && !Justified(db, k)
  }

  function Withdraw(db: Db, p: string): Db
    requires p in db.proofs
  {
    db.(proofs := db.proofs[p := db.proofs[p].(admissible := false)])
  }

  ghost function InvalidateProof(db: Db, p: string, reason: string): Reply {
    if reason == "" || p !in db.proofs then Refused
    else
      var db1 := Withdraw(db, p);
      var gone := Demoted(db1, p);
      Ok(AuditTimes(db1.(knowledge := Demote(db1.knowledge, gone)), |gone| + 1), p)
  }

  function Demote(ks: map<string, Knowledge>, gone: set<string>): map<string, Knowledge> {
    map k | k in ks :: if k in gone then ks[k].(status := Observed) else ks[k]
  }

  datatype Draft = Draft(
    kind: Kind, status: Option<Status>, title: string, content: string,
    component: Option<string>, function_: Option<string>, brick: Option<string>,
    proofs: seq<string>, supersedes: Option<string>)

  function InitialStatus(d: Draft): Status {
    match d.status
    case Some(s) => s
    case None => if d.kind == Observation then Observed else if d.kind == HypothesisKind then Hypothesis else Active
  }

  function Component(db: Db, d: Draft): Option<string> {
    if d.component.None? && d.supersedes.Some? && d.supersedes.value in db.knowledge
    then db.knowledge[d.supersedes.value].component else d.component
  }

  function Prefix(db: Db, d: Draft): string {
    match Component(db, d) case Some(c) => c case None => "KN"
  }

  /** The checks of `append_knowledge`. */
  predicate Acceptable(db: Db, d: Draft) {
    && d.title != "" && d.content != ""
    && InitialStatus(d) != Superseded && InitialStatus(d) != Obsolete
    && (d.component.Some? ==> d.component.value in db.components)
    && (d.function_.Some? ==> d.function_.value in db.functions)
    && (d.brick.Some? ==> d.brick.value in db.bricks)
    && (d.supersedes.Some? ==> d.supersedes.value in db.knowledge)
    && (forall p :: p in d.proofs ==> p in db.proofs)
    && (InitialStatus(d) == Proven ==> exists p :: p in d.proofs && Admissible(db.proofs[p]))
  }

  function NewRow(db: Db, d: Draft): Knowledge
    requires Acceptable(db, d)
  {
    var st := InitialStatus(d);
    Knowledge(d.kind, if st == Proven then Active else st, d.title, d.content, Component(db, d), d.function_, d.brick,
              d.supersedes, if d.supersedes.Some? then db.knowledge[d.supersedes.value].version + 1 else 1)
  }

  ghost function LinkAll(db: Db, k: string, ps: seq<string>): Db
    decreases |ps|
  {
    if ps == [] then db else LinkAll(Link(db, k, ps[0]), k, ps[1..])
  }

  lemma {:induction false} LinkAllKeepsTables(db: Db, k: string, ps: seq<string>)
    ensures var db1 := LinkAll(db, k, ps);
            && db1 == db.(links := db1.links, relations := db1.relations, seqs := db1.seqs, audits := db1.audits)
            && (forall x :: x in db1.links <==> x in db.links || (x.0 == k && x.1 in ps))
    decreases |ps|
  {
    hide Link;
    if ps != [] {
      LinkKeepsTables(db, k, ps[0]);
      LinkAllKeepsTables(Link(db, k, ps[0]), k, ps[1..]);
      assert ps == [ps[0]] + ps[1..];
    }
  }

  /** The insertion itself, before links, supersession and promotion. */
  function Inserted(db: Db, d: Draft): Db
    requires Acceptable(db, d)
  {
    var id := NextId(db, "knowledge", Prefix(db, d));
    Bump(db, "knowledge", Prefix(db, d)).(knowledge := db.knowledge[id := NewRow(db, d)])
  }

  ghost function SupersedePrevious(db: Db, id: string, previous: Option<string>): Db
    requires previous.Some? ==> previous.value in db.knowledge
  {
    match previous
    case None => db
    case Some(p) =>
      InsertKeepsTables(db, id, Supersedes, p);
      Audit(SetStatus(InsertRelation(db, id, Supersedes, p), p, Superseded))
  }

  ghost function AppendKnowledge(db: Db, d: Draft): Reply {
    if !Acceptable(db, d) then Refused
    else
      var id := NextId(db, "knowledge", Prefix(db, d));
      var db1 := LinkAll(Inserted(db, d), id, d.proofs);
      LinkAllKeepsTables(Inserted(db, d), id, d.proofs);
      var db2 := SupersedePrevious(db1, id, d.supersedes);
      SupersedeKeepsTables(db1, id, d.supersedes);
      Ok(Audit(if InitialStatus(d) == Proven then SetStatus(db2, id, Proven) else db2), id)
  }

  lemma {:induction false} SupersedeKeepsTables(db: Db, id: string, previous: Option<string>)
    requires previous.Some? ==> previous.value in db.knowledge
    ensures var db1 := SupersedePrevious(db, id, previous);
            && db1 == db.(knowledge := db1.knowledge, relations := db1.relations, seqs := db1.seqs, audits := db1.audits)
            && db1.knowledge == (if previous.Some? then SetStatus(db, previous.value, Superseded).knowledge else db.knowledge)
  {
    if previous.Some? { InsertKeepsTables(db, id, Supersedes, previous.value); }
  }

  // ---- registry and Front ------------------------------------------------------------------------

  predicate IdChar(c: char) { 'A' <= c <= 'Z' || '0' <= c <= '9' || c == '_' || c == '-' }

  /** Two to 32 characters A-Z, 0-9, _ or -, starting with a letter. */
  predicate ValidIdentifier(id: string) {
    2 <= |id| <= 32 && 'A' <= id[0] <= 'Z' && forall i :: 0 <= i < |id| ==> IdChar(id[i])
  }

  function RegisterComponent(db: Db, id: string): Reply {
    if !ValidIdentifier(id) || id in db.components then Refused
    else Ok(Audit(db.(components := db.components + {id})), id)
  }

  function RegisterFunction(db: Db, component: string, id: string): Reply {
    if component !in db.components || id in db.functions then Refused
    else Ok(Audit(db.(functions := db.functions + {id})), id)
  }

  function RegisterBrick(db: Db, id: string, state: BrickState, component: Option<string>): Reply {
    if !ValidIdentifier(id) || id in db.bricks || (component.Some? && component.value !in db.components) then Refused
    else Ok(Audit(db.(bricks := db.bricks[id := Brick(state, component)])), id)
  }

  /** `update_brick`; `others` says that another property was given too. */
  function UpdateBrick(db: Db, id: string, state: Option<BrickState>, others: bool): Reply {
    if (state.None? && !others) || id !in db.bricks then Refused
    else
      var old' := db.bricks[id];
      var st := match state case Some(s) => s case None => old'.state;
      if old'.state == BrickActive && st != BrickActive && BrickKey in db.front && db.front[BrickKey] == id then Refused
      else Ok(Audit(db.(bricks := db.bricks[id := old'.(state := st)])), id)
  }

  predicate ValidKey(k: FrontKey) {
    k.OtherKey? ==>
      && 1 <= |k.name| <= 64 && 'a' <= k.name[0] <= 'z'
      && forall i :: 0 <= i < |k.name| ==> 'a' <= k.name[i] <= 'z' || '0' <= k.name[i] <= '9' || k.name[i] == '_'
  }

  /** The updates as a map, later entries winning. */
  function Clean(updates: seq<(FrontKey, string)>): Front {
    if updates == [] then map[]
    else Clean(updates[..|updates| - 1])[updates[|updates| - 1].0 := updates[|updates| - 1].1]
  }

  predicate ValidUpdates(updates: seq<(FrontKey, string)>) {
    0 < |updates| <= 20 && forall u :: u in updates ==> ValidKey(u.0)
  }

  /** `_validate_front_brick`. */
  predicate BrickAllowed(db: Db, updates: Front) {
    BrickKey in updates ==>
      updates[BrickKey] in db.bricks && db.bricks[updates[BrickKey]].state == BrickActive
  }

  function UpdateFront(db: Db, updates: seq<(FrontKey, string)>): Reply {
    if !ValidUpdates(updates) || !BrickAllowed(db, Clean(updates)) then Refused
    else Ok(Audit(db.(front := db.front + Clean(updates))), "current")
  }

  function ReplaceFront(db: Db, updates: seq<(FrontKey, string)>): Reply {
    if !ValidUpdates(updates) || !BrickAllowed(db, Clean(updates)) then Refused
    else Ok(Audit(db.(front := Clean(updates))), "current")
  }

  /** Keys whose change makes a handoff stale. */
  predicate Hashed(k: FrontKey) {
    match k
    case Subsystem => true case BrickKey => true case CurrentWall => true
    case LastAction => true case NextAction => true case CheckpointState => true
    case HandoffField(i) => i < 4
    case CheckpointField(i) => i < 5
    case RelevantAddress(i) => 1 <= i <= 5
    case _ => false
  }

  function Included(front: Front): Front { map k | k in front && Hashed(k) :: front[k] }

  type Hash = Front -> string

  /** A handoff: the four summary fields, the next action, the technical checkpoint
      (none, or its five fields) and the hot knowledge addresses. `claim` is the
      proof and verdict a last validation names; cut-offs and time come from
      outside. */
  datatype Handoff = Handoff(
    fields: seq<string>, next: string, checkpoint: Option<seq<string>>, hot: seq<string>,
    claim: Option<(string, Result)>, lastAction: string,
    pipelineCutoff: string, proofCutoff: string, stamp: string)

  predicate Distinct(xs: seq<string>) { forall i, j :: 0 <= i < j < |xs| ==> xs[i] != xs[j] }

  predicate AcceptableHandoff(db: Db, h: Handoff) {
    && |h.fields| == 4 && (forall i :: 0 <= i < 4 ==> |h.fields[i]| >= 24) && |h.next| >= 24
    && (h.checkpoint.Some? ==> |h.checkpoint.value| == 5 && forall i :: 0 <= i < 5 ==> h.checkpoint.value[i] != "")
    && (h.checkpoint.Some? && h.claim.Some? ==>
          h.claim.value.0 in db.proofs && db.proofs[h.claim.value.0].result == h.claim.value.1)
    && |h.hot| <= 5 && Distinct(h.hot) && (forall k :: k in h.hot ==> k in db.knowledge)
  }

  function Address(k: string): string { "ARET://knowledge/" + k }

  function SummaryValues(h: Handoff): (r: Front)
    requires |h.fields| == 4
    ensures forall k :: k in r ==> k.HandoffField?
  {
    map i | 0 <= i < 4 :: HandoffField(i) := h.fields[i]
  }

  function CheckpointValues(h: Handoff): (r: Front)
    requires h.checkpoint.Some? ==> |h.checkpoint.value| == 5
    ensures forall k :: k in r ==> k.CheckpointField?
  {
    map i | 0 <= i < 5 :: CheckpointField(i) := (match h.checkpoint case Some(c) => c[i] case None => "")
  }

  /** The first n address slots: given, cleared when they were set, or left absent. */
  function AddressesUpTo(front: Front, hot: seq<string>, n: nat): (r: Front)
    ensures forall k :: k in r ==> k.RelevantAddress?
  {
    map i | 1 <= i <= n && (i <= |hot| || RelevantAddress(i) in front) ::
      RelevantAddress(i) := if i <= |hot| then Address(hot[i - 1]) else ""
  }

  function AddressValues(front: Front, hot: seq<string>): (r: Front)
    ensures forall k :: k in r ==> k.RelevantAddress?
  {
    AddressesUpTo(front, hot, 5)
  }

  function SingleValues(h: Handoff): Front {
    map[NextAction := h.next, LastAction := h.lastAction,
        CheckpointState := if h.checkpoint.Some? then "ACTIVE" else "NONE",
        PipelineCutoff := h.pipelineCutoff, ProofCutoff := h.proofCutoff]
  }

  /** Everything the handoff writes except its own hash and time. */
  function HandoffValues(db: Db, h: Handoff): Front
    requires AcceptableHandoff(db, h)
  {
    SummaryValues(h) + CheckpointValues(h) + SingleValues(h) + AddressValues(db.front, h.hot)
  }

  /** `prepare_handoff`: the stored hash is computed on the prospective Front. */
  function PrepareHandoff(db: Db, h: Handoff, hash: Hash): Reply {
    if !AcceptableHandoff(db, h) then Refused
    else
      var front := db.front + HandoffValues(db, h);
      Ok(Audit(db.(front := front[FrontHash := hash(Included(front))][PreparedAt := h.stamp])), "current")
  }

  /** The freshness test of the resume dossier. */
  predicate Fresh(db: Db, hash: Hash) {
    FrontHash in db.front && db.front[FrontHash] != "" && db.front[FrontHash] == hash(Included(db.front))
  }

  // ---- runs -------------------------------------------------------------------------------------------

  datatype Op =
    | OpComponent(id: string)
    | OpFunction(component: string, id: string)
    | OpBrick(id: string, state: BrickState, owner: Option<string>)
    | OpUpdateBrick(id: string, newState: Option<BrickState>, others: bool)
    | OpProof(kind: string, result: Result, admissible: bool)
    | OpAppend(draft: Draft)
    | OpAttach(k: string, p: string, promote: bool)
    | OpInvalidate(p: string, reason: string)
    | OpRelate(from: string, rtype: RelationType, to: string)
    | OpSupersede(rid: string, from: string, rtype: RelationType, to: string)
    | OpUpdateFront(updates: seq<(FrontKey, string)>)
    | OpReplaceFront(updates: seq<(FrontKey, string)>)
    | OpHandoff(handoff: Handoff)

  ghost function Perform(db: Db, op: Op, hash: Hash): Reply {
    match op
    case OpComponent(id) => RegisterComponent(db, id)
    case OpFunction(c, id) => RegisterFunction(db, c, id)
    case OpBrick(id, st, c) => RegisterBrick(db, id, st, c)
    case OpUpdateBrick(id, st, others) => UpdateBrick(db, id, st, others)
    case OpProof(kind, r, a) => RecordProof(db, kind, r, a)
    case OpAppend(d) => AppendKnowledge(db, d)
    case OpAttach(k, p, promote) => AttachProof(db, k, p, promote)
    case OpInvalidate(p, reason) => InvalidateProof(db, p, reason)
    case OpRelate(f, t, to) => AddRelation(db, f, t, to)
    case OpSupersede(r, f, t, to) => SupersedeRelation(db, r, f, t, to)
    case OpUpdateFront(u) => UpdateFront(db, u)
    case OpReplaceFront(u) => ReplaceFront(db, u)
    case OpHandoff(h) => PrepareHandoff(db, h, hash)
  }

  ghost function Step(db: Db, op: Op, hash: Hash): Db {
    match Perform(db, op, hash) case Ok(db', _) => db' case Refused => db
  }

  ghost function Run(db: Db, ops: seq<Op>, hash: Hash): Db
    decreases |ops|
  {
    if ops == [] then db else Run(Step(db, ops[0], hash), ops[1..], hash)
  }
}

/** The internal doctor of the memory store (`health_report`,
    aret-memory/core/repository.py) judged on every reachable store: what it always
    confirms, and when exactly its orphan check raises a false alarm. */
module StoreHealth {
  import opened Ids
  import opened Store
  import opened StoreRuns

  // ---- the checks ----------------------------------------------------------------------------

  ghost predicate ProvenCheck(db: Db) {
    !exists k :: k in db.knowledge && db.knowledge[k].status == Proven && !Justified(db, k)
  }

  /** The tables the doctor looks an endpoint up in; the proof table is not one. */
  predicate Recognised(db: Db, id: string) {
    id in db.knowledge || id in db.components || id in db.functions || id in db.bricks
  }

  predicate OrphanCheck(db: Db) {
    forall r :: r in db.relations ==> Recognised(db, db.relations[r].from) && Recognised(db, db.relations[r].to)
  }

  predicate BrickCheck(db: Db) {
    BrickKey in db.front && db.front[BrickKey] != "" ==>
      db.front[BrickKey] in db.bricks && db.bricks[db.front[BrickKey]].state == BrickActive
  }

  // ---- every link has its relation ----------------------------------------------------------------

  ghost predicate LinksRelated(db: Db) {
    forall k, p :: (k, p) in db.links ==> Related(db, k, VerifiedBy, p)
  }

  lemma {:induction false} RelatedGrows(db: Db, db': Db)
    requires Grows(db, db')
    ensures forall a, t, b :: Related(db, a, t, b) ==> Related(db', a, t, b)
  {
    forall a, t, b | Related(db, a, t, b) ensures Related(db', a, t, b) {
      var id :| HasTriple(db, id, a, t, b);
      assert SameTriple(db.relations[id], db'.relations[id]);
      assert HasTriple(db', id, a, t, b);
    }
  }

  lemma {:induction false} SameLinks(db: Db, db': Db)
    requires LinksRelated(db) && Grows(db, db') && db'.links == db.links
    ensures LinksRelated(db')
  {
    RelatedGrows(db, db');
    hide Grows, Related;
  }

  lemma {:induction false} LinkRelates(db: Db, k: string, p: string)
    requires Inv(db) && LinksRelated(db) && k in db.knowledge && p in db.proofs
    ensures LinksRelated(Link(db, k, p))
  {
    hide Inv, Grows, InsertRelation;
    LinkKeeps(db, k, p);
    LinkKeepsTables(db, k, p);
    RelatedGrows(db, Link(db, k, p));
    LinkRow(db, k, p);
    var db0 := db.(links := db.links + {(k, p)});
    InsertKeeps(db0, k, VerifiedBy, p);
    assert Related(Link(db, k, p), k, VerifiedBy, p);
    hide Related;
  }

  lemma {:induction false} LinkAllRelates(db: Db, k: string, ps: seq<string>)
    requires Inv(db) && LinksRelated(db) && k in db.knowledge && forall p :: p in ps ==> p in db.proofs
    ensures LinksRelated(LinkAll(db, k, ps))
    decreases |ps|
  {
    hide Inv, Link, LinksRelated;
    if ps != [] {
      LinkRelates(db, k, ps[0]);
      LinkKeeps(db, k, ps[0]);
      LinkKeepsTables(db, k, ps[0]);
      LinkAllRelates(Link(db, k, ps[0]), k, ps[1..]);
    }
  }

  lemma {:induction false} AppendRelates(db: Db, d: Draft)
    requires Inv(db) && LinksRelated(db) && AppendKnowledge(db, d).Ok?
    ensures LinksRelated(AppendKnowledge(db, d).db)
  {
    hide Inv, Grows, Link, LinkAll, InsertRelation, NextId, SupersedePrevious, LinksRelated;
    var id := NextId(db, "knowledge", Prefix(db, d));
    InsertedKeeps(db, d);
    var db0 := Inserted(db, d);
    SameLinks(db, db0);
    LinkAllRelates(db0, id, d.proofs);
    LinkAllKeeps(db0, id, d.proofs);
    LinkAllKeepsTables(db0, id, d.proofs);
    var db1 := LinkAll(db0, id, d.proofs);
    PreviousKeeps(db1, id, d.supersedes);
    SupersedeKeepsTables(db1, id, d.supersedes);
    var db2 := SupersedePrevious(db1, id, d.supersedes);
    SameLinks(db1, db2);
    StatusOnly(db2, AppendKnowledge(db, d).db);
  }

  /** Changing statuses and auditing leave links and relations alone. */
  lemma {:induction false} StatusOnly(db: Db, db': Db)
    requires LinksRelated(db) && db'.links == db.links && db'.relations == db.relations
    ensures LinksRelated(db')
  {
    forall k, p | (k, p) in db'.links ensures Related(db', k, VerifiedBy, p) {
      assert Related(db, k, VerifiedBy, p);
      var id :| HasTriple(db, id, k, VerifiedBy, p);
      assert HasTriple(db', id, k, VerifiedBy, p);
    }
  }

  lemma {:induction false} AttachRelates(db: Db, k: string, p: string, promote: bool)
    requires Inv(db) && LinksRelated(db) && AttachProof(db, k, p, promote).Ok?
    ensures LinksRelated(AttachProof(db, k, p, promote).db)
  {
    hide Inv, Link, LinksRelated;
    LinkRelates(db, k, p);
    LinkKeepsTables(db, k, p);
    StatusOnly(if (k, p) in db.links then db else Link(db, k, p), AttachProof(db, k, p, promote).db);
  }

  lemma {:induction false} StepRelates(db: Db, op: Op, hash: Hash)
    requires Inv(db) && LinksRelated(db)
    ensures LinksRelated(Step(db, op, hash))
  {
    hide Inv, Grows, AppendKnowledge, AttachProof, InsertRelation, LinksRelated, HandoffValues, Clean, Included;
    StepKeeps(db, op, hash);
    if op.OpAppend? && Perform(db, op, hash).Ok? {
      AppendRelates(db, op.draft);
    } else if op.OpAttach? && Perform(db, op, hash).Ok? {
      AttachRelates(db, op.k, op.p, op.promote);
    } else {
      LinksStay(db, op, hash);
      SameLinks(db, Step(db, op, hash));
    }
  }

  lemma {:induction false} LinksStay(db: Db, op: Op, hash: Hash)
    requires Inv(db) && (Perform(db, op, hash).Ok? ==> !op.OpAppend? && !op.OpAttach?)
    ensures Step(db, op, hash).links == db.links
  {
    hide Inv, AppendKnowledge, AttachProof, InsertRelation, HandoffValues, Clean, Included, AuditTimes, NextId;
    if Perform(db, op, hash).Ok? {
      match op
      case OpRelate(f, t, to) => InsertKeepsTables(db, f, t, to);
      case OpSupersede(_, f, t, to) => InsertKeepsTables(db, f, t, to);
      case OpInvalidate(p, _) =>
        var db1 := Withdraw(db, p);
        var gone := Demoted(db1, p);
        AuditFrame(db1.(knowledge := Demote(db1.knowledge, gone)), map[], |gone| + 1);
      case _ =>
    }
  }

  lemma {:induction false} RunRelates(db: Db, ops: seq<Op>, hash: Hash)
    requires Inv(db) && LinksRelated(db)
    ensures LinksRelated(Run(db, ops, hash))
    decreases |ops|
  {
    hide Inv, LinksRelated, Step;
    if ops != [] {
      StepKeeps(db, ops[0], hash);
      StepRelates(db, ops[0], hash);
      RunRelates(Step(db, ops[0], hash), ops[1..], hash);
    }
  }

  // ---- the verdict ------------------------------------------------------------------------------------

  /** An id that names a proof and nothing the doctor looks at. */
  predicate OnlyProof(db: Db, id: string) { id in db.proofs && !Recognised(db, id) }

  /** On every reachable store the PROVEN and Front-brick checks pass, no relation
      dangles, and yet the orphan check fails exactly when some relation ends in a
      proof. */
  lemma {:induction false} DoctorOnRuns(ops: seq<Op>, hash: Hash)
    ensures var db := Run(EMPTY, ops, hash);
            && ProvenCheck(db) && BrickCheck(db)
            && (OrphanCheck(db) <==>
                forall r :: r in db.relations ==> !OnlyProof(db, db.relations[r].from) && !OnlyProof(db, db.relations[r].to))
  {
    hide Run, IdsIssued, VersionsCount, Justified, TriplesUnique, ReplacementsNamed;
    EveryRun(ops, hash);
    var db := Run(EMPTY, ops, hash);
    assert EndpointsExist(db);
    forall r | r in db.relations
      ensures OnlyProof(db, db.relations[r].from) <==> !Recognised(db, db.relations[r].from)
      ensures OnlyProof(db, db.relations[r].to) <==> !Recognised(db, db.relations[r].to)
    {}
  }

  /** So linking one proof, the very thing that justifies a PROVEN item, is enough to
      make the doctor report a sound store as broken. */
  lemma {:induction false} LinkingAlarmsDoctor(ops: seq<Op>, hash: Hash, k: string, p: string)
    requires (k, p) in Run(EMPTY, ops, hash).links && !Recognised(Run(EMPTY, ops, hash), p)
    ensures !OrphanCheck(Run(EMPTY, ops, hash))
  {
    hide Run, Inv, Recognised;
    assert EMPTY.links == {};
    assert Inv(EMPTY) by { EveryRun([], hash); assert Run(EMPTY, [], hash) == EMPTY by { RunNothing(hash); } }
    RunRelates(EMPTY, ops, hash);
    var db := Run(EMPTY, ops, hash);
    assert Related(db, k, VerifiedBy, p);
    var r :| HasTriple(db, r, k, VerifiedBy, p);
    assert db.relations[r].to == p;
  }

  lemma {:induction false} RunNothing(hash: Hash)
    ensures Run(EMPTY, [], hash) == EMPTY
  {}

  /** The smallest false alarm: one recorded PASS and one knowledge appended with it. */
  function AlarmRun(d: Draft): seq<Op> { [OpProof("TEST", Pass, true), OpAppend(d)] }

  /** From the empty store, for every draft that names the first proof and needs
      nothing registered: the run succeeds, the store is sound, and the doctor calls
      it broken. */
  lemma {:induction false} TwoStepsAlarmDoctor(d: Draft, hash: Hash)
    requires d.title != "" && d.content != "" && InitialStatus(d) != Superseded && InitialStatus(d) != Obsolete
    requires d.component.None? && d.function_.None? && d.brick.None? && d.supersedes.None?
    requires d.proofs == [Format("P", 1)]
    ensures var db := Run(EMPTY, AlarmRun(d), hash);
            && Inv(db) && Format("KN", 1) in db.knowledge && (Format("KN", 1), Format("P", 1)) in db.links
            && !OrphanCheck(db)
  {
    var p, k := Format("P", 1), Format("KN", 1);
    EveryRun(AlarmRun(d), hash);
    RunTwo(EMPTY, OpProof("TEST", Pass, true), OpAppend(d), hash);
    var db1 := Step(EMPTY, OpProof("TEST", Pass, true), hash);
    FirstProof(hash);
    FirstKnowledge(db1, d, p, hash);
    DistinctIds("P", 1, "KN", 1);
    hide Run, Inv, Step, Format;
    LinkingAlarmsDoctor(AlarmRun(d), hash, k, p);
  }

  lemma {:induction false} FirstProof(hash: Hash)
    ensures var db := Step(EMPTY, OpProof("TEST", Pass, true), hash);
            && db == EMPTY.(proofs := map[Format("P", 1) := Proof(Pass, true)], seqs := db.seqs, audits := db.audits)
            && SeqKey("knowledge", "KN") !in db.seqs
  {
    hide Format;
    assert SeqKey("knowledge", "KN")[0] == 'k' && SeqKey("proof", "P")[0] == 'p' && SeqKey("audit", "A")[0] == 'a';
  }

  lemma {:induction false} FirstKnowledge(db: Db, d: Draft, p: string, hash: Hash)
    requires d.title != "" && d.content != "" && InitialStatus(d) != Superseded && InitialStatus(d) != Obsolete
    requires d.component.None? && d.function_.None? && d.brick.None? && d.supersedes.None? && d.proofs == [p]
    requires db == EMPTY.(proofs := map[p := Proof(Pass, true)], seqs := db.seqs, audits := db.audits)
    requires SeqKey("knowledge", "KN") !in db.seqs
    ensures var db' := Step(db, OpAppend(d), hash);
            && db'.knowledge.Keys == {Format("KN", 1)} && (Format("KN", 1), p) in db'.links
            && db'.components == {} && db'.functions == {} && db'.bricks == map[]
  {
    hide Format, Link, LinkAll, InsertRelation, SupersedePrevious;
    assert p in d.proofs && Admissible(db.proofs[p]);
    assert Acceptable(db, d);
    var k := Format("KN", 1);
    assert NextId(db, "knowledge", Prefix(db, d)) == k;
    LinkAllKeepsTables(Inserted(db, d), k, d.proofs);
    SupersedeKeepsTables(LinkAll(Inserted(db, d), k, d.proofs), k, d.supersedes);
  }
}

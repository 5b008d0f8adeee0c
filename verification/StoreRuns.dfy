/** What every run of the memory store keeps, from an empty store on. */
module StoreRuns {
  import opened Basics
  import opened Ids
  import opened Store

  // ---- the invariant ---------------------------------------------------------------------

  /** Every PROVEN knowledge has a linked PASS and admissible proof. */
  ghost predicate ProvenJustified(db: Db) {
    forall k :: k in db.knowledge && db.knowledge[k].status == Proven ==> Justified(db, k)
  }

  ghost predicate LinksResolve(db: Db) {
    forall l :: l in db.links ==> l.0 in db.knowledge && l.1 in db.proofs
  }

  ghost predicate EndpointsExist(db: Db) {
    forall r :: r in db.relations ==> Exists(db, db.relations[r].from) && Exists(db, db.relations[r].to)
  }

  ghost predicate TriplesUnique(db: Db) {
    forall r, r' | r in db.relations && r' in db.relations ::
      HasTriple(db, r', db.relations[r].from, db.relations[r].kind, db.relations[r].to) ==> r == r'
  }

  /** SUPERSEDED exactly when a replacement is named, an existing other relation. */
  ghost predicate ReplacementsNamed(db: Db) {
    forall r :: r in db.relations ==>
      var x := db.relations[r].supersededBy;
      (db.relations[r].live <==> x.None?) && (x.Some? ==> x.value in db.relations && x.value != r)
  }

  /** Along `supersedes` the version drops by exactly one. */
  ghost predicate VersionsCount(db: Db) {
    forall k :: k in db.knowledge ==>
      match db.knowledge[k].supersedes
      case None => db.knowledge[k].version == 1
      case Some(p) => p in db.knowledge && db.knowledge[k].version == db.knowledge[p].version + 1
  }

  ghost predicate FrontBrickActive(db: Db) {
    BrickKey in db.front ==> db.front[BrickKey] in db.bricks && db.bricks[db.front[BrickKey]].state == BrickActive
  }

  /** The id was handed out by the entity's counters. */
  ghost predicate Issued(db: Db, entity: string, id: string) {
    exists prefix, n :: IssuedAs(db, entity, id, prefix, n)
  }

  predicate IssuedAs(db: Db, entity: string, id: string, prefix: string, n: nat) {
    n < NextNumber(db, entity, prefix) && id == Format(prefix, n)
  }

  ghost predicate IdsIssued(db: Db) {
    && (forall k :: k in db.knowledge ==> Issued(db, "knowledge", k))
    && (forall p :: p in db.proofs ==> Issued(db, "proof", p))
    && (forall r :: r in db.relations ==> Issued(db, "relation", r))
    && (forall a :: a in db.audits ==> Issued(db, "audit", a))
  }

  ghost predicate GraphSound(db: Db) { EndpointsExist(db) && TriplesUnique(db) && ReplacementsNamed(db) }

  ghost predicate Inv(db: Db) {
    && ProvenJustified(db) && LinksResolve(db) && GraphSound(db)
    && VersionsCount(db) && FrontBrickActive(db) && IdsIssued(db)
  }

  predicate SameTriple(a: Relation, b: Relation) { a.from == b.from && a.kind == b.kind && a.to == b.to }

  /** A live relation may get a replacement; a replaced one never changes again. */
  predicate OnlyReplaced(a: Relation, b: Relation) { SameTriple(a, b) && (!a.live ==> b == a) }

  /** A proof keeps its result; admissibility can only be withdrawn. */
  predicate OnlyWithdrawn(a: Proof, b: Proof) { b.result == a.result && (b.admissible ==> a.admissible) }

  ghost predicate CountersRise(db: Db, db': Db) {
    forall key :: key in db.seqs ==> key in db'.seqs && db.seqs[key] <= db'.seqs[key]
  }

  /** Nothing is ever removed, counters only rise, and only these fields are rewritten: a knowledge's
      status, a proof's admissibility (to false), a brick's state, a live relation's
      replacement. */
  ghost predicate Grows(db: Db, db': Db) {
    && db.knowledge.Keys <= db'.knowledge.Keys && db.proofs.Keys <= db'.proofs.Keys
    && db.relations.Keys <= db'.relations.Keys && db.audits <= db'.audits
    && db.components <= db'.components && db.functions <= db'.functions && db.bricks.Keys <= db'.bricks.Keys
    && db.links <= db'.links
    && (forall k :: k in db.knowledge ==> db'.knowledge[k] == db.knowledge[k].(status := db'.knowledge[k].status))
    && (forall r :: r in db.relations ==> OnlyReplaced(db.relations[r], db'.relations[r]))
    && (forall p :: p in db.proofs ==> OnlyWithdrawn(db.proofs[p], db'.proofs[p]))
    && (forall b :: b in db.bricks ==> db'.bricks[b].component == db.bricks[b].component)
    && CountersRise(db, db')
  }

  // ---- identifiers ---------------------------------------------------------------------------

  /** A counter's next id is new to any table whose ids it issued. */
  lemma {:induction false} NextIdIsNew(db: Db, entity: string, prefix: string, table: set<string>)
    requires forall id :: id in table ==> Issued(db, entity, id)
    ensures NextId(db, entity, prefix) !in table
  {
    var id := NextId(db, entity, prefix);
    if id in table {
      var p, n :| IssuedAs(db, entity, id, p, n);
      FormatInjective(p, n, prefix, NextNumber(db, entity, prefix));
      assert false;
    }
  }

  lemma {:induction false} BumpIssues(db: Db, entity: string, prefix: string, entity': string, id: string)
    ensures Issued(db, entity', id) ==> Issued(Bump(db, entity, prefix), entity', id)
    ensures Issued(Bump(db, entity, prefix), entity, NextId(db, entity, prefix))
  {
    hide Format;
    var db1 := Bump(db, entity, prefix);
    if Issued(db, entity', id) {
      var p, n :| IssuedAs(db, entity', id, p, n);
      assert IssuedAs(db1, entity', id, p, n);
    }
    assert IssuedAs(db1, entity, NextId(db, entity, prefix), prefix, NextNumber(db, entity, prefix));
  }

  /** Issuance reads the counters only. */
  lemma {:induction false} SameSeqs(db: Db, db': Db, entity: string, id: string)
    requires db.seqs == db'.seqs
    ensures Issued(db, entity, id) <==> Issued(db', entity, id)
  {
    hide Format;
    if Issued(db, entity, id) { var p, n :| IssuedAs(db, entity, id, p, n); assert IssuedAs(db', entity, id, p, n); }
    if Issued(db', entity, id) { var p, n :| IssuedAs(db', entity, id, p, n); assert IssuedAs(db, entity, id, p, n); }
  }

  /** After handing out an id of `entity`, and adding it to that table, all ids are
      still issued. */
  lemma {:induction false} IdsAfterBump(db: Db, entity: string, prefix: string, db': Db)
    requires IdsIssued(db) && db'.seqs == Bump(db, entity, prefix).seqs
    requires forall k :: k in db'.knowledge ==> k in db.knowledge || (entity == "knowledge" && k == NextId(db, entity, prefix))
    requires forall p :: p in db'.proofs ==> p in db.proofs || (entity == "proof" && p == NextId(db, entity, prefix))
    requires forall r :: r in db'.relations ==> r in db.relations || (entity == "relation" && r == NextId(db, entity, prefix))
    requires forall a :: a in db'.audits ==> a in db.audits || (entity == "audit" && a == NextId(db, entity, prefix))
    ensures IdsIssued(db')
  {
    hide Format, NextNumber, NextId, Issued;
    var db1 := Bump(db, entity, prefix);
    forall e, id ensures (Issued(db, e, id) || (e == entity && id == NextId(db, entity, prefix))) ==> Issued(db', e, id) {
      BumpIssues(db, entity, prefix, e, id);
      SameSeqs(db1, db', e, id);
    }
  }

  lemma {:induction false} Rises(db: Db, db': Db, entity: string, prefix: string)
    requires db'.seqs == Bump(db, entity, prefix).seqs
    ensures CountersRise(db, db')
  {}

  // ---- frames ------------------------------------------------------------------------------

  lemma {:induction false} GrowsTrans(a: Db, b: Db, c: Db)
    requires Grows(a, b) && Grows(b, c)
    ensures Grows(a, c)
  {}

  /** Growing tables keep entities in existence. */
  lemma {:induction false} ExistsGrows(db: Db, db': Db)
    requires Grows(db, db')
    ensures forall id :: Exists(db, id) ==> Exists(db', id)
  {}

  lemma {:induction false} GraphFrame(db: Db, db': Db)
    requires GraphSound(db) && db'.relations == db.relations && Grows(db, db')
    ensures GraphSound(db')
  {
    ExistsGrows(db, db');
    hide Exists, Grows;
    forall r, a, b, c ensures HasTriple(db', r, a, b, c) <==> HasTriple(db, r, a, b, c) {}
  }

  /** Versions do not look at statuses. */
  lemma {:induction false} VersionsFrame(db: Db, db': Db)
    requires VersionsCount(db) && Grows(db, db') && db'.knowledge.Keys == db.knowledge.Keys
    ensures VersionsCount(db')
  {
    forall k | k in db'.knowledge ensures k in db.knowledge { assert k in db'.knowledge.Keys; }
  }

  lemma {:induction false} JustifiedGrows(db: Db, db': Db)
    requires db.links <= db'.links
    requires forall p :: p in db.proofs ==> p in db'.proofs && db'.proofs[p] == db.proofs[p]
    ensures forall k :: Justified(db, k) ==> Justified(db', k)
  {
    forall k | Justified(db, k) ensures Justified(db', k) {
      var p :| (k, p) in db.links && p in db.proofs && Admissible(db.proofs[p]);
      assert (k, p) in db'.links && p in db'.proofs && Admissible(db'.proofs[p]);
    }
  }

  lemma {:induction false} JustifiedSame(db: Db, db': Db)
    requires db.links == db'.links && db.proofs == db'.proofs
    ensures forall k :: Justified(db, k) <==> Justified(db', k)
  {
    JustifiedGrows(db, db');
    JustifiedGrows(db', db);
  }

  /** A step that leaves the counters and the id columns alone. */
  lemma {:induction false} IdsUnchanged(db: Db, db': Db)
    requires IdsIssued(db) && db'.seqs == db.seqs
    requires db'.knowledge.Keys == db.knowledge.Keys && db'.proofs.Keys == db.proofs.Keys
    requires db'.relations.Keys == db.relations.Keys && db'.audits == db.audits
    ensures IdsIssued(db')
  {
    hide Issued;
    forall e, id ensures Issued(db, e, id) <==> Issued(db', e, id) { SameSeqs(db, db', e, id); }
    assert forall k :: k in db'.knowledge <==> k in db.knowledge.Keys;
    assert forall k :: k in db'.proofs <==> k in db.proofs.Keys;
    assert forall k :: k in db'.relations <==> k in db.relations.Keys;
  }

  // ---- auditing ---------------------------------------------------------------------------------

  lemma {:induction false} AuditKeeps(db: Db)
    requires Inv(db)
    ensures Inv(Audit(db)) && Grows(db, Audit(db)) && Audit(db).front == db.front
  {
    hide GraphSound, VersionsCount, IdsIssued, Justified, NextId, NextNumber;
    IdsAfterBump(db, "audit", "A", Audit(db));
    Rises(db, Audit(db), "audit", "A");
    JustifiedSame(db, Audit(db));
    GraphFrame(db, Audit(db));
    VersionsFrame(db, Audit(db));
  }

  lemma {:induction false} AuditTimesKeeps(db: Db, n: nat)
    requires Inv(db)
    ensures Inv(AuditTimes(db, n)) && Grows(db, AuditTimes(db, n)) && AuditTimes(db, n).front == db.front
    ensures AuditTimes(db, n).knowledge == db.knowledge && AuditTimes(db, n).proofs == db.proofs
    ensures AuditTimes(db, n).links == db.links
    decreases n
  {
    hide Inv, Grows;
    if n > 0 {
      AuditKeeps(db);
      AuditTimesKeeps(Audit(db), n - 1);
      GrowsTrans(db, Audit(db), AuditTimes(db, n));
    } else {
      GrowsSelf(db);
    }
  }

  /** Auditing neither reads nor writes knowledge, proofs, links and relations. */
  lemma {:induction false} AuditFrame(db: Db, ks: map<string, Knowledge>, n: nat)
    ensures AuditTimes(db.(knowledge := ks), n) == AuditTimes(db, n).(knowledge := ks)
    ensures AuditTimes(db, n).knowledge == db.knowledge && AuditTimes(db, n).proofs == db.proofs
    ensures AuditTimes(db, n).links == db.links && AuditTimes(db, n).relations == db.relations
    decreases n
  {
    if n > 0 {
      assert Audit(db.(knowledge := ks)) == Audit(db).(knowledge := ks);
      AuditFrame(Audit(db), ks, n - 1);
    }
  }

  lemma {:induction false} GrowsSelf(db: Db)
    ensures Grows(db, db)
  {}

  // ---- relations ----------------------------------------------------------------------------------

  /** The row just before auditing. */
  function WithRelation(db: Db, from: string, kind: RelationType, to: string): Db {
    Bump(db, "relation", "R").(relations :=
      db.relations[NextId(db, "relation", "R") := Relation(from, kind, to, true, None)])
  }

  lemma {:induction false} NewTriple(db: Db, from: string, kind: RelationType, to: string)
    requires GraphSound(db) && Exists(db, from) && Exists(db, to)
    requires !Related(db, from, kind, to) && NextId(db, "relation", "R") !in db.relations
    ensures GraphSound(WithRelation(db, from, kind, to))
  {
    hide NextId, Bump;
    var id := NextId(db, "relation", "R");
    var db1 := WithRelation(db, from, kind, to);
    assert db1 == db.(relations := db1.relations, seqs := db1.seqs) by { BumpSeqs(db); }
    forall x ensures Exists(db1, x) <==> Exists(db, x) {}
    hide Exists;
    forall r, r' | r in db1.relations && r' in db1.relations
      ensures HasTriple(db1, r', db1.relations[r].from, db1.relations[r].kind, db1.relations[r].to) ==> r == r'
    {
      if r == id && r' != id { assert HasTriple(db1, r', from, kind, to) ==> HasTriple(db, r', from, kind, to); }
      else if r != id && r' == id { assert HasTriple(db1, r', db.relations[r].from, db.relations[r].kind, db.relations[r].to)
                                           ==> HasTriple(db, r, from, kind, to); }
      else if r != id { assert HasTriple(db, r', db.relations[r].from, db.relations[r].kind, db.relations[r].to)
                               <==> HasTriple(db1, r', db.relations[r].from, db.relations[r].kind, db.relations[r].to); }
    }
  }

  lemma {:induction false} BumpSeqs(db: Db)
    ensures Bump(db, "relation", "R") == db.(seqs := Bump(db, "relation", "R").seqs)
  {}

  lemma {:induction false} InsertKeeps(db: Db, from: string, kind: RelationType, to: string)
    requires Inv(db) && Exists(db, from) && Exists(db, to)
    ensures var db1 := InsertRelation(db, from, kind, to);
            && Inv(db1) && Grows(db, db1) && db1.front == db.front
            && HasTriple(db1, RelationId(db, from, kind, to), from, kind, to)
            && (forall r :: r in db.relations ==> db1.relations[r] == db.relations[r])
            && (RelationId(db, from, kind, to) in db.relations ==> HasTriple(db, RelationId(db, from, kind, to), from, kind, to))
  {
    hide VersionsCount, IdsIssued, Justified, NextNumber, GraphSound, CountersRise;
    if !Related(db, from, kind, to) {
      RelationIdsNew(db);
      var db1 := WithRelation(db, from, kind, to);
      InsertedRelation(db, from, kind, to);
      hide Inv;
      AuditKeeps(db1);
      GrowsTrans(db, db1, Audit(db1));
      hide Grows;
    } else {
      hide Inv;
      GrowsSelf(db);
    }
  }

  lemma {:induction false} InsertedRelation(db: Db, from: string, kind: RelationType, to: string)
    requires Inv(db) && Exists(db, from) && Exists(db, to) && !Related(db, from, kind, to)
    ensures Inv(WithRelation(db, from, kind, to)) && Grows(db, WithRelation(db, from, kind, to))
  {
    hide VersionsCount, IdsIssued, Justified, NextNumber, GraphSound, CountersRise;
    RelationIdsNew(db);
    var db1 := WithRelation(db, from, kind, to);
    NewTriple(db, from, kind, to);
    IdsAfterBump(db, "relation", "R", db1);
    Rises(db, db1, "relation", "R");
    JustifiedSame(db, db1);
    VersionsFrame(db, db1);
  }

  lemma {:induction false} RelationIdsNew(db: Db)
    requires IdsIssued(db)
    ensures NextId(db, "relation", "R") !in db.relations
  {
    hide Issued, NextId;
    NextIdIsNew(db, "relation", "R", db.relations.Keys);
  }

  lemma {:induction false} SupersedeRelationKeeps(db: Db, rid: string, from: string, kind: RelationType, to: string)
    requires Inv(db) && SupersedeRelation(db, rid, from, kind, to).Ok?
    ensures var r := SupersedeRelation(db, rid, from, kind, to);
            && Inv(r.db) && Grows(db, r.db) && r.db.front == db.front
            && r.id != rid && r.db.relations[rid].supersededBy == Some(r.id)
  {
    hide Inv, InsertRelation, RelationId, Grows, Exists;
    InsertKeeps(db, from, kind, to);
    var new' := RelationId(db, from, kind, to);
    var db1 := InsertRelation(db, from, kind, to);
    RelationsStay(db, db1);
    var db2 := Replaced(db1, rid, new');
    Resupersede(db1, rid, new');
    AuditKeeps(db2);
    GrowsTrans(db, db1, db2);
    GrowsTrans(db, db2, Audit(db2));
  }

  lemma {:induction false} RelationsStay(db: Db, db': Db)
    requires Grows(db, db')
    ensures forall r :: r in db.relations ==> r in db'.relations
  {}

  function Replaced(db: Db, rid: string, new': string): Db
    requires rid in db.relations
  {
    db.(relations := db.relations[rid := db.relations[rid].(live := false, supersededBy := Some(new'))])
  }

  lemma {:induction false} Resupersede(db: Db, rid: string, new': string)
    requires Inv(db) && rid in db.relations && new' in db.relations && rid != new' && db.relations[rid].live
    ensures Inv(Replaced(db, rid, new')) && Grows(db, Replaced(db, rid, new'))
  {
    hide IdsIssued, Justified, VersionsCount, GraphSound;
    var db1 := Replaced(db, rid, new');
    IdsUnchanged(db, db1);
    JustifiedSame(db, db1);
    VersionsFrame(db, db1);
    ReplacedGraph(db, rid, new');
  }

  lemma {:induction false} ReplacedGraph(db: Db, rid: string, new': string)
    requires GraphSound(db) && rid in db.relations && new' in db.relations && rid != new'
    ensures GraphSound(Replaced(db, rid, new'))
  {
    var db1 := Replaced(db, rid, new');
    forall x ensures Exists(db1, x) <==> Exists(db, x) {}
    hide Exists;
    forall r | r in db1.relations
      ensures r in db.relations
      ensures db1.relations[r].from == db.relations[r].from && db1.relations[r].kind == db.relations[r].kind
      ensures db1.relations[r].to == db.relations[r].to
    {}
    assert EndpointsExist(db1);
    assert ReplacementsNamed(db1);
    hide EndpointsExist, ReplacementsNamed, Replaced;
    assert TriplesUnique(db1) by {
      forall r, r' | r in db1.relations && r' in db1.relations
        ensures HasTriple(db1, r', db1.relations[r].from, db1.relations[r].kind, db1.relations[r].to) ==> r == r'
      {
        assert HasTriple(db, r', db.relations[r].from, db.relations[r].kind, db.relations[r].to)
          <==> HasTriple(db1, r', db.relations[r].from, db.relations[r].kind, db.relations[r].to);
      }
    }
  }

  // ---- proofs -----------------------------------------------------------------------------------------

  lemma {:induction false} RecordProofKeeps(db: Db, kind: string, result: Result, admissible: bool)
    requires Inv(db) && RecordProof(db, kind, result, admissible).Ok?
    ensures var r := RecordProof(db, kind, result, admissible);
            && Inv(r.db) && Grows(db, r.db) && r.id !in db.proofs
            && r.db == db.(proofs := db.proofs[r.id := Proof(result, admissible)], seqs := r.db.seqs, audits := r.db.audits)
  {
    hide VersionsCount, IdsIssued, Justified, NextNumber, GraphSound, NextId, CountersRise;
    ProofIdsNew(db);
    var id := NextId(db, "proof", "P");
    var db1 := Bump(db, "proof", "P").(proofs := db.proofs[id := Proof(result, admissible)]);
    IdsAfterBump(db, "proof", "P", db1);
    Rises(db, db1, "proof", "P");
    JustifiedGrows(db, db1);
    GraphFrame(db, db1);
    VersionsFrame(db, db1);
    assert Inv(db1) && Grows(db, db1);
    hide Inv;
    AuditKeeps(db1);
    GrowsTrans(db, db1, Audit(db1));
    hide Grows;
  }

  lemma {:induction false} ProofIdsNew(db: Db)
    requires IdsIssued(db)
    ensures NextId(db, "proof", "P") !in db.proofs
  {
    hide Issued, NextId;
    NextIdIsNew(db, "proof", "P", db.proofs.Keys);
  }

  lemma {:induction false} LinkKeeps(db: Db, k: string, p: string)
    requires Inv(db) && k in db.knowledge && p in db.proofs
    ensures var db1 := Link(db, k, p); Inv(db1) && Grows(db, db1) && db1.front == db.front
  {
    hide InsertRelation, Grows;
    var db0 := db.(links := db.links + {(k, p)});
    LinkRow(db, k, p);
    hide Inv;
    InsertKeeps(db0, k, VerifiedBy, p);
    GrowsTrans(db, db0, InsertRelation(db0, k, VerifiedBy, p));
  }

  lemma {:induction false} LinkRow(db: Db, k: string, p: string)
    requires Inv(db) && k in db.knowledge && p in db.proofs
    ensures var db0 := db.(links := db.links + {(k, p)}); Inv(db0) && Grows(db, db0)
  {
    hide IdsIssued, Justified, VersionsCount, GraphSound;
    var db0 := db.(links := db.links + {(k, p)});
    IdsUnchanged(db, db0);
    JustifiedGrows(db, db0);
    GraphFrame(db, db0);
    VersionsFrame(db, db0);
  }

  /** Changing a status to PROVEN on a justified item, or away from PROVEN. */
  lemma {:induction false} SetStatusKeeps(db: Db, k: string, st: Status)
    requires Inv(db) && k in db.knowledge && (st == Proven ==> Justified(db, k))
    ensures Inv(SetStatus(db, k, st)) && Grows(db, SetStatus(db, k, st))
  {
    hide IdsIssued, Justified, VersionsCount, GraphSound;
    var db1 := SetStatus(db, k, st);
    assert db1.knowledge.Keys == db.knowledge.Keys;
    IdsUnchanged(db, db1);
    JustifiedSame(db, db1);
    GraphFrame(db, db1);
    VersionsFrame(db, db1);
  }

  lemma {:induction false} AttachKeeps(db: Db, k: string, p: string, promote: bool)
    requires Inv(db) && AttachProof(db, k, p, promote).Ok?
    ensures var r := AttachProof(db, k, p, promote); Inv(r.db) && Grows(db, r.db) && r.db.front == db.front
  {
    hide Inv, Link, Grows;
    LinkKeepsTables(db, k, p);
    LinkKeeps(db, k, p);
    GrowsSelf(db);
    var db1 := if (k, p) in db.links then db else Link(db, k, p);
    assert (k, p) in db1.links && p in db1.proofs && db1.proofs[p] == db.proofs[p];
    if promote {
      assert Justified(db1, k);
      SetStatusKeeps(db1, k, Proven);
      var db2 := SetStatus(db1, k, Proven);
      AuditKeeps(db2);
      GrowsTrans(db, db1, db2);
      GrowsTrans(db, db2, Audit(db2));
    } else {
      AuditKeeps(db1);
      GrowsTrans(db, db1, Audit(db1));
    }
  }

  /** Invalidation: the store stays consistent, the proof loses its admissibility,
      and over the whole table exactly the PROVEN items left without a PASS and
      admissible proof become OBSERVED; nothing else changes status. */
  lemma {:induction false} InvalidateKeeps(db: Db, p: string, reason: string)
    requires Inv(db) && InvalidateProof(db, p, reason).Ok?
    ensures var db' := InvalidateProof(db, p, reason).db;
            && Inv(db') && Grows(db, db') && db'.front == db.front
            && p in db'.proofs && !db'.proofs[p].admissible
            && (forall k :: k in db.knowledge ==>
                  db'.knowledge[k].status ==
                  if db.knowledge[k].status == Proven && !Justified(db', k) then Observed else db.knowledge[k].status)
  {
    hide IdsIssued, VersionsCount, GraphSound, Grows;
    var db1 := Withdraw(db, p);
    var gone := Demoted(db1, p);
    var db2 := db1.(knowledge := Demote(db1.knowledge, gone));
    JustifiedSame(db1, db2);
    forall k | k in db.knowledge && db.knowledge[k].status == Proven && !Justified(db1, k)
      ensures k in gone
    {
      assert Justified(db, k);
      if (k, p) !in db.links { WithdrawElsewhere(db, p, k); }
    }
    DemotedInv(db, db2, p, gone);
    hide Inv;
    AuditTimesKeeps(db2, |gone| + 1);
    GrowsTrans(db, db2, AuditTimes(db2, |gone| + 1));
    JustifiedSame(db2, AuditTimes(db2, |gone| + 1));
  }

  /** Withdrawing a proof does not touch items that do not use it. */
  lemma {:induction false} WithdrawElsewhere(db: Db, p: string, k: string)
    requires p in db.proofs && (k, p) !in db.links && Justified(db, k)
    ensures Justified(Withdraw(db, p), k)
  {
    var q :| (k, q) in db.links && q in db.proofs && Admissible(db.proofs[q]);
    assert q != p;
    assert Withdraw(db, p).proofs[q] == db.proofs[q];
  }

  lemma {:induction false} DemotedInv(db: Db, db2: Db, p: string, gone: set<string>)
    requires Inv(db) && p in db.proofs
    requires db2 == Withdraw(db, p).(knowledge := Demote(db.knowledge, gone))
    requires forall k :: k in db.knowledge && db.knowledge[k].status == Proven && !Justified(db2, k) ==> k in gone
    ensures Inv(db2) && Grows(db, db2)
  {
    hide IdsIssued, VersionsCount, GraphSound, Justified;
    assert db2.knowledge.Keys == db.knowledge.Keys;
    assert db2.proofs.Keys == db.proofs.Keys;
    IdsUnchanged(db, db2);
    GraphFrame(db, db2);
    VersionsFrame(db, db2);
  }

  // ---- knowledge -----------------------------------------------------------------------------------------

  lemma {:induction false} InsertedKeeps(db: Db, d: Draft)
    requires Inv(db) && Acceptable(db, d)
    ensures var id := NextId(db, "knowledge", Prefix(db, d));
            id !in db.knowledge && Inv(Inserted(db, d)) && Grows(db, Inserted(db, d))
  {
    hide IdsIssued, VersionsCount, GraphSound, Justified, NextNumber, NextId, Prefix;
    KnowledgeIdsNew(db, Prefix(db, d));
    var db1 := Inserted(db, d);
    IdsAfterBump(db, "knowledge", Prefix(db, d), db1);
    Rises(db, db1, "knowledge", Prefix(db, d));
    JustifiedSame(db, db1);
    GraphFrame(db, db1);
    InsertedVersions(db, d);
  }

  lemma {:induction false} KnowledgeIdsNew(db: Db, prefix: string)
    requires IdsIssued(db)
    ensures NextId(db, "knowledge", prefix) !in db.knowledge
  {
    hide Issued, NextId;
    NextIdIsNew(db, "knowledge", prefix, db.knowledge.Keys);
  }

  lemma {:induction false} InsertedVersions(db: Db, d: Draft)
    requires VersionsCount(db) && Acceptable(db, d) && NextId(db, "knowledge", Prefix(db, d)) !in db.knowledge
    ensures VersionsCount(Inserted(db, d))
  {
    hide NextId, Prefix;
    var db1 := Inserted(db, d);
    var id := NextId(db, "knowledge", Prefix(db, d));
    forall k | k in db1.knowledge && k != id ensures k in db.knowledge && db1.knowledge[k] == db.knowledge[k] {}
  }

  lemma {:induction false} LinkAllKeeps(db: Db, k: string, ps: seq<string>)
    requires Inv(db) && k in db.knowledge && forall p :: p in ps ==> p in db.proofs
    ensures Inv(LinkAll(db, k, ps)) && Grows(db, LinkAll(db, k, ps))
    decreases |ps|
  {
    hide Inv, Link, Grows;
    GrowsSelf(db);
    if ps != [] {
      var db1 := Link(db, k, ps[0]);
      LinkKeeps(db, k, ps[0]);
      LinkKeepsTables(db, k, ps[0]);
      LinkAllKeeps(db1, k, ps[1..]);
      GrowsTrans(db, db1, LinkAll(db, k, ps));
    }
  }

  lemma {:induction false} PreviousKeeps(db: Db, id: string, previous: Option<string>)
    requires Inv(db) && id in db.knowledge && (previous.Some? ==> previous.value in db.knowledge)
    ensures Inv(SupersedePrevious(db, id, previous)) && Grows(db, SupersedePrevious(db, id, previous))
  {
    hide Inv, InsertRelation, Grows;
    GrowsSelf(db);
    if previous.Some? {
      var p := previous.value;
      InsertKeeps(db, id, Supersedes, p);
      InsertKeepsTables(db, id, Supersedes, p);
      var db1 := InsertRelation(db, id, Supersedes, p);
      SetStatusKeeps(db1, p, Superseded);
      var db2 := SetStatus(db1, p, Superseded);
      AuditKeeps(db2);
      GrowsTrans(db, db1, db2);
      GrowsTrans(db, db2, Audit(db2));
    }
  }

  lemma {:induction false} AppendKeeps(db: Db, d: Draft)
    requires Inv(db) && AppendKnowledge(db, d).Ok?
    ensures var r := AppendKnowledge(db, d);
            && Inv(r.db) && Grows(db, r.db) && r.db.front == db.front
            && r.id !in db.knowledge && r.id in r.db.knowledge
            && Acceptable(db, d) && Grows(Inserted(db, d), r.db)
  {
    hide Inv, Grows, Link, LinkAll, InsertRelation, NextNumber, NextId, SupersedePrevious;
    var id := NextId(db, "knowledge", Prefix(db, d));
    InsertedKeeps(db, d);
    var db0 := Inserted(db, d);
    LinkAllKeeps(db0, id, d.proofs);
    LinkAllKeepsTables(db0, id, d.proofs);
    var db1 := LinkAll(db0, id, d.proofs);
    PreviousKeeps(db1, id, d.supersedes);
    SupersedeKeepsTables(db1, id, d.supersedes);
    var db2 := SupersedePrevious(db1, id, d.supersedes);
    GrowsTrans(db0, db1, db2);
    if InitialStatus(d) == Proven {
      var p :| p in d.proofs && Admissible(db.proofs[p]);
      assert (id, p) in db2.links && p in db2.proofs && db2.proofs[p] == db.proofs[p];
      assert Justified(db2, id);
      SetStatusKeeps(db2, id, Proven);
      var db3 := SetStatus(db2, id, Proven);
      AuditKeeps(db3);
      GrowsTrans(db0, db2, db3);
      GrowsTrans(db0, db3, Audit(db3));
    } else {
      AuditKeeps(db2);
      GrowsTrans(db0, db2, Audit(db2));
    }
    GrowsTrans(db, db0, AppendKnowledge(db, d).db);
  }

  // ---- registry and Front -------------------------------------------------------------------------------------

  /** Registering entities and writing the Front leave proofs, knowledge, relations
      and counters alone. */
  lemma {:induction false} RegistryKeeps(db: Db, db1: Db)
    requires Inv(db) && FrontBrickActive(db1)
    requires db1 == db.(components := db1.components, functions := db1.functions, bricks := db1.bricks, front := db1.front)
    requires db.components <= db1.components && db.functions <= db1.functions && db.bricks.Keys <= db1.bricks.Keys
    requires forall b :: b in db.bricks ==> db1.bricks[b].component == db.bricks[b].component
    ensures Inv(Audit(db1)) && Grows(db, Audit(db1)) && Audit(db1).front == db1.front
  {
    hide IdsIssued, VersionsCount, GraphSound, Justified, Audit;
    IdsUnchanged(db, db1);
    JustifiedSame(db, db1);
    GraphFrame(db, db1);
    VersionsFrame(db, db1);
    assert Inv(db1) && Grows(db, db1);
    hide Inv, Grows;
    AuditKeeps(db1);
    GrowsTrans(db, db1, Audit(db1));
  }

  lemma {:induction false} BrickOpsKeep(db: Db, op: Op, hash: Hash)
    requires Inv(db) && Perform(db, op, hash).Ok?
    requires op.OpComponent? || op.OpFunction? || op.OpBrick? || op.OpUpdateBrick? || op.OpUpdateFront? || op.OpReplaceFront?
             || op.OpHandoff?
    ensures Inv(Perform(db, op, hash).db) && Grows(db, Perform(db, op, hash).db)
  {
    hide IdsIssued, VersionsCount, GraphSound, Justified, ProvenJustified, LinksResolve, Audit, HandoffValues, Grows, Included;
    match op
    case OpComponent(id) => RegistryKeeps(db, db.(components := db.components + {id}));
    case OpFunction(c, id) => RegistryKeeps(db, db.(functions := db.functions + {id}));
    case OpBrick(id, st, c) => RegistryKeeps(db, db.(bricks := db.bricks[id := Brick(st, c)]));
    case OpUpdateBrick(id, st, _) =>
      var old' := db.bricks[id];
      RegistryKeeps(db, db.(bricks := db.bricks[id := old'.(state := match st case Some(s) => s case None => old'.state)]));
    case OpUpdateFront(u) => RegistryKeeps(db, db.(front := db.front + Clean(u)));
    case OpReplaceFront(u) => RegistryKeeps(db, db.(front := Clean(u)));
    case OpHandoff(h) =>
      NoBrickWritten(db, h);
      var front := db.front + HandoffValues(db, h);
      RegistryKeeps(db, db.(front := front[FrontHash := hash(Included(front))][PreparedAt := h.stamp]));
  }

  lemma {:induction false} NoBrickWritten(db: Db, h: Handoff)
    requires AcceptableHandoff(db, h)
    ensures BrickKey !in HandoffValues(db, h) && FrontHash !in HandoffValues(db, h) && PreparedAt !in HandoffValues(db, h)
  {
    hide SummaryValues, CheckpointValues, AddressValues;
  }

  lemma {:induction false} SlotAt(front: Front, hot: seq<string>, n: nat, k: FrontKey)
    ensures k in AddressesUpTo(front, hot, n) <==>
            k.RelevantAddress? && 1 <= k.i <= n && (k.i <= |hot| || k in front)
    ensures k in AddressesUpTo(front, hot, n) ==>
            AddressesUpTo(front, hot, n)[k] == if k.i <= |hot| then Address(hot[k.i - 1]) else ""
  {
    hide Address;
    if k.RelevantAddress? { assert k == RelevantAddress(k.i); }
  }

  // ---- every run -----------------------------------------------------------------------------------------------

  lemma {:induction false} StepKeeps(db: Db, op: Op, hash: Hash)
    requires Inv(db)
    ensures Inv(Step(db, op, hash)) && Grows(db, Step(db, op, hash))
  {
    hide Inv, Grows, AppendKnowledge, AttachProof, InvalidateProof, SupersedeRelation, InsertRelation, PrepareHandoff,
      RegisterBrick, UpdateBrick, RegisterComponent, RegisterFunction, UpdateFront, ReplaceFront, RecordProof;
    GrowsSelf(db);
    if Perform(db, op, hash).Ok? {
      match op
      case OpProof(kind, r, a) => RecordProofKeeps(db, kind, r, a);
      case OpAppend(d) => AppendKeeps(db, d);
      case OpAttach(k, p, promote) => AttachKeeps(db, k, p, promote);
      case OpInvalidate(p, reason) => InvalidateKeeps(db, p, reason);
      case OpRelate(f, t, to) => InsertKeeps(db, f, t, to);
      case OpSupersede(r, f, t, to) => SupersedeRelationKeeps(db, r, f, t, to);
      case _ => BrickOpsKeep(db, op, hash);
    }
  }

  /** In every run from the empty store: PROVEN items are justified, links and
      relation endpoints resolve, triples are unique, superseded relations name
      another one, versions count, the Front's brick is ACTIVE and all ids were
      issued by their counters. */
  lemma {:induction false} RunKeeps(db: Db, ops: seq<Op>, hash: Hash)
    requires Inv(db)
    ensures Inv(Run(db, ops, hash)) && Grows(db, Run(db, ops, hash))
    decreases |ops|
  {
    hide Inv, Grows, Step;
    if ops != [] {
      StepKeeps(db, ops[0], hash);
      RunKeeps(Step(db, ops[0], hash), ops[1..], hash);
      GrowsTrans(db, Step(db, ops[0], hash), Run(db, ops, hash));
    } else {
      GrowsSelf(db);
    }
  }

  lemma {:induction false} EveryRun(ops: seq<Op>, hash: Hash)
    ensures Inv(Run(EMPTY, ops, hash))
  {
    assert Inv(EMPTY);
    RunKeeps(EMPTY, ops, hash);
  }

  lemma {:induction false} RunTwo(db: Db, a: Op, b: Op, hash: Hash)
    ensures Run(db, [a, b], hash) == Step(Step(db, a, hash), b, hash)
  {
    hide Step;
    RunFirst(db, [a, b], hash);
    RunFirst(Step(db, a, hash), [b], hash);
    assert [a, b][1..] == [b] && [b][1..] == [];
  }

  lemma {:induction false} RunFirst(db: Db, ops: seq<Op>, hash: Hash)
    requires ops != []
    ensures Run(db, ops, hash) == Run(Step(db, ops[0], hash), ops[1..], hash)
    ensures ops[1..] == [] ==> Run(db, ops, hash) == Step(db, ops[0], hash)
  {
    hide Step;
  }

  lemma {:induction false} RunLast(db: Db, ops: seq<Op>, i: nat, hash: Hash)
    requires i < |ops|
    ensures Run(db, ops[..i + 1], hash) == Step(Run(db, ops[..i], hash), ops[i], hash)
    decreases i
  {
    hide Step;
    RunFirst(db, ops[..i + 1], hash);
    if i == 0 {
      assert ops[..1] == [ops[0]];
    } else {
      RunFirst(db, ops[..i], hash);
      RunLast(Step(db, ops[0], hash), ops[1..], i - 1, hash);
      assert ops[..i + 1][1..] == ops[1..][..i] && ops[..i][1..] == ops[1..][..i - 1];
    }
  }

  /** No id is ever handed out twice: whatever ran before, the next id of a table
      is none of the ids it holds, and tables never lose an id. */
  lemma {:induction false} NeverReissued(ops: seq<Op>, more: seq<Op>, hash: Hash, prefix: string)
    ensures var db := Run(EMPTY, ops, hash);
            var later := Run(db, more, hash);
            && db.knowledge.Keys <= later.knowledge.Keys && db.proofs.Keys <= later.proofs.Keys
            && db.relations.Keys <= later.relations.Keys && db.audits <= later.audits
            && NextId(later, "knowledge", prefix) !in later.knowledge
            && NextId(later, "proof", "P") !in later.proofs
            && NextId(later, "relation", "R") !in later.relations
            && NextId(later, "audit", "A") !in later.audits
  {
    hide Issued, NextId, Run;
    EveryRun(ops, hash);
    var db := Run(EMPTY, ops, hash);
    RunKeeps(db, more, hash);
    var later := Run(db, more, hash);
    KnowledgeIdsNew(later, prefix);
    ProofIdsNew(later);
    RelationIdsNew(later);
    NextIdIsNew(later, "audit", "A", later.audits);
  }

  // ---- supersession chains ------------------------------------------------------------------------------------------

  /** Each item supersedes the next. */
  ghost predicate Chain(db: Db, c: seq<string>) {
    && (forall i :: 0 <= i < |c| ==> c[i] in db.knowledge)
    && (forall i :: 0 <= i < |c| - 1 ==> db.knowledge[c[i]].supersedes == Some(c[i + 1]))
  }

  lemma {:induction false} VersionDrops(db: Db, k: string, p: string)
    requires Inv(db) && k in db.knowledge && db.knowledge[k].supersedes == Some(p)
    ensures p in db.knowledge && db.knowledge[k].version == db.knowledge[p].version + 1
  {
    hide ProvenJustified, LinksResolve, GraphSound, FrontBrickActive, IdsIssued;
  }

  /** Along a chain the version drops by one per step, so chains never cycle. */
  lemma {:induction false} ChainsAcyclic(db: Db, c: seq<string>, i: nat, j: nat)
    requires Inv(db) && Chain(db, c) && i <= j < |c|
    ensures db.knowledge[c[i]].version == db.knowledge[c[j]].version + (j - i)
    ensures i < j ==> c[i] != c[j]
    decreases j - i
  {
    hide Inv;
    if i < j {
      assert db.knowledge[c[i]].supersedes == Some(c[i + 1]);
      VersionDrops(db, c[i], c[i + 1]);
      ChainsAcyclic(db, c, i + 1, j);
    }
  }

  // ---- handoff freshness --------------------------------------------------------------------------------------------

  ghost predicate Injective(hash: Hash) {
    (forall a, b :: hash(a) == hash(b) ==> a == b) && (forall a :: hash(a) != "")
  }

  /** The operation neither writes nor drops the stored hash. */
  predicate LeavesHash(op: Op) {
    && !op.OpHandoff? && !op.OpReplaceFront?
    && (op.OpUpdateFront? ==> FrontHash !in Clean(op.updates))
  }

  lemma {:induction false} StepLeavesHash(db: Db, op: Op, hash: Hash)
    requires Inv(db) && FrontHash in db.front && (Perform(db, op, hash).Refused? || LeavesHash(op))
    ensures FrontHash in Step(db, op, hash).front && Step(db, op, hash).front[FrontHash] == db.front[FrontHash]
  {
    hide Inv, Grows, AppendKnowledge, AttachProof, InvalidateProof, SupersedeRelation, InsertRelation, RecordProof;
    if Perform(db, op, hash).Ok? {
      match op
      case OpProof(kind, r, a) => RecordProofKeeps(db, kind, r, a);
      case OpAppend(d) => AppendKeeps(db, d);
      case OpAttach(k, p, promote) => AttachKeeps(db, k, p, promote);
      case OpInvalidate(p, reason) => InvalidateKeeps(db, p, reason);
      case OpRelate(f, t, to) => InsertKeeps(db, f, t, to);
      case OpSupersede(r, f, t, to) => SupersedeRelationKeeps(db, r, f, t, to);
      case _ =>
    }
  }

  /** Every call of the run is refused or leaves the stored hash alone. */
  ghost predicate HashUndisturbed(db: Db, ops: seq<Op>, hash: Hash)
    decreases |ops|
  {
    ops == [] ||
    ((Perform(db, ops[0], hash).Refused? || LeavesHash(ops[0])) && HashUndisturbed(Step(db, ops[0], hash), ops[1..], hash))
  }

  lemma {:induction false} RunLeavesHash(db: Db, ops: seq<Op>, hash: Hash)
    requires Inv(db) && FrontHash in db.front && HashUndisturbed(db, ops, hash)
    ensures FrontHash in Run(db, ops, hash).front && Run(db, ops, hash).front[FrontHash] == db.front[FrontHash]
    decreases |ops|
  {
    hide Inv, Step, Perform, LeavesHash;
    if ops != [] {
      StepLeavesHash(db, ops[0], hash);
      StepKeeps(db, ops[0], hash);
      RunLeavesHash(Step(db, ops[0], hash), ops[1..], hash);
    }
  }

  /** Right after preparation the handoff is fresh, with the hash of its own Front. */
  lemma {:induction false} PreparedIsFresh(db: Db, h: Handoff, hash: Hash)
    requires Injective(hash) && PrepareHandoff(db, h, hash).Ok?
    ensures var db' := PrepareHandoff(db, h, hash).db;
            Fresh(db', hash) && db'.front[FrontHash] == hash(Included(db'.front))
  {
    var front := db.front + HandoffValues(db, h);
    IncludedSkips(front, hash(Included(front)), h.stamp);
    hide HandoffValues, Included, NextId;
  }

  /** The hash and the time of preparation are not hashed themselves. */
  lemma {:induction false} IncludedSkips(front: Front, digest: string, stamp: string)
    ensures Included(front[FrontHash := digest][PreparedAt := stamp]) == Included(front)
  {
    var after := front[FrontHash := digest][PreparedAt := stamp];
    assert !Hashed(FrontHash) && !Hashed(PreparedAt);
    forall k ensures k in Included(after) <==> k in Included(front) {}
    forall k | k in Included(front) ensures Included(after)[k] == Included(front)[k] {}
  }

  /** Freshness over runs: as long as no accepted call writes or drops the stored hash, a
      handoff is fresh exactly when the hashed part of the Front, keys and values,
      is the one at preparation. */
  lemma {:induction false} FreshExactly(db: Db, h: Handoff, ops: seq<Op>, hash: Hash)
    requires Inv(db) && Injective(hash) && PrepareHandoff(db, h, hash).Ok?
    requires HashUndisturbed(PrepareHandoff(db, h, hash).db, ops, hash)
    ensures var prepared := PrepareHandoff(db, h, hash).db;
            var later := Run(prepared, ops, hash);
            Fresh(later, hash) <==> Included(later.front) == Included(prepared.front)
  {
    hide Inv, HashUndisturbed, Run, HandoffValues, Audit, Included, Grows;
    var prepared := PrepareHandoff(db, h, hash).db;
    PreparedIsFresh(db, h, hash);
    BrickOpsKeep(db, OpHandoff(h), hash);
    RunLeavesHash(prepared, ops, hash);
  }
}

/** Replacement chains of relations (`supersede_relation`,
    aret-memory/core/repository.py). They can cycle, because an existing triple is
    reused as the replacement; this module says exactly when. */
module RelationChains {
  import opened Basics
  import opened Store
  import opened StoreRuns

  /** `a` was superseded by `b`. */
  predicate Next(db: Db, a: string, b: string) {
    a in db.relations && db.relations[a].supersededBy == Some(b)
  }

  ghost predicate Path(db: Db, c: seq<string>) {
    |c| >= 1 && forall i :: 0 <= i < |c| - 1 ==> Next(db, c[i], c[i + 1])
  }

  ghost predicate Reaches(db: Db, a: string, b: string) {
    exists c :: Path(db, c) && c[0] == a && c[|c| - 1] == b
  }

  ghost predicate Cycle(db: Db, c: seq<string>) { Path(db, c) && |c| >= 2 && c[0] == c[|c| - 1] }

  ghost predicate Acyclic(db: Db) { forall c :: !Cycle(db, c) }

  /** The steps of `db'` are those of `db` and one more, out of an end of `db`. */
  ghost predicate OneMore(db: Db, db': Db, rid: string, new': string) {
    && (forall b :: !Next(db, rid, b))
    && (forall a, b :: Next(db', a, b) <==> Next(db, a, b) || (a == rid && b == new'))
  }

  /** A path of the larger store from `new'` to `rid`: up to its first `rid` it was
      there before. */
  lemma {:induction false} FirstReturn(db: Db, db': Db, rid: string, new': string, c: seq<string>)
    requires OneMore(db, db', rid, new') && Path(db', c) && c[|c| - 1] == rid
    ensures Reaches(db, c[0], rid)
    decreases |c|
  {
    if c[0] == rid {
      assert Path(db, [rid]);
    } else {
      assert Next(db', c[0], c[1]);
      FirstReturn(db, db', rid, new', c[1..]);
      var d :| Path(db, d) && d[0] == c[1] && d[|d| - 1] == rid;
      var e := [c[0]] + d;
      forall i | 0 <= i < |e| - 1 ensures Next(db, e[i], e[i + 1]) {
        if i > 0 { assert Next(db, d[i - 1], d[i]); }
      }
      assert Path(db, e) && e[0] == c[0] && e[|e| - 1] == rid;
    }
  }

  /** A cycle through `rid` comes from a path back to it. */
  lemma {:induction false} CycleThrough(db: Db, db': Db, rid: string, new': string, c: seq<string>, i: nat)
    requires OneMore(db, db', rid, new') && Cycle(db', c) && i < |c| - 1 && c[i] == rid
    ensures Reaches(db, new', rid)
  {
    assert Next(db', c[i], c[i + 1]);
    assert c[i + 1] == new';
    var e := c[i + 1..] + c[1..i + 1];
    forall j | 0 <= j < |e| - 1 ensures Next(db', e[j], e[j + 1]) {
      var m := |c| - i - 1;
      if j < m - 1 {
        assert Next(db', c[i + 1 + j], c[i + 2 + j]);
      } else if j == m - 1 {
        assert Next(db', c[0], c[1]);
      } else {
        assert Next(db', c[1 + j - m], c[2 + j - m]);
      }
    }
    assert e[|e| - 1] == rid;
    assert e[0] == new';
    FirstReturn(db, db', rid, new', e);
  }

  lemma {:induction false} PathStays(db: Db, db': Db, rid: string, new': string, c: seq<string>)
    requires OneMore(db, db', rid, new') && Path(db, c)
    ensures Path(db', c)
  {}

  /** Adding one step keeps chains acyclic exactly when its target does not lead
      back. */
  lemma {:induction false} OneMoreAcyclic(db: Db, db': Db, rid: string, new': string)
    requires OneMore(db, db', rid, new') && Acyclic(db)
    ensures Acyclic(db') <==> !Reaches(db, new', rid)
  {
    if Reaches(db, new', rid) {
      var c :| Path(db, c) && c[0] == new' && c[|c| - 1] == rid;
      PathStays(db, db', rid, new', c);
      var e := [rid] + c;
      forall i | 0 <= i < |e| - 1 ensures Next(db', e[i], e[i + 1]) {
        if i > 0 { assert Next(db', c[i - 1], c[i]); }
      }
      assert Cycle(db', e);
    } else {
      forall c ensures !Cycle(db', c) {
        if Cycle(db', c) { OldOrThrough(db, db', rid, new', c); }
      }
    }
  }

  /** A cycle of the larger store was there before or leads back to `rid`. */
  lemma {:induction false} OldOrThrough(db: Db, db': Db, rid: string, new': string, c: seq<string>)
    requires OneMore(db, db', rid, new') && Cycle(db', c)
    ensures Cycle(db, c) || Reaches(db, new', rid)
  {
    if i: nat :| i < |c| - 1 && c[i] == rid {
      CycleThrough(db, db', rid, new', c, i);
    } else {
      forall i | 0 <= i < |c| - 1 ensures Next(db, c[i], c[i + 1]) { assert Next(db', c[i], c[i + 1]); }
    }
  }

  /** The store after superseding `rid` has one more step. */
  lemma {:induction false} SupersedeAddsStep(db: Db, rid: string, from: string, kind: RelationType, to: string)
    requires Inv(db) && SupersedeRelation(db, rid, from, kind, to).Ok?
    ensures OneMore(db, SupersedeRelation(db, rid, from, kind, to).db, rid, RelationId(db, from, kind, to))
  {
    hide NextId, Exists;
    LiveIsEnd(db, rid);
    FreshHasNoStep(db, from, kind, to);
    hide Inv, InsertRelation, RelationId, Audit, Next;
    var new' := RelationId(db, from, kind, to);
    var db1 := InsertRelation(db, from, kind, to);
    var db2 := Replaced(db1, rid, new');
    AuditedRelations(db2);
    assert SupersedeRelation(db, rid, from, kind, to).db == Audit(db2);
    forall a, b ensures Next(Audit(db2), a, b) <==> Next(db, a, b) || (a == rid && b == new') {
      ReplacedNext(db1, Audit(db2), rid, new', a, b);
      assert !Next(db, rid, b);
    }
  }

  lemma {:induction false} ReplacedNext(db: Db, db': Db, rid: string, new': string, a: string, b: string)
    requires rid in db.relations && db'.relations == Replaced(db, rid, new').relations
    ensures Next(db', a, b) <==> (if a == rid then b == new' else Next(db, a, b))
  {}

  lemma {:induction false} LiveIsEnd(db: Db, rid: string)
    requires Inv(db) && rid in db.relations && db.relations[rid].live
    ensures forall b :: !Next(db, rid, b)
  {
    hide IdsIssued, Justified, VersionsCount, EndpointsExist, TriplesUnique;
  }

  lemma {:induction false} FreshHasNoStep(db: Db, from: string, kind: RelationType, to: string)
    requires Inv(db)
    ensures var db1 := InsertRelation(db, from, kind, to);
            && (forall a, b :: Next(db1, a, b) <==> Next(db, a, b))
            && (forall r :: r in db.relations ==> r in db1.relations && db1.relations[r] == db.relations[r])
  {
    hide NextId, Related, Audit;
    if !Related(db, from, kind, to) {
      RelationIdsNew(db);
      hide Inv, IdsIssued;
      var id := NextId(db, "relation", "R");
      var db1 := InsertRelation(db, from, kind, to);
      AuditedRelations(WithRelation(db, from, kind, to));
      assert db1.relations == db.relations[id := Relation(from, kind, to, true, None)];
    }
  }

  lemma {:induction false} AuditedRelations(db: Db)
    ensures Audit(db).relations == db.relations
  {}

  /** Superseding a relation keeps the chains acyclic if and only if the relation
      that already holds the new triple, if any, is not itself one that `rid`
      replaced, directly or along its chain. */
  lemma {:induction false} SupersedeAcyclicExactly(db: Db, rid: string, from: string, kind: RelationType, to: string)
    requires Inv(db) && Acyclic(db) && SupersedeRelation(db, rid, from, kind, to).Ok?
    ensures Acyclic(SupersedeRelation(db, rid, from, kind, to).db)
            <==> !Reaches(db, RelationId(db, from, kind, to), rid)
  {
    hide Inv, SupersedeRelation, RelationId;
    SupersedeAddsStep(db, rid, from, kind, to);
    OneMoreAcyclic(db, SupersedeRelation(db, rid, from, kind, to).db, rid, RelationId(db, from, kind, to));
  }

  lemma {:induction false} AbsentIsAlone(db: Db, a: string, b: string)
    requires a !in db.relations && Reaches(db, a, b)
    ensures a == b
  {
    var c :| Path(db, c) && c[0] == a && c[|c| - 1] == b;
    assert !Next(db, c[0], if |c| > 1 then c[1] else "");
  }

  /** A triple that is not in the table yet never closes a cycle. */
  lemma {:induction false} NewTripleIsSafe(db: Db, rid: string, from: string, kind: RelationType, to: string)
    requires Inv(db) && Acyclic(db) && SupersedeRelation(db, rid, from, kind, to).Ok? && !Related(db, from, kind, to)
    ensures Acyclic(SupersedeRelation(db, rid, from, kind, to).db)
  {
    hide NextId, Exists;
    RelationIdsNew(db);
    var id := RelationId(db, from, kind, to);
    assert id == NextId(db, "relation", "R") && id !in db.relations;
    hide Inv, InsertRelation, RelationId;
    assert rid in db.relations;
    if Reaches(db, id, rid) { AbsentIsAlone(db, id, rid); }
    SupersedeAcyclicExactly(db, rid, from, kind, to);
  }

  /** The cycle is within reach of any two live relations: supersede each by the
      other's triple. */
  lemma {:induction false} SwapMakesCycle(db: Db, a: string, b: string)
    requires Inv(db) && a in db.relations && b in db.relations && a != b
    requires db.relations[a].live && db.relations[b].live
    requires db.relations[a].from != db.relations[a].to && db.relations[b].from != db.relations[b].to
    ensures var ra, rb := db.relations[a], db.relations[b];
            var first := SupersedeRelation(db, a, rb.from, rb.kind, rb.to);
            && first.Ok?
            && var second := SupersedeRelation(first.db, b, ra.from, ra.kind, ra.to);
               second.Ok? && Cycle(second.db, [a, b, a])
  {
    hide Inv, Grows, InsertRelation, RelationId, Exists, Audit;
    var ra, rb := db.relations[a], db.relations[b];
    OtherTriple(db, a, b);
    var first := SupersedeRelation(db, a, rb.from, rb.kind, rb.to);
    assert first.Ok?;
    SupersedeRelationKeeps(db, a, rb.from, rb.kind, rb.to);
    ReplacedBy(db, a, b);
    OtherTriple(first.db, b, a);
    SupersedeRelationKeeps(first.db, b, ra.from, ra.kind, ra.to);
    ReplacedBy(first.db, b, a);
    var last := SupersedeRelation(first.db, b, ra.from, ra.kind, ra.to).db;
    assert Next(last, a, b) && Next(last, b, a);
  }

  /** What superseding `a` by the triple of `b` does to the two rows. */
  lemma {:induction false} ReplacedBy(db: Db, a: string, b: string)
    requires Inv(db) && a in db.relations && b in db.relations && a != b
    requires var rb := db.relations[b]; SupersedeRelation(db, a, rb.from, rb.kind, rb.to).Ok?
    ensures var rb := db.relations[b];
            var db' := SupersedeRelation(db, a, rb.from, rb.kind, rb.to).db;
            && a in db'.relations && b in db'.relations
            && db'.relations[a] == db.relations[a].(live := false, supersededBy := Some(b))
            && db'.relations[b] == db.relations[b]
  {
    hide Exists, NextId;
    var rb := db.relations[b];
    OtherTriple(db, a, b);
    FreshHasNoStep(db, rb.from, rb.kind, rb.to);
    hide Inv, InsertRelation, RelationId;
  }

  /** Distinct relations hold distinct triples between existing entities. */
  lemma {:induction false} OtherTriple(db: Db, a: string, b: string)
    requires Inv(db) && a in db.relations && b in db.relations && a != b
    ensures var rb := db.relations[b];
            && !HasTriple(db, a, rb.from, rb.kind, rb.to)
            && RelationId(db, rb.from, rb.kind, rb.to) == b
            && Exists(db, rb.from) && Exists(db, rb.to)
  {
    hide Exists, IdsIssued, Justified, VersionsCount, NextId;
    var rb := db.relations[b];
    assert HasTriple(db, b, rb.from, rb.kind, rb.to);
    assert Related(db, rb.from, rb.kind, rb.to);
    var id := RelationId(db, rb.from, rb.kind, rb.to);
    assert HasTriple(db, id, rb.from, rb.kind, rb.to);
  }

  // ---- over whole runs -------------------------------------------------------------------

  /** The call is an allowed supersession whose new triple is already held by a
      relation that leads to the one being superseded. */
  ghost predicate Closes(db: Db, op: Op) {
    && op.OpSupersede?
    && op.from != op.to && op.rid in db.relations && db.relations[op.rid].live
    && Exists(db, op.from) && Exists(db, op.to) && !HasTriple(db, op.rid, op.from, op.rtype, op.to)
    && Reaches(db, RelationId(db, op.from, op.rtype, op.to), op.rid)
  }

  ghost predicate SameSteps(db: Db, db': Db) { forall a, b :: Next(db', a, b) <==> Next(db, a, b) }

  lemma {:induction false} SameRelations(db: Db, db': Db)
    requires db'.relations == db.relations
    ensures SameSteps(db, db')
  {}

  lemma {:induction false} StepsTrans(a: Db, b: Db, c: Db)
    requires SameSteps(a, b) && SameSteps(b, c)
    ensures SameSteps(a, c)
  {
    hide Next;
  }

  lemma {:induction false} SameAcyclic(db: Db, db': Db)
    requires SameSteps(db, db')
    ensures Acyclic(db') <==> Acyclic(db)
  {
    hide Next;
    forall c ensures Cycle(db', c) <==> Cycle(db, c) {}
  }

  lemma {:induction false} LinkSteps(db: Db, k: string, p: string)
    requires Inv(db) && k in db.knowledge && p in db.proofs
    ensures SameSteps(db, Link(db, k, p))
  {
    hide Inv, InsertRelation, Next;
    var db0 := db.(links := db.links + {(k, p)});
    LinkRow(db, k, p);
    SameRelations(db, db0);
    FreshHasNoStep(db0, k, VerifiedBy, p);
    StepsTrans(db, db0, Link(db, k, p));
  }

  lemma {:induction false} LinkAllSteps(db: Db, k: string, ps: seq<string>)
    requires Inv(db) && k in db.knowledge && forall p :: p in ps ==> p in db.proofs
    ensures SameSteps(db, LinkAll(db, k, ps))
    decreases |ps|
  {
    hide Inv, Link, Next;
    if ps != [] {
      var db1 := Link(db, k, ps[0]);
      LinkSteps(db, k, ps[0]);
      LinkKeeps(db, k, ps[0]);
      LinkKeepsTables(db, k, ps[0]);
      LinkAllSteps(db1, k, ps[1..]);
      StepsTrans(db, db1, LinkAll(db, k, ps));
    }
  }

  lemma {:induction false} PreviousSteps(db: Db, id: string, previous: Option<string>)
    requires Inv(db) && (previous.Some? ==> previous.value in db.knowledge)
    ensures SameSteps(db, SupersedePrevious(db, id, previous))
  {
    hide Inv, InsertRelation, Next;
    if previous.Some? {
      var db1 := InsertRelation(db, id, Supersedes, previous.value);
      FreshHasNoStep(db, id, Supersedes, previous.value);
      InsertKeepsTables(db, id, Supersedes, previous.value);
      SameRelations(db1, SupersedePrevious(db, id, previous));
      StepsTrans(db, db1, SupersedePrevious(db, id, previous));
    } else {
      SameRelations(db, db);
    }
  }

  lemma {:induction false} AppendSteps(db: Db, d: Draft)
    requires Inv(db) && AppendKnowledge(db, d).Ok?
    ensures SameSteps(db, AppendKnowledge(db, d).db)
  {
    hide Inv, Grows, Link, LinkAll, InsertRelation, NextId, SupersedePrevious, Next;
    var id := NextId(db, "knowledge", Prefix(db, d));
    InsertedKeeps(db, d);
    var db0 := Inserted(db, d);
    SameRelations(db, db0);
    LinkAllSteps(db0, id, d.proofs);
    LinkAllKeeps(db0, id, d.proofs);
    LinkAllKeepsTables(db0, id, d.proofs);
    var db1 := LinkAll(db0, id, d.proofs);
    PreviousSteps(db1, id, d.supersedes);
    SupersedeKeepsTables(db1, id, d.supersedes);
    var db2 := SupersedePrevious(db1, id, d.supersedes);
    var db3 := AppendKnowledge(db, d).db;
    SameRelations(db2, db3);
    StepsTrans(db, db0, db1);
    StepsTrans(db, db1, db2);
    StepsTrans(db, db2, db3);
  }

  lemma {:induction false} AttachSteps(db: Db, k: string, p: string, promote: bool)
    requires Inv(db) && AttachProof(db, k, p, promote).Ok?
    ensures SameSteps(db, AttachProof(db, k, p, promote).db)
  {
    hide Inv, Link, Next;
    SameRelations(db, db);
    LinkSteps(db, k, p);
    LinkKeepsTables(db, k, p);
    var db1 := if (k, p) in db.links then db else Link(db, k, p);
    var db2 := AttachProof(db, k, p, promote).db;
    SameRelations(db1, db2);
    StepsTrans(db, db1, db2);
  }

  /** Only a supersession adds a step. */
  lemma {:induction false} OthersAddNoStep(db: Db, op: Op, hash: Hash)
    requires Inv(db) && !op.OpSupersede?
    ensures SameSteps(db, Step(db, op, hash))
  {
    hide Inv, AppendKnowledge, AttachProof, InsertRelation, HandoffValues, Clean, Included, AuditTimes, NextId, Next;
    SameRelations(db, db);
    if Perform(db, op, hash).Ok? {
      match op
      case OpAppend(d) => AppendSteps(db, d);
      case OpAttach(k, p, promote) => AttachSteps(db, k, p, promote);
      case OpRelate(f, t, to) => FreshHasNoStep(db, f, t, to);
      case OpInvalidate(p, _) =>
        var db1 := Withdraw(db, p);
        var gone := Demoted(db1, p);
        AuditFrame(db1.(knowledge := Demote(db1.knowledge, gone)), map[], |gone| + 1);
        SameRelations(db, Step(db, op, hash));
      case _ => SameRelations(db, Step(db, op, hash));
    }
  }

  lemma {:induction false} StepAcyclic(db: Db, op: Op, hash: Hash)
    requires Inv(db) && Acyclic(db)
    ensures Acyclic(Step(db, op, hash)) <==> !Closes(db, op)
  {
    if op.OpSupersede? {
      hide Inv, Acyclic, InsertRelation, RelationId, Exists, Reaches, Audit;
      if SupersedeRelation(db, op.rid, op.from, op.rtype, op.to).Ok? {
        SupersedeAcyclicExactly(db, op.rid, op.from, op.rtype, op.to);
      }
    } else {
      hide Inv, Acyclic, Step;
      OthersAddNoStep(db, op, hash);
      SameAcyclic(db, Step(db, op, hash));
    }
  }

  /** A cycle is for ever: a superseded relation never changes again. */
  lemma {:induction false} CycleStays(db: Db, db': Db, c: seq<string>)
    requires Inv(db) && Grows(db, db') && Cycle(db, c)
    ensures Cycle(db', c)
  {
    forall i | 0 <= i < |c| - 1 ensures Next(db', c[i], c[i + 1]) { NextStays(db, db', c[i], c[i + 1]); }
  }

  lemma {:induction false} NextStays(db: Db, db': Db, a: string, b: string)
    requires Inv(db) && Grows(db, db') && Next(db, a, b)
    ensures Next(db', a, b)
  {
    hide IdsIssued, Justified, VersionsCount, EndpointsExist, TriplesUnique;
    assert !db.relations[a].live;
    assert OnlyReplaced(db.relations[a], db'.relations[a]);
  }

  /** The i-th call of the run closes a cycle. */
  ghost predicate ClosesAt(db: Db, ops: seq<Op>, i: nat, hash: Hash)
    requires i < |ops|
  {
    Closes(Run(db, ops[..i], hash), ops[i])
  }

  lemma {:induction false} ClosesTail(db: Db, ops: seq<Op>, i: nat, hash: Hash)
    requires 0 < i < |ops|
    ensures ClosesAt(db, ops, i, hash) == ClosesAt(Step(db, ops[0], hash), ops[1..], i - 1, hash)
  {
    hide Closes, Step;
    RunFirst(db, ops[..i], hash);
    assert ops[..i][1..] == ops[1..][..i - 1];
  }

  lemma {:induction false} ClosesFirst(db: Db, ops: seq<Op>, hash: Hash)
    requires ops != []
    ensures ClosesAt(db, ops, 0, hash) == Closes(db, ops[0])
  {
    hide Closes;
  }

  /** Over every run from a sound store with acyclic chains: they are acyclic at the
      end if and only if no call of the run closed a cycle. */
  lemma {:induction false} RunAcyclicExactly(db: Db, ops: seq<Op>, hash: Hash)
    requires Inv(db) && Acyclic(db)
    ensures Acyclic(Run(db, ops, hash)) <==> forall i: nat :: i < |ops| ==> !ClosesAt(db, ops, i, hash)
    decreases |ops|
  {
    hide Inv, Grows, Step, ClosesAt, Closes, Cycle;
    if ops != [] {
      var db1 := Step(db, ops[0], hash);
      StepAcyclic(db, ops[0], hash);
      StepKeeps(db, ops[0], hash);
      ClosesFirst(db, ops, hash);
      if Acyclic(db1) {
        RunAcyclicExactly(db1, ops[1..], hash);
        forall i: nat | 0 < i < |ops|
          ensures ClosesAt(db, ops, i, hash) == ClosesAt(db1, ops[1..], i - 1, hash)
        {
          ClosesTail(db, ops, i, hash);
        }
        if i: nat :| i < |ops| - 1 && ClosesAt(db1, ops[1..], i, hash) { assert ClosesAt(db, ops, i + 1, hash); }
      } else {
        var c :| Cycle(db1, c);
        RunKeeps(db1, ops[1..], hash);
        CycleStays(db1, Run(db1, ops[1..], hash), c);
      }
    }
  }

  lemma {:induction false} EveryRunAcyclicExactly(ops: seq<Op>, hash: Hash)
    ensures Acyclic(Run(EMPTY, ops, hash)) <==> forall i: nat :: i < |ops| ==> !ClosesAt(EMPTY, ops, i, hash)
  {
    hide Run, ClosesAt;
    assert Inv(EMPTY);
    forall c ensures !Cycle(EMPTY, c) { assert |c| < 2 || !Next(EMPTY, c[0], c[1]); }
    RunAcyclicExactly(EMPTY, ops, hash);
  }
}

/** Superseded knowledge and the status PROVEN (aret-memory/core/repository.py).
    Promotion does not look at the present status, so an item that a later version
    replaced can become PROVEN again; this module says through which call, and that
    no other one does it. */
module Retirement {
  import opened Basics
  import opened Store
  import opened StoreRuns

  /** A later version supersedes `k`. */
  ghost predicate Retired(db: Db, k: string) {
    exists n :: n in db.knowledge && db.knowledge[n].supersedes == Some(k)
  }

  ghost predicate RetiredUnproven(db: Db) {
    forall k :: k in db.knowledge && Retired(db, k) ==> db.knowledge[k].status != Proven
  }

  /** The one call that proves a retired item: a promotion by an admissible PASS. */
  ghost predicate Revives(db: Db, op: Op) {
    && op.OpAttach? && op.promote
    && op.k in db.knowledge && op.p in db.proofs && Admissible(db.proofs[op.p]) && Retired(db, op.k)
  }

  /** The knowledge table after an append: one new row, one superseded row. */
  lemma {:induction false} AppendedRows(db: Db, d: Draft)
    requires Inv(db) && AppendKnowledge(db, d).Ok?
    ensures var r := AppendKnowledge(db, d);
            && r.id !in db.knowledge
            && r.db.knowledge.Keys == db.knowledge.Keys + {r.id}
            && r.db.knowledge[r.id].supersedes == d.supersedes
            && (forall k :: k in db.knowledge ==>
                  r.db.knowledge[k] == if d.supersedes == Some(k) then db.knowledge[k].(status := Superseded) else db.knowledge[k])
  {
    hide Inv, Grows, Link, LinkAll, InsertRelation, NextId, SupersedePrevious;
    var id := NextId(db, "knowledge", Prefix(db, d));
    InsertedKeeps(db, d);
    var db0 := Inserted(db, d);
    LinkAllKeepsTables(db0, id, d.proofs);
    var db1 := LinkAll(db0, id, d.proofs);
    SupersedeKeepsTables(db1, id, d.supersedes);
  }

  lemma {:induction false} SupersededExists(db: Db, n: string)
    requires Inv(db) && n in db.knowledge && db.knowledge[n].supersedes.Some?
    ensures db.knowledge[n].supersedes.value in db.knowledge
  {
    hide ProvenJustified, LinksResolve, GraphSound, IdsIssued;
  }

  /** Appending retires exactly the item it supersedes. */
  lemma {:induction false} AppendRetires(db: Db, d: Draft, k: string)
    requires Inv(db) && AppendKnowledge(db, d).Ok? && k in AppendKnowledge(db, d).db.knowledge
    ensures Retired(AppendKnowledge(db, d).db, k) <==> Retired(db, k) || d.supersedes == Some(k)
  {
    hide Inv, AppendKnowledge;
    AppendedRows(db, d);
    var db', id := AppendKnowledge(db, d).db, AppendKnowledge(db, d).id;
    if Retired(db, k) {
      var n :| n in db.knowledge && db.knowledge[n].supersedes == Some(k);
      assert n in db'.knowledge.Keys && db'.knowledge[n].supersedes == Some(k);
    }
    if d.supersedes == Some(k) { assert id in db'.knowledge && db'.knowledge[id].supersedes == Some(k); }
    if Retired(db', k) {
      var n :| n in db'.knowledge && db'.knowledge[n].supersedes == Some(k);
      if n != id {
        assert n in db'.knowledge.Keys && n in db.knowledge;
        assert db.knowledge[n].supersedes == Some(k);
      }
    }
  }

  lemma {:induction false} AppendKeepsRetired(db: Db, d: Draft)
    requires Inv(db) && RetiredUnproven(db) && AppendKnowledge(db, d).Ok?
    ensures RetiredUnproven(AppendKnowledge(db, d).db)
  {
    hide Inv, AppendKnowledge, Retired;
    AppendedRows(db, d);
    var r := AppendKnowledge(db, d);
    forall k | k in r.db.knowledge && Retired(r.db, k) ensures r.db.knowledge[k].status != Proven {
      AppendRetires(db, d, k);
      if k == r.id { NewIsNotRetired(db, d); } else { assert k in r.db.knowledge.Keys; }
    }
  }

  lemma {:induction false} NewIsNotRetired(db: Db, d: Draft)
    requires Inv(db) && AppendKnowledge(db, d).Ok?
    ensures !Retired(AppendKnowledge(db, d).db, AppendKnowledge(db, d).id)
  {
    AppendedRows(db, d);
    AppendAcceptable(db, d);
    hide Inv, AppendKnowledge;
    var r := AppendKnowledge(db, d);
    assert r.id in r.db.knowledge.Keys;
    AppendRetires(db, d, r.id);
    forall n | n in db.knowledge ensures db.knowledge[n].supersedes != Some(r.id) {
      if db.knowledge[n].supersedes.Some? { SupersededExists(db, n); }
    }
  }

  lemma {:induction false} AppendAcceptable(db: Db, d: Draft)
    requires AppendKnowledge(db, d).Ok?
    ensures d.supersedes.Some? ==> d.supersedes.value in db.knowledge
  {}

  /** Changing statuses retires nothing. */
  lemma {:induction false} SameRetired(db: Db, db': Db)
    requires db'.knowledge.Keys == db.knowledge.Keys
    requires forall k :: k in db.knowledge ==> db'.knowledge[k].supersedes == db.knowledge[k].supersedes
    ensures forall k :: Retired(db', k) <==> Retired(db, k)
  {
    forall k ensures Retired(db', k) <==> Retired(db, k) {
      if n :| n in db.knowledge && db.knowledge[n].supersedes == Some(k) {
        assert n in db'.knowledge.Keys && db'.knowledge[n].supersedes == Some(k);
      }
      if n :| n in db'.knowledge && db'.knowledge[n].supersedes == Some(k) {
        assert n in db.knowledge.Keys && db.knowledge[n].supersedes == Some(k);
      }
    }
  }

  lemma {:induction false} AttachedRows(db: Db, k: string, p: string, promote: bool)
    requires AttachProof(db, k, p, promote).Ok?
    ensures AttachProof(db, k, p, promote).db.knowledge ==
            if promote then db.knowledge[k := db.knowledge[k].(status := Proven)] else db.knowledge
  {
    hide Link;
    LinkKeepsTables(db, k, p);
  }

  /** The other calls at most take PROVEN away. */
  lemma {:induction false} OthersDemote(db: Db, op: Op, hash: Hash)
    requires Inv(db) && !op.OpAppend? && !op.OpAttach?
    ensures var db' := Step(db, op, hash);
            && db'.knowledge.Keys == db.knowledge.Keys
            && (forall k :: k in db.knowledge ==>
                  && db'.knowledge[k].supersedes == db.knowledge[k].supersedes
                  && (db'.knowledge[k].status == db.knowledge[k].status || db'.knowledge[k].status == Observed))
  {
    hide Inv, AppendKnowledge, AttachProof, InsertRelation, HandoffValues, Clean, Included, AuditTimes, NextId;
    if Perform(db, op, hash).Ok? {
      match op
      case OpRelate(f, t, to) => InsertKeepsTables(db, f, t, to);
      case OpSupersede(_, f, t, to) => InsertKeepsTables(db, f, t, to);
      case OpInvalidate(p, _) =>
        var db1 := Withdraw(db, p);
        var gone := Demoted(db1, p);
        AuditFrame(db1.(knowledge := Demote(db1.knowledge, gone)), map[], |gone| + 1);
      case _ =>
    }
  }

  /** Superseded items stay unproven exactly as long as no promotion names one. */
  lemma {:induction false} RetiredStayUnproven(db: Db, op: Op, hash: Hash)
    requires Inv(db) && RetiredUnproven(db)
    ensures RetiredUnproven(Step(db, op, hash)) <==> !Revives(db, op)
  {
    hide Inv, Retired, AppendKnowledge, AttachProof, InvalidateProof, InsertRelation, SupersedeRelation, PrepareHandoff,
      UpdateBrick, RegisterBrick, RegisterComponent, RegisterFunction, UpdateFront, ReplaceFront, RecordProof;
    var db' := Step(db, op, hash);
    if op.OpAppend? {
      if Perform(db, op, hash).Ok? { AppendKeepsRetired(db, op.draft); }
    } else if op.OpAttach? {
      AttachGuard(db, op.k, op.p, op.promote);
      if Perform(db, op, hash).Ok? {
        AttachedRows(db, op.k, op.p, op.promote);
        SameRetired(db, db');
      }
    } else {
      OthersDemote(db, op, hash);
      SameRetired(db, db');
      forall k | k in db'.knowledge ensures k in db.knowledge { assert k in db'.knowledge.Keys; }
    }
  }

  /** After the first `i` calls of a run from the empty store. */
  ghost predicate UnprovenAfter(ops: seq<Op>, i: nat, hash: Hash)
    requires i <= |ops|
  {
    RetiredUnproven(Run(EMPTY, ops[..i], hash))
  }

  /** The i-th call of that run proves a retired item. */
  ghost predicate RevivesAt(ops: seq<Op>, i: nat, hash: Hash)
    requires i < |ops|
  {
    Revives(Run(EMPTY, ops[..i], hash), ops[i])
  }

  lemma {:induction false} UnprovenStep(ops: seq<Op>, i: nat, hash: Hash)
    requires i < |ops| && UnprovenAfter(ops, i, hash)
    ensures UnprovenAfter(ops, i + 1, hash) <==> !RevivesAt(ops, i, hash)
  {
    hide Run, RetiredUnproven, Revives, Step;
    EveryRun(ops[..i], hash);
    RunLast(EMPTY, ops, i, hash);
    RetiredStayUnproven(Run(EMPTY, ops[..i], hash), ops[i], hash);
  }

  /** Over every run from the empty store: superseded items are unproven at every
      point of it if and only if no call of it is such a promotion. */
  lemma {:induction false} RunRetiredExactly(ops: seq<Op>, hash: Hash)
    ensures (forall i: nat :: i <= |ops| ==> UnprovenAfter(ops, i, hash)) <==>
            (forall i: nat :: i < |ops| ==> !RevivesAt(ops, i, hash))
  {
    NothingRetired(ops, hash);
    hide UnprovenAfter, RevivesAt;
    if forall i: nat :: i < |ops| ==> !RevivesAt(ops, i, hash) {
      for i := 0 to |ops|
        invariant forall j: nat :: j <= i ==> UnprovenAfter(ops, j, hash)
      {
        UnprovenStep(ops, i, hash);
      }
    }
    if forall i: nat :: i <= |ops| ==> UnprovenAfter(ops, i, hash) {
      forall i: nat | i < |ops| ensures !RevivesAt(ops, i, hash) { UnprovenStep(ops, i, hash); }
    }
  }

  lemma {:induction false} NothingRetired(ops: seq<Op>, hash: Hash)
    ensures UnprovenAfter(ops, 0, hash)
  {}

  lemma {:induction false} AttachGuard(db: Db, k: string, p: string, promote: bool)
    ensures AttachProof(db, k, p, promote).Ok? <==>
            k in db.knowledge && p in db.proofs && (promote ==> Admissible(db.proofs[p]))
  {}

  /** Whatever its status, an item is promoted by any admissible PASS. */
  lemma {:induction false} PromotionIgnoresStatus(db: Db, k: string, p: string)
    requires k in db.knowledge && p in db.proofs
    ensures AttachProof(db, k, p, true).Ok? <==> Admissible(db.proofs[p])
    ensures Admissible(db.proofs[p]) ==> AttachProof(db, k, p, true).db.knowledge[k].status == Proven
  {
    if Admissible(db.proofs[p]) { AttachedRows(db, k, p, true); }
  }

  /** From any sound store: supersede `k`, then attach an admissible PASS to it with
      promotion, and `k` is superseded and PROVEN at once. */
  lemma {:induction false} SupersededThenProven(db: Db, d: Draft, k: string, p: string, hash: Hash)
    requires Inv(db) && Acceptable(db, d) && d.supersedes == Some(k)
    requires p in db.proofs && Admissible(db.proofs[p])
    ensures var end := Run(db, [OpAppend(d), OpAttach(k, p, true)], hash);
            && Inv(end) && k in end.knowledge && Retired(end, k) && end.knowledge[k].status == Proven
            && !RetiredUnproven(end)
  {
    var append, attach := OpAppend(d), OpAttach(k, p, true);
    RunTwo(db, append, attach, hash);
    AcceptableIsOk(db, d);
    hide Inv, Acceptable, AppendKnowledge, AttachProof, Run, Retired, Grows;
    StepKeeps(db, append, hash);
    var db1 := AppendKnowledge(db, d).db;
    assert Step(db, append, hash) == db1;
    AppendedRows(db, d);
    SupersededIsKnown(db, d);
    assert k in db1.knowledge.Keys;
    AppendRetires(db, d, k);
    ProofsStay(db, d);
    AttachGuard(db1, k, p, true);
    StepKeeps(db1, attach, hash);
    AttachedRows(db1, k, p, true);
    SameRetired(db1, AttachProof(db1, k, p, true).db);
    assert Step(db1, attach, hash) == AttachProof(db1, k, p, true).db;
  }

  lemma {:induction false} SupersededIsKnown(db: Db, d: Draft)
    requires Acceptable(db, d) && d.supersedes.Some?
    ensures d.supersedes.value in db.knowledge
  {}

  lemma {:induction false} AcceptableIsOk(db: Db, d: Draft)
    ensures AppendKnowledge(db, d).Ok? <==> Acceptable(db, d)
  {}

  /** Appending leaves the proof table alone. */
  lemma {:induction false} ProofsStay(db: Db, d: Draft)
    requires AppendKnowledge(db, d).Ok?
    ensures AppendKnowledge(db, d).db.proofs == db.proofs
  {
    hide Link, LinkAll, InsertRelation, NextId, SupersedePrevious;
    var id := NextId(db, "knowledge", Prefix(db, d));
    LinkAllKeepsTables(Inserted(db, d), id, d.proofs);
    SupersedeKeepsTables(LinkAll(Inserted(db, d), id, d.proofs), id, d.supersedes);
  }
}

/** The memory store as the object it is (aret-memory/core/repository.py): tables
    updated in place, one method per transaction, rollback on refusal. Each method
    is proved to perform the transaction of module Store, so everything proved
    about runs holds of every object. */
module StoreObject {
  import opened Basics
  import opened Ids
  import opened Store
  import opened StoreRuns

  // ---- facts about auditing -----------------------------------------------------------------

  lemma {:induction false} AuditLast(db: Db, n: nat)
    ensures AuditTimes(db, n + 1) == Audit(AuditTimes(db, n))
    decreases n
  {
    hide Audit;
    if n > 0 { AuditLast(Audit(db), n - 1); }
  }

  /** The demotion loop one item later. */
  lemma {:induction false} DemoteOneMore(db: Db, gone: set<string>, k: string)
    requires k in db.knowledge && k !in gone
    ensures var before := AuditTimes(db.(knowledge := Demote(db.knowledge, gone)), |gone|);
            && k in before.knowledge && before.knowledge[k] == db.knowledge[k]
            && Audit(SetStatus(before, k, Observed))
               == AuditTimes(db.(knowledge := Demote(db.knowledge, gone + {k})), |gone + {k}|)
  {
    hide Audit;
    var ks, ks' := Demote(db.knowledge, gone), Demote(db.knowledge, gone + {k});
    AuditFrame(db, ks, |gone|);
    AuditFrame(db, ks', |gone|);
    AuditFrame(db.(knowledge := ks), ks, |gone|);
    assert ks[k := ks[k].(status := Observed)] == ks';
    AuditLast(db.(knowledge := ks'), |gone|);
    assert |gone + {k}| == |gone| + 1;
  }

  /** The relation row of a triple is the only one. */
  lemma {:induction false} TripleIsUnique(db: Db, id: string, from: string, kind: RelationType, to: string)
    requires Inv(db) && HasTriple(db, id, from, kind, to)
    ensures id == RelationId(db, from, kind, to)
  {
    assert Related(db, from, kind, to);
    var id' := RelationId(db, from, kind, to);
    assert HasTriple(db, id', from, kind, to);
    assert HasTriple(db, id', db.relations[id].from, db.relations[id].kind, db.relations[id].to);
  }

  lemma {:induction false} LinkAllLast(db: Db, k: string, ps: seq<string>, i: nat)
    requires i < |ps|
    ensures LinkAll(db, k, ps[..i + 1]) == Link(LinkAll(db, k, ps[..i]), k, ps[i])
    decreases i
  {
    hide Link;
    if i == 0 {
      assert ps[..1] == [ps[0]];
    } else {
      LinkAllLast(Link(db, k, ps[0]), k, ps[1..], i - 1);
      assert ps[1..][..i] == ps[..i + 1][1..];
      assert ps[1..][..i - 1] == ps[..i][1..];
    }
  }

  // ---- the object -------------------------------------------------------------------------------

  class MemoryStore {
    var components: set<string>
    var functions: set<string>
    var bricks: map<string, Brick>
    var knowledge: map<string, Knowledge>
    var proofs: map<string, Proof>
    var links: set<(string, string)>
    var relations: map<string, Relation>
    var front: Front
    var seqs: map<string, nat>
    var audits: set<string>

    function View(): Db
      reads this
    {
      Db(components, functions, bricks, knowledge, proofs, links, relations, front, seqs, audits)
    }

    ghost predicate Valid()
      reads this
    {
      Inv(View())
    }

    constructor ()
      ensures Valid() && View() == EMPTY
    {
      components, functions, bricks, knowledge, proofs := {}, {}, map[], map[], map[];
      links, relations, front, seqs, audits := {}, map[], map[], map[], {};
    }

    method Rollback(snapshot: Db)
      modifies this
      ensures View() == snapshot
    {
      components, functions, bricks := snapshot.components, snapshot.functions, snapshot.bricks;
      knowledge, proofs, links := snapshot.knowledge, snapshot.proofs, snapshot.links;
      relations, front, seqs, audits := snapshot.relations, snapshot.front, snapshot.seqs, snapshot.audits;
    }

    method NewId(entity: string, prefix: string) returns (id: string)
      modifies this`seqs
      ensures id == NextId(old(View()), entity, prefix) && View() == Bump(old(View()), entity, prefix)
    {
      var key := entity + ":" + prefix;
      var number: nat := if key in seqs then seqs[key] else 1;
      seqs := seqs[key := number + 1];
      id := Format(prefix, number);
    }

    method AuditEvent()
      modifies this`seqs, this`audits
      ensures View() == Audit(old(View()))
    {
      var id := NewId("audit", "A");
      audits := audits + {id};
    }

    method InsertRelation(from: string, kind: RelationType, to: string) returns (id: string)
      requires Valid()
      modifies this`seqs, this`audits, this`relations
      ensures View() == Store.InsertRelation(old(View()), from, kind, to)
      ensures id == RelationId(old(View()), from, kind, to)
    {
      hide Inv, Audit, NextId;
      if r :| r in relations && relations[r].from == from && relations[r].kind == kind && relations[r].to == to {
        assert HasTriple(View(), r, from, kind, to);
        TripleIsUnique(View(), r, from, kind, to);
        return r;
      }
      assert forall r :: !HasTriple(View(), r, from, kind, to);
      id := NewId("relation", "R");
      relations := relations[id := Relation(from, kind, to, true, None)];
      AuditEvent();
    }

    method AddRelation(from: string, kind: RelationType, to: string, ghost hash: Hash) returns (id: Option<string>)
      requires Valid()
      modifies this
      ensures Valid() && View() == Step(old(View()), OpRelate(from, kind, to), hash)
      ensures id == Answer(Store.AddRelation(old(View()), from, kind, to))
    {
      hide Inv, Grows, Store.InsertRelation;
      StepKeeps(View(), OpRelate(from, kind, to), hash);
      if from == to || !Exists(View(), from) || !Exists(View(), to) { return None; }
      var r := InsertRelation(from, kind, to);
      return Some(r);
    }

    method SupersedeRelation(rid: string, from: string, kind: RelationType, to: string, ghost hash: Hash)
      returns (id: Option<string>)
      requires Valid()
      modifies this
      ensures Valid() && View() == Step(old(View()), OpSupersede(rid, from, kind, to), hash)
      ensures id == Answer(Store.SupersedeRelation(old(View()), rid, from, kind, to))
    {
      hide Inv, Grows, Store.InsertRelation, Audit, RelationId;
      StepKeeps(View(), OpSupersede(rid, from, kind, to), hash);
      if from == to || rid !in relations { return None; }
      var previous := relations[rid];
      if !previous.live || !Exists(View(), from) || !Exists(View(), to) { return None; }
      if (previous.from, previous.kind, previous.to) == (from, kind, to) { return None; }
      var r := InsertRelation(from, kind, to);
      relations := relations[rid := previous.(live := false, supersededBy := Some(r))];
      AuditEvent();
      return Some(r);
    }

    method RecordProof(kind: string, result: Result, admissible: bool, ghost hash: Hash) returns (id: Option<string>)
      requires Valid()
      modifies this
      ensures Valid() && View() == Step(old(View()), OpProof(kind, result, admissible), hash)
      ensures id == Answer(Store.RecordProof(old(View()), kind, result, admissible))
    {
      hide Inv, Grows, Audit, NextId;
      StepKeeps(View(), OpProof(kind, result, admissible), hash);
      if kind == "" { return None; }
      var p := NewId("proof", "P");
      proofs := proofs[p := Proof(result, admissible)];
      AuditEvent();
      return Some(p);
    }

    /** The link is inserted before the promotion is judged; a refused promotion
        rolls it back. */
    method AttachProof(k: string, p: string, promote: bool, ghost hash: Hash) returns (id: Option<string>)
      requires Valid()
      modifies this
      ensures Valid() && View() == Step(old(View()), OpAttach(k, p, promote), hash)
      ensures id == Answer(Store.AttachProof(old(View()), k, p, promote))
    {
      hide Inv, Grows, Store.InsertRelation, Audit;
      StepKeeps(View(), OpAttach(k, p, promote), hash);
      if k !in knowledge || p !in proofs { return None; }
      var snapshot := View();
      LinkKeepsTables(View(), k, p);
      if (k, p) !in links {
        LinkRow(View(), k, p);
        links := links + {(k, p)};
        var _ := InsertRelation(k, VerifiedBy, p);
      }
      if promote {
        if proofs[p].result != Pass || !proofs[p].admissible {
          Rollback(snapshot);
          return None;
        }
        if knowledge[k].status != Proven { knowledge := knowledge[k := knowledge[k].(status := Proven)]; }
        assert knowledge == old(knowledge)[k := old(knowledge)[k].(status := Proven)];
      }
      AuditEvent();
      return Some(k);
    }

    /** One linked item: PROVEN without an admissible PASS becomes OBSERVED. */
    method ReevaluateOne(k: string, p: string, before: set<string>, ghost db: Db) returns (gone: set<string>)
      requires (k, p) in db.links && k in db.knowledge && k !in before
      requires View() == AuditTimes(db.(knowledge := Demote(db.knowledge, before)), |before|)
      modifies this`knowledge, this`seqs, this`audits
      ensures gone == if k in Demoted(db, p) then before + {k} else before
      ensures View() == AuditTimes(db.(knowledge := Demote(db.knowledge, gone)), |gone|)
    {
      DemotedSoFar(db, before, k);
      JustifiedSame(View(), db);
      JustifiedByRow(View(), k);
      DemoteOneMore(db, before, k);
      hide Audit, AuditTimes, Demote, Justified;
      gone := before;
      if knowledge[k].status == Proven && !(exists l :: l in links && l.0 == k && l.1 in proofs && Admissible(proofs[l.1])) {
        knowledge := knowledge[k := knowledge[k].(status := Observed)];
        gone := before + {k};
        AuditEvent();
      }
    }

    /** The items linked to a withdrawn proof, one by one. */
    method Reevaluate(p: string) returns (gone: set<string>)
      requires forall l :: l in links ==> l.0 in knowledge
      modifies this`knowledge, this`seqs, this`audits
      ensures gone == Demoted(old(View()), p)
      ensures View() == AuditTimes(old(View()).(knowledge := Demote(old(knowledge), gone)), |gone|)
    {
      ghost var db := View();
      ghost var due := Demoted(db, p);
      var todo := LinkedTo(links, p);
      gone := {};
      DemoteNone(db);
      LinkedItems(db, p);
      hide Audit, AuditTimes, Demote, Demoted, LinkedTo;
      while todo != {}
        invariant gone == due - todo
        invariant forall k :: k in todo ==> (k, p) in db.links && k in db.knowledge
        invariant View() == AuditTimes(db.(knowledge := Demote(db.knowledge, gone)), |gone|)
        decreases |todo|
      {
        var k :| k in todo;
        OneFewer(due, todo, k);
        gone := ReevaluateOne(k, p, gone, db);
        todo := todo - {k};
      }
    }

    /** Withdraws the proof, then re-evaluates every knowledge linked to it. */
    method InvalidateProof(p: string, reason: string, ghost hash: Hash) returns (demoted: Option<set<string>>)
      requires Valid()
      modifies this
      ensures Valid() && View() == Step(old(View()), OpInvalidate(p, reason), hash)
      ensures demoted.Some? <==> reason != "" && p in old(proofs)
      ensures demoted.Some? ==>
        demoted.value == set k | k in old(knowledge) && old(knowledge)[k].status == Proven && !Justified(View(), k)
    {
      hide Inv, Grows, Audit, AuditTimes, Demote;
      StepKeeps(View(), OpInvalidate(p, reason), hash);
      if reason == "" || p !in proofs { return None; }
      LinkedAreKnown(View());
      DemotedExactly(View(), p, reason);
      proofs := proofs[p := proofs[p].(admissible := false)];
      ghost var db1 := View();
      var gone := Reevaluate(p);
      AuditLast(db1.(knowledge := Demote(db1.knowledge, gone)), |gone|);
      AuditEvent();
      return Some(gone);
    }

    /** The checks of `append_knowledge`, in its order. */
    method Accepts(d: Draft) returns (ok: bool)
      ensures ok <==> Acceptable(View(), d)
    {
      if d.title == "" || d.content == "" { return false; }
      var st := InitialStatus(d);
      if st == Superseded || st == Obsolete { return false; }
      if d.component.Some? && d.component.value !in components { return false; }
      if d.function_.Some? && d.function_.value !in functions { return false; }
      if d.brick.Some? && d.brick.value !in bricks { return false; }
      if d.supersedes.Some? && d.supersedes.value !in knowledge { return false; }
      var valid := 0;
      for i := 0 to |d.proofs|
        invariant forall j :: 0 <= j < i ==> d.proofs[j] in proofs
        invariant valid > 0 <==> exists j :: 0 <= j < i && Admissible(proofs[d.proofs[j]])
      {
        var p := d.proofs[i];
        if p !in proofs { return false; }
        if Admissible(proofs[p]) { valid := valid + 1; }
      }
      assert valid > 0 <==> exists p :: p in d.proofs && Admissible(proofs[p]);
      return st != Proven || valid >= 1;
    }

    method LinkProofs(k: string, ps: seq<string>)
      requires Valid() && k in knowledge && forall p :: p in ps ==> p in proofs
      modifies this`links, this`seqs, this`audits, this`relations
      ensures Valid() && View() == LinkAll(old(View()), k, ps)
    {
      hide Inv, Grows, Store.InsertRelation, LinkAll;
      ghost var db := View();
      LinkNone(db, k, ps);
      for i := 0 to |ps|
        invariant Valid() && View() == LinkAll(db, k, ps[..i])
        invariant proofs == db.proofs && knowledge == db.knowledge
      {
        LinkRow(View(), k, ps[i]);
        LinkKeeps(View(), k, ps[i]);
        LinkAllLast(db, k, ps, i);
        links := links + {(k, ps[i])};
        var _ := InsertRelation(k, VerifiedBy, ps[i]);
      }
      assert ps[..|ps|] == ps;
    }

    method SupersedePrevious(k: string, previous: string)
      requires Valid() && k in knowledge && previous in knowledge
      modifies this`knowledge, this`seqs, this`audits, this`relations
      ensures Valid() && View() == Store.SupersedePrevious(old(View()), k, Some(previous))
    {
      hide Inv, Grows, Store.InsertRelation, Audit;
      PreviousKeeps(View(), k, Some(previous));
      InsertKeepsTables(View(), k, Supersedes, previous);
      var _ := InsertRelation(k, Supersedes, previous);
      knowledge := knowledge[previous := knowledge[previous].(status := Superseded)];
      AuditEvent();
    }

    /** The new row; PROVEN is entered as ACTIVE until its proofs are linked. */
    method InsertRow(d: Draft) returns (k: string)
      requires Acceptable(View(), d)
      modifies this`knowledge, this`seqs
      ensures k == NextId(old(View()), "knowledge", Prefix(old(View()), d)) && View() == Inserted(old(View()), d)
    {
      hide NextId;
      var component := d.component;
      var version: nat := 1;
      if d.supersedes.Some? {
        var previous := knowledge[d.supersedes.value];
        version := previous.version + 1;
        if component.None? { component := previous.component; }
      }
      var st := InitialStatus(d);
      k := NewId("knowledge", match component case Some(c) => c case None => "KN");
      knowledge := knowledge[k := Knowledge(d.kind, if st == Proven then Active else st, d.title, d.content,
                                            component, d.function_, d.brick, d.supersedes, version)];
    }

    method AppendKnowledge(d: Draft, ghost hash: Hash) returns (id: Option<string>)
      requires Valid()
      modifies this
      ensures Valid() && View() == Step(old(View()), OpAppend(d), hash)
      ensures id == Answer(Store.AppendKnowledge(old(View()), d))
    {
      hide Inv, Grows, Link, LinkAll, NextId, Store.InsertRelation, Store.SupersedePrevious, Audit;
      ghost var db := View();
      StepKeeps(db, OpAppend(d), hash);
      var ok := Accepts(d);
      if !ok { return None; }
      InsertedKeeps(db, d);
      var k := InsertRow(d);
      LinkAllKeepsTables(View(), k, d.proofs);
      LinkProofs(k, d.proofs);
      SupersedeKeepsTables(View(), k, d.supersedes);
      NothingPrevious(View(), k);
      if d.supersedes.Some? { SupersedePrevious(k, d.supersedes.value); }
      if InitialStatus(d) == Proven { knowledge := knowledge[k := knowledge[k].(status := Proven)]; }
      AuditEvent();
      return Some(k);
    }

    method RegisterComponent(id: string, ghost hash: Hash) returns (ok: bool)
      requires Valid()
      modifies this
      ensures Valid() && View() == Step(old(View()), OpComponent(id), hash)
      ensures ok == Store.RegisterComponent(old(View()), id).Ok?
    {
      hide Inv, Grows, Audit;
      StepKeeps(View(), OpComponent(id), hash);
      if !ValidIdentifier(id) || id in components { return false; }
      components := components + {id};
      AuditEvent();
      return true;
    }

    method RegisterFunction(component: string, id: string, ghost hash: Hash) returns (ok: bool)
      requires Valid()
      modifies this
      ensures Valid() && View() == Step(old(View()), OpFunction(component, id), hash)
      ensures ok == Store.RegisterFunction(old(View()), component, id).Ok?
    {
      hide Inv, Grows, Audit;
      StepKeeps(View(), OpFunction(component, id), hash);
      if component !in components || id in functions { return false; }
      functions := functions + {id};
      AuditEvent();
      return true;
    }

    method RegisterBrick(id: string, state: BrickState, component: Option<string>, ghost hash: Hash) returns (ok: bool)
      requires Valid()
      modifies this
      ensures Valid() && View() == Step(old(View()), OpBrick(id, state, component), hash)
      ensures ok == Store.RegisterBrick(old(View()), id, state, component).Ok?
    {
      hide Inv, Grows, Audit;
      StepKeeps(View(), OpBrick(id, state, component), hash);
      if !ValidIdentifier(id) || (component.Some? && component.value !in components) || id in bricks { return false; }
      bricks := bricks[id := Brick(state, component)];
      AuditEvent();
      return true;
    }

    method UpdateBrick(id: string, state: Option<BrickState>, others: bool, ghost hash: Hash) returns (ok: bool)
      requires Valid()
      modifies this
      ensures Valid() && View() == Step(old(View()), OpUpdateBrick(id, state, others), hash)
      ensures ok == Store.UpdateBrick(old(View()), id, state, others).Ok?
    {
      hide Inv, Grows, Audit;
      StepKeeps(View(), OpUpdateBrick(id, state, others), hash);
      if (state.None? && !others) || id !in bricks { return false; }
      var before := bricks[id];
      var after := if state.Some? then before.(state := state.value) else before;
      if before.state == BrickActive && after.state != BrickActive {
        if BrickKey in front && front[BrickKey] == id { return false; }
      }
      bricks := bricks[id := after];
      AuditEvent();
      return true;
    }

    /** The updates cleaned into one map, or nothing when a key is invalid. */
    method CleanUpdates(updates: seq<(FrontKey, string)>) returns (clean: Option<Front>)
      ensures clean == if ValidUpdates(updates) then Some(Clean(updates)) else None
    {
      if updates == [] || |updates| > 20 { return None; }
      var m: Front := map[];
      for i := 0 to |updates|
        invariant m == Clean(updates[..i]) && forall j :: 0 <= j < i ==> ValidKey(updates[j].0)
      {
        if !ValidKey(updates[i].0) { return None; }
        m := m[updates[i].0 := updates[i].1];
        assert updates[..i + 1][..i] == updates[..i];
      }
      assert updates[..|updates|] == updates;
      return Some(m);
    }

    method WriteFront(updates: seq<(FrontKey, string)>, replace: bool, ghost hash: Hash) returns (ok: bool)
      requires Valid()
      modifies this
      ensures Valid() && View() == Step(old(View()), if replace then OpReplaceFront(updates) else OpUpdateFront(updates), hash)
      ensures ok <==> ValidUpdates(updates) && BrickAllowed(old(View()), Clean(updates))
    {
      hide Inv, Grows, Audit, ValidUpdates, Clean;
      StepKeeps(View(), if replace then OpReplaceFront(updates) else OpUpdateFront(updates), hash);
      var clean := CleanUpdates(updates);
      if clean.None? || !BrickAllowed(View(), clean.value) { return false; }
      front := if replace then clean.value else front + clean.value;
      AuditEvent();
      return true;
    }

    /** The address slots of a handoff, one after another. */
    method AddressSlots(hot: seq<string>) returns (slots: Front)
      requires |hot| <= 5
      ensures slots == AddressValues(front, hot)
    {
      hide AddressesUpTo;
      slots := map[];
      NoSlots(front, hot);
      for i := 1 to 6
        invariant slots == AddressesUpTo(front, hot, i - 1)
      {
        NextSlot(front, hot, i);
        if i <= |hot| {
          slots := slots[RelevantAddress(i) := Address(hot[i - 1])];
        } else if RelevantAddress(i) in front {
          slots := slots[RelevantAddress(i) := ""];
        }
      }
    }

    method PrepareHandoff(h: Handoff, hash: Hash) returns (ok: bool)
      requires Valid()
      modifies this
      ensures Valid() && View() == Step(old(View()), OpHandoff(h), hash)
      ensures ok <==> AcceptableHandoff(old(View()), h)
    {
      hide Inv, Grows, Audit, SummaryValues, CheckpointValues, AddressValues, SingleValues, Included;
      StepKeeps(View(), OpHandoff(h), hash);
      if !AcceptableHandoff(View(), h) { return false; }
      var values := SummaryValues(h) + CheckpointValues(h) + SingleValues(h);
      var slots := AddressSlots(h.hot);
      values := values + slots;
      var prospective := front + values;
      values := values[FrontHash := hash(Included(prospective))][PreparedAt := h.stamp];
      assert front + values == prospective[FrontHash := hash(Included(prospective))][PreparedAt := h.stamp];
      front := front + values;
      AuditEvent();
      return true;
    }
  }

  function LinkedTo(links: set<(string, string)>, p: string): set<string> {
    set l | l in links && l.1 == p :: l.0
  }

  lemma {:induction false} LinkedItems(db: Db, p: string)
    requires forall l :: l in db.links ==> l.0 in db.knowledge
    ensures forall k :: k in LinkedTo(db.links, p) ==> (k, p) in db.links && k in db.knowledge
    ensures Demoted(db, p) - LinkedTo(db.links, p) == {}
  {
    hide Justified;
    forall k | k in LinkedTo(db.links, p) ensures (k, p) in db.links && k in db.knowledge {
      var l :| l in db.links && l.1 == p && l.0 == k;
      assert l == (k, p);
    }
    forall k | k in Demoted(db, p) ensures k in LinkedTo(db.links, p) { assert (k, p) in db.links && (k, p).1 == p; }
  }

  lemma {:induction false} OneFewer(due: set<string>, todo: set<string>, k: string)
    requires k in todo
    ensures due - (todo - {k}) == if k in due then due - todo + {k} else due - todo
  {}

  lemma {:induction false} DemoteNone(db: Db)
    ensures db == AuditTimes(db.(knowledge := Demote(db.knowledge, {})), 0)
  {
    assert Demote(db.knowledge, {}) == db.knowledge;
  }

  /** Half-way through, an item not yet demoted has its old row, and nothing that
      justifies it has moved. */
  lemma {:induction false} DemotedSoFar(db: Db, gone: set<string>, k: string)
    requires k in db.knowledge
    ensures var now := AuditTimes(db.(knowledge := Demote(db.knowledge, gone)), |gone|);
            && now.proofs == db.proofs && now.links == db.links
            && k in now.knowledge && (k !in gone ==> now.knowledge[k] == db.knowledge[k])
  {
    hide Audit, AuditTimes;
    AuditFrame(db.(knowledge := Demote(db.knowledge, gone)), map[], |gone|);
  }

  /** The demoted set, said about the state before and after the whole transaction. */
  lemma {:induction false} DemotedExactly(db: Db, p: string, reason: string)
    requires Inv(db) && InvalidateProof(db, p, reason).Ok?
    ensures var db' := InvalidateProof(db, p, reason).db;
            Demoted(Withdraw(db, p), p) == set k | k in db.knowledge && db.knowledge[k].status == Proven && !Justified(db', k)
  {
    hide Audit, AuditTimes, Inv, Grows;
    var db1 := Withdraw(db, p);
    var db2 := db1.(knowledge := Demote(db1.knowledge, Demoted(db1, p)));
    AuditFrame(db2, map[], |Demoted(db1, p)| + 1);
    var db' := InvalidateProof(db, p, reason).db;
    JustifiedSame(db1, db');
    forall k | k in db.knowledge && db.knowledge[k].status == Proven && !Justified(db1, k) ensures (k, p) in db.links {
      ProvenHere(db, k);
      if (k, p) !in db.links { WithdrawElsewhere(db, p, k); }
    }
  }

  lemma {:induction false} ProvenHere(db: Db, k: string)
    requires Inv(db) && k in db.knowledge && db.knowledge[k].status == Proven
    ensures Justified(db, k)
  {
    hide Justified;
  }

  lemma {:induction false} NoSlots(front: Front, hot: seq<string>)
    ensures AddressesUpTo(front, hot, 0) == map[]
  {}

  lemma {:induction false} NextSlot(front: Front, hot: seq<string>, n: nat)
    requires n >= 1
    ensures AddressesUpTo(front, hot, n) ==
            if n <= |hot| then AddressesUpTo(front, hot, n - 1)[RelevantAddress(n) := Address(hot[n - 1])]
            else if RelevantAddress(n) in front then AddressesUpTo(front, hot, n - 1)[RelevantAddress(n) := ""]
            else AddressesUpTo(front, hot, n - 1)
  {
    hide Address, AddressesUpTo;
    forall k: FrontKey ensures var a, b := AddressesUpTo(front, hot, n - 1), AddressesUpTo(front, hot, n);
        && (k in b <==> k in a || (k == RelevantAddress(n) && (n <= |hot| || k in front)))
        && (k in a ==> a[k] == b[k])
    {
      SlotAt(front, hot, n, k);
      SlotAt(front, hot, n - 1, k);
    }
    SlotAt(front, hot, n, RelevantAddress(n));
  }

  lemma {:induction false} NothingPrevious(db: Db, k: string)
    ensures Store.SupersedePrevious(db, k, None) == db
  {}

  lemma {:induction false} LinkNone(db: Db, k: string, ps: seq<string>)
    ensures LinkAll(db, k, ps[..0]) == db
  {}

  lemma {:induction false} LinkedAreKnown(db: Db)
    requires Inv(db)
    ensures forall l :: l in db.links ==> l.0 in db.knowledge
  {}

  /** Justification read off the link rows. */
  lemma {:induction false} JustifiedByRow(db: Db, k: string)
    ensures Justified(db, k) <==> exists l :: l in db.links && l.0 == k && l.1 in db.proofs && Admissible(db.proofs[l.1])
  {
    if Justified(db, k) {
      var p :| (k, p) in db.links && p in db.proofs && Admissible(db.proofs[p]);
      assert (k, p).0 == k && (k, p).1 == p;
    }
    if l :| l in db.links && l.0 == k && l.1 in db.proofs && Admissible(db.proofs[l.1]) {
      assert l == (k, l.1);
    }
  }

  function Answer(r: Reply): Option<string> {
    match r case Ok(_, id) => Some(id) case Refused => None
  }
}

/** What each accepted transaction of the store visibly does
    (aret-memory/core/repository.py:752-851, 1135-1725), and what that makes of the
    knowledge table over every run. */
module StoreLaws {
  import opened Basics
  import opened Ids
  import opened Store
  import opened StoreRuns
  import opened Retirement

  // ---- the Front -----------------------------------------------------------------------------

  type Updates = seq<(FrontKey, string)>

  /** Entry i is the last one of its key. */
  predicate LastOfKey(u: Updates, i: nat)
    requires i < |u|
  {
    forall j :: i < j < |u| ==> u[j].0 != u[i].0
  }

  ghost predicate Mentions(u: Updates, k: FrontKey) { exists i :: 0 <= i < |u| && u[i].0 == k }

  lemma {:induction false} CleanMeaning(u: Updates, k: FrontKey)
    ensures k in Clean(u) <==> Mentions(u, k)
    ensures forall i :: 0 <= i < |u| && u[i].0 == k && LastOfKey(u, i) ==> Clean(u)[k] == u[i].1
    decreases |u|
  {
    if u != [] {
      var v := u[..|u| - 1];
      CleanMeaning(v, k);
      MentionsLast(u, k);
      hide Mentions;
      forall i | 0 <= i < |u| && u[i].0 == k && LastOfKey(u, i) ensures Clean(u)[k] == u[i].1 {
        if i < |v| { LastBefore(u, i); }
      }
    }
  }

  lemma {:induction false} MentionsLast(u: Updates, k: FrontKey)
    requires u != []
    ensures Mentions(u, k) <==> Mentions(u[..|u| - 1], k) || u[|u| - 1].0 == k
  {
    var v := u[..|u| - 1];
    if i :| 0 <= i < |v| && v[i].0 == k { assert u[i].0 == k; }
    if i :| 0 <= i < |u| && u[i].0 == k && i < |v| { assert v[i].0 == k; }
  }

  /** The last entry of its key before the end of the list. */
  lemma {:induction false} LastBefore(u: Updates, i: nat)
    requires i < |u| - 1 && LastOfKey(u, i)
    ensures u[|u| - 1].0 != u[i].0 && u[..|u| - 1][i] == u[i] && LastOfKey(u[..|u| - 1], i)
  {
    var v := u[..|u| - 1];
    forall j | i < j < |v| ensures v[j].0 != v[i].0 { assert v[j] == u[j]; }
  }

  /** An update writes the last value given for each key and leaves every other key as it
      is, present or absent; nothing but the Front changes, the audit aside. */
  lemma {:induction false} UpdateWrites(db: Db, u: Updates, hash: Hash, k: FrontKey)
    requires Perform(db, OpUpdateFront(u), hash).Ok?
    ensures var db' := Step(db, OpUpdateFront(u), hash);
            && (forall i :: 0 <= i < |u| && LastOfKey(u, i) ==> u[i].0 in db'.front && db'.front[u[i].0] == u[i].1)
            && (!Mentions(u, k) ==> (k in db'.front <==> k in db.front) && (k in db.front ==> db'.front[k] == db.front[k]))
            && db' == db.(front := db'.front, seqs := db'.seqs, audits := db'.audits)
  {
    hide NextId, Clean;
    forall i | 0 <= i < |u| ensures u[i].0 in Clean(u) && (LastOfKey(u, i) ==> Clean(u)[u[i].0] == u[i].1) {
      CleanMeaning(u, u[i].0);
    }
    CleanMeaning(u, k);
  }

  /** A replacement keeps those values and no other key. */
  lemma {:induction false} ReplaceWrites(db: Db, u: Updates, hash: Hash, k: FrontKey)
    requires Perform(db, OpReplaceFront(u), hash).Ok?
    ensures var db' := Step(db, OpReplaceFront(u), hash);
            && (forall i :: 0 <= i < |u| && LastOfKey(u, i) ==> u[i].0 in db'.front && db'.front[u[i].0] == u[i].1)
            && (!Mentions(u, k) ==> k !in db'.front)
            && db' == db.(front := db'.front, seqs := db'.seqs, audits := db'.audits)
  {
    hide NextId, Clean;
    forall i | 0 <= i < |u| ensures u[i].0 in Clean(u) && (LastOfKey(u, i) ==> Clean(u)[u[i].0] == u[i].1) {
      CleanMeaning(u, u[i].0);
    }
    CleanMeaning(u, k);
  }

  /** When the Front may be written: one to twenty entries, keys of the right form, and a
      brick, the last one given, that is registered and ACTIVE. */
  lemma {:induction false} FrontGuard(db: Db, u: Updates, hash: Hash)
    ensures Perform(db, OpUpdateFront(u), hash).Ok? <==>
            && 1 <= |u| <= 20 && (forall i :: 0 <= i < |u| ==> ValidKey(u[i].0))
            && (forall i :: 0 <= i < |u| && LastOfKey(u, i) && u[i].0 == BrickKey ==>
                  u[i].1 in db.bricks && db.bricks[u[i].1].state == BrickActive)
    ensures Perform(db, OpReplaceFront(u), hash).Ok? <==> Perform(db, OpUpdateFront(u), hash).Ok?
  {
    hide Audit, ValidKey, Clean;
    CleanMeaning(u, BrickKey);
    if Mentions(u, BrickKey) { var i := LastMention(u, BrickKey); }
    assert (forall x :: x in u ==> ValidKey(x.0)) <==> forall i :: 0 <= i < |u| ==> ValidKey(u[i].0);
  }

  lemma {:induction false} LastMention(u: Updates, k: FrontKey) returns (i: nat)
    requires Mentions(u, k)
    ensures i < |u| && u[i].0 == k && LastOfKey(u, i)
    decreases |u|
  {
    if u[|u| - 1].0 == k {
      i := |u| - 1;
    } else {
      var v := u[..|u| - 1];
      var j :| 0 <= j < |u| && u[j].0 == k;
      assert v[j].0 == k;
      i := LastMention(v, k);
      assert forall j :: i < j < |v| ==> v[j] == u[j];
    }
  }

  /** A changed key makes a handoff stale: after an accepted update that gives a hashed key
      another value than it had at preparation, and leaves the stored hash alone, the
      handoff is not fresh. */
  lemma {:induction false} UpdateMakesStale(db: Db, h: Handoff, u: Updates, hash: Hash, i: nat)
    requires Inv(db) && Injective(hash) && PrepareHandoff(db, h, hash).Ok?
    requires var prepared := PrepareHandoff(db, h, hash).db;
             && Perform(prepared, OpUpdateFront(u), hash).Ok? && !Mentions(u, FrontHash)
             && i < |u| && LastOfKey(u, i) && Hashed(u[i].0)
             && (u[i].0 in prepared.front ==> prepared.front[u[i].0] != u[i].1)
    ensures !Fresh(Run(PrepareHandoff(db, h, hash).db, [OpUpdateFront(u)], hash), hash)
  {
    hide PrepareHandoff, Inv, Perform, UpdateFront, Clean, Included;
    var prepared := PrepareHandoff(db, h, hash).db;
    var op := OpUpdateFront(u);
    CleanMeaning(u, FrontHash);
    assert LeavesHash(op);
    assert HashUndisturbed(prepared, [op], hash) by { assert [op][1..] == []; }
    FreshExactly(db, h, [op], hash);
    RunFirst(prepared, [op], hash);
    assert [op][1..] == [];
    UpdateWrites(prepared, u, hash, FrontHash);
    IncludedAt(prepared.front, u[i].0);
    IncludedAt(Step(prepared, op, hash).front, u[i].0);
  }

  lemma {:induction false} IncludedAt(front: Front, k: FrontKey)
    requires Hashed(k)
    ensures k in Included(front) <==> k in front
    ensures k in front ==> Included(front)[k] == front[k]
  {}

  /** The keys a handoff goes stale by. */
  lemma {:induction false} HashedKeys(k: FrontKey)
    ensures Hashed(k) <==>
            || k in {Subsystem, BrickKey, CurrentWall, LastAction, NextAction, CheckpointState}
            || (k.HandoffField? && k.i in {0, 1, 2, 3}) || (k.CheckpointField? && k.i in {0, 1, 2, 3, 4})
            || (k.RelevantAddress? && k.i in {1, 2, 3, 4, 5})
  {}

  /** What a handoff writes: its four fields and the next action. */
  lemma {:induction false} HandoffWrites(db: Db, h: Handoff, hash: Hash, i: nat)
    requires AcceptableHandoff(db, h) && i < 4
    ensures PrepareHandoff(db, h, hash).Ok?
    ensures var f := PrepareHandoff(db, h, hash).db.front;
            && HandoffField(i) in f && f[HandoffField(i)] == h.fields[i]
            && NextAction in f && f[NextAction] == h.next && LastAction in f && f[LastAction] == h.lastAction
  {
    ValuesAt(db, h);
    SummaryAt(h);
    hide PrepareHandoff, HandoffValues, SummaryValues, CheckpointValues, AcceptableHandoff;
    HandoffAt(db, h, hash, HandoffField(i));
    HandoffAt(db, h, hash, NextAction);
    HandoffAt(db, h, hash, LastAction);
  }

  /** Its checkpoint, or the absence of one with emptied fields. */
  lemma {:induction false} CheckpointWrites(db: Db, h: Handoff, hash: Hash, i: nat)
    requires AcceptableHandoff(db, h) && i < 5
    ensures PrepareHandoff(db, h, hash).Ok?
    ensures var f := PrepareHandoff(db, h, hash).db.front;
            && CheckpointState in f && f[CheckpointState] == (if h.checkpoint.Some? then "ACTIVE" else "NONE")
            && CheckpointField(i) in f && f[CheckpointField(i)] == if h.checkpoint.Some? then h.checkpoint.value[i] else ""
  {
    ValuesAt(db, h);
    CheckpointAt(h);
    hide PrepareHandoff, HandoffValues, SummaryValues, CheckpointValues, AcceptableHandoff;
    HandoffAt(db, h, hash, CheckpointField(i));
    HandoffAt(db, h, hash, CheckpointState);
  }

  /** When a handoff is accepted: four fields and a next action of at least 24 characters,
      a checkpoint of five non-empty fields or none, a last validation that names a
      recorded proof with its own verdict, and at most five different known addresses. */
  lemma {:induction false} HandoffGuard(db: Db, h: Handoff, hash: Hash)
    ensures PrepareHandoff(db, h, hash).Ok? <==>
            && |h.fields| == 4 && (forall i :: 0 <= i < 4 ==> |h.fields[i]| >= 24) && |h.next| >= 24
            && (h.checkpoint.Some? ==> |h.checkpoint.value| == 5 && "" !in h.checkpoint.value)
            && (h.checkpoint.Some? && h.claim.Some? ==>
                  h.claim.value.0 in db.proofs && db.proofs[h.claim.value.0].result == h.claim.value.1)
            && |h.hot| <= 5 && (forall i, j :: 0 <= i < |h.hot| && 0 <= j < |h.hot| && h.hot[i] == h.hot[j] ==> i == j)
            && (forall k :: k in h.hot ==> k in db.knowledge)
  {
    hide HandoffValues, Audit, Included;
    if h.checkpoint.Some? && |h.checkpoint.value| == 5 {
      var c := h.checkpoint.value;
      assert "" in c <==> exists i :: 0 <= i < 5 && c[i] == "";
    }
  }

  /** One key of the Front after a handoff: the handoff's value, or the old one. */
  ghost predicate FrontAfter(db: Db, h: Handoff, hash: Hash, k: FrontKey)
    requires AcceptableHandoff(db, h)
  {
    && PrepareHandoff(db, h, hash).Ok?
    && var f, v := PrepareHandoff(db, h, hash).db.front, HandoffValues(db, h);
       k != FrontHash && k != PreparedAt ==>
         && (k in f <==> k in v || k in db.front)
         && (k in v ==> f[k] == v[k]) && (k !in v && k in db.front ==> f[k] == db.front[k])
  }

  lemma {:induction false} HandoffAt(db: Db, h: Handoff, hash: Hash, k: FrontKey)
    requires AcceptableHandoff(db, h)
    ensures FrontAfter(db, h, hash, k)
  {
    hide HandoffValues, Included, NextId, AcceptableHandoff;
  }

  /** The address slots are given, emptied where one was set, or left absent; the brick
      and every key a handoff does not own stay. */
  lemma {:induction false} HandoffKeeps(db: Db, h: Handoff, hash: Hash, k: FrontKey, i: nat)
    requires AcceptableHandoff(db, h)
    ensures PrepareHandoff(db, h, hash).Ok?
    ensures var f := PrepareHandoff(db, h, hash).db.front;
            && (k in {Subsystem, BrickKey, CurrentWall} || k.OtherKey? ==>
                  (k in f <==> k in db.front) && (k in f ==> f[k] == db.front[k]))
            && (1 <= i <= |h.hot| ==> RelevantAddress(i) in f && f[RelevantAddress(i)] == "ARET://knowledge/" + h.hot[i - 1])
            && (|h.hot| < i <= 5 ==> (RelevantAddress(i) in f <==> RelevantAddress(i) in db.front))
            && (|h.hot| < i <= 5 && RelevantAddress(i) in f ==> f[RelevantAddress(i)] == "")
  {
    ValuesAt(db, h);
    SlotsAt(db, h, i);
    hide PrepareHandoff, HandoffValues, AcceptableHandoff;
    HandoffAt(db, h, hash, k);
    HandoffAt(db, h, hash, RelevantAddress(i));
  }

  lemma {:induction false} SlotsAt(db: Db, h: Handoff, i: nat)
    requires AcceptableHandoff(db, h)
    ensures var v := HandoffValues(db, h);
            && (RelevantAddress(i) in v <==> 1 <= i <= 5 && (i <= |h.hot| || RelevantAddress(i) in db.front))
            && (RelevantAddress(i) in v ==> v[RelevantAddress(i)] == if i <= |h.hot| then Address(h.hot[i - 1]) else "")
  {
    SlotAt(db.front, h.hot, 5, RelevantAddress(i));
    assert |h.hot| <= 5;
    hide SummaryValues, CheckpointValues, AddressesUpTo, Address, AcceptableHandoff;
    var rest := SummaryValues(h) + CheckpointValues(h) + SingleValues(h);
    assert RelevantAddress(i) !in rest;
    hide SingleValues;
  }

  /** The parts of a handoff's values do not overlap. */
  lemma {:induction false} ValuesAt(db: Db, h: Handoff)
    requires AcceptableHandoff(db, h)
    ensures var v := HandoffValues(db, h);
            && (forall k :: k in SummaryValues(h) ==> k in v && v[k] == SummaryValues(h)[k])
            && (forall k :: k in CheckpointValues(h) ==> k in v && v[k] == CheckpointValues(h)[k])
            && NextAction in v && v[NextAction] == h.next && LastAction in v && v[LastAction] == h.lastAction
            && CheckpointState in v && v[CheckpointState] == (if h.checkpoint.Some? then "ACTIVE" else "NONE")
            && (forall k :: k in v ==> !(k in {Subsystem, BrickKey, CurrentWall}) && !k.OtherKey?)
  {
    hide SummaryValues, CheckpointValues, AddressValues, AcceptableHandoff;
  }

  lemma {:induction false} SummaryAt(h: Handoff)
    requires |h.fields| == 4
    ensures forall i :: 0 <= i < 4 ==> HandoffField(i) in SummaryValues(h) && SummaryValues(h)[HandoffField(i)] == h.fields[i]
  {}

  lemma {:induction false} CheckpointAt(h: Handoff)
    requires h.checkpoint.Some? ==> |h.checkpoint.value| == 5
    ensures forall i :: 0 <= i < 5 ==>
              && CheckpointField(i) in CheckpointValues(h)
              && CheckpointValues(h)[CheckpointField(i)] == if h.checkpoint.Some? then h.checkpoint.value[i] else ""
  {}

  /** Keys the store does not name: a small letter, then small letters, digits and
      underscores, 64 characters at most. */
  lemma {:induction false} KeyForm(c: char, rest: string)
    ensures ValidKey(OtherKey([c] + rest)) <==>
            'a' <= c <= 'z' && |rest| <= 63 && forall x :: x in rest ==> 'a' <= x <= 'z' || '0' <= x <= '9' || x == '_'
    ensures !ValidKey(OtherKey(""))
  {
    var s := [c] + rest;
    assert forall i :: 0 <= i < |rest| ==> rest[i] == s[i + 1];
    assert forall i :: 0 < i < |s| ==> s[i] in rest;
  }

  /** Identifiers: a capital letter, then one to 31 capitals, digits, underscores and
      hyphens. */
  lemma {:induction false} IdentifierForm(c: char, rest: string)
    ensures ValidIdentifier([c] + rest) <==>
            'A' <= c <= 'Z' && 1 <= |rest| <= 31
            && forall x :: x in rest ==> 'A' <= x <= 'Z' || '0' <= x <= '9' || x == '_' || x == '-'
    ensures !ValidIdentifier("")
  {
    var s := [c] + rest;
    assert forall i :: 0 <= i < |rest| ==> rest[i] == s[i + 1];
    assert forall i :: 0 < i < |s| ==> s[i] in rest;
  }

  // ---- the registry -------------------------------------------------------------------------------

  /** Registering adds exactly the named row, once. */
  lemma {:induction false} RegisterComponentWrites(db: Db, id: string, hash: Hash)
    ensures var r := Perform(db, OpComponent(id), hash);
            && (r.Ok? <==> ValidIdentifier(id) && id !in db.components)
            && (r.Ok? ==> r.db == db.(components := r.db.components, seqs := r.db.seqs, audits := r.db.audits)
                          && forall x :: x in r.db.components <==> x == id || x in db.components)
  {
    hide NextId, ValidIdentifier;
  }

  lemma {:induction false} RegisterFunctionWrites(db: Db, component: string, id: string, hash: Hash)
    ensures var r := Perform(db, OpFunction(component, id), hash);
            && (r.Ok? <==> component in db.components && id !in db.functions)
            && (r.Ok? ==> r.db == db.(functions := r.db.functions, seqs := r.db.seqs, audits := r.db.audits)
                          && forall x :: x in r.db.functions <==> x == id || x in db.functions)
  {
    hide NextId;
  }

  lemma {:induction false} RegisterBrickWrites(db: Db, id: string, state: BrickState, owner: Option<string>, hash: Hash)
    ensures var r := Perform(db, OpBrick(id, state, owner), hash);
            && (r.Ok? <==> ValidIdentifier(id) && id !in db.bricks && (owner.Some? ==> owner.value in db.components))
            && (r.Ok? ==> r.db == db.(bricks := r.db.bricks, seqs := r.db.seqs, audits := r.db.audits)
                          && r.db.bricks == db.bricks[id := Brick(state, owner)])
  {
    hide NextId, ValidIdentifier;
  }

  /** Updating a brick: refused exactly without a property, for an unknown brick, and for
      taking the Front's ACTIVE brick out of ACTIVE; otherwise it has the given state, or
      its old one, and nothing else changes. */
  lemma {:induction false} UpdateBrickExactly(db: Db, id: string, st: Option<BrickState>, others: bool, hash: Hash)
    ensures var r := Perform(db, OpUpdateBrick(id, st, others), hash);
            && (r.Refused? <==>
                  || (st.None? && !others) || id !in db.bricks
                  || (BrickKey in db.front && db.front[BrickKey] == id && db.bricks[id].state == BrickActive
                      && st.Some? && st.value != BrickActive))
            && (r.Ok? ==>
                  && r.db == db.(bricks := r.db.bricks, seqs := r.db.seqs, audits := r.db.audits)
                  && r.db.bricks == db.bricks[id := Brick(if st.Some? then st.value else db.bricks[id].state, db.bricks[id].component)])
  {
    hide NextId;
  }

  // ---- relations -------------------------------------------------------------------------------------

  /** Relating two existing, different entities: afterwards a relation with that triple is
      there under the answered id, a new one live and unreplaced, an old one as it was. */
  lemma {:induction false} RelateExactly(db: Db, from: string, kind: RelationType, to: string, hash: Hash)
    requires Inv(db)
    ensures var r := Perform(db, OpRelate(from, kind, to), hash);
            && (r.Ok? <==> from != to && Exists(db, from) && Exists(db, to))
            && (r.Ok? ==>
                  && r.id in r.db.relations && HasTriple(r.db, r.id, from, kind, to)
                  && (forall x :: x in db.relations ==> x in r.db.relations && r.db.relations[x] == db.relations[x])
                  && (forall x :: x in r.db.relations ==> x in db.relations || x == r.id)
                  && (r.id !in db.relations ==> r.db.relations[r.id] == Relation(from, kind, to, true, None)))
  {
    hide Inv, Grows, Exists;
    if from != to && Exists(db, from) && Exists(db, to) {
      InsertKeeps(db, from, kind, to);
      InsertedRows(db, from, kind, to);
    }
    hide InsertRelation, RelationId;
  }

  lemma {:induction false} InsertedRows(db: Db, from: string, kind: RelationType, to: string)
    requires Inv(db) && Exists(db, from) && Exists(db, to)
    ensures var db', id := InsertRelation(db, from, kind, to), RelationId(db, from, kind, to);
            && id in db'.relations
            && (forall x :: x in db.relations ==> x in db'.relations)
            && (forall x :: x in db'.relations ==> x in db.relations || x == id)
            && (id !in db.relations ==> db'.relations[id] == Relation(from, kind, to, true, None))
  {
    hide Inv, NextId, Exists;
  }

  /** Superseding touches the superseded relation and the replacement only. */
  lemma {:induction false} SupersedeTouches(db: Db, rid: string, from: string, kind: RelationType, to: string, x: string)
    requires Inv(db) && SupersedeRelation(db, rid, from, kind, to).Ok? && x in db.relations && x != rid
    ensures var r := SupersedeRelation(db, rid, from, kind, to);
            x in r.db.relations && r.db.relations[x] == db.relations[x] && HasTriple(r.db, r.id, from, kind, to)
  {
    hide Inv, Grows, Exists;
    InsertKeeps(db, from, kind, to);
    InsertedRows(db, from, kind, to);
    hide InsertRelation, RelationId, NextId;
  }

  // ---- knowledge ----------------------------------------------------------------------------------------

  /** The status a draft gets when it names none. */
  lemma {:induction false} DefaultStatus(d: Draft)
    requires d.status.None?
    ensures InitialStatus(d) == (if d.kind == Observation then Observed else if d.kind == HypothesisKind then Hypothesis else Active)
  {}

  /** The row an append adds: the draft's own fields, the superseded item's component when
      it names none, one version more than that item, and PROVEN when asked for; the
      links added are exactly those to its proofs. */
  lemma {:induction false} AppendedRow(db: Db, d: Draft)
    requires Inv(db) && AppendKnowledge(db, d).Ok?
    ensures var r := AppendKnowledge(db, d);
            && r.id !in db.knowledge && r.id in r.db.knowledge
            && var row := r.db.knowledge[r.id];
               && row.kind == d.kind && row.title == d.title && row.content == d.content
               && row.function_ == d.function_ && row.brick == d.brick && row.supersedes == d.supersedes
               && (d.component.Some? ==> row.component == d.component)
               && (d.component.None? && d.supersedes.Some? ==> row.component == db.knowledge[d.supersedes.value].component)
               && (d.component.None? && d.supersedes.None? ==> row.component.None?)
               && row.version == (if d.supersedes.Some? then db.knowledge[d.supersedes.value].version + 1 else 1)
               && row.status == InitialStatus(d)
               && (forall x :: x in r.db.links <==> x in db.links || (x.0 == r.id && x.1 in d.proofs))
               && r.id == NextId(db, "knowledge", match row.component case Some(c) => c case None => "KN")
  {
    hide Inv, Grows, Link, LinkAll, InsertRelation, NextId, SupersedePrevious;
    var id := NextId(db, "knowledge", Prefix(db, d));
    InsertedKeeps(db, d);
    var db0 := Inserted(db, d);
    LinkAllKeepsTables(db0, id, d.proofs);
    var db1 := LinkAll(db0, id, d.proofs);
    SupersedeKeepsTables(db1, id, d.supersedes);
  }

  /** When an append is accepted. */
  lemma {:induction false} AppendGuard(db: Db, d: Draft)
    ensures AppendKnowledge(db, d).Ok? <==>
            && d.title != "" && d.content != "" && InitialStatus(d) !in {Superseded, Obsolete}
            && (d.component.Some? ==> d.component.value in db.components)
            && (d.function_.Some? ==> d.function_.value in db.functions)
            && (d.brick.Some? ==> d.brick.value in db.bricks)
            && (d.supersedes.Some? ==> d.supersedes.value in db.knowledge)
            && (forall p :: p in d.proofs ==> p in db.proofs)
            && (InitialStatus(d) == Proven ==> exists p :: p in d.proofs && p in db.proofs && Admissible(db.proofs[p]))
  {
    hide LinkAll, SupersedePrevious, Inserted, Audit;
  }

  /** What PROVEN means in every run: a linked proof whose result is PASS and whose receipt
      holds. */
  lemma {:induction false} ProvenMeans(ops: seq<Op>, hash: Hash, k: string) returns (p: string)
    requires k in Run(EMPTY, ops, hash).knowledge && Run(EMPTY, ops, hash).knowledge[k].status == Proven
    ensures var db := Run(EMPTY, ops, hash);
            (k, p) in db.links && p in db.proofs && db.proofs[p] == Proof(Pass, true)
  {
    hide Run, LinksResolve, GraphSound, VersionsCount, FrontBrickActive, IdsIssued;
    EveryRun(ops, hash);
    var db := Run(EMPTY, ops, hash);
    assert Justified(db, k);
    p :| (k, p) in db.links && p in db.proofs && Admissible(db.proofs[p]);
  }

  /** What the table of knowledge is made of, in every run: every row has a title and a
      content, names registered entities only, was issued its id under its component's
      prefix, is never OBSOLETE, and is SUPERSEDED only if a later version supersedes
      it. */
  ghost predicate RowSound(db: Db, k: string)
    requires k in db.knowledge
  {
    var row := db.knowledge[k];
    && row.title != "" && row.content != ""
    && (row.component.Some? ==> row.component.value in db.components)
    && (row.function_.Some? ==> row.function_.value in db.functions)
    && (row.brick.Some? ==> row.brick.value in db.bricks)
    && IssuedUnder(db, k, match row.component case Some(c) => c case None => "KN")
    && row.status != Obsolete
    && (row.status == Superseded ==> Retired(db, k))
  }

  ghost predicate IssuedUnder(db: Db, id: string, prefix: string) {
    exists n :: SeqKey("knowledge", prefix) in db.seqs && IssuedAs(db, "knowledge", id, prefix, n)
  }

  ghost predicate RowsSound(db: Db) { forall k :: k in db.knowledge ==> RowSound(db, k) }

  lemma {:induction false} IssuedStays(db: Db, db': Db, id: string, prefix: string)
    requires IssuedUnder(db, id, prefix) && CountersRise(db, db')
    ensures IssuedUnder(db', id, prefix)
  {
    hide Format;
    var n :| SeqKey("knowledge", prefix) in db.seqs && IssuedAs(db, "knowledge", id, prefix, n);
    assert IssuedAs(db', "knowledge", id, prefix, n);
  }

  lemma {:induction false} RetiredStays(db: Db, db': Db, k: string)
    requires Retired(db, k) && Grows(db, db')
    ensures Retired(db', k)
  {
    var n :| n in db.knowledge && db.knowledge[n].supersedes == Some(k);
    assert n in db'.knowledge.Keys && db'.knowledge[n].supersedes == Some(k);
  }

  /** An old row stays sound when its status stays, becomes PROVEN or OBSERVED, or becomes
      SUPERSEDED by a later version. */
  lemma {:induction false} RowStays(db: Db, db': Db, k: string)
    requires k in db.knowledge && RowSound(db, k) && Grows(db, db')
    requires var st := db'.knowledge[k].status;
             st == db.knowledge[k].status || st == Proven || st == Observed || (st == Superseded && Retired(db', k))
    ensures RowSound(db', k)
  {
    var prefix := match db.knowledge[k].component case Some(c) => c case None => "KN";
    IssuedStays(db, db', k, prefix);
    if db.knowledge[k].status == Superseded { RetiredStays(db, db', k); }
    hide Retired, IssuedUnder;
    forall b | b in db.bricks ensures b in db'.bricks { assert b in db'.bricks.Keys; }
  }

  lemma {:induction false} StepRows(db: Db, op: Op, hash: Hash)
    requires Inv(db) && RowsSound(db)
    ensures RowsSound(Step(db, op, hash))
  {
    hide Inv, RowsSound, Grows, AppendKnowledge, AttachProof, InvalidateProof, InsertRelation, SupersedeRelation,
      PrepareHandoff, UpdateBrick, RegisterBrick, RegisterComponent, RegisterFunction, UpdateFront, ReplaceFront, RecordProof;
    StepKeeps(db, op, hash);
    if op.OpAppend? {
      if Perform(db, op, hash).Ok? { AppendRowsSound(db, op.draft); }
    } else if op.OpAttach? {
      if Perform(db, op, hash).Ok? { AttachRowsSound(db, op.k, op.p, op.promote); }
    } else {
      OthersDemote(db, op, hash);
      hide Perform, Step;
      AllRowsStay(db, Step(db, op, hash));
    }
  }

  lemma {:induction false} AttachRowsSound(db: Db, k: string, p: string, promote: bool)
    requires Inv(db) && RowsSound(db) && AttachProof(db, k, p, promote).Ok?
    ensures RowsSound(AttachProof(db, k, p, promote).db)
  {
    hide Inv, RowsSound, Grows, AttachProof;
    AttachKeeps(db, k, p, promote);
    AttachGuard(db, k, p, promote);
    AttachedRows(db, k, p, promote);
    AllRowsStay(db, AttachProof(db, k, p, promote).db);
  }

  lemma {:induction false} AllRowsStay(db: Db, db': Db)
    requires RowsSound(db) && Grows(db, db') && db'.knowledge.Keys == db.knowledge.Keys
    requires forall k :: k in db.knowledge ==>
               var st := db'.knowledge[k].status; st == db.knowledge[k].status || st == Proven || st == Observed
    ensures RowsSound(db')
  {
    hide RowSound, Grows;
    forall k | k in db'.knowledge ensures RowSound(db', k) {
      assert k in db'.knowledge.Keys && k in db.knowledge;
      RowStays(db, db', k);
    }
  }

  lemma {:induction false} AppendRowsSound(db: Db, d: Draft)
    requires Inv(db) && RowsSound(db) && AppendKnowledge(db, d).Ok?
    ensures RowsSound(AppendKnowledge(db, d).db)
  {
    AppendKeeps(db, d);
    AppendedRows(db, d);
    hide Inv, RowSound, Grows, AppendKnowledge;
    var r := AppendKnowledge(db, d);
    forall k | k in r.db.knowledge ensures RowSound(r.db, k) {
      assert k in r.db.knowledge.Keys;
      if k == r.id {
        NewRowSound(db, d);
      } else {
        if d.supersedes == Some(k) { AppendRetires(db, d, k); }
        RowStays(db, r.db, k);
      }
    }
  }

  lemma {:induction false} NewRowSound(db: Db, d: Draft)
    requires Inv(db) && RowsSound(db) && AppendKnowledge(db, d).Ok? && AppendKnowledge(db, d).id in AppendKnowledge(db, d).db.knowledge
    ensures RowSound(AppendKnowledge(db, d).db, AppendKnowledge(db, d).id)
  {
    AppendedRow(db, d);
    AppendGuard(db, d);
    NewIdIssued(db, d);
    if Component(db, d).Some? { InheritedComponent(db, d); }
    RegistryStays(db, d);
    hide Inv, Grows, AppendKnowledge, NextId, InitialStatus, IssuedUnder, Retired, RowsSound;
  }

  lemma {:induction false} InheritedComponent(db: Db, d: Draft)
    requires RowsSound(db) && Acceptable(db, d) && Component(db, d).Some?
    ensures Component(db, d).value in db.components
  {
    hide IssuedUnder, Retired;
    if d.component.None? { assert RowSound(db, d.supersedes.value); }
  }

  lemma {:induction false} RegistryStays(db: Db, d: Draft)
    requires AppendKnowledge(db, d).Ok?
    ensures var db' := AppendKnowledge(db, d).db; db'.components == db.components && db'.functions == db.functions && db'.bricks == db.bricks
  {
    hide Link, LinkAll, InsertRelation, NextId, SupersedePrevious;
    var id := NextId(db, "knowledge", Prefix(db, d));
    LinkAllKeepsTables(Inserted(db, d), id, d.proofs);
    SupersedeKeepsTables(LinkAll(Inserted(db, d), id, d.proofs), id, d.supersedes);
  }

  lemma {:induction false} NewIdIssued(db: Db, d: Draft)
    requires Inv(db) && AppendKnowledge(db, d).Ok?
    ensures IssuedUnder(AppendKnowledge(db, d).db, AppendKnowledge(db, d).id, Prefix(db, d))
  {
    AppendKeeps(db, d);
    IssuedHere(db, d);
    var r := AppendKnowledge(db, d);
    assert r.id == NextId(db, "knowledge", Prefix(db, d));
    hide AppendKnowledge, Inv, IssuedUnder, NextId;
    IssuedStays(Inserted(db, d), r.db, r.id, Prefix(db, d));
  }

  lemma {:induction false} IssuedHere(db: Db, d: Draft)
    requires Acceptable(db, d)
    ensures IssuedUnder(Inserted(db, d), NextId(db, "knowledge", Prefix(db, d)), Prefix(db, d))
  {
    hide Format, Prefix;
    assert IssuedAs(Inserted(db, d), "knowledge", NextId(db, "knowledge", Prefix(db, d)), Prefix(db, d),
                    NextNumber(db, "knowledge", Prefix(db, d)));
  }

  lemma {:induction false} RunRows(db: Db, ops: seq<Op>, hash: Hash)
    requires Inv(db) && RowsSound(db)
    ensures RowsSound(Run(db, ops, hash))
    decreases |ops|
  {
    hide Inv, RowsSound, Step;
    if ops != [] {
      StepKeeps(db, ops[0], hash);
      StepRows(db, ops[0], hash);
      RunRows(Step(db, ops[0], hash), ops[1..], hash);
    }
  }

  lemma {:induction false} EveryRunRows(ops: seq<Op>, hash: Hash)
    ensures RowsSound(Run(EMPTY, ops, hash))
  {
    assert Inv(EMPTY);
    hide Inv;
    RunRows(EMPTY, ops, hash);
  }
}

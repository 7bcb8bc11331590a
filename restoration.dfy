/**
  What rolling back an abandoned mutation achieves.  In the production copy
  every mutation, whether it completed or threw, is undone by replaying what
  it queued: the store ends with the rows it started with.  The prototype
  falls short twice: its undo of a soft delete keeps the delete's date stamp,
  and a failed audit insert leaves an undo queued that throws when replayed.
 */
module Restoration {
  import opened Wrappers
  import Clock
  import opened Entities
  import opened TableStorage
  import opened Compensation

  /** Two tables hold the same keys and the same rows, ETags aside. */
  ghost predicate SameRows(a: Table, b: Table)
  {
    a.Keys == b.Keys && forall k | k in a :: Strip(a[k]) == Strip(b[k])
  }

  /** `b` holds the same tables and rows as `a`, except perhaps the row under `k` in `table`, present in both. */
  ghost predicate OnlyRowDiffers(a: StoreState, b: StoreState, table: string, k: Key)
  {
    && table in a.tables && k in a.tables[table] && table in b.tables && k in b.tables[table]
    && b.tables == a.tables[table := a.tables[table][k := b.tables[table][k]]]
  }

  lemma ReplayOne(s: StoreState, values: map<EntityObject, Entity>, a: Action)
    requires a.entity in values
    ensures Covers(values, [a]) && Replay(s, values, [a]) == Step(s, values, a)
  {
    ReplayCons(s, values, a, []);
  }

  lemma ReplayTwo(s: StoreState, values: map<EntityObject, Entity>, a: Action, b: Action)
    requires a.entity in values && b.entity in values
    requires Step(s, values, a).outcome.Pass?
    ensures Covers(values, [a, b])
    ensures var first := Step(s, values, a);
            Replay(s, values, [a, b]) == Step(first.state, first.values, b).(ran := 2)
  {
    ReplayOne(Step(s, values, a).state, Step(s, values, a).values, b);
    ReplayCons(s, values, a, [b]);
    assert [a] + [b] == [a, b];
  }

  /** Table-by-table equality of contents is equality of contents. */
  lemma SameContentsByTable(a: StoreState, b: StoreState)
    requires a.tables.Keys == b.tables.Keys
    requires forall t | t in a.tables :: SameRows(a.tables[t], b.tables[t])
    ensures SameContents(a, b)
  {
  }

  /**
    The undo of an insert deletes the inserted row with the ETag the insert
    handed back, whatever else was written to other tables in between.
   */
  lemma UndoInsertRestores(s: StoreState, mid: StoreState, table: string, e: Entity,
                           values: map<EntityObject, Entity>, o: EntityObject)
    requires TableStorage.Insert(s, table, e).Success?
    requires table in mid.tables && mid.tables[table] == TableStorage.Insert(s, table, e).value.tables[table]
    requires o in values && values[o] == e.(etag := Tag(s.version))
    ensures var r := Step(mid, values, UndoInsert(table, o));
            r.outcome == Pass && r.values == values && r.state == mid.(tables := mid.tables[table := s.tables[table]])
  {
    assert ETagMatches(mid, table, values[o]);
    assert mid.tables[table] - {KeyOf(e)} == s.tables[table];
  }

  /**
    The undo of a replace writes back the row read before the write, under the
    ETag the write handed back; only the replaced table changes, and it ends
    with the rows it had before the write.
   */
  lemma UndoReplaceRestores(s: StoreState, mid: StoreState, table: string, e: Entity,
                            values: map<EntityObject, Entity>, o: EntityObject)
    requires Valid(s)
    requires TableStorage.Replace(s, table, e).Success?
    requires table in mid.tables && mid.tables[table] == TableStorage.Replace(s, table, e).value.tables[table]
    requires o in values && values[o] == e.(etag := Tag(s.version))
    ensures var r := Step(mid, values, UndoReplace(table, Get(s, table, e.partitionKey, e.rowKey), o));
            && r.outcome == Pass && r.values == values
            && r.state.tables.Keys == mid.tables.Keys
            && (forall t | t in mid.tables && t != table :: r.state.tables[t] == mid.tables[t])
            && SameRows(r.state.tables[table], s.tables[table])
  {
    var before := s.tables[table][KeyOf(e)];
    assert KeyOf(before) == KeyOf(e);
    var back := Reconcile(before, values[o]);
    assert back == before.(etag := Tag(s.version));
    assert ETagMatches(mid, table, back);
  }

  /**
    After a write that succeeded, the primary undo runs without throwing and
    puts back the rows of the primary table; the mutation's other write, to the
    audit table, is left as it was.
   */
  lemma PrimaryUndone(variant: Variant, et: EntityType, op: OperationType, s: StoreState,
                      e: Entity, now: Clock.DateTime, o: EntityObject, ao: EntityObject)
    requires Valid(s) && (et.isAuditTracked ==> o != ao) && (op.Insert? || op.Replace?)
    requires WriteRow(op, s, et.name, e).Success?
    ensures var eff := ExecuteEffect(variant, et, op, s, e, now, o, ao);
            var values := EffectValues(eff, o, ao);
            var r := Step(eff.state, values, eff.enqueued[0]);
            && r.outcome == Pass && r.values == values
            && r.state.tables.Keys == eff.state.tables.Keys
            && (forall t | t in eff.state.tables && t != et.name :: r.state.tables[t] == eff.state.tables[t])
            && SameRows(r.state.tables[et.name], s.tables[et.name])
  {
    var eff := ExecuteEffect(variant, et, op, s, e, now, o, ao);
    var values := EffectValues(eff, o, ao);
    var s1 := WriteRow(op, s, et.name, e).value;
    assert values[o] == e.(etag := Tag(s.version));
    assert et.name in eff.state.tables && eff.state.tables[et.name] == s1.tables[et.name];
    if op.Insert? {
      UndoInsertRestores(s, eff.state, et.name, e, values, o);
    } else {
      UndoReplaceRestores(s, eff.state, et.name, e, values, o);
    }
  }

  /**
    After an audit insert that succeeded, the audit undo deletes the audit copy
    and puts back the rows of the audit table, whatever the primary undo did first.
   */
  lemma AuditUndone(variant: Variant, et: EntityType, op: OperationType, s: StoreState,
                    e: Entity, now: Clock.DateTime, o: EntityObject, ao: EntityObject,
                    mid: StoreState, values: map<EntityObject, Entity>)
    requires op.Insert? || op.Replace? || op.Delete?
    requires var eff := ExecuteEffect(variant, et, op, s, e, now, o, ao);
             eff.outcome.Pass? && et.isAuditTracked
    requires var A := AuditTableName(et.name);
             var eff := ExecuteEffect(variant, et, op, s, e, now, o, ao);
             A in mid.tables && A in eff.state.tables && mid.tables[A] == eff.state.tables[A] &&
             ao in values && values[ao] == eff.audit.value
    ensures var eff := ExecuteEffect(variant, et, op, s, e, now, o, ao);
            var r := Step(mid, values, eff.enqueued[1]);
            var A := AuditTableName(et.name);
            r.outcome == Pass && r.values == values && r.state == mid.(tables := mid.tables[A := s.tables[A]])
  {
    var eff := ExecuteEffect(variant, et, op, s, e, now, o, ao);
    var A := AuditTableName(et.name);
    var s1 := WriteRow(op, s, et.name, e).value;
    var a := AuditCopy(e.(etag := Tag(s.version)), AuditRowKeyFor(variant, now));
    assert TableStorage.Insert(s1, A, a).Success?;
    assert eff.state.tables[A] == TableStorage.Insert(s1, A, a).value.tables[A];
    assert values[ao] == a.(etag := Tag(s1.version));
    assert s1.tables[A] == s.tables[A];
    UndoInsertRestores(s1, mid, A, a, values, ao);
  }

  /** The two-action case: the primary undo and then the audit undo both run and restore their tables. */
  lemma AuditedRollbackRestores(variant: Variant, et: EntityType, op: OperationType, s: StoreState,
                                e: Entity, now: Clock.DateTime, o: EntityObject, ao: EntityObject)
    requires Valid(s) && (et.isAuditTracked ==> o != ao) && (op.Insert? || op.Replace?)
    requires var eff := ExecuteEffect(variant, et, op, s, e, now, o, ao);
             eff.outcome.Pass? && et.isAuditTracked
    ensures var eff := ExecuteEffect(variant, et, op, s, e, now, o, ao);
            var r := Replay(eff.state, EffectValues(eff, o, ao), eff.enqueued);
            r.outcome == Pass && SameContents(r.state, s)
  {
    var eff := ExecuteEffect(variant, et, op, s, e, now, o, ao);
    var values := EffectValues(eff, o, ao);
    var T := et.name;
    var A := AuditTableName(T);
    PrimaryUndone(variant, et, op, s, e, now, o, ao);
    var r1 := Step(eff.state, values, eff.enqueued[0]);
    AuditUndone(variant, et, op, s, e, now, o, ao, r1.state, values);
    var r2 := Step(r1.state, values, eff.enqueued[1]);
    ReplayTwoRestores(s, eff.state, values, eff.enqueued, T, A, r1, r2);
  }

  /**
    The one-action case: the primary undo of a type that is not audit-tracked,
    or of one whose audit insert threw in the production copy, runs and leaves
    the rows as they were.
   */
  lemma SingleRollbackRestores(variant: Variant, et: EntityType, op: OperationType, s: StoreState,
                               e: Entity, now: Clock.DateTime, o: EntityObject, ao: EntityObject)
    requires Valid(s) && (et.isAuditTracked ==> o != ao) && (op.Insert? || op.Replace?)
    requires |ExecuteEffect(variant, et, op, s, e, now, o, ao).enqueued| == 1
    ensures var eff := ExecuteEffect(variant, et, op, s, e, now, o, ao);
            var r := Replay(eff.state, EffectValues(eff, o, ao), eff.enqueued);
            r.outcome == Pass && SameContents(r.state, s)
  {
    var eff := ExecuteEffect(variant, et, op, s, e, now, o, ao);
    var values := EffectValues(eff, o, ao);
    PrimaryUndone(variant, et, op, s, e, now, o, ao);
    var r1 := Step(eff.state, values, eff.enqueued[0]);
    ReplayOne(eff.state, values, eff.enqueued[0]);
    assert eff.enqueued == [eff.enqueued[0]];
    SameContentsByTable(r1.state, s);
  }

  /** Replaying two undos that act as `TwoTablesRestored` describes. */
  lemma ReplayTwoRestores(s: StoreState, written: StoreState, values: map<EntityObject, Entity>,
                          q: seq<Action>, T: string, A: string, r1: Replayed, r2: Replayed)
    requires |q| == 2 && Covers(values, q) && q[0].entity in values && q[1].entity in values
    requires T != A && T in s.tables && A in s.tables
    requires written.tables.Keys == s.tables.Keys
    requires forall t | t in s.tables && t != T && t != A :: written.tables[t] == s.tables[t]
    requires r1 == Step(written, values, q[0]) && r1.outcome == Pass && r1.values == values
    requires r1.state.tables.Keys == written.tables.Keys
    requires forall t | t in written.tables && t != T :: r1.state.tables[t] == written.tables[t]
    requires SameRows(r1.state.tables[T], s.tables[T])
    requires r2 == Step(r1.state, values, q[1])
    requires r2.outcome == Pass && r2.state.tables == r1.state.tables[A := s.tables[A]]
    ensures var r := Replay(written, values, q);
            r.outcome == Pass && SameContents(r.state, s)
  {
    ReplayTwo(written, values, q[0], q[1]);
    assert q == [q[0], q[1]];
    TwoTablesRestored(s, written, r1.state, r2.state, T, A);
  }

  /**
    When a mutation wrote only tables `T` and `A`, the primary undo gave `T`
    its rows back and left the rest, and the audit undo then put back `A`
    exactly, the store holds the rows it started with.
   */
  lemma TwoTablesRestored(s: StoreState, written: StoreState, mid: StoreState, last: StoreState, T: string, A: string)
    requires T != A && T in s.tables && A in s.tables
    requires written.tables.Keys == s.tables.Keys
    requires forall t | t in s.tables && t != T && t != A :: written.tables[t] == s.tables[t]
    requires mid.tables.Keys == written.tables.Keys
    requires forall t | t in written.tables && t != T :: mid.tables[t] == written.tables[t]
    requires SameRows(mid.tables[T], s.tables[T])
    requires last.tables == mid.tables[A := s.tables[A]]
    ensures SameContents(last, s)
  {
    forall t | t in last.tables ensures SameRows(last.tables[t], s.tables[t]) {
      if t != T && t != A {
        assert last.tables[t] == written.tables[t];
      }
    }
    SameContentsByTable(last, s);
  }

  /**
    The shared argument for a write issued as an Insert or a Replace: when the
    queued actions do not throw, replaying them leaves the rows the store had
    before the write.  That is so unless the prototype queued the undo of an
    audit insert that failed.
   */
  lemma {:induction false} RollbackRestores(variant: Variant, et: EntityType, op: OperationType, s: StoreState,
                                            e: Entity, now: Clock.DateTime, o: EntityObject, ao: EntityObject)
    requires Valid(s) && (et.isAuditTracked ==> o != ao) && (op.Insert? || op.Replace?)
    requires var eff := ExecuteEffect(variant, et, op, s, e, now, o, ao);
             variant == Production || eff.outcome.Pass? || eff.enqueued == []
    ensures var eff := ExecuteEffect(variant, et, op, s, e, now, o, ao);
            var r := Replay(eff.state, EffectValues(eff, o, ao), eff.enqueued);
            r.outcome == Pass && SameContents(r.state, s)
  {
    var eff := ExecuteEffect(variant, et, op, s, e, now, o, ao);
    var values := EffectValues(eff, o, ao);
    var T := et.name;
    if eff.enqueued == [] {
      return;
    }
    if |eff.enqueued| == 1 {
      SingleRollbackRestores(variant, et, op, s, e, now, o, ao);
    } else {
      AuditedRollbackRestores(variant, et, op, s, e, now, o, ao);
    }
  }

  /**
    In the production copy, rolling back any abandoned mutation (one that
    completed, or one that threw at the primary write or at the audit insert)
    runs every queued action without a throw and leaves the store with the rows
    it had before the mutation.  A soft delete is undone from the snapshot, so
    the row gets back its old flag and its old date.
   */
  lemma ProductionRollbackRestores(et: EntityType, m: Mutation, s: StoreState, e: Entity,
                                   now: Clock.DateTime, o: EntityObject, ao: EntityObject)
    requires Valid(s) && (et.isAuditTracked ==> o != ao)
    ensures var eff := MutationEffect(Production, et, m, s, e, now, o, ao);
            var r := Replay(eff.state, EffectValues(eff, o, ao), eff.enqueued);
            r.outcome == Pass && r.ran == |eff.enqueued| && SameContents(r.state, s)
  {
    RollbackRestores(Production, et, OperationFor(Production, m), s, Stamp(et, m, e, now), now, o, ao);
  }

  /**
    In the prototype, rolling back an abandoned insert or update restores the
    rows as well, provided the audit insert did not throw.
   */
  lemma PrototypeRollbackRestores(et: EntityType, m: Mutation, s: StoreState, e: Entity,
                                  now: Clock.DateTime, o: EntityObject, ao: EntityObject)
    requires Valid(s) && (et.isAuditTracked ==> o != ao) && m != Remove
    requires var eff := MutationEffect(Prototype, et, m, s, e, now, o, ao);
             eff.outcome.Pass? || eff.enqueued == []
    ensures var eff := MutationEffect(Prototype, et, m, s, e, now, o, ao);
            var r := Replay(eff.state, EffectValues(eff, o, ao), eff.enqueued);
            r.outcome == Pass && r.ran == |eff.enqueued| && SameContents(r.state, s)
  {
    RollbackRestores(Prototype, et, OperationFor(Prototype, m), s, Stamp(et, m, e, now), now, o, ao);
  }

  /** The undo of a soft delete, run on a store whose row `T` holds `w` as written back. */
  lemma UndoDeleteOver(s: StoreState, s1: StoreState, T: string, w: Entity, values: map<EntityObject, Entity>, o: EntityObject, r: Replayed)
    requires o in values && o.entityType.isBaseEntity && values[o] == w && w.etag != NoETag
    requires T in s.tables && T in s1.tables && s1.tables[T] == s.tables[T][KeyOf(w) := Persisted(w)]
    requires r == Step(s1, values, UndoDelete(T, o))
    ensures r.outcome == Pass && r.values == values[o := r.values[o]]
    ensures Strip(r.values[o]) == Strip(w.(isDeleted := false))
    ensures T in r.state.tables && KeyOf(w) in r.state.tables[T]
    ensures r.state.tables == s1.tables[T := s.tables[T][KeyOf(w) := r.state.tables[T][KeyOf(w)]]]
    ensures Strip(r.state.tables[T][KeyOf(w)]) == Strip(w.(isDeleted := false))
  {
    var v := w.(isDeleted := false);
    assert ETagMatches(s1, T, v);
    var row := Persisted(v).(etag := Tag(s1.version));
    assert r.state.tables == s1.tables[T := s1.tables[T][KeyOf(w) := row]];
    assert s1.tables[T][KeyOf(w) := row] == s.tables[T][KeyOf(w) := row];
  }

  /**
    The prototype's primary undo of a soft delete: it clears the flag on the
    entity object itself, keeps the delete's date stamp, and writes the object
    back over the deleted row with the ETag the delete handed back.
   */
  lemma UndoDeleteRuns(et: EntityType, s: StoreState, e: Entity, now: Clock.DateTime, o: EntityObject, ao: EntityObject)
    requires (et.isAuditTracked ==> o != ao) && o.entityType == et && et.isBaseEntity
    requires WriteRow(Delete, s, et.name, StampDelete(e, now)).Success?
    ensures var eff := MutationEffect(Prototype, et, Remove, s, e, now, o, ao);
            var values := EffectValues(eff, o, ao);
            var r := Step(eff.state, values, eff.enqueued[0]);
            var T := et.name;
            && r.outcome == Pass
            && r.values == values[o := r.values[o]]
            && Strip(r.values[o]) == Strip(e.(isDeleted := false, modifiedDate := now))
            && T in s.tables && KeyOf(e) in s.tables[T]
            && T in r.state.tables && KeyOf(e) in r.state.tables[T]
            && r.state.tables == eff.state.tables[T := s.tables[T][KeyOf(e) := r.state.tables[T][KeyOf(e)]]]
            && Strip(r.state.tables[T][KeyOf(e)]) == Strip(e.(isDeleted := false, modifiedDate := now))
  {
    var eff := MutationEffect(Prototype, et, Remove, s, e, now, o, ao);
    var values := EffectValues(eff, o, ao);
    var T := et.name;
    var d := StampDelete(e, now);
    var s1 := WriteRow(Delete, s, T, d).value;
    assert Stamp(et, Remove, e, now) == d;
    assert eff.enqueued[0] == UndoDelete(T, o);
    var w := d.(etag := Tag(s.version));
    assert values[o] == w;
    assert T in eff.state.tables && eff.state.tables[T] == s1.tables[T];
    assert s1.tables[T] == s.tables[T][KeyOf(e) := Persisted(w)];
    UndoDeleteOver(s, eff.state, T, w, values, o, Step(eff.state, values, eff.enqueued[0]));
  }

  /**
    In the prototype, rolling back an abandoned soft delete does not give the
    row back as it was: the flag is cleared, but the row keeps the date the
    delete stamped (and whatever else the caller's object held), where the
    production copy puts the stored row back.
   */
  lemma PrototypeRemoveRollback(et: EntityType, s: StoreState, e: Entity, now: Clock.DateTime,
                                o: EntityObject, ao: EntityObject)
    requires Valid(s) && (et.isAuditTracked ==> o != ao) && o.entityType == et && et.isBaseEntity
    requires MutationEffect(Prototype, et, Remove, s, e, now, o, ao).outcome.Pass?
    ensures var eff := MutationEffect(Prototype, et, Remove, s, e, now, o, ao);
            var r := Replay(eff.state, EffectValues(eff, o, ao), eff.enqueued);
            var T := et.name;
            && r.outcome == Pass && r.ran == |eff.enqueued|
            && !r.values[o].isDeleted && r.values[o].modifiedDate == now
            // every other row, in every table, is as it was; the deleted row is the caller's object, un-flagged
            && OnlyRowDiffers(s, r.state, T, KeyOf(e))
            && Strip(r.state.tables[T][KeyOf(e)]) == Strip(e.(isDeleted := false, modifiedDate := now))
  {
    var eff := MutationEffect(Prototype, et, Remove, s, e, now, o, ao);
    var values := EffectValues(eff, o, ao);
    var T := et.name;
    UndoDeleteRuns(et, s, e, now, o, ao);
    var r1 := Step(eff.state, values, eff.enqueued[0]);
    if |eff.enqueued| == 1 {
      ReplayOne(eff.state, values, eff.enqueued[0]);
      assert eff.enqueued == [eff.enqueued[0]];
      assert eff.state.tables == s.tables[T := eff.state.tables[T]];
    } else {
      PrototypeRemoveRollbackAudited(et, s, e, now, o, ao);
    }
  }

  /** The audit-tracked case of the lemma above: the audit undo then puts back the audit table. */
  lemma PrototypeRemoveRollbackAudited(et: EntityType, s: StoreState, e: Entity, now: Clock.DateTime,
                                       o: EntityObject, ao: EntityObject)
    requires Valid(s) && o != ao && o.entityType == et && et.isBaseEntity && et.isAuditTracked
    requires MutationEffect(Prototype, et, Remove, s, e, now, o, ao).outcome.Pass?
    ensures var eff := MutationEffect(Prototype, et, Remove, s, e, now, o, ao);
            var r := Replay(eff.state, EffectValues(eff, o, ao), eff.enqueued);
            var T := et.name;
            && r.outcome == Pass && r.ran == 2
            && r.values[o] == Step(eff.state, EffectValues(eff, o, ao), eff.enqueued[0]).values[o]
            && OnlyRowDiffers(s, r.state, T, KeyOf(e))
            && r.state.tables[T][KeyOf(e)] == Step(eff.state, EffectValues(eff, o, ao), eff.enqueued[0]).state.tables[T][KeyOf(e)]
  {
    var eff := MutationEffect(Prototype, et, Remove, s, e, now, o, ao);
    var values := EffectValues(eff, o, ao);
    var T := et.name;
    UndoDeleteRuns(et, s, e, now, o, ao);
    var r1 := Step(eff.state, values, eff.enqueued[0]);
    var A := AuditTableName(T);
    AuditUndone(Prototype, et, Delete, s, StampDelete(e, now), now, o, ao, r1.state, r1.values);
    var r2 := Step(r1.state, r1.values, eff.enqueued[1]);
    ReplayTwoOneRowDiffers(s, eff.state, values, eff.enqueued, T, A, KeyOf(e), r1, r2);
  }

  /** Replaying two undos that act as `TwoTablesOneRowDiffers` describes. */
  lemma ReplayTwoOneRowDiffers(s: StoreState, written: StoreState, values: map<EntityObject, Entity>,
                               q: seq<Action>, T: string, A: string, k: Key, r1: Replayed, r2: Replayed)
    requires |q| == 2 && Covers(values, q) && q[0].entity in values && q[1].entity in values
    requires T != A && T in s.tables && A in s.tables && k in s.tables[T]
    requires written.tables.Keys == s.tables.Keys
    requires forall t | t in s.tables && t != T && t != A :: written.tables[t] == s.tables[t]
    requires r1 == Step(written, values, q[0]) && r1.outcome == Pass
    requires T in r1.state.tables && k in r1.state.tables[T]
    requires r1.state.tables == written.tables[T := s.tables[T][k := r1.state.tables[T][k]]]
    requires q[1].entity in r1.values && r2 == Step(r1.state, r1.values, q[1])
    requires r2.outcome == Pass && r2.values == r1.values && r2.state.tables == r1.state.tables[A := s.tables[A]]
    ensures var r := Replay(written, values, q);
            && r.outcome == Pass && r.ran == 2 && r.values == r1.values
            && OnlyRowDiffers(s, r.state, T, k) && r.state.tables[T][k] == r1.state.tables[T][k]
  {
    ReplayTwo(written, values, q[0], q[1]);
    assert q == [q[0], q[1]];
    TwoTablesOneRowDiffers(s, written, r1.state, r2.state, T, A, k);
  }

  /**
    When a mutation wrote only tables `T` and `A`, the primary undo gave `T`
    back its rows except the one under `k`, and the audit undo then put back
    `A` exactly, the store differs from where it started in that row alone.
   */
  lemma TwoTablesOneRowDiffers(s: StoreState, written: StoreState, mid: StoreState, last: StoreState,
                               T: string, A: string, k: Key)
    requires T != A && T in s.tables && A in s.tables && k in s.tables[T]
    requires written.tables.Keys == s.tables.Keys
    requires forall t | t in s.tables && t != T && t != A :: written.tables[t] == s.tables[t]
    requires T in mid.tables && k in mid.tables[T]
    requires mid.tables == written.tables[T := s.tables[T][k := mid.tables[T][k]]]
    requires last.tables == mid.tables[A := s.tables[A]]
    ensures OnlyRowDiffers(s, last, T, k) && last.tables[T][k] == mid.tables[T][k]
  {
    assert last.tables == s.tables[T := s.tables[T][k := mid.tables[T][k]]];
  }

  /**
    So where the production copy gives back the stored row, the prototype does
    not: deleting a row read from the store at an earlier instant and rolling
    back leaves that row with a new modified date.
   */
  lemma PrototypeRemoveRollbackKeepsStamp(et: EntityType, s: StoreState, e: Entity, now: Clock.DateTime,
                                          o: EntityObject, ao: EntityObject)
    requires Valid(s) && (et.isAuditTracked ==> o != ao) && o.entityType == et && et.isBaseEntity
    requires Get(s, et.name, e.partitionKey, e.rowKey) == Some(e) && e.modifiedDate != now
    requires MutationEffect(Prototype, et, Remove, s, e, now, o, ao).outcome.Pass?
    ensures var eff := MutationEffect(Prototype, et, Remove, s, e, now, o, ao);
            var r := Replay(eff.state, EffectValues(eff, o, ao), eff.enqueued);
            r.outcome == Pass && !SameContents(r.state, s)
  {
    PrototypeRemoveRollback(et, s, e, now, o, ao);
    var eff := MutationEffect(Prototype, et, Remove, s, e, now, o, ao);
    var r := Replay(eff.state, EffectValues(eff, o, ao), eff.enqueued);
    assert Strip(r.state.tables[et.name][KeyOf(e)]).modifiedDate != Strip(s.tables[et.name][KeyOf(e)]).modifiedDate;
  }

  /**
    In the prototype, a mutation whose audit insert throws leaves the audit
    undo queued.  Rolling back then puts the primary row back and throws at the
    audit undo, since there is no audit row it could delete: the table is
    missing, or the row under that key is an older one with another ETag.
   */
  lemma PrototypeAuditFailureBreaksRollback(et: EntityType, m: Mutation, s: StoreState, e: Entity,
                                            now: Clock.DateTime, o: EntityObject, ao: EntityObject)
    requires Valid(s) && (et.isAuditTracked ==> o != ao) && o.entityType == et && (m == Remove ==> et.isBaseEntity)
    requires var eff := MutationEffect(Prototype, et, m, s, e, now, o, ao);
             eff.enqueued != [] && eff.outcome.Fail?
    ensures var eff := MutationEffect(Prototype, et, m, s, e, now, o, ao);
            var r := Replay(eff.state, EffectValues(eff, o, ao), eff.enqueued);
            && |eff.enqueued| == 2 && r.ran == 2
            && r.outcome in {Fail(StoreFailure(TableNotFound)), Fail(StoreFailure(UpdateConditionNotSatisfied))}
            && (m != Remove ==> SameRows(r.state.tables[et.name], s.tables[et.name]))
  {
    var eff := MutationEffect(Prototype, et, m, s, e, now, o, ao);
    var values := EffectValues(eff, o, ao);
    var op := OperationFor(Prototype, m);
    var d := Stamp(et, m, e, now);
    var T := et.name;
    var A := AuditTableName(T);
    var s1 := WriteRow(op, s, T, d).value;
    if m == Remove {
      UndoDeleteRuns(et, s, e, now, o, ao);
    } else {
      PrimaryUndone(Prototype, et, op, s, d, now, o, ao);
    }
    var r1 := Step(eff.state, values, eff.enqueued[0]);
    ReplayTwo(eff.state, values, eff.enqueued[0], eff.enqueued[1]);
    assert eff.enqueued == [eff.enqueued[0], eff.enqueued[1]];
    var a := AuditCopy(d.(etag := Tag(s.version)), AuditRowKeyFor(Prototype, now));
    assert TableStorage.Insert(s1, A, a).Failure?;
    assert r1.values[ao] == a;
    assert A in r1.state.tables ==> r1.state.tables[A] == s.tables[A];
    UndoOfFailedInsertFails(s, r1.state, A, r1.values, ao, a);
  }

  /**
    The undo of an insert that threw: the table is missing, or the key was
    already taken by a row whose ETag is older than the one the copy carries,
    so the delete is refused either way.
   */
  lemma UndoOfFailedInsertFails(s: StoreState, mid: StoreState, A: string,
                                values: map<EntityObject, Entity>, ao: EntityObject, a: Entity)
    requires Valid(s) && ao in values && values[ao] == a && a.etag == Tag(s.version)
    requires TableStorage.Insert(s, A, a).Failure?
    requires A in mid.tables <==> A in s.tables
    requires A in mid.tables ==> mid.tables[A] == s.tables[A]
    ensures Step(mid, values, UndoInsert(A, ao)).outcome
              in {Fail(StoreFailure(TableNotFound)), Fail(StoreFailure(UpdateConditionNotSatisfied))}
  {
    if A in s.tables {
      assert s.tables[A][KeyOf(a)].etag != a.etag;
    }
  }
}

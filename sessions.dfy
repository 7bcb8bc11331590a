/**
  A unit of work that made several repository calls before it was rolled
  back.  Its queue holds the calls' undos in call order, and the rollback
  replays them first to last.  In the production copy this gives the store
  its rows back when the calls write distinct rows through distinct entity
  objects.  When two calls write the same row, the earlier call's undo runs
  first and takes away what the later call's undo needs, so the rollback throws.
 */
module Sessions {
  import opened Wrappers
  import Clock
  import opened Entities
  import opened TableStorage
  import opened Compensation
  import opened Restoration

  /** A row of the store: its table and its key. */
  type Location = (string, Key)

  /**
    One repository call: the mutation, the entity object and the value it
    holds, the instant, and the object the audit copy is allocated as.
   */
  datatype Request = Request(et: EntityType, m: Mutation, e: Entity, now: Clock.DateTime, o: EntityObject, ao: EntityObject)

  /** A unit of work after its calls: the store, the queued undos, and the entity objects' current values. */
  datatype Session = Session(state: StoreState, queue: seq<Action>, values: map<EntityObject, Entity>)

  /** The entity objects a call's undos can refer to. */
  function Objects(q: Request): set<EntityObject>
  {
    if q.et.isAuditTracked then {q.o, q.ao} else {q.o}
  }

  /** The rows a call can write: the entity's own and, for an audit-tracked type, its audit row. */
  function Rows(variant: Variant, q: Request): set<Location>
  {
    {(q.et.name, KeyOf(q.e))} +
    if q.et.isAuditTracked
    then {(AuditTableName(q.et.name), (AuditPartitionKey(q.e.partitionKey, q.e.rowKey), AuditRowKeyFor(variant, q.now)))}
    else {}
  }

  function ObjectsOf(reqs: seq<Request>): set<EntityObject>
    decreases |reqs|
  {
    if reqs == [] then {} else Objects(reqs[0]) + ObjectsOf(reqs[1..])
  }

  function RowsOf(variant: Variant, reqs: seq<Request>): set<Location>
    decreases |reqs|
  {
    if reqs == [] then {} else Rows(variant, reqs[0]) + RowsOf(variant, reqs[1..])
  }

  /**
    No call shares a row or an entity object with a later call, and the audit
    copy of a call is an object of its own.
   */
  ghost predicate Independent(variant: Variant, reqs: seq<Request>)
    decreases |reqs|
  {
    reqs != [] ==>
      && (reqs[0].et.isAuditTracked ==> reqs[0].o != reqs[0].ao)
      && Rows(variant, reqs[0]) !! RowsOf(variant, reqs[1..])
      && Objects(reqs[0]) !! ObjectsOf(reqs[1..])
      && Independent(variant, reqs[1..])
  }

  /**
    The unit of work after the calls `reqs`, made in order on the store `s`:
    each call's undos join the end of the queue, and an entity object holds
    the value the last call through it left.
   */
  function Run(variant: Variant, s: StoreState, reqs: seq<Request>): (r: Session)
    ensures r.state.tables.Keys == s.tables.Keys
    ensures r.values.Keys <= ObjectsOf(reqs)
    ensures Covers(r.values, r.queue)
    decreases |reqs|
  {
    if reqs == [] then Session(s, [], map[])
    else
      var q := reqs[0];
      var eff := MutationEffect(variant, q.et, q.m, s, q.e, q.now, q.o, q.ao);
      var rest := Run(variant, eff.state, reqs[1..]);
      CoversJoin(EffectValues(eff, q.o, q.ao), eff.enqueued, rest.values, rest.queue);
      Session(rest.state, eff.enqueued + rest.queue, EffectValues(eff, q.o, q.ao) + rest.values)
  }

  lemma CoversJoin(v1: map<EntityObject, Entity>, q1: seq<Action>, v2: map<EntityObject, Entity>, q2: seq<Action>)
    requires Covers(v1, q1) && Covers(v2, q2)
    ensures Covers(v1 + v2, q1 + q2)
  {
    forall i | 0 <= i < |q1 + q2| ensures (q1 + q2)[i].entity in v1 + v2 {
      if i < |q1| {
        assert (q1 + q2)[i] == q1[i];
      } else {
        assert (q1 + q2)[i] == q2[i - |q1|];
      }
    }
  }

  // ---------------------------------------------------------------------------
  // Undos that each put back a row of their own
  // ---------------------------------------------------------------------------

  /** The row an undo acts on: its entity object's key, in the action's table. */
  function Target(values: map<EntityObject, Entity>, a: Action): Location
    requires a.entity in values
  {
    (a.table, KeyOf(values[a.entity]))
  }

  ghost function Targets(values: map<EntityObject, Entity>, q: seq<Action>): set<Location>
    requires Covers(values, q)
  {
    set i | 0 <= i < |q| :: Target(values, q[i])
  }

  /** The row `(t, k)` of `u` is the row of `s`, ETags aside, or is absent from both. */
  ghost predicate Restored(s: StoreState, u: StoreState, t: string, k: Key)
    requires t in s.tables && t in u.tables
  {
    && (k in u.tables[t] <==> k in s.tables[t])
    && (k in s.tables[t] ==> Strip(u.tables[t][k]) == Strip(s.tables[t][k]))
  }

  /** The row `(t, k)` is the same in `a` and `b`, ETag included, or is absent from both. */
  ghost predicate SameRow(a: StoreState, b: StoreState, t: string, k: Key)
    requires t in a.tables && t in b.tables
  {
    && (k in a.tables[t] <==> k in b.tables[t])
    && (k in a.tables[t] ==> a.tables[t][k] == b.tables[t][k])
  }

  /**
    Run on `u`, the undo `a` will put its row back as `s` had it: the row is
    there, under the ETag its entity object holds, and it was either absent
    from `s` (an undo-insert) or is what the snapshot holds (an undo-replace).
   */
  ghost predicate Pending(s: StoreState, u: StoreState, values: map<EntityObject, Entity>, a: Action)
  {
    && a.entity in values && a.table in s.tables && a.table in u.tables
    && var v := values[a.entity];
       var k := KeyOf(v);
       && k in u.tables[a.table] && v.etag != NoETag && u.tables[a.table][k].etag == v.etag
       && match a
          case UndoInsert(_, _) => k !in s.tables[a.table]
          case UndoReplace(_, snapshot, _) =>
            snapshot.Some? && KeyOf(snapshot.value) == k && k in s.tables[a.table]
            && Strip(snapshot.value) == Strip(s.tables[a.table][k])
          case UndoDelete(_, _) => false
  }

  /**
    Replaying `q` on `u` will give back the rows of `s`: every undo is pending
    and acts on a row no other undo touches, and every other row already is as
    `s` has it.
   */
  ghost predicate Plan(s: StoreState, u: StoreState, values: map<EntityObject, Entity>, q: seq<Action>)
  {
    && Covers(values, q)
    && u.tables.Keys == s.tables.Keys
    && (forall i, j | 0 <= i < j < |q| :: Target(values, q[i]) != Target(values, q[j]))
    && (forall i | 0 <= i < |q| :: Pending(s, u, values, q[i]))
    && (forall t, k | t in s.tables && (t, k) !in Targets(values, q) :: Restored(s, u, t, k))
  }

  /** A pending undo runs without throwing, puts its row back, and leaves every other row alone. */
  lemma UndoRestoresRow(s: StoreState, u: StoreState, values: map<EntityObject, Entity>, a: Action)
    requires u.tables.Keys == s.tables.Keys && Pending(s, u, values, a)
    ensures var r := Step(u, values, a);
            && r.outcome == Pass && r.values == values && r.state.tables.Keys == u.tables.Keys
            && Restored(s, r.state, a.table, KeyOf(values[a.entity]))
            && forall t, k | t in u.tables && (t, k) != Target(values, a) :: SameRow(r.state, u, t, k)
  {
    var v := values[a.entity];
    var T := a.table;
    var r := Step(u, values, a);
    match a
    case UndoInsert(_, _) =>
      assert ETagMatches(u, T, v);
      assert r.state.tables == u.tables[T := u.tables[T] - {KeyOf(v)}];
    case UndoReplace(_, snapshot, _) =>
      var back := Reconcile(snapshot.value, v);
      assert ETagMatches(u, T, back);
      assert r.state == Put(u, T, back);
  }

  /** A pending undo stays pending while its own row does not change. */
  lemma PendingFrame(s: StoreState, u: StoreState, w: StoreState, values: map<EntityObject, Entity>, a: Action)
    requires Pending(s, u, values, a) && a.table in w.tables
    requires SameRow(w, u, a.table, KeyOf(values[a.entity]))
    ensures Pending(s, w, values, a)
  {
  }

  /** After the head of a planned queue has run, the rest of the queue is planned. */
  lemma PlanAfterStep(s: StoreState, u: StoreState, w: StoreState, values: map<EntityObject, Entity>, q: seq<Action>)
    requires Plan(s, u, values, q) && q != []
    requires w.tables.Keys == u.tables.Keys
    requires Restored(s, w, q[0].table, KeyOf(values[q[0].entity]))
    requires forall t, k | t in u.tables && (t, k) != Target(values, q[0]) :: SameRow(w, u, t, k)
    ensures Plan(s, w, values, q[1..])
  {
    var rest := q[1..];
    forall i | 0 <= i < |rest| ensures Pending(s, w, values, rest[i]) {
      assert rest[i] == q[i + 1];
      assert Target(values, q[0]) != Target(values, q[i + 1]);
      PendingFrame(s, u, w, values, rest[i]);
    }
    forall t, k | t in s.tables && (t, k) !in Targets(values, rest) ensures Restored(s, w, t, k) {
      if (t, k) != Target(values, q[0]) {
        assert SameRow(w, u, t, k);
      }
    }
    forall i, j | 0 <= i < j < |rest| ensures Target(values, rest[i]) != Target(values, rest[j]) {
      assert rest[i] == q[i + 1] && rest[j] == q[j + 1];
    }
  }

  /**
    Replaying a planned queue runs every undo without a throw, and the store
    ends with the rows of `s`, ETags aside.
   */
  lemma {:induction false} ReplayRestores(s: StoreState, u: StoreState, values: map<EntityObject, Entity>, q: seq<Action>)
    requires Plan(s, u, values, q)
    ensures var r := Replay(u, values, q);
            r.outcome == Pass && r.ran == |q| && SameContents(r.state, s)
    decreases |q|
  {
    if q == [] {
      forall t | t in s.tables ensures u.tables[t].Keys == s.tables[t].Keys {
        assert forall k :: k in u.tables[t] <==> k in s.tables[t] by {
          forall k ensures k in u.tables[t] <==> k in s.tables[t] {
            assert Restored(s, u, t, k);
          }
        }
      }
      forall t, k | t in u.tables && k in u.tables[t] ensures Strip(u.tables[t][k]) == Strip(s.tables[t][k]) {
        assert Restored(s, u, t, k);
      }
    } else {
      var a := q[0];
      assert Pending(s, u, values, q[0]);
      UndoRestoresRow(s, u, values, a);
      var first := Step(u, values, a);
      assert Covers(values, q[1..]) by {
        forall i | 0 <= i < |q[1..]| ensures q[1..][i].entity in values {
          assert q[1..][i] == q[i + 1];
        }
      }
      ReplayCons(u, values, a, q[1..]);
      assert [a] + q[1..] == q;
      PlanAfterStep(s, u, first.state, values, q);
      ReplayRestores(s, first.state, values, q[1..]);
    }
  }

  // ---------------------------------------------------------------------------
  // One production call, and calls in sequence
  // ---------------------------------------------------------------------------

  /** A put changes the row under the entity's key in its table and no other row. */
  lemma PutFrame(s: StoreState, table: string, e: Entity)
    requires table in s.tables
    ensures var w := Put(s, table, e);
            && w.tables.Keys == s.tables.Keys
            && forall t, k | t in s.tables && (t, k) != (table, KeyOf(e)) :: SameRow(w, s, t, k)
  {
  }

  /** A single pending undo whose row is the only one changed since `s` makes a plan. */
  lemma SinglePlan(s: StoreState, w: StoreState, values: map<EntityObject, Entity>, a: Action)
    requires Pending(s, w, values, a) && w.tables.Keys == s.tables.Keys
    requires forall t, k | t in s.tables && (t, k) != Target(values, a) :: SameRow(w, s, t, k)
    ensures Plan(s, w, values, [a]) && Targets(values, [a]) == {Target(values, a)}
  {
    assert [a][0] == a;
  }

  /** Nothing queued and nothing changed, on a valid store, is planned within no rows. */
  lemma EmptyPlan(s: StoreState, values: map<EntityObject, Entity>)
    requires Valid(s)
    ensures Planned(s, Session(s, [], values), {})
  {
  }

  /**
    A successful primary insert or replace, on a valid store: its undo, with
    the entity object holding the written value, is planned within the row it wrote.
   */
  lemma PrimaryPlan(s: StoreState, table: string, op: OperationType, e: Entity, o: EntityObject)
    requires Valid(s) && (op.Insert? || op.Replace?) && WriteRow(op, s, table, e).Success?
    ensures Planned(s, Session(Put(s, table, e), [RollbackFor(op, table, Get(s, table, e.partitionKey, e.rowKey), o).value],
                               map[o := e.(etag := Tag(s.version))]),
                    {(table, KeyOf(e))})
  {
    var values := map[o := e.(etag := Tag(s.version))];
    var undo := RollbackFor(op, table, Get(s, table, e.partitionKey, e.rowKey), o).value;
    var w := Put(s, table, e);
    if op.Replace? {
      assert KeyOf(e) in s.tables[table];
      assert KeyOf(s.tables[table][KeyOf(e)]) == KeyOf(e);
    }
    assert Pending(s, w, values, undo);
    PutFrame(s, table, e);
    SinglePlan(s, w, values, undo);
    PutValid(s, table, e);
  }

  /**
    A successful audit insert, on a valid store: its undo, with the audit
    object holding the stored copy, is planned within the audit row.
   */
  lemma AuditPlan(s: StoreState, audit: string, a: Entity, ao: EntityObject)
    requires Valid(s) && TableStorage.Insert(s, audit, a).Success?
    ensures Planned(s, Session(Put(s, audit, a), [UndoInsert(audit, ao)], map[ao := a.(etag := Tag(s.version))]),
                    {(audit, KeyOf(a))})
  {
    var values := map[ao := a.(etag := Tag(s.version))];
    var w := Put(s, audit, a);
    assert Pending(s, w, values, UndoInsert(audit, ao));
    PutFrame(s, audit, a);
    SinglePlan(s, w, values, UndoInsert(audit, ao));
    PutValid(s, audit, a);
  }

  /**
    The unit of work `r`, begun on the store `s`, can write only the rows
    `rows`: its queue is a plan that puts back the rows of `s`, its undos act
    on rows among `rows`, the store is valid, and no row outside `rows` changed.
   */
  ghost predicate Planned(s: StoreState, r: Session, rows: set<Location>)
  {
    && Plan(s, r.state, r.values, r.queue)
    && Targets(r.values, r.queue) <= rows
    && Valid(r.state)
    && forall t, k | t in s.tables && (t, k) !in rows :: SameRow(r.state, s, t, k)
  }

  /** What one call `q` left, `eff`, on the store `s`, is planned within the rows the call can write. */
  ghost predicate CallPlanned(s: StoreState, q: Request, eff: Effect)
  {
    && Planned(s, Session(eff.state, eff.enqueued, EffectValues(eff, q.o, q.ao)), Rows(Production, q))
    && EffectValues(eff, q.o, q.ao).Keys <= Objects(q)
  }

  /** A call whose primary write succeeded and queued only its own undo. */
  lemma PrimaryCallPlanned(et: EntityType, op: OperationType, s: StoreState, e: Entity, now: Clock.DateTime,
                           o: EntityObject, ao: EntityObject, eff: Effect)
    requires Valid(s) && (op.Insert? || op.Replace?) && WriteRow(op, s, et.name, e).Success?
    requires eff.state == Put(s, et.name, e) && eff.written == e.(etag := Tag(s.version))
    requires eff.enqueued == [RollbackFor(op, et.name, Get(s, et.name, e.partitionKey, e.rowKey), o).value]
    requires eff.audit.Some? ==> et.isAuditTracked && o != ao
    ensures CallPlanned(s, Request(et, Add, e, now, o, ao), eff)
  {
    var rows := Rows(Production, Request(et, Add, e, now, o, ao));
    if eff.audit.Some? {
      PrimaryKeepsAuditObjectPlan(s, et.name, op, e, o, ao, eff.audit.value);
      PlannedWithin(s, Session(eff.state, eff.enqueued, EffectValues(eff, o, ao)), {(et.name, KeyOf(e))}, rows);
    } else {
      PrimaryPlan(s, et.name, op, e, o);
      PlannedWithin(s, Session(eff.state, eff.enqueued, map[o := eff.written]), {(et.name, KeyOf(e))}, rows);
    }
  }

  /**
    A successful primary write whose audit insert threw: only the primary undo
    is queued, and the audit object, which no undo refers to, changes nothing.
   */
  lemma PrimaryKeepsAuditObjectPlan(s: StoreState, table: string, op: OperationType, e: Entity, o: EntityObject,
                                    ao: EntityObject, copy: Entity)
    requires Valid(s) && (op.Insert? || op.Replace?) && WriteRow(op, s, table, e).Success? && o != ao
    ensures Planned(s, Session(Put(s, table, e), [RollbackFor(op, table, Get(s, table, e.partitionKey, e.rowKey), o).value],
                               map[o := e.(etag := Tag(s.version)), ao := copy]),
                    {(table, KeyOf(e))})
  {
    var s1 := Put(s, table, e);
    var q1 := [RollbackFor(op, table, Get(s, table, e.partitionKey, e.rowKey), o).value];
    PrimaryPlan(s, table, op, e, o);
    PutValid(s, table, e);
    EmptyPlan(s1, map[ao := copy]);
    RunStep(s, Session(s1, q1, map[o := e.(etag := Tag(s.version))]), {(table, KeyOf(e))}, {o},
            Session(s1, [], map[ao := copy]), {}, {ao});
    assert q1 + [] == q1;
    UnionOfTwo(o, e.(etag := Tag(s.version)), ao, copy);
  }

  /** A unit of work planned within some rows is planned within any rows that include them. */
  lemma PlannedWithin(s: StoreState, r: Session, rows: set<Location>, more: set<Location>)
    requires Planned(s, r, rows) && rows <= more
    ensures Planned(s, r, more)
  {
  }

  lemma UnionEmpty(values: map<EntityObject, Entity>)
    ensures values + map[] == values
  {
  }

  lemma UnionOverride(o: EntityObject, x: Entity, y: Entity)
    ensures map[o := x] + map[o := y] == map[o := y]
  {
  }

  lemma UnionOfTwo(o: EntityObject, x: Entity, ao: EntityObject, y: Entity)
    ensures map[o := x] + map[ao := y] == map[o := x, ao := y]
  {
  }

  /**
    A successful primary write followed by a successful insert into another
    table, through another object: both undos, primary first, are planned
    within the two rows.
   */
  lemma PrimaryThenAuditPlan(s: StoreState, table: string, op: OperationType, e: Entity, o: EntityObject,
                             audit: string, a: Entity, ao: EntityObject)
    requires Valid(s) && (op.Insert? || op.Replace?) && WriteRow(op, s, table, e).Success?
    requires audit != table && o != ao && TableStorage.Insert(Put(s, table, e), audit, a).Success?
    ensures var s1 := Put(s, table, e);
            Planned(s, Session(Put(s1, audit, a),
                               [RollbackFor(op, table, Get(s, table, e.partitionKey, e.rowKey), o).value, UndoInsert(audit, ao)],
                               map[o := e.(etag := Tag(s.version)), ao := a.(etag := Tag(s1.version))]),
                    {(table, KeyOf(e)), (audit, KeyOf(a))})
  {
    var s1 := Put(s, table, e);
    var first := RollbackFor(op, table, Get(s, table, e.partitionKey, e.rowKey), o).value;
    var v1 := map[o := e.(etag := Tag(s.version))];
    var v2 := map[ao := a.(etag := Tag(s1.version))];
    PrimaryPlan(s, table, op, e, o);
    AuditPlan(s1, audit, a, ao);
    RunStep(s, Session(s1, [first], v1), {(table, KeyOf(e))}, {o}, Session(Put(s1, audit, a), [UndoInsert(audit, ao)], v2), {(audit, KeyOf(a))}, {ao});
    assert [first] + [UndoInsert(audit, ao)] == [first, UndoInsert(audit, ao)];
    UnionOfTwo(o, e.(etag := Tag(s.version)), ao, a.(etag := Tag(s1.version)));
  }

  /** A call of an audit-tracked type whose primary write and audit insert both succeeded. */
  lemma AuditedCallPlanned(et: EntityType, op: OperationType, s: StoreState, e: Entity, now: Clock.DateTime,
                           o: EntityObject, ao: EntityObject, eff: Effect)
    requires Valid(s) && (op.Insert? || op.Replace?) && WriteRow(op, s, et.name, e).Success?
    requires et.isAuditTracked && o != ao
    requires var s1 := Put(s, et.name, e);
             var a := AuditCopy(e.(etag := Tag(s.version)), AuditRowKeyFor(Production, now));
             && TableStorage.Insert(s1, AuditTableName(et.name), a).Success?
             && eff.state == Put(s1, AuditTableName(et.name), a)
             && eff.written == e.(etag := Tag(s.version))
             && eff.audit == Some(a.(etag := Tag(s1.version)))
             && eff.enqueued == [RollbackFor(op, et.name, Get(s, et.name, e.partitionKey, e.rowKey), o).value,
                                 UndoInsert(AuditTableName(et.name), ao)]
    ensures CallPlanned(s, Request(et, Add, e, now, o, ao), eff)
  {
    var a := AuditCopy(eff.written, AuditRowKeyFor(Production, now));
    PrimaryThenAuditPlan(s, et.name, op, e, o, AuditTableName(et.name), a, ao);
    assert EffectValues(eff, o, ao) == map[o := eff.written, ao := eff.audit.value];
    assert {(et.name, KeyOf(e)), (AuditTableName(et.name), KeyOf(a))} == Rows(Production, Request(et, Add, e, now, o, ao));
  }

  /** One production call on a valid store leaves a planned call. */
  lemma EffectPlan(s: StoreState, q: Request)
    requires Valid(s) && (q.et.isAuditTracked ==> q.o != q.ao)
    ensures CallPlanned(s, q, MutationEffect(Production, q.et, q.m, s, q.e, q.now, q.o, q.ao))
  {
    var et := q.et;
    var op := OperationFor(Production, q.m);
    var e := Stamp(et, q.m, q.e, q.now);
    var eff := ExecuteEffect(Production, et, op, s, e, q.now, q.o, q.ao);
    assert Rows(Production, Request(et, Add, e, q.now, q.o, q.ao)) == Rows(Production, q);
    var T := et.name;
    if WriteRow(op, s, T, e).Failure? {
      assert eff.enqueued == [] && eff.state == s;
      EmptyPlan(s, EffectValues(eff, q.o, q.ao));
      PlannedWithin(s, Session(s, [], EffectValues(eff, q.o, q.ao)), {}, Rows(Production, q));
    } else if et.isAuditTracked && TableStorage.Insert(Put(s, T, e), AuditTableName(T), AuditCopy(eff.written, AuditRowKeyFor(Production, q.now))).Success? {
      AuditedCallPlanned(et, op, s, e, q.now, q.o, q.ao, eff);
    } else {
      PrimaryCallPlanned(et, op, s, e, q.now, q.o, q.ao, eff);
    }
  }

  /**
    The plans of two calls made one after the other, on disjoint rows through
    disjoint objects, make a plan for their queues joined: the later call left
    the earlier call's rows as they were.
   */
  lemma PlanConcat(s: StoreState, mid: StoreState, w: StoreState,
                   v1: map<EntityObject, Entity>, q1: seq<Action>, v2: map<EntityObject, Entity>, q2: seq<Action>)
    requires Plan(s, mid, v1, q1) && Plan(mid, w, v2, q2)
    requires v1.Keys !! v2.Keys && Targets(v1, q1) !! Targets(v2, q2)
    requires forall t, k | t in mid.tables && (t, k) in Targets(v1, q1) :: SameRow(w, mid, t, k)
    ensures Covers(v1 + v2, q1 + q2)
    ensures Plan(s, w, v1 + v2, q1 + q2)
    ensures Targets(v1 + v2, q1 + q2) == Targets(v1, q1) + Targets(v2, q2)
  {
    var values := v1 + v2;
    var q := q1 + q2;
    CoversJoin(v1, q1, v2, q2);
    forall i | 0 <= i < |q|
      ensures Target(values, q[i]) == if i < |q1| then Target(v1, q1[i]) else Target(v2, q2[i - |q1|])
    {
      if i < |q1| { assert q[i] == q1[i]; } else { assert q[i] == q2[i - |q1|]; }
    }
    forall i | 0 <= i < |q| ensures Pending(s, w, values, q[i]) {
      if i < |q1| {
        assert q[i] == q1[i];
        assert Pending(s, mid, v1, q1[i]);
        assert Target(v1, q1[i]) in Targets(v1, q1);
        PendingFrame(s, mid, w, v1, q1[i]);
      } else {
        var b := q2[i - |q1|];
        assert q[i] == b;
        assert Pending(mid, w, v2, b);
        assert Target(v2, b) in Targets(v2, q2);
        assert Restored(s, mid, b.table, KeyOf(v2[b.entity]));
      }
    }
    assert Targets(values, q) == Targets(v1, q1) + Targets(v2, q2) by {
      forall l | l in Targets(v1, q1) ensures l in Targets(values, q) {
        var i :| 0 <= i < |q1| && Target(v1, q1[i]) == l;
        assert Target(values, q[i]) == l;
      }
      forall l | l in Targets(v2, q2) ensures l in Targets(values, q) {
        var i :| 0 <= i < |q2| && Target(v2, q2[i]) == l;
        assert Target(values, q[i + |q1|]) == l;
      }
    }
  }

  /**
    A planned call followed by a planned unit of work on disjoint rows,
    through disjoint objects, is planned as a whole.
   */
  lemma RunStep(s: StoreState, c: Session, callRows: set<Location>, callObjects: set<EntityObject>,
                rest: Session, restRows: set<Location>, restObjects: set<EntityObject>)
    requires Planned(s, c, callRows) && c.values.Keys <= callObjects
    requires Planned(c.state, rest, restRows) && rest.values.Keys <= restObjects
    requires callRows !! restRows && callObjects !! restObjects
    ensures Planned(s, Session(rest.state, c.queue + rest.queue, c.values + rest.values), callRows + restRows)
  {
    PlanConcat(s, c.state, rest.state, c.values, c.queue, rest.values, rest.queue);
  }

  /**
    Production calls that share no row and no object, made on a valid store,
    are planned within the rows they can write.
   */
  lemma {:induction false} RunPlan(s: StoreState, reqs: seq<Request>)
    requires Valid(s) && Independent(Production, reqs)
    ensures Planned(s, Run(Production, s, reqs), RowsOf(Production, reqs))
    decreases |reqs|
  {
    if reqs == [] {
      EmptyPlan(s, map[]);
      return;
    }
    var q := reqs[0];
    var eff := MutationEffect(Production, q.et, q.m, s, q.e, q.now, q.o, q.ao);
    EffectPlan(s, q);
    RunPlan(eff.state, reqs[1..]);
    RunStep(s, Session(eff.state, eff.enqueued, EffectValues(eff, q.o, q.ao)), Rows(Production, q), Objects(q),
            Run(Production, eff.state, reqs[1..]), RowsOf(Production, reqs[1..]), ObjectsOf(reqs[1..]));
  }

  /**
    In the production copy, rolling back a unit of work whose calls wrote
    distinct rows through distinct entity objects runs every queued undo
    without a throw, first to last, and leaves the store with the rows it had
    before the first call, ETags aside.
   */
  lemma ProductionSessionRollbackRestores(s: StoreState, reqs: seq<Request>)
    requires Valid(s) && Independent(Production, reqs)
    ensures var r := Run(Production, s, reqs);
            var back := Replay(r.state, r.values, r.queue);
            back.outcome == Pass && back.ran == |r.queue| && SameContents(back.state, s)
  {
    var r := Run(Production, s, reqs);
    RunPlan(s, reqs);
    ReplayRestores(s, r.state, r.values, r.queue);
  }

  /** An add of a plain type on a free key: one undo-insert, and the row holds the object's new ETag. */
  lemma PlainAddEffect(et: EntityType, s: StoreState, e: Entity, now: Clock.DateTime, o: EntityObject, ao: EntityObject)
    requires !et.isAuditTracked && et.name in s.tables && KeyOf(e) !in s.tables[et.name]
    ensures var eff := MutationEffect(Production, et, Add, s, e, now, o, ao);
            && eff.enqueued == [UndoInsert(et.name, o)] && eff.audit.None?
            && KeyOf(eff.written) == KeyOf(e) && ETagMatches(eff.state, et.name, eff.written)
  {
    var e1 := Stamp(et, Add, e, now);
    assert WriteRow(Insert, s, et.name, e1).Success?;
  }

  /** An update of a plain type under a matching ETag: one undo-replace holding the row it overwrote. */
  lemma PlainUpdateEffect(et: EntityType, s: StoreState, e: Entity, now: Clock.DateTime, o: EntityObject, ao: EntityObject)
    requires !et.isAuditTracked && ETagMatches(s, et.name, e)
    ensures var eff := MutationEffect(Production, et, Update, s, e, now, o, ao);
            && eff.enqueued == [UndoReplace(et.name, Some(s.tables[et.name][KeyOf(e)]), o)] && eff.audit.None?
            && KeyOf(eff.written) == KeyOf(e) && ETagMatches(eff.state, et.name, eff.written)
  {
    var e1 := Stamp(et, Update, e, now);
    assert ETagMatches(s, et.name, e1);
    assert WriteRow(Replace, s, et.name, e1).Success?;
  }

  /**
    An undo-insert run before an undo-replace of the same row through the same
    object: the first deletes the row, and the second finds nothing to replace.
   */
  lemma UndoInsertBeforeReplaceFails(u: StoreState, table: string, v: Entity, snapshot: Entity, o: EntityObject)
    requires ETagMatches(u, table, v) && KeyOf(snapshot) == KeyOf(v)
    ensures var values := map[o := v];
            var back := Replay(u, values, [UndoInsert(table, o), UndoReplace(table, Some(snapshot), o)]);
            && back.outcome == Fail(StoreFailure(ResourceNotFound)) && back.ran == 2
            && KeyOf(v) !in back.state.tables[table]
  {
    ReplayTwo(u, map[o := v], UndoInsert(table, o), UndoReplace(table, Some(snapshot), o));
  }

  /** A call that begins a unit of work: its undos come first, and the rest run on the store it left. */
  lemma RunFirst(variant: Variant, s: StoreState, q: Request, rest: seq<Request>)
    ensures var eff := MutationEffect(variant, q.et, q.m, s, q.e, q.now, q.o, q.ao);
            var r := Run(variant, eff.state, rest);
            Run(variant, s, [q] + rest) == Session(r.state, eff.enqueued + r.queue, EffectValues(eff, q.o, q.ao) + r.values)
  {
    assert ([q] + rest)[0] == q && ([q] + rest)[1..] == rest;
  }

  /** A unit of work of one call holds that call's undos and values. */
  lemma RunSingle(variant: Variant, s: StoreState, q: Request)
    ensures var eff := MutationEffect(variant, q.et, q.m, s, q.e, q.now, q.o, q.ao);
            Run(variant, s, [q]) == Session(eff.state, eff.enqueued, EffectValues(eff, q.o, q.ao))
  {
    var eff := MutationEffect(variant, q.et, q.m, s, q.e, q.now, q.o, q.ao);
    var values := EffectValues(eff, q.o, q.ao);
    RunFirst(variant, s, q, []);
    assert [q] + [] == [q];
    assert Run(variant, eff.state, []) == Session(eff.state, [], map[]);
    assert eff.enqueued + [] == eff.enqueued;
    UnionEmpty(values);
  }

  /** Two calls in a row: the second runs on the store the first left, and its undos queue behind the first's. */
  lemma RunTwo(variant: Variant, s: StoreState, q1: Request, q2: Request)
    ensures var eff1 := MutationEffect(variant, q1.et, q1.m, s, q1.e, q1.now, q1.o, q1.ao);
            var eff2 := MutationEffect(variant, q2.et, q2.m, eff1.state, q2.e, q2.now, q2.o, q2.ao);
            Run(variant, s, [q1, q2]) ==
              Session(eff2.state, eff1.enqueued + eff2.enqueued, EffectValues(eff1, q1.o, q1.ao) + EffectValues(eff2, q2.o, q2.ao))
  {
    var eff1 := MutationEffect(variant, q1.et, q1.m, s, q1.e, q1.now, q1.o, q1.ao);
    RunFirst(variant, s, q1, [q2]);
    RunSingle(variant, eff1.state, q2);
    assert [q1] + [q2] == [q1, q2];
  }

  /**
    Adding a record and then updating it through the same object in one unit
    of work: the rollback deletes the row first, with the update's ETag, and
    the undo of the update then finds no row to put back, so it throws.
   */
  lemma ProductionAddThenUpdateRollbackFails(et: EntityType, s: StoreState, e: Entity, now1: Clock.DateTime,
                                             now2: Clock.DateTime, properties: map<string, Property>,
                                             o: EntityObject, ao1: EntityObject, ao2: EntityObject)
    requires !et.isAuditTracked && et.name in s.tables && KeyOf(e) !in s.tables[et.name]
    ensures var added := MutationEffect(Production, et, Add, s, e, now1, o, ao1).written;
            var reqs := [Request(et, Add, e, now1, o, ao1), Request(et, Update, added.(properties := properties), now2, o, ao2)];
            var r := Run(Production, s, reqs);
            var back := Replay(r.state, r.values, r.queue);
            && |r.queue| == 2
            && back.outcome == Fail(StoreFailure(ResourceNotFound)) && back.ran == 2
            && Get(back.state, et.name, e.partitionKey, e.rowKey) == None
  {
    var T := et.name;
    var q1 := Request(et, Add, e, now1, o, ao1);
    var eff1 := MutationEffect(Production, et, Add, s, e, now1, o, ao1);
    PlainAddEffect(et, s, e, now1, o, ao1);
    var q2 := Request(et, Update, eff1.written.(properties := properties), now2, o, ao2);
    var eff2 := MutationEffect(Production, et, Update, eff1.state, q2.e, now2, o, ao2);
    PlainUpdateEffect(et, eff1.state, q2.e, now2, o, ao2);
    RunTwo(Production, s, q1, q2);
    var snapshot := eff1.state.tables[T][KeyOf(e)];
    UnionOverride(o, eff1.written, eff2.written);
    assert [UndoInsert(T, o)] + [UndoReplace(T, Some(snapshot), o)] == [UndoInsert(T, o), UndoReplace(T, Some(snapshot), o)];
    UndoInsertBeforeReplaceFails(eff2.state, T, eff2.written, snapshot, o);
  }
}

/**
  The compensation log, as values: the compensating actions a mutation
  records, what running one does to the store and to the entity objects it
  refers to, what replaying a queue of them in enqueue order does, and what a
  repository mutation does to the store and to the queue.  The classes in
  module Engine are proved against these definitions.
 */
module Compensation {
  import opened Wrappers
  import opened Clock
  import opened Entities
  import opened TableStorage

  /** The two copies of the engine: the production copy and the earlier prototype. */
  datatype Variant = Production | Prototype

  /** `TableOperationType`. */
  datatype OperationType = Insert | Delete | Replace | Merge | InsertOrReplace | InsertOrMerge | Retrieve

  /** What a call may throw. */
  datatype Error =
    | StoreFailure(cause: StoreError)   // a StorageException from the table client
    | InvalidOperation                  // an operation kind with no compensation
    | MissingMethod                     // Activator.CreateInstance on an interface type
    | TypeMismatch                      // the cache holds another type's repository under this name

  /**
    A compensating action: the undo of one completed write against `table`.
    It keeps a reference to the entity object of the write and reads it when it runs.
   */
  datatype Action =
    | UndoInsert(table: string, entity: EntityObject)
    | UndoReplace(table: string, snapshot: Option<Entity>, entity: EntityObject)
    | UndoDelete(table: string, entity: EntityObject)

  /**
    `CreateRollbackAction`: the undo for a write of kind `op`; `snapshot` is the
    row read from `table` before the write, used only by a Replace.
   */
  function RollbackFor(op: OperationType, table: string, snapshot: Option<Entity>, entity: EntityObject): (r: Result<Action, Error>)
    ensures r.Success? <==> op.Insert? || op.Delete? || op.Replace?
    ensures r.Failure? ==> r.error == InvalidOperation
    ensures r.Success? ==> r.value.table == table && r.value.entity == entity
    ensures op.Insert? ==> r.value.UndoInsert?
    ensures op.Delete? ==> r.value.UndoDelete?
    ensures op.Replace? ==> r.value.UndoReplace? && r.value.snapshot == snapshot
  {
    match op
    case Insert => Success(UndoInsert(table, entity))
    case Delete => Success(UndoDelete(table, entity))
    case Replace => Success(UndoReplace(table, snapshot, entity))
    case _ => Failure(InvalidOperation)
  }

  /**
    The ETag reconciliation of an undo-replace: the written entity's current
    ETag, when it has one, replaces the snapshot's stale one.
   */
  function Reconcile(snapshot: Entity, written: Entity): (r: Entity)
    ensures Strip(r) == Strip(snapshot)
    ensures r.etag == if written.etag != NoETag then written.etag else snapshot.etag
  {
    if written.etag != NoETag then snapshot.(etag := written.etag) else snapshot
  }

  /** The prototype's undo-delete: the flag goes back to false on a `BaseEntity`. */
  function Undeleted(e: Entity, isBaseEntity: bool): (r: Entity)
    ensures r.isDeleted == (e.isDeleted && !isBaseEntity)
    ensures isBaseEntity ==> r == e.(isDeleted := false)
  {
    if isBaseEntity then e.(isDeleted := false) else e
  }

  /** The store, the entity objects' values, the outcome, and how many actions were invoked. */
  datatype Replayed = Replayed(state: StoreState, values: map<EntityObject, Entity>, outcome: Outcome<Error>, ran: nat)

  /** Running one action against `s`, with `values` giving each entity object's current value. */
  function Step(s: StoreState, values: map<EntityObject, Entity>, a: Action): (r: Replayed)
    requires a.entity in values
    ensures r.values.Keys == values.Keys && r.ran == 1 && r.state.tables.Keys == s.tables.Keys
    ensures forall o | o in values && o != a.entity :: r.values[o] == values[o]
    ensures r.outcome.Fail? ==> r.state == s
  {
    match a
    case UndoInsert(table, o) =>
      (match TableStorage.Delete(s, table, values[o])
       case Success(s1) => Replayed(s1, values, Pass, 1)
       case Failure(e) => Replayed(s, values, Fail(StoreFailure(e)), 1))
    case UndoReplace(table, snapshot, o) =>
      if snapshot.None? then Replayed(s, values, Pass, 1)
      else
        (match TableStorage.Replace(s, table, Reconcile(snapshot.value, values[o]))
         case Success(s1) => Replayed(s1, values, Pass, 1)
         case Failure(e) => Replayed(s, values, Fail(StoreFailure(e)), 1))
    case UndoDelete(table, o) =>
      var v := Undeleted(values[o], o.entityType.isBaseEntity);
      match TableStorage.Replace(s, table, v)
      case Success(s1) => Replayed(s1, values[o := v.(etag := Tag(s.version))], Pass, 1)
      case Failure(e) => Replayed(s, values[o := v], Fail(StoreFailure(e)), 1)
  }

  ghost predicate Covers(values: map<EntityObject, Entity>, q: seq<Action>)
  {
    forall i | 0 <= i < |q| :: q[i].entity in values
  }

  /**
    `RollbackTransaction`: run the queued actions in enqueue (FIFO) order;
    the first one that throws ends the replay, and the ones behind it are not run.
   */
  function Replay(s: StoreState, values: map<EntityObject, Entity>, q: seq<Action>): (r: Replayed)
    requires Covers(values, q)
    ensures r.values.Keys == values.Keys && r.state.tables.Keys == s.tables.Keys
    // every action runs when none throws; otherwise the replay stops at the one that threw
    ensures r.outcome.Pass? ==> r.ran == |q|
    ensures r.outcome.Fail? ==> 1 <= r.ran <= |q|
    ensures q != [] && Step(s, values, q[0]).outcome.Fail? ==> r == Step(s, values, q[0])
    decreases |q|
  {
    if q == [] then Replayed(s, values, Pass, 0)
    else
      var first := Step(s, values, q[0]);
      if first.outcome.Fail? then first
      else
        var rest := Replay(first.state, first.values, q[1..]);
        rest.(ran := rest.ran + 1)
  }

  /** One step of the replay: the head action runs, and the rest run only if it did not throw. */
  lemma ReplayCons(s: StoreState, values: map<EntityObject, Entity>, a: Action, q: seq<Action>)
    requires a.entity in values && Covers(values, q)
    ensures Covers(values, [a] + q)
    ensures var first := Step(s, values, a);
            Covers(first.values, q) &&
            Replay(s, values, [a] + q) ==
              if first.outcome.Fail? then first
              else Replay(first.state, first.values, q).(ran := Replay(first.state, first.values, q).ran + 1)
  {
    assert ([a] + q)[1..] == q;
  }

  /** Entry `i + 1` of a replay trace follows from entry `i` by the action `q[i]`. */
  ghost predicate TraceStep(q: seq<Action>, trace: seq<Replayed>, i: nat)
    requires i < |q| && |trace| == |q| + 1
  {
    && q[i].entity in trace[i].values
    && trace[i + 1] == if trace[i].outcome.Fail? then trace[i]
                       else Step(trace[i].state, trace[i].values, q[i]).(ran := i + 1)
  }

  /**
    `trace` is the replay of `q`, action by action: `trace[i]` is what the
    first `i` actions leave.  Each entry is the step of its action from the
    one before, unless an earlier action threw; then the entries stay at the
    one that threw.
   */
  ghost predicate IsTrace(s: StoreState, values: map<EntityObject, Entity>, q: seq<Action>, trace: seq<Replayed>)
  {
    && |trace| == |q| + 1 && trace[0] == Replayed(s, values, Pass, 0)
    && (forall i | 0 <= i <= |q| :: trace[i].values.Keys == values.Keys)
    && (forall i | 0 <= i < |q| :: TraceStep(q, trace, i))
    && (forall i | 0 <= i <= |q| :: trace[i].ran <= i && (trace[i].outcome.Pass? ==> trace[i].ran == i))
    && (forall i | 0 <= i <= |q| && trace[i].outcome.Fail? :: trace[|q|] == trace[i])
  }

  /**
    Running one more action after a replay: it runs only when none before it
    threw, on the state and values they left.
   */
  lemma {:induction false} ReplaySnoc(s: StoreState, values: map<EntityObject, Entity>, q: seq<Action>, a: Action)
    requires Covers(values, q) && a.entity in values
    ensures Covers(values, q + [a])
    ensures var p := Replay(s, values, q);
            a.entity in p.values &&
            Replay(s, values, q + [a]) == if p.outcome.Fail? then p else Step(p.state, p.values, a).(ran := |q| + 1)
    decreases |q|
  {
    assert Covers(values, q + [a]) by {
      forall i | 0 <= i < |q + [a]| ensures (q + [a])[i].entity in values {
        if i < |q| {
          assert (q + [a])[i] == q[i];
        }
      }
    }
    if q == [] {
      assert [] + [a] == [a];
    } else {
      var first := Step(s, values, q[0]);
      assert (q + [a])[1..] == q[1..] + [a];
      if first.outcome.Pass? {
        ReplaySnoc(first.state, first.values, q[1..], a);
      }
    }
  }

  /** Once the first `n` actions have thrown, the actions behind them change nothing. */
  lemma {:induction false} ReplayStops(s: StoreState, values: map<EntityObject, Entity>, q: seq<Action>, n: nat)
    requires Covers(values, q) && n <= |q|
    ensures Covers(values, q[..n])
    ensures Replay(s, values, q[..n]).outcome.Fail? ==> Replay(s, values, q) == Replay(s, values, q[..n])
    decreases n
  {
    if n > 0 {
      var first := Step(s, values, q[0]);
      assert q[..n][1..] == q[1..][..n - 1];
      if first.outcome.Pass? {
        ReplayStops(first.state, first.values, q[1..], n - 1);
      }
    }
  }

  /**
    Every replay has a trace, the replays of its prefixes, and its last entry
    is the whole replay.
   */
  lemma ReplayTrace(s: StoreState, values: map<EntityObject, Entity>, q: seq<Action>) returns (trace: seq<Replayed>)
    requires Covers(values, q)
    ensures IsTrace(s, values, q, trace)
    ensures Replay(s, values, q) == trace[|q|]
  {
    assert forall i | 0 <= i <= |q| :: Covers(values, q[..i]) by {
      forall i | 0 <= i <= |q| ensures Covers(values, q[..i]) {
        ReplayStops(s, values, q, i);
      }
    }
    trace := seq(|q| + 1, i requires 0 <= i <= |q| => Replay(s, values, q[..i]));
    forall i | 0 <= i < |q|
      ensures TraceStep(q, trace, i)
    {
      ReplaySnoc(s, values, q[..i], q[i]);
      assert q[..i] + [q[i]] == q[..i + 1];
    }
    forall i | 0 <= i <= |q| && trace[i].outcome.Fail?
      ensures trace[|q|] == trace[i]
    {
      ReplayStops(s, values, q, i);
      assert q[..|q|] == q;
    }
    assert q[..|q|] == q;
  }

  /**
    The audit row key each copy writes, from the instant of the write:
    production's `yyyy-MM-ddTHH:mm:ss.fff`, the prototype's `yyyy-mm-ddThh:mm:ss:fff`.
   */
  function AuditRowKeyFor(variant: Variant, now: DateTime): (r: string)
    ensures |r| == 23
    ensures variant == Production ==> r == AuditRowKey(now)
    ensures variant == Prototype ==> r == PrototypeAuditRowKey(now)
  {
    match variant
    case Production => AuditRowKey(now)
    case Prototype => PrototypeAuditRowKey(now)
  }

  /**
    Production's audit row key can be read back as the instant; the
    prototype's prints the minute twice, once where the month belongs.
   */
  lemma AuditRowKeyForReads(variant: Variant, now: DateTime)
    ensures var r := AuditRowKeyFor(variant, now);
            && (variant == Production && Clock.Valid(now) ==> ParseAuditRowKey(r) == now)
            && (variant == Prototype ==> r[5..7] == r[14..16] == Dec(now.minute, 2))
  {
    if variant == Production && Clock.Valid(now) {
      AuditRowKeyRoundTrip(now);
    }
  }

  /** The store write a repository operation issues: a Delete is issued as a Replace. */
  function WriteRow(op: OperationType, s: StoreState, table: string, e: Entity): (r: Result<StoreState, StoreError>)
    ensures r.Success? ==> table in s.tables && r.value == Put(s, table, e)
    ensures r.Success? ==>
              r.value.tables.Keys == s.tables.Keys && forall t | t in s.tables && t != table :: r.value.tables[t] == s.tables[t]
  {
    if op.Insert? then TableStorage.Insert(s, table, e) else TableStorage.Replace(s, table, e)
  }

  /**
    What `ExecuteAsync` leaves behind: the store, the actions it appended to
    the queue, the entity's value, the audit copy's value (for an audit-tracked
    type) and the outcome.
   */
  datatype Effect = Effect(state: StoreState, enqueued: seq<Action>, written: Entity, audit: Option<Entity>, outcome: Outcome<Error>)

  /**
    `ExecuteAsync(op, entity)` on a repository of type `et`, from store `s`,
    where `e` is the (already stamped) value of `o` and `ao` is the object the
    audit copy is allocated as.
   */
  function ExecuteEffect(variant: Variant, et: EntityType, op: OperationType, s: StoreState, e: Entity,
                         now: DateTime, o: EntityObject, ao: EntityObject): (r: Effect)
    requires op.Insert? || op.Delete? || op.Replace?
    // the primary undo is queued if and only if the primary write succeeded, and first
    ensures (r.enqueued != []) <==> WriteRow(op, s, et.name, e).Success?
    ensures r.enqueued != [] ==>
              r.enqueued[0] == RollbackFor(op, et.name, Get(s, et.name, e.partitionKey, e.rowKey), o).value
    // a write that throws changes nothing
    ensures WriteRow(op, s, et.name, e).Failure? ==>
              r.state == s && r.written == e && r.outcome == Fail(StoreFailure(WriteRow(op, s, et.name, e).error))
    // the store hands the new ETag back to the entity; its keys are never changed
    ensures WriteRow(op, s, et.name, e).Success? ==> r.written == e.(etag := Tag(s.version))
    // one action for a plain type, primary then audit undo for an audit-tracked one
    ensures r.outcome.Pass? ==> |r.enqueued| == if et.isAuditTracked then 2 else 1
    ensures |r.enqueued| == 2 ==> et.isAuditTracked && r.enqueued[1] == UndoInsert(AuditTableName(et.name), ao)
    // a failed audit insert: the production copy queues only the primary undo, the prototype both
    ensures r.enqueued != [] && r.outcome.Fail? ==>
              et.isAuditTracked && |r.enqueued| == (if variant == Production then 1 else 2)
    // the audit copy: re-keyed to "{pk}-{rk}" and the formatted instant, never in the primary table
    ensures forall i | 0 <= i < |r.enqueued| :: r.enqueued[i].entity == if i == 0 then o else ao
    ensures r.audit.Some? <==> r.enqueued != [] && et.isAuditTracked
    // only the primary table and the audit table are written, and the audit table only by a successful audit insert
    ensures r.state.tables.Keys == s.tables.Keys
    ensures forall t | t in s.tables && t != et.name && (t != AuditTableName(et.name) || r.audit.None? || r.outcome.Fail?) ::
              r.state.tables[t] == s.tables[t]
    ensures r.audit.Some? ==>
              r.audit.value.partitionKey == AuditPartitionKey(e.partitionKey, e.rowKey) &&
              r.audit.value.rowKey == AuditRowKeyFor(variant, now) &&
              Strip(r.audit.value) == Strip(AuditCopy(r.written, AuditRowKeyFor(variant, now)))
  {
    var undo := RollbackFor(op, et.name, Get(s, et.name, e.partitionKey, e.rowKey), o).value;
    match WriteRow(op, s, et.name, e)
    case Failure(err) => Effect(s, [], e, None, Fail(StoreFailure(err)))
    case Success(s1) =>
      var e1 := e.(etag := Tag(s.version));
      if !et.isAuditTracked then Effect(s1, [undo], e1, None, Pass)
      else
        var audit := AuditEffect(variant, et, s1, e1, now, ao);
        audit.(enqueued := [undo] + audit.enqueued)
  }

  /**
    What a mutation leaves in the store once the primary write succeeded: the
    written row, and on top of it the audit copy when its insert succeeded.
    Either row reads back as the object that was written, new ETag included.
   */
  lemma ExecuteEffectStores(variant: Variant, et: EntityType, op: OperationType, s: StoreState, e: Entity,
                            now: DateTime, o: EntityObject, ao: EntityObject)
    requires op.Insert? || op.Delete? || op.Replace?
    requires WriteRow(op, s, et.name, e).Success?
    ensures var r := ExecuteEffect(variant, et, op, s, e, now, o, ao);
            var s1 := WriteRow(op, s, et.name, e).value;
            var a := AuditCopy(r.written, AuditRowKeyFor(variant, now));
            var ins := TableStorage.Insert(s1, AuditTableName(et.name), a);
            && r.state == (if et.isAuditTracked && ins.Success? then ins.value else s1)
            && Get(r.state, et.name, e.partitionKey, e.rowKey) == Some(Persisted(r.written))
            && (r.audit.Some? && r.outcome.Pass? ==>
                  Get(r.state, AuditTableName(et.name), a.partitionKey, a.rowKey) == Some(Persisted(r.audit.value)))
  {
    var r := ExecuteEffect(variant, et, op, s, e, now, o, ao);
    var s1 := WriteRow(op, s, et.name, e).value;
    GetAfterPut(s, et.name, e);
    assert Get(s1, et.name, e.partitionKey, e.rowKey) == Some(Persisted(r.written));
    var a := AuditCopy(r.written, AuditRowKeyFor(variant, now));
    if et.isAuditTracked && TableStorage.Insert(s1, AuditTableName(et.name), a).Success? {
      GetAfterPut(s1, AuditTableName(et.name), a);
    }
  }

  /**
    The audit half of `ExecuteAsync`, once the primary write has left the
    store `s1` and the entity `e1`: insert the audit copy (the object `ao`)
    into the audit table and queue its undo, after the insert in the
    production copy and before it in the prototype.
   */
  function AuditEffect(variant: Variant, et: EntityType, s1: StoreState, e1: Entity, now: DateTime, ao: EntityObject): (r: Effect)
    ensures r.written == e1 && r.audit.Some?
    ensures Strip(r.audit.value) == Strip(AuditCopy(e1, AuditRowKeyFor(variant, now)))
    // the undo is queued when the insert succeeded, and in the prototype also when it threw
    ensures r.enqueued == if r.outcome.Pass? || variant == Prototype then [UndoInsert(AuditTableName(et.name), ao)] else []
    ensures r.outcome.Pass? <==> TableStorage.Insert(s1, AuditTableName(et.name), AuditCopy(e1, AuditRowKeyFor(variant, now))).Success?
    ensures r.outcome.Fail? ==> r.state == s1 && r.audit == Some(AuditCopy(e1, AuditRowKeyFor(variant, now)))
    // a successful insert stores the copy, which takes the store's new ETag
    ensures r.outcome.Pass? ==>
              var a := AuditCopy(e1, AuditRowKeyFor(variant, now));
              && r.state == TableStorage.Insert(s1, AuditTableName(et.name), a).value
              && r.audit == Some(a.(etag := Tag(s1.version)))
    ensures r.state.tables.Keys == s1.tables.Keys
    ensures forall t | t in s1.tables && t != AuditTableName(et.name) :: r.state.tables[t] == s1.tables[t]
  {
    var a := AuditCopy(e1, AuditRowKeyFor(variant, now));
    var auditUndo := UndoInsert(AuditTableName(et.name), ao);
    match TableStorage.Insert(s1, AuditTableName(et.name), a)
    case Failure(err) =>
      Effect(s1, if variant == Production then [] else [auditUndo], e1, Some(a), Fail(StoreFailure(err)))
    case Success(s2) =>
      Effect(s2, [auditUndo], e1, Some(a.(etag := Tag(s1.version))), Pass)
  }

  /** The three repository mutations. */
  datatype Mutation = Add | Update | Remove

  /** The operation kind each copy passes to `ExecuteAsync`. */
  function OperationFor(variant: Variant, m: Mutation): (op: OperationType)
    ensures op.Insert? || op.Delete? || op.Replace?
    ensures op.Insert? <==> m == Add
  {
    match m
    case Add => Insert
    case Update => Replace
    case Remove => if variant == Production then Replace else Delete
  }

  /** The in-place stamping that precedes the write; only a `BaseEntity` is stamped. */
  function Stamp(et: EntityType, m: Mutation, e: Entity, now: DateTime): (r: Entity)
    ensures KeyOf(r) == KeyOf(e) && r.etag == e.etag && r.properties == e.properties
    ensures !et.isBaseEntity ==> r == e
    ensures et.isBaseEntity ==> r.modifiedDate == now && r.isDeleted == (m == Remove || e.isDeleted)
    ensures et.isBaseEntity ==> r.createdDate == if m == Add then now else e.createdDate
  {
    if !et.isBaseEntity then e
    else match m
      case Add => StampInsert(e, now)
      case Update => StampUpdate(e, now)
      case Remove => StampDelete(e, now)
  }

  /** `AddAsync`/`InsertAsync`, `UpdateAsync` and `DeleteAsync`: stamp, then execute. */
  function MutationEffect(variant: Variant, et: EntityType, m: Mutation, s: StoreState, e: Entity,
                          now: DateTime, o: EntityObject, ao: EntityObject): (r: Effect)
    ensures Covers(EffectValues(r, o, ao), r.enqueued)
  {
    ExecuteEffect(variant, et, OperationFor(variant, m), s, Stamp(et, m, e, now), now, o, ao)
  }

  /** The entity objects a queue refers to, with the values they hold after the mutation. */
  function EffectValues(eff: Effect, o: EntityObject, ao: EntityObject): map<EntityObject, Entity>
  {
    if eff.audit.Some? then map[o := eff.written, ao := eff.audit.value] else map[o := eff.written]
  }

  /** `CreateTableAsync`: the type's table, and for an audit-tracked type its audit table, created if missing. */
  function WithTables(et: EntityType, s: StoreState): (r: StoreState)
    ensures et.name in r.tables && (et.isAuditTracked ==> AuditTableName(et.name) in r.tables)
    ensures r.version == s.version
    ensures forall t | t in s.tables :: t in r.tables && r.tables[t] == s.tables[t]
    ensures forall t | t in r.tables && t !in s.tables :: t == et.name || (et.isAuditTracked && t == AuditTableName(et.name))
  {
    var s1 := CreateIfNotExists(s, et.name);
    if et.isAuditTracked then CreateIfNotExists(s1, AuditTableName(et.name)) else s1
  }

  /** Creating a type's tables a second time adds nothing. */
  lemma WithTablesIdempotent(et: EntityType, s: StoreState)
    ensures WithTables(et, WithTables(et, s)) == WithTables(et, s)
  {
    var s1 := CreateIfNotExists(s, et.name);
    CreateIfNotExistsIdempotent(s, et.name);
    if et.isAuditTracked {
      var s2 := CreateIfNotExists(s1, AuditTableName(et.name));
      assert CreateIfNotExists(s2, et.name) == s2;
      CreateIfNotExistsIdempotent(s1, AuditTableName(et.name));
    }
  }
}

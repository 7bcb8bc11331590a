/**
  The Unit of Work and the generic Repository as the two copies implement
  them: a unit of work owns the queue of compensating actions, the completion
  flag and the repository cache; a repository stamps an entity in place, writes
  it, writes its audit copy, and appends the undo of each write to its unit of
  work's queue.  The two classes refer to each other, so they share a module.
 */
module Engine {
  import opened Wrappers
  import Clock
  import opened Entities
  import opened TableStorage
  import opened Compensation

  /** The entity objects the queued actions refer to. */
  ghost function ActionObjects(q: seq<Action>): set<EntityObject>
  {
    set i | 0 <= i < |q| :: q[i].entity
  }

  /** The current value of each of `objs`. */
  ghost function Values(objs: set<EntityObject>): (m: map<EntityObject, Entity>)
    reads objs
    ensures m.Keys == objs
  {
    map o | o in objs :: o.value
  }

  lemma ActionObjectsCover(q: seq<Action>, values: map<EntityObject, Entity>)
    requires ActionObjects(q) <= values.Keys
    ensures Covers(values, q)
  {
    forall i | 0 <= i < |q| ensures q[i].entity in values {
      assert q[i].entity in ActionObjects(q);
    }
  }

  /** `UndoInsertOperationAsync`: delete the inserted row, with the ETag the entity holds now. */
  method UndoInsertOperation(store: Store, table: string, entity: EntityObject) returns (outcome: Outcome<Error>)
    modifies store
    ensures var d := TableStorage.Delete(old(store.state), table, entity.value);
            if d.Success? then store.state == d.value && outcome == Pass
            else store.state == old(store.state) && outcome == Fail(StoreFailure(d.error))
  {
    var r := store.ExecuteDelete(table, entity.value);
    outcome := if r.Pass? then Pass else Fail(StoreFailure(r.error));
  }

  /**
    `UndoReplaceOperationAsync`: write the snapshot back, under the entity's
    current ETag when it has one; nothing to do when there was no snapshot.
   */
  method UndoReplaceOperation(store: Store, table: string, original: Option<Entity>, entity: EntityObject)
    returns (outcome: Outcome<Error>)
    modifies store
    ensures original.None? ==> store.state == old(store.state) && outcome == Pass
    ensures original.Some? ==>
              var w := TableStorage.Replace(old(store.state), table, Reconcile(original.value, entity.value));
              if w.Success? then store.state == w.value && outcome == Pass
              else store.state == old(store.state) && outcome == Fail(StoreFailure(w.error))
  {
    if original.Some? {
      var back := original.value;
      if entity.value.etag != NoETag {
        back := back.(etag := entity.value.etag);
      }
      var r := store.ExecuteReplace(table, back);
      outcome := if r.Success? then Pass else Fail(StoreFailure(r.error));
    } else {
      outcome := Pass;
    }
  }

  /**
    `UndoDeleteOperationAsync`: clear the soft-delete flag on the entity object
    itself and replace the row with it; the store hands back a new ETag.
   */
  method UndoDeleteOperation(store: Store, table: string, entity: EntityObject) returns (outcome: Outcome<Error>)
    modifies store, entity
    ensures var v := Undeleted(old(entity.value), entity.entityType.isBaseEntity);
            var w := TableStorage.Replace(old(store.state), table, v);
            if w.Success? then store.state == w.value && entity.value == v.(etag := Tag(old(store.state).version)) && outcome == Pass
            else store.state == old(store.state) && entity.value == v && outcome == Fail(StoreFailure(w.error))
  {
    if entity.entityType.isBaseEntity {
      entity.value := entity.value.(isDeleted := false);
    }
    var r := store.ExecuteReplace(table, entity.value);
    if r.Success? {
      entity.value := entity.value.(etag := r.value);
      outcome := Pass;
    } else {
      outcome := Fail(StoreFailure(r.error));
    }
  }

  /**
    Invoking a dequeued action; `values` holds the current value of every
    entity object the caller tracks, this action's among them, and afterwards
    each of them holds the value the step leaves it.
   */
  method Invoke(store: Store, a: Action, ghost values: map<EntityObject, Entity>) returns (outcome: Outcome<Error>)
    requires a.entity in values && forall x | x in values :: x.value == values[x]
    modifies store, a.entity
    ensures var r := Step(old(store.state), values, a);
            && store.state == r.state && outcome == r.outcome
            && forall x | x in values :: x.value == r.values[x]
  {
    match a
    case UndoInsert(table, o) => outcome := UndoInsertOperation(store, table, o);
    case UndoReplace(table, snapshot, o) => outcome := UndoReplaceOperation(store, table, snapshot, o);
    case UndoDelete(table, o) => outcome := UndoDeleteOperation(store, table, o);
  }

  /**
    The loop of `RollbackTransaction`: dequeue and invoke actions until the
    queue is empty or one throws, against a trace of the replay of the queue;
    `rest` is what is still queued.
   */
  method Drain(store: Store, queue: seq<Action>, ghost trace: seq<Replayed>) returns (outcome: Outcome<Error>, rest: seq<Action>)
    requires IsTrace(store.state, Values(ActionObjects(queue)), queue, trace)
    modifies store, ActionObjects(queue)
    ensures var r := trace[|queue|];
            && store.state == r.state && outcome == r.outcome
            && (forall x | x in ActionObjects(queue) :: x.value == r.values[x])
            && rest == queue[r.ran..]
  {
    ghost var objs := ActionObjects(queue);
    ghost var vals := Values(objs);
    ghost var ran: nat := 0;
    rest := queue;
    while rest != []
      invariant ran <= |queue| && rest == queue[ran..]
      invariant vals.Keys == objs && forall x | x in objs :: x.value == vals[x]
      invariant trace[ran].outcome.Pass? && store.state == trace[ran].state && vals == trace[ran].values
      decreases |rest|
    {
      var action := rest[0];
      assert action == queue[ran] && action.entity in objs && TraceStep(queue, trace, ran);
      ghost var next := Step(store.state, vals, action);
      rest := rest[1..];
      var result := Invoke(store, action, vals);
      ran := ran + 1;
      vals := next.values;
      assert trace[ran] == next.(ran := ran) && result == next.outcome;
      if result.Fail? {
        outcome := result;
        return;
      }
    }
    outcome := Pass;
  }

  /**
    A unit of work.  `repositories` is the cache by type name; the production
    copy allocates it on first use (`None` until then).
   */
  class UnitOfWork {
    const variant: Variant
    const store: Store
    var complete: bool
    var rollbackActions: seq<Action>
    var repositories: Option<map<string, Repository>>

    /** Every cached repository belongs to this unit of work and is filed under its type's name. */
    ghost predicate Valid()
      reads this
    {
      && (repositories.Some? ==>
            forall name | name in repositories.value ::
              repositories.value[name].scope == this && repositories.value[name].entityType.name == name)
      && (variant == Prototype ==> repositories == Some(map[]))
    }

    /** A new unit of work: an empty queue, not complete. */
    constructor (variant: Variant, store: Store)
      ensures this.variant == variant && this.store == store
      ensures !complete && rollbackActions == []
      ensures repositories == if variant == Production then None else Some(map[])
      ensures Valid()
    {
      this.variant := variant;
      this.store := store;
      complete := false;
      rollbackActions := [];
      repositories := if variant == Production then None else Some(map[]);
    }

    /**
      `Repository<T>()`: the cached repository for the type's name, or a new one
      added to the cache.  A cached entry of another type with that name is a
      failed cast.  The prototype constructs the interface type, which fails,
      so its cache never grows.
     */
    method RepositoryFor(t: EntityType) returns (r: Result<Repository, Error>)
      requires Valid()
      modifies this
      ensures Valid()
      ensures complete == old(complete) && rollbackActions == old(rollbackActions)
      ensures var cache := if old(repositories).Some? then old(repositories).value else map[];
              if t.name in cache then
                repositories == Some(cache) &&
                r == if cache[t.name].entityType == t then Success(cache[t.name]) else Failure(TypeMismatch)
              else if variant == Production then
                r.Success? && fresh(r.value) && r.value.scope == this && r.value.entityType == t &&
                repositories == Some(cache[t.name := r.value])
              else
                repositories == old(repositories) && r == Failure(MissingMethod)
    {
      if repositories.None? {
        repositories := Some(map[]);
      }
      var cache := repositories.value;
      if t.name in cache {
        r := if cache[t.name].entityType == t then Success(cache[t.name]) else Failure(TypeMismatch);
        return;
      }
      if variant == Production {
        var repository := new Repository(this, t);
        repositories := Some(cache[t.name := repository]);
        r := Success(repository);
      } else {
        r := Failure(MissingMethod);
      }
    }

    /** `CommitTransaction`: only the flag changes; the queue stays as it is. */
    method CommitTransaction()
      modifies this
      ensures complete
      ensures rollbackActions == old(rollbackActions) && repositories == old(repositories)
    {
      complete := true;
    }

    /**
      `RollbackTransaction`: dequeue and invoke the actions in enqueue order
      until the queue is empty.  An action that throws ends the loop with the
      actions behind it still queued.
     */
    method RollbackTransaction() returns (outcome: Outcome<Error>)
      modifies this, store, ActionObjects(rollbackActions)
      ensures var objs := old(ActionObjects(rollbackActions));
              Covers(old(Values(objs)), old(rollbackActions)) &&
              var r := Replay(old(store.state), old(Values(objs)), old(rollbackActions));
              && store.state == r.state && outcome == r.outcome
              && (forall x | x in objs :: x.value == r.values[x])
              && rollbackActions == old(rollbackActions)[r.ran..]
      ensures complete == old(complete) && repositories == old(repositories)
    {
      ActionObjectsCover(rollbackActions, Values(ActionObjects(rollbackActions)));
      ghost var trace := ReplayTrace(store.state, Values(ActionObjects(rollbackActions)), rollbackActions);
      outcome, rollbackActions := Drain(store, rollbackActions, trace);
    }

    /**
      `Dispose(disposing)`: when disposing an incomplete unit of work, roll
      back.  The production copy clears the queue only when disposing and
      leaves the flag false; the prototype clears it in every case and sets the
      flag, unless the rollback threw.
     */
    method Dispose(disposing: bool) returns (outcome: Outcome<Error>)
      modifies this, store, ActionObjects(rollbackActions)
      ensures var objs := old(ActionObjects(rollbackActions));
              Covers(old(Values(objs)), old(rollbackActions)) &&
              var r := Replay(old(store.state), old(Values(objs)), old(rollbackActions));
              if disposing && !old(complete) then
                store.state == r.state && outcome == r.outcome && forall x | x in objs :: x.value == r.values[x]
              else
                store.state == old(store.state) && outcome == Pass && forall x | x in objs :: x.value == old(x.value)
      ensures variant == Production ==> !complete && rollbackActions == if disposing then [] else old(rollbackActions)
      ensures variant == Prototype ==> complete == outcome.Pass? && rollbackActions == []
      ensures repositories == old(repositories)
    {
      ActionObjectsCover(rollbackActions, Values(ActionObjects(rollbackActions)));
      outcome := Pass;
      if disposing && !complete {
        outcome := RollbackTransaction();
      }
      if variant == Production {
        if disposing {
          rollbackActions := [];
        }
        if outcome.Pass? {
          complete := false;
        }
      } else {
        rollbackActions := [];
        if outcome.Pass? {
          complete := true;
        }
      }
    }
  }

  /** A repository of one entity type, bound to a unit of work. */
  class Repository {
    const scope: UnitOfWork
    const entityType: EntityType

    constructor (scope: UnitOfWork, entityType: EntityType)
      ensures this.scope == scope && this.entityType == entityType
    {
      this.scope := scope;
      this.entityType := entityType;
    }

    function Table(): string
    {
      entityType.name
    }

    function AuditTable(): string
    {
      AuditTableName(entityType.name)
    }

    /**
      `CreateRollbackAction`: the undo of a write of kind `op` to the type's
      table, or to its audit table; an undo-replace first reads the row it will
      put back.
     */
    method CreateRollbackAction(op: OperationType, entity: EntityObject, isAudit: bool) returns (r: Result<Action, Error>)
      ensures var table := if isAudit then AuditTable() else Table();
              r == RollbackFor(op, table, Get(scope.store.state, table, entity.value.partitionKey, entity.value.rowKey), entity)
    {
      var table := if isAudit then AuditTable() else Table();
      match op
      case Insert =>
        r := Success(UndoInsert(table, entity));
      case Delete =>
        r := Success(UndoDelete(table, entity));
      case Replace =>
        var snapshot := scope.store.Retrieve(table, entity.value.partitionKey, entity.value.rowKey);
        r := Success(UndoReplace(table, snapshot, entity));
      case _ =>
        r := Failure(InvalidOperation);
    }

    /**
      `ExecuteAsync`: prepare the undo, write the entity (an Insert as an
      Insert, anything else as a Replace), queue the undo, and for an
      audit-tracked type insert the audit copy and queue its undo.  `audit` is
      the audit copy's object (the entity itself when there is none).
     */
    method Execute(op: OperationType, entity: EntityObject, now: Clock.DateTime)
      returns (outcome: Outcome<Error>, ghost audit: EntityObject)
      requires op.Insert? || op.Delete? || op.Replace?
      requires entity.entityType == entityType
      modifies scope, scope.store, entity
      ensures var eff := ExecuteEffect(scope.variant, entityType, op, old(scope.store.state), old(entity.value), now, entity, audit);
              && scope.store.state == eff.state && entity.value == eff.written && outcome == eff.outcome
              && scope.rollbackActions == old(scope.rollbackActions) + eff.enqueued
              && (eff.audit.Some? ==> fresh(audit) && audit.entityType == entityType && audit.value == eff.audit.value)
              && (eff.audit.None? ==> audit == entity)
      ensures scope.complete == old(scope.complete) && scope.repositories == old(scope.repositories)
    {
      audit := entity;
      var rollbackAction := CreateRollbackAction(op, entity, false);
      var written: Result<ETag, StoreError>;
      if op.Insert? {
        written := scope.store.ExecuteInsert(Table(), entity.value);
      } else {
        written := scope.store.ExecuteReplace(Table(), entity.value);
      }
      if written.Failure? {
        outcome := Fail(StoreFailure(written.error));
        return;
      }
      entity.value := entity.value.(etag := written.value);
      scope.rollbackActions := scope.rollbackActions + [rollbackAction.value];
      if entityType.isAuditTracked {
        ghost var written := scope.store.state;
        ghost var queued := scope.rollbackActions;
        outcome, audit := RecordAudit(entity, now);
        ghost var auditQueued := AuditEffect(scope.variant, entityType, written, entity.value, now, audit).enqueued;
        assert queued + auditQueued == old(scope.rollbackActions) + ([rollbackAction.value] + auditQueued);
      } else {
        outcome := Pass;
      }
    }

    /**
      The audit half of `ExecuteAsync`: copy the written entity, re-key the
      copy, insert it into the audit table, and queue its undo (after the
      insert in the production copy, before it in the prototype).
     */
    method RecordAudit(entity: EntityObject, now: Clock.DateTime) returns (outcome: Outcome<Error>, ghost audit: EntityObject)
      modifies scope, scope.store
      ensures var eff := AuditEffect(scope.variant, entityType, old(scope.store.state), entity.value, now, audit);
              && scope.store.state == eff.state && outcome == eff.outcome
              && scope.rollbackActions == old(scope.rollbackActions) + eff.enqueued
              && fresh(audit) && audit.entityType == entityType && audit.value == eff.audit.value
      ensures scope.complete == old(scope.complete) && scope.repositories == old(scope.repositories)
    {
      var auditEntity := new EntityObject(entityType, AuditCopy(entity.value, AuditRowKeyFor(scope.variant, now)));
      audit := auditEntity;
      var auditRollbackAction := CreateRollbackAction(OperationType.Insert, auditEntity, true);
      if scope.variant == Prototype {
        scope.rollbackActions := scope.rollbackActions + [auditRollbackAction.value];
      }
      var auditWritten := scope.store.ExecuteInsert(AuditTable(), auditEntity.value);
      if auditWritten.Failure? {
        outcome := Fail(StoreFailure(auditWritten.error));
        return;
      }
      auditEntity.value := auditEntity.value.(etag := auditWritten.value);
      if scope.variant == Production {
        scope.rollbackActions := scope.rollbackActions + [auditRollbackAction.value];
      }
      outcome := Pass;
    }

    /** `AddAsync` (`InsertAsync` in the prototype): stamp both dates, then insert. */
    method Add(entity: EntityObject, now: Clock.DateTime) returns (outcome: Outcome<Error>, ghost audit: EntityObject)
      requires entity.entityType == entityType
      modifies scope, scope.store, entity
      ensures var eff := MutationEffect(scope.variant, entityType, Mutation.Add, old(scope.store.state), old(entity.value), now, entity, audit);
              && scope.store.state == eff.state && entity.value == eff.written && outcome == eff.outcome
              && scope.rollbackActions == old(scope.rollbackActions) + eff.enqueued
              && (eff.audit.Some? ==> fresh(audit) && audit.entityType == entityType && audit.value == eff.audit.value)
              && (eff.audit.None? ==> audit == entity)
      ensures scope.complete == old(scope.complete) && scope.repositories == old(scope.repositories)
    {
      if entityType.isBaseEntity {
        entity.value := StampInsert(entity.value, now);
      }
      outcome, audit := Execute(OperationType.Insert, entity, now);
    }

    /** `UpdateAsync`: stamp the modified date, then replace. */
    method Update(entity: EntityObject, now: Clock.DateTime) returns (outcome: Outcome<Error>, ghost audit: EntityObject)
      requires entity.entityType == entityType
      modifies scope, scope.store, entity
      ensures var eff := MutationEffect(scope.variant, entityType, Mutation.Update, old(scope.store.state), old(entity.value), now, entity, audit);
              && scope.store.state == eff.state && entity.value == eff.written && outcome == eff.outcome
              && scope.rollbackActions == old(scope.rollbackActions) + eff.enqueued
              && (eff.audit.Some? ==> fresh(audit) && audit.entityType == entityType && audit.value == eff.audit.value)
              && (eff.audit.None? ==> audit == entity)
      ensures scope.complete == old(scope.complete) && scope.repositories == old(scope.repositories)
    {
      if entityType.isBaseEntity {
        entity.value := StampUpdate(entity.value, now);
      }
      outcome, audit := Execute(OperationType.Replace, entity, now);
    }

    /**
      `DeleteAsync`: a soft delete, the flag is set and the modified date
      stamped.  The production copy passes kind Replace, the prototype kind
      Delete; both write a Replace.
     */
    method Delete(entity: EntityObject, now: Clock.DateTime) returns (outcome: Outcome<Error>, ghost audit: EntityObject)
      requires entity.entityType == entityType
      modifies scope, scope.store, entity
      ensures var eff := MutationEffect(scope.variant, entityType, Remove, old(scope.store.state), old(entity.value), now, entity, audit);
              && scope.store.state == eff.state && entity.value == eff.written && outcome == eff.outcome
              && scope.rollbackActions == old(scope.rollbackActions) + eff.enqueued
              && (eff.audit.Some? ==> fresh(audit) && audit.entityType == entityType && audit.value == eff.audit.value)
              && (eff.audit.None? ==> audit == entity)
      ensures scope.complete == old(scope.complete) && scope.repositories == old(scope.repositories)
    {
      if entityType.isBaseEntity {
        entity.value := StampDelete(entity.value, now);
      }
      outcome, audit := Execute(if scope.variant == Production then OperationType.Replace else OperationType.Delete, entity, now);
    }

    /** `FindAsync`: a new object holding the stored row, or null when there is none. */
    method Find(partitionKey: string, rowKey: string) returns (r: EntityObject?)
      ensures var row := Get(scope.store.state, Table(), partitionKey, rowKey);
              (r == null <==> row.None?) &&
              (r != null ==> fresh(r) && r.entityType == entityType && r.value == row.value)
    {
      var row := scope.store.Retrieve(Table(), partitionKey, rowKey);
      if row.Some? {
        r := new EntityObject(entityType, row.value);
      } else {
        r := null;
      }
    }

    /**
      The production copy's `FindAllByPartitionKeyAsync` (`partitionKey`
      given) and `FindAllAsync` (none): one query segment, from no
      continuation token.  `rows` is the service's answer to the query and
      `ends` how it cuts the answer into segments.
     */
    method FindFirstSegment(partitionKey: Option<string>, rows: seq<Entity>, ends: seq<nat>) returns (items: seq<Entity>)
      requires QueryResult(scope.store.state, Table(), partitionKey, rows) && Segmentation(rows, ends)
      ensures |items| <= SegmentSize && |items| <= |rows| && items == rows[..|items|]
      ensures |items| == ends[0]
    {
      var segment := QuerySegment(rows, ends, 0);
      items := segment.0;
    }

    /**
      The prototype's `FindAllAsync(partitionKey)`: query segment after
      segment, appending each, until the service returns no continuation token.
     */
    method FindAllSegments(partitionKey: string, rows: seq<Entity>, ends: seq<nat>) returns (items: seq<Entity>)
      requires QueryResult(scope.store.state, Table(), Some(partitionKey), rows) && Segmentation(rows, ends)
      ensures items == rows
    {
      items := [];
      var token: Option<nat> := None;
      SegmentAppended(rows, ends, 0, items);
      var segment := QuerySegment(rows, ends, 0);
      items := items + segment.0;
      token := segment.1;
      while token.Some?
        invariant token.Some? ==> token.value < |ends| && items == rows[..SegmentStart(ends, token.value)]
        invariant token.None? ==> items == rows
        decreases if token.Some? then |ends| - token.value else 0
      {
        SegmentAppended(rows, ends, token.value, items);
        segment := QuerySegment(rows, ends, token.value);
        items := items + segment.0;
        token := segment.1;
      }
    }

    /** `CreateTableAsync`. */
    method CreateTable()
      modifies scope.store
      ensures scope.store.state == WithTables(entityType, old(scope.store.state))
    {
      scope.store.CreateTableIfNotExists(Table());
      if entityType.isAuditTracked {
        scope.store.CreateTableIfNotExists(AuditTable());
      }
    }
  }
}

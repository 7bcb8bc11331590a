/**
  Whole runs of a unit of work over a fresh store, in the order the library's
  callers use it: get the repository for `BookEntity`, create its tables, add
  a book, then commit or not, and dispose of the unit of work.
 */
module Scenarios {
  import opened Wrappers
  import Clock
  import opened Guids
  import opened Entities
  import opened Books
  import opened TableStorage
  import opened Compensation
  import Restoration
  import opened Engine

  /** The store after `CreateTableAsync` for books on an empty store: both tables, empty. */
  lemma BookTablesCreated()
    ensures var s := WithTables(BookEntityType, EmptyStore);
            && s.tables == map[BookEntityType.name := map[], AuditTableName(BookEntityType.name) := map[]]
            && TableStorage.Valid(s)
  {
    var s := WithTables(BookEntityType, EmptyStore);
    assert s.tables.Keys == {BookEntityType.name, AuditTableName(BookEntityType.name)};
  }

  /**
    The unit of work tracks exactly the objects of an effect's queue, with the
    values the effect left in them.
   */
  lemma TrackedValues(eff: Effect, o: EntityObject, ao: EntityObject)
    requires |eff.enqueued| == 2 && eff.enqueued[0].entity == o && eff.enqueued[1].entity == ao
    requires eff.audit.Some? && o.value == eff.written && ao.value == eff.audit.value && o != ao
    ensures ActionObjects(eff.enqueued) == {o, ao}
    ensures Values(ActionObjects(eff.enqueued)) == EffectValues(eff, o, ao)
  {
    var q := eff.enqueued;
    assert ActionObjects(q) == {o, ao} by {
      assert q[0].entity in ActionObjects(q) && q[1].entity in ActionObjects(q);
    }
  }

  /**
    Adding a book to the freshly created tables succeeds and stores the
    stamped book; replaying what the add queued, with the values the unit of
    work then tracks, empties the book table again.
   */
  lemma AddToNewTables(e: Entity, now: Clock.DateTime, o: EntityObject, ao: EntityObject)
    requires var eff := MutationEffect(Production, BookEntityType, Mutation.Add, WithTables(BookEntityType, EmptyStore), e, now, o, ao);
             o.value == eff.written && (eff.audit.Some? ==> o != ao && ao.value == eff.audit.value)
    ensures var eff := MutationEffect(Production, BookEntityType, Mutation.Add, WithTables(BookEntityType, EmptyStore), e, now, o, ao);
            var tracked := Values(ActionObjects(eff.enqueued));
            && eff.outcome == Pass && ActionObjects(eff.enqueued) == {o, ao}
            && eff.written == StampInsert(e, now).(etag := Tag(0))
            && Get(eff.state, BookEntityType.name, e.partitionKey, e.rowKey) == Some(Persisted(eff.written))
            && Covers(tracked, eff.enqueued)
            && Replay(eff.state, tracked, eff.enqueued).state.tables[BookEntityType.name] == map[]
  {
    var s := WithTables(BookEntityType, EmptyStore);
    BookTablesCreated();
    var eff := MutationEffect(Production, BookEntityType, Mutation.Add, s, e, now, o, ao);
    var stamped := Stamp(BookEntityType, Mutation.Add, e, now);
    assert WriteRow(Insert, s, BookEntityType.name, stamped).Success?;
    var s1 := WriteRow(Insert, s, BookEntityType.name, stamped).value;
    assert s1.tables[AuditTableName(BookEntityType.name)] == map[];
    assert eff.outcome == Pass;
    TrackedValues(eff, o, ao);
    Restoration.ProductionRollbackRestores(BookEntityType, Mutation.Add, s, e, now, o, ao);
  }

  /** `new UnitOfWork(...)`, `Repository<BookEntity>()` and `CreateTableAsync()` on an empty store. */
  method OpenBooks() returns (store: Store, unitOfWork: UnitOfWork, repository: Repository)
    ensures fresh(store) && fresh(unitOfWork) && fresh(repository)
    ensures unitOfWork.store == store && unitOfWork.variant == Production
    ensures repository.scope == unitOfWork && repository.entityType == BookEntityType
    ensures !unitOfWork.complete && unitOfWork.rollbackActions == []
    ensures store.state == WithTables(BookEntityType, EmptyStore)
  {
    store := new Store();
    unitOfWork := new UnitOfWork(Production, store);
    var lookup := unitOfWork.RepositoryFor(BookEntityType);
    repository := lookup.value;
    repository.CreateTable();
  }

  /** `AddAsync(book)` right after `OpenBooks`. */
  method AddBook(store: Store, unitOfWork: UnitOfWork, repository: Repository, book: EntityObject, now: Clock.DateTime)
    requires unitOfWork.store == store && unitOfWork.variant == Production
    requires repository.scope == unitOfWork && repository.entityType == BookEntityType && book.entityType == BookEntityType
    requires !unitOfWork.complete && unitOfWork.rollbackActions == []
    requires store.state == WithTables(BookEntityType, EmptyStore)
    modifies unitOfWork, store, book
    ensures !unitOfWork.complete && book.value == StampInsert(old(book.value), now).(etag := Tag(0))
    ensures forall x | x in ActionObjects(unitOfWork.rollbackActions) :: x == book || fresh(x)
    ensures Get(store.state, BookEntityType.name, book.value.partitionKey, book.value.rowKey) == Some(Persisted(book.value))
    ensures var q := unitOfWork.rollbackActions;
            var tracked := Values(ActionObjects(q));
            Covers(tracked, q) && Replay(store.state, tracked, q).state.tables[BookEntityType.name] == map[]
  {
    ghost var e := book.value;
    var added, audit := repository.Add(book, now);
    ghost var eff := MutationEffect(Production, BookEntityType, Mutation.Add, WithTables(BookEntityType, EmptyStore), e, now, book, audit);
    assert unitOfWork.rollbackActions == eff.enqueued && store.state == eff.state;
    AddToNewTables(e, now, book, audit);
  }

  /**
    A book added in a unit of work that is disposed of without a commit is not
    there to be found afterwards: the production rollback deletes the row and
    its audit copy.
   */
  method AbandonedInsertIsUndone(id: Guid, publisher: string, now: Clock.DateTime) returns (found: EntityObject?)
    ensures found == null
  {
    var store, unitOfWork, repository := OpenBooks();
    var book := new EntityObject(BookEntityType, NewBook(id, publisher));
    AddBook(store, unitOfWork, repository, book, now);
    var disposed := unitOfWork.Dispose(true);
    found := repository.Find(publisher, GuidString(id));
  }

  /**
    A book added in a unit of work that is committed before it is disposed of
    stays: the lookup finds it, stamped with the instant it was added.  Its
    `Id`, which has no setter, was never stored: the found book holds
    `Guid.Empty`, and the id is left only in the row key.
   */
  method CommittedInsertPersists(id: Guid, publisher: string, now: Clock.DateTime) returns (found: EntityObject?)
    ensures found != null && found.entityType == BookEntityType
    ensures found.value.rowKey == GuidString(id) && Id(found.value) == Empty && Publisher(found.value) == Some(publisher)
    ensures !found.value.isDeleted && found.value.createdDate == now && found.value.modifiedDate == now
  {
    var store, unitOfWork, repository := OpenBooks();
    var book := new EntityObject(BookEntityType, NewBook(id, publisher));
    AddBook(store, unitOfWork, repository, book, now);
    unitOfWork.CommitTransaction();
    var disposed := unitOfWork.Dispose(true);
    found := repository.Find(publisher, GuidString(id));
  }

  /**
    Disposing of a unit of work a second time runs nothing and changes
    nothing, in either copy: the first dispose left the queue empty.
   */
  method DisposeTwice(unitOfWork: UnitOfWork) returns (first: Outcome<Error>, second: Outcome<Error>, ghost between: StoreState)
    modifies unitOfWork, unitOfWork.store, ActionObjects(unitOfWork.rollbackActions)
    ensures unitOfWork.rollbackActions == [] && second == Pass && unitOfWork.store.state == between
  {
    first := unitOfWork.Dispose(true);
    between := unitOfWork.store.state;
    second := unitOfWork.Dispose(true);
  }

  /** The prototype cannot hand out a repository at all: it constructs the interface type. */
  method PrototypeRepositoryLookupFails() returns (r: Result<Repository, Error>)
    ensures r == Failure(MissingMethod)
  {
    var store := new Store();
    var unitOfWork := new UnitOfWork(Prototype, store);
    r := unitOfWork.RepositoryFor(BookEntityType);
  }

  /** The production copy hands out the same repository for the same type every time. */
  method ProductionRepositoryCached() returns (first: Result<Repository, Error>, second: Result<Repository, Error>)
    ensures first.Success? && first == second
  {
    var store := new Store();
    var unitOfWork := new UnitOfWork(Production, store);
    first := unitOfWork.RepositoryFor(BookEntityType);
    second := unitOfWork.RepositoryFor(BookEntityType);
  }
}

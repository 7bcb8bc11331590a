/**
  `BookEntity`, the prototype's concrete entity type: a `BaseEntity` that is
  also an `IAuditTracker`, keyed by publisher (partition) and id (row).
 */
module Books {
  import opened Wrappers
  import opened Clock
  import opened Guids
  import opened Entities
  import opened TableStorage

  /** `BookEntity : BaseEntity, IAuditTracker`: stamped and mirrored to `BookEntityAudit`. */
  const BookEntityType := EntityType("BookEntity", true, true)

  /** The public properties of a book, by name. */
  const IdProperty := "Id"
  const TitleProperty := "Title"
  const AuthorProperty := "Author"
  const PublisherProperty := "Publisher"

  /** A fresh `BaseEntity` with the given keys and properties and every other field at its default. */
  function Blank(partitionKey: string, rowKey: string, properties: map<string, Property>, getOnly: map<string, Property>): Entity
  {
    Entity(partitionKey, rowKey, NoETag, false, MinValue, MinValue, properties, getOnly)
  }

  /** `new BookEntity()`: no keys (null keys are empty strings here), `Guid.Empty` id, null strings. */
  function EmptyBook(): (b: Entity)
    ensures b.partitionKey == "" && b.rowKey == ""
    ensures Id(b) == Empty && Publisher(b) == None && Title(b) == None && Author(b) == None
  {
    Blank("", "", map[], map[IdProperty := Identifier(Empty)])
  }

  /**
    `new BookEntity(id, publisher)`: the id and publisher are kept, the row key
    is the id's string form and the partition key is the publisher.  `Id` is
    declared `{ get; }`, so it is a get-only property.
   */
  function NewBook(id: Guid, publisher: string): (b: Entity)
    ensures b.partitionKey == publisher && b.rowKey == GuidString(id)
    ensures Id(b) == id && Publisher(b) == Some(publisher)
    ensures Title(b) == None && Author(b) == None
    ensures !b.isDeleted && b.etag == NoETag
  {
    Blank(publisher, GuidString(id), map[PublisherProperty := Text(publisher)], map[IdProperty := Identifier(id)])
  }

  /** `new BookEntity(id, publisher)` for a `BookEntity` whose `Id` is declared `{ get; set; }`. */
  function NewBookWithSettableId(id: Guid, publisher: string): (b: Entity)
    ensures b.partitionKey == publisher && b.rowKey == GuidString(id)
    ensures Id(b) == id && Publisher(b) == Some(publisher)
    ensures Title(b) == None && Author(b) == None
    ensures !b.isDeleted && b.etag == NoETag && b.getOnly == map[]
  {
    Blank(publisher, GuidString(id), map[IdProperty := Identifier(id), PublisherProperty := Text(publisher)], map[])
  }

  /** Sets a string property (the object initialiser `{ Author = ..., Title = ... }`). */
  function WithText(b: Entity, name: string, text: string): (r: Entity)
    ensures r.properties == b.properties[name := Text(text)]
    ensures r.partitionKey == b.partitionKey && r.rowKey == b.rowKey && r.etag == b.etag
    ensures r.isDeleted == b.isDeleted && r.createdDate == b.createdDate && r.modifiedDate == b.modifiedDate
    ensures r.getOnly == b.getOnly
  {
    b.(properties := b.properties[name := Text(text)])
  }

  /** The book's `Id`; a Guid is never null, so one that was never set reads as `Guid.Empty`. */
  function Id(b: Entity): Guid
  {
    if IdProperty in b.getOnly && b.getOnly[IdProperty].Identifier? then b.getOnly[IdProperty].id
    else if IdProperty in b.properties && b.properties[IdProperty].Identifier? then b.properties[IdProperty].id
    else Empty
  }

  function TextProperty(b: Entity, name: string): Option<string>
  {
    if name in b.properties && b.properties[name].Text? then Some(b.properties[name].text) else None
  }

  function Title(b: Entity): Option<string> { TextProperty(b, TitleProperty) }
  function Author(b: Entity): Option<string> { TextProperty(b, AuthorProperty) }
  function Publisher(b: Entity): Option<string> { TextProperty(b, PublisherProperty) }

  /** Two books built from distinct ids never share a table key, whoever publishes them. */
  lemma DistinctIdsDistinctKeys(id1: Guid, id2: Guid, publisher1: string, publisher2: string)
    requires Guids.Valid(id1) && Guids.Valid(id2) && id1 != id2
    ensures NewBook(id1, publisher1).rowKey != NewBook(id2, publisher2).rowKey
  {
    if GuidString(id1) == GuidString(id2) {
      GuidStringInjective(id1, id2);
    }
  }

  /**
    As declared, `Id` has no setter, so the table client never stores it: the
    row a book is written as has no id, a book read back from it has
    `Guid.Empty`, and the id survives only in the row key.
   */
  lemma StoredBookLosesId(s: StoreState, table: string, id: Guid, publisher: string)
    requires table in s.tables && Guids.Valid(id) && id != Empty
    ensures var r := Get(Put(s, table, NewBook(id, publisher)), table, publisher, GuidString(id));
            && r.Some? && Id(r.value) == Empty && Id(r.value) != Id(NewBook(id, publisher))
            && ParseGuid(r.value.rowKey) == id
  {
    GuidStringRoundTrip(id);
  }

  /** With a public setter on `Id`, the id is stored and read back with the row. */
  lemma StoredBookKeepsSettableId(s: StoreState, table: string, id: Guid, publisher: string)
    requires table in s.tables
    ensures var r := Get(Put(s, table, NewBookWithSettableId(id, publisher)), table, publisher, GuidString(id));
            r.Some? && Id(r.value) == id && Publisher(r.value) == Some(publisher)
  {
  }
}

/**
  Table entities: the `TableEntity`/`BaseEntity` records the repositories
  store, the per-type capabilities the repositories look up by reflection,
  the in-place date stamping of each mutation, and the derivation of the
  audit copy's keys.
 */
module Entities {
  import opened Clock
  import opened Guids

  /** The optimistic-concurrency token; `NoETag` is a null or empty ETag. */
  datatype ETag = NoETag | Tag(version: nat)

  /** A domain property in the entity's property bag. */
  datatype Property = Text(text: string) | Identifier(id: Guid)

  /**
    A `BaseEntity`: the table keys, the ETag, the soft-delete flag and the two
    audit dates, plus every other public property by name (an absent name is a
    null property).  `properties` holds those with a public setter, which the
    table client writes and reads back; `getOnly` holds those without one,
    which it skips both ways.  `modifiedDate` is `ModifiedDate` in the
    prototype and `UpdatedDate` in the production copy.
   */
  datatype Entity = Entity(
    partitionKey: string,
    rowKey: string,
    etag: ETag,
    isDeleted: bool,
    createdDate: DateTime,
    modifiedDate: DateTime,
    properties: map<string, Property>,
    getOnly: map<string, Property>)

  /**
    What the repositories learn about an entity type `T` by reflection: its
    name (`typeof(T).Name`), whether it derives from `BaseEntity`, and whether
    it implements `IAuditTracker`.
   */
  datatype EntityType = EntityType(name: string, isBaseEntity: bool, isAuditTracked: bool)

  /**
    An entity instance on the heap.  The repositories stamp it in place, the
    table client writes the new ETag back onto it, and the compensating actions
    keep a reference to it and read it again when they run.
   */
  class EntityObject {
    const entityType: EntityType
    var value: Entity

    constructor (entityType: EntityType, value: Entity)
      ensures this.entityType == entityType && this.value == value
    {
      this.entityType := entityType;
      this.value := value;
    }
  }

  /** Insert: `CreatedDate` and the modified date become `now`; nothing else changes. */
  function StampInsert(e: Entity, now: DateTime): (r: Entity)
    ensures r.createdDate == now && r.modifiedDate == now
    ensures r.isDeleted == e.isDeleted && r.etag == e.etag
    ensures r.partitionKey == e.partitionKey && r.rowKey == e.rowKey && r.properties == e.properties && r.getOnly == e.getOnly
  {
    e.(createdDate := now, modifiedDate := now)
  }

  /** Update: only the modified date becomes `now`. */
  function StampUpdate(e: Entity, now: DateTime): (r: Entity)
    ensures r.modifiedDate == now
    ensures r.createdDate == e.createdDate && r.isDeleted == e.isDeleted && r.etag == e.etag
    ensures r.partitionKey == e.partitionKey && r.rowKey == e.rowKey && r.properties == e.properties && r.getOnly == e.getOnly
  {
    e.(modifiedDate := now)
  }

  /** Delete: a soft delete, the flag is set and the modified date becomes `now`. */
  function StampDelete(e: Entity, now: DateTime): (r: Entity)
    ensures r.modifiedDate == now && r.isDeleted
    ensures r.createdDate == e.createdDate && r.etag == e.etag
    ensures r.partitionKey == e.partitionKey && r.rowKey == e.rowKey && r.properties == e.properties && r.getOnly == e.getOnly
  {
    e.(modifiedDate := now, isDeleted := true)
  }

  /** The shadow table of an audit-tracked type: `{TypeName}Audit`. */
  function AuditTableName(typeName: string): (t: string)
    ensures t != typeName && |t| == |typeName| + 5
  {
    typeName + "Audit"
  }

  /** The partition that collects the history of one record: `{PartitionKey}-{RowKey}`. */
  function AuditPartitionKey(partitionKey: string, rowKey: string): (r: string)
    ensures |r| == |partitionKey| + 1 + |rowKey|
    ensures r[..|partitionKey|] == partitionKey && r[|partitionKey|] == '-' && r[|partitionKey| + 1..] == rowKey
  {
    partitionKey + "-" + rowKey
  }

  /**
    What the table client serializes of an entity: every field but the
    get-only properties.  The same holds for what it materialises from a row,
    since `new T()` leaves those at their defaults.
   */
  function Persisted(e: Entity): (r: Entity)
    ensures r.getOnly == map[]
    ensures r.partitionKey == e.partitionKey && r.rowKey == e.rowKey && r.etag == e.etag
    ensures r.isDeleted == e.isDeleted && r.createdDate == e.createdDate && r.modifiedDate == e.modifiedDate
    ensures r.properties == e.properties
  {
    e.(getOnly := map[])
  }

  /**
    The audit record of a written entity: a JSON copy (every settable field,
    the ETag included; a get-only property cannot be set by the copy) re-keyed
    to the record's history partition and the given row key.
   */
  function AuditCopy(e: Entity, rowKey: string): (a: Entity)
    ensures a.partitionKey == AuditPartitionKey(e.partitionKey, e.rowKey) && a.rowKey == rowKey
    ensures a.etag == e.etag && a.isDeleted == e.isDeleted && a.properties == e.properties && a.getOnly == map[]
    ensures a.createdDate == e.createdDate && a.modifiedDate == e.modifiedDate
  {
    e.(partitionKey := AuditPartitionKey(e.partitionKey, e.rowKey), rowKey := rowKey, getOnly := map[])
  }

  /**
    Records whose partition keys contain no '-' never share a history
    partition.  (Keys with a '-' can: "a-b"/"c" and "a"/"b-c" both give "a-b-c".)
   */
  lemma AuditPartitionKeyInjective(pk1: string, rk1: string, pk2: string, rk2: string)
    requires '-' !in pk1 && '-' !in pk2
    requires AuditPartitionKey(pk1, rk1) == AuditPartitionKey(pk2, rk2)
    ensures pk1 == pk2 && rk1 == rk2
  {
    var s := AuditPartitionKey(pk1, rk1);
    assert s[|pk1|] == '-' && s[|pk2|] == '-';
    assert forall i :: 0 <= i < |pk1| ==> s[i] == pk1[i];
    assert forall i :: 0 <= i < |pk2| ==> s[i] == pk2[i];
    assert |pk1| == |pk2|;
    assert pk1 == s[..|pk1|] == pk2;
    assert rk1 == s[|pk1| + 1..] == rk2;
  }
}

/**
  An in-memory stand-in for Azure Table Storage, the store the repositories
  write to: named tables of rows addressed by (partition key, row key), an ETag
  per row that changes on every write, Insert/Replace/Delete operations that
  check keys and ETags, and no transaction across keys.
 */
module TableStorage {
  import opened Wrappers
  import opened Entities

  type Key = (string, string)
  type Table = map<Key, Entity>

  /** The store's rejections, named after the service's error codes. */
  datatype StoreError =
    | TableNotFound                 // 404: the table does not exist
    | EntityAlreadyExists           // 409: Insert of a key that is present
    | ResourceNotFound              // 404: Replace or Delete of a key that is absent
    | UpdateConditionNotSatisfied   // 412: the ETag does not match the stored row's
    | ETagMissing                   // the client refuses a Replace or Delete without an ETag

  /** The tables by name, and the version the next write will stamp as its ETag. */
  datatype StoreState = StoreState(tables: map<string, Table>, version: nat)

  const EmptyStore := StoreState(map[], 0)

  function KeyOf(e: Entity): Key
  {
    (e.partitionKey, e.rowKey)
  }

  /** Every row sits under its own key and carries an ETag older than the next version. */
  ghost predicate Valid(s: StoreState)
  {
    forall t, k | t in s.tables && k in s.tables[t] ::
      KeyOf(s.tables[t][k]) == k && s.tables[t][k].etag.Tag? && s.tables[t][k].etag.version < s.version
  }

  /** Retrieve: the stored row, or nothing when the table or the key is absent. */
  function Get(s: StoreState, table: string, partitionKey: string, rowKey: string): Option<Entity>
  {
    if table in s.tables && (partitionKey, rowKey) in s.tables[table]
    then Some(s.tables[table][(partitionKey, rowKey)]) else None
  }

  /**
    The state after writing `e` under its key in `table` with a fresh ETag;
    the row holds what the client serializes of `e`.
   */
  function Put(s: StoreState, table: string, e: Entity): StoreState
    requires table in s.tables
  {
    StoreState(s.tables[table := s.tables[table][KeyOf(e) := Persisted(e).(etag := Tag(s.version))]], s.version + 1)
  }

  /** Insert: refused when the key is present; the entity's own ETag is ignored. */
  function Insert(s: StoreState, table: string, e: Entity): (r: Result<StoreState, StoreError>)
    ensures r.Success? <==> table in s.tables && KeyOf(e) !in s.tables[table]
    ensures r.Success? ==> r.value == Put(s, table, e)
    ensures r.Failure? ==> r.error == if table in s.tables then EntityAlreadyExists else TableNotFound
  {
    if table !in s.tables then Failure(TableNotFound)
    else if KeyOf(e) in s.tables[table] then Failure(EntityAlreadyExists)
    else Success(Put(s, table, e))
  }

  /** Whether the entity's ETag is the one stored under its key (`*` is not modelled). */
  predicate ETagMatches(s: StoreState, table: string, e: Entity)
  {
    table in s.tables && KeyOf(e) in s.tables[table] && e.etag != NoETag && s.tables[table][KeyOf(e)].etag == e.etag
  }

  /** Replace: refused unless the key is present and the ETag matches; overwrites the whole row. */
  function Replace(s: StoreState, table: string, e: Entity): (r: Result<StoreState, StoreError>)
    ensures r.Success? <==> ETagMatches(s, table, e)
    ensures r.Success? ==> r.value == Put(s, table, e)
  {
    if e.etag == NoETag then Failure(ETagMissing)
    else if table !in s.tables then Failure(TableNotFound)
    else if KeyOf(e) !in s.tables[table] then Failure(ResourceNotFound)
    else if s.tables[table][KeyOf(e)].etag != e.etag then Failure(UpdateConditionNotSatisfied)
    else Success(Put(s, table, e))
  }

  /** Delete: refused unless the key is present and the ETag matches; removes the row. */
  function Delete(s: StoreState, table: string, e: Entity): (r: Result<StoreState, StoreError>)
    ensures r.Success? <==> ETagMatches(s, table, e)
    ensures r.Success? ==> r.value == StoreState(s.tables[table := s.tables[table] - {KeyOf(e)}], s.version)
  {
    if e.etag == NoETag then Failure(ETagMissing)
    else if table !in s.tables then Failure(TableNotFound)
    else if KeyOf(e) !in s.tables[table] then Failure(ResourceNotFound)
    else if s.tables[table][KeyOf(e)].etag != e.etag then Failure(UpdateConditionNotSatisfied)
    else Success(StoreState(s.tables[table := s.tables[table] - {KeyOf(e)}], s.version))
  }

  /** CreateIfNotExists: adds an empty table of that name unless there is one. */
  function CreateIfNotExists(s: StoreState, table: string): (r: StoreState)
    ensures table in r.tables && r.version == s.version
    ensures forall t | t in s.tables :: t in r.tables && r.tables[t] == s.tables[t]
    ensures forall t | t in r.tables && t != table :: t in s.tables
  {
    if table in s.tables then s else StoreState(s.tables[table := map[]], s.version)
  }

  /** Creating a table twice is creating it once. */
  lemma CreateIfNotExistsIdempotent(s: StoreState, table: string)
    ensures CreateIfNotExists(CreateIfNotExists(s, table), table) == CreateIfNotExists(s, table)
  {
  }

  /**
    A row with its ETag blanked and without get-only properties: what a
    reader sees of the row, apart from its version.
   */
  function Strip(e: Entity): Entity
  {
    e.(etag := NoETag, getOnly := map[])
  }

  /** The two states hold the same tables, the same keys and the same rows, ETags aside. */
  ghost predicate SameContents(a: StoreState, b: StoreState)
  {
    && a.tables.Keys == b.tables.Keys
    && (forall t | t in a.tables :: a.tables[t].Keys == b.tables[t].Keys)
    && (forall t, k | t in a.tables && k in a.tables[t] :: Strip(a.tables[t][k]) == Strip(b.tables[t][k]))
  }

  /** Writes keep the store valid. */
  lemma PutValid(s: StoreState, table: string, e: Entity)
    requires Valid(s) && table in s.tables
    ensures Valid(Put(s, table, e))
  {
  }

  lemma DeleteValid(s: StoreState, table: string, e: Entity)
    requires Valid(s) && Delete(s, table, e).Success?
    ensures Valid(Delete(s, table, e).value)
  {
  }

  /** An insert adds exactly one row to its table, under the entity's key. */
  lemma InsertAddsOneRow(s: StoreState, table: string, e: Entity)
    requires Insert(s, table, e).Success?
    ensures var r := Insert(s, table, e).value;
            |r.tables[table]| == |s.tables[table]| + 1 && r.tables[table].Keys == s.tables[table].Keys + {KeyOf(e)}
  {
    var r := Insert(s, table, e).value;
    assert r.tables[table].Keys == s.tables[table].Keys + {KeyOf(e)};
  }

  /**
    Deleting what was just inserted, with the ETag the insert handed back,
    succeeds and leaves exactly the tables there were before.
   */
  lemma InsertThenDelete(s: StoreState, table: string, e: Entity)
    requires Insert(s, table, e).Success?
    ensures var s1 := Insert(s, table, e).value;
            var d := Delete(s1, table, e.(etag := Tag(s.version)));
            d.Success? && d.value.tables == s.tables
  {
    var s1 := Insert(s, table, e).value;
    var e1 := e.(etag := Tag(s.version));
    assert ETagMatches(s1, table, e1);
    var d := Delete(s1, table, e1).value;
    assert d.tables[table] == s.tables[table];
  }

  /**
    Replacing a row and then putting back the row read before the write, with
    the ETag the write handed back, succeeds and restores the contents.
   */
  lemma ReplaceThenRestore(s: StoreState, table: string, e: Entity)
    requires Replace(s, table, e).Success?
    ensures var before := s.tables[table][KeyOf(e)];
            var s1 := Replace(s, table, e).value;
            var back := Replace(s1, table, before.(etag := Tag(s.version)));
            KeyOf(before) == KeyOf(e) ==> back.Success? && SameContents(back.value, s)
  {
  }

  /**
    Reading back a written row gives what was written, the soft-delete flag
    included, with the new ETag and without the get-only properties.
   */
  lemma GetAfterPut(s: StoreState, table: string, e: Entity)
    requires table in s.tables
    ensures var r := Get(Put(s, table, e), table, e.partitionKey, e.rowKey);
            && r.Some? && Strip(r.value) == Strip(e) && r.value.etag == Tag(s.version) && r.value.getOnly == map[]
  {
  }

  /** The most rows the service returns in one query segment. */
  const SegmentSize: nat := 1000

  /**
    `rows` is the answer to a query on `table`: every row of the table (of
    the partition `partitionKey`, when there is one), each once, in the order
    the service returns them.
   */
  ghost predicate QueryResult(s: StoreState, table: string, partitionKey: Option<string>, rows: seq<Entity>)
  {
    && table in s.tables
    && (forall i, j | 0 <= i < j < |rows| :: KeyOf(rows[i]) != KeyOf(rows[j]))
    && (forall i | 0 <= i < |rows| ::
          KeyOf(rows[i]) in s.tables[table] && s.tables[table][KeyOf(rows[i])] == rows[i] &&
          (partitionKey.Some? ==> rows[i].partitionKey == partitionKey.value))
    && (forall k | k in s.tables[table] && (partitionKey.Some? ==> k.0 == partitionKey.value) ::
          exists i | 0 <= i < |rows| :: KeyOf(rows[i]) == k)
  }

  /** Where segment `i` of a segmentation starts: where the one before it ended. */
  function SegmentStart(ends: seq<nat>, i: nat): nat
    requires i < |ends|
  {
    if i == 0 then 0 else ends[i - 1]
  }

  /**
    How the service cuts an answer of `rows` into segments: segment `i` ends
    before position `ends[i]`, holds at most `SegmentSize` rows (it may hold
    fewer, none at all, when the service stops early), and the last segment
    ends with the answer.
   */
  ghost predicate Segmentation(rows: seq<Entity>, ends: seq<nat>)
  {
    && |ends| > 0 && ends[|ends| - 1] == |rows|
    && forall i | 0 <= i < |ends| ::
         SegmentStart(ends, i) <= ends[i] <= |rows| && ends[i] <= SegmentStart(ends, i) + SegmentSize
  }

  /**
    `ExecuteQuerySegmented`: segment `token` of the answer, and the
    continuation token of the next segment, if there is one.
   */
  function QuerySegment(rows: seq<Entity>, ends: seq<nat>, token: nat): (r: (seq<Entity>, Option<nat>))
    requires Segmentation(rows, ends) && token < |ends|
    ensures |r.0| <= SegmentSize
    ensures SegmentStart(ends, token) + |r.0| <= |rows| && r.0 == rows[SegmentStart(ends, token)..SegmentStart(ends, token) + |r.0|]
    ensures r.1.Some? <==> token + 1 < |ends|
    ensures r.1.Some? ==> r.1.value == token + 1 && SegmentStart(ends, token + 1) == SegmentStart(ends, token) + |r.0|
    ensures r.1.None? ==> r.0 == rows[SegmentStart(ends, token)..]
  {
    (rows[SegmentStart(ends, token)..ends[token]], if token + 1 < |ends| then Some(token + 1) else None)
  }

  /**
    Appending the segment a token names to the rows before it yields the rows
    before the next segment, or every row once the service returns no token.
   */
  lemma SegmentAppended(rows: seq<Entity>, ends: seq<nat>, token: nat, items: seq<Entity>)
    requires Segmentation(rows, ends) && token < |ends| && items == rows[..SegmentStart(ends, token)]
    ensures var r := QuerySegment(rows, ends, token);
            && (r.1.Some? ==> r.1.value < |ends| && items + r.0 == rows[..SegmentStart(ends, r.1.value)])
            && (r.1.None? ==> items + r.0 == rows)
  {
    var start := SegmentStart(ends, token);
    var r := QuerySegment(rows, ends, token);
    assert items + r.0 == rows[..start + |r.0|];
  }

  /**
    A query whose answer runs past one segment: the row right after the first
    segment is stored in the table (in the queried partition) and is in none
    of the first segment's rows, so reading one segment misses it, however the
    service cuts the answer.
   */
  lemma FirstSegmentMissesRows(s: StoreState, table: string, partitionKey: Option<string>, rows: seq<Entity>, ends: seq<nat>)
    requires QueryResult(s, table, partitionKey, rows) && Segmentation(rows, ends) && |rows| > SegmentSize
    ensures var first := QuerySegment(rows, ends, 0).0;
            && |first| < |rows|
            && var missed := rows[|first|];
            && Get(s, table, missed.partitionKey, missed.rowKey) == Some(missed)
            && (partitionKey.Some? ==> missed.partitionKey == partitionKey.value)
            && forall i | 0 <= i < |first| :: KeyOf(first[i]) != KeyOf(missed)
  {
    var first := QuerySegment(rows, ends, 0).0;
    forall i | 0 <= i < |first| ensures KeyOf(first[i]) != KeyOf(rows[|first|]) {
      assert first[i] == rows[i];
    }
  }

  /**
    The store as the repositories reach it through the table client.  Each
    write hands back the ETag it stamped; writing it onto the entity object is
    the caller's business, as the client does for the entity it was given.
   */
  class Store {
    var state: StoreState

    constructor ()
      ensures state == EmptyStore
    {
      state := EmptyStore;
    }

    method Retrieve(table: string, partitionKey: string, rowKey: string) returns (r: Option<Entity>)
      ensures r == Get(state, table, partitionKey, rowKey)
    {
      r := Get(state, table, partitionKey, rowKey);
    }

    method ExecuteInsert(table: string, e: Entity) returns (r: Result<ETag, StoreError>)
      modifies this
      ensures var w := Insert(old(state), table, e);
              if w.Success? then state == w.value && r == Success(Tag(old(state).version))
              else state == old(state) && r == Failure(w.error)
    {
      var w := Insert(state, table, e);
      if w.Success? {
        r := Success(Tag(state.version));
        state := w.value;
      } else {
        r := Failure(w.error);
      }
    }

    method ExecuteReplace(table: string, e: Entity) returns (r: Result<ETag, StoreError>)
      modifies this
      ensures var w := Replace(old(state), table, e);
              if w.Success? then state == w.value && r == Success(Tag(old(state).version))
              else state == old(state) && r == Failure(w.error)
    {
      var w := Replace(state, table, e);
      if w.Success? {
        r := Success(Tag(state.version));
        state := w.value;
      } else {
        r := Failure(w.error);
      }
    }

    method ExecuteDelete(table: string, e: Entity) returns (r: Outcome<StoreError>)
      modifies this
      ensures var w := Delete(old(state), table, e);
              if w.Success? then state == w.value && r == Pass
              else state == old(state) && r == Fail(w.error)
    {
      var w := Delete(state, table, e);
      if w.Success? {
        r := Pass;
        state := w.value;
      } else {
        r := Fail(w.error);
      }
    }

    method CreateTableIfNotExists(table: string)
      modifies this
      ensures state == CreateIfNotExists(old(state), table)
    {
      state := CreateIfNotExists(state, table);
    }
  }
}

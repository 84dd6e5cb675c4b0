# MongoDB association snapshot

A Dafny model of `MongoDBAssociationSnapshot`, the Hibernate OGM MongoDB dialect's view of one
association. The snapshot takes the association's document and its `AssociationKey`. It rebuilds
the `RowKey` of every stored row and fills an insertion-ordered map from row key to stored row.
After that it only answers lookups: `get`, `containsKey`, `size`, `getRowKeys`,
`getRowKeyDBObject` and `getQueryObject`.

Associations are stored in two layouts:

- **embedded**: each row is a plain column-to-value record. The row key's column names are the
  association key's row-key column names.
- **referenced**: the association document keeps its rows in an array under `rows`. Each row is
  an envelope. Its `columns` sub-record holds the stored key columns, and its key set gives the
  row key's column names. Its `tuple` sub-record holds the row data.

In both layouts the value of a row-key column comes from the association key when the key names
that column; the first index naming it is used. Otherwise the value is read from the row's data,
and an absent field reads as `null`.

Files:

- `util.dfy`: `Wrappers.Option` (`None` plays Java's `null`) and `Sequences`, which holds
  `IndexOf`, the first-match scan.
- `documents.dfy`: `Documents`, an abstract ordered record (`Doc`) and value (`Val`) type that
  stands for the driver's `DBObject`, with `Names` (key set) and `Get`.
- `grid.dfy`: `Grid.AssociationKey` and `Grid.RowKey` as values with structural equality.
- `linked_map.dfy`: `LinkedMap`, what a `LinkedHashMap` filled by a run of `put` calls holds
  (`Puts`) and the order its key set iterates in (`KeyOrder`), with their lemmas.
- `snapshot.dfy`: `AssociationSnapshot`. It holds the schema constants, the row-key
  reconstruction as specification functions (`RowKeyOf`), the imperative `BuildRowKey` proved
  against it, and the class `MongoDBAssociationSnapshot`. The class's constructor fills the map
  in a loop into locals and stores them in `const` fields, so the map is fixed once built, like
  the source's `private final` map that only the constructor fills. Its read operations are
  functions of those fields.

The field names `_id`, `rows`, `tuple` and `columns` are the values of the dialect's
`ID_FIELDNAME`, `ROWS_FIELDNAME`, `TUPLE_FIELDNAME` and `COLUMNS_FIELDNAME`. `MongoDBDialect` is
not part of this model, and no proof depends on these values.

`MongoHelpers.isEmbedded(key)` and `MongoHelpers.getAssociationFieldOrNull(key, document)` are not
part of this model. The constructor takes their results as inputs (`isEmbedded` and
`associationField`) and keeps them as constants. `isEmbedded` is evaluated again on the same key
by `get` and `getRows` (source lines 64, 103 and 128), so one value serves every call.
`getAssociationFieldOrNull` is evaluated once, through `getRows` (line 129), which only the
constructor calls (line 61).

Points of the code worth stating outright:

- **Referenced column names.** A referenced row key's column names are the key set of its
  `columns` record alone (lines 71-72). An association-key column therefore appears in the key
  only if it is stored there, and then takes the association key's value (`OrderItemsExample`).
- **No rejection.** The code never rejects a row. A missing `columns` record is a null
  dereference (line 72), which the model states as a precondition. A duplicate row key
  overwrites the earlier row silently (line 96). `getQueryObject` does not check the layout
  (lines 109-114).

## Model

| member | source | states |
|---|---|---|
| `Sequences.IndexOf` | hibernate-ogm-mongodb/src/main/java/org/hibernate/ogm/dialect/mongodb/MongoDBAssociationSnapshot.java:78-86 | the break-terminated scan finds the first index holding the column name, or reports that no index does |
| `Documents.GetAbsent` | hibernate-ogm-mongodb/src/main/java/org/hibernate/ogm/dialect/mongodb/MongoDBAssociationSnapshot.java:88 | reading a field the record does not have yields `null` |
| `Documents.GetPresent` | hibernate-ogm-mongodb/src/main/java/org/hibernate/ogm/dialect/mongodb/MongoDBAssociationSnapshot.java:88 | reading a field of a `DBObject` yields the value stored under that name (its only one, since the key set has no duplicates) |
| `AssociationSnapshot.RowsOf` | hibernate-ogm-mongodb/src/main/java/org/hibernate/ogm/dialect/mongodb/MongoDBAssociationSnapshot.java:127-133 | `getRows`: the embedded collection as extracted; when referenced, exactly the records of the document's `rows` array, in order |
| `AssociationSnapshot.LookupColumnValue` | hibernate-ogm-mongodb/src/main/java/org/hibernate/ogm/dialect/mongodb/MongoDBAssociationSnapshot.java:76-89 | the inner scan with `break` yields the association key's value at the first index naming the column, and otherwise the value the row data stores under it |
| `AssociationSnapshot.BuildRowKey` | hibernate-ogm-mongodb/src/main/java/org/hibernate/ogm/dialect/mongodb/MongoDBAssociationSnapshot.java:62-94 | the nested loops of the constructor compute the row key the reconstruction rule prescribes for the row |
| `AssociationSnapshot.RowKeyShape` | hibernate-ogm-mongodb/src/main/java/org/hibernate/ogm/dialect/mongodb/MongoDBAssociationSnapshot.java:64-94 | a rebuilt key has the association key's table, the column names of its layout in order, and exactly one value per column name |
| `AssociationSnapshot.KeyColumnPrecedence` | hibernate-ogm-mongodb/src/main/java/org/hibernate/ogm/dialect/mongodb/MongoDBAssociationSnapshot.java:78-86 | a column named by the association key takes the key's value at the first index naming it, never the stored value |
| `AssociationSnapshot.StoredColumnFallback` | hibernate-ogm-mongodb/src/main/java/org/hibernate/ogm/dialect/mongodb/MongoDBAssociationSnapshot.java:65-89 | any other column takes the value stored under its name (the row itself when embedded, the `columns` sub-record when referenced), and `null` when nothing is stored |
| `AssociationSnapshot.ReferencedColumnsDistinct` | hibernate-ogm-mongodb/src/main/java/org/hibernate/ogm/dialect/mongodb/MongoDBAssociationSnapshot.java:71-72 | a referenced row key never names a column twice, since it takes a record's key set |
| `AssociationSnapshot.LayoutsAgree` | hibernate-ogm-mongodb/src/main/java/org/hibernate/ogm/dialect/mongodb/MongoDBAssociationSnapshot.java:64-94 | an embedded row and a referenced row storing the same row-key columns with the same non-association values rebuild equal row keys |
| `AssociationSnapshot.OrderItemsExample` | hibernate-ogm-mongodb/src/main/java/org/hibernate/ogm/dialect/mongodb/MongoDBAssociationSnapshot.java:70-94 | a referenced row storing `order_id = 7, item_id = 1` under key `order_id = 42` rebuilds to key `(Order_Items, [order_id, item_id], [42, 1])` |
| `LinkedMap.PutStep` | hibernate-ogm-mongodb/src/main/java/org/hibernate/ogm/dialect/mongodb/MongoDBAssociationSnapshot.java:96 | one `put` replaces or adds the entry, and extends the key order only for a new key |
| `LinkedMap.PutPrefix` | hibernate-ogm-mongodb/src/main/java/org/hibernate/ogm/dialect/mongodb/MongoDBAssociationSnapshot.java:61-96 | the `put` of row `n` turns the map and key order of the first `n` rows into those of the first `n + 1` |
| `LinkedMap.PutsDomain` | hibernate-ogm-mongodb/src/main/java/org/hibernate/ogm/dialect/mongodb/MongoDBAssociationSnapshot.java:61-96 | the filled map's key set is exactly the set of keys put |
| `LinkedMap.PutsLastWins` | hibernate-ogm-mongodb/src/main/java/org/hibernate/ogm/dialect/mongodb/MongoDBAssociationSnapshot.java:96 | on duplicate keys the value of the last `put` is kept |
| `LinkedMap.KeyOrderMember` | hibernate-ogm-mongodb/src/main/java/org/hibernate/ogm/dialect/mongodb/MongoDBAssociationSnapshot.java:142 | a key is listed in the key order exactly when it was put |
| `LinkedMap.KeyOrderContents` | hibernate-ogm-mongodb/src/main/java/org/hibernate/ogm/dialect/mongodb/MongoDBAssociationSnapshot.java:142 | the key order lists every key put, each exactly once |
| `LinkedMap.KeyOrderFirstInsertion` | hibernate-ogm-mongodb/src/main/java/org/hibernate/ogm/dialect/mongodb/MongoDBAssociationSnapshot.java:58 | keys are listed in the order of their first `put` |
| `LinkedMap.KeyOrderOfDistinct` | hibernate-ogm-mongodb/src/main/java/org/hibernate/ogm/dialect/mongodb/MongoDBAssociationSnapshot.java:58-96 | when no row key repeats, the key order is exactly the order of the puts |
| `LinkedMap.PutsSize` | hibernate-ogm-mongodb/src/main/java/org/hibernate/ogm/dialect/mongodb/MongoDBAssociationSnapshot.java:123 | the map has as many entries as distinct keys, at most one per `put` |
| `LinkedMap.PutsSpec` | hibernate-ogm-mongodb/src/main/java/org/hibernate/ogm/dialect/mongodb/MongoDBAssociationSnapshot.java:58-97 | key set, key order, size and last-write-wins of the filled map, together |
| `AssociationSnapshot.MongoDBAssociationSnapshot.constructor` | hibernate-ogm-mongodb/src/main/java/org/hibernate/ogm/dialect/mongodb/MongoDBAssociationSnapshot.java:56-98 | after the loop, the map holds what putting every row under its rebuilt key, in row order, gives, and the key order is that of those puts |
| `AssociationSnapshot.MongoDBAssociationSnapshot.GetRowKeyDBObject` | hibernate-ogm-mongodb/src/main/java/org/hibernate/ogm/dialect/mongodb/MongoDBAssociationSnapshot.java:136-138 | yields a row exactly when some row rebuilds to the key, and then the last such row |
| `AssociationSnapshot.MongoDBAssociationSnapshot.Get` | hibernate-ogm-mongodb/src/main/java/org/hibernate/ogm/dialect/mongodb/MongoDBAssociationSnapshot.java:100-107 | embedded: the stored row, or none for an absent key; referenced: the stored row's `tuple` record, or none when that field is null |
| `AssociationSnapshot.MongoDBAssociationSnapshot.GetQueryObject` | hibernate-ogm-mongodb/src/main/java/org/hibernate/ogm/dialect/mongodb/MongoDBAssociationSnapshot.java:109-114 | a record with the single field `_id`, holding the association document's `_id` value (null when absent) |
| `AssociationSnapshot.MongoDBAssociationSnapshot.ContainsKey` | hibernate-ogm-mongodb/src/main/java/org/hibernate/ogm/dialect/mongodb/MongoDBAssociationSnapshot.java:116-119 | true exactly for the keys some row rebuilds to, which are exactly the keys `getRowKeys` lists |
| `AssociationSnapshot.MongoDBAssociationSnapshot.Size` | hibernate-ogm-mongodb/src/main/java/org/hibernate/ogm/dialect/mongodb/MongoDBAssociationSnapshot.java:121-124 | the number of keys `getRowKeys` lists, which is the number of distinct rebuilt keys and at most the number of rows; exactly the number of rows when the rebuilt keys are pairwise distinct |
| `AssociationSnapshot.MongoDBAssociationSnapshot.GetRowKeys` | hibernate-ogm-mongodb/src/main/java/org/hibernate/ogm/dialect/mongodb/MongoDBAssociationSnapshot.java:140-143 | every rebuilt key exactly once, in the order of the first row that gave it; the rebuilt keys in row order when they are pairwise distinct |

## Left out

- The MongoDB driver types `DBObject` and `BasicDBObject` are replaced by the `Doc`/`Val` values. A record's field names are assumed distinct where the model relies on it (`IsDBObject`), as a Java map guarantees.
- `MongoHelpers.isEmbedded` and `getAssociationFieldOrNull` are inputs. A `null` embedded collection, a missing `rows` array, a non-record row and a missing `columns` sub-record raise a Java exception in the source; the model excludes them by preconditions and the types.
- `null` rows: a null row throws in the referenced layout (line 71), and in the embedded layout whenever a row-key column is read from the row (line 88). In the embedded layout with every row-key column named by the association key, the source stores `null` under the rebuilt key (line 96), after which `containsKey` is true and `get` returns null (line 106). The model excludes null rows by its types, so it does not capture that case.
- `Tuple` and `MongoDBTupleSnapshot` wrapping: `Get` returns the payload record that `get` would wrap.
- `AssociationSnapshot.MongoDBAssociationSnapshot.Get`: for a referenced snapshot it requires the key to be present and the `tuple` field to be a record or null. The source dereferences a null row, or fails on the cast, otherwise.
- `AssociationSnapshot.MongoDBAssociationSnapshot.Size`: returns an unbounded `nat`. The clamping of `LinkedHashMap.size()` to `Integer.MAX_VALUE` is not modelled.
- `AssociationSnapshot.MongoDBAssociationSnapshot.GetRowKeys`: returns the key order as a sequence rather than a live `Set` view of the map. The map is a `const` fixed by the constructor, so the two agree.
- `toString` is string formatting only.
- `RowKey` and `AssociationKey` internals (hashing, array copies) are left out. Equality is structural on the datatypes, and the association key's column and value lists are taken to be parallel.
- Value equality: `Doc` equality compares fields in order, while a `BasicDBObject` compares as a map and ignores field order, so two row keys holding the same sub-record with fields in a different order are one key in the source and two in the model. The single `Int` value also merges Java's `Integer` and `Long`, which `RowKey.equals` tells apart.

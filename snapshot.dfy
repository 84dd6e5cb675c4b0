/** The association snapshot of the MongoDB dialect: it rebuilds, from one association
    document, the map from row keys to stored rows that the grid engine reads. */
module AssociationSnapshot {
  import opened Wrappers
  import opened Sequences
  import opened Documents
  import opened Grid
  import LinkedMap

  /** Field names of the document-store schema. */
  const ID_FIELDNAME := "_id"
  const ROWS_FIELDNAME := "rows"
  const TUPLE_FIELDNAME := "tuple"
  const COLUMNS_FIELDNAME := "columns"

  // ---------------------------------------------------------------------------------------
  // Where the rows are and what shape they have
  // ---------------------------------------------------------------------------------------

  /** A referenced association document keeps its rows as an array of records under
      ROWS_FIELDNAME; the loop over them admits neither a missing array nor a non-record row. */
  predicate HasRowsArray(document: Doc) {
    Get(document, ROWS_FIELDNAME).Arr? &&
    forall v <- Get(document, ROWS_FIELDNAME).elems :: v.Obj?
  }

  /** The rows of the association: the already extracted embedded collection, or the
      records of the referenced document's rows array. */
  function RowsOf(document: Doc, embedded: bool, embeddedRows: seq<Doc>): (rows: seq<Doc>)
    requires embedded || HasRowsArray(document)
    ensures embedded ==> rows == embeddedRows
    ensures !embedded ==> |rows| == |Get(document, ROWS_FIELDNAME).elems|
    ensures !embedded ==> forall i :: 0 <= i < |rows| ==> Get(document, ROWS_FIELDNAME).elems[i] == Obj(rows[i])
  {
    if embedded then embeddedRows
    else
      var vs := Get(document, ROWS_FIELDNAME).elems;
      assert forall i :: 0 <= i < |vs| ==> vs[i] in vs;
      seq(|vs|, i requires 0 <= i < |vs| => vs[i].doc)
  }

  /** A referenced row must carry its stored-columns sub-record as a record: the code casts
      it and asks for its key set without a null check. An embedded row is read as it is. */
  predicate RowShaped(embedded: bool, row: Doc) {
    embedded ||
    (Get(row, COLUMNS_FIELDNAME).Obj? && IsDBObject(Get(row, COLUMNS_FIELDNAME).doc))
  }

  /** Every row has the shape its layout needs. */
  predicate RowsShaped(embedded: bool, rows: seq<Doc>) {
    forall i :: 0 <= i < |rows| ==> RowShaped(embedded, rows[i])
  }

  /** What the constructor needs of its inputs. */
  predicate Loadable(document: Doc, key: AssociationKey, embedded: bool, embeddedRows: seq<Doc>) {
    key.WellFormed() &&
    (embedded || HasRowsArray(document)) &&
    RowsShaped(embedded, RowsOf(document, embedded, embeddedRows))
  }

  // ---------------------------------------------------------------------------------------
  // Row-key reconstruction
  // ---------------------------------------------------------------------------------------

  /** The record a row's non-association column values are read from. */
  function ColumnData(embedded: bool, row: Doc): Doc
    requires RowShaped(embedded, row)
  {
    if embedded then row else Get(row, COLUMNS_FIELDNAME).doc
  }

  /** The row key's column names: fixed by the association key when embedded, the stored
      columns' key set when referenced. */
  function ColumnNames(key: AssociationKey, embedded: bool, row: Doc): seq<string>
    requires RowShaped(embedded, row)
  {
    if embedded then key.rowKeyColumnNames else Names(ColumnData(embedded, row))
  }

  /** The value of column `c`: from the association key at the first index naming `c`,
      otherwise from the row's own data. */
  function ColumnValue(key: AssociationKey, data: Doc, c: string): Val
    requires key.WellFormed()
  {
    var i := IndexOf(key.columnNames, c);
    if i < |key.columnNames| then key.columnValues[i] else Get(data, c)
  }

  /** The values of the columns `names`, position by position. */
  function ColumnValues(key: AssociationKey, data: Doc, names: seq<string>): seq<Val>
    requires key.WellFormed()
  {
    seq(|names|, j requires 0 <= j < |names| => ColumnValue(key, data, names[j]))
  }

  /** The row key rebuilt for one row. */
  function RowKeyOf(key: AssociationKey, embedded: bool, row: Doc): RowKey
    requires key.WellFormed() && RowShaped(embedded, row)
  {
    var names := ColumnNames(key, embedded, row);
    RowKey(key.table, names, ColumnValues(key, ColumnData(embedded, row), names))
  }

  /** The row keys of all rows, in row order. */
  function RowKeysOf(key: AssociationKey, embedded: bool, rows: seq<Doc>): (ks: seq<RowKey>)
    requires key.WellFormed() && RowsShaped(embedded, rows)
  {
    seq(|rows|, i requires 0 <= i < |rows| => RowKeyOf(key, embedded, rows[i]))
  }

  /** One step of the value list: scan the association key's columns for `columnKey`,
      stopping at the first match, and fall back to the row data when none matches. */
  method LookupColumnValue(key: AssociationKey, mongodbColumnData: Doc, columnKey: string) returns (value: Val)
    requires key.WellFormed()
    ensures value == ColumnValue(key, mongodbColumnData, columnKey)
  {
    var getFromMongoData := true;
    var length := |key.columnNames|;
    var index := 0;
    value := Null;
    while index < length
      invariant 0 <= index <= length
      invariant getFromMongoData
      invariant forall i :: 0 <= i < index ==> key.columnNames[i] != columnKey
    {
      if key.columnNames[index] == columnKey {
        assert IndexOf(key.columnNames, columnKey) == index;
        value := key.columnValues[index];
        getFromMongoData := false;
        break;
      }
      index := index + 1;
    }
    if getFromMongoData {
      assert columnKey !in key.columnNames;
      value := Get(mongodbColumnData, columnKey);
    }
  }

  /** The body of the constructor's loop for one row: collect the column names, then look
      up the value of each in turn. */
  method BuildRowKey(key: AssociationKey, embedded: bool, row: Doc) returns (rowKey: RowKey)
    requires key.WellFormed() && RowShaped(embedded, row)
    ensures rowKey == RowKeyOf(key, embedded, row)
  {
    var columnNames: seq<string>;
    var mongodbColumnData: Doc;
    if embedded {
      columnNames := key.rowKeyColumnNames;
      mongodbColumnData := row;
    } else {
      mongodbColumnData := Get(row, COLUMNS_FIELDNAME).doc;
      columnNames := Names(mongodbColumnData);
    }
    var columnValues: seq<Val> := [];
    for n := 0 to |columnNames|
      invariant |columnValues| == n
      invariant forall j :: 0 <= j < n ==> columnValues[j] == ColumnValue(key, mongodbColumnData, columnNames[j])
    {
      var value := LookupColumnValue(key, mongodbColumnData, columnNames[n]);
      columnValues := columnValues + [value];
    }
    rowKey := RowKey(key.table, columnNames, columnValues);
  }

  /** Every rebuilt key belongs to the association's table, has the column names of its
      layout, and one value per column name. */
  lemma RowKeyShape(key: AssociationKey, embedded: bool, row: Doc)
    requires key.WellFormed() && RowShaped(embedded, row)
    ensures RowKeyOf(key, embedded, row).table == key.table
    ensures embedded ==> RowKeyOf(key, embedded, row).columnNames == key.rowKeyColumnNames
    ensures !embedded ==> RowKeyOf(key, embedded, row).columnNames == Names(Get(row, COLUMNS_FIELDNAME).doc)
    ensures |RowKeyOf(key, embedded, row).columnValues| == |RowKeyOf(key, embedded, row).columnNames|
  {
  }

  /** Precedence: a column the association key names takes the key's value at the first
      index naming it, whatever the row stores. */
  lemma KeyColumnPrecedence(key: AssociationKey, embedded: bool, row: Doc, j: nat, i: nat)
    requires key.WellFormed() && RowShaped(embedded, row)
    requires j < |ColumnNames(key, embedded, row)|
    requires i < |key.columnNames| && key.columnNames[i] == ColumnNames(key, embedded, row)[j]
    requires forall i' :: 0 <= i' < i ==> key.columnNames[i'] != key.columnNames[i]
    ensures RowKeyOf(key, embedded, row).columnValues[j] == key.columnValues[i]
  {
    assert IndexOf(key.columnNames, key.columnNames[i]) == i;
  }

  /** A column the association key does not name takes the value the row data holds
      under it (the row itself when embedded, the stored columns when referenced), and
      `Null` when the row data has no such field. */
  lemma StoredColumnFallback(key: AssociationKey, embedded: bool, row: Doc, j: nat)
    requires key.WellFormed() && RowShaped(embedded, row)
    requires j < |ColumnNames(key, embedded, row)|
    requires ColumnNames(key, embedded, row)[j] !in key.columnNames
    ensures var c := ColumnNames(key, embedded, row)[j];
      && (embedded ==> RowKeyOf(key, embedded, row).columnValues[j] == Get(row, c))
      && (!embedded ==> RowKeyOf(key, embedded, row).columnValues[j] == Get(Get(row, COLUMNS_FIELDNAME).doc, c))
      && (c !in Names(ColumnData(embedded, row)) ==> RowKeyOf(key, embedded, row).columnValues[j] == Null)
  {
  }

  /** In the referenced layout a rebuilt key never names a column twice, since a record's
      key set has no duplicates. */
  lemma ReferencedColumnsDistinct(key: AssociationKey, row: Doc)
    requires key.WellFormed() && RowShaped(false, row)
    ensures Distinct(RowKeyOf(key, false, row).columnNames)
  {
  }

  /** The two layouts agree: an embedded row and a referenced row whose stored columns are
      the association's row-key columns and hold the same non-association values yield the
      same row key. */
  lemma LayoutsAgree(key: AssociationKey, embeddedRow: Doc, referencedRow: Doc)
    requires key.WellFormed() && RowShaped(false, referencedRow)
    requires Names(Get(referencedRow, COLUMNS_FIELDNAME).doc) == key.rowKeyColumnNames
    requires forall c <- key.rowKeyColumnNames :: c !in key.columnNames ==>
      Get(Get(referencedRow, COLUMNS_FIELDNAME).doc, c) == Get(embeddedRow, c)
    ensures RowKeyOf(key, true, embeddedRow) == RowKeyOf(key, false, referencedRow)
  {
    var a, b := RowKeyOf(key, true, embeddedRow), RowKeyOf(key, false, referencedRow);
    forall j | 0 <= j < |a.columnValues|
      ensures a.columnValues[j] == b.columnValues[j]
    {
      var c := key.rowKeyColumnNames[j];
      assert c in key.rowKeyColumnNames;
    }
  }

  /** A referenced order-items row: the stored order_id is overridden by the association
      key's value, item_id is read from the stored columns. */
  lemma OrderItemsExample()
    ensures
      var key := AssociationKey("Order_Items", ["order_id"], [Int(42)], ["order_id", "item_id"]);
      var row := Doc([(COLUMNS_FIELDNAME, Obj(Doc([("order_id", Int(7)), ("item_id", Int(1))])))]);
      RowShaped(false, row) &&
      RowKeyOf(key, false, row) == RowKey("Order_Items", ["order_id", "item_id"], [Int(42), Int(1)])
  {
    var key := AssociationKey("Order_Items", ["order_id"], [Int(42)], ["order_id", "item_id"]);
    var cols := Doc([("order_id", Int(7)), ("item_id", Int(1))]);
    var row := Doc([(COLUMNS_FIELDNAME, Obj(cols))]);
    assert Names(row) == [COLUMNS_FIELDNAME];
    assert Names(cols) == ["order_id", "item_id"];
    assert IndexOf(key.columnNames, "order_id") == 0;
    assert IndexOf(key.columnNames, "item_id") == 1;
    assert IndexOf(Names(cols), "item_id") == 1;
  }

  // ---------------------------------------------------------------------------------------
  // The snapshot
  // ---------------------------------------------------------------------------------------

  class MongoDBAssociationSnapshot {
    /** The association document, the association key, whether the association is
        embedded, and the row collection found for it in the embedded layout. */
    const assoc: Doc
    const associationKey: AssociationKey
    const embedded: bool
    const embeddedRows: seq<Doc>

    /** The `LinkedHashMap` from row key to stored row: its entries and its key order. The
        constructor fills it and nothing changes it afterwards. */
    const entries: map<RowKey, Doc>
    const order: seq<RowKey>

    /** The map holds what putting every row under its rebuilt key, in row order, gives. */
    ghost predicate Valid() {
      Loadable(assoc, associationKey, embedded, embeddedRows) &&
      entries == LinkedMap.Puts(RowKeys(), Rows()) &&
      order == LinkedMap.KeyOrder(RowKeys())
    }

    /** The association's rows. */
    function Rows(): seq<Doc>
      requires embedded || HasRowsArray(assoc)
    {
      RowsOf(assoc, embedded, embeddedRows)
    }

    /** The rebuilt key of every row, in row order. */
    function RowKeys(): seq<RowKey>
      requires Loadable(assoc, associationKey, embedded, embeddedRows)
    {
      RowKeysOf(associationKey, embedded, Rows())
    }

    constructor (document: Doc, key: AssociationKey, isEmbedded: bool, associationField: seq<Doc>)
      requires Loadable(document, key, isEmbedded, associationField)
      ensures assoc == document && associationKey == key
      ensures embedded == isEmbedded && embeddedRows == associationField
      ensures Valid()
    {
      assoc := document;
      associationKey := key;
      embedded := isEmbedded;
      embeddedRows := associationField;
      var filled: map<RowKey, Doc> := map[];
      var keyOrder: seq<RowKey> := [];
      var rows := RowsOf(document, isEmbedded, associationField);
      ghost var keys := RowKeysOf(key, isEmbedded, rows);
      for n := 0 to |rows|
        invariant |keys| == |rows|
        invariant filled == LinkedMap.Puts(keys[..n], rows[..n])
        invariant keyOrder == LinkedMap.KeyOrder(keys[..n])
      {
        var row := rows[n];
        var rowKey := BuildRowKey(key, isEmbedded, row);
        assert rowKey == keys[n];
        LinkedMap.PutPrefix(keys, rows, n);
        if rowKey !in filled {
          keyOrder := keyOrder + [rowKey];
        }
        filled := filled[rowKey := row];
      }
      assert keys[..|rows|] == keys && rows[..|rows|] == rows;
      entries := filled;
      order := keyOrder;
    }

    /** `getRowKeyDBObject`: the raw row last stored under `k`, or none. */
    function GetRowKeyDBObject(k: RowKey): (r: Option<Doc>)
      requires Valid()
      ensures r.Some? <==> k in RowKeys()
      ensures forall i :: LinkedMap.LastPut(RowKeys(), i) && RowKeys()[i] == k ==> r == Some(Rows()[i])
    {
      LinkedMap.PutsSpec(RowKeys(), Rows());
      if k in entries then Some(entries[k]) else None
    }

    /** `get`: the row's tuple payload. Embedded, that is the stored row itself (none when
        `k` is absent); referenced, the record under TUPLE_FIELDNAME of the stored row, or
        none when that field is null. The referenced case reads the stored row without a
        null check and casts the payload, hence its precondition. */
    function Get(k: RowKey): (r: Option<Doc>)
      requires Valid()
      requires !embedded ==> (k in entries &&
        (Documents.Get(entries[k], TUPLE_FIELDNAME).Obj? || Documents.Get(entries[k], TUPLE_FIELDNAME).Null?))
      ensures embedded ==> r == GetRowKeyDBObject(k)
      ensures !embedded ==> (GetRowKeyDBObject(k).Some? &&
        (r.Some? <==> Documents.Get(GetRowKeyDBObject(k).value, TUPLE_FIELDNAME).Obj?) &&
        (r.Some? ==> Documents.Get(GetRowKeyDBObject(k).value, TUPLE_FIELDNAME) == Obj(r.value)))
    {
      if embedded then GetRowKeyDBObject(k)
      else
        var payload := Documents.Get(entries[k], TUPLE_FIELDNAME);
        if payload.Obj? then Some(payload.doc) else None
    }

    /** `getQueryObject`: a one-field record holding the association document's identifier. */
    function GetQueryObject(): (query: Doc)
      ensures Names(query) == [ID_FIELDNAME]
      ensures Documents.Get(query, ID_FIELDNAME) == Documents.Get(assoc, ID_FIELDNAME)
    {
      Doc([(ID_FIELDNAME, Documents.Get(assoc, ID_FIELDNAME))])
    }

    /** `containsKey`: exactly the keys rebuilt from some row, and exactly those listed by
        `getRowKeys`. */
    function ContainsKey(k: RowKey): (b: bool)
      requires Valid()
      ensures b <==> k in RowKeys()
      ensures b <==> k in order
    {
      LinkedMap.PutsSpec(RowKeys(), Rows());
      k in entries
    }

    /** `size`: the number of distinct rebuilt keys, never more than the number of rows. */
    function Size(): (n: nat)
      requires Valid()
      ensures n == |order| <= |Rows()|
      ensures Distinct(RowKeys()) ==> n == |Rows()|
    {
      LinkedMap.PutsSpec(RowKeys(), Rows());
      if Distinct(RowKeys()) then
        LinkedMap.KeyOrderOfDistinct(RowKeys());
        |entries|
      else
        |entries|
    }

    /** `getRowKeys`: every rebuilt key once, in the order of the first row that gave it. */
    function GetRowKeys(): (ks: seq<RowKey>)
      requires Valid()
      ensures Distinct(ks) && |ks| == |entries|
      ensures forall k :: k in ks <==> k in RowKeys()
      ensures forall p, q :: 0 <= p < q < |ks| ==> IndexOf(RowKeys(), ks[p]) < IndexOf(RowKeys(), ks[q])
      ensures Distinct(RowKeys()) ==> ks == RowKeys()
    {
      LinkedMap.PutsSpec(RowKeys(), Rows());
      if Distinct(RowKeys()) then
        LinkedMap.KeyOrderOfDistinct(RowKeys());
        order
      else
        order
    }
  }
}

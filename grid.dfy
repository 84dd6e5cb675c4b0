/** The grid-side identifiers the snapshot works with. Both are immutable values compared
    structurally, as the persistence engine compares them (table, then the ordered lists). */
module Grid {
  import opened Documents

  /** Identifies one association instance: its table, the association's own identifying
      columns with their values (parallel lists), and the column names that make up the key
      of one of its rows. */
  datatype AssociationKey = AssociationKey(
    table: string,
    columnNames: seq<string>,
    columnValues: seq<Val>,
    rowKeyColumnNames: seq<string>)
  {
    /** The association key's columns and values are parallel lists. */
    predicate WellFormed() {
      |columnNames| == |columnValues|
    }
  }

  /** Identifies one row of an association. */
  datatype RowKey = RowKey(table: string, columnNames: seq<string>, columnValues: seq<Val>)
}

/** A binary table as the body of an HDU: the data unit a writer sums and writes in chunks. */
module TableBody {
  import opened Bytes
  import opened MergedReads
  import opened TableBuilder
  import opened Tables
  import TableChunks
  import TableLayout
  import TableSelection

  /** The bytes gathered before one write. */
  const CHUNK_BYTES: nat := 0x10_0000

  /** A table, and the extent it was laid out with. */
  datatype TableToWrite = TableToWrite(columns: seq<WriteColumn>, rowCount: nat, layout: TableLayout.Layout)
  {
    ghost predicate Valid() {
      && AllHold(columns, rowCount) && TableLayout.Layable(columns, rowCount)
      && layout == TableLayout.Layout(rowCount, WidthTo(ColumnsOf(columns), |columns|), |TableHeap(CellsOf(columns, rowCount))|)
    }

    /** The data unit: the table's cells, packed. */
    ghost function Unit(): (unit: seq<Byte>)
      requires Valid()
      ensures Packed(ColumnsOf(columns), CellsOf(columns, rowCount)) == Ok(unit)
    {
      Packed(ColumnsOf(columns), CellsOf(columns, rowCount)).value
    }
  }

  /** The layout gives the unit's length. */
  lemma UnitLen(table: TableToWrite)
    requires table.Valid()
    ensures |table.Unit()| == table.layout.DataLen()
  {
    var columns, n := table.columns, table.rowCount;
    ColumnsArePlaced(columns);
    CellsFit(columns, n);
    TableSelection.PackedLength(ColumnsOf(columns), CellsOf(columns, n), table.Unit(), RowStart(n, WidthTo(ColumnsOf(columns), |columns|)));
  }

  /** The chunks of the unit. */
  method Chunks(table: TableToWrite) returns (chunks: seq<seq<Byte>>)
    requires table.Valid()
    ensures Concat(chunks) == table.Unit()
  {
    var chunk := new ByteVec();
    var ok;
    chunks, ok := TableChunks.EncodeChunks(table.columns, table.rowCount, table.layout, CHUNK_BYTES, chunk);
  }
}

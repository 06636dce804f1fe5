/** A written table reads back to the columns it was written from, and the offsets its
    descriptors hold are the sums of the arrays before each. */
module WrittenCells {
  import opened Bytes
  import opened Descriptors
  import opened PackedTables
  import opened TableBuilder
  import opened TableChunks
  import opened TableEncoder
  import opened TableLayout
  import opened TableSelection
  import opened Tables

  /** The schema a reader of the table's data unit has. */
  function WrittenSchema(columns: seq<WriteColumn>, n: nat, unit: seq<Byte>): (s: Schema)
    requires RowStart(n, WidthTo(ColumnsOf(columns), |columns|)) <= |unit| <= USIZE_MAX
    ensures s.Valid()
  {
    ColumnsArePlaced(columns);
    var len := WidthTo(ColumnsOf(columns), |columns|);
    Schema(ColumnsOf(columns), Extent(n, len, RowStart(n, len), |unit|))
  }

  lemma WrittenUnit(columns: seq<WriteColumn>, n: nat, unit: seq<Byte>, r: nat, c: nat) returns (s: Schema)
    requires AllHold(columns, n) && Packed(ColumnsOf(columns), CellsOf(columns, n)) == Ok(unit) && |unit| <= USIZE_MAX
    requires r < n && c < |columns|
    ensures RowStart(n, WidthTo(ColumnsOf(columns), |columns|)) <= |unit| && s == WrittenSchema(columns, n, unit)
    ensures RowIn(unit, s.extent.rowLen, r)
    ensures CellsRead(s, None, unit, RowAt(unit, s.extent.rowLen, r), r)[c] == Ok(columns[c].CellOf(n, r))
  {
    var laid, cells := ColumnsOf(columns), CellsOf(columns, n);
    var len := WidthTo(laid, |columns|);
    ColumnsArePlaced(columns);
    CellsFit(columns, n);
    PackedLength(laid, cells, unit, RowStart(n, len));
    s := WrittenSchema(columns, n, unit);
    TableSelection.PackedReads(laid, cells, unit, r, c, true, r, len, RowStart(n, len));
    CellRead(s, None, unit, RowAt(unit, len, r), r, c);
    assert cells[r][c] == columns[c].CellOf(n, r);
    assert IsColumn(columns, c);
  }

  /** A fixed cell reads back as its values' bytes. */
  lemma {:induction false} FixedReadsBack(columns: seq<WriteColumn>, n: nat, unit: seq<Byte>, r: nat, c: nat)
    requires AllHold(columns, n) && Packed(ColumnsOf(columns), CellsOf(columns, n)) == Ok(unit) && |unit| <= USIZE_MAX
    requires r < n && c < |columns| && columns[c].Fixed?
    ensures RowStart(n, WidthTo(ColumnsOf(columns), |columns|)) <= |unit|
    ensures var s := WrittenSchema(columns, n, unit);
            RowIn(unit, s.extent.rowLen, r) && CellBytes(s, unit, c, r) == Concat(columns[c].Row(n, r))
  {
    var s := WrittenUnit(columns, n, unit, r, c);
    ColumnsArePlaced(columns);
    assert IsColumn(columns, c);
    CellIsSlot(s, unit, c, r);
    CellRead(s, None, unit, RowAt(unit, s.extent.rowLen, r), r, c);
  }

  /** An array reads back with its element count and its values' bytes. */
  lemma {:induction false} ArrayReadsBack(columns: seq<WriteColumn>, n: nat, unit: seq<Byte>, r: nat, c: nat)
    requires AllHold(columns, n) && Packed(ColumnsOf(columns), CellsOf(columns, n)) == Ok(unit) && |unit| <= USIZE_MAX
    requires r < n && c < |columns| && columns[c].Vla?
    ensures RowStart(n, WidthTo(ColumnsOf(columns), |columns|)) <= |unit|
    ensures var s := WrittenSchema(columns, n, unit);
            && s.columns[c].storage.Array?
            && Finds(s, unit, c, r, |columns[c].Row(n, r)|, Concat(columns[c].Row(n, r)))
  {
    var s := WrittenUnit(columns, n, unit, r, c);
    ColumnsArePlaced(columns);
    assert IsColumn(columns, c);
    ReadIsFound(s, None, unit, c, r, |columns[c].Row(n, r)|, Concat(columns[c].Row(n, r)));
  }

  /** The descriptor of an array holds its element count and the bytes of every array before it,
      in row order. */
  lemma {:induction false} DescriptorIsPrefixSum(columns: seq<WriteColumn>, n: nat, unit: seq<Byte>, r: nat, c: nat)
    requires AllHold(columns, n) && Packed(ColumnsOf(columns), CellsOf(columns, n)) == Ok(unit) && |unit| <= USIZE_MAX
    requires r < n && c < |columns| && columns[c].Vla?
    ensures RowStart(n, WidthTo(ColumnsOf(columns), |columns|)) <= |unit|
    ensures var s := WrittenSchema(columns, n, unit);
            && s.columns[c].storage == Array(columns[c].width)
            && RowIn(unit, s.extent.rowLen, r)
            && CellBytes(s, unit, c, r)
            == Descriptor(|columns[c].Row(n, r)|, HeapAt(CellsOf(columns, n), r, c)).Encoded(columns[c].width)
  {
    var laid, cells := ColumnsOf(columns), CellsOf(columns, n);
    var len := WidthTo(laid, |columns|);
    var s := WrittenUnit(columns, n, unit, r, c);
    ColumnsArePlaced(columns);
    CellsFit(columns, n);
    assert IsColumn(columns, c) && cells[r][c] == columns[c].CellOf(n, r);
    CellIsSlot(s, unit, c, r);
    PackedCell(laid, cells, unit, r, c, len, RowStart(n, len), HeapAt(cells, r, c), |columns[c].Row(n, r)|, Concat(columns[c].Row(n, r)));
  }

  // ---- The cells by column, with where each array goes ----

  /** `HeapAt(cells, r, 0)` of every row. */
  method RowStarts(columns: seq<WriteColumn>, n: nat, ghost cells: seq<seq<Cell>>) returns (starts: seq<nat>)
    requires AreCellsOf(columns, n, cells)
    ensures |starts| == n && forall r :: 0 <= r < n ==> starts[r] == HeapAt(cells, r, 0)
  {
    starts := [];
    var heapLen := 0;
    assert cells[..0] == [];
    for row := 0 to n
      invariant |starts| == row && heapLen == |TableHeap(cells[..row])|
      invariant forall r :: 0 <= r < row ==> starts[r] == HeapAt(cells, r, 0)
    {
      HeapAtRow(cells, row);
      starts := starts + [heapLen];
      var bytes := BytesBefore(columns, n, row, |columns|, cells);
      heapLen := heapLen + bytes;
    }
  }

  /** The heap bytes of a row's arrays before column `c`. */
  method BytesBefore(columns: seq<WriteColumn>, n: nat, row: nat, c: nat, ghost cells: seq<seq<Cell>>) returns (bytes: nat)
    requires AreCellsOf(columns, n, cells) && row < n && c <= |columns|
    ensures HeapAt(cells, row, c) == HeapAt(cells, row, 0) + bytes
  {
    bytes := 0;
    for j := 0 to c
      invariant HeapAt(cells, row, j) == HeapAt(cells, row, 0) + bytes
    {
      HeapAtNext(columns, n, cells, row, j);
      if columns[j].Vla? {
        bytes := bytes + columns[j].element.Whole(|columns[j].Row(n, row)|);
      }
    }
  }

  /** Append an array's values and give its descriptor: the offset is the one the written
      table's descriptor holds. */
  method ArrayCell(columns: seq<WriteColumn>, n: nat, row: nat, c: nat, starts: seq<nat>, out: seq<Byte>, ghost cells: seq<seq<Cell>>)
    returns (d: Descriptor, out': seq<Byte>)
    requires AreCellsOf(columns, n, cells) && row < n && c < |columns| && columns[c].Vla?
    requires |starts| == n && starts[row] == HeapAt(cells, row, 0)
    ensures d == Descriptor(|columns[c].Row(n, row)|, HeapAt(cells, row, c)) && out' == out + Concat(columns[c].Row(n, row))
  {
    var before := BytesBefore(columns, n, row, c, cells);
    d := Descriptor(|columns[c].Row(n, row)|, starts[row] + before);
    out' := out + Concat(columns[c].Row(n, row));
  }
}

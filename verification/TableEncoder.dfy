/** One band of the packed unit at a time: columns scattered over its rows, descriptors counted
    along its arrays. */
module TableEncoder {
  import opened Bytes
  import opened Descriptors
  import opened MergedReads
  import opened PackedTables
  import opened TableBands
  import opened TableBuilder
  import opened TableLayout
  import opened Tables

  // ---- One cell ----

  /** Write a cell's values as stored, one after another. */
  method ScatterCell(values: seq<Element>, size: nat, out: ByteVec, at: nat)
    requires forall k :: 0 <= k < |values| ==> |values[k]| == size
    requires at + RowStart(|values|, size) <= |out.bytes|
    modifies out
    ensures Elsewhere(old(out.bytes), out.bytes, at, at + RowStart(|values|, size))
    ensures out.bytes[at..at + RowStart(|values|, size)] == Concat(values)
  {
    ghost var was := out.bytes;
    assert values[..0] == [];
    for k := 0 to |values|
      invariant at + RowStart(k, size) <= |was| && Elsewhere(was, out.bytes, at, at + RowStart(k, size))
      invariant out.bytes[at..at + RowStart(k, size)] == Concat(values[..k])
    {
      ghost var mid := out.bytes;
      var slot := at + RowStart(k, size);
      RowsRise(k, |values|, size);
      out.Write(slot, values[k]);
      ElementWritten(was, mid, out.bytes, at, slot, slot + size);
      assert values[..k + 1] == values[..k] + [values[k]];
      ConcatOne(values[..k], values[k]);
    }
    assert values[..|values|] == values;
  }

  lemma ElementWritten(was: seq<Byte>, mid: seq<Byte>, now: seq<Byte>, at: nat, slot: nat, end: nat)
    requires at <= slot <= end <= |was| && Elsewhere(was, mid, at, slot) && Elsewhere(mid, now, slot, end)
    ensures Elsewhere(was, now, at, end)
    ensures now[at..end] == mid[at..slot] + now[slot..end]
  {
    ElsewhereSlice(mid, now, slot, end, 0, at);
    ElsewhereSlice(mid, now, slot, end, at, slot);
    ElsewhereSlice(was, mid, at, slot, end, |was|);
    assert now[at..end] == now[at..slot] + now[slot..end];
  }

  // ---- What a band should hold ----

  /** The cells the columns hold, row by row. */
  ghost predicate AreCellsOf(columns: seq<WriteColumn>, n: nat, cells: seq<seq<Cell>>) {
    && AllHold(columns, n) && |cells| == n && AreCells(ColumnsOf(columns), cells)
    && forall r :: 0 <= r < n ==> IsRowOf(columns, n, cells, r)
  }

  ghost predicate IsRowOf(columns: seq<WriteColumn>, n: nat, cells: seq<seq<Cell>>, r: nat)
    requires AllHold(columns, n) && r < n == |cells|
  {
    cells[r] == RowCells(columns, n, r)
  }

  lemma CellsAre(columns: seq<WriteColumn>, n: nat)
    requires AllHold(columns, n)
    ensures AreCellsOf(columns, n, CellsOf(columns, n))
  {
    forall r | 0 <= r < n ensures IsRowOf(columns, n, CellsOf(columns, n), r) {
    }
  }

  /** The slots of each of a band's rows, from the table's row `start`. */
  ghost predicate AreWanted(columns: seq<Column>, cells: seq<seq<Cell>>, start: nat, want: seq<Parts>) {
    && start + |want| <= |cells|
    && forall i :: 0 <= i < |want| ==> IsWanted(columns, cells, start, want, i)
  }

  ghost predicate IsWanted(columns: seq<Column>, cells: seq<seq<Cell>>, start: nat, want: seq<Parts>, i: nat)
    requires i < |want| && start + i < |cells|
  {
    AreSlots(columns, cells[start + i], |TableHeap(cells[..start + i])|, want[i])
  }

  /** The heap bytes of the cells before column `c` of row `r`. */
  ghost function HeapAt(cells: seq<seq<Cell>>, r: nat, c: nat): nat
    requires r < |cells| && c <= |cells[r]|
  {
    |TableHeap(cells[..r])| + |HeapOf(cells[r][..c])|
  }

  lemma {:induction false} BandWanted(columns: seq<Column>, cells: seq<seq<Cell>>, start: nat, rows: nat) returns (want: seq<Parts>)
    requires AreCells(columns, cells) && start + rows <= |cells|
    ensures |want| == rows && AreWanted(columns, cells, start, want)
  {
    if rows == 0 {
      want := [];
    } else {
      var before := BandWanted(columns, cells, start, rows - 1);
      var last := RowSlots(columns, cells[start + (rows - 1)], |TableHeap(cells[..start + (rows - 1)])|);
      want := before + [last];
      forall i | 0 <= i < rows ensures IsWanted(columns, cells, start, want, i) {
        if i < rows - 1 {
          assert IsWanted(columns, cells, start, before, i);
        }
      }
    }
  }

  /** A fixed cell is wanted as its values' bytes. */
  lemma {:induction false} FixedWanted(columns: seq<WriteColumn>, n: nat, cells: seq<seq<Cell>>, start: nat, want: seq<Parts>, i: nat, c: nat)
    requires AreCellsOf(columns, n, cells) && AreWanted(ColumnsOf(columns), cells, start, want)
    requires i < |want| && c < |columns| && columns[c].Fixed?
    ensures |want[i]| == |columns| && want[i][c] == Ok(Concat(columns[c].Row(n, start + i)))
  {
    assert IsRowOf(columns, n, cells, start + i);
    assert IsWanted(ColumnsOf(columns), cells, start, want, i);
    assert IsSlot(ColumnsOf(columns), cells[start + i], |TableHeap(cells[..start + i])|, want[i], c);
  }

  /** An array's cell is wanted as the descriptor of where its bytes go. */
  lemma ArrayWanted(columns: seq<WriteColumn>, n: nat, cells: seq<seq<Cell>>, start: nat, want: seq<Parts>, i: nat, c: nat, heapAt: nat)
    requires AreCellsOf(columns, n, cells) && AreWanted(ColumnsOf(columns), cells, start, want)
    requires i < |want| && c < |columns| && columns[c].Vla? && heapAt == HeapAt(cells, start + i, c)
    ensures var d := Descriptor(|columns[c].Row(n, start + i)|, heapAt);
            && |want[i]| == |columns|
            && want[i][c] == if d.Fits(columns[c].width) then Ok(d.Encoded(columns[c].width))
                             else Err(TableError.DescriptorOutOfRange(columns[c].width, d.count, d.offset))
  {
    assert IsRowOf(columns, n, cells, start + i);
    ColumnsArePlaced(columns);
    assert IsColumn(columns, c);
    assert IsWanted(ColumnsOf(columns), cells, start, want, i);
    assert IsSlot(ColumnsOf(columns), cells[start + i], |TableHeap(cells[..start + i])|, want[i], c);
  }

  // ---- A band, column by column ----

  ghost function FixedOf(columns: seq<WriteColumn>): (fixed: seq<bool>)
    ensures |fixed| == |columns|
  {
    seq(|columns|, c requires 0 <= c < |columns| => columns[c].Fixed?)
  }

  /** The bytes of a fixed cell are its values'. */
  lemma FixedWidth(column: WriteColumn, n: nat, r: nat, start: nat)
    requires column.Valid() && column.Holds(n) && r < n && column.Fixed?
    ensures var row := column.Row(n, r);
            && (forall k :: 0 <= k < |row| ==> |row[k]| == column.element.Whole(1))
            && column.ColumnAt(start).ByteWidth() == RowStart(|row|, column.element.Whole(1)) == |Concat(row)|
  {
    var row := column.Row(n, r);
    CellFitsColumn(column, n, r, start);
    RowsRise(r, n, column.repeat);
    forall k | 0 <= k < |row| ensures |row[k]| == column.element.Whole(1) {
      assert row[k] == column.values[RowStart(r, column.repeat) + k];
    }
    ConcatWide(row, column.element.Whole(1));
  }

  /** A band of rows under way. */
  ghost predicate InBand(columns: seq<WriteColumn>, n: nat, cells: seq<seq<Cell>>, start: nat, want: seq<Parts>, bytes: seq<Byte>) {
    && AreCellsOf(columns, n, cells) && start + |want| <= n
    && AreWanted(ColumnsOf(columns), cells, start, want)
    && |bytes| == RowStart(|want|, WidthTo(ColumnsOf(columns), |columns|))
  }

  /** Write one cell of a fixed column. */
  method ScatterRow(columns: seq<WriteColumn>, n: nat, c: nat, start: nat, i: nat, out: ByteVec, at: nat, ghost want: seq<Parts>, ghost cells: seq<seq<Cell>>)
    requires InBand(columns, n, cells, start, want, out.bytes) && c < |columns| && columns[c].Fixed? && i < |want|
    requires at == CellStart(ColumnsOf(columns), i, c)
    requires Written(ColumnsOf(columns), FixedOf(columns), out.bytes, want, c, i, 0, 0)
    modifies out
    ensures InBand(columns, n, cells, start, want, out.bytes)
    ensures Written(ColumnsOf(columns), FixedOf(columns), out.bytes, want, c, i + 1, 0, 0)
  {
    ghost var laid, was := ColumnsOf(columns), out.bytes;
    var column := columns[c];
    ColumnsArePlaced(columns);
    assert IsColumn(columns, c);
    FixedWidth(column, n, start + i, laid[c].start);
    FixedWanted(columns, n, cells, start, want, i, c);
    CellInBand(laid, |want|, i, c);
    ScatterCell(column.Row(n, start + i), column.element.Whole(1), out, at);
    WriteKeeps(laid, FixedOf(columns), was, out.bytes, want, c, i, 0, 0, c, i + 1, 0, 0, i, c);
  }

  /** Write a fixed column's cells of a band, a cell a row. */
  method ScatterColumn(columns: seq<WriteColumn>, n: nat, c: nat, start: nat, rows: nat, out: ByteVec, rowLen: nat, offset: nat,
                       ghost want: seq<Parts>, ghost cells: seq<seq<Cell>>)
    requires InBand(columns, n, cells, start, want, out.bytes) && c < |columns| && columns[c].Fixed? && rows == |want|
    requires rowLen == WidthTo(ColumnsOf(columns), |columns|) && offset == ColumnsOf(columns)[c].start
    requires Written(ColumnsOf(columns), FixedOf(columns), out.bytes, want, c, 0, 0, 0)
    modifies out
    ensures InBand(columns, n, cells, start, want, out.bytes)
    ensures Written(ColumnsOf(columns), FixedOf(columns), out.bytes, want, c + 1, 0, 0, 0)
  {
    for i := 0 to rows
      invariant InBand(columns, n, cells, start, want, out.bytes)
      invariant Written(ColumnsOf(columns), FixedOf(columns), out.bytes, want, c, i, 0, 0)
    {
      ScatterRow(columns, n, c, start, i, out, RowStart(i, rowLen) + offset, want, cells);
    }
    WrittenAs(ColumnsOf(columns), FixedOf(columns), out.bytes, want, c, rows, 0, 0, c + 1, 0, 0, 0);
  }

  lemma WrittenAs(columns: seq<Column>, fixed: seq<bool>, bytes: seq<Byte>, want: seq<Parts>,
                  c: nat, i0: nat, r: nat, k: nat, c': nat, i0': nat, r': nat, k': nat)
    requires Written(columns, fixed, bytes, want, c, i0, r, k)
    requires forall i: nat, j: nat :: i < |want| && j < |columns| && IsDone(fixed, c', i0', r', k', i, j) ==> IsDone(fixed, c, i0, r, k, i, j)
    ensures Written(columns, fixed, bytes, want, c', i0', r', k')
  {
  }

  /** Write the fixed columns of a band. */
  method ScatterColumns(columns: seq<WriteColumn>, n: nat, start: nat, rows: nat, out: ByteVec, rowLen: nat, ghost want: seq<Parts>, ghost cells: seq<seq<Cell>>)
    requires InBand(columns, n, cells, start, want, out.bytes) && rows == |want| && rowLen == WidthTo(ColumnsOf(columns), |columns|)
    modifies out
    ensures InBand(columns, n, cells, start, want, out.bytes)
    ensures Written(ColumnsOf(columns), FixedOf(columns), out.bytes, want, |columns|, 0, 0, 0)
  {
    ghost var laid, fixed := ColumnsOf(columns), FixedOf(columns);
    ColumnsArePlaced(columns);
    WantWide(laid, cells, start, want);
    var offset := 0;
    for c := 0 to |columns|
      invariant InBand(columns, n, cells, start, want, out.bytes)
      invariant offset == WidthTo(laid, c)
      invariant Written(laid, fixed, out.bytes, want, c, 0, 0, 0)
    {
      assert IsPlaced(laid, c) && IsColumn(columns, c);
      if columns[c].Fixed? {
        ScatterColumn(columns, n, c, start, rows, out, rowLen, offset, want, cells);
      } else {
        WrittenAs(laid, fixed, out.bytes, want, c, 0, 0, 0, c + 1, 0, 0, 0);
      }
      offset := offset + columns[c].ColumnAt(offset).ByteWidth();
    }
  }

  lemma WantWide(columns: seq<Column>, cells: seq<seq<Cell>>, start: nat, want: seq<Parts>)
    requires AreWanted(columns, cells, start, want)
    ensures forall i :: 0 <= i < |want| ==> |want[i]| == |columns|
  {
    forall i | 0 <= i < |want| ensures |want[i]| == |columns| {
      assert IsWanted(columns, cells, start, want, i);
    }
  }

  // ---- A band's descriptors ----

  lemma {:induction false} HeapAtNext(columns: seq<WriteColumn>, n: nat, cells: seq<seq<Cell>>, r: nat, c: nat)
    requires AreCellsOf(columns, n, cells) && r < n && c < |columns|
    ensures |cells[r]| == |columns| && HeapAt(cells, r, c + 1) == HeapAt(cells, r, c) + |cells[r][c].Heap()|
    ensures |cells[r][c].Heap()| == if columns[c].Vla? then columns[c].element.Whole(|columns[c].Row(n, r)|) else 0
  {
    assert IsRowOf(columns, n, cells, r);
    HeapTakes(cells[r], c);
    CellHeap(columns[c], n, r, cells[r][c]);
  }

  lemma {:induction false} CellHeap(column: WriteColumn, n: nat, r: nat, cell: Cell)
    requires column.Valid() && column.Holds(n) && r < n && cell == column.CellOf(n, r)
    ensures |cell.Heap()| == if column.Vla? then column.element.Whole(|column.Row(n, r)|) else 0
  {
    CellFitsColumn(column, n, r, 0);
  }

  lemma HeapAtRow(cells: seq<seq<Cell>>, r: nat)
    requires r < |cells|
    ensures HeapAt(cells, r, 0) == |TableHeap(cells[..r])|
    ensures HeapAt(cells, r, |cells[r]|) == |TableHeap(cells[..r + 1])|
  {
    assert cells[..r + 1] == cells[..r] + [cells[r]];
    TableHeapSnoc(cells[..r], cells[r]);
    assert cells[r][..|cells[r]|] == cells[r] && cells[r][..0] == [];
  }

  /** Every cell of the band packs. */
  ghost predicate AllPack(want: seq<Parts>) {
    forall i, j :: 0 <= i < |want| && 0 <= j < |want[i]| ==> want[i][j].Ok?
  }

  /** Write an array's descriptor: where the arrays before it end. */
  method WriteArray(columns: seq<WriteColumn>, n: nat, c: nat, start: nat, i: nat, out: ByteVec, at: nat, heapAt: nat, ghost want: seq<Parts>, ghost cells: seq<seq<Cell>>)
    returns (ok: bool)
    requires InBand(columns, n, cells, start, want, out.bytes) && c < |columns| && columns[c].Vla? && i < |want| && AllPack(want)
    requires at == CellStart(ColumnsOf(columns), i, c) && heapAt == HeapAt(cells, start + i, c)
    requires Written(ColumnsOf(columns), FixedOf(columns), out.bytes, want, |columns|, 0, i, c)
    modifies out
    ensures ok && InBand(columns, n, cells, start, want, out.bytes)
    ensures Written(ColumnsOf(columns), FixedOf(columns), out.bytes, want, |columns|, 0, i, c + 1)
  {
    ghost var laid, was := ColumnsOf(columns), out.bytes;
    var column := columns[c];
    ColumnsArePlaced(columns);
    assert IsColumn(columns, c);
    ArrayWanted(columns, n, cells, start, want, i, c, heapAt);
    assert want[i][c].Ok?;
    CellInBand(laid, |want|, i, c);
    var d := Descriptor(|column.Row(n, start + i)|, heapAt);
    ok := d.Fits(column.width);
    if ok {
      out.Write(at, d.Encoded(column.width));
      WriteKeeps(laid, FixedOf(columns), was, out.bytes, want, |columns|, 0, i, c, |columns|, 0, i, c + 1, i, c);
    }
  }

  /** One column of a row: its descriptor, when it holds arrays. */
  method WriteSlot(columns: seq<WriteColumn>, n: nat, c: nat, start: nat, i: nat, out: ByteVec, cell: nat, heapAt: nat, ghost want: seq<Parts>, ghost cells: seq<seq<Cell>>)
    returns (next: nat, ok: bool)
    requires InBand(columns, n, cells, start, want, out.bytes) && c < |columns| && i < |want| && AllPack(want)
    requires cell == CellStart(ColumnsOf(columns), i, c) && heapAt == HeapAt(cells, start + i, c)
    requires Written(ColumnsOf(columns), FixedOf(columns), out.bytes, want, |columns|, 0, i, c)
    modifies out
    ensures ok && InBand(columns, n, cells, start, want, out.bytes) && next == HeapAt(cells, start + i, c + 1)
    ensures Written(ColumnsOf(columns), FixedOf(columns), out.bytes, want, |columns|, 0, i, c + 1)
  {
    HeapAtNext(columns, n, cells, start + i, c);
    next, ok := heapAt, true;
    if columns[c].Fixed? {
      WrittenAs(ColumnsOf(columns), FixedOf(columns), out.bytes, want, |columns|, 0, i, c, |columns|, 0, i, c + 1);
    } else {
      ok := WriteArray(columns, n, c, start, i, out, cell, heapAt, want, cells);
      next := heapAt + columns[c].element.Whole(|columns[c].Row(n, start + i)|);
    }
  }

  lemma SlotAt(columns: seq<WriteColumn>, c: nat, i: nat, rowLen: nat, at: nat)
    requires c < |columns| && rowLen == WidthTo(ColumnsOf(columns), |columns|) && at == WidthTo(ColumnsOf(columns), c)
    ensures RowStart(i, rowLen) + at == CellStart(ColumnsOf(columns), i, c)
    ensures at + columns[c].ColumnAt(at).ByteWidth() == WidthTo(ColumnsOf(columns), c + 1)
  {
    ColumnsArePlaced(columns);
    assert IsPlaced(ColumnsOf(columns), c) && IsColumn(columns, c);
  }

  /** Write the descriptors of one row's arrays. */
  method WriteRowArrays(columns: seq<WriteColumn>, n: nat, start: nat, i: nat, out: ByteVec, rowLen: nat, heapAt: nat, ghost want: seq<Parts>, ghost cells: seq<seq<Cell>>)
    returns (next: nat, ok: bool)
    requires InBand(columns, n, cells, start, want, out.bytes) && i < |want| && AllPack(want)
    requires rowLen == WidthTo(ColumnsOf(columns), |columns|) && heapAt == HeapAt(cells, start + i, 0)
    requires Written(ColumnsOf(columns), FixedOf(columns), out.bytes, want, |columns|, 0, i, 0)
    modifies out
    ensures ok && InBand(columns, n, cells, start, want, out.bytes) && next == HeapAt(cells, start + i, |columns|)
    ensures Written(ColumnsOf(columns), FixedOf(columns), out.bytes, want, |columns|, 0, i + 1, 0)
  {
    next, ok := heapAt, true;
    var at := 0;
    for c := 0 to |columns|
      invariant InBand(columns, n, cells, start, want, out.bytes) && ok
      invariant at == WidthTo(ColumnsOf(columns), c) && next == HeapAt(cells, start + i, c)
      invariant Written(ColumnsOf(columns), FixedOf(columns), out.bytes, want, |columns|, 0, i, c)
    {
      SlotAt(columns, c, i, rowLen, at);
      next, ok := WriteSlot(columns, n, c, start, i, out, RowStart(i, rowLen) + at, next, want, cells);
      at := at + columns[c].ColumnAt(at).ByteWidth();
    }
    WrittenAs(ColumnsOf(columns), FixedOf(columns), out.bytes, want, |columns|, 0, i, |columns|, |columns|, 0, i + 1, 0);
  }

  /** Write the descriptors of a band's arrays, row by row. */
  method WriteArrays(columns: seq<WriteColumn>, n: nat, start: nat, rows: nat, out: ByteVec, rowLen: nat, heapAt: nat, ghost want: seq<Parts>, ghost cells: seq<seq<Cell>>)
    returns (next: nat, ok: bool)
    requires InBand(columns, n, cells, start, want, out.bytes) && rows == |want| && AllPack(want)
    requires rowLen == WidthTo(ColumnsOf(columns), |columns|) && heapAt == |TableHeap(cells[..start])|
    requires Written(ColumnsOf(columns), FixedOf(columns), out.bytes, want, |columns|, 0, 0, 0)
    modifies out
    ensures ok && InBand(columns, n, cells, start, want, out.bytes) && next == |TableHeap(cells[..start + rows])|
    ensures Written(ColumnsOf(columns), FixedOf(columns), out.bytes, want, |columns|, 0, rows, 0)
  {
    next, ok := heapAt, true;
    for i := 0 to rows
      invariant InBand(columns, n, cells, start, want, out.bytes) && ok
      invariant next == |TableHeap(cells[..start + i])|
      invariant Written(ColumnsOf(columns), FixedOf(columns), out.bytes, want, |columns|, 0, i, 0)
    {
      HeapAtRow(cells, start + i);
      next, ok := WriteRowArrays(columns, n, start, i, out, rowLen, next, want, cells);
    }
  }
}

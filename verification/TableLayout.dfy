/** Columns that agree on their rows, and whether and how they lie in a data unit. */
module TableLayout {
  import opened Bytes
  import opened Descriptors
  import opened PackedTables
  import opened TableBuilder
  import opened Tables

  datatype PushError =
    | PartialTableRow(count: nat, rowWidth: nat)
    | TableRowCountMismatch(expected: nat, got: nat)
    | TableRowCountUndetermined

  /** The one `n` for which the column holds `n` rows, or none where any does. */
  function InferredRows(column: WriteColumn): Result<Option<nat>, PushError> {
    match column
    case Vla(_, _, ends, _) => Ok(Some(|ends|))
    case Fixed(_, values, repeat) =>
      if repeat == 0 then
        if values == [] then Ok(None) else Err(PartialTableRow(|values|, 0))
      else if |values| % repeat == 0 then
        Ok(Some(|values| / repeat))
      else
        Err(PartialTableRow(|values|, repeat))
  }

  /** A column holds the rows it implies, and no other count. */
  lemma InferredExactly(column: WriteColumn, n: nat)
    ensures column.Holds(n) <==> InferredRows(column) == Ok(None) || InferredRows(column) == Ok(Some(n))
  {
    if column.Fixed? && column.repeat > 0 {
      DividesOnce(|column.values|, column.repeat, n);
    } else if column.Fixed? {
      RowStartIs(n, 0);
    }
  }

  lemma {:induction false} DividesOnce(count: nat, repeat: nat, n: nat)
    requires repeat > 0
    ensures count == RowStart(n, repeat) <==> count % repeat == 0 && count / repeat == n
  {
    var q, rest := count / repeat, count % repeat;
    RowStartIs(q, repeat);
    assert count == RowStart(q, repeat) + rest;
    if q < n {
      RowsRise(q, n, repeat);
    } else {
      RowsRise(n, q, repeat);
    }
  }

  class Builder {
    var rowCount: Option<nat>
    var columns: seq<WriteColumn>

    /** Every column holds the table's rows. */
    ghost predicate Valid()
      reads this
    {
      match rowCount
      case None => columns == []
      case Some(n) => AllHold(columns, n)
    }

    constructor ()
      ensures Valid() && rowCount == None && columns == []
    {
      rowCount, columns := None, [];
    }

    constructor WithRows(n: nat)
      ensures Valid() && rowCount == Some(n) && columns == []
    {
      rowCount, columns := Some(n), [];
    }

    /** Add a column, unless its rows are not the table's. */
    method Push(column: WriteColumn) returns (r: Result<(), PushError>)
      requires Valid() && column.Valid()
      modifies this
      ensures Valid()
      ensures r.Ok? ==> columns == old(columns) + [column]
                        && rowCount.Some? && (old(rowCount).Some? ==> rowCount == old(rowCount))
      ensures r.Err? ==> columns == old(columns) && rowCount == old(rowCount)
      ensures old(rowCount).Some? ==> (r.Ok? <==> column.Holds(old(rowCount).value))
      ensures old(rowCount) == None ==> (r.Ok? <==> InferredRows(column).Ok? && InferredRows(column).value.Some?)
    {
      var inferred := InferredRows(column);
      if rowCount.Some? {
        InferredExactly(column, rowCount.value);
      }
      if inferred.Err? {
        return Err(inferred.error);
      }
      if rowCount.Some? && inferred.value.Some? && rowCount.value != inferred.value.value {
        return Err(TableRowCountMismatch(rowCount.value, inferred.value.value));
      }
      if rowCount == None {
        if inferred.value == None {
          return Err(TableRowCountUndetermined);
        }
        InferredExactly(column, inferred.value.value);
        rowCount := inferred.value;
      }
      columns := columns + [column];
      r := Ok(());
    }
  }

  // ---- The layout ----

  datatype LayoutError =
    | InvalidFieldCount
    | DataUnitOverflow
    | DescriptorOutOfRange(width: Width, count: nat, offset: nat)

  datatype Layout = Layout(rowCount: nat, rowLen: nat, heapLen: nat)
  {
    /** Rows and heap together. */
    function DataLen(): nat {
      RowStart(rowCount, rowLen) + heapLen
    }
  }

  /** A table whose counts a header's integers hold, and whose descriptors address its heap. */
  ghost predicate Layable(columns: seq<WriteColumn>, n: nat)
    requires AllHold(columns, n)
  {
    var laid, cells := ColumnsOf(columns), CellsOf(columns, n);
    && |columns| <= MAX_TABLE_FIELDS && n <= I64_MAX
    && WidthTo(laid, |laid|) <= I64_MAX
    && Packed(laid, cells).Ok?
    && |TableHeap(cells)| <= I64_MAX
  }

  predicate HasArrays(columns: seq<WriteColumn>) {
    exists c :: 0 <= c < |columns| && columns[c].Vla?
  }

  /** The bytes of a row, or nothing past what a header's integers hold. */
  method RowWidth(columns: seq<WriteColumn>) returns (r: Option<nat>)
    ensures var laid := ColumnsOf(columns);
            r == if WidthTo(laid, |laid|) <= I64_MAX then Some(WidthTo(laid, |laid|)) else None
  {
    ghost var laid := ColumnsOf(columns);
    ColumnsArePlaced(columns);
    var width: nat := 0;
    for c := 0 to |columns|
      invariant width == WidthTo(laid, c) <= USIZE_MAX
    {
      assert IsColumn(columns, c);
      var column := columns[c].ColumnAt(width).ByteWidth();
      assert column == laid[c].ByteWidth();
      WidthGrows(laid, c + 1, |laid|);
      if width + column > USIZE_MAX {
        return None;
      }
      width := width + column;
    }
    r := if width <= I64_MAX then Some(width) else None;
  }

  /** One array further along the heap: its end, unless its descriptor's integers or 64 bits
      cannot hold the step. */
  function NextHeapLen(width: Width, count: nat, bytes: nat, heapLen: nat): Result<nat, LayoutError> {
    if !Descriptor(count, heapLen).Fits(width) then Err(LayoutError.DescriptorOutOfRange(width, count, heapLen))
    else if heapLen + bytes > USIZE_MAX then Err(LayoutError.DataUnitOverflow)
    else Ok(heapLen + bytes)
  }

  /** A row's arrays join the heap, or one does not fit. */
  method RowHeap(columns: seq<WriteColumn>, n: nat, r: nat, base: nat) returns (end: Result<nat, LayoutError>)
    requires AllHold(columns, n) && r < n && base <= USIZE_MAX
    ensures var laid, cells := ColumnsOf(columns), RowCells(columns, n, r);
            && (end.Ok? ==> PackRow(laid, cells, base).Ok? && end.value == base + |HeapOf(cells)| <= USIZE_MAX)
            && (end.Err? ==> PackRow(laid, cells, base).Err? || base + |HeapOf(cells)| > USIZE_MAX)
  {
    ghost var laid, cells := ColumnsOf(columns), RowCells(columns, n, r);
    ghost var slots := RowSlots(laid, cells, base);
    var heapLen := base;
    for c := 0 to |columns|
      invariant RowPacksTo(cells, slots, c, base, heapLen)
    {
      end := NextCell(columns[c], n, r, heapLen);
      CellHeap(columns, n, r, c, base, heapLen, cells, slots, end);
      CellJoins(cells, slots, c, base, heapLen, end);
      if end.Err? {
        return;
      }
      heapLen := end.value;
    }
    assert cells[..|columns|] == cells;
    end := Ok(heapLen);
  }

  /** A row's first `c` cells pack, and take the heap to `heapLen`. */
  ghost predicate RowPacksTo(cells: seq<Cell>, slots: Parts, c: nat, base: nat, heapLen: nat)
    requires c <= |cells| == |slots|
  {
    Join(slots, c).Ok? && heapLen == base + |HeapOf(cells[..c])| <= USIZE_MAX
  }

  /** What cell `c` makes of the heap, where its array packs. */
  lemma {:induction false} CellHeap(columns: seq<WriteColumn>, n: nat, r: nat, c: nat, base: nat, heapLen: nat, cells: seq<Cell>, slots: Parts,
                 end: Result<nat, LayoutError>)
    requires AllHold(columns, n) && r < n && c < |columns| == |cells| && heapLen == base + |HeapOf(cells[..c])| <= USIZE_MAX
    requires cells[c] == columns[c].CellOf(n, r)
    requires AreSlots(ColumnsOf(columns), cells, base, slots) && end == NextCell(columns[c], n, r, heapLen)
    ensures end.Ok? ==> slots[c].Ok? && end.value == heapLen + |cells[c].Heap()| <= USIZE_MAX
    ensures end.Err? ==> slots[c].Err? || heapLen + |cells[c].Heap()| > USIZE_MAX
  {
    var start := SlotOfColumn(columns, c, base, cells, slots);
    CellPacks(columns[c], n, r, start, heapLen, cells[c], slots[c], end);
  }

  lemma {:induction false} CellJoins(cells: seq<Cell>, slots: Parts, c: nat, base: nat, heapLen: nat, end: Result<nat, LayoutError>)
    requires c < |cells| == |slots| && RowPacksTo(cells, slots, c, base, heapLen)
    requires end.Ok? ==> slots[c].Ok? && end.value == heapLen + |cells[c].Heap()| <= USIZE_MAX
    requires end.Err? ==> slots[c].Err? || heapLen + |cells[c].Heap()| > USIZE_MAX
    ensures end.Ok? ==> RowPacksTo(cells, slots, c + 1, base, end.value)
    ensures end.Err? ==> Join(slots, |slots|).Err? || base + |HeapOf(cells)| > USIZE_MAX
  {
    HeapTakes(cells, c);
    if Join(slots, c + 1).Err? {
      JoinStays(slots, c + 1, |slots|);
    }
  }

  function NextCell(column: WriteColumn, n: nat, r: nat, heapLen: nat): Result<nat, LayoutError>
    requires column.Valid() && column.Holds(n) && r < n && heapLen <= USIZE_MAX
  {
    if column.Fixed? then Ok(heapLen)
    else NextHeapLen(column.width, |column.Row(n, r)|, column.element.Whole(|column.Row(n, r)|), heapLen)
  }

  lemma HeapTakes(cells: seq<Cell>, c: nat)
    requires c < |cells|
    ensures |HeapOf(cells[..c + 1])| == |HeapOf(cells[..c])| + |cells[c].Heap()| <= |HeapOf(cells)|
  {
    assert cells[..c + 1] == cells[..c] + [cells[c]];
    HeapOfSnoc(cells[..c], cells[c]);
    HeapOfPlace(cells, c);
  }

  lemma SlotOfColumn(columns: seq<WriteColumn>, c: nat, base: nat, cells: seq<Cell>, slots: Parts) returns (start: nat)
    requires c < |columns| && AreSlots(ColumnsOf(columns), cells, base, slots)
    ensures slots[c] == PackCell(columns[c].ColumnAt(start), cells[c], base + |HeapOf(cells[..c])|)
  {
    ColumnsArePlaced(columns);
    assert IsColumn(columns, c);
    assert IsSlot(ColumnsOf(columns), cells, base, slots, c);
    start := ColumnsOf(columns)[c].start;
  }

  /** A cell's array joins the heap exactly when its descriptor fits and the heap's length does. */
  lemma CellPacks(column: WriteColumn, n: nat, r: nat, start: nat, heapLen: nat, cell: Cell, slot: Result<seq<Byte>, TableError>,
                  end: Result<nat, LayoutError>)
    requires column.Valid() && column.Holds(n) && r < n && heapLen <= USIZE_MAX
    requires cell == column.CellOf(n, r) && slot == PackCell(column.ColumnAt(start), cell, heapLen)
    requires end == NextCell(column, n, r, heapLen)
    ensures end.Ok? ==> slot.Ok? && end.value == heapLen + |cell.Heap()| <= USIZE_MAX
    ensures end.Err? ==> slot.Err? || heapLen + |cell.Heap()| > USIZE_MAX
  {
    CellFitsColumn(column, n, r, start);
  }

  lemma {:induction false} JoinStays(parts: Parts, i: nat, k: nat)
    requires i <= k <= |parts| && Join(parts, i).Err?
    ensures Join(parts, k).Err?
  {
    if i < k {
      JoinStays(parts, i, k - 1);
    }
  }

  /** The first `r` rows pack, and take the heap to `heapLen`. */
  ghost predicate RowsPackTo(cells: seq<seq<Cell>>, parts: Parts, r: nat, heapLen: nat)
    requires r <= |cells| == |parts|
  {
    Join(parts, r).Ok? && heapLen == |TableHeap(cells[..r])| <= USIZE_MAX
  }

  /** A row's arrays take the heap on, or the table does not pack. */
  lemma {:induction false} RowPacks(columns: seq<Column>, cells: seq<seq<Cell>>, parts: Parts, r: nat, heapLen: nat, end: Result<nat, LayoutError>)
    requires r < |cells| && ArePacked(columns, cells, parts) && RowsPackTo(cells, parts, r, heapLen) && |cells[r]| == |columns|
    requires end.Ok? ==> PackRow(columns, cells[r], heapLen).Ok? && end.value == heapLen + |HeapOf(cells[r])| <= USIZE_MAX
    requires end.Err? ==> PackRow(columns, cells[r], heapLen).Err? || heapLen + |HeapOf(cells[r])| > USIZE_MAX
    ensures end.Ok? ==> RowsPackTo(cells, parts, r + 1, end.value)
    ensures end.Err? ==> Join(parts, |parts|).Err? || |TableHeap(cells)| > USIZE_MAX
  {
    assert IsPackedRow(columns, cells, parts, r);
    assert cells[..r + 1] == cells[..r] + [cells[r]];
    TableHeapSnoc(cells[..r], cells[r]);
    TableHeapPlace(cells, r);
    if Join(parts, r + 1).Err? {
      JoinStays(parts, r + 1, |parts|);
    }
  }

  /** Without arrays there is no heap, and nothing to address. */
  lemma {:induction false} FixedPacks(columns: seq<Column>, cells: seq<seq<Cell>>, parts: Parts, r: nat)
    requires r <= |cells| && ArePacked(columns, cells, parts)
    requires forall k :: 0 <= k < |cells| ==> AllInRow(cells[k])
    ensures RowsPackTo(cells, parts, r, 0)
  {
    if r == 0 {
      assert cells[..0] == [];
    } else {
      FixedPacks(columns, cells, parts, r - 1);
      assert IsPackedRow(columns, cells, parts, r - 1);
      var slots := RowSlots(columns, cells[r - 1], |TableHeap(cells[..r - 1])|);
      FixedRowPacks(columns, cells[r - 1], |TableHeap(cells[..r - 1])|, slots, |columns|);
      assert cells[r - 1][..|columns|] == cells[r - 1];
      assert cells[..r] == cells[..r - 1] + [cells[r - 1]];
      TableHeapSnoc(cells[..r - 1], cells[r - 1]);
    }
  }

  ghost predicate AllInRow(cells: seq<Cell>) {
    forall c :: 0 <= c < |cells| ==> cells[c].InRow?
  }

  lemma {:induction false} FixedRowPacks(columns: seq<Column>, cells: seq<Cell>, base: nat, slots: Parts, c: nat)
    requires c <= |cells| && AllInRow(cells) && AreSlots(columns, cells, base, slots)
    ensures Join(slots, c).Ok? && HeapOf(cells[..c]) == []
  {
    if c > 0 {
      FixedRowPacks(columns, cells, base, slots, c - 1);
      assert IsSlot(columns, cells, base, slots, c - 1);
      assert cells[..c] == cells[..c - 1] + [cells[c - 1]];
      HeapOfSnoc(cells[..c - 1], cells[c - 1]);
    }
  }

  /** The heap's length, every array's descriptor checked against where it will address. */
  method HeapLen(columns: seq<WriteColumn>, n: nat, ghost parts: Parts) returns (r: Result<nat, LayoutError>)
    requires AllHold(columns, n) && ArePacked(ColumnsOf(columns), CellsOf(columns, n), parts)
    ensures r.Ok? ==> Join(parts, |parts|).Ok? && r.value == |TableHeap(CellsOf(columns, n))| <= USIZE_MAX
    ensures r.Err? ==> Join(parts, |parts|).Err? || |TableHeap(CellsOf(columns, n))| > USIZE_MAX
  {
    ghost var laid, cells := ColumnsOf(columns), CellsOf(columns, n);
    assert cells[..n] == cells;
    if !HasArrays(columns) {
      FixedPacks(laid, cells, parts, n);
      return Ok(0);
    }
    var heapLen: nat := 0;
    assert cells[..0] == [];
    for row := 0 to n
      invariant RowsPackTo(cells, parts, row, heapLen)
    {
      var end := RowHeap(columns, n, row, heapLen);
      RowPacks(laid, cells, parts, row, heapLen, end);
      if end.Err? {
        return end;
      }
      heapLen := end.value;
    }
    r := Ok(heapLen);
  }

  /** The extent of the table, checked before any byte is written: it succeeds exactly for a
      table that can be laid out, and gives its extent. */
  method LayOut(columns: seq<WriteColumn>, n: nat) returns (r: Result<Layout, LayoutError>)
    requires AllHold(columns, n)
    ensures r.Ok? <==> Layable(columns, n)
    ensures r.Ok? ==>
              r.value == Layout(n, WidthTo(ColumnsOf(columns), |columns|), |TableHeap(CellsOf(columns, n))|)
  {
    if |columns| > MAX_TABLE_FIELDS {
      return Err(InvalidFieldCount);
    }
    if n > I64_MAX {
      return Err(LayoutError.DataUnitOverflow);
    }
    var width := RowWidth(columns);
    if width == None {
      return Err(LayoutError.DataUnitOverflow);
    }
    ghost var parts := PartsOf(ColumnsOf(columns), CellsOf(columns, n));
    var heap := HeapLen(columns, n, parts);
    if heap.Err? {
      return Err(heap.error);
    }
    if heap.value > I64_MAX {
      return Err(LayoutError.DataUnitOverflow);
    }
    r := Ok(Layout(n, width.value, heap.value));
  }
}

/** A binary table's data unit: rows of cells, then a heap the cells of array columns address;
    what its cells mean, and the packed unit that holds given cells. */
module Tables {
  import opened Bytes
  import opened Descriptors

  datatype Storage = Fixed | Array(width: Width)

  datatype Column = Column(start: nat, repeat: nat, element: ElementKind, storage: Storage)
  {
    /** An array column holds 0 or 1 descriptors. */
    predicate Valid() {
      storage.Array? ==> repeat <= 1
    }

    /** The bytes of the column's cell in every row, saturating. */
    function ByteWidth(): nat {
      match storage
      case Fixed => (match element.PayloadLen(repeat) case Some(len) => len case None => USIZE_MAX)
      case Array(width) => if repeat == 0 then 0 else width.Bytes()
    }

    /** Whether its cells hold a descriptor. */
    predicate HasSlot() {
      storage.Array? && repeat != 0
    }
  }

  /** The bytes of a row's first `c` columns. */
  function WidthTo(columns: seq<Column>, c: nat): nat
    requires c <= |columns|
  {
    if c == 0 then 0 else WidthTo(columns, c - 1) + columns[c - 1].ByteWidth()
  }

  lemma {:induction false} WidthGrows(columns: seq<Column>, c: nat, d: nat)
    requires c <= d <= |columns|
    ensures WidthTo(columns, c) <= WidthTo(columns, d)
  {
    if c < d {
      WidthGrows(columns, c, d - 1);
    }
  }

  /** `rowCount` rows of `rowLen` bytes, and a heap from `heapOffset` to `heapEnd`. */
  datatype Extent = Extent(rowCount: nat, rowLen: nat, heapOffset: nat, heapEnd: nat)

  /** The columns lie one after another, in order. */
  predicate Placed(columns: seq<Column>) {
    && (forall i :: 0 <= i < |columns| ==> columns[i].Valid())
    && (forall i :: 0 <= i < |columns| ==> IsPlaced(columns, i))
  }

  predicate IsPlaced(columns: seq<Column>, i: nat)
    requires i < |columns|
  {
    columns[i].start == WidthTo(columns, i)
  }

  lemma {:induction false} CellLies(columns: seq<Column>, i: nat)
    requires Placed(columns) && i < |columns|
    ensures columns[i].start + columns[i].ByteWidth() == WidthTo(columns, i + 1) <= WidthTo(columns, |columns|)
  {
    assert IsPlaced(columns, i);
    WidthGrows(columns, i + 1, |columns|);
  }

  /** Column `i`'s bytes of a row. */
  function Slot(columns: seq<Column>, row: seq<Byte>, i: nat): (slot: seq<Byte>)
    requires Placed(columns) && i < |columns| && |row| == WidthTo(columns, |columns|)
    ensures |slot| == columns[i].ByteWidth()
  {
    CellLies(columns, i);
    row[columns[i].start..columns[i].start + columns[i].ByteWidth()]
  }

  datatype Schema = Schema(columns: seq<Column>, extent: Extent)
  {
    /** The columns make up the row. */
    predicate Laid() {
      Placed(columns) && extent.rowLen == WidthTo(columns, |columns|)
    }

    /** What parsing a table's header establishes. */
    predicate Valid() {
      && Laid()
      && RowStart(extent.rowCount, extent.rowLen) <= extent.heapOffset <= extent.heapEnd <= USIZE_MAX
    }

    /** This schema for `rowCount` rows whose heap follows them and ends at `dataLen`. */
    function Compacted(rowCount: nat, dataLen: nat): (s: Schema)
      requires Valid() && RowStart(rowCount, extent.rowLen) <= dataLen <= USIZE_MAX
      ensures s.Valid() && s.columns == columns
      ensures s.extent.rowCount == rowCount && s.extent.rowLen == extent.rowLen
      ensures s.extent.heapOffset == RowStart(rowCount, extent.rowLen) && s.extent.heapEnd == dataLen
    {
      Schema(columns, Extent(rowCount, extent.rowLen, RowStart(rowCount, extent.rowLen), dataLen))
    }
  }

  /** Where row `r` of rows of `len` bytes starts. */
  function RowStart(r: nat, len: nat): nat {
    if r == 0 then 0 else RowStart(r - 1, len) + len
  }

  /** Each row is `len` bytes on from the one before. */
  lemma {:induction false} RowStartIs(r: nat, len: nat)
    ensures RowStart(r, len) == r * len
  {
    if r > 0 {
      RowStartIs(r - 1, len);
    }
  }

  /** Rows rise. */
  lemma {:induction false} RowsRise(a: nat, b: nat, len: nat)
    requires a <= b
    ensures RowStart(a, len) <= RowStart(b, len)
    ensures a < b ==> RowStart(a, len) + len == RowStart(a + 1, len) <= RowStart(b, len)
  {
    if a < b {
      RowsRise(a, b - 1, len);
    }
  }

  /** Row `r` of a data unit of rows of `len` bytes. */
  function RowAt(bytes: seq<Byte>, len: nat, r: nat): (row: seq<Byte>)
    requires RowStart(r, len) + len <= |bytes|
    ensures |row| == len
  {
    bytes[RowStart(r, len)..RowStart(r, len) + len]
  }

  // ---- Cells ----

  /** What a table's cell holds: the bytes of a fixed cell, a descriptor the selection leaves
      out, or an array's element count and payload. */
  datatype Cell = InRow(bytes: seq<Byte>) | LeftOut | InHeap(count: nat, payload: seq<Byte>)
  {
    /** An array's payload; of any other cell nothing. */
    function Heap(): seq<Byte> {
      if InHeap? then payload else []
    }

    /** What reading an empty descriptor gives: an array of no elements. */
    function Plain(): Cell {
      if LeftOut? then InHeap(0, []) else this
    }
  }

  /** The mask of a selection's columns; every column when `None`. */
  type Mask = Option<seq<bool>>

  predicate Masks(mask: Mask, columns: seq<Column>) {
    mask.Some? ==> |mask.value| == |columns|
  }

  predicate Keeps(mask: Mask, i: nat)
    requires mask.Some? ==> i < |mask.value|
  {
    mask == None || mask.value[i]
  }

  /** An array as its descriptor gives it: elements, and payload bounds in the data unit. */
  datatype Span = Span(count: nat, start: nat, end: nat)

  /** The span the descriptor `slot` of the array column `column`, the table's column `i`, in
      its row `number` gives. */
  function VlaCellSpan(column: Column, i: nat, slot: seq<Byte>, number: nat, heapOffset: nat, heapEnd: nat)
    : (r: Result<Span, TableError>)
    requires column.HasSlot() && column.Valid() && |slot| == column.ByteWidth()
    ensures r.Ok? ==> r.value.start <= r.value.end && column.element.PayloadLen(r.value.count) == Some(r.value.end - r.value.start)
    ensures r.Ok? ==> r.value.start == r.value.end || r.value.end <= heapEnd
    ensures r.Err? ==> !r.error.UnexpectedEof?
    ensures match Decode(slot, column.storage.width)
            case Err(e) => r == Err(e)
            case Ok(d) =>
              && (r.Err? <==> d.HeapRange(column.element, heapOffset, heapEnd) == None)
              && (r.Err? ==> r.error == DescriptorPastHeap(i, number))
              && (r.Ok? ==> r.value.count == d.count
                            && r.value.start == heapOffset + if r.value.start < r.value.end then d.offset else 0)
  {
    match Decode(slot, column.storage.width)
    case Err(e) => Err(e)
    case Ok(d) =>
      match d.HeapRange(column.element, heapOffset, heapEnd)
      case None => Err(DescriptorPastHeap(i, number))
      case Some(range) => Ok(Span(d.count, range.0, range.1))
  }

  /** The bytes of a span of the data unit `src`. */
  function Fetched(src: seq<Byte>, start: nat, end: nat): (r: Result<seq<Byte>, TableError>)
    requires start <= end
    ensures r.Ok? ==> |r.value| == end - start
    ensures r.Err? ==> r.error == UnexpectedEof && start < end && |src| < end
  {
    if start == end then Ok([]) else if end <= |src| then Ok(src[start..end]) else Err(UnexpectedEof)
  }

  /** What the cell `slot` of the column `column`, the table's column `i`, in its row `number`
      holds, in the data unit `src` with a heap from `heapOffset` to `heapEnd`. */
  function ReadCell(column: Column, i: nat, kept: bool, slot: seq<Byte>, number: nat,
                    src: seq<Byte>, heapOffset: nat, heapEnd: nat): (r: Result<Cell, TableError>)
    requires column.Valid() && |slot| == column.ByteWidth()
    ensures r.Ok? ==> CellFits(column, r.value)
    ensures r.Err? && r.error.UnexpectedEof? ==> |src| < heapEnd
  {
    if !column.HasSlot() then
      Ok(InRow(slot))
    else if !kept then
      Ok(LeftOut)
    else
      match VlaCellSpan(column, i, slot, number, heapOffset, heapEnd)
      case Err(e) => Err(e)
      case Ok(span) =>
        match Fetched(src, span.start, span.end)
        case Err(e) => Err(e)
        case Ok(payload) => Ok(InHeap(span.count, payload))
  }

  /** What each cell of a row holds. */
  function CellsRead(s: Schema, mask: Mask, src: seq<Byte>, row: seq<Byte>, number: nat): (read: seq<Result<Cell, TableError>>)
    requires s.Laid() && Masks(mask, s.columns) && |row| == s.extent.rowLen
    ensures |read| == |s.columns|
  {
    seq(|s.columns|, i requires 0 <= i < |s.columns| =>
      ReadCell(s.columns[i], i, Keeps(mask, i), Slot(s.columns, row, i), number, src, s.extent.heapOffset, s.extent.heapEnd))
  }

  /** The heap bytes of cells, in order. */
  function HeapOf(cells: seq<Cell>): (heap: seq<Byte>) {
    if cells == [] then [] else HeapOf(cells[..|cells| - 1]) + cells[|cells| - 1].Heap()
  }

  lemma {:induction false} HeapOfSnoc(cells: seq<Cell>, cell: Cell)
    ensures HeapOf(cells + [cell]) == HeapOf(cells) + cell.Heap()
  {
    assert (cells + [cell])[..|cells|] == cells;
  }

  /** The heap bytes of rows of cells, in row order. */
  function TableHeap(rows: seq<seq<Cell>>): (heap: seq<Byte>) {
    if rows == [] then [] else TableHeap(rows[..|rows| - 1]) + HeapOf(rows[|rows| - 1])
  }

  lemma {:induction false} TableHeapSnoc(rows: seq<seq<Cell>>, row: seq<Cell>)
    ensures TableHeap(rows + [row]) == TableHeap(rows) + HeapOf(row)
  {
    assert (rows + [row])[..|rows|] == rows;
  }

  /** One more cell, unless the count of heap bytes overflows. */
  function Counted(cells: seq<Cell>, cell: Cell, len: nat): Result<seq<Cell>, TableError> {
    if len + |HeapOf(cells)| + |cell.Heap()| <= USIZE_MAX then Ok(cells + [cell]) else Err(DataUnitOverflow)
  }

  /** The first `c` cells of a row, after `len` heap bytes of the rows before it: the first
      error met in column order. */
  function Collect(read: seq<Result<Cell, TableError>>, c: nat, len: nat): (r: Result<seq<Cell>, TableError>)
    requires c <= |read|
    ensures r.Ok? ==> |r.value| == c
  {
    if c == 0 then Ok([])
    else
      match Collect(read, c - 1, len)
      case Err(e) => Err(e)
      case Ok(cells) =>
        match read[c - 1]
        case Err(e) => Err(e)
        case Ok(cell) => Counted(cells, cell, len)
  }

  /** The cells of the first `k` rows: the first error met in row order. */
  function CollectRows(read: seq<seq<Result<Cell, TableError>>>, k: nat): (r: Result<seq<seq<Cell>>, TableError>)
    requires k <= |read|
    ensures r.Ok? ==> |r.value| == k && forall j :: 0 <= j < k ==> |r.value[j]| == |read[j]|
  {
    if k == 0 then Ok([])
    else
      match CollectRows(read, k - 1)
      case Err(e) => Err(e)
      case Ok(before) =>
        match Collect(read[k - 1], |read[k - 1]|, |TableHeap(before)|)
        case Err(e) => Err(e)
        case Ok(cells) => Ok(before + [cells])
  }

  lemma {:induction false} CollectedCells(read: seq<Result<Cell, TableError>>, c: nat, len: nat)
    requires c <= |read| && Collect(read, c, len).Ok?
    ensures forall i :: 0 <= i < c ==> read[i] == Ok(Collect(read, c, len).value[i])
  {
    if c > 0 {
      CollectedCells(read, c - 1, len);
    }
  }

  /** Rows that collect are, cell by cell, what was read. */
  lemma {:induction false} CollectedRows(read: seq<seq<Result<Cell, TableError>>>, j: nat, k: nat)
    requires j < k <= |read| && CollectRows(read, k).Ok?
    ensures IsRead(read[j], CollectRows(read, k).value[j])
  {
    if j < k - 1 {
      CollectedRows(read, j, k - 1);
    } else {
      CollectedCells(read[j], |read[j]|, |TableHeap(CollectRows(read, j).value)|);
    }
  }

  /** Each cell was read. */
  ghost predicate IsRead(read: seq<Result<Cell, TableError>>, cells: seq<Cell>) {
    && |read| == |cells|
    && forall i :: 0 <= i < |read| ==> read[i] == Ok(cells[i])
  }

  /** An error met in the first rows is met in all of them. */
  lemma {:induction false} CollectFails(read: seq<seq<Result<Cell, TableError>>>, j: nat, k: nat)
    requires j <= k <= |read| && CollectRows(read, j).Err?
    ensures CollectRows(read, k) == CollectRows(read, j)
  {
    if j < k {
      CollectFails(read, j, k - 1);
    }
  }

  // ---- The packed data unit ----

  /** The bytes of a cell in its row, its heap bytes `offset` into the heap. */
  function PackCell(column: Column, cell: Cell, offset: nat): (r: Result<seq<Byte>, TableError>)
    ensures r.Ok? && column.Valid() && CellFits(column, cell) ==> |r.value| == column.ByteWidth()
  {
    match cell
    case InRow(bytes) => Ok(bytes)
    case LeftOut => if column.HasSlot() then Ok(EMPTY.Encoded(column.storage.width)) else Ok([])
    case InHeap(count, _) =>
      if !column.HasSlot() then Ok([])
      else if Descriptor(count, offset).Fits(column.storage.width) then
        Ok(Descriptor(count, offset).Encoded(column.storage.width))
      else
        Err(DescriptorOutOfRange(column.storage.width, count, offset))
  }

  /** Parts in order, as one sequence: the first error met. */
  function Join(parts: seq<Result<seq<Byte>, TableError>>, k: nat): Result<seq<Byte>, TableError>
    requires k <= |parts|
  {
    if k == 0 then Ok([])
    else
      match Join(parts, k - 1)
      case Err(e) => Err(e)
      case Ok(before) =>
        match parts[k - 1]
        case Err(e) => Err(e)
        case Ok(part) => Ok(before + part)
  }

  /** The cells of a row, their heap bytes following the `base` of the rows before. */
  function Slots(columns: seq<Column>, cells: seq<Cell>, base: nat): (slots: seq<Result<seq<Byte>, TableError>>)
    requires |cells| == |columns|
    ensures |slots| == |cells|
  {
    seq(|cells|, i requires 0 <= i < |cells| => PackCell(columns[i], cells[i], base + |HeapOf(cells[..i])|))
  }

  function PackRow(columns: seq<Column>, cells: seq<Cell>, base: nat): Result<seq<Byte>, TableError>
    requires |cells| == |columns|
  {
    Join(Slots(columns, cells, base), |cells|)
  }

  /** Rows of cells, one for each of the columns. */
  predicate AreCells(columns: seq<Column>, rows: seq<seq<Cell>>) {
    forall k :: 0 <= k < |rows| ==> |rows[k]| == |columns|
  }

  function PackedRows(columns: seq<Column>, rows: seq<seq<Cell>>): (packed: seq<Result<seq<Byte>, TableError>>)
    requires AreCells(columns, rows)
    ensures |packed| == |rows|
  {
    seq(|rows|, k requires 0 <= k < |rows| => PackRow(columns, rows[k], |TableHeap(rows[..k])|))
  }

  /** Every row's slots, then every payload, the descriptors in the slots counting the payloads
      before theirs. */
  function Packed(columns: seq<Column>, rows: seq<seq<Cell>>): (r: Result<seq<Byte>, TableError>)
    requires AreCells(columns, rows)
  {
    match Join(PackedRows(columns, rows), |rows|)
    case Err(e) => Err(e)
    case Ok(main) => Ok(main + TableHeap(rows))
  }

  /** The cell can be of the column. */
  predicate CellFits(column: Column, cell: Cell) {
    match cell
    case InRow(bytes) => !column.HasSlot() && |bytes| == column.ByteWidth()
    case LeftOut => column.HasSlot()
    case InHeap(count, payload) => column.HasSlot() && column.element.PayloadLen(count) == Some(|payload|)
  }

  ghost predicate RowFits(columns: seq<Column>, cells: seq<Cell>) {
    && |cells| == |columns|
    && forall i :: 0 <= i < |cells| ==> CellFits(columns[i], cells[i])
  }

  ghost predicate TableFits(columns: seq<Column>, rows: seq<seq<Cell>>) {
    forall k :: 0 <= k < |rows| ==> RowFits(columns, rows[k])
  }
}

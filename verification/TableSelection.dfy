/** What a copy of some rows and columns should be, and how it reads beside the table it came
    from. */
module TableSelection {
  import opened Bytes
  import opened Descriptors
  import opened PackedTables
  import opened Tables

  function ValidateRow(row: nat, len: nat): Option<TableError> {
    if row >= len then Some(RowRangeOutOfBounds(row, Min(row + 1, USIZE_MAX), len)) else None
  }

  function ValidateRowRange(start: nat, end: nat, len: nat): Option<TableError> {
    if start > end || end > len then Some(RowRangeOutOfBounds(start, end, len)) else None
  }

  /** The error of the first row of `rows` past a table of `len` rows. */
  function FirstBad(rows: seq<nat>, k: nat, len: nat): (bad: Option<TableError>)
    requires k <= |rows|
    ensures bad == None <==> forall j :: 0 <= j < k ==> rows[j] < len
  {
    if k == 0 then None
    else if FirstBad(rows, k - 1, len).Some? then FirstBad(rows, k - 1, len)
    else ValidateRow(rows[k - 1], len)
  }

  /** Consecutive rows, or rows picked by number in any order, any of them twice. */
  datatype TableRows = RowRange(start: nat, end: nat) | Picked(rows: seq<nat>)
  {
    function Len(): nat {
      match this
      case RowRange(start, end) => if start <= end then end - start else 0
      case Picked(rows) => |rows|
    }

    function Get(index: nat): nat
      requires index < Len()
    {
      match this
      case RowRange(start, _) => start + index
      case Picked(rows) => rows[index]
    }

    function Numbers(): (numbers: seq<nat>)
      ensures |numbers| == Len()
    {
      seq(Len(), k requires 0 <= k < Len() => Get(k))
    }

    /** Why a table of `len` rows does not have them. */
    function Check(len: nat): Option<TableError> {
      match this
      case RowRange(start, end) => ValidateRowRange(start, end, len)
      case Picked(rows) => FirstBad(rows, |rows|, len)
    }

    lemma Checked(len: nat)
      requires Check(len) == None
      ensures forall k :: 0 <= k < Len() ==> Numbers()[k] == Get(k) < len
    {
    }
  }

  /** The source holds the rows. */
  predicate RowsIn(src: seq<Byte>, len: nat, numbers: seq<nat>) {
    forall k :: 0 <= k < |numbers| ==> RowIn(src, len, numbers[k])
  }

  predicate RowIn(src: seq<Byte>, len: nat, row: nat) {
    RowStart(row, len) + len <= |src|
  }

  /** What the cells of the rows hold. */
  function Reads(s: Schema, mask: Mask, src: seq<Byte>, numbers: seq<nat>): (read: seq<seq<Result<Cell, TableError>>>)
    requires s.Laid() && Masks(mask, s.columns) && RowsIn(src, s.extent.rowLen, numbers)
    ensures |read| == |numbers| && forall k :: 0 <= k < |read| ==> |read[k]| == |s.columns|
  {
    seq(|numbers|, k requires 0 <= k < |numbers| =>
      CellsRead(s, mask, src, RowAt(src, s.extent.rowLen, numbers[k]), numbers[k]))
  }

  /** The cells of the rows of a selection, or why there are none. */
  function SelectedCells(s: Schema, mask: Mask, src: seq<Byte>, rows: TableRows): (r: Result<seq<seq<Cell>>, TableError>)
    requires s.Valid() && Masks(mask, s.columns)
    ensures r.Ok? ==> |r.value| == rows.Len() && AreCells(s.columns, r.value)
  {
    if RowStart(rows.Len(), s.extent.rowLen) > USIZE_MAX then Err(DataUnitOverflow)
    else if rows.Check(s.extent.rowCount).Some? then Err(rows.Check(s.extent.rowCount).value)
    else if !RowsIn(src, s.extent.rowLen, rows.Numbers()) then Err(UnexpectedEof)
    else CollectRows(Reads(s, mask, src, rows.Numbers()), rows.Len())
  }

  /** `Packed` of the cells read at the picked rows, where an array column outside the mask gives
      cells that are left out; or the first error of reading or packing them. */
  function Selected(s: Schema, mask: Mask, src: seq<Byte>, rows: TableRows): (r: Result<seq<Byte>, TableError>)
    requires s.Valid() && Masks(mask, s.columns)
  {
    match SelectedCells(s, mask, src, rows)
    case Err(e) => Err(e)
    case Ok(cells) => Packed(s.columns, cells)
  }

  // ---- What a selection keeps ----

  lemma CellRead(s: Schema, mask: Mask, src: seq<Byte>, row: seq<Byte>, number: nat, i: nat)
    requires s.Laid() && Masks(mask, s.columns) && i < |s.columns| && |row| == s.extent.rowLen
    ensures CellsRead(s, mask, src, row, number)[i]
         == ReadCell(s.columns[i], i, Keeps(mask, i), Slot(s.columns, row, i), number, src, s.extent.heapOffset, s.extent.heapEnd)
  {
  }

  /** The cells selected are, one by one, what the source's rows hold. */
  lemma SelectedAre(s: Schema, mask: Mask, src: seq<Byte>, rows: TableRows, cells: seq<seq<Cell>>, k: nat)
    requires s.Valid() && Masks(mask, s.columns) && SelectedCells(s, mask, src, rows) == Ok(cells) && k < rows.Len()
    ensures RowIn(src, s.extent.rowLen, rows.Get(k))
    ensures IsRead(CellsRead(s, mask, src, RowAt(src, s.extent.rowLen, rows.Get(k)), rows.Get(k)), cells[k])
  {
    assert rows.Numbers()[k] == rows.Get(k);
    CollectedRows(Reads(s, mask, src, rows.Numbers()), k, rows.Len());
  }

  lemma SelectedFit(s: Schema, mask: Mask, src: seq<Byte>, rows: TableRows, cells: seq<seq<Cell>>)
    requires s.Valid() && Masks(mask, s.columns) && SelectedCells(s, mask, src, rows) == Ok(cells)
    ensures TableFits(s.columns, cells)
  {
    forall k | 0 <= k < |cells| ensures RowFits(s.columns, cells[k]) {
      SelectedAre(s, mask, src, rows, cells, k);
      RowReadFits(s, mask, src, RowAt(src, s.extent.rowLen, rows.Get(k)), rows.Get(k), cells[k]);
    }
  }

  lemma RowReadFits(s: Schema, mask: Mask, src: seq<Byte>, row: seq<Byte>, number: nat, cells: seq<Cell>)
    requires s.Valid() && Masks(mask, s.columns) && |row| == s.extent.rowLen
    requires IsRead(CellsRead(s, mask, src, row, number), cells)
    ensures RowFits(s.columns, cells)
  {
    forall i | 0 <= i < |cells| ensures CellFits(s.columns[i], cells[i]) {
      CellRead(s, mask, src, row, number, i);
    }
  }

  /** The copy is as long as its rows and the heap bytes of its cells. */
  lemma SelectedLength(s: Schema, mask: Mask, src: seq<Byte>, rows: TableRows, out: seq<Byte>)
    requires s.Valid() && Masks(mask, s.columns) && Selected(s, mask, src, rows) == Ok(out)
    ensures |out| == RowStart(rows.Len(), s.extent.rowLen) + |TableHeap(SelectedCells(s, mask, src, rows).value)|
  {
    var cells := SelectedCells(s, mask, src, rows).value;
    SelectedFit(s, mask, src, rows, cells);
    PackedLength(s.columns, cells, out, RowStart(rows.Len(), s.extent.rowLen));
  }

  lemma {:induction false} PackedLength(columns: seq<Column>, cells: seq<seq<Cell>>, out: seq<Byte>, main: nat)
    requires Placed(columns) && TableFits(columns, cells) && AreCells(columns, cells) && Packed(columns, cells) == Ok(out)
    requires main == RowStart(|cells|, WidthTo(columns, |columns|))
    ensures |out| == main + |TableHeap(cells)|
  {
    var parts := UnitParts(columns, cells, out);
    UnitLayout(columns, cells, parts, TableHeap(cells), out, main);
  }

  /** Each cell of the copy reads back as the cell of the source it was taken from, a left-out
      array as one of no elements. */
  lemma SelectionReads(s: Schema, mask: Mask, src: seq<Byte>, rows: TableRows, out: seq<Byte>, mask': Mask, k: nat, i: nat)
    requires s.Valid() && Masks(mask, s.columns) && Masks(mask', s.columns) && Selected(s, mask, src, rows) == Ok(out)
    requires |out| <= USIZE_MAX && k < rows.Len() && i < |s.columns|
    ensures RowStart(rows.Len(), s.extent.rowLen) <= |out| && RowIn(out, s.extent.rowLen, k) && RowIn(src, s.extent.rowLen, rows.Get(k))
    ensures var cell := CellsRead(s, mask, src, RowAt(src, s.extent.rowLen, rows.Get(k)), rows.Get(k))[i];
            && cell.Ok?
            && CellsRead(s.Compacted(rows.Len(), |out|), mask', out, RowAt(out, s.extent.rowLen, k), k)[i]
            == Ok(Seen(s.columns[i], cell.value, Keeps(mask', i)))
  {
    var cells := SelectedCells(s, mask, src, rows).value;
    var main := RowStart(rows.Len(), s.extent.rowLen);
    SelectedAre(s, mask, src, rows, cells, k);
    SelectedFit(s, mask, src, rows, cells);
    SelectedLength(s, mask, src, rows, out);
    PackedReads(s.columns, cells, out, k, i, Keeps(mask', i), k, s.extent.rowLen, main);
    CellRead(s.Compacted(rows.Len(), |out|), mask', out, RowAt(out, s.extent.rowLen, k), k, i);
  }

  lemma {:induction false} PackedReads(columns: seq<Column>, cells: seq<seq<Cell>>, out: seq<Byte>, r: nat, i: nat, kept: bool, number: nat, len: nat, main: nat)
    requires Placed(columns) && TableFits(columns, cells) && AreCells(columns, cells) && Packed(columns, cells) == Ok(out)
    requires |out| <= USIZE_MAX && r < |cells| && i < |columns|
    requires len == WidthTo(columns, |columns|) && main == RowStart(|cells|, len)
    ensures |cells[r]| == |columns| && RowIn(out, len, r)
    ensures ReadCell(columns[i], i, kept, Slot(columns, RowAt(out, len, r), i), number, out, main, |out|)
         == Ok(Seen(columns[i], cells[r][i], kept))
  {
    var parts := UnitParts(columns, cells, out);
    UnitReads(columns, cells, parts, out, r, i, kept, number, len, main);
  }

  /** Where a packed unit, as a selection's copy is, holds an array: its descriptor gives the
      count and the heap bytes of all the cells before it, in row order, and its elements lie
      there. */
  lemma {:induction false} PackedCell(columns: seq<Column>, cells: seq<seq<Cell>>, out: seq<Byte>, k: nat, i: nat, len: nat, main: nat, at: nat,
                   count: nat, payload: seq<Byte>)
    requires Placed(columns) && TableFits(columns, cells) && AreCells(columns, cells) && Packed(columns, cells) == Ok(out)
    requires k < |cells| && i < |columns| && cells[k][i] == InHeap(count, payload)
    requires len == WidthTo(columns, |columns|) && main == RowStart(|cells|, len) && at == PlaceOf(cells, k, i)
    ensures columns[i].HasSlot() && RowIn(out, len, k)
    ensures Slot(columns, RowAt(out, len, k), i) == Descriptor(count, at).Encoded(columns[i].storage.width)
    ensures main + at + |payload| <= |out| && out[main + at..main + at + |payload|] == payload
  {
    assert RowFits(columns, cells[k]) && CellFits(columns[i], cells[k][i]);
    var parts := UnitParts(columns, cells, out);
    UnitSlot(columns, cells, parts, TableHeap(cells), out, k, i, len, at);
    UnitLayout(columns, cells, parts, TableHeap(cells), out, main);
    UnitHeap(cells, out, k, i, main, at, payload);
  }

  // ---- What a reader of the copy sees ----

  /** A cell, cut out of its row. */
  function CellBytes(s: Schema, bytes: seq<Byte>, i: nat, r: nat): (cell: seq<Byte>)
    requires s.Valid() && i < |s.columns| && RowIn(bytes, s.extent.rowLen, r)
    ensures |cell| == s.columns[i].ByteWidth()
  {
    CellLies(s.columns, i);
    var start := RowStart(r, s.extent.rowLen) + s.columns[i].start;
    bytes[start..start + s.columns[i].ByteWidth()]
  }

  /** The cell's bytes, decoded as its column's width says. */
  function PqDescriptor(s: Schema, bytes: seq<Byte>, i: nat, r: nat): Result<Descriptor, TableError>
    requires s.Valid() && i < |s.columns| && RowIn(bytes, s.extent.rowLen, r) && s.columns[i].storage.Array?
  {
    if s.columns[i].repeat == 0 then Ok(EMPTY) else Decode(CellBytes(s, bytes, i, r), s.columns[i].storage.width)
  }

  /** The array's payload by its range, where it has one. */
  function PqPayload(s: Schema, bytes: seq<Byte>, d: Descriptor, kind: ElementKind): Option<seq<Byte>>
    requires s.Valid() && s.extent.heapEnd <= |bytes|
  {
    match d.HeapRange(kind, s.extent.heapOffset, s.extent.heapEnd)
    case None => None
    case Some(range) => Some(bytes[range.0..range.1])
  }

  lemma CellIsSlot(s: Schema, bytes: seq<Byte>, i: nat, r: nat)
    requires s.Valid() && i < |s.columns| && RowIn(bytes, s.extent.rowLen, r)
    ensures CellBytes(s, bytes, i, r) == Slot(s.columns, RowAt(bytes, s.extent.rowLen, r), i)
  {
    CellLies(s.columns, i);
    SliceTwice(bytes, RowStart(r, s.extent.rowLen), s.extent.rowLen, s.columns[i].start, s.columns[i].ByteWidth());
  }

  /** What a reader finds in array column `i` of row `r`: its element count and its payload. */
  ghost predicate Finds(s: Schema, bytes: seq<Byte>, i: nat, r: nat, count: nat, payload: seq<Byte>)
    requires s.Valid() && i < |s.columns| && s.columns[i].storage.Array?
  {
    && RowIn(bytes, s.extent.rowLen, r) && s.extent.heapEnd <= |bytes|
    && PqDescriptor(s, bytes, i, r).Ok?
    && var d := PqDescriptor(s, bytes, i, r).value;
       d.count == count && PqPayload(s, bytes, d, s.columns[i].element) == Some(payload)
  }

  lemma ReadIsFound(s: Schema, mask: Mask, bytes: seq<Byte>, i: nat, r: nat, count: nat, payload: seq<Byte>)
    requires s.Valid() && Masks(mask, s.columns) && i < |s.columns| && RowIn(bytes, s.extent.rowLen, r)
    requires s.extent.heapEnd <= |bytes| && s.columns[i].HasSlot()
    requires CellsRead(s, mask, bytes, RowAt(bytes, s.extent.rowLen, r), r)[i] == Ok(InHeap(count, payload))
    ensures Finds(s, bytes, i, r, count, payload)
  {
    CellIsSlot(s, bytes, i, r);
    CellRead(s, mask, bytes, RowAt(bytes, s.extent.rowLen, r), r, i);
    CellFound(s.columns[i], i, Keeps(mask, i), Slot(s.columns, RowAt(bytes, s.extent.rowLen, r), i), r, bytes,
              s.extent.heapOffset, s.extent.heapEnd, count, payload);
  }

  lemma CellFound(column: Column, i: nat, kept: bool, slot: seq<Byte>, number: nat, src: seq<Byte>, heapOffset: nat, heapEnd: nat,
                  count: nat, payload: seq<Byte>)
    requires column.Valid() && |slot| == column.ByteWidth() && heapOffset <= heapEnd <= |src| && column.HasSlot()
    requires ReadCell(column, i, kept, slot, number, src, heapOffset, heapEnd) == Ok(InHeap(count, payload))
    ensures Decode(slot, column.storage.width).Ok? && Decode(slot, column.storage.width).value.count == count
    ensures var range := Decode(slot, column.storage.width).value.HeapRange(column.element, heapOffset, heapEnd);
            && range.Some? && range.value.0 <= range.value.1 <= |src|
            && src[range.value.0..range.value.1] == payload
  {
  }

  /** Read through the compacted extent, the copy gives for every selected row the same bytes
      of each fixed cell. */
  lemma SelectionKeepsFixed(s: Schema, mask: Mask, src: seq<Byte>, rows: TableRows, out: seq<Byte>, k: nat, i: nat)
    requires s.Valid() && Masks(mask, s.columns) && Selected(s, mask, src, rows) == Ok(out)
    requires |out| <= USIZE_MAX && k < rows.Len() && i < |s.columns| && !s.columns[i].HasSlot()
    ensures RowStart(rows.Len(), s.extent.rowLen) <= |out|
    ensures RowIn(out, s.extent.rowLen, k) && RowIn(src, s.extent.rowLen, rows.Get(k))
    ensures CellBytes(s.Compacted(rows.Len(), |out|), out, i, k) == CellBytes(s, src, i, rows.Get(k))
  {
    var copy, r := CopyReads(s, mask, src, rows, out, k, i);
    CellIsSlot(s, src, i, r);
    CellIsSlot(copy, out, i, k);
  }

  /** What the copy reads, cell by cell. */
  lemma CopyReads(s: Schema, mask: Mask, src: seq<Byte>, rows: TableRows, out: seq<Byte>, k: nat, i: nat) returns (copy: Schema, r: nat)
    requires s.Valid() && Masks(mask, s.columns) && Selected(s, mask, src, rows) == Ok(out)
    requires |out| <= USIZE_MAX && k < rows.Len() && i < |s.columns|
    ensures RowStart(rows.Len(), s.extent.rowLen) <= |out| && copy == s.Compacted(rows.Len(), |out|) && r == rows.Get(k)
    ensures RowIn(out, s.extent.rowLen, k) && RowIn(src, s.extent.rowLen, r)
    ensures var column := s.columns[i];
            var was := ReadCell(column, i, Keeps(mask, i), Slot(s.columns, RowAt(src, s.extent.rowLen, r), i), r, src,
                                s.extent.heapOffset, s.extent.heapEnd);
            && was.Ok?
            && was == CellsRead(s, mask, src, RowAt(src, s.extent.rowLen, r), r)[i]
            && ReadCell(column, i, true, Slot(s.columns, RowAt(out, s.extent.rowLen, k), i), k, out, copy.extent.heapOffset, |out|)
            == Ok(was.value.Plain())
            && CellsRead(copy, None, out, RowAt(out, s.extent.rowLen, k), k)[i] == Ok(was.value.Plain())
  {
    SelectionReads(s, mask, src, rows, out, None, k, i);
    r := rows.Get(k);
    copy := s.Compacted(rows.Len(), |out|);
    CellRead(s, mask, src, RowAt(src, s.extent.rowLen, r), r, i);
    CellRead(copy, None, out, RowAt(out, s.extent.rowLen, k), k, i);
  }

  /** For every selected row and kept array column, the copy gives the same element count and
      payload as the source. */
  lemma SelectionKeepsArrays(s: Schema, mask: Mask, src: seq<Byte>, rows: TableRows, out: seq<Byte>, k: nat, i: nat)
    returns (count: nat, payload: seq<Byte>)
    requires s.Valid() && Masks(mask, s.columns) && s.extent.heapEnd <= |src| && Selected(s, mask, src, rows) == Ok(out)
    requires |out| <= USIZE_MAX && k < rows.Len() && i < |s.columns| && s.columns[i].HasSlot() && Keeps(mask, i)
    ensures RowStart(rows.Len(), s.extent.rowLen) <= |out|
    ensures Finds(s, src, i, rows.Get(k), count, payload)
    ensures Finds(s.Compacted(rows.Len(), |out|), out, i, k, count, payload)
  {
    var copy, r := CopyReads(s, mask, src, rows, out, k, i);
    var cell := CellsRead(s, mask, src, RowAt(src, s.extent.rowLen, r), r)[i].value;
    KeptIsInHeap(s.columns[i], i, Slot(s.columns, RowAt(src, s.extent.rowLen, r), i), r, src, s.extent.heapOffset, s.extent.heapEnd);
    count, payload := cell.count, cell.payload;
    ReadIsFound(s, mask, src, i, r, count, payload);
    ReadIsFound(copy, None, out, i, k, count, payload);
  }

  lemma KeptIsInHeap(column: Column, i: nat, slot: seq<Byte>, number: nat, src: seq<Byte>, heapOffset: nat, heapEnd: nat)
    requires column.Valid() && |slot| == column.ByteWidth() && column.HasSlot()
    requires ReadCell(column, i, true, slot, number, src, heapOffset, heapEnd).Ok?
    ensures ReadCell(column, i, true, slot, number, src, heapOffset, heapEnd).value.InHeap?
  {
  }

  /** A left-out array column's descriptors are empty. */
  lemma SelectionLeavesOut(s: Schema, mask: Mask, src: seq<Byte>, rows: TableRows, out: seq<Byte>, k: nat, i: nat)
    requires s.Valid() && Masks(mask, s.columns) && Selected(s, mask, src, rows) == Ok(out)
    requires |out| <= USIZE_MAX && k < rows.Len() && i < |s.columns| && s.columns[i].HasSlot() && !Keeps(mask, i)
    ensures RowStart(rows.Len(), s.extent.rowLen) <= |out| && RowIn(out, s.extent.rowLen, k)
    ensures PqDescriptor(s.Compacted(rows.Len(), |out|), out, i, k) == Ok(EMPTY)
  {
    var copy, r := CopyReads(s, mask, src, rows, out, k, i);
    ReadIsFound(copy, None, out, i, k, 0, []);
    CellIsSlot(copy, out, i, k);
    EmptyDecodes(Slot(s.columns, RowAt(out, s.extent.rowLen, k), i), s.columns[i].storage.width);
  }

  lemma EmptyDecodes(slot: seq<Byte>, width: Width)
    requires |slot| == width.Bytes() && Decode(slot, width).Ok? && Decode(slot, width).value.count == 0
    ensures Decode(slot, width) == Ok(EMPTY)
  {
  }

  // ---- Selections compose ----

  ghost predicate Narrows(inner: Mask, outer: Mask, columns: seq<Column>)
    requires Masks(inner, columns) && Masks(outer, columns)
  {
    forall i :: 0 <= i < |columns| ==> Keeps(inner, i) ==> Keeps(outer, i)
  }

  /** The rows of the source that rows of its copy are. */
  function Through(rows: TableRows, again: TableRows): (numbers: seq<nat>)
    requires again.Check(rows.Len()) == None
    ensures |numbers| == again.Len()
  {
    again.Checked(rows.Len());
    seq(again.Len(), j requires 0 <= j < again.Len() => (again.Checked(rows.Len()); rows.Get(again.Get(j))))
  }

  lemma ThroughLies(s: Schema, mask: Mask, src: seq<Byte>, rows: TableRows, again: TableRows)
    requires s.Valid() && Masks(mask, s.columns) && SelectedCells(s, mask, src, rows).Ok? && again.Check(rows.Len()) == None
    ensures var numbers := Through(rows, again);
            RowsIn(src, s.extent.rowLen, numbers) && FirstBad(numbers, |numbers|, s.extent.rowCount) == None
  {
    var numbers := Through(rows, again);
    rows.Checked(s.extent.rowCount);
    again.Checked(rows.Len());
    forall j | 0 <= j < |numbers| ensures RowIn(src, s.extent.rowLen, numbers[j]) && numbers[j] < s.extent.rowCount {
      assert rows.Numbers()[again.Get(j)] == numbers[j];
    }
  }

  /** Under a narrower mask, a cell reads as it did in the copy made under the wider one. */
  lemma NarrowedRead(column: Column, i: nat, kept: bool, wider: bool, slot: seq<Byte>, number: nat, src: seq<Byte>,
                     heapOffset: nat, heapEnd: nat)
    requires column.Valid() && |slot| == column.ByteWidth() && (kept ==> wider)
    requires ReadCell(column, i, wider, slot, number, src, heapOffset, heapEnd).Ok?
    ensures ReadCell(column, i, kept, slot, number, src, heapOffset, heapEnd)
         == Ok(Seen(column, ReadCell(column, i, wider, slot, number, src, heapOffset, heapEnd).value, kept))
  {
  }

  /** A row of a packed unit, read under a narrower mask, reads as the row its cells were read
      from does. */
  lemma {:induction false} RowReadsAlike(s: Schema, copy: Schema, mask: Mask, mask': Mask, src: seq<Byte>, row: seq<Byte>, r: nat,
                      cells: seq<seq<Cell>>, parts: Parts, out: seq<Byte>, k: nat)
    requires s.Laid() && Masks(mask, s.columns) && Masks(mask', s.columns) && Narrows(mask', mask, s.columns)
    requires k < |cells| && |row| == s.extent.rowLen && IsRead(CellsRead(s, mask, src, row, r), cells[k])
    requires TableFits(s.columns, cells) && IsUnit(s.columns, cells, parts, TableHeap(cells), out) && |out| <= USIZE_MAX
    requires copy.columns == s.columns && copy.extent == Extent(|cells|, s.extent.rowLen, RowStart(|cells|, s.extent.rowLen), |out|)
    requires RowIn(out, s.extent.rowLen, k)
    ensures CellsRead(copy, mask', out, RowAt(out, s.extent.rowLen, k), k) == CellsRead(s, mask', src, row, r)
  {
    var row' := RowAt(out, s.extent.rowLen, k);
    var left, right := CellsRead(copy, mask', out, row', k), CellsRead(s, mask', src, row, r);
    forall i | 0 <= i < |left| ensures left[i] == right[i] {
      UnitReads(s.columns, cells, parts, out, k, i, Keeps(mask', i), k, s.extent.rowLen, copy.extent.heapOffset);
      CellRead(copy, mask', out, row', k, i);
      CellRead(s, mask, src, row, r, i);
      CellRead(s, mask', src, row, r, i);
      NarrowedRead(s.columns[i], i, Keeps(mask', i), Keeps(mask, i), Slot(s.columns, row, i), r, src,
                   s.extent.heapOffset, s.extent.heapEnd);
    }
    assert left == right;
  }

  lemma RowLies(s: Schema, mask: Mask, src: seq<Byte>, rows: TableRows, out: seq<Byte>, k: nat)
    requires s.Valid() && Masks(mask, s.columns) && Selected(s, mask, src, rows) == Ok(out) && k < rows.Len()
    ensures RowIn(out, s.extent.rowLen, k) && RowIn(src, s.extent.rowLen, rows.Get(k))
    ensures RowStart(rows.Len(), s.extent.rowLen) <= |out|
  {
    SelectedLength(s, mask, src, rows, out);
    SelectedAre(s, mask, src, rows, SelectedCells(s, mask, src, rows).value, k);
    RowsRise(k, rows.Len(), s.extent.rowLen);
  }

  lemma ReadsAlike(s: Schema, mask: Mask, src: seq<Byte>, rows: TableRows, out: seq<Byte>, mask': Mask, again: TableRows,
                   copy: Schema, numbers: seq<nat>)
    requires s.Valid() && Masks(mask, s.columns) && Masks(mask', s.columns) && Narrows(mask', mask, s.columns)
    requires Selected(s, mask, src, rows) == Ok(out) && |out| <= USIZE_MAX && again.Check(rows.Len()) == None
    requires RowStart(rows.Len(), s.extent.rowLen) <= |out| && copy == s.Compacted(rows.Len(), |out|)
    requires numbers == Through(rows, again) && RowsIn(src, s.extent.rowLen, numbers)
    ensures RowsIn(out, s.extent.rowLen, again.Numbers())
    ensures Reads(copy, mask', out, again.Numbers()) == Reads(s, mask', src, numbers)
  {
    again.Checked(rows.Len());
    forall k | 0 <= k < |again.Numbers()| ensures RowIn(out, s.extent.rowLen, again.Numbers()[k]) {
      RowLies(s, mask, src, rows, out, again.Get(k));
    }
    var cells := SelectedCells(s, mask, src, rows).value;
    SelectedFit(s, mask, src, rows, cells);
    var parts := UnitParts(s.columns, cells, out);
    var left, right := Reads(copy, mask', out, again.Numbers()), Reads(s, mask', src, numbers);
    forall k | 0 <= k < |left| ensures left[k] == right[k] {
      var r := rows.Get(again.Get(k));
      SelectedAre(s, mask, src, rows, cells, again.Get(k));
      RowReadsAlike(s, copy, mask, mask', src, RowAt(src, s.extent.rowLen, r), r, cells, parts, out, again.Get(k));
    }
    assert left == right;
  }

  /** Selections compose: copying rows of a copy, under a mask that keeps no more columns, is
      copying those rows of the source. Both give the same bytes, or the same error. */
  lemma SelectionsCompose(s: Schema, mask: Mask, src: seq<Byte>, rows: TableRows, out: seq<Byte>, mask': Mask, again: TableRows)
    requires s.Valid() && Masks(mask, s.columns) && Masks(mask', s.columns) && Narrows(mask', mask, s.columns)
    requires Selected(s, mask, src, rows) == Ok(out) && |out| <= USIZE_MAX && again.Check(rows.Len()) == None
    ensures RowStart(rows.Len(), s.extent.rowLen) <= |out|
    ensures Selected(s.Compacted(rows.Len(), |out|), mask', out, again) == Selected(s, mask', src, Picked(Through(rows, again)))
  {
    SelectedLength(s, mask, src, rows, out);
    var copy, picked := s.Compacted(rows.Len(), |out|), Picked(Through(rows, again));
    ThroughLies(s, mask, src, rows, again);
    ReadsAlike(s, mask, src, rows, out, mask', again, copy, Through(rows, again));
    assert picked.Numbers() == Through(rows, again);
  }

  /** Compacting a copy under its own mask changes nothing. */
  lemma SelectionIsIdempotent(s: Schema, mask: Mask, src: seq<Byte>, rows: TableRows, out: seq<Byte>)
    requires s.Valid() && Masks(mask, s.columns) && Selected(s, mask, src, rows) == Ok(out) && |out| <= USIZE_MAX
    ensures RowStart(rows.Len(), s.extent.rowLen) <= |out|
    ensures Selected(s.Compacted(rows.Len(), |out|), mask, out, RowRange(0, rows.Len())) == Ok(out)
  {
    var all := RowRange(0, rows.Len());
    SelectionsCompose(s, mask, src, rows, out, mask, all);
    ThroughLies(s, mask, src, rows, all);
    SameNumbers(s, mask, src, rows, Picked(Through(rows, all)));
  }

  /** How the rows are given does not matter. */
  lemma SameNumbers(s: Schema, mask: Mask, src: seq<Byte>, rows: TableRows, rows': TableRows)
    requires s.Valid() && Masks(mask, s.columns)
    requires rows.Check(s.extent.rowCount) == rows'.Check(s.extent.rowCount) == None
    requires rows.Len() == rows'.Len() && forall k :: 0 <= k < rows.Len() ==> rows.Get(k) == rows'.Get(k)
    ensures Selected(s, mask, src, rows) == Selected(s, mask, src, rows')
  {
    assert rows.Numbers() == rows'.Numbers();
  }
}

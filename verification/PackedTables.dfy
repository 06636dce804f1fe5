/** A packed data unit reads back: each of its cells is where the packing says, and holds what
    was packed. */
module PackedTables {
  import opened Bytes
  import opened Descriptors
  import opened Tables

  type Parts = seq<Result<seq<Byte>, TableError>>

  // ---- Where the parts of a join lie ----

  lemma {:induction false} JoinPrefix(parts: Parts, j: nat, k: nat)
    requires j <= k <= |parts| && Join(parts, k).Ok?
    ensures Join(parts, j).Ok? && Join(parts, j).value <= Join(parts, k).value
  {
    if j < k {
      JoinPrefix(parts, j, k - 1);
    }
  }

  /** `part` follows `before` at the start of `all`. */
  predicate Follows(before: seq<Byte>, part: seq<Byte>, all: seq<Byte>) {
    before + part <= all
  }

  lemma FollowsAt(before: seq<Byte>, part: seq<Byte>, all: seq<Byte>, at: nat, len: nat)
    requires Follows(before, part, all) && at == |before| && len == |part|
    ensures at + len <= |all| && all[at..at + len] == part
  {
    assert (before + part)[at..] == part;
  }

  /** A part is where the parts before it end. */
  lemma {:induction false} PartAt(parts: Parts, i: nat, k: nat, at: nat, len: nat)
    requires i < k <= |parts| && Join(parts, k).Ok?
    requires Join(parts, i).Ok? ==> |Join(parts, i).value| == at
    requires parts[i].Ok? ==> |parts[i].value| == len
    ensures parts[i].Ok? && at + len <= |Join(parts, k).value| && Join(parts, k).value[at..at + len] == parts[i].value
  {
    JoinPrefix(parts, i + 1, k);
    FollowsAt(Join(parts, i).value, parts[i].value, Join(parts, k).value, at, len);
  }

  /** Every part is `width` bytes. */
  ghost predicate Wide(parts: Parts, width: nat) {
    forall i :: 0 <= i < |parts| && parts[i].Ok? ==> |parts[i].value| == width
  }

  lemma {:induction false} JoinWide(parts: Parts, k: nat, width: nat)
    requires k <= |parts| && Join(parts, k).Ok? && Wide(parts, width)
    ensures |Join(parts, k).value| == RowStart(k, width)
  {
    if k > 0 {
      JoinWide(parts, k - 1, width);
    }
  }

  /** Each part is as wide as its column. */
  ghost predicate AsWide(columns: seq<Column>, parts: Parts) {
    && |parts| == |columns|
    && forall i :: 0 <= i < |parts| ==> IsAsWide(columns, parts, i)
  }

  ghost predicate IsAsWide(columns: seq<Column>, parts: Parts, i: nat)
    requires i < |parts| == |columns|
  {
    parts[i].Ok? ==> |parts[i].value| == columns[i].ByteWidth()
  }

  lemma {:induction false} JoinAsWide(columns: seq<Column>, parts: Parts, c: nat)
    requires AsWide(columns, parts) && c <= |columns| && Join(parts, c).Ok?
    ensures |Join(parts, c).value| == WidthTo(columns, c)
  {
    if c > 0 {
      JoinAsWide(columns, parts, c - 1);
      assert IsAsWide(columns, parts, c - 1);
    }
  }

  /** A slice of a slice. */
  lemma SliceTwice(s: seq<Byte>, a: nat, b: nat, c: nat, d: nat)
    requires a + b <= |s| && c + d <= b
    ensures s[a..a + b][c..c + d] == s[a + c..a + c + d]
  {
    var t := s[a..a + b];
    var u, v := t[c..c + d], s[a + c..a + c + d];
    forall j | 0 <= j < d ensures u[j] == v[j] {
      assert u[j] == t[c + j] == s[a + (c + j)];
    }
  }

  // ---- Where heap bytes lie ----

  lemma {:induction false} HeapOfPlace(cells: seq<Cell>, i: nat)
    requires i < |cells|
    ensures Follows(HeapOf(cells[..i]), cells[i].Heap(), HeapOf(cells))
  {
    var front := cells[..|cells| - 1];
    if i < |front| {
      assert front[..i] == cells[..i];
      HeapOfPlace(front, i);
    }
  }

  lemma {:induction false} TableHeapPlace(rows: seq<seq<Cell>>, r: nat)
    requires r < |rows|
    ensures Follows(TableHeap(rows[..r]), HeapOf(rows[r]), TableHeap(rows))
  {
    var front := rows[..|rows| - 1];
    if r < |front| {
      assert front[..r] == rows[..r];
      TableHeapPlace(front, r);
    }
  }

  lemma FollowsIn(a: seq<Byte>, b: seq<Byte>, c: seq<Byte>, d: seq<Byte>, all: seq<Byte>)
    requires Follows(a, b, all) && Follows(c, d, b)
    ensures Follows(a + c, d, all)
  {
    assert a + (c + d) == (a + c) + d;
    assert a + (c + d) <= a + b;
  }

  /** Where the heap bytes of cell `i` of row `r` lie. */
  ghost function PlaceOf(rows: seq<seq<Cell>>, r: nat, i: nat): nat
    requires r < |rows| && i < |rows[r]|
  {
    |TableHeap(rows[..r])| + |HeapOf(rows[r][..i])|
  }

  lemma {:induction false} HeapPlace(rows: seq<seq<Cell>>, r: nat, i: nat, at: nat, len: nat)
    requires r < |rows| && i < |rows[r]| && at == PlaceOf(rows, r, i) && len == |rows[r][i].Heap()|
    ensures at + len <= |TableHeap(rows)| && TableHeap(rows)[at..at + len] == rows[r][i].Heap()
  {
    var base, inner := TableHeap(rows[..r]), HeapOf(rows[r][..i]);
    TableHeapPlace(rows, r);
    HeapOfPlace(rows[r], i);
    FollowsIn(base, HeapOf(rows[r]), inner, rows[r][i].Heap(), TableHeap(rows));
    FollowsAt(base + inner, rows[r][i].Heap(), TableHeap(rows), at, len);
  }

  // ---- Rows ----

  /** A joined row's slots are its parts. */
  lemma {:induction false} SlotIsPart(columns: seq<Column>, parts: Parts, i: nat)
    requires Placed(columns) && AsWide(columns, parts) && i < |columns| && Join(parts, |columns|).Ok?
    ensures |Join(parts, |columns|).value| == WidthTo(columns, |columns|)
    ensures parts[i] == Ok(Slot(columns, Join(parts, |columns|).value, i))
  {
    JoinAsWide(columns, parts, |columns|);
    JoinPrefix(parts, i, |columns|);
    JoinAsWide(columns, parts, i);
    assert IsPlaced(columns, i) && IsAsWide(columns, parts, i);
    PartAt(parts, i, |columns|, columns[i].start, columns[i].ByteWidth());
  }

  /** The slots of a row: each cell, packed after the heap bytes of those before it. */
  ghost predicate AreSlots(columns: seq<Column>, cells: seq<Cell>, base: nat, slots: Parts) {
    && |slots| == |cells| == |columns|
    && forall i :: 0 <= i < |cells| ==> IsSlot(columns, cells, base, slots, i)
  }

  ghost predicate IsSlot(columns: seq<Column>, cells: seq<Cell>, base: nat, slots: Parts, i: nat)
    requires i < |slots| == |cells| == |columns|
  {
    slots[i] == PackCell(columns[i], cells[i], base + |HeapOf(cells[..i])|)
  }

  lemma RowSlots(columns: seq<Column>, cells: seq<Cell>, base: nat) returns (slots: Parts)
    requires |cells| == |columns|
    ensures AreSlots(columns, cells, base, slots) && Join(slots, |columns|) == PackRow(columns, cells, base)
  {
    slots := Slots(columns, cells, base);
    forall i | 0 <= i < |cells| ensures IsSlot(columns, cells, base, slots, i) {
    }
  }

  lemma SlotsWide(columns: seq<Column>, cells: seq<Cell>, base: nat, slots: Parts)
    requires Placed(columns) && RowFits(columns, cells) && AreSlots(columns, cells, base, slots)
    ensures AsWide(columns, slots)
  {
    forall i | 0 <= i < |cells| ensures IsAsWide(columns, slots, i) {
      assert IsSlot(columns, cells, base, slots, i);
    }
  }

  lemma {:induction false} RowIsWide(columns: seq<Column>, cells: seq<Cell>, base: nat)
    requires Placed(columns) && RowFits(columns, cells) && PackRow(columns, cells, base).Ok?
    ensures |PackRow(columns, cells, base).value| == WidthTo(columns, |columns|)
  {
    var slots := RowSlots(columns, cells, base);
    SlotsWide(columns, cells, base, slots);
    JoinAsWide(columns, slots, |columns|);
  }

  /** A packed row's slots are its packed cells. */
  lemma {:induction false} SlotIsPacked(columns: seq<Column>, cells: seq<Cell>, base: nat, slots: Parts, row: seq<Byte>, i: nat, offset: nat)
    requires Placed(columns) && RowFits(columns, cells) && i < |columns|
    requires AreSlots(columns, cells, base, slots) && Join(slots, |columns|) == Ok(row)
    requires offset == base + |HeapOf(cells[..i])|
    ensures |row| == WidthTo(columns, |columns|) && PackCell(columns[i], cells[i], offset) == Ok(Slot(columns, row, i))
  {
    SlotsWide(columns, cells, base, slots);
    SlotIsPart(columns, slots, i);
    assert IsSlot(columns, cells, base, slots, i);
  }

  // ---- The unit ----

  /** A packed unit, by its packed rows. */
  ghost predicate IsUnit(columns: seq<Column>, rows: seq<seq<Cell>>, parts: Parts, heap: seq<Byte>, out: seq<Byte>) {
    && |parts| == |rows|
    && (forall k :: 0 <= k < |rows| ==> IsPackedRow(columns, rows, parts, k))
    && Join(parts, |parts|).Ok?
    && out == Join(parts, |parts|).value + heap
  }

  ghost predicate IsPackedRow(columns: seq<Column>, rows: seq<seq<Cell>>, parts: Parts, k: nat)
    requires k < |parts| == |rows|
  {
    |rows[k]| == |columns| && parts[k] == PackRow(columns, rows[k], |TableHeap(rows[..k])|)
  }

  lemma UnitParts(columns: seq<Column>, rows: seq<seq<Cell>>, out: seq<Byte>) returns (parts: Parts)
    requires AreCells(columns, rows) && Packed(columns, rows) == Ok(out)
    ensures IsUnit(columns, rows, parts, TableHeap(rows), out)
  {
    parts := PackedRows(columns, rows);
    forall k | 0 <= k < |rows| ensures IsPackedRow(columns, rows, parts, k) {
    }
  }

  /** The rows of the packed unit. */
  ghost predicate ArePacked(columns: seq<Column>, rows: seq<seq<Cell>>, parts: Parts) {
    && |parts| == |rows|
    && forall k :: 0 <= k < |rows| ==> IsPackedRow(columns, rows, parts, k)
  }

  /** The parts of the unit the rows pack into. */
  lemma PartsOf(columns: seq<Column>, rows: seq<seq<Cell>>) returns (parts: Parts)
    requires AreCells(columns, rows)
    ensures ArePacked(columns, rows, parts)
    ensures Packed(columns, rows) == match Join(parts, |parts|) case Err(e) => Err(e) case Ok(main) => Ok(main + TableHeap(rows))
  {
    parts := PackedRows(columns, rows);
    forall k | 0 <= k < |rows| ensures IsPackedRow(columns, rows, parts, k) {
    }
  }

  lemma {:induction false} PartsWide(columns: seq<Column>, rows: seq<seq<Cell>>, parts: Parts, heap: seq<Byte>, out: seq<Byte>)
    requires Placed(columns) && TableFits(columns, rows) && IsUnit(columns, rows, parts, heap, out)
    ensures Wide(parts, WidthTo(columns, |columns|))
  {
    forall k | 0 <= k < |parts| && parts[k].Ok? ensures |parts[k].value| == WidthTo(columns, |columns|) {
      assert IsPackedRow(columns, rows, parts, k);
      RowIsWide(columns, rows[k], |TableHeap(rows[..k])|);
    }
  }

  /** A packed unit is its rows, then the heap. */
  lemma {:induction false} UnitLayout(columns: seq<Column>, rows: seq<seq<Cell>>, parts: Parts, heap: seq<Byte>, out: seq<Byte>, main: nat)
    requires Placed(columns) && TableFits(columns, rows) && IsUnit(columns, rows, parts, heap, out)
    requires main == RowStart(|rows|, WidthTo(columns, |columns|))
    ensures main + |heap| == |out| && out[main..] == heap
  {
    PartsWide(columns, rows, parts, heap, out);
    JoinWide(parts, |rows|, WidthTo(columns, |columns|));
  }

  /** Joined parts all as wide are rows. */
  lemma {:induction false} PartIsRow(parts: Parts, r: nat, len: nat)
    requires Wide(parts, len) && r < |parts| && Join(parts, |parts|).Ok?
    ensures RowStart(r, len) + len <= |Join(parts, |parts|).value|
    ensures parts[r] == Ok(RowAt(Join(parts, |parts|).value, len, r))
  {
    JoinPrefix(parts, r, |parts|);
    JoinPrefix(parts, r + 1, |parts|);
    JoinWide(parts, r, len);
    PartAt(parts, r, |parts|, RowStart(r, len), len);
  }

  lemma {:induction false} UnitRow(columns: seq<Column>, rows: seq<seq<Cell>>, parts: Parts, heap: seq<Byte>, out: seq<Byte>, r: nat, len: nat)
    requires Placed(columns) && TableFits(columns, rows) && IsUnit(columns, rows, parts, heap, out)
    requires r < |rows| && len == WidthTo(columns, |columns|)
    ensures RowStart(r, len) + len <= |out| && parts[r] == Ok(RowAt(out, len, r))
  {
    PartsWide(columns, rows, parts, heap, out);
    RowThenHeap(parts, heap, out, r, len);
  }

  lemma {:induction false} RowThenHeap(parts: Parts, heap: seq<Byte>, out: seq<Byte>, r: nat, len: nat)
    requires Wide(parts, len) && r < |parts| && Join(parts, |parts|).Ok? && out == Join(parts, |parts|).value + heap
    ensures RowStart(r, len) + len <= |out| && parts[r] == Ok(RowAt(out, len, r))
  {
    PartIsRow(parts, r, len);
    PrefixSlice(Join(parts, |parts|).value, out, RowStart(r, len), RowStart(r, len) + len);
  }

  lemma PrefixSlice(a: seq<Byte>, b: seq<Byte>, from: nat, to: nat)
    requires a <= b && from <= to <= |a|
    ensures a[from..to] == b[from..to]
  {
  }

  /** Where a packed unit holds the cell. */
  lemma {:induction false} UnitSlot(columns: seq<Column>, rows: seq<seq<Cell>>, parts: Parts, heap: seq<Byte>, out: seq<Byte>,
                 r: nat, i: nat, len: nat, at: nat)
    requires Placed(columns) && TableFits(columns, rows) && IsUnit(columns, rows, parts, heap, out)
    requires r < |rows| && i < |columns| == |rows[r]| && len == WidthTo(columns, |columns|) && at == PlaceOf(rows, r, i)
    ensures RowStart(r, len) + len <= |out|
    ensures PackCell(columns[i], rows[r][i], at) == Ok(Slot(columns, RowAt(out, len, r), i))
  {
    UnitRow(columns, rows, parts, heap, out, r, len);
    assert IsPackedRow(columns, rows, parts, r);
    var base := |TableHeap(rows[..r])|;
    var slots := RowSlots(columns, rows[r], base);
    SlotIsPacked(columns, rows[r], base, slots, RowAt(out, len, r), i, at);
  }

  /** Where a packed unit holds the cell's heap bytes. */
  lemma {:induction false} UnitHeap(rows: seq<seq<Cell>>, out: seq<Byte>, r: nat, i: nat, main: nat, at: nat, payload: seq<Byte>)
    requires main <= |out| && out[main..] == TableHeap(rows)
    requires r < |rows| && i < |rows[r]| && at == PlaceOf(rows, r, i) && payload == rows[r][i].Heap()
    ensures main + at + |payload| <= |out| && out[main + at..main + at + |payload|] == payload
  {
    HeapPlace(rows, r, i, at, |payload|);
    Shifted(out, main, TableHeap(rows), at, |payload|);
  }

  lemma Shifted(out: seq<Byte>, heap: nat, tail: seq<Byte>, at: nat, len: nat)
    requires heap <= |out| && out[heap..] == tail && at + len <= |tail|
    ensures out[heap + at..heap + at + len] == tail[at..at + len]
  {
    FollowsAt(out[..heap] + tail[..at], tail[at..at + len], out, heap + at, len);
  }

  // ---- Reading back ----

  /** What a selection that keeps the columns `mask` keeps reads of a cell. */
  function Seen(column: Column, cell: Cell, kept: bool): Cell {
    if column.HasSlot() && !kept then LeftOut else cell.Plain()
  }

  lemma PackedCellReads(column: Column, i: nat, cell: Cell, offset: nat, kept: bool, number: nat,
                        src: seq<Byte>, heapOffset: nat, heapEnd: nat)
    requires column.Valid() && CellFits(column, cell) && PackCell(column, cell, offset).Ok?
    requires heapOffset + offset + |cell.Heap()| <= heapEnd == |src| <= USIZE_MAX
    requires src[heapOffset + offset..heapOffset + offset + |cell.Heap()|] == cell.Heap()
    ensures |PackCell(column, cell, offset).value| == column.ByteWidth()
    ensures ReadCell(column, i, kept, PackCell(column, cell, offset).value, number, src, heapOffset, heapEnd)
         == Ok(Seen(column, cell, kept))
  {
    if cell.LeftOut? {
      DescriptorRoundTrip(EMPTY, column.storage.width);
    } else if cell.InHeap? {
      DescriptorRoundTrip(Descriptor(cell.count, offset), column.storage.width);
    }
  }

  /** Every cell of a packed unit, read through the compacted extent, is the cell packed. */
  lemma {:induction false} UnitReads(columns: seq<Column>, rows: seq<seq<Cell>>, parts: Parts, out: seq<Byte>, r: nat, i: nat, kept: bool,
                  number: nat, len: nat, main: nat)
    requires Placed(columns) && TableFits(columns, rows) && IsUnit(columns, rows, parts, TableHeap(rows), out)
    requires |out| <= USIZE_MAX && r < |rows| && i < |columns|
    requires len == WidthTo(columns, |columns|) && main == RowStart(|rows|, len)
    ensures |rows[r]| == |columns| && RowStart(r, len) + len <= |out|
    ensures ReadCell(columns[i], i, kept, Slot(columns, RowAt(out, len, r), i), number, out, main, |out|)
         == Ok(Seen(columns[i], rows[r][i], kept))
  {
    assert RowFits(columns, rows[r]);
    var cell, at := rows[r][i], PlaceOf(rows, r, i);
    UnitSlot(columns, rows, parts, TableHeap(rows), out, r, i, len, at);
    UnitLayout(columns, rows, parts, TableHeap(rows), out, main);
    UnitHeap(rows, out, r, i, main, at, cell.Heap());
    PackedCellReads(columns[i], i, cell, at, kept, number, out, main, |out|);
  }
}

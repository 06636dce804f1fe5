/** The chunks a table's data unit is written in: whatever their size, they are the packed
    unit of the cells its columns hold. */
module TableChunks {
  import opened Bytes
  import opened Descriptors
  import opened MergedReads
  import opened PackedTables
  import opened TableBands
  import opened TableBuilder
  import opened TableEncoder
  import opened TableLayout
  import opened Tables

  // ---- A band, whole ----

  lemma {:induction false} SlotsAreUnique(columns: seq<Column>, cells: seq<Cell>, base: nat, slots: Parts)
    requires AreSlots(columns, cells, base, slots)
    ensures Join(slots, |columns|) == PackRow(columns, cells, base)
  {
    forall i | 0 <= i < |slots| ensures slots[i] == Slots(columns, cells, base)[i] {
      assert IsSlot(columns, cells, base, slots, i);
    }
    assert slots == Slots(columns, cells, base);
  }

  /** Every cell of the band is written. */
  ghost predicate AllWritten(columns: seq<Column>, bytes: seq<Byte>, want: seq<Parts>) {
    && (forall i :: 0 <= i < |want| ==> |want[i]| == |columns|)
    && forall i: nat, j: nat :: i < |want| && j < |columns| ==> CellIs(columns, bytes, i, j, want[i][j])
  }

  /** A band all of whose cells are written is its rows, packed. */
  lemma BandIsPacked(columns: seq<Column>, cells: seq<seq<Cell>>, parts: Parts, start: nat, want: seq<Parts>, bytes: seq<Byte>)
    requires Placed(columns) && ArePacked(columns, cells, parts) && AreWanted(columns, cells, start, want)
    requires |bytes| == RowStart(|want|, WidthTo(columns, |columns|)) && AllWritten(columns, bytes, want)
    requires Join(parts, start).Ok?
    ensures Join(parts, start + |want|) == Ok(Join(parts, start).value + bytes)
  {
    var len := WidthTo(columns, |columns|);
    forall i | 0 <= i < |want| ensures IsRowPart(parts, start, len, bytes, i) {
      BandRow(columns, cells, parts, start, want, bytes, i, len);
    }
    BandJoins(parts, start, |want|, len, bytes);
  }

  lemma {:induction false} BandRow(columns: seq<Column>, cells: seq<seq<Cell>>, parts: Parts, start: nat, want: seq<Parts>, bytes: seq<Byte>, i: nat, len: nat)
    requires Placed(columns) && ArePacked(columns, cells, parts) && AreWanted(columns, cells, start, want) && i < |want|
    requires len == WidthTo(columns, |columns|) && |bytes| == RowStart(|want|, len) && AllWritten(columns, bytes, want)
    ensures IsRowPart(parts, start, len, bytes, i)
  {
    RowsRise(i, |want|, len);
    assert IsPackedRow(columns, cells, parts, start + i) && IsWanted(columns, cells, start, want, i);
    SlotsAreUnique(columns, cells[start + i], |TableHeap(cells[..start + i])|, want[i]);
    RowIsJoin(columns, bytes, i, want[i]);
  }

  /** A table that packs packs in every cell. */
  lemma {:induction false} BandPacks(columns: seq<Column>, cells: seq<seq<Cell>>, parts: Parts, start: nat, want: seq<Parts>)
    requires ArePacked(columns, cells, parts) && AreWanted(columns, cells, start, want) && Join(parts, |parts|).Ok?
    ensures AllPack(want)
  {
    forall i, j | 0 <= i < |want| && 0 <= j < |want[i]| ensures want[i][j].Ok? {
      assert IsPackedRow(columns, cells, parts, start + i) && IsWanted(columns, cells, start, want, i);
      SlotsAreUnique(columns, cells[start + i], |TableHeap(cells[..start + i])|, want[i]);
      JoinPrefix(parts, start + i + 1, |parts|);
      JoinPrefix(want[i], j + 1, |columns|);
    }
  }

  function Zeros(n: nat): (zeros: seq<Byte>)
    ensures |zeros| == n
  {
    seq(n, k => 0)
  }

  /** The band becomes rows `start` and on of the packed unit, and the heap counter moves on by
      their arrays. */
  method WriteBand(columns: seq<WriteColumn>, n: nat, start: nat, rows: nat, chunk: ByteVec, rowLen: nat, heapAt: nat,
                   hasArrays: bool, ghost cells: seq<seq<Cell>>, ghost parts: Parts)
    returns (next: nat, ok: bool)
    requires AreCellsOf(columns, n, cells) && start + rows <= n && rowLen == WidthTo(ColumnsOf(columns), |columns|)
    requires ArePacked(ColumnsOf(columns), cells, parts) && Join(parts, |parts|).Ok?
    requires hasArrays == HasArrays(columns) && (hasArrays ==> heapAt == |TableHeap(cells[..start])|)
    modifies chunk
    ensures ok && Join(parts, start).Ok? && Join(parts, start + rows) == Ok(Join(parts, start).value + chunk.bytes)
    ensures if hasArrays then next == |TableHeap(cells[..start + rows])| else next == heapAt
  {
    ghost var laid, fixed := ColumnsOf(columns), FixedOf(columns);
    ghost var want := BandWanted(laid, cells, start, rows);
    BandPacks(laid, cells, parts, start, want);
    chunk.bytes := Zeros(RowStart(rows, rowLen));
    ScatterColumns(columns, n, start, rows, chunk, rowLen, want, cells);
    next, ok := heapAt, true;
    if hasArrays {
      next, ok := WriteArrays(columns, n, start, rows, chunk, rowLen, heapAt, want, cells);
    }
    BandDone(columns, laid, fixed, chunk.bytes, want, rows, hasArrays);
    ColumnsArePlaced(columns);
    JoinPrefix(parts, start, |parts|);
    BandIsPacked(laid, cells, parts, start, want, chunk.bytes);
  }

  lemma {:induction false} BandDone(columns: seq<WriteColumn>, laid: seq<Column>, fixed: seq<bool>, bytes: seq<Byte>, want: seq<Parts>, rows: nat, hasArrays: bool)
    requires laid == ColumnsOf(columns) && fixed == FixedOf(columns) && rows == |want| && hasArrays == HasArrays(columns)
    requires Written(laid, fixed, bytes, want, |columns|, 0, if hasArrays then rows else 0, 0)
    ensures AllWritten(laid, bytes, want)
  {
    forall i: nat, j: nat | i < |want| && j < |laid| ensures CellIs(laid, bytes, i, j, want[i][j]) {
      assert IsDone(fixed, |columns|, 0, if hasArrays then rows else 0, 0, i, j) by {
        assert fixed[j] == columns[j].Fixed?;
      }
    }
  }

  // ---- The heap ----

  /** An array's bytes as one scattered column of one cell. */
  method AppendArray(chunk: ByteVec, values: seq<Element>, size: nat)
    requires forall k :: 0 <= k < |values| ==> |values[k]| == size
    modifies chunk
    ensures chunk.bytes == old(chunk.bytes) + Concat(values)
  {
    ghost var was := chunk.bytes;
    var at := |chunk.bytes|;
    chunk.bytes := chunk.bytes + Zeros(RowStart(|values|, size));
    ghost var mid := chunk.bytes;
    ScatterCell(values, size, chunk, at);
    assert chunk.bytes == chunk.bytes[..at] + chunk.bytes[at..];
    assert chunk.bytes[..at] == was;
  }

  /** What has been handed out and what is gathered, together. */
  ghost predicate Given(chunks: seq<seq<Byte>>, chunk: seq<Byte>, all: seq<Byte>) {
    Concat(chunks) + chunk == all
  }

  /** Gather one column's array of a row, and hand the chunk out once it is large enough. */
  method GatherArray(columns: seq<WriteColumn>, n: nat, row: nat, c: nat, chunk: ByteVec, chunkBytes: nat, chunks: seq<seq<Byte>>,
                     ghost cells: seq<seq<Cell>>, ghost main: seq<Byte>)
    returns (given: seq<seq<Byte>>)
    requires AreCellsOf(columns, n, cells) && row < n && c < |columns|
    requires Given(chunks, chunk.bytes, main + TableHeap(cells[..row]) + HeapOf(cells[row][..c]))
    modifies chunk
    ensures Given(given, chunk.bytes, main + TableHeap(cells[..row]) + HeapOf(cells[row][..c + 1]))
  {
    given := chunks;
    ghost var was := chunk.bytes;
    ghost var before := main + TableHeap(cells[..row]);
    CellJoinsHeap(columns, n, cells, row, c);
    if columns[c].Fixed? {
      return;
    }
    var values := columns[c].Row(n, row);
    VlaElements(columns[c], n, row);
    AppendArray(chunk, values, columns[c].element.Whole(1));
    Regrouped(Concat(chunks), was, Concat(values), before, HeapOf(cells[row][..c]));
    if |chunk.bytes| >= chunkBytes {
      ConcatOne(chunks, chunk.bytes);
      given := chunks + [chunk.bytes];
      chunk.bytes := [];
      assert Concat(given) + [] == Concat(given);
    }
  }

  lemma Regrouped(a: seq<Byte>, b: seq<Byte>, c: seq<Byte>, d: seq<Byte>, e: seq<Byte>)
    requires a + b == d + e
    ensures a + (b + c) == d + (e + c)
  {
    assert a + (b + c) == (a + b) + c && d + (e + c) == (d + e) + c;
  }

  lemma CellJoinsHeap(columns: seq<WriteColumn>, n: nat, cells: seq<seq<Cell>>, row: nat, c: nat)
    requires AreCellsOf(columns, n, cells) && row < n && c < |columns|
    ensures |cells[row]| == |columns|
    ensures HeapOf(cells[row][..c + 1]) == HeapOf(cells[row][..c]) + (if columns[c].Fixed? then [] else Concat(columns[c].Row(n, row)))
    ensures columns[c].Fixed? ==> HeapOf(cells[row][..c + 1]) == HeapOf(cells[row][..c])
  {
    assert IsRowOf(columns, n, cells, row);
    assert cells[row][..c + 1] == cells[row][..c] + [cells[row][c]];
    HeapOfSnoc(cells[row][..c], cells[row][c]);
  }

  lemma VlaElements(column: WriteColumn, n: nat, r: nat)
    requires column.Valid() && column.Holds(n) && r < n && column.Vla?
    ensures forall k :: 0 <= k < |column.Row(n, r)| ==> |column.Row(n, r)[k]| == column.element.Whole(1)
  {
    var row := column.Row(n, r);
    var from := if r == 0 then 0 else column.ends[r - 1];
    forall k | 0 <= k < |row| ensures |row[k]| == column.element.Whole(1) {
      assert row[k] == column.values[from + k];
    }
  }

  method GatherRow(columns: seq<WriteColumn>, n: nat, row: nat, chunk: ByteVec, chunkBytes: nat, chunks: seq<seq<Byte>>,
                   ghost cells: seq<seq<Cell>>, ghost main: seq<Byte>)
    returns (given: seq<seq<Byte>>)
    requires AreCellsOf(columns, n, cells) && row < n
    requires Given(chunks, chunk.bytes, main + TableHeap(cells[..row]))
    modifies chunk
    ensures Given(given, chunk.bytes, main + TableHeap(cells[..row + 1]))
  {
    ghost var before := main + TableHeap(cells[..row]);
    given := chunks;
    assert cells[row][..0] == [] && before + [] == before;
    for c := 0 to |columns|
      invariant Given(given, chunk.bytes, before + HeapOf(cells[row][..c]))
    {
      given := GatherArray(columns, n, row, c, chunk, chunkBytes, given, cells, main);
    }
    assert cells[row][..|columns|] == cells[row] && cells[..row + 1] == cells[..row] + [cells[row]];
    TableHeapSnoc(cells[..row], cells[row]);
    assert before + HeapOf(cells[row]) == main + (TableHeap(cells[..row]) + HeapOf(cells[row]));
  }

  /** The arrays of every row, gathered to `chunkBytes`. */
  method GatherHeap(columns: seq<WriteColumn>, n: nat, chunk: ByteVec, chunkBytes: nat, chunks: seq<seq<Byte>>,
                    ghost cells: seq<seq<Cell>>, ghost main: seq<Byte>)
    returns (given: seq<seq<Byte>>)
    requires AreCellsOf(columns, n, cells) && Concat(chunks) == main
    modifies chunk
    ensures Concat(given) == main + TableHeap(cells)
  {
    given := chunks;
    chunk.bytes := [];
    assert cells[..0] == [] && main + [] == main;
    for row := 0 to n
      invariant Given(given, chunk.bytes, main + TableHeap(cells[..row]))
    {
      given := GatherRow(columns, n, row, chunk, chunkBytes, given, cells, main);
    }
    assert cells[..n] == cells;
    if chunk.bytes != [] {
      ConcatOne(given, chunk.bytes);
      given := given + [chunk.bytes];
    }
  }

  // ---- The unit ----

  /** The rows of a band of up to `chunkBytes`: at least one. */
  function BandRows(chunkBytes: nat, rowLen: nat): (rows: nat)
    ensures rows >= 1
  {
    Max(chunkBytes / Max(rowLen, 1), 1)
  }

  /** The chunks join to the rows of the packed unit, however many rows a band takes. */
  method EncodeRows(columns: seq<WriteColumn>, n: nat, rowLen: nat, chunkBytes: nat, chunk: ByteVec,
                    ghost cells: seq<seq<Cell>>, ghost parts: Parts)
    returns (chunks: seq<seq<Byte>>, heapAt: nat, ok: bool)
    requires AreCellsOf(columns, n, cells) && rowLen == WidthTo(ColumnsOf(columns), |columns|)
    requires ArePacked(ColumnsOf(columns), cells, parts) && Join(parts, |parts|).Ok?
    modifies chunk
    ensures ok && Join(parts, |parts|) == Ok(Concat(chunks))
    ensures HasArrays(columns) ==> heapAt == |TableHeap(cells)|
    ensures !HasArrays(columns) ==> heapAt == 0
  {
    var band := BandRows(chunkBytes, rowLen);
    var hasArrays := HasArrays(columns);
    var start := 0;
    chunks, heapAt, ok := [], 0, true;
    assert cells[..0] == [];
    while start < n
      invariant start <= n && ok
      invariant Join(parts, start) == Ok(Concat(chunks))
      invariant if hasArrays then heapAt == |TableHeap(cells[..start])| else heapAt == 0
    {
      var rows := Min(start + band, n) - start;
      heapAt, ok := WriteBand(columns, n, start, rows, chunk, rowLen, heapAt, hasArrays, cells, parts);
      ConcatOne(chunks, chunk.bytes);
      chunks := chunks + [chunk.bytes];
      start := start + rows;
    }
    assert cells[..n] == cells;
  }

  /** For a table that was laid out, whatever `chunkBytes` is, the chunks together are the packed
      unit of the columns' cells; no descriptor fails, and the running heap offset ends at the
      heap's length. */
  method EncodeChunks(columns: seq<WriteColumn>, n: nat, layout: Layout, chunkBytes: nat, chunk: ByteVec)
    returns (chunks: seq<seq<Byte>>, ok: bool)
    requires AllHold(columns, n) && Layable(columns, n)
    requires layout == Layout(n, WidthTo(ColumnsOf(columns), |columns|), |TableHeap(CellsOf(columns, n))|)
    modifies chunk
    ensures ok && Packed(ColumnsOf(columns), CellsOf(columns, n)) == Ok(Concat(chunks))
    ensures |Concat(chunks)| == layout.DataLen()
  {
    ghost var cells := CellsOf(columns, n);
    ghost var parts := PartsOf(ColumnsOf(columns), cells);
    CellsAre(columns, n);
    var heapAt;
    chunks, heapAt, ok := EncodeRows(columns, n, layout.rowLen, chunkBytes, chunk, cells, parts);
    ghost var main := Concat(chunks);
    UnitLength(columns, n, cells, parts, main);
    assert heapAt == layout.heapLen;
    chunks := HeapChunks(columns, n, chunk, chunkBytes, chunks, cells, main);
  }

  method HeapChunks(columns: seq<WriteColumn>, n: nat, chunk: ByteVec, chunkBytes: nat, chunks: seq<seq<Byte>>,
                    ghost cells: seq<seq<Cell>>, ghost main: seq<Byte>)
    returns (given: seq<seq<Byte>>)
    requires AreCellsOf(columns, n, cells) && Concat(chunks) == main && (!HasArrays(columns) ==> TableHeap(cells) == [])
    modifies chunk
    ensures Concat(given) == main + TableHeap(cells)
  {
    if HasArrays(columns) {
      given := GatherHeap(columns, n, chunk, chunkBytes, chunks, cells, main);
    } else {
      given := chunks;
      assert main + [] == main;
    }
  }

  lemma {:induction false} UnitLength(columns: seq<WriteColumn>, n: nat, cells: seq<seq<Cell>>, parts: Parts, main: seq<Byte>)
    requires AllHold(columns, n) && cells == CellsOf(columns, n) && ArePacked(ColumnsOf(columns), cells, parts)
    requires Join(parts, |parts|) == Ok(main)
    ensures |main| == RowStart(n, WidthTo(ColumnsOf(columns), |columns|))
    ensures !HasArrays(columns) ==> TableHeap(cells) == []
  {
    ColumnsArePlaced(columns);
    CellsFit(columns, n);
    assert IsUnit(ColumnsOf(columns), cells, parts, [], main + []);
    PartsWide(ColumnsOf(columns), cells, parts, [], main + []);
    JoinWide(parts, n, WidthTo(ColumnsOf(columns), |columns|));
    if !HasArrays(columns) {
      forall r | 0 <= r < n ensures AllInRow(cells[r]) {
      }
      FixedPacks(ColumnsOf(columns), cells, parts, n);
      assert cells[..n] == cells;
    }
  }
}

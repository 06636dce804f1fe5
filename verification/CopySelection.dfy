/** The copy of a selection, in place: rows fetched, descriptors rewritten where they lie, heap
    arrays appended through joined fetches. */
module CopySelection {
  import opened Bytes
  import opened Descriptors
  import opened MergedReads
  import opened PackedTables
  import opened TableSelection
  import opened Tables

  // ---- How reads fail ----

  /** The reads of a row collect, or fail only where the source ends short of an array. */
  ghost predicate OkOrShort<T>(r: Result<T, TableError>) {
    r.Ok? || r.error.UnexpectedEof?
  }

  /** An error met in a row's first cells is the row's. */
  lemma {:induction false} CollectCellsFails(read: seq<Result<Cell, TableError>>, i: nat, c: nat, len: nat)
    requires i <= c <= |read| && Collect(read, i, len).Err?
    ensures Collect(read, c, len) == Collect(read, i, len)
  {
    if i < c {
      CollectCellsFails(read, i, c - 1, len);
    }
  }

  /** The source ends short of one of the arrays. */
  ghost predicate HasShort(read: seq<Result<Cell, TableError>>) {
    exists i :: 0 <= i < |read| && IsShort(read[i])
  }

  ghost predicate IsShort(r: Result<Cell, TableError>) {
    r.Err? && r.error.UnexpectedEof?
  }

  lemma {:induction false} ShortCells(read: seq<Result<Cell, TableError>>, c: nat, len: nat)
    requires c <= |read| && Collect(read, c, len) == Err(UnexpectedEof)
    ensures HasShort(read)
  {
    if Collect(read, c - 1, len).Err? {
      ShortCells(read, c - 1, len);
    } else {
      assert IsShort(read[c - 1]);
    }
  }

  lemma {:induction false} ShortRows(read: seq<seq<Result<Cell, TableError>>>, k: nat)
    requires k <= |read| && CollectRows(read, k) == Err(UnexpectedEof)
    ensures exists j :: 0 <= j < k && HasShort(read[j])
  {
    if CollectRows(read, k - 1).Err? {
      ShortRows(read, k - 1);
    } else {
      ShortCells(read[k - 1], |read[k - 1]|, |TableHeap(CollectRows(read, k - 1).value)|);
    }
  }

  /** A source that holds the whole heap is never short. */
  lemma NeverShort(s: Schema, mask: Mask, src: seq<Byte>, row: seq<Byte>, number: nat)
    requires s.Valid() && Masks(mask, s.columns) && |row| == s.extent.rowLen && s.extent.heapEnd <= |src|
    ensures !HasShort(CellsRead(s, mask, src, row, number))
  {
    forall i | 0 <= i < |s.columns| ensures !IsShort(CellsRead(s, mask, src, row, number)[i]) {
      CellRead(s, mask, src, row, number, i);
    }
  }

  /** The whole selection of a source that holds all of its data unit never ends short. */
  lemma WholeSource(s: Schema, mask: Mask, src: seq<Byte>, rows: TableRows)
    requires s.Valid() && Masks(mask, s.columns) && s.extent.heapEnd <= |src|
    requires rows.Check(s.extent.rowCount) == None
    ensures RowsIn(src, s.extent.rowLen, rows.Numbers())
    ensures CollectRows(Reads(s, mask, src, rows.Numbers()), rows.Len()) != Err(UnexpectedEof)
  {
    var numbers, len := rows.Numbers(), s.extent.rowLen;
    rows.Checked(s.extent.rowCount);
    forall k | 0 <= k < |numbers| ensures RowIn(src, len, numbers[k]) {
      RowBelow(numbers[k], s.extent.rowCount, len);
    }
    var read := Reads(s, mask, src, numbers);
    if CollectRows(read, rows.Len()) == Err(UnexpectedEof) {
      ShortRows(read, rows.Len());
      var j :| 0 <= j < rows.Len() && HasShort(read[j]);
      NeverShort(s, mask, src, RowAt(src, len, numbers[j]), numbers[j]);
      assert false;
    }
  }

  lemma RowBelow(row: nat, count: nat, len: nat)
    requires row < count
    ensures RowStart(row, len) + len == RowStart(row + 1, len) <= RowStart(count, len)
  {
    RowsRise(row, count, len);
  }

  /** What each cell of a row holds. */
  ghost predicate AreReads(s: Schema, mask: Mask, src: seq<Byte>, row: seq<Byte>, number: nat, read: seq<Result<Cell, TableError>>)
    requires s.Laid() && Masks(mask, s.columns) && |row| == s.extent.rowLen
  {
    && |read| == |s.columns|
    && forall i :: 0 <= i < |read| ==> IsReadOf(s, mask, src, row, number, read, i)
  }

  ghost predicate IsReadOf(s: Schema, mask: Mask, src: seq<Byte>, row: seq<Byte>, number: nat, read: seq<Result<Cell, TableError>>, i: nat)
    requires s.Laid() && Masks(mask, s.columns) && |row| == s.extent.rowLen && i < |read| == |s.columns|
  {
    read[i] == ReadCell(s.columns[i], i, Keeps(mask, i), Slot(s.columns, row, i), number, src, s.extent.heapOffset, s.extent.heapEnd)
  }

  lemma RowReads(s: Schema, mask: Mask, src: seq<Byte>, row: seq<Byte>, number: nat)
    requires s.Laid() && Masks(mask, s.columns) && |row| == s.extent.rowLen
    ensures AreReads(s, mask, src, row, number, CellsRead(s, mask, src, row, number))
  {
    var read := CellsRead(s, mask, src, row, number);
    forall i | 0 <= i < |read| ensures IsReadOf(s, mask, src, row, number, read, i) {
      CellRead(s, mask, src, row, number, i);
    }
  }

  // ---- The heap's length ----

  /** A cell's heap bytes, counted without fetching them. */
  method CountCell(s: Schema, mask: Mask, slot: seq<Byte>, number: nat, i: nat, len: nat, ghost src: seq<Byte>, ghost read: Result<Cell, TableError>)
    returns (r: Result<nat, TableError>)
    requires s.Laid() && Masks(mask, s.columns) && i < |s.columns| && |slot| == s.columns[i].ByteWidth() && len <= USIZE_MAX
    requires read == ReadCell(s.columns[i], i, Keeps(mask, i), slot, number, src, s.extent.heapOffset, s.extent.heapEnd)
    ensures read.Ok? ==> r == if len + |read.value.Heap()| <= USIZE_MAX then Ok(len + |read.value.Heap()|) else Err(DataUnitOverflow)
    ensures read.Err? ==> IsShort(read) || r == Err(read.error)
    ensures r.Ok? ==> r.value <= USIZE_MAX
  {
    var column := s.columns[i];
    if !column.HasSlot() || !Keeps(mask, i) {
      return Ok(len);
    }
    var span := VlaCellSpan(column, i, slot, number, s.extent.heapOffset, s.extent.heapEnd);
    if span.Err? {
      return Err(span.error);
    }
    var bytes := span.value.end - span.value.start;
    if len + bytes > USIZE_MAX {
      return Err(DataUnitOverflow);
    }
    r := Ok(len + bytes);
  }

  /** The heap bytes of a row's selected cells join `len`: the row's error where one is met
      first. */
  method CountRow(s: Schema, mask: Mask, row: seq<Byte>, number: nat, len: nat, ghost src: seq<Byte>,
                  ghost read: seq<Result<Cell, TableError>>)
    returns (r: Result<nat, TableError>)
    requires s.Laid() && Masks(mask, s.columns) && |row| == s.extent.rowLen && len <= USIZE_MAX
    requires AreReads(s, mask, src, row, number, read)
    ensures var all := Collect(read, |read|, len);
            && (all.Ok? ==> r == Ok(len + |HeapOf(all.value)|))
            && (all.Err? ==> all.error.UnexpectedEof? || r == Err(all.error))
    ensures r.Ok? ==> r.value <= USIZE_MAX
  {
    var total: nat := len;
    for i := 0 to |s.columns|
      invariant total <= USIZE_MAX
      invariant CountedTo(read, i, len, total)
    {
      assert IsReadOf(s, mask, src, row, number, read, i);
      var next := CountCell(s, mask, Slot(s.columns, row, i), number, i, total, src, read[i]);
      CountedCell(read, i, len, total, next);
      if next.Err? {
        return Err(next.error);
      }
      total := next.value;
    }
    r := Ok(total);
  }

  /** The heap bytes of a row's first cells are counted. */
  ghost predicate CountedTo(read: seq<Result<Cell, TableError>>, i: nat, len: nat, total: nat)
    requires i <= |read|
  {
    && OkOrShort(Collect(read, i, len))
    && (Collect(read, i, len).Ok? ==> total == len + |HeapOf(Collect(read, i, len).value)|)
  }

  lemma {:induction false} CountedCell(read: seq<Result<Cell, TableError>>, i: nat, len: nat, total: nat, next: Result<nat, TableError>)
    requires i < |read| && CountedTo(read, i, len, total)
    requires read[i].Ok? ==>
               next == if total + |read[i].value.Heap()| <= USIZE_MAX then Ok(total + |read[i].value.Heap()|) else Err(DataUnitOverflow)
    requires read[i].Err? ==> IsShort(read[i]) || next == Err(read[i].error)
    ensures next.Ok? ==> CountedTo(read, i + 1, len, next.value)
    ensures next.Err? ==> Collect(read, |read|, len) == Err(UnexpectedEof) || Collect(read, |read|, len) == Err(next.error)
  {
    var before := Collect(read, i, len);
    if before.Ok? && read[i].Ok? {
      HeapOfSnoc(before.value, read[i].value);
    }
    if Collect(read, i + 1, len).Err? {
      CollectCellsFails(read, i + 1, |read|, len);
    }
  }

  /** Rows of a data unit are its rows `numbers`, of the source's. */
  ghost predicate AreRows(main: seq<Byte>, len: nat, src: seq<Byte>, numbers: seq<nat>) {
    && |main| == RowStart(|numbers|, len) && RowsIn(src, len, numbers)
    && forall k :: 0 <= k < |numbers| ==> IsRowOf(main, len, src, numbers, k)
  }

  ghost predicate IsRowOf(main: seq<Byte>, len: nat, src: seq<Byte>, numbers: seq<nat>, k: nat)
    requires k < |numbers|
  {
    && RowIn(src, len, numbers[k]) && RowIn(main, len, k)
    && RowAt(main, len, k) == RowAt(src, len, numbers[k])
  }

  lemma RowReadsAs(s: Schema, mask: Mask, src: seq<Byte>, numbers: seq<nat>, main: seq<Byte>, k: nat)
    requires s.Laid() && Masks(mask, s.columns) && AreRows(main, s.extent.rowLen, src, numbers) && k < |numbers|
    ensures RowIn(main, s.extent.rowLen, k)
    ensures AreReads(s, mask, src, RowAt(main, s.extent.rowLen, k), numbers[k], Reads(s, mask, src, numbers)[k])
  {
    assert IsRowOf(main, s.extent.rowLen, src, numbers, k);
    RowReads(s, mask, src, RowAt(main, s.extent.rowLen, k), numbers[k]);
  }

  /** The rows' bytes, and what their cells hold. */
  ghost predicate AreRowReads(s: Schema, mask: Mask, src: seq<Byte>, rows: seq<seq<Byte>>, numbers: seq<nat>,
                              read: seq<seq<Result<Cell, TableError>>>)
    requires s.Laid() && Masks(mask, s.columns)
  {
    && |rows| == |numbers| == |read|
    && forall k :: 0 <= k < |rows| ==> IsRowRead(s, mask, src, rows, numbers, read, k)
  }

  ghost predicate IsRowRead(s: Schema, mask: Mask, src: seq<Byte>, rows: seq<seq<Byte>>, numbers: seq<nat>,
                            read: seq<seq<Result<Cell, TableError>>>, k: nat)
    requires s.Laid() && Masks(mask, s.columns) && k < |rows| == |numbers| == |read|
  {
    |rows[k]| == s.extent.rowLen && AreReads(s, mask, src, rows[k], numbers[k], read[k])
  }

  /** The heap bytes of cells, or their error; nothing of cells that end short. */
  ghost predicate CountsHeap(cells: Result<seq<seq<Cell>>, TableError>, r: Result<nat, TableError>) {
    match cells
    case Ok(rows) => r == Ok(|TableHeap(rows)|)
    case Err(e) => e.UnexpectedEof? || r == Err(e)
  }

  /** How many heap bytes the cells read from these rows have between them, or the first error in
      row order; no array's payload is read. */
  method HeapLen(s: Schema, mask: Mask, rows: seq<seq<Byte>>, numbers: seq<nat>, ghost src: seq<Byte>,
                 ghost read: seq<seq<Result<Cell, TableError>>>) returns (r: Result<nat, TableError>)
    requires s.Laid() && Masks(mask, s.columns) && AreRowReads(s, mask, src, rows, numbers, read)
    ensures CountsHeap(CollectRows(read, |read|), r)
  {
    var total: nat := 0;
    for k := 0 to |rows|
      invariant total <= USIZE_MAX
      invariant RowsCountedTo(read, k, total)
    {
      assert IsRowRead(s, mask, src, rows, numbers, read, k);
      var next := CountRow(s, mask, rows[k], numbers[k], total, src, read[k]);
      CountedRow(read, k, total, next);
      if next.Err? {
        return Err(next.error);
      }
      total := next.value;
    }
    r := Ok(total);
  }

  ghost predicate RowsCountedTo(read: seq<seq<Result<Cell, TableError>>>, k: nat, total: nat)
    requires k <= |read|
  {
    && OkOrShort(CollectRows(read, k))
    && (CollectRows(read, k).Ok? ==> total == |TableHeap(CollectRows(read, k).value)|)
  }

  lemma {:induction false} CountedRow(read: seq<seq<Result<Cell, TableError>>>, k: nat, total: nat, next: Result<nat, TableError>)
    requires k < |read| && RowsCountedTo(read, k, total)
    requires var all := Collect(read[k], |read[k]|, total);
             && (all.Ok? ==> next == Ok(total + |HeapOf(all.value)|))
             && (all.Err? ==> all.error.UnexpectedEof? || next == Err(all.error))
    ensures next.Ok? ==> RowsCountedTo(read, k + 1, next.value)
    ensures next.Err? ==> CollectRows(read, |read|) == Err(UnexpectedEof) || CollectRows(read, |read|) == Err(next.error)
  {
    var before := CollectRows(read, k);
    if before.Ok? {
      var all := Collect(read[k], |read[k]|, total);
      if all.Ok? {
        TableHeapSnoc(before.value, all.value);
      }
    }
    if CollectRows(read, k + 1).Err? {
      CollectFails(read, k + 1, |read|);
    }
  }

  // ---- The rewrite ----

  /** What follows the main table in the copy once the range held back lands. */
  ghost function Tail(fetches: Merged, out: ByteVec, main: nat): seq<Byte>
    requires main <= |out.bytes|
    reads fetches, out
  {
    out.bytes[main..] + fetches.Held()
  }

  /** The bytes before `main` other than `from..to` are as they were. */
  ghost predicate Stays(was: seq<Byte>, now: seq<Byte>, from: nat, to: nat, main: nat)
    requires from <= to <= main <= |was| && main <= |now|
  {
    now[..from] == was[..from] && now[to..main] == was[to..main]
  }

  /** Write a descriptor into its slot, unless its integers cannot hold it. */
  method WriteDescriptor(d: Descriptor, width: Width, out: ByteVec, at: nat, ghost main: nat) returns (err: Option<TableError>)
    requires at + width.Bytes() <= main <= |out.bytes|
    modifies out
    ensures d.Fits(width) <==> err == None
    ensures !d.Fits(width) ==> err == Some(DescriptorOutOfRange(width, d.count, d.offset)) && out.bytes == old(out.bytes)
    ensures |out.bytes| == |old(out.bytes)| && out.bytes[main..] == old(out.bytes)[main..]
    ensures Stays(old(out.bytes), out.bytes, at, at + width.Bytes(), main)
    ensures d.Fits(width) ==> out.bytes[at..at + width.Bytes()] == d.Encoded(width)
  {
    if !d.Fits(width) {
      return Some(DescriptorOutOfRange(width, d.count, d.offset));
    }
    ghost var was := out.bytes;
    out.Write(at, d.Encoded(width));
    TailStays(was, out.bytes, at + width.Bytes(), main);
    err := None;
  }

  lemma TailStays(was: seq<Byte>, now: seq<Byte>, to: nat, main: nat)
    requires to <= main <= |was| == |now| && now[to..] == was[to..]
    ensures now[to..main] == was[to..main] && now[main..] == was[main..]
  {
    assert now[to..][..main - to] == now[to..main] && was[to..][..main - to] == was[to..main];
    assert now[to..][main - to..] == now[main..] && was[to..][main - to..] == was[main..];
  }

  /** A copy under way: whether it will fail for want of source, its bytes and its tail. */
  datatype Progress = Progress(doomed: bool, bytes: seq<Byte>, tail: seq<Byte>)

  ghost function ProgressOf(fetches: Merged, out: ByteVec, main: nat): Progress
    requires main <= |out.bytes|
    reads fetches, out
  {
    Progress(fetches.Doomed(), out.bytes, Tail(fetches, out, main))
  }

  /** A cell is rewritten: into the slot it packs to. */
  ghost predicate CellTo(slot: Result<seq<Byte>, TableError>, read: Result<Cell, TableError>, was: Progress, now: Progress, from: nat, to: nat, main: nat)
    requires from <= to <= main <= |was.bytes|
  {
    && main <= |now.bytes| && Stays(was.bytes, now.bytes, from, to, main)
    && (now.doomed ==> was.doomed || IsShort(read))
    && (!now.doomed ==>
          !was.doomed && read.Ok? && slot == Ok(now.bytes[from..to]) && now.tail == was.tail + read.value.Heap())
  }

  /** Append an array after those before it, now or with the range it joins. */
  method PushArray(fetches: Merged, out: ByteVec, start: nat, end: nat, main: nat) returns (err: Option<TableError>, offset: nat)
    requires fetches.Valid() && start <= end && main <= |out.bytes|
    modifies fetches, out
    ensures fetches.Valid() && main <= |out.bytes| && out.bytes[..main] == old(out.bytes)[..main]
    ensures err.Some? ==> old(fetches.Doomed())
    ensures err == None ==> (fetches.Doomed() <==> old(fetches.Doomed()) || Fetched(fetches.fetch, start, end).Err?)
    ensures err == None && !fetches.Doomed() ==>
              && offset == |old(Tail(fetches, out, main))|
              && Tail(fetches, out, main) == old(Tail(fetches, out, main)) + Fetched(fetches.fetch, start, end).value
    ensures err == None && !old(fetches.Doomed()) ==> offset == |old(Tail(fetches, out, main))|
  {
    TailIs(out.bytes, fetches.Held(), main);
    offset := fetches.NextOffset(out) - main;
    ghost var was, held := out.bytes, fetches.Held();
    var ok := fetches.Push(start, end, out);
    PrefixTails(was, out.bytes, main);
    TailIs(out.bytes, fetches.Held(), main);
    err := if ok then None else Some(UnexpectedEof);
    if ok && !fetches.Doomed() {
      TailGrows(was + held, out.bytes + fetches.Held(), if start == end then [] else Slice(fetches.fetch, start, end), main);
    }
  }

  lemma TailIs(bytes: seq<Byte>, held: seq<Byte>, main: nat)
    requires main <= |bytes|
    ensures bytes[main..] + held == (bytes + held)[main..]
  {
  }

  lemma TailGrows(was: seq<Byte>, now: seq<Byte>, more: seq<Byte>, main: nat)
    requires main <= |was| && now == was + more
    ensures now[main..] == was[main..] + more
  {
  }

  lemma PrefixTails(was: seq<Byte>, now: seq<Byte>, main: nat)
    requires main <= |was| && was <= now
    ensures now[..main] == was[..main]
  {
  }

  /** Append an array and write the descriptor that addresses its place in the copy. */
  method RewriteArray(span: Span, width: Width, fetches: Merged, out: ByteVec, at: nat, main: nat) returns (err: Option<TableError>)
    requires fetches.Valid() && span.start <= span.end && at + width.Bytes() <= main <= |out.bytes|
    modifies fetches, out
    ensures fetches.Valid() && main <= |out.bytes| && Stays(old(out.bytes), out.bytes, at, at + width.Bytes(), main)
    ensures err == None && fetches.Doomed() ==> old(fetches.Doomed()) || Fetched(fetches.fetch, span.start, span.end).Err?
    ensures err == None && !fetches.Doomed() ==>
              var d := Descriptor(span.count, |old(Tail(fetches, out, main))|);
              && !old(fetches.Doomed()) && Fetched(fetches.fetch, span.start, span.end).Ok? && d.Fits(width)
              && out.bytes[at..at + width.Bytes()] == d.Encoded(width)
              && Tail(fetches, out, main) == old(Tail(fetches, out, main)) + Fetched(fetches.fetch, span.start, span.end).value
    ensures err.Some? && !old(fetches.Doomed()) ==>
              var d := Descriptor(span.count, |old(Tail(fetches, out, main))|);
              !d.Fits(width) && err.value == DescriptorOutOfRange(width, d.count, d.offset)
  {
    var offset: nat;
    ghost var was := out.bytes;
    err, offset := PushArray(fetches, out, span.start, span.end, main);
    if err.Some? {
      PrefixStays(was, out.bytes, at, at + width.Bytes(), main);
      return;
    }
    ghost var mid := out.bytes;
    err := WriteDescriptor(Descriptor(span.count, offset), width, out, at, main);
    PrefixStays(was, mid, at, at + width.Bytes(), main);
  }

  lemma PrefixStays(was: seq<Byte>, now: seq<Byte>, from: nat, to: nat, main: nat)
    requires from <= to <= main <= |was| && main <= |now| && now[..main] == was[..main]
    ensures Stays(was, now, from, to, main)
  {
    assert now[..main][..from] == now[..from] && was[..main][..from] == was[..from];
    assert now[..main][to..] == now[to..main] && was[..main][to..] == was[to..main];
  }

  /** Rewrite one cell of the copy's main table where it lies: a fixed cell stays, a left-out
      descriptor becomes empty, and a kept one addresses its array's place in the copy. */
  method RewriteCell(s: Schema, mask: Mask, i: nat, number: nat, fetches: Merged, out: ByteVec, at: nat, main: nat,
                     ghost read: Result<Cell, TableError>)
    returns (err: Option<TableError>)
    requires s.Laid() && Masks(mask, s.columns) && i < |s.columns| && fetches.Valid()
    requires at + s.columns[i].ByteWidth() <= main <= |out.bytes|
    requires read == ReadCell(s.columns[i], i, Keeps(mask, i), out.bytes[at..at + s.columns[i].ByteWidth()], number, fetches.fetch,
                              s.extent.heapOffset, s.extent.heapEnd)
    modifies fetches, out
    ensures fetches.Valid() && main <= |out.bytes|
    ensures err == None ==>
              CellTo(PackCell(s.columns[i], OkCell(read), |old(Tail(fetches, out, main))|), read,
                     old(ProgressOf(fetches, out, main)), ProgressOf(fetches, out, main), at, at + s.columns[i].ByteWidth(), main)
    ensures err.Some? && !old(fetches.Doomed()) ==>
              !read.Ok? || PackCell(s.columns[i], read.value, |old(Tail(fetches, out, main))|) == Err(err.value)
  {
    var column := s.columns[i];
    if !column.HasSlot() {
      return None;
    }
    var width := column.storage.width;
    if !Keeps(mask, i) {
      err := WriteDescriptor(EMPTY, width, out, at, main);
      return;
    }
    var span := VlaCellSpan(column, i, out.bytes[at..at + width.Bytes()], number, s.extent.heapOffset, s.extent.heapEnd);
    if span.Err? {
      return Some(span.error);
    }
    err := RewriteArray(span.value, width, fetches, out, at, main);
  }

  // ---- A row ----

  ghost predicate AllRead(read: seq<Result<Cell, TableError>>) {
    forall i :: 0 <= i < |read| ==> read[i].Ok?
  }

  /** The cells a row's reads give. */
  ghost function OkCells(read: seq<Result<Cell, TableError>>): (cells: seq<Cell>)
    ensures |cells| == |read|
  {
    seq(|read|, i requires 0 <= i < |read| => OkCell(read[i]))
  }

  ghost function OkCell(read: Result<Cell, TableError>): Cell {
    if read.Ok? then read.value else LeftOut
  }

  /** A row's first `i` cells are rewritten, up to `p` of its bytes from `at`. */
  ghost predicate RowTo(read: seq<Result<Cell, TableError>>, slots: Parts, i: nat, was: Progress, now: Progress, at: nat, p: nat, main: nat)
    requires i <= |read| == |slots| && at <= p <= main <= |was.bytes|
  {
    && main <= |now.bytes| && Stays(was.bytes, now.bytes, at, p, main)
    && (now.doomed ==> was.doomed || !AllRead(read))
    && (!now.doomed ==>
          && !was.doomed && (forall j :: 0 <= j < i ==> read[j].Ok?)
          && Join(slots, i) == Ok(now.bytes[at..p])
          && now.tail == was.tail + HeapOf(OkCells(read)[..i]))
  }

  lemma CellThenRow(read: seq<Result<Cell, TableError>>, slots: Parts, i: nat, was: Progress, mid: Progress, now: Progress,
                    at: nat, p: nat, q: nat, main: nat, slot: Result<seq<Byte>, TableError>)
    requires i < |read| == |slots| && at <= p <= q <= main <= |was.bytes|
    requires RowTo(read, slots, i, was, mid, at, p, main)
    requires CellTo(slot, read[i], mid, now, p, q, main) && (!mid.doomed ==> slot == slots[i])
    ensures RowTo(read, slots, i + 1, was, now, at, q, main)
  {
    StaysThrough(was.bytes, mid.bytes, now.bytes, at, p, q, main);
    if !now.doomed {
      var cells := OkCells(read);
      assert cells[..i + 1] == cells[..i] + [cells[i]];
      HeapOfSnoc(cells[..i], cells[i]);
      Regroup(was.tail, HeapOf(cells[..i]), cells[i].Heap());
    }
  }

  lemma Regroup(a: seq<Byte>, b: seq<Byte>, c: seq<Byte>)
    ensures (a + b) + c == a + (b + c)
  {
  }

  lemma StaysThrough(was: seq<Byte>, mid: seq<Byte>, now: seq<Byte>, at: nat, p: nat, q: nat, main: nat)
    requires at <= p <= q <= main <= |was| && main <= |mid| && main <= |now|
    requires Stays(was, mid, at, p, main) && Stays(mid, now, p, q, main)
    ensures Stays(was, now, at, q, main)
    ensures now[at..q] == mid[at..p] + now[p..q]
  {
    assert now[..p] == mid[..p];
    assert now[..at] == now[..p][..at] == mid[..p][..at] == mid[..at];
    assert mid[q..main] == mid[p..main][q - p..] == was[p..main][q - p..] == was[q..main];
    assert now[at..p] == now[..p][at..] == mid[..p][at..] == mid[at..p];
    assert now[at..q] == now[at..p] + now[p..q];
  }

  lemma SlotStays(was: seq<Byte>, now: seq<Byte>, row: seq<Byte>, at: nat, p: nat, q: nat, main: nat)
    requires at <= p <= q <= at + |row| <= main <= |was| && main <= |now|
    requires Stays(was, now, at, p, main) && was[at..at + |row|] == row
    ensures now[p..q] == row[p - at..q - at]
  {
    SliceTwice(was, at, |row|, p - at, q - p);
    assert now[p..main][..q - p] == now[p..q] && was[p..main][..q - p] == was[p..q];
  }

  /** An error among the first parts is the whole's. */
  lemma {:induction false} JoinFails(parts: Parts, i: nat, k: nat)
    requires i <= k <= |parts| && Join(parts, i).Err?
    ensures Join(parts, k) == Join(parts, i)
  {
    if i < k {
      JoinFails(parts, i, k - 1);
    }
  }

  /** Rewrite one row of the copy's main table, column by column. */
  method RewriteRow(s: Schema, mask: Mask, number: nat, fetches: Merged, out: ByteVec, at: nat, main: nat,
                    ghost row: seq<Byte>, ghost read: seq<Result<Cell, TableError>>, ghost slots: Parts, ghost was: Progress)
    returns (err: Option<TableError>)
    requires s.Laid() && Masks(mask, s.columns) && fetches.Valid() && main <= |out.bytes|
    requires was == ProgressOf(fetches, out, main)
    requires |row| == s.extent.rowLen && at + |row| <= main && was.bytes[at..at + |row|] == row
    requires AreReads(s, mask, fetches.fetch, row, number, read) && AreSlots(s.columns, OkCells(read), |was.tail|, slots)
    modifies fetches, out
    ensures fetches.Valid() && main <= |out.bytes|
    ensures err == None ==> RowTo(read, slots, |read|, was, ProgressOf(fetches, out, main), at, at + |row|, main)
    ensures err.Some? && !was.doomed ==> !AllRead(read) || Join(slots, |slots|) == Err(err.value)
  {
    ghost var p: nat := at;
    RowBegins(read, slots, was, at, main);
    for i := 0 to |s.columns|
      invariant fetches.Valid() && main <= |out.bytes|
      invariant IsAt(s.columns, i, at, p) && p <= at + |row|
      invariant RowTo(read, slots, i, was, ProgressOf(fetches, out, main), at, p, main)
    {
      err, p := RewriteColumn(s, mask, number, i, fetches, out, at, main, row, read, slots, was, p);
      if err.Some? {
        return;
      }
    }
    err := None;
  }

  /** `p` is where column `i` of the row at `at` starts. */
  ghost predicate IsAt(columns: seq<Column>, i: nat, at: nat, p: nat)
    requires i <= |columns|
  {
    p == at + WidthTo(columns, i)
  }

  method RewriteColumn(s: Schema, mask: Mask, number: nat, i: nat, fetches: Merged, out: ByteVec, at: nat, main: nat,
                       ghost row: seq<Byte>, ghost read: seq<Result<Cell, TableError>>, ghost slots: Parts, ghost was: Progress,
                       ghost p: nat)
    returns (err: Option<TableError>, ghost q: nat)
    requires s.Laid() && Masks(mask, s.columns) && fetches.Valid() && i < |s.columns| && main <= |out.bytes|
    requires |row| == s.extent.rowLen && at + |row| <= main <= |was.bytes| && was.bytes[at..at + |row|] == row
    requires AreReads(s, mask, fetches.fetch, row, number, read) && AreSlots(s.columns, OkCells(read), |was.tail|, slots)
    requires IsAt(s.columns, i, at, p) && p <= at + |row|
    requires RowTo(read, slots, i, was, ProgressOf(fetches, out, main), at, p, main)
    modifies fetches, out
    ensures fetches.Valid() && main <= |out.bytes|
    ensures IsAt(s.columns, i + 1, at, q) && at <= q <= at + |row|
    ensures err == None ==> RowTo(read, slots, i + 1, was, ProgressOf(fetches, out, main), at, q, main)
    ensures err.Some? && !was.doomed ==> !AllRead(read) || Join(slots, |slots|) == Err(err.value)
  {
    var column := s.columns[i];
    var from := at + column.start;
    q := at + WidthTo(s.columns, i + 1);
    CellLies(s.columns, i);
    ghost var mid := ProgressOf(fetches, out, main);
    ColumnReady(s, mask, fetches.fetch, row, number, read, slots, i, was, mid, at, from, q, main);
    err := RewriteCell(s, mask, i, number, fetches, out, from, main, read[i]);
    if err.Some? {
      ColumnFails(slots, i, err.value);
      return;
    }
    CellThenRow(read, slots, i, was, mid, ProgressOf(fetches, out, main), at, from, q, main,
                PackCell(column, OkCell(read[i]), |mid.tail|));
  }

  lemma RowBegins(read: seq<Result<Cell, TableError>>, slots: Parts, was: Progress, at: nat, main: nat)
    requires |read| == |slots| && at <= main <= |was.bytes|
    ensures RowTo(read, slots, 0, was, was, at, at, main)
  {
    assert was.bytes[at..at] == [];
    assert OkCells(read)[..0] == [];
    assert was.tail + [] == was.tail;
  }

  /** Before a column is rewritten, its cell is as it was, and its slot is known. */
  lemma ColumnReady(s: Schema, mask: Mask, src: seq<Byte>, row: seq<Byte>, number: nat, read: seq<Result<Cell, TableError>>,
                    slots: Parts, i: nat, was: Progress, mid: Progress, at: nat, from: nat, to: nat, main: nat)
    requires s.Laid() && Masks(mask, s.columns) && i < |s.columns|
    requires |row| == s.extent.rowLen && at + |row| <= main <= |was.bytes| && was.bytes[at..at + |row|] == row
    requires AreReads(s, mask, src, row, number, read) && AreSlots(s.columns, OkCells(read), |was.tail|, slots)
    requires from == at + s.columns[i].start && to == at + WidthTo(s.columns, i + 1) && to <= at + |row|
    requires at + WidthTo(s.columns, i) <= main && RowTo(read, slots, i, was, mid, at, at + WidthTo(s.columns, i), main)
    ensures from == at + WidthTo(s.columns, i) && to == from + s.columns[i].ByteWidth()
    ensures read[i] == ReadCell(s.columns[i], i, Keeps(mask, i), mid.bytes[from..to], number, src, s.extent.heapOffset, s.extent.heapEnd)
    ensures !mid.doomed ==> slots[i] == PackCell(s.columns[i], OkCell(read[i]), |mid.tail|)
  {
    CellLies(s.columns, i);
    assert IsPlaced(s.columns, i);
    assert IsReadOf(s, mask, src, row, number, read, i);
    ColumnStays(read, slots, i, was, mid, at, from, to, main, row);
    ColumnSlot(s.columns, read, slots, i, was, mid, at, from, main);
  }

  lemma ColumnStays(read: seq<Result<Cell, TableError>>, slots: Parts, i: nat, was: Progress, mid: Progress,
                    at: nat, from: nat, to: nat, main: nat, row: seq<Byte>)
    requires i <= |read| == |slots| && at <= from <= to <= at + |row| <= main <= |was.bytes| && was.bytes[at..at + |row|] == row
    requires RowTo(read, slots, i, was, mid, at, from, main)
    ensures main <= |mid.bytes| && mid.bytes[from..to] == row[from - at..to - at]
  {
    SlotStays(was.bytes, mid.bytes, row, at, from, to, main);
  }

  lemma ColumnSlot(columns: seq<Column>, read: seq<Result<Cell, TableError>>, slots: Parts, i: nat, was: Progress, mid: Progress,
                   at: nat, from: nat, main: nat)
    requires i < |read| == |slots| == |columns| && at <= from <= main <= |was.bytes|
    requires AreSlots(columns, OkCells(read), |was.tail|, slots) && RowTo(read, slots, i, was, mid, at, from, main)
    ensures !mid.doomed ==> slots[i] == PackCell(columns[i], OkCell(read[i]), |mid.tail|)
  {
    assert IsSlot(columns, OkCells(read), |was.tail|, slots, i);
  }

  lemma {:induction false} ColumnFails(slots: Parts, i: nat, e: TableError)
    requires i < |slots|
    ensures slots[i] == Err(e) && Join(slots, i).Ok? ==> Join(slots, |slots|) == Err(e)
  {
    if slots[i] == Err(e) && Join(slots, i).Ok? {
      JoinFails(slots, i + 1, |slots|);
    }
  }
}

/** A selection's copy, whole: the rows fetched, then rewritten, then the heap arrays. */
module CopyTable {
  import opened Bytes
  import opened CopySelection
  import opened Descriptors
  import opened MergedReads
  import opened PackedTables
  import opened TableSelection
  import opened Tables

  // ---- The rows fetched ----

  lemma NoRows(len: nat, src: seq<Byte>)
    ensures AreRows([], len, src, [])
  {
  }

  /** One more row. */
  lemma RowAppended(main: seq<Byte>, len: nat, src: seq<Byte>, numbers: seq<nat>, row: nat)
    requires AreRows(main, len, src, numbers) && RowIn(src, len, row)
    ensures AreRows(main + RowAt(src, len, row), len, src, numbers + [row])
  {
    var now, all := main + RowAt(src, len, row), numbers + [row];
    forall k | 0 <= k < |all| ensures RowIn(src, len, all[k]) {
      if k < |numbers| {
        assert RowIn(src, len, numbers[k]);
      }
    }
    forall k | 0 <= k < |all| ensures IsRowOf(now, len, src, all, k) {
      if k < |numbers| {
        assert IsRowOf(main, len, src, numbers, k);
        PrefixSlice(main, now, RowStart(k, len), RowStart(k, len) + len);
      } else {
        FollowsAt(main, RowAt(src, len, row), now, RowStart(k, len), len);
      }
    }
  }

  /** A row's range is what the rows are fetched by. */
  lemma RowSlice(src: seq<Byte>, len: nat, row: nat)
    ensures RowIn(src, len, row) <==> RowStart(row + 1, len) <= |src|
    ensures RowIn(src, len, row) ==> Slice(src, RowStart(row, len), RowStart(row + 1, len)) == RowAt(src, len, row)
  {
  }

  /** `start`, `start + 1` and on, `n` of them. */
  ghost function Span(start: nat, n: nat): (numbers: seq<nat>)
    ensures |numbers| == n
  {
    seq(n, k requires 0 <= k => start + k)
  }

  /** Picking consecutive numbers gives the slice they bound. */
  lemma {:induction false} SpanIsSlice(src: seq<Byte>, len: nat, start: nat, n: nat)
    requires RowStart(start + n, len) <= |src|
    ensures RowStart(start, len) <= RowStart(start + n, len)
    ensures AreRows(Slice(src, RowStart(start, len), RowStart(start + n, len)), len, src, Span(start, n))
  {
    if n == 0 {
      assert Slice(src, RowStart(start, len), RowStart(start, len)) == [];
      assert Span(start, 0) == [];
      NoRows(len, src);
    } else {
      var last := start + (n - 1);
      RowSlice(src, len, last);
      RowsRise(start, last, len);
      SpanIsSlice(src, len, start, n - 1);
      RowAppended(Slice(src, RowStart(start, len), RowStart(last, len)), len, src, Span(start, n - 1), last);
      SliceSplit(src, RowStart(start, len), RowStart(last, len), RowStart(start + n, len));
      assert Span(start, n) == Span(start, n - 1) + [last];
    }
  }

  lemma SliceSplit(src: seq<Byte>, a: nat, b: nat, c: nat)
    requires a <= b <= c <= |src|
    ensures Slice(src, a, c) == Slice(src, a, b) + Slice(src, b, c)
  {
  }

  /** What the fetch of rows leaves: the rows in order, or a range held back that the source
      does not have. */
  ghost predicate RowsFetched(fetches: Merged, out: ByteVec, len: nat, numbers: seq<nat>)
    reads fetches, out
  {
    && (fetches.Doomed() ==> !RowsIn(fetches.fetch, len, numbers))
    && (!fetches.Doomed() ==> AreRows(out.bytes + fetches.Held(), len, fetches.fetch, numbers))
  }

  /** Fetch the rows `start..end`. */
  method FetchRange(start: nat, end: nat, len: nat, fetches: Merged, out: ByteVec) returns (ok: bool)
    requires fetches.Valid() && fetches.pending == None && out.bytes == [] && start <= end
    modifies fetches, out
    ensures fetches.Valid() && ok
    ensures RowsFetched(fetches, out, len, Span(start, end - start))
  {
    var a, b := RowStart(start, len), RowStart(end, len);
    RangeTaken(fetches.fetch, len, start, end, a, b);
    ok := fetches.Push(a, b, out);
    ghost var range := if a == b then [] else Slice(fetches.fetch, a, b);
    assert [] + [] + range == range;
  }

  lemma {:induction false} RangeTaken(src: seq<Byte>, len: nat, start: nat, end: nat, a: nat, b: nat)
    requires start <= end && a == RowStart(start, len) && b == RowStart(end, len)
    ensures a <= b
    ensures a < b && |src| < b ==> !RowsIn(src, len, Span(start, end - start))
    ensures a == b || b <= |src| ==> AreRows(if a == b then [] else Slice(src, a, b), len, src, Span(start, end - start))
  {
    var numbers := Span(start, end - start);
    RowsRise(start, end, len);
    if a < b && |src| < b {
      RowSlice(src, len, end - 1);
      assert numbers[|numbers| - 1] == end - 1;
    } else if start == end {
      assert numbers == [];
      NoRows(len, src);
    } else {
      SpanRises(start, end, len);
      SpanIsSlice(src, len, start, end - start);
    }
  }

  lemma {:induction false} SpanRises(start: nat, end: nat, len: nat)
    requires start < end
    ensures RowStart(start, len) == RowStart(end, len) ==> len == 0 && RowStart(start, len) == RowStart(end, len) == 0
  {
    if len > 0 {
      RowsRise(start, end, len);
    } else {
      RowStartIs(start, len);
      RowStartIs(end, len);
    }
  }

  /** Fetch rows one by one, each checked as it is met. */
  method FetchPicked(rows: seq<nat>, rowCount: nat, len: nat, fetches: Merged, out: ByteVec) returns (err: Option<TableError>)
    requires fetches.Valid() && fetches.pending == None && out.bytes == []
    modifies fetches, out
    ensures fetches.Valid()
    ensures err == None ==> FirstBad(rows, |rows|, rowCount) == None && RowsFetched(fetches, out, len, rows)
    ensures err.Some? ==> FirstBad(rows, |rows|, rowCount) == err || Unfetched(fetches.fetch, len, rows, rowCount)
  {
    NoRows(len, fetches.fetch);
    for k := 0 to |rows|
      invariant fetches.Valid() && FirstBad(rows, k, rowCount) == None
      invariant RowsFetched(fetches, out, len, rows[..k])
    {
      err := ValidateRow(rows[k], rowCount);
      if err.Some? {
        BadStays(rows, k + 1, |rows|, rowCount);
        return;
      }
      var ok := FetchRow(rows, k, len, fetches, out);
      if !ok {
        UnfetchedRow(fetches.fetch, len, rows, k, rowCount);
        return Some(UnexpectedEof);
      }
    }
    assert rows[..|rows|] == rows;
    err := None;
  }

  method FetchRow(rows: seq<nat>, k: nat, len: nat, fetches: Merged, out: ByteVec) returns (ok: bool)
    requires fetches.Valid() && k < |rows| && RowsFetched(fetches, out, len, rows[..k])
    modifies fetches, out
    ensures fetches.Valid()
    ensures if ok then RowsFetched(fetches, out, len, rows[..k + 1]) else !RowsIn(fetches.fetch, len, rows[..k])
  {
    ghost var was := fetches.Doomed();
    ghost var landed := out.bytes + fetches.Held();
    ok := fetches.Push(RowStart(rows[k], len), RowStart(rows[k] + 1, len), out);
    RowTaken(fetches.fetch, len, rows, k, was, landed);
    assert landed + [] == landed;
  }

  /** One of the table's rows is past the source's end. */
  ghost predicate Unfetched(src: seq<Byte>, len: nat, rows: seq<nat>, rowCount: nat) {
    exists k :: 0 <= k < |rows| && rows[k] < rowCount && !RowIn(src, len, rows[k])
  }

  lemma {:induction false} UnfetchedRow(src: seq<Byte>, len: nat, rows: seq<nat>, k: nat, rowCount: nat)
    requires k <= |rows| && FirstBad(rows, k, rowCount) == None && !RowsIn(src, len, rows[..k])
    ensures Unfetched(src, len, rows, rowCount)
  {
    var j :| 0 <= j < k && !RowIn(src, len, rows[..k][j]);
    assert rows[..k][j] == rows[j] && rows[j] < rowCount;
  }

  lemma {:induction false} BadStays(rows: seq<nat>, k: nat, n: nat, len: nat)
    requires k <= n <= |rows| && FirstBad(rows, k, len).Some?
    ensures FirstBad(rows, n, len) == FirstBad(rows, k, len)
  {
    if k < n {
      BadStays(rows, k, n - 1, len);
    }
  }

  /** What taking row `k` makes of the rows fetched. */
  lemma {:induction false} RowTaken(src: seq<Byte>, len: nat, rows: seq<nat>, k: nat, was: bool, landed: seq<Byte>)
    requires k < |rows|
    ensures RowStart(rows[k], len) == RowStart(rows[k] + 1, len) ==> RowStart(rows[k] + 1, len) == 0
    ensures was && !RowsIn(src, len, rows[..k]) ==> !RowsIn(src, len, rows[..k + 1])
    ensures RowStart(rows[k] + 1, len) > |src| ==> !RowsIn(src, len, rows[..k + 1])
    ensures AreRows(landed, len, src, rows[..k]) && RowStart(rows[k] + 1, len) <= |src| ==>
              AreRows(landed + Slice(src, RowStart(rows[k], len), RowStart(rows[k] + 1, len)), len, src, rows[..k + 1])
  {
    RowSlice(src, len, rows[k]);
    if len == 0 {
      RowStartIs(rows[k] + 1, len);
    }
    var now := rows[..k + 1];
    assert now == rows[..k] + [rows[k]] && now[k] == rows[k];
    if !RowsIn(src, len, rows[..k]) {
      var j :| 0 <= j < k && !RowIn(src, len, rows[..k][j]);
      assert !RowIn(src, len, now[j]);
    }
    if AreRows(landed, len, src, rows[..k]) && RowStart(rows[k] + 1, len) <= |src| {
      RowAppended(landed, len, src, rows[..k], rows[k]);
    }
  }

  /** Fetch the selected rows, in order, joined where they follow one another. */
  method FetchRows(rows: TableRows, rowCount: nat, len: nat, fetches: Merged, out: ByteVec) returns (err: Option<TableError>)
    requires fetches.Valid() && fetches.pending == None && out.bytes == []
    modifies fetches, out
    ensures fetches.Valid()
    ensures err == None ==>
              && rows.Check(rowCount) == None && fetches.pending == None
              && AreRows(out.bytes, len, fetches.fetch, rows.Numbers())
    ensures err.Some? ==> rows.Check(rowCount) == err || (rows.Check(rowCount) == None && !RowsIn(fetches.fetch, len, rows.Numbers()))
                          || Unfetched(fetches.fetch, len, rows.Numbers(), rowCount)
  {
    match rows {
      case RowRange(start, end) =>
        err := ValidateRowRange(start, end, rowCount);
        if err.Some? {
          return;
        }
        var _ := FetchRange(start, end, len, fetches, out);
        assert rows.Numbers() == Span(start, end - start);
      case Picked(picked) =>
        assert rows.Numbers() == picked;
        err := FetchPicked(picked, rowCount, len, fetches, out);
        if err.Some? {
          return;
        }
    }
    var ok := fetches.Flush(out);
    err := if ok then None else Some(UnexpectedEof);
  }

  // ---- The rows rewritten ----

  ghost predicate AllRowsRead(read: seq<seq<Result<Cell, TableError>>>) {
    forall j :: 0 <= j < |read| ==> AllRead(read[j])
  }

  ghost function OkRows(read: seq<seq<Result<Cell, TableError>>>): (rows: seq<seq<Cell>>)
    ensures |rows| == |read|
  {
    seq(|read|, j requires 0 <= j < |read| => OkCells(read[j]))
  }

  /** The first `k` rows are rewritten, up to `p` of the main table `orig`. */
  ghost predicate TableTo(read: seq<seq<Result<Cell, TableError>>>, parts: Parts, k: nat, orig: seq<Byte>, now: Progress, p: nat)
    requires k <= |read| == |parts| && p <= |orig|
  {
    && |orig| <= |now.bytes| && now.bytes[p..|orig|] == orig[p..]
    && (now.doomed ==> !AllRowsRead(read))
    && (!now.doomed ==>
          && (forall j :: 0 <= j < k ==> AllRead(read[j]))
          && Join(parts, k) == Ok(now.bytes[..p])
          && now.tail == TableHeap(OkRows(read)[..k]))
  }

  lemma TableBegins(read: seq<seq<Result<Cell, TableError>>>, parts: Parts, orig: seq<Byte>, now: Progress)
    requires |read| == |parts| && now == Progress(false, orig, [])
    ensures TableTo(read, parts, 0, orig, now, 0)
  {
    assert orig[..0] == [] && OkRows(read)[..0] == [];
    assert now.bytes[0..|orig|] == orig[0..];
  }

  /** A row rewritten is one more of the table. */
  lemma {:induction false} RowThenTable(columns: seq<Column>, read: seq<seq<Result<Cell, TableError>>>, parts: Parts, slots: Parts, k: nat, orig: seq<Byte>,
                     was: Progress, now: Progress, p: nat, q: nat)
    requires k < |read| == |parts| && |read[k]| == |columns| == |slots| && p <= q <= |orig|
    requires TableTo(read, parts, k, orig, was, p) && RowTo(read[k], slots, |columns|, was, now, p, q, |orig|)
    requires !was.doomed ==> parts[k] == Join(slots, |columns|)
    ensures TableTo(read, parts, k + 1, orig, now, q)
  {
    RestStays(was.bytes, now.bytes, orig, p, q);
    if !now.doomed {
      HeapGrows(read, columns, k);
      FrontGrows(was.bytes, now.bytes, p, q);
    }
  }

  lemma HeapGrows(read: seq<seq<Result<Cell, TableError>>>, columns: seq<Column>, k: nat)
    requires k < |read| && |read[k]| == |columns|
    ensures TableHeap(OkRows(read)[..k + 1]) == TableHeap(OkRows(read)[..k]) + HeapOf(OkCells(read[k])[..|columns|])
  {
    var rows := OkRows(read);
    assert rows[..k + 1] == rows[..k] + [rows[k]];
    TableHeapSnoc(rows[..k], rows[k]);
    assert OkCells(read[k])[..|columns|] == rows[k];
  }

  lemma FrontGrows(was: seq<Byte>, now: seq<Byte>, p: nat, q: nat)
    requires p <= |was| && p <= q <= |now| && now[..p] == was[..p]
    ensures now[..q] == was[..p] + now[p..q]
  {
  }

  lemma RestStays(was: seq<Byte>, now: seq<Byte>, orig: seq<Byte>, p: nat, q: nat)
    requires p <= q <= |orig| <= |was| && |orig| <= |now|
    requires was[p..|orig|] == orig[p..] && now[q..|orig|] == was[q..|orig|]
    ensures now[q..|orig|] == orig[q..]
  {
    assert was[p..|orig|][q - p..] == was[q..|orig|];
    assert orig[p..][q - p..] == orig[q..];
  }

  /** Rewrite the main table of the copy where it lies, row by row. */
  method RewriteRows(s: Schema, mask: Mask, rows: TableRows, fetches: Merged, out: ByteVec, main: nat,
                     ghost read: seq<seq<Result<Cell, TableError>>>, ghost parts: Parts, ghost orig: seq<Byte>)
    returns (err: Option<TableError>)
    requires s.Laid() && Masks(mask, s.columns) && fetches.Valid() && fetches.pending == None
    requires out.bytes == orig && |orig| == main && AreRows(orig, s.extent.rowLen, fetches.fetch, rows.Numbers())
    requires read == Reads(s, mask, fetches.fetch, rows.Numbers()) && ArePacked(s.columns, OkRows(read), parts)
    modifies fetches, out
    ensures fetches.Valid() && main <= |out.bytes|
    ensures err == None ==> TableTo(read, parts, |read|, orig, ProgressOf(fetches, out, main), main)
    ensures err.Some? ==> !AllRowsRead(read) || Join(parts, |parts|) == Err(err.value)
  {
    ghost var p: nat, now := 0, ProgressOf(fetches, out, main);
    TableBegins(read, parts, orig, now);
    for k := 0 to rows.Len()
      invariant fetches.Valid() && main <= |out.bytes|
      invariant p == RowStart(k, s.extent.rowLen) <= main
      invariant now == ProgressOf(fetches, out, main) && TableTo(read, parts, k, orig, now, p)
    {
      err, p, now := RewriteKth(s, mask, rows, k, fetches, out, main, read, parts, orig, p, now);
      if err.Some? {
        return;
      }
    }
    err := None;
  }

  method RewriteKth(s: Schema, mask: Mask, rows: TableRows, k: nat, fetches: Merged, out: ByteVec, main: nat,
                    ghost read: seq<seq<Result<Cell, TableError>>>, ghost parts: Parts, ghost orig: seq<Byte>, ghost p: nat,
                    ghost was: Progress)
    returns (err: Option<TableError>, ghost q: nat, ghost now: Progress)
    requires s.Laid() && Masks(mask, s.columns) && fetches.Valid() && k < rows.Len() && main == |orig| <= |out.bytes|
    requires was == ProgressOf(fetches, out, main)
    requires AreRows(orig, s.extent.rowLen, fetches.fetch, rows.Numbers())
    requires read == Reads(s, mask, fetches.fetch, rows.Numbers()) && ArePacked(s.columns, OkRows(read), parts)
    requires p == RowStart(k, s.extent.rowLen) <= main && TableTo(read, parts, k, orig, was, p)
    modifies fetches, out
    ensures fetches.Valid() && main <= |out.bytes|
    ensures q == RowStart(k + 1, s.extent.rowLen) <= main && now == ProgressOf(fetches, out, main)
    ensures err == None ==> TableTo(read, parts, k + 1, orig, now, q)
    ensures err.Some? ==> !AllRowsRead(read) || Join(parts, |parts|) == Err(err.value)
  {
    ghost var row, slots;
    q, row, slots := NextReady(s, mask, rows, k, fetches.fetch, read, parts, orig, p, was);
    err, now := RewriteNext(s, mask, rows.Get(k), fetches, out, RowStart(k, s.extent.rowLen), main, k, read, parts, orig, was,
                            row, slots, q);
  }

  method RewriteNext(s: Schema, mask: Mask, number: nat, fetches: Merged, out: ByteVec, at: nat, main: nat, ghost k: nat,
                     ghost read: seq<seq<Result<Cell, TableError>>>, ghost parts: Parts, ghost orig: seq<Byte>, ghost was: Progress,
                     ghost row: seq<Byte>, ghost slots: Parts, ghost q: nat)
    returns (err: Option<TableError>, ghost now: Progress)
    requires s.Laid() && Masks(mask, s.columns) && fetches.Valid() && main == |orig| <= |out.bytes|
    requires was == ProgressOf(fetches, out, main) && k < |read| == |parts|
    requires at <= q == at + |row| <= main && TableTo(read, parts, k, orig, was, at)
    requires |row| == s.extent.rowLen && was.bytes[at..at + |row|] == row
    requires AreReads(s, mask, fetches.fetch, row, number, read[k]) && AreSlots(s.columns, OkCells(read[k]), |was.tail|, slots)
    requires !was.doomed ==> parts[k] == Join(slots, |s.columns|)
    modifies fetches, out
    ensures fetches.Valid() && main <= |out.bytes| && now == ProgressOf(fetches, out, main)
    ensures err == None ==> TableTo(read, parts, k + 1, orig, now, q)
    ensures err.Some? ==> !AllRowsRead(read) || Join(parts, |parts|) == Err(err.value)
  {
    err := RewriteRow(s, mask, number, fetches, out, at, main, row, read[k], slots, was);
    now := ProgressOf(fetches, out, main);
    if err.Some? {
      RowFails(read, parts, k, slots, was.doomed, err.value);
      return;
    }
    RowThenTable(s.columns, read, parts, slots, k, orig, was, now, at, q);
  }

  /** Before a row is rewritten, it is as it was, and its slots are known. */
  lemma NextReady(s: Schema, mask: Mask, rows: TableRows, k: nat, src: seq<Byte>, read: seq<seq<Result<Cell, TableError>>>, parts: Parts,
                  orig: seq<Byte>, p: nat, was: Progress)
    returns (q: nat, row: seq<Byte>, slots: Parts)
    requires s.Laid() && Masks(mask, s.columns) && k < rows.Len() && AreRows(orig, s.extent.rowLen, src, rows.Numbers())
    requires read == Reads(s, mask, src, rows.Numbers()) && ArePacked(s.columns, OkRows(read), parts)
    requires p == RowStart(k, s.extent.rowLen) <= |orig| && TableTo(read, parts, k, orig, was, p)
    ensures q == p + s.extent.rowLen == RowStart(k + 1, s.extent.rowLen) <= |orig| <= |was.bytes|
    ensures |row| == s.extent.rowLen && was.bytes[p..p + |row|] == row
    ensures AreReads(s, mask, src, row, rows.Get(k), read[k]) && AreSlots(s.columns, OkCells(read[k]), |was.tail|, slots)
    ensures !was.doomed ==> parts[k] == Join(slots, |s.columns|)
  {
    q := p + s.extent.rowLen;
    RowsRise(k, rows.Len(), s.extent.rowLen);
    row := RowAt(orig, s.extent.rowLen, k);
    RowReadsAs(s, mask, src, rows.Numbers(), orig, k);
    RowIsThere(was.bytes, orig, p, q);
    slots := SlotsOfRow(s.columns, read, parts, k, orig, was, p);
  }

  lemma SlotsOfRow(columns: seq<Column>, read: seq<seq<Result<Cell, TableError>>>, parts: Parts, k: nat, orig: seq<Byte>, was: Progress, p: nat)
    returns (slots: Parts)
    requires k < |read| && |read[k]| == |columns| && p <= |orig| && ArePacked(columns, OkRows(read), parts)
    requires TableTo(read, parts, k, orig, was, p)
    ensures AreSlots(columns, OkCells(read[k]), |was.tail|, slots)
    ensures !was.doomed ==> parts[k] == Join(slots, |columns|)
  {
    slots := RowSlots(columns, OkCells(read[k]), |was.tail|);
    assert IsPackedRow(columns, OkRows(read), parts, k);
  }

  lemma RowIsThere(now: seq<Byte>, orig: seq<Byte>, p: nat, q: nat)
    requires p <= q <= |orig| <= |now| && now[p..|orig|] == orig[p..]
    ensures now[p..q] == orig[p..q]
  {
    assert now[p..|orig|][..q - p] == now[p..q] && orig[p..][..q - p] == orig[p..q];
  }

  lemma {:induction false} RowFails(read: seq<seq<Result<Cell, TableError>>>, parts: Parts, k: nat, slots: Parts, doomed: bool, e: TableError)
    requires k < |read| == |parts|
    requires doomed ==> !AllRowsRead(read)
    requires !doomed ==> parts[k] == Join(slots, |slots|) && Join(parts, k).Ok? && (!AllRead(read[k]) || Join(slots, |slots|) == Err(e))
    ensures !AllRowsRead(read) || Join(parts, |parts|) == Err(e)
  {
    if !doomed && AllRead(read[k]) {
      JoinFails(parts, k + 1, |parts|);
    }
  }

  // ---- The copy ----

  /** What a copy gives: the selection's data unit, or its error; of a source that ends before
      the heap does, whether there is one. */
  ghost predicate Gives(spec: Result<seq<Byte>, TableError>, err: Option<TableError>, bytes: seq<Byte>, whole: bool) {
    && (err == None ==> spec == Ok(bytes))
    && (err.Some? ==> spec.Err? && (whole ==> spec == Err(err.value)))
  }

  lemma FailedRows(s: Schema, mask: Mask, src: seq<Byte>, rows: TableRows, e: TableError, bytes: seq<Byte>)
    requires s.Valid() && Masks(mask, s.columns) && RowStart(rows.Len(), s.extent.rowLen) <= USIZE_MAX
    requires var rowCount, len := s.extent.rowCount, s.extent.rowLen;
             || rows.Check(rowCount) == Some(e) || (rows.Check(rowCount) == None && !RowsIn(src, len, rows.Numbers()))
             || Unfetched(src, len, rows.Numbers(), rowCount)
    ensures Gives(Selected(s, mask, src, rows), Some(e), bytes, s.extent.heapEnd <= |src|)
  {
    var rowCount, len, numbers := s.extent.rowCount, s.extent.rowLen, rows.Numbers();
    if Unfetched(src, len, numbers, rowCount) {
      var k :| 0 <= k < |numbers| && numbers[k] < rowCount && !RowIn(src, len, numbers[k]);
      RowsRise(numbers[k], rowCount, len);
    } else if rows.Check(rowCount) == None && s.extent.heapEnd <= |src| {
      WholeSource(s, mask, src, rows);
    }
  }

  /** The unit that rows read pack into. */
  ghost function UnitOf(columns: seq<Column>, read: seq<seq<Result<Cell, TableError>>>): Result<seq<Byte>, TableError>
    requires forall k :: 0 <= k < |read| ==> |read[k]| == |columns|
  {
    match CollectRows(read, |read|)
    case Err(e) => Err(e)
    case Ok(cells) => Packed(columns, cells)
  }

  /** What the selection is, its rows fetched. */
  lemma SelectedIs(s: Schema, mask: Mask, src: seq<Byte>, rows: TableRows)
    requires s.Valid() && Masks(mask, s.columns) && RowStart(rows.Len(), s.extent.rowLen) <= USIZE_MAX
    requires rows.Check(s.extent.rowCount) == None && RowsIn(src, s.extent.rowLen, rows.Numbers())
    ensures Selected(s, mask, src, rows) == UnitOf(s.columns, Reads(s, mask, src, rows.Numbers()))
    ensures s.extent.heapEnd <= |src| ==> CollectRows(Reads(s, mask, src, rows.Numbers()), rows.Len()) != Err(UnexpectedEof)
  {
    if s.extent.heapEnd <= |src| {
      WholeSource(s, mask, src, rows);
    }
  }

  lemma {:induction false} CollectedAreOk(read: seq<seq<Result<Cell, TableError>>>)
    requires CollectRows(read, |read|).Ok?
    ensures AllRowsRead(read) && CollectRows(read, |read|).value == OkRows(read)
  {
    var rows := CollectRows(read, |read|).value;
    forall j | 0 <= j < |read| ensures AllRead(read[j]) && rows[j] == OkRows(read)[j] {
      CollectedRows(read, j, |read|);
      assert rows[j] == OkCells(read[j]);
    }
  }

  /** What a rewrite gives: the unit its rows pack into, or the error they fail to pack with. */
  lemma {:induction false} RewriteGives(columns: seq<Column>, read: seq<seq<Result<Cell, TableError>>>, parts: Parts,
                     err: Option<TableError>, bytes: seq<Byte>, whole: bool, packed: Result<seq<Byte>, TableError>)
    requires |parts| == |read| && OkOrShort(CollectRows(read, |read|))
    requires forall k :: 0 <= k < |read| ==> |read[k]| == |columns|
    requires packed == Packed(columns, OkRows(read))
    requires packed == match Join(parts, |parts|) case Err(e) => Err(e) case Ok(main) => Ok(main + TableHeap(OkRows(read)))
    requires whole ==> CollectRows(read, |read|) != Err(UnexpectedEof)
    requires err.Some? ==> !AllRowsRead(read) || Join(parts, |parts|) == Err(err.value)
    requires err == None ==> AllRowsRead(read) && packed == Ok(bytes)
    ensures Gives(UnitOf(columns, read), err, bytes, whole)
  {
    if CollectRows(read, |read|).Ok? {
      CollectedAreOk(read);
    } else {
      ShortRows(read, |read|);
    }
  }

  /** A table of no row bytes has no arrays. */
  lemma EmptyRows(s: Schema, mask: Mask, src: seq<Byte>, rows: TableRows)
    requires s.Laid() && Masks(mask, s.columns) && s.extent.rowLen == 0 && RowsIn(src, 0, rows.Numbers())
    ensures CollectRows(Reads(s, mask, src, rows.Numbers()), rows.Len()).Ok?
  {
    var read := Reads(s, mask, src, rows.Numbers());
    forall k | 0 <= k < |read| ensures NoHeap(read[k]) {
      forall i | 0 <= i < |s.columns| ensures read[k][i].Ok? && read[k][i].value.Heap() == [] {
        CellLies(s.columns, i);
        CellRead(s, mask, src, RowAt(src, 0, rows.Numbers()[k]), rows.Numbers()[k], i);
      }
    }
    EmptyRowsCollect(read, |read|);
  }

  ghost predicate NoHeap(read: seq<Result<Cell, TableError>>) {
    forall i :: 0 <= i < |read| ==> read[i].Ok? && read[i].value.Heap() == []
  }

  lemma {:induction false} EmptyCellsCollect(read: seq<Result<Cell, TableError>>, c: nat)
    requires c <= |read| && NoHeap(read)
    ensures Collect(read, c, 0).Ok? && HeapOf(Collect(read, c, 0).value) == []
  {
    if c > 0 {
      EmptyCellsCollect(read, c - 1);
      HeapOfSnoc(Collect(read, c - 1, 0).value, read[c - 1].value);
    }
  }

  lemma {:induction false} EmptyRowsCollect(read: seq<seq<Result<Cell, TableError>>>, k: nat)
    requires k <= |read| && forall j :: 0 <= j < |read| ==> NoHeap(read[j])
    ensures CollectRows(read, k).Ok? && TableHeap(CollectRows(read, k).value) == []
  {
    if k > 0 {
      EmptyRowsCollect(read, k - 1);
      EmptyCellsCollect(read[k - 1], |read[k - 1]|);
      TableHeapSnoc(CollectRows(read, k - 1).value, Collect(read[k - 1], |read[k - 1]|, 0).value);
    }
  }

  /** `out` becomes `Selected(..)` for these rows and this mask, or the error that one gives. */
  method CopyInto(s: Schema, mask: Mask, rows: TableRows, src: seq<Byte>, out: ByteVec) returns (err: Option<TableError>)
    requires s.Valid() && Masks(mask, s.columns)
    modifies out
    ensures Gives(Selected(s, mask, src, rows), err, out.bytes, s.extent.heapEnd <= |src|)
  {
    var len := s.extent.rowLen;
    out.bytes := [];
    var main := RowStart(rows.Len(), len);
    if main > USIZE_MAX {
      return Some(DataUnitOverflow);
    }
    var fetches := new Merged(src);
    err := FetchRows(rows, s.extent.rowCount, len, fetches, out);
    if err.Some? {
      FailedRows(s, mask, src, rows, err.value, out.bytes);
      return;
    }
    SelectedIs(s, mask, src, rows);
    err := RewriteFetched(s, mask, rows, fetches, out, main, Reads(s, mask, src, rows.Numbers()), s.extent.heapEnd <= |src|);
  }

  method RewriteFetched(s: Schema, mask: Mask, rows: TableRows, fetches: Merged, out: ByteVec, main: nat,
                        ghost read: seq<seq<Result<Cell, TableError>>>, ghost whole: bool) returns (err: Option<TableError>)
    requires s.Laid() && Masks(mask, s.columns) && fetches.Valid() && fetches.pending == None
    requires AreRows(out.bytes, s.extent.rowLen, fetches.fetch, rows.Numbers()) && main == |out.bytes|
    requires read == Reads(s, mask, fetches.fetch, rows.Numbers())
    requires whole ==> CollectRows(read, |read|) != Err(UnexpectedEof)
    modifies fetches, out
    ensures Gives(UnitOf(s.columns, read), err, out.bytes, whole)
  {
    if s.extent.rowLen == 0 {
      EmptyRows(s, mask, fetches.fetch, rows);
    } else {
      var heap := CountFetched(s, mask, rows, out.bytes, fetches.fetch, read);
      if heap.Err? {
        return Some(heap.error);
      }
    }
    ghost var packed := Packed(s.columns, OkRows(read));
    ghost var parts := PartsOf(s.columns, OkRows(read));
    err := RewriteAll(s, mask, rows, fetches, out, main, read, parts);
    RewriteGives(s.columns, read, parts, err, out.bytes, whole, packed);
  }

  /** Count the heap bytes the fetched rows address. */
  method CountFetched(s: Schema, mask: Mask, rows: TableRows, main: seq<Byte>, ghost src: seq<Byte>,
                      ghost read: seq<seq<Result<Cell, TableError>>>) returns (r: Result<nat, TableError>)
    requires s.Laid() && Masks(mask, s.columns) && AreRows(main, s.extent.rowLen, src, rows.Numbers())
    requires read == Reads(s, mask, src, rows.Numbers())
    ensures CountsHeap(CollectRows(read, |read|), r)
  {
    ChunksLie(main, s.extent.rowLen, rows.Len());
    var chunks := seq(rows.Len(), k requires 0 <= k < rows.Len() && RowIn(main, s.extent.rowLen, k) => RowAt(main, s.extent.rowLen, k));
    forall k | 0 <= k < rows.Len() ensures IsRowRead(s, mask, src, chunks, rows.Numbers(), read, k) {
      RowReadsAs(s, mask, src, rows.Numbers(), main, k);
    }
    r := HeapLen(s, mask, chunks, rows.Numbers(), src, read);
  }

  lemma {:induction false} ChunksLie(main: seq<Byte>, len: nat, n: nat)
    requires |main| == RowStart(n, len)
    ensures forall k: nat :: k < n ==> RowIn(main, len, k)
  {
    forall k: nat | k < n ensures RowIn(main, len, k) {
      RowsRise(k, n, len);
    }
  }

  method RewriteAll(s: Schema, mask: Mask, rows: TableRows, fetches: Merged, out: ByteVec, main: nat,
                    ghost read: seq<seq<Result<Cell, TableError>>>, ghost parts: Parts) returns (err: Option<TableError>)
    requires s.Laid() && Masks(mask, s.columns) && fetches.Valid() && fetches.pending == None
    requires AreRows(out.bytes, s.extent.rowLen, fetches.fetch, rows.Numbers()) && main == |out.bytes|
    requires read == Reads(s, mask, fetches.fetch, rows.Numbers()) && ArePacked(s.columns, OkRows(read), parts)
    modifies fetches, out
    ensures err == None ==> AllRowsRead(read) && Join(parts, |parts|).Ok? && out.bytes == Join(parts, |parts|).value + TableHeap(OkRows(read))
    ensures err.Some? ==> !AllRowsRead(read) || Join(parts, |parts|) == Err(err.value)
  {
    ghost var orig := out.bytes;
    err := RewriteRows(s, mask, rows, fetches, out, main, read, parts, orig);
    if err == None {
      err := Finish(fetches, out, main, read, parts, orig);
    }
  }

  /** Append what is still held back: the copy is then its rows, rewritten, and the heap. */
  method Finish(fetches: Merged, out: ByteVec, main: nat, ghost read: seq<seq<Result<Cell, TableError>>>, ghost parts: Parts, ghost orig: seq<Byte>)
    returns (err: Option<TableError>)
    requires fetches.Valid() && main == |orig| <= |out.bytes| && |read| == |parts|
    requires TableTo(read, parts, |read|, orig, ProgressOf(fetches, out, main), main)
    modifies fetches, out
    ensures err == None ==> AllRowsRead(read) && Join(parts, |parts|).Ok? && out.bytes == Join(parts, |parts|).value + TableHeap(OkRows(read))
    ensures err.Some? ==> !AllRowsRead(read)
  {
    ghost var was, held := out.bytes, fetches.Held();
    assert OkRows(read)[..|read|] == OkRows(read);
    var ok := fetches.Flush(out);
    err := if ok then None else Some(UnexpectedEof);
    SplitAt(was, held, main);
  }

  lemma SplitAt(bytes: seq<Byte>, held: seq<Byte>, main: nat)
    requires main <= |bytes|
    ensures bytes + held == bytes[..main] + (bytes[main..] + held)
  {
  }

  /** The count of what a selection's cells take after `mainLen` bytes of rows, or their error. */
  ghost predicate Counts(cells: Result<seq<seq<Cell>>, TableError>, mainLen: nat, r: Result<nat, TableError>) {
    match cells
    case Ok(rows) =>
      var len := mainLen + |TableHeap(rows)|;
      r == if len <= USIZE_MAX then Ok(len) else Err(DataUnitOverflow)
    case Err(e) => e.UnexpectedEof? || r == Err(e)
  }

  /** `|Selected(..)|`, found without reading a payload. */
  method CopiedLen(s: Schema, mask: Mask, rows: TableRows, main: seq<Byte>, ghost src: seq<Byte>) returns (r: Result<nat, TableError>)
    requires s.Valid() && Masks(mask, s.columns) && |main| == RowStart(s.extent.rowCount, s.extent.rowLen) && main <= src
    ensures Counts(SelectedCells(s, mask, src, rows), RowStart(rows.Len(), s.extent.rowLen), r)
  {
    var mainLen := RowStart(rows.Len(), s.extent.rowLen);
    if mainLen > USIZE_MAX {
      return Err(DataUnitOverflow);
    }
    var bad := rows.Check(s.extent.rowCount);
    if bad.Some? {
      return Err(bad.value);
    }
    MainHasRows(rows, s.extent.rowCount, s.extent.rowLen, main, src);
    r := CountValid(s, mask, rows, main, mainLen, src, Reads(s, mask, src, rows.Numbers()));
    SelectedCellsAre(s, mask, src, rows);
  }

  lemma SelectedCellsAre(s: Schema, mask: Mask, src: seq<Byte>, rows: TableRows)
    requires s.Valid() && Masks(mask, s.columns) && RowStart(rows.Len(), s.extent.rowLen) <= USIZE_MAX
    requires rows.Check(s.extent.rowCount) == None && RowsIn(src, s.extent.rowLen, rows.Numbers())
    ensures var read := Reads(s, mask, src, rows.Numbers());
            SelectedCells(s, mask, src, rows) == CollectRows(read, |read|)
  {
  }

  method CountValid(s: Schema, mask: Mask, rows: TableRows, main: seq<Byte>, mainLen: nat, ghost src: seq<Byte>,
                    ghost read: seq<seq<Result<Cell, TableError>>>) returns (r: Result<nat, TableError>)
    requires s.Laid() && Masks(mask, s.columns) && main <= src
    requires RowsIn(main, s.extent.rowLen, rows.Numbers()) && RowsIn(src, s.extent.rowLen, rows.Numbers())
    requires read == Reads(s, mask, src, rows.Numbers())
    ensures Counts(CollectRows(read, |read|), mainLen, r)
  {
    var heap := CountPicked(s, mask, rows, main, src, read);
    r := AddHeap(mainLen, heap);
    CountsAdd(CollectRows(read, |read|), mainLen, heap);
  }

  lemma CountsAdd(cells: Result<seq<seq<Cell>>, TableError>, mainLen: nat, heap: Result<nat, TableError>)
    requires CountsHeap(cells, heap)
    ensures Counts(cells, mainLen, AddHeap(mainLen, heap))
  {
  }

  function AddHeap(mainLen: nat, heap: Result<nat, TableError>): Result<nat, TableError> {
    match heap
    case Err(e) => Err(e)
    case Ok(len) => if mainLen + len <= USIZE_MAX then Ok(mainLen + len) else Err(DataUnitOverflow)
  }

  method CountPicked(s: Schema, mask: Mask, rows: TableRows, main: seq<Byte>, ghost src: seq<Byte>,
                     ghost read: seq<seq<Result<Cell, TableError>>>) returns (r: Result<nat, TableError>)
    requires s.Laid() && Masks(mask, s.columns) && main <= src
    requires RowsIn(main, s.extent.rowLen, rows.Numbers()) && RowsIn(src, s.extent.rowLen, rows.Numbers())
    requires read == Reads(s, mask, src, rows.Numbers())
    ensures CountsHeap(CollectRows(read, |read|), r)
  {
    var picked := RowsOfMain(rows, s.extent.rowLen, main);
    PickedReads(s, mask, src, main, picked, rows.Numbers(), read);
    r := HeapLen(s, mask, picked, rows.Numbers(), src, read);
  }

  method RowsOfMain(rows: TableRows, len: nat, main: seq<Byte>) returns (picked: seq<seq<Byte>>)
    requires RowsIn(main, len, rows.Numbers())
    ensures |picked| == rows.Len() && forall k :: 0 <= k < |picked| ==> IsPicked(main, len, picked, rows.Numbers(), k)
  {
    var numbers := rows.Numbers();
    picked := seq(|numbers|, k requires 0 <= k < |numbers| && RowIn(main, len, numbers[k]) => RowAt(main, len, numbers[k]));
  }

  predicate IsPicked(main: seq<Byte>, len: nat, picked: seq<seq<Byte>>, numbers: seq<nat>, k: nat)
    requires k < |picked| == |numbers|
  {
    RowIn(main, len, numbers[k]) && picked[k] == RowAt(main, len, numbers[k])
  }

  lemma {:induction false} MainHasRows(rows: TableRows, rowCount: nat, len: nat, main: seq<Byte>, src: seq<Byte>)
    requires |main| == RowStart(rowCount, len) && main <= src && rows.Check(rowCount) == None
    ensures RowsIn(main, len, rows.Numbers()) && RowsIn(src, len, rows.Numbers())
  {
    rows.Checked(rowCount);
    forall k | 0 <= k < rows.Len() ensures RowIn(main, len, rows.Numbers()[k]) && RowIn(src, len, rows.Numbers()[k]) {
      RowsRise(rows.Get(k), rowCount, len);
    }
  }

  lemma PickedReads(s: Schema, mask: Mask, src: seq<Byte>, main: seq<Byte>, picked: seq<seq<Byte>>, numbers: seq<nat>,
                    read: seq<seq<Result<Cell, TableError>>>)
    requires s.Laid() && Masks(mask, s.columns) && main <= src && RowsIn(src, s.extent.rowLen, numbers) && |picked| == |numbers|
    requires forall k :: 0 <= k < |picked| ==> IsPicked(main, s.extent.rowLen, picked, numbers, k)
    requires read == Reads(s, mask, src, numbers)
    ensures AreRowReads(s, mask, src, picked, numbers, read)
  {
    forall k | 0 <= k < |picked| ensures IsRowRead(s, mask, src, picked, numbers, read, k) {
      PickedRead(s, mask, src, main, picked, numbers, read, k);
    }
  }

  lemma PickedRead(s: Schema, mask: Mask, src: seq<Byte>, main: seq<Byte>, picked: seq<seq<Byte>>, numbers: seq<nat>,
                   read: seq<seq<Result<Cell, TableError>>>, k: nat)
    requires s.Laid() && Masks(mask, s.columns) && main <= src && RowsIn(src, s.extent.rowLen, numbers)
    requires k < |picked| == |numbers| && IsPicked(main, s.extent.rowLen, picked, numbers, k) && read == Reads(s, mask, src, numbers)
    ensures IsRowRead(s, mask, src, picked, numbers, read, k)
  {
    var at := RowStart(numbers[k], s.extent.rowLen);
    PrefixSlice(main, src, at, at + s.extent.rowLen);
    RowReads(s, mask, src, RowAt(src, s.extent.rowLen, numbers[k]), numbers[k]);
  }

  datatype Bound = Included(row: nat) | Excluded(row: nat) | Unbounded

  /** A row number of the table is in the range exactly when it satisfies both bounds, and the
      range leaves the table only by being empty. */
  method RowsWithin(start: Bound, end: Bound, len: nat) returns (r: Result<TableRows, TableError>)
    requires len <= USIZE_MAX
    ensures r.Ok? ==> r.value.RowRange? && r.value.start <= r.value.end <= len
    ensures r.Ok? ==> forall row: nat :: row < len ==> (r.value.start <= row < r.value.end <==> After(start, row) && Before(end, row))
    ensures r.Err? ==> r.error.RowRangeOutOfBounds? && r.error.len == len && (r.error.start > r.error.end || r.error.end > len)
  {
    var from := match start
      case Included(row) => row
      case Excluded(row) => Min(row + 1, USIZE_MAX)
      case Unbounded => 0;
    var to := match end
      case Included(row) => Min(row + 1, USIZE_MAX)
      case Excluded(row) => row
      case Unbounded => len;
    var bad := ValidateRowRange(from, to, len);
    r := if bad == None then Ok(RowRange(from, to)) else Err(bad.value);
  }

  predicate After(start: Bound, row: nat) {
    match start
    case Included(first) => first <= row
    case Excluded(before) => before < row
    case Unbounded => true
  }

  predicate Before(end: Bound, row: nat) {
    match end
    case Included(last) => row <= last
    case Excluded(after) => row < after
    case Unbounded => true
  }
}

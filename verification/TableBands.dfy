/** Cells written into a band of a table's rows: each write disturbs no other cell, and a band
    whose cells are all written is the rows packed. */
module TableBands {
  import opened Bytes
  import opened Descriptors
  import opened MergedReads
  import opened PackedTables
  import opened TableBuilder
  import opened Tables

  /** The bytes of `now` other than `from..to` are those of `was`. */
  ghost predicate Elsewhere(was: seq<Byte>, now: seq<Byte>, from: nat, to: nat)
    requires from <= to <= |was|
  {
    |now| == |was| && now[..from] == was[..from] && now[to..] == was[to..]
  }

  lemma ElsewhereSlice(was: seq<Byte>, now: seq<Byte>, from: nat, to: nat, a: nat, b: nat)
    requires from <= to <= |was| && Elsewhere(was, now, from, to)
    requires a <= b <= |was| && (b <= from || to <= a)
    ensures now[a..b] == was[a..b]
  {
    if b <= from {
      assert now[..from][a..b] == now[a..b] && was[..from][a..b] == was[a..b];
    } else {
      assert now[to..][a - to..b - to] == now[a..b] && was[to..][a - to..b - to] == was[a..b];
    }
  }

  /** Where cell `j` of row `i` starts. */
  ghost function CellStart(columns: seq<Column>, i: nat, j: nat): nat
    requires j < |columns|
  {
    RowStart(i, WidthTo(columns, |columns|)) + columns[j].start
  }

  ghost function CellEnd(columns: seq<Column>, i: nat, j: nat): nat
    requires j < |columns|
  {
    CellStart(columns, i, j) + columns[j].ByteWidth()
  }

  /** Two cells lie apart. */
  lemma CellsApart(columns: seq<Column>, i: nat, j: nat, i': nat, j': nat)
    requires Placed(columns) && j < |columns| && j' < |columns| && (i < i' || (i == i' && j < j'))
    ensures CellEnd(columns, i, j) <= CellStart(columns, i', j')
  {
    var len := WidthTo(columns, |columns|);
    CellLies(columns, j);
    CellLies(columns, j');
    RowsRise(i, i', len);
    if i == i' {
      WidthGrows(columns, j + 1, j');
      assert IsPlaced(columns, j') && IsPlaced(columns, j);
    }
  }

  lemma {:induction false} CellInBand(columns: seq<Column>, n: nat, i: nat, j: nat)
    requires Placed(columns) && j < |columns| && i < n
    ensures CellEnd(columns, i, j) <= RowStart(n, WidthTo(columns, |columns|))
  {
    CellLies(columns, j);
    RowsRise(i, n, WidthTo(columns, |columns|));
  }

  /** The band holds, as its cell `j` of row `i`, what is wanted there. */
  ghost predicate CellIs(columns: seq<Column>, bytes: seq<Byte>, i: nat, j: nat, want: Result<seq<Byte>, TableError>)
    requires j < |columns|
  {
    CellEnd(columns, i, j) <= |bytes| && want == Ok(bytes[CellStart(columns, i, j)..CellEnd(columns, i, j)])
  }

  /** What a pass over the columns, then over the rows' arrays, has written: the fixed columns
      before `c`, and `c` in the first `i0` rows; the arrays of the rows before `r`, and of `r`
      in the columns before `k`. */
  ghost predicate IsDone(fixed: seq<bool>, c: nat, i0: nat, r: nat, k: nat, i: nat, j: nat)
    requires j < |fixed|
  {
    if fixed[j] then j < c || (j == c && i < i0) else i < r || (i == r && j < k)
  }

  ghost predicate Written(columns: seq<Column>, fixed: seq<bool>, bytes: seq<Byte>, want: seq<Parts>, c: nat, i0: nat, r: nat, k: nat) {
    && |fixed| == |columns|
    && (forall i :: 0 <= i < |want| ==> |want[i]| == |columns|)
    && forall i: nat, j: nat :: i < |want| && j < |columns| && IsDone(fixed, c, i0, r, k, i, j) ==> CellIs(columns, bytes, i, j, want[i][j])
  }

  /** Writing one cell more leaves those written before it. */
  lemma WriteKeeps(columns: seq<Column>, fixed: seq<bool>, was: seq<Byte>, now: seq<Byte>, want: seq<Parts>,
                   c: nat, i0: nat, r: nat, k: nat, c': nat, i0': nat, r': nat, k': nat, wi: nat, wj: nat)
    requires Placed(columns) && Written(columns, fixed, was, want, c, i0, r, k)
    requires wi < |want| && wj < |columns| && CellEnd(columns, wi, wj) <= |was|
    requires Elsewhere(was, now, CellStart(columns, wi, wj), CellEnd(columns, wi, wj))
    requires CellIs(columns, now, wi, wj, want[wi][wj])
    requires forall i: nat, j: nat :: i < |want| && j < |columns| && IsDone(fixed, c', i0', r', k', i, j) ==>
               IsDone(fixed, c, i0, r, k, i, j) || (i == wi && j == wj)
    ensures Written(columns, fixed, now, want, c', i0', r', k')
  {
    forall i: nat, j: nat | i < |want| && j < |columns| && IsDone(fixed, c', i0', r', k', i, j)
      ensures CellIs(columns, now, i, j, want[i][j])
    {
      if i != wi || j != wj {
        assert IsDone(fixed, c, i0, r, k, i, j);
        assert CellIs(columns, was, i, j, want[i][j]);
        if i < wi || (i == wi && j < wj) {
          CellsApart(columns, i, j, wi, wj);
        } else {
          CellsApart(columns, wi, wj, i, j);
        }
        ElsewhereSlice(was, now, CellStart(columns, wi, wj), CellEnd(columns, wi, wj), CellStart(columns, i, j), CellEnd(columns, i, j));
      }
    }
  }

  // ---- A band written is its rows packed ----

  /** A row whose slots are the parts is their join. */
  lemma {:induction false} SlotsMakeRow(columns: seq<Column>, row: seq<Byte>, parts: Parts, c: nat)
    requires Placed(columns) && |row| == WidthTo(columns, |columns|) && c <= |columns| == |parts|
    requires forall j :: 0 <= j < c ==> IsSlotOf(columns, row, parts, j)
    ensures WidthTo(columns, c) <= |row| && Join(parts, c) == Ok(row[..WidthTo(columns, c)])
  {
    WidthGrows(columns, c, |columns|);
    if c > 0 {
      CellLies(columns, c - 1);
      SlotsMakeRow(columns, row, parts, c - 1);
      assert IsSlotOf(columns, row, parts, c - 1) && IsPlaced(columns, c - 1);
      assert row[..WidthTo(columns, c)] == row[..WidthTo(columns, c - 1)] + row[WidthTo(columns, c - 1)..WidthTo(columns, c)];
    }
  }

  ghost predicate IsSlotOf(columns: seq<Column>, row: seq<Byte>, parts: Parts, j: nat)
    requires Placed(columns) && |row| == WidthTo(columns, |columns|) && j < |columns| == |parts|
  {
    parts[j] == Ok(Slot(columns, row, j))
  }

  lemma {:induction false} RowIsJoin(columns: seq<Column>, bytes: seq<Byte>, i: nat, parts: Parts)
    requires Placed(columns) && |parts| == |columns| && RowStart(i, WidthTo(columns, |columns|)) + WidthTo(columns, |columns|) <= |bytes|
    requires forall j :: 0 <= j < |columns| ==> CellIs(columns, bytes, i, j, parts[j])
    ensures Join(parts, |columns|) == Ok(RowAt(bytes, WidthTo(columns, |columns|), i))
  {
    var len := WidthTo(columns, |columns|);
    var row := RowAt(bytes, len, i);
    forall j | 0 <= j < |columns| ensures IsSlotOf(columns, row, parts, j) {
      CellLies(columns, j);
      assert CellIs(columns, bytes, i, j, parts[j]);
      SliceTwice(bytes, RowStart(i, len), len, columns[j].start, columns[j].ByteWidth());
    }
    SlotsMakeRow(columns, row, parts, |columns|);
    assert row[..len] == row;
  }

  /** A band of packed rows follows the rows before it. */
  lemma {:induction false} BandJoins(parts: Parts, start: nat, rows: nat, len: nat, band: seq<Byte>)
    requires start + rows <= |parts| && |band| == RowStart(rows, len) && Join(parts, start).Ok?
    requires forall i :: 0 <= i < rows ==> IsRowPart(parts, start, len, band, i)
    ensures Join(parts, start + rows) == Ok(Join(parts, start).value + band)
  {
    if rows == 0 {
      assert band == [];
      assert Join(parts, start).value + [] == Join(parts, start).value;
    } else {
      var front := band[..RowStart(rows - 1, len)];
      forall i | 0 <= i < rows - 1 ensures IsRowPart(parts, start, len, front, i) {
        assert IsRowPart(parts, start, len, band, i);
        RowsRise(i, rows - 1, len);
        PrefixSlice(front, band, RowStart(i, len), RowStart(i, len) + len);
      }
      BandJoins(parts, start, rows - 1, len, front);
      assert IsRowPart(parts, start, len, band, rows - 1);
      assert band == front + RowAt(band, len, rows - 1);
      assert Join(parts, start).value + (front + RowAt(band, len, rows - 1))
          == Join(parts, start).value + front + RowAt(band, len, rows - 1);
    }
  }

  ghost predicate IsRowPart(parts: Parts, start: nat, len: nat, band: seq<Byte>, i: nat)
    requires start + i < |parts|
  {
    RowStart(i, len) + len <= |band| && parts[start + i] == Ok(RowAt(band, len, i))
  }
}

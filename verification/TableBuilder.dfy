/** A binary table to write, column by column: the cells its columns hold, and the extent of
    the data unit they take. */
module TableBuilder {
  import opened Bytes
  import opened Descriptors
  import opened PackedTables
  import opened Tables

  const MAX_TABLE_FIELDS: nat := 999

  /** One stored element, big-endian. */
  type Element = seq<Byte>

  /** Values by row: `repeat` to each row, or as many as bring row `r` up to `ends[r]`. */
  datatype WriteColumn =
    | Fixed(element: ElementKind, values: seq<Element>, repeat: nat)
    | Vla(element: ElementKind, values: seq<Element>, ends: seq<nat>, width: Width)
  {
    /** The values are whole elements that fit in memory, and the rows divide them. */
    predicate Valid() {
      && !element.Bit?
      && (forall k :: 0 <= k < |values| ==> |values[k]| == element.Whole(1))
      && element.Whole(|values|) <= USIZE_MAX
      && (Vla? ==>
            && (forall r :: 0 <= r < |ends| ==> ends[r] <= |values|)
            && (forall q, r :: 0 <= q < r < |ends| ==> ends[q] <= ends[r]))
    }

    /** The column holds the values of `n` rows. */
    predicate Holds(n: nat) {
      match this
      case Fixed(_, values, repeat) => |values| == RowStart(n, repeat)
      case Vla(_, _, ends, _) => |ends| == n
    }

    /** The values of row `r`. */
    function Row(n: nat, r: nat): (values': seq<Element>)
      requires Valid() && Holds(n) && r < n
    {
      match this
      case Fixed(_, values, repeat) =>
        RowsRise(r, n, repeat);
        values[RowStart(r, repeat)..RowStart(r, repeat) + repeat]
      case Vla(_, values, ends, _) =>
        values[(if r == 0 then 0 else ends[r - 1])..ends[r]]
    }

    /** The cell of row `r`. */
    function CellOf(n: nat, r: nat): Cell
      requires Valid() && Holds(n) && r < n
    {
      if Fixed? then InRow(Concat(Row(n, r))) else InHeap(|Row(n, r)|, Concat(Row(n, r)))
    }

    /** The column, `start` bytes into its row. */
    function ColumnAt(start: nat): Column {
      match this
      case Fixed(element, _, repeat) => Column(start, repeat, element, Storage.Fixed)
      case Vla(element, _, _, width) => Column(start, 1, element, Array(width))
    }
  }

  /** The columns of a table, one after another. */
  function ColumnsOf(columns: seq<WriteColumn>): (laid: seq<Column>)
    ensures |laid| == |columns|
  {
    if columns == [] then []
    else
      var before := ColumnsOf(columns[..|columns| - 1]);
      before + [columns[|columns| - 1].ColumnAt(WidthTo(before, |before|))]
  }

  /** The columns are whole, and hold `n` rows. */
  predicate AllHold(columns: seq<WriteColumn>, n: nat) {
    forall c :: 0 <= c < |columns| ==> columns[c].Valid() && columns[c].Holds(n)
  }

  function RowCells(columns: seq<WriteColumn>, n: nat, r: nat): (cells: seq<Cell>)
    requires AllHold(columns, n) && r < n
    ensures |cells| == |columns|
  {
    seq(|columns|, c requires 0 <= c < |columns| => columns[c].CellOf(n, r))
  }

  /** Row by row, what each column has there. */
  function CellsOf(columns: seq<WriteColumn>, n: nat): (rows: seq<seq<Cell>>)
    requires AllHold(columns, n)
    ensures |rows| == n && forall r :: 0 <= r < n ==> |rows[r]| == |columns|
  {
    seq(n, r requires 0 <= r < n => RowCells(columns, n, r))
  }

  // ---- The columns are placed, and the cells fit them ----

  lemma {:induction false} WidthOfFront(columns: seq<Column>, front: seq<Column>, c: nat)
    requires front <= columns && c <= |front|
    ensures WidthTo(columns, c) == WidthTo(front, c)
  {
    if c > 0 {
      WidthOfFront(columns, front, c - 1);
    }
  }

  lemma {:induction false} ColumnsArePlaced(columns: seq<WriteColumn>)
    ensures Placed(ColumnsOf(columns))
    ensures forall c :: 0 <= c < |columns| ==> IsColumn(columns, c)
  {
    if columns != [] {
      var front := columns[..|columns| - 1];
      var laid, before := ColumnsOf(columns), ColumnsOf(front);
      ColumnsArePlaced(front);
      forall c | 0 <= c < |laid| ensures laid[c].Valid() && IsPlaced(laid, c) && IsColumn(columns, c) {
        WidthOfFront(laid, before, if c < |before| then c else |before|);
        if c < |before| {
          assert IsPlaced(before, c) && IsColumn(front, c) && before[c].Valid();
        }
      }
    }
  }

  ghost predicate IsColumn(columns: seq<WriteColumn>, c: nat)
    requires c < |columns|
  {
    ColumnsOf(columns)[c] == columns[c].ColumnAt(ColumnsOf(columns)[c].start)
  }

  /** Parts all as wide, one after another. */
  lemma {:induction false} ConcatWide(parts: seq<Element>, width: nat)
    requires forall k :: 0 <= k < |parts| ==> |parts[k]| == width
    ensures |Concat(parts)| == RowStart(|parts|, width)
  {
    if parts != [] {
      ConcatWide(parts[..|parts| - 1], width);
    }
  }

  lemma {:induction false} WholeIs(kind: ElementKind, count: nat)
    ensures kind.Whole(count) == RowStart(count, kind.Whole(1))
  {
    if count > 0 {
      WholeIs(kind, count - 1);
    }
  }

  /** Whole elements joined are as long as their number says. */
  lemma ValuesBytes(column: WriteColumn, from: nat, to: nat)
    requires column.Valid() && from <= to <= |column.values|
    ensures |Concat(column.values[from..to])| == column.element.Whole(to - from) <= USIZE_MAX
    ensures column.element.PayloadLen(to - from) == Some(|Concat(column.values[from..to])|)
  {
    var run := column.values[from..to];
    forall k | 0 <= k < |run| ensures |run[k]| == column.element.Whole(1) {
      assert run[k] == column.values[from + k];
    }
    ConcatWide(run, column.element.Whole(1));
    WholeIs(column.element, to - from);
    WholeRises(column.element, to - from, |column.values|);
  }

  lemma WholeRises(kind: ElementKind, a: nat, b: nat)
    requires a <= b
    ensures kind.Whole(a) <= kind.Whole(b)
  {
  }

  lemma CellFitsColumn(column: WriteColumn, n: nat, r: nat, start: nat)
    requires column.Valid() && column.Holds(n) && r < n
    ensures CellFits(column.ColumnAt(start), column.CellOf(n, r))
    ensures column.Fixed? ==> column.element.PayloadLen(column.repeat).Some?
  {
    match column {
      case Fixed(_, _, repeat) =>
        RowsRise(r, n, repeat);
        ValuesBytes(column, RowStart(r, repeat), RowStart(r, repeat) + repeat);
      case Vla(_, _, ends, _) =>
        ValuesBytes(column, if r == 0 then 0 else ends[r - 1], ends[r]);
    }
  }

  lemma {:induction false} CellsFit(columns: seq<WriteColumn>, n: nat)
    requires AllHold(columns, n)
    ensures AreCells(ColumnsOf(columns), CellsOf(columns, n)) && TableFits(ColumnsOf(columns), CellsOf(columns, n))
  {
    ColumnsArePlaced(columns);
    forall r | 0 <= r < n ensures RowFits(ColumnsOf(columns), CellsOf(columns, n)[r]) {
      forall c | 0 <= c < |columns| ensures CellFits(ColumnsOf(columns)[c], CellsOf(columns, n)[r][c]) {
        assert IsColumn(columns, c);
        CellFitsColumn(columns[c], n, r, ColumnsOf(columns)[c].start);
      }
    }
  }
}

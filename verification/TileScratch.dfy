/** The per-tile scratch: the odometer that finds a tile's rows, and the copies through them. */
module TileRows {
  import opened Bytes
  import opened ImageRegion
  import opened MixedRadix
  import opened Products
  import opened TileCopies
  import opened TileGeometry
  import opened TileSections

  class TileScratch {
    var origin: seq<nat>
    var tdims: seq<nat>
    var rowBases: seq<nat>
    var rowLen: nat
    var coord: seq<nat>

    constructor ()
    {
      origin, tdims, rowBases, rowLen, coord := [], [], [], 0, [];
    }

    /** This scratch describes tile `t`: where it starts, how far it goes, and its rows. */
    ghost predicate Describes(g: Geometry, t: nat)
      reads this
    {
      && g.Filled() && t < Product(g.tilesAxis)
      && origin == Origin(g, t) && tdims == Extent(g, t)
      && rowLen == RowLen(g, t) && rowBases == RowBases(g, t)
    }

    /** Fill this scratch with tile `t`, dividing once an axis and never in a row. */
    method TileInto(g: Geometry, t: nat)
      requires g.Filled() && t < Product(g.tilesAxis)
      modifies this
      ensures Describes(g, t)
    {
      var n := |g.dims|;
      FindOrigin(g, t, IndexOf(g, t));
      SpansAreTheTile(g, t, origin, tdims);
      rowLen := if n == 0 then 1 else tdims[0];
      var rowCount := if n <= 1 then 1 else Product(tdims[1..]);
      assert n == 1 ==> Product(tdims[1..]) == 1;
      EmitRows(g, rowCount);
      RowsAreTheTiles(g, t, rowBases);
    }

    // ---- Copies ----

    /** `pixels` are the rows of this scratch, one after another. */
    ghost predicate Covers(pixels: seq<nat>)
      reads this
    {
      && Increasing(pixels)
      && forall k, x :: 0 <= k < |rowBases| && 0 <= x < rowLen ==> RowHas(pixels, rowBases, rowLen, k, x)
    }

    lemma DescribedCovers(g: Geometry, t: nat)
      requires Describes(g, t)
      ensures Covers(Pixels(g, t))
    {
      PixelsIncrease(g, t);
      forall k, x | 0 <= k < |rowBases| && 0 <= x < rowLen
        ensures RowHas(Pixels(g, t), rowBases, rowLen, k, x)
      {
        RowPixel(g, t, k, x);
      }
    }

    lemma RowsAreThePixels(g: Geometry, t: nat)
      requires Describes(g, t)
      ensures |Pixels(g, t)| == rowLen * |rowBases|
    {
    }

    /** Write `values`, converted, at this tile's `pixels` of `out`, the part of the plane
        from `start` on: a row at a time, each a contiguous run. */
    method ScatterRowsInto<S, D(!new)>(
      out: array<D>, start: nat, values: seq<S>, convert: S -> D, ghost pixels: seq<nat>)
      requires Covers(pixels) && |pixels| == rowLen * |rowBases| <= |values| && LiesIn(pixels, start, out.Length)
      modifies out
      ensures Scattered(out[..], old(out[..]), start, pixels, values, convert)
    {
      var offset := 0;
      for k := 0 to |rowBases|
        invariant offset == rowLen * k
        invariant ScatteredTo(out[..], old(out[..]), start, pixels, offset, values, convert)
      {
        ScaledBelow(rowLen, k, |rowBases|);
        ScaledNext(rowLen, k);
        ScatterRow(out, start, k, offset, values, convert, pixels, old(out[..]));
        offset := offset + rowLen;
      }
    }

    method ScatterRow<S, D(!new)>(
      out: array<D>, start: nat, k: nat, offset: nat, values: seq<S>, convert: S -> D,
      ghost pixels: seq<nat>, ghost was: seq<D>)
      requires Covers(pixels) && k < |rowBases| && offset == rowLen * k && offset + rowLen <= |pixels|
      requires ScatteredTo(out[..], was, start, pixels, offset, values, convert)
      modifies out
      ensures ScatteredTo(out[..], was, start, pixels, offset + rowLen, values, convert)
    {
      for x := 0 to rowLen
        invariant ScatteredTo(out[..], was, start, pixels, offset + x, values, convert)
      {
        assert RowHas(pixels, rowBases, rowLen, k, x);
        ScatterOne(out[..], was, start, pixels, offset + x, values, convert);
        var base := rowBases[k] + x - start;
        ghost var before := out[..];
        out[base] := convert(values[offset + x]);
        assert out[..] == before[base := convert(values[offset + x])];
      }
    }

    /** Each cell of the section that lies in the tile takes the tile's value there, converted;
        every other cell stays. */
    method ScatterSectionInto<S, D(!new)>(
      ranges: seq<Range>, selected: seq<nat>, values: seq<S>, out: array<D>, convert: S -> D, ghost shape: seq<nat>)
      requires IsSection(ranges, selected, shape) && |origin| == |tdims| == |ranges| > 0
      requires Positive(tdims) && rowLen == tdims[0] && |rowBases| == Product(tdims[1..])
      requires |values| == Product(tdims) && out.Length == Product(selected)
      modifies out
      ensures SectionScattered(out[..], old(out[..]), origin, tdims, Starts(ranges), selected, values, convert)
    {
      var from := Max(origin[0], ranges[0].start);
      var to := Min(origin[0] + tdims[0], ranges[0].end);
      if from >= to {
        TilePassedOver(out[..], origin, tdims, Starts(ranges), selected, values, convert);
        return;
      }
      ghost var was := out[..];
      ghost var lo := Starts(ranges);
      assert rowLen * 0 == 0;
      for row := 0 to |rowBases|
        invariant SectionTo(out[..], was, origin, tdims, lo, selected, rowLen * row, values, convert)
      {
        ScaledBelow(rowLen, row, |rowBases|);
        ScatterSectionRow(ranges, selected, row, rowLen * row, from, to, values, out, convert, shape, was);
        ScaledNext(rowLen, row);
      }
    }

    method ScatterSectionRow<S, D(!new)>(
      ranges: seq<Range>, selected: seq<nat>, row: nat, offset: nat, from: nat, to: nat, values: seq<S>,
      out: array<D>, convert: S -> D, ghost shape: seq<nat>, ghost was: seq<D>)
      requires IsSection(ranges, selected, shape) && |origin| == |tdims| == |ranges| > 0
      requires Positive(tdims) && row < Product(tdims[1..]) && offset == tdims[0] * row && offset + tdims[0] <= |values|
      requires from == Max(origin[0], ranges[0].start) < to == Min(origin[0] + tdims[0], ranges[0].end)
      requires SectionTo(out[..], was, origin, tdims, Starts(ranges), selected, offset, values, convert)
      modifies out
      ensures SectionTo(out[..], was, origin, tdims, Starts(ranges), selected, offset + tdims[0], values, convert)
    {
      ghost var before := out[..];
      var inside, base, higher := RowInSection(ranges, selected, row, shape);
      if !inside {
        RowPassedOver(out[..], was, origin, tdims, ranges, selected, shape, row, offset, higher, values, convert);
        return;
      }
      HigherOfSection(higher, ranges, selected, shape);
      RunLies(higher, Starts(ranges), selected, base);
      var source := offset + (from - origin[0]);
      var destination := base + (from - ranges[0].start);
      CopyRun(out, destination, to - from, source, values, convert);
      RowTakenIn(out[..], before, was, origin, tdims, Starts(ranges), selected, row, offset, higher, base, from, to,
                 values, convert);
    }

    /** The coordinate of one axis divided out of `remainder`, which has `digits` left. */
    method AxisCoordinate(axis: nat, remainder: nat, ghost digits: seq<nat>) returns (rest: nat, coordinate: nat)
      requires 1 <= axis < |tdims| == |origin| && Positive(tdims) && |digits| == |tdims| - 1
      requires digits[axis - 1..] == Unflat(remainder, tdims[1..][axis - 1..])
      ensures rest == Quotient(remainder, tdims[axis])
      ensures coordinate == Add(origin[1..], digits)[axis - 1]
    {
      DigitStep(digits, tdims[1..], axis - 1, remainder);
      var local;
      rest, local := Divide(remainder, tdims[axis]);
      coordinate := origin[axis] + local;
    }

    /** Whether row `row`'s higher coordinates, divided out of its number, lie in the ranges,
        and where in the section's plane the row then starts. */
    method RowInSection(ranges: seq<Range>, selected: seq<nat>, row: nat, ghost shape: seq<nat>)
      returns (inside: bool, base: nat, ghost higher: seq<nat>)
      requires IsSection(ranges, selected, shape) && |origin| == |tdims| == |ranges| > 0 && Positive(tdims)
      ensures higher == Add(origin[1..], Unflat(row, tdims[1..]))
      ensures inside <==> InRanges(higher, ranges[1..])
      ensures inside && selected[0] > 0 ==>
                Above(higher, Starts(ranges), selected)
                && base == Flat(RowCell(higher, Starts(ranges), 0), selected)
    {
      higher := Add(origin[1..], Unflat(row, tdims[1..]));
      var remainder := row;
      base, inside := 0, true;
      var stride: nat := selected[0];
      ghost var u: seq<nat> := [0];
      RowBegins(row, tdims, selected);
      for axis := 1 to |tdims|
        invariant inside && RowDecoded(axis, row, remainder, tdims, selected, u, base, stride)
        invariant HigherTo(u, higher, ranges, axis)
      {
        ghost var was := remainder;
        var coordinate;
        remainder, coordinate := AxisCoordinate(axis, remainder, Unflat(row, tdims[1..]));
        if !ranges[axis].Contains(coordinate) {
          LeavesRanges(higher, ranges, axis);
          inside := false;
          return;
        }
        var x := coordinate - ranges[axis].start;
        RowGoesOn(axis, row, was, tdims, selected, u, base, stride, x);
        HigherGoesOn(u, higher, ranges, axis, x);
        base := base + Times(stride, x);
        stride := Times(stride, selected[axis]);
        u := u + [x];
      }
      assert selected[..|tdims|] == selected;
      if selected[0] > 0 {
        HigherIsRowCell(u, higher, ranges, selected, shape);
      }
    }

    /** Where tile `t` starts and how far it goes, each axis's tile index divided out. */
    method FindOrigin(g: Geometry, t: nat, ghost index: seq<nat>)
      requires g.Filled() && Positive(g.tilesAxis) && index == Unflat(t, g.tilesAxis)
      modifies `origin, `tdims
      ensures |origin| == |tdims| == |index|
      ensures forall k :: 0 <= k < |index| ==> AxisSpans(g, k, index[k], origin[k], tdims[k])
    {
      origin, tdims := [], [];
      var rem := t;
      assert g.tilesAxis[0..] == g.tilesAxis && index[0..] == index;
      for i := 0 to |g.dims|
        invariant index[i..] == Unflat(rem, g.tilesAxis[i..])
        invariant |origin| == |tdims| == i
        invariant forall k :: 0 <= k < i ==> AxisSpans(g, k, index[k], origin[k], tdims[k])
      {
        assert g.tilesAxis[i..][1..] == g.tilesAxis[i + 1..] && index[i..][1..] == index[i + 1..];
        assert index[i] == index[i..][0] == Remainder(rem, g.tilesAxis[i]);
        var start, extent;
        rem, start, extent := TakeAxis(g, i, rem);
        origin := origin + [start];
        tdims := tdims + [extent];
      }
    }

    /** The tile index of one axis divided out of `rem`, and what it spans there. */
    static method TakeAxis(g: Geometry, i: nat, rem: nat) returns (rest: nat, start: nat, extent: nat)
      requires g.Filled() && i < |g.dims| && g.tilesAxis[i] > 0
      ensures rest == Quotient(rem, g.tilesAxis[i])
      ensures AxisSpans(g, i, Remainder(rem, g.tilesAxis[i]), start, extent)
    {
      var ti;
      rest, ti := Divide(rem, g.tilesAxis[i]);
      AxisLies(g, i, ti);
      start := AxisStart(g, i, ti);
      extent := AxisExtent(g, i, ti);
    }

    /** The start of each row, the odometer walking the higher axes. */
    method EmitRows(g: Geometry, rowCount: nat)
      requires g.Filled() && |origin| == |tdims| == |g.dims| && Positive(tdims)
      modifies `rowBases, `coord
      ensures |rowBases| == rowCount
      ensures forall k :: 0 <= k < rowCount ==> rowBases[k] == BoxRowAt(origin, tdims, g.dims, k)
    {
      var flat := FlatOrigin(g);
      rowBases := [];
      coord := Zeros(|g.dims|);
      RowCoordZero(origin, tdims);
      for k := 0 to rowCount
        invariant coord == RowCoord(tdims, k) && flat == BoxRowAt(origin, tdims, g.dims, k)
        invariant |rowBases| == k
        invariant forall i :: 0 <= i < k ==> rowBases[i] == BoxRowAt(origin, tdims, g.dims, i)
      {
        rowBases := rowBases + [flat];
        RowCoordNext(tdims, k);
        flat := Advance(g, flat);
      }
    }

    /** The flat index the tile starts at. */
    method FlatOrigin(g: Geometry) returns (flat: nat)
      requires g.Filled() && |origin| == |g.dims|
      ensures flat == Flat(origin, g.dims)
    {
      flat := 0;
      for i := 0 to |origin|
        invariant flat == Flat(origin[..i], g.dims[..i])
      {
        FlatPrefix(origin, g.dims, i);
        flat := AddStride(g, i, flat, origin[i]);
      }
      assert origin[..|origin|] == origin && g.dims[..|origin|] == g.dims;
    }

    static function AddStride(g: Geometry, i: nat, flat: nat, steps: nat): (sum: nat)
      requires g.Filled() && i < |g.dims|
      ensures sum == flat + Product(g.dims[..i]) * steps
    {
      flat + g.stride[i] * steps
    }

    /** Axis `i` one on. */
    method StepAxis(g: Geometry, i: nat, start: nat) returns (flat: nat)
      requires g.Filled() && |origin| == |coord| == |g.dims| && i < |g.dims|
      requires start == Flat(Add(origin, coord), g.dims)
      modifies `coord
      ensures coord == old(coord)[i := old(coord)[i] + 1] && flat == Flat(Add(origin, coord), g.dims)
    {
      FlatStep(Add(origin, coord), g.dims, i);
      AddUpdate(origin, coord, i, coord[i] + 1);
      coord := coord[i := coord[i] + 1];
      flat := start + g.stride[i];
    }

    /** Axis `i`, at its end, back to 0. */
    method ResetAxis(g: Geometry, i: nat, start: nat) returns (flat: nat)
      requires g.Filled() && |origin| == |coord| == |tdims| == |g.dims| && i < |g.dims|
      requires start == Flat(Add(origin, coord), g.dims) && coord[i] == tdims[i]
      modifies `coord
      ensures coord == old(coord)[i := 0] && flat == Flat(Add(origin, coord), g.dims)
    {
      FlatBack(Add(origin, coord), g.dims, i, tdims[i]);
      AddUpdate(origin, coord, i, 0);
      coord := coord[i := 0];
      flat := start - tdims[i] * g.stride[i];
    }

    /** Step the odometer over the higher axes to the next row, its start kept by adding and
        taking off strides. */
    method Advance(g: Geometry, start: nat) returns (flat: nat)
      requires g.Filled() && |origin| == |tdims| == |coord| == |g.dims|
      requires coord == [] || Inside(coord[1..], tdims[1..])
      requires start == Flat(Add(origin, coord), g.dims)
      modifies `coord
      ensures coord == NextRow(old(coord), tdims) && flat == Flat(Add(origin, coord), g.dims)
    {
      flat := start;
      var n := |g.dims|;
      var i := 1;
      ghost var was := coord;
      while i < n
        invariant n > 0 ==> Carried(was, tdims, coord, i)
        invariant |coord| == n && flat == Flat(Add(origin, coord), g.dims)
      {
        assert was[1..][i - 1] == was[i] < tdims[i] == tdims[1..][i - 1];
        flat := StepAxis(g, i, flat);
        if coord[i] < tdims[i] {
          CarryEnds(was, tdims, coord[i := was[i]], i);
          return;
        }
        flat := ResetAxis(g, i, flat);
        i := i + 1;
      }
      if n > 0 {
        CarryEnds(was, tdims, coord, n);
      }
    }
  }

  /** The axes from 1 to below `i` carried: they are back at 0 in `c`. */
  ghost predicate Carried(was: seq<nat>, tdims: seq<nat>, c: seq<nat>, i: nat) {
    && |was| == |tdims| == |c| && 1 <= i <= |was|
    && (forall k :: 1 <= k < i ==> was[k] + 1 == tdims[k] && c[k] == 0)
    && c[0] == was[0] && (forall k :: i <= k < |c| ==> c[k] == was[k])
  }

  lemma CarryEnds(was: seq<nat>, tdims: seq<nat>, c: seq<nat>, i: nat)
    requires Carried(was, tdims, c, i) && (i < |c| ==> was[i] + 1 < tdims[i])
    ensures NextRow(was, tdims) == if i < |c| then c[i := was[i] + 1] else c
  {
    var (c', dims) := (was[1..], tdims[1..]);
    forall k | 0 <= k < i - 1 ensures c'[k] + 1 >= dims[k] {
      assert was[k + 1] + 1 == tdims[k + 1];
    }
    NextAt(c', dims, i - 1);
    var result := if i < |c| then c[i := was[i] + 1] else c;
    forall k | 1 <= k < |c| ensures NextRow(was, tdims)[k] == result[k] {
      assert NextRow(was, tdims)[k] == Next(c', dims)[k - 1];
    }
  }

  /** Sample `x` of row `k` is the pixel at `k` rows and `x` more. */
  ghost predicate RowHas(pixels: seq<nat>, rowBases: seq<nat>, rowLen: nat, k: nat, x: nat)
    requires k < |rowBases|
  {
    rowLen * k + x < |pixels| && pixels[rowLen * k + x] == rowBases[k] + x
  }

  /** The samples of `values` at the rows of a tile, each widened. */
  method GatherRows<S, D(!new)>(
    values: seq<S>, rowBases: seq<nat>, rowLen: nat, widen: S -> D, ghost pixels: seq<nat>)
    returns (out: seq<D>)
    requires |pixels| == rowLen * |rowBases| && LiesIn(pixels, 0, |values|)
    requires forall k, x :: 0 <= k < |rowBases| && 0 <= x < rowLen ==> RowHas(pixels, rowBases, rowLen, k, x)
    ensures Gathered(out, values, pixels, widen)
  {
    out := [];
    assert rowLen * 0 == 0;
    for k := 0 to |rowBases|
      invariant |out| == rowLen * k
      invariant forall e :: 0 <= e < |out| ==> e < |pixels| && out[e] == widen(values[pixels[e]])
    {
      ghost var row := |out|;
      ScaledNext(rowLen, k);
      for x := 0 to rowLen
        invariant |out| == row + x
        invariant forall e :: 0 <= e < |out| ==> e < |pixels| && out[e] == widen(values[pixels[e]])
      {
        assert RowHas(pixels, rowBases, rowLen, k, x);
        out := out + [widen(values[rowBases[k] + x])];
      }
    }
  }

  /** Copy `width` of `values` from `source` on, converted, to `out` from `destination` on. */
  method CopyRun<S, D(!new)>(
    out: array<D>, destination: nat, width: nat, source: nat, values: seq<S>, convert: S -> D)
    requires destination + width <= out.Length && source + width <= |values|
    modifies out
    ensures RunWritten(out[..], old(out[..]), destination, width, source, values, convert)
  {
    for j := 0 to width
      invariant forall i :: destination <= i < destination + j ==> out[i] == convert(values[source + (i - destination)])
      invariant forall i :: 0 <= i < out.Length && !(destination <= i < destination + j) ==> out[i] == old(out[i])
    {
      out[destination + j] := convert(values[source + j]);
    }
  }

  lemma {:induction false} RunLies(higher: seq<nat>, lo: seq<nat>, selected: seq<nat>, base: nat)
    requires Above(higher, lo, selected) && Positive(selected) && base == Flat(RowCell(higher, lo, 0), selected)
    ensures base + selected[0] <= Product(selected)
  {
    var x := selected[0] - 1;
    RowCellFlat(higher, lo, selected, x);
    RowCellLies(higher, lo, selected, x);
    FlatInside(RowCell(higher, lo, x), selected);
  }

  /** The higher axes below `axis` lie in their ranges, `u` past their starts. */
  ghost predicate HigherTo(u: seq<nat>, higher: seq<nat>, ranges: seq<Range>, axis: nat) {
    && |u| == axis && 1 <= axis <= |ranges| == |higher| + 1 && u[0] == 0
    && forall i :: 1 <= i < axis ==> ranges[i].Contains(higher[i - 1]) && u[i] == higher[i - 1] - ranges[i].start
  }

  lemma LeavesRanges(higher: seq<nat>, ranges: seq<Range>, axis: nat)
    requires 1 <= axis < |ranges| == |higher| + 1 && !ranges[axis].Contains(higher[axis - 1])
    ensures !InRanges(higher, ranges[1..])
  {
    assert ranges[1..][axis - 1] == ranges[axis];
  }

  lemma HigherGoesOn(u: seq<nat>, higher: seq<nat>, ranges: seq<Range>, axis: nat, x: nat)
    requires HigherTo(u, higher, ranges, axis) && axis < |ranges|
    requires ranges[axis].Contains(higher[axis - 1]) && x == higher[axis - 1] - ranges[axis].start
    ensures HigherTo(u + [x], higher, ranges, axis + 1)
  {
  }

  lemma HigherIsRowCell(
    u: seq<nat>, higher: seq<nat>, ranges: seq<Range>, selected: seq<nat>, shape: seq<nat>)
    requires IsSection(ranges, selected, shape) && |ranges| > 0 && selected[0] > 0
    requires HigherTo(u, higher, ranges, |ranges|)
    ensures InRanges(higher, ranges[1..])
    ensures Above(higher, Starts(ranges), selected) && u == RowCell(higher, Starts(ranges), 0)
  {
    forall i | 0 <= i < |higher| ensures ranges[1..][i].Contains(higher[i]) {
      assert ranges[i + 1].Contains(higher[i]) && ranges[1..][i] == ranges[i + 1];
    }
    HigherOfSection(higher, ranges, selected, shape);
  }

  /** Below `axis`, the digits of `row` are divided out, leaving `rest`, and the section's
      plane is at `base` for the coordinates `u`. */
  ghost predicate RowDecoded(
    axis: nat, row: nat, rest: nat, tdims: seq<nat>, selected: seq<nat>, u: seq<nat>, base: nat, stride: nat)
  {
    && 1 <= axis <= |tdims| == |selected| && Positive(tdims) && |u| == axis
    && Unflat(row, tdims[1..])[axis - 1..] == Unflat(rest, tdims[1..][axis - 1..])
    && base == Flat(u, selected[..axis]) && stride == Product(selected[..axis])
  }

  lemma RowBegins(row: nat, tdims: seq<nat>, selected: seq<nat>)
    requires |tdims| == |selected| > 0 && Positive(tdims)
    ensures RowDecoded(1, row, row, tdims, selected, [0], 0, selected[0])
  {
    assert tdims[1..][0..] == tdims[1..] && selected[..1] == [selected[0]];
    assert Flat([0], [selected[0]]) == 0 + selected[0] * Flat([], []);
    assert Product([selected[0]]) == selected[0] * Product([]);
  }

  lemma {:induction false} RowGoesOn(
    axis: nat, row: nat, rest: nat, tdims: seq<nat>, selected: seq<nat>, u: seq<nat>, base: nat, stride: nat, x: nat)
    requires RowDecoded(axis, row, rest, tdims, selected, u, base, stride) && axis < |tdims|
    ensures RowDecoded(axis + 1, row, Quotient(rest, tdims[axis]), tdims, selected, u + [x],
                       base + Times(stride, x), Times(stride, selected[axis]))
  {
    TimesIs(stride, x);
    TimesIs(stride, selected[axis]);
    DigitStep(Unflat(row, tdims[1..]), tdims[1..], axis - 1, rest);
    FlatSnoc(u, selected, axis, x);
  }

  lemma RowsAreTheTiles(g: Geometry, t: nat, rowBases: seq<nat>)
    requires g.Filled() && |rowBases| == RowCount(g, t)
    requires forall k :: 0 <= k < |rowBases| ==> rowBases[k] == BoxRowAt(Origin(g, t), Extent(g, t), g.dims, k)
    ensures rowBases == RowBases(g, t)
  {
  }
}

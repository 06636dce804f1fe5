/** The part of a tile that a section of the image selects, as cells of the section's plane. */
module TileSections {
  import opened Bytes
  import opened ImageRegion
  import opened MixedRadix

  /** The image's coordinate of the section's cell `s`. */
  ghost function CellAt(lo: seq<nat>, selected: seq<nat>, s: nat): (c: seq<nat>)
    requires |lo| == |selected| && Positive(selected)
    ensures |c| == |lo|
  {
    Add(lo, Unflat(s, selected))
  }

  /** The first `done` of a tile's values, each at its cell of the section, and no other
      change: the tile is the box of `tdims` at `origin`. */
  ghost predicate SectionTo<S, D(!new)>(
    out: seq<D>, was: seq<D>, origin: seq<nat>, tdims: seq<nat>, lo: seq<nat>, selected: seq<nat>,
    done: nat, values: seq<S>, convert: S -> D)
  {
    && |out| == |was| == Product(selected) && |lo| == |selected| && done <= |values|
    && (Positive(selected) ==> forall s :: 0 <= s < |out| ==>
          out[s] == SectionCell(CellAt(lo, selected, s), origin, tdims, done, values, convert, was[s]))
  }

  ghost function SectionCell<S, D>(
    c: seq<nat>, origin: seq<nat>, tdims: seq<nat>, done: nat, values: seq<S>, convert: S -> D, was: D): D
    requires done <= |values|
  {
    if InBox(c, origin, tdims) && BoxLocal(c, origin, tdims) < done
    then convert(values[BoxLocal(c, origin, tdims)])
    else was
  }

  ghost predicate SectionScattered<S, D(!new)>(
    out: seq<D>, was: seq<D>, origin: seq<nat>, tdims: seq<nat>, lo: seq<nat>, selected: seq<nat>,
    values: seq<S>, convert: S -> D)
  {
    SectionTo(out, was, origin, tdims, lo, selected, |values|, values, convert)
  }

  // ---- One row ----

  /** Whether the higher axes' coordinates lie in their ranges. */
  predicate InRanges(c: seq<nat>, ranges: seq<Range>)
    requires |c| == |ranges|
  {
    forall i :: 0 <= i < |c| ==> ranges[i].Contains(c[i])
  }

  /** One axis more along a section's plane. */
  lemma {:induction false} FlatSnoc(u: seq<nat>, selected: seq<nat>, axis: nat, x: nat)
    requires |u| == axis < |selected|
    ensures Flat(u + [x], selected[..axis + 1]) == Flat(u, selected[..axis]) + Product(selected[..axis]) * x
    ensures Product(selected[..axis + 1]) == Product(selected[..axis]) * selected[axis]
  {
    var dims := selected[..axis + 1];
    FlatPrefix(u + [x], dims, axis);
    ProductPrefix(selected, axis);
    assert (u + [x])[..axis] == u && dims[..axis] == selected[..axis];
    assert (u + [x])[..axis + 1] == u + [x] && dims[..axis + 1] == dims;
  }

  lemma {:induction false} FlatHead(c: seq<nat>, dims: seq<nat>)
    requires |c| == |dims| > 0
    ensures Flat(c, dims) == c[0] + dims[0] * Flat(c[1..], dims[1..])
  {
  }

  /** Whether `c` is in the tile's row that starts at its cell `done`. */
  predicate InRow(c: seq<nat>, origin: seq<nat>, tdims: seq<nat>, done: nat) {
    && |c| > 0 && InBox(c, origin, tdims)
    && done <= BoxLocal(c, origin, tdims) < done + tdims[0]
  }

  /** A tile's cell is `c[0]` along axis 0 of the row its higher axes count. */
  lemma {:induction false} LocalOfRow(c: seq<nat>, origin: seq<nat>, tdims: seq<nat>, row: nat, done: nat)
    requires InRow(c, origin, tdims, done) && done == tdims[0] * row
    ensures BoxLocal(c, origin, tdims) == done + (c[0] - origin[0])
    ensures Positive(tdims[1..]) && c[1..] == Add(origin[1..], Unflat(row, tdims[1..]))
  {
    var d := Subtract(c, origin);
    var high := Flat(d[1..], tdims[1..]);
    var local := BoxLocal(c, origin, tdims);
    FlatHead(d, tdims);
    DivModUnique(local, tdims[0], high, d[0]);
    DivModUnique(local, tdims[0], row, local - done);
    UnflatFlat(d[1..], tdims[1..]);
  }

  /** The converse: a coordinate of the row's higher axes, inside the tile along axis 0. */
  lemma {:induction false} RowOfLocal(c: seq<nat>, origin: seq<nat>, tdims: seq<nat>, row: nat, done: nat)
    requires |c| == |origin| == |tdims| > 0 && Positive(tdims) && row < Product(tdims[1..]) && done == tdims[0] * row
    requires c[1..] == Add(origin[1..], Unflat(row, tdims[1..])) && origin[0] <= c[0] < origin[0] + tdims[0]
    ensures InRow(c, origin, tdims, done) && BoxLocal(c, origin, tdims) == done + (c[0] - origin[0])
  {
    var higher := Unflat(row, tdims[1..]);
    forall i | 1 <= i < |c| ensures origin[i] <= c[i] < origin[i] + tdims[i] {
      assert c[i] == c[1..][i - 1] == origin[1..][i - 1] + higher[i - 1];
    }
    var d := Subtract(c, origin);
    assert d[1..] == higher;
    FlatHead(d, tdims);
    FlatUnflat(row, tdims[1..]);
  }

  /** The higher axes' coordinates of a section's cell lie in their ranges. */
  lemma CellInRanges(s: nat, ranges: seq<Range>, selected: seq<nat>, shape: seq<nat>)
    requires IsSection(ranges, selected, shape) && Positive(selected) && |ranges| > 0
    ensures InRanges(CellAt(Starts(ranges), selected, s)[1..], ranges[1..])
  {
  }

  /** The section's coordinate at `x` past its start along axis 0 and `higher` along the
      others, counted from the section's start. */
  ghost function RowCell(higher: seq<nat>, lo: seq<nat>, x: nat): (u: seq<nat>)
    requires |lo| == |higher| + 1 && forall i :: 0 <= i < |higher| ==> lo[i + 1] <= higher[i]
    ensures |u| == |lo|
  {
    [x] + Subtract(higher, lo[1..])
  }

  ghost predicate Above(higher: seq<nat>, lo: seq<nat>, selected: seq<nat>) {
    && |lo| == |selected| == |higher| + 1
    && forall i :: 0 <= i < |higher| ==> lo[i + 1] <= higher[i] < lo[i + 1] + selected[i + 1]
  }

  lemma {:induction false} RowCellFlat(higher: seq<nat>, lo: seq<nat>, selected: seq<nat>, x: nat)
    requires Above(higher, lo, selected)
    ensures Flat(RowCell(higher, lo, x), selected) == Flat(RowCell(higher, lo, 0), selected) + x
  {
    assert RowCell(higher, lo, x)[1..] == RowCell(higher, lo, 0)[1..];
    FlatHead(RowCell(higher, lo, x), selected);
    FlatHead(RowCell(higher, lo, 0), selected);
  }

  lemma RowCellLies(higher: seq<nat>, lo: seq<nat>, selected: seq<nat>, x: nat)
    requires Above(higher, lo, selected) && x < selected[0]
    ensures Inside(RowCell(higher, lo, x), selected)
    ensures Add(lo, RowCell(higher, lo, x)) == [lo[0] + x] + higher
  {
    var u := RowCell(higher, lo, x);
    forall i | 1 <= i < |u| ensures u[i] == higher[i - 1] - lo[i] {
      assert u[i] == Subtract(higher, lo[1..])[i - 1];
    }
  }

  lemma {:induction false} CellOfFlat(u: seq<nat>, lo: seq<nat>, selected: seq<nat>)
    requires Inside(u, selected) && |lo| == |selected|
    ensures Positive(selected) && CellAt(lo, selected, Flat(u, selected)) == Add(lo, u)
  {
    UnflatFlat(u, selected);
  }

  /** The cell `s` in the run from `base` on is at `s - base` past the section's start along
      axis 0, and at `higher` along the others. */
  lemma {:induction false} CellOfRun(s: nat, lo: seq<nat>, selected: seq<nat>, higher: seq<nat>, base: nat)
    requires Above(higher, lo, selected) && Positive(selected)
    requires base == Flat(RowCell(higher, lo, 0), selected) && base <= s < base + selected[0]
    ensures CellAt(lo, selected, s) == [lo[0] + (s - base)] + higher
  {
    var x := s - base;
    var u := RowCell(higher, lo, x);
    RowCellFlat(higher, lo, selected, x);
    assert Flat(u, selected) == s;
    RowCellLies(higher, lo, selected, x);
    calc {
      CellAt(lo, selected, s);
      { CellOfFlat(u, lo, selected); }
      Add(lo, u);
    }
  }

  lemma RowCellIs(u: seq<nat>, lo: seq<nat>, higher: seq<nat>)
    requires |u| == |lo| == |higher| + 1 && Add(lo, u)[1..] == higher
    ensures forall i :: 0 <= i < |higher| ==> lo[i + 1] <= higher[i]
    ensures u == RowCell(higher, lo, u[0])
  {
    forall i | 0 <= i < |higher| ensures higher[i] == lo[i + 1] + u[i + 1] {
      assert Add(lo, u)[1..][i] == Add(lo, u)[i + 1];
    }
  }

  /** The converse: a cell at `higher` along the higher axes is in the run from `base` on. */
  lemma {:induction false} RunOfCell(s: nat, lo: seq<nat>, selected: seq<nat>, higher: seq<nat>, base: nat)
    requires Above(higher, lo, selected) && Positive(selected) && s < Product(selected)
    requires base == Flat(RowCell(higher, lo, 0), selected) && CellAt(lo, selected, s)[1..] == higher
    ensures base <= s < base + selected[0] && CellAt(lo, selected, s)[0] == lo[0] + (s - base)
  {
    var u := Unflat(s, selected);
    FlatUnflat(s, selected);
    RowCellIs(u, lo, higher);
    RowCellFlat(higher, lo, selected, u[0]);
  }

  /** The section's cells of one row of a tile lie in one run of its plane, in order: those
      that axis 0's coordinate leaves in the tile. */
  lemma {:induction false} RowRun(
    s: nat, origin: seq<nat>, tdims: seq<nat>, lo: seq<nat>, selected: seq<nat>, row: nat, done: nat,
    higher: seq<nat>, base: nat)
    requires |origin| == |tdims| == |lo| == |selected| > 0 && Positive(selected) && s < Product(selected)
    requires Positive(tdims) && row < Product(tdims[1..]) && done == tdims[0] * row
    requires higher == Add(origin[1..], Unflat(row, tdims[1..]))
    requires Above(higher, lo, selected) && base == Flat(RowCell(higher, lo, 0), selected)
    ensures var c := CellAt(lo, selected, s);
            && (InRow(c, origin, tdims, done)
                <==> base <= s < base + selected[0] && origin[0] <= lo[0] + (s - base) < origin[0] + tdims[0])
            && (InRow(c, origin, tdims, done)
                ==> BoxLocal(c, origin, tdims) == done + (lo[0] + (s - base) - origin[0]))
  {
    var c := CellAt(lo, selected, s);
    if InRow(c, origin, tdims, done) {
      LocalOfRow(c, origin, tdims, row, done);
      RunOfCell(s, lo, selected, higher, base);
    }
    if base <= s < base + selected[0] && origin[0] <= lo[0] + (s - base) < origin[0] + tdims[0] {
      CellOfRun(s, lo, selected, higher, base);
      RowOfLocal(c, origin, tdims, row, done);
    }
  }

  /** `out` is `before` with the section's run of one row of the tile written over it. */
  ghost predicate RunWritten<S, D(!new)>(
    out: seq<D>, before: seq<D>, destination: nat, width: nat, source: nat, values: seq<S>, convert: S -> D)
  {
    && |out| == |before| && destination + width <= |out| && source + width <= |values|
    && (forall i :: destination <= i < destination + width ==> out[i] == convert(values[source + (i - destination)]))
    && (forall i :: 0 <= i < |out| && !(destination <= i < destination + width) ==> out[i] == before[i])
  }

  /** One row more takes in the cells of that row. */
  lemma CellStep<S, D>(
    c: seq<nat>, origin: seq<nat>, tdims: seq<nat>, done: nat, values: seq<S>, convert: S -> D, was: D)
    requires |c| > 0 && |tdims| > 0 && done + tdims[0] <= |values|
    ensures SectionCell(c, origin, tdims, done + tdims[0], values, convert, was)
            == if InRow(c, origin, tdims, done) then convert(values[BoxLocal(c, origin, tdims)])
               else SectionCell(c, origin, tdims, done, values, convert, was)
  {
  }

  /** Writing the run of a row that the section reaches takes in that row's cells. */
  lemma {:induction false} RowTakenIn<S, D(!new)>(
    out: seq<D>, before: seq<D>, was: seq<D>, origin: seq<nat>, tdims: seq<nat>, lo: seq<nat>, selected: seq<nat>,
    row: nat, done: nat, higher: seq<nat>, base: nat, from: nat, to: nat, values: seq<S>, convert: S -> D)
    requires |origin| == |tdims| == |lo| == |selected| > 0 && Positive(selected)
    requires Positive(tdims) && row < Product(tdims[1..]) && done == tdims[0] * row && done + tdims[0] <= |values|
    requires higher == Add(origin[1..], Unflat(row, tdims[1..]))
    requires Above(higher, lo, selected) && base == Flat(RowCell(higher, lo, 0), selected)
    requires from == Max(origin[0], lo[0]) < to == Min(origin[0] + tdims[0], lo[0] + selected[0])
    requires SectionTo(before, was, origin, tdims, lo, selected, done, values, convert)
    requires RunWritten(out, before, base + (from - lo[0]), to - from, done + (from - origin[0]), values, convert)
    ensures SectionTo(out, was, origin, tdims, lo, selected, done + tdims[0], values, convert)
  {
    forall s | 0 <= s < |out|
      ensures out[s] == SectionCell(
        CellAt(lo, selected, s), origin, tdims, done + tdims[0], values, convert, was[s])
    {
      CellStep(CellAt(lo, selected, s), origin, tdims, done, values, convert, was[s]);
      RowRun(s, origin, tdims, lo, selected, row, done, higher, base);
    }
  }

  /** A row whose higher coordinates leave the ranges has no cell to take in. */
  lemma {:induction false} RowPassedOver<S, D(!new)>(
    out: seq<D>, was: seq<D>, origin: seq<nat>, tdims: seq<nat>, ranges: seq<Range>, selected: seq<nat>,
    shape: seq<nat>, row: nat, done: nat, higher: seq<nat>, values: seq<S>, convert: S -> D)
    requires IsSection(ranges, selected, shape) && |origin| == |tdims| == |ranges| > 0
    requires Positive(tdims) && done == tdims[0] * row && done + tdims[0] <= |values|
    requires higher == Add(origin[1..], Unflat(row, tdims[1..])) && !InRanges(higher, ranges[1..])
    requires SectionTo(out, was, origin, tdims, Starts(ranges), selected, done, values, convert)
    ensures SectionTo(out, was, origin, tdims, Starts(ranges), selected, done + tdims[0], values, convert)
  {
    if Positive(selected) {
      var lo := Starts(ranges);
      forall s | 0 <= s < |out|
        ensures out[s] == SectionCell(
          CellAt(lo, selected, s), origin, tdims, done + tdims[0], values, convert, was[s])
      {
        CellStep(CellAt(lo, selected, s), origin, tdims, done, values, convert, was[s]);
        if InRow(CellAt(lo, selected, s), origin, tdims, done) {
          LocalOfRow(CellAt(lo, selected, s), origin, tdims, row, done);
          CellInRanges(s, ranges, selected, shape);
        }
      }
    }
  }

  /** A tile that axis 0's range leaves out has no cell to take in. */
  lemma {:induction false} TilePassedOver<S, D(!new)>(
    out: seq<D>, origin: seq<nat>, tdims: seq<nat>, lo: seq<nat>, selected: seq<nat>,
    values: seq<S>, convert: S -> D)
    requires |origin| == |tdims| == |lo| == |selected| > 0 && |out| == Product(selected)
    requires Max(origin[0], lo[0]) >= Min(origin[0] + tdims[0], lo[0] + selected[0])
    ensures SectionScattered(out, out, origin, tdims, lo, selected, values, convert)
  {
    if Positive(selected) {
      forall s | 0 <= s < |out| ensures !InBox(CellAt(lo, selected, s), origin, tdims) {
        var c := CellAt(lo, selected, s);
        assert lo[0] <= c[0] < lo[0] + selected[0];
      }
    }
  }

  /** With an axis left empty, the section has no cell and nothing is to be written. */
  lemma HigherOfSection(higher: seq<nat>, ranges: seq<Range>, selected: seq<nat>, shape: seq<nat>)
    requires IsSection(ranges, selected, shape) && |higher| + 1 == |ranges| && InRanges(higher, ranges[1..])
    requires selected[0] > 0
    ensures Positive(selected) && Above(higher, Starts(ranges), selected)
  {
    forall i | 0 <= i < |higher| ensures ranges[i + 1].Contains(higher[i]) {
      assert ranges[1..][i].Contains(higher[i]);
    }
    forall i | 1 <= i < |selected| ensures selected[i] > 0 {
      assert ranges[i].Contains(higher[i - 1]);
    }
  }

  // ---- The whole section ----

  /** A section plane's history under one tile's scatter after another, each tile's values
      its own pixels of `plane`, widened; `boxes` are the tiles' origins and extents. */
  ghost predicate IsSectionRebuild<S(!new), W(!new)>(
    outs: seq<seq<S>>, origins: seq<seq<nat>>, extents: seq<seq<nat>>, plane: seq<S>, values: seq<seq<W>>,
    widen: S -> W, narrow: W -> S, lo: seq<nat>, selected: seq<nat>, shape: seq<nat>)
  {
    && |origins| == |extents| == |values| && |outs| == |origins| + 1
    && |lo| == |selected| == |shape| && |plane| == Product(shape)
    && (forall x :: narrow(widen(x)) == x)
    && (forall k :: 0 <= k < |origins| ==>
          FitsIn(origins[k], extents[k], shape) && Positive(extents[k])
          && IsBoxOf(values[k], plane, origins[k], extents[k], shape, widen))
    && forall k :: 0 <= k < |origins| ==>
         SectionScattered(outs[k + 1], outs[k], origins[k], extents[k], lo, selected, values[k], narrow)
  }

  /** `values` are the box's cells of `plane`, widened. */
  ghost predicate IsBoxOf<S, W(!new)>(
    values: seq<W>, plane: seq<S>, origin: seq<nat>, extent: seq<nat>, shape: seq<nat>, widen: S -> W)
    requires FitsIn(origin, extent, shape) && Positive(extent)
  {
    && |values| == Product(extent)
    && forall e :: 0 <= e < |values| ==>
         BoxAt(origin, extent, shape, e) < |plane| && values[e] == widen(plane[BoxAt(origin, extent, shape, e)])
  }

  /** Whether one of the first `n` tiles reaches the coordinate. */
  ghost predicate Reached(origins: seq<seq<nat>>, extents: seq<seq<nat>>, n: nat, c: seq<nat>)
    requires n <= |origins| == |extents|
  {
    exists k :: 0 <= k < n && InBox(c, origins[k], extents[k])
  }

  /** A section's cell holds the full plane's value at its coordinate once a tile reaches it,
      and what the buffer held until then. */
  lemma {:induction false} SectionRebuiltAt<S(!new), W(!new)>(
    outs: seq<seq<S>>, origins: seq<seq<nat>>, extents: seq<seq<nat>>, plane: seq<S>, values: seq<seq<W>>,
    widen: S -> W, narrow: W -> S, lo: seq<nat>, selected: seq<nat>, shape: seq<nat>, n: nat, s: nat)
    requires IsSectionRebuild(outs, origins, extents, plane, values, widen, narrow, lo, selected, shape)
    requires FitsIn(lo, selected, shape) && Positive(selected) && Positive(shape)
    requires n <= |origins| && |outs[0]| == Product(selected) && s < Product(selected)
    ensures |outs[n]| == Product(selected)
    ensures BoxAt(lo, selected, shape, s) < |plane|
    ensures outs[n][s] == if Reached(origins, extents, n, CellAt(lo, selected, s))
                          then plane[BoxAt(lo, selected, shape, s)] else outs[0][s]
  {
    BoxCell(lo, selected, shape, s);
    if n > 0 {
      SectionRebuiltAt(outs, origins, extents, plane, values, widen, narrow, lo, selected, shape, n - 1, s);
      var c := CellAt(lo, selected, s);
      var origin, extent := origins[n - 1], extents[n - 1];
      assert SectionScattered(outs[n], outs[n - 1], origin, extent, lo, selected, values[n - 1], narrow);
      if InBox(c, origin, extent) {
        BoxInverse(c, origin, extent, shape);
        var e := BoxLocal(c, origin, extent);
        assert values[n - 1][e] == widen(plane[BoxAt(origin, extent, shape, e)]);
        assert narrow(widen(plane[BoxAt(origin, extent, shape, e)])) == plane[BoxAt(origin, extent, shape, e)];
        assert Reached(origins, extents, n, c);
      } else {
        assert Reached(origins, extents, n, c) <==> Reached(origins, extents, n - 1, c);
      }
    }
  }
}

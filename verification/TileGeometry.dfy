/** The tiling of an N-dimensional image (section 10.1 of the FITS Standard 4.0): tile rows
    found by an odometer, gathered out of the image plane and scattered back into it. */
module TileGeometry {
  import opened Bytes
  import opened MixedRadix
  import opened TileCopies

  /** How many of `t` it takes to reach `d`. */
  function CeilDiv(d: nat, t: nat): nat
    requires t > 0
  {
    Quotient(d + t - 1, t)
  }

  lemma CeilDivBelow(d: nat, t: nat, k: nat)
    requires t > 0
    ensures k < CeilDiv(d, t) <==> t * k < d
  {
    DivMod(d + t - 1, t);
    var q := CeilDiv(d, t);
    if k < q {
      ScaledBelow(t, k, q);
    } else if q < k {
      ScaledBelow(t, q, k);
    }
  }

  /** An image's axes and their tiling; `Valid` says what the last three fields must be. */
  datatype Geometry = Geometry(
    dims: seq<nat>, tiles: seq<nat>, stride: seq<nat>, tilesAxis: seq<nat>, maxTile: seq<nat>)
  {
    ghost predicate Valid() {
      && |dims| == |tiles| == |stride| == |tilesAxis| == |maxTile|
      && Positive(tiles)
      && (forall i :: 0 <= i < |dims| ==> tilesAxis[i] == CeilDiv(dims[i], tiles[i]))
      && (forall i :: 0 <= i < |dims| ==> maxTile[i] == Min(dims[i], tiles[i]))
      && (forall i :: 0 <= i < |dims| ==> stride[i] == if Positive(dims) then Product(dims[..i]) else 0)
    }

    /** A geometry with no axis of length 0, which is one whose tiles hold pixels. */
    ghost predicate Filled() {
      Valid() && Positive(dims)
    }

    /** The pixels of the image: none for one of no axes. */
    function Samples(): nat {
      if dims == [] then 0 else Product(dims)
    }

    /** How many index combinations there are, none without an axis. */
    function TileCount(): nat {
      if tilesAxis == [] || 0 in tilesAxis then 0 else Product(tilesAxis)
    }
  }

  method NewGeometry(dims: seq<nat>, tiles: seq<nat>) returns (g: Geometry)
    requires |dims| == |tiles| && Positive(tiles)
    ensures g.Valid() && g.dims == dims && g.tiles == tiles
  {
    var n := |dims|;
    var tilesAxis, maxTile := [], [];
    for i := 0 to n
      invariant |tilesAxis| == |maxTile| == i
      invariant forall k :: 0 <= k < i ==> tilesAxis[k] == CeilDiv(dims[k], tiles[k]) && maxTile[k] == Min(dims[k], tiles[k])
    {
      var count, _ := Divide(dims[i] + tiles[i] - 1, tiles[i]);
      tilesAxis := tilesAxis + [count];
      maxTile := maxTile + [Min(dims[i], tiles[i])];
    }
    var stride: seq<nat> := Zeros(n);
    if 0 !in dims && n != 0 {
      stride := stride[0 := 1];
      for i := 1 to n
        invariant |stride| == n
        invariant forall k :: 0 <= k < i ==> stride[k] == Product(dims[..k])
      {
        ProductPrefix(dims, i - 1);
        stride := stride[i := stride[i - 1] * dims[i - 1]];
      }
    }
    assert Positive(dims) <==> 0 !in dims;
    g := Geometry(dims, tiles, stride, tilesAxis, maxTile);
  }

  // ---- Tiles ----

  lemma TilesAxisPositive(g: Geometry)
    requires g.Filled()
    ensures Positive(g.tilesAxis)
    ensures g.dims != [] ==> g.TileCount() == Product(g.tilesAxis)
  {
    forall i | 0 <= i < |g.dims| ensures g.tilesAxis[i] > 0 {
      CeilDivBelow(g.dims[i], g.tiles[i], 0);
    }
  }

  /** Counted or multiplied out, an image with pixels has them, and has its tiles, at every
      combination of an index an axis; one of no axes or with an empty axis has neither. */
  lemma CountsAre(g: Geometry)
    requires g.Valid()
    ensures g.Samples() > 0 <==> g.Filled() && g.dims != []
    ensures g.TileCount() > 0 <==> g.Samples() > 0
    ensures g.Samples() > 0 ==> g.Samples() == Product(g.dims) && g.TileCount() == Product(g.tilesAxis)
  {
    ProductPositive(g.dims);
    ProductPositive(g.tilesAxis);
    if g.Filled() {
      TilesAxisPositive(g);
    } else {
      var i :| 0 <= i < |g.dims| && g.dims[i] == 0;
      CeilDivBelow(g.dims[i], g.tiles[i], 0);
      assert g.tilesAxis[i] in g.tilesAxis;
    }
  }

  /** Tile `t`'s index along each axis. */
  ghost function IndexOf(g: Geometry, t: nat): (index: seq<nat>)
    requires g.Filled()
    ensures Inside(index, g.tilesAxis)
  {
    TilesAxisPositive(g);
    Unflat(t, g.tilesAxis)
  }

  /** Where tile `t` starts. */
  ghost function Origin(g: Geometry, t: nat): (o: seq<nat>)
    requires g.Filled()
    ensures |o| == |g.dims| && forall i :: 0 <= i < |o| ==> o[i] < g.dims[i]
  {
    var index := IndexOf(g, t);
    var o := seq(|g.dims|, i requires 0 <= i < |g.dims| => AxisStart(g, i, index[i]));
    assert forall i :: 0 <= i < |o| ==> o[i] < g.dims[i] by {
      forall i | 0 <= i < |o| ensures o[i] < g.dims[i] {
        AxisLies(g, i, index[i]);
      }
    }
    o
  }

  /** Tile `t`'s extent, clipped at the image's edge. */
  ghost function Extent(g: Geometry, t: nat): (e: seq<nat>)
    requires g.Filled()
    ensures Positive(e) && FitsIn(Origin(g, t), e, g.dims)
  {
    var o := Origin(g, t);
    seq(|g.dims|, i requires 0 <= i < |g.dims| => Min(g.tiles[i], g.dims[i] - o[i]))
  }

  /** Where the tile of index `ti` starts along axis `i`. */
  function AxisStart(g: Geometry, i: nat, ti: nat): nat
    requires i < |g.tiles|
  {
    ti * g.tiles[i]
  }

  /** How far it goes along the axis. */
  function AxisExtent(g: Geometry, i: nat, ti: nat): nat
    requires i < |g.tiles| && i < |g.dims| && AxisStart(g, i, ti) < g.dims[i]
  {
    Min(g.tiles[i], g.dims[i] - AxisStart(g, i, ti))
  }

  /** What the tile of index `ti` spans of axis `i`. */
  predicate AxisSpans(g: Geometry, i: nat, ti: nat, start: nat, extent: nat)
    requires i < |g.tiles| && i < |g.dims|
  {
    && AxisStart(g, i, ti) < g.dims[i]
    && start == AxisStart(g, i, ti) && extent == AxisExtent(g, i, ti)
  }

  lemma AxisLies(g: Geometry, i: nat, ti: nat)
    requires g.Filled() && i < |g.dims| && ti < g.tilesAxis[i]
    ensures AxisStart(g, i, ti) < g.dims[i] && AxisExtent(g, i, ti) > 0
    ensures AxisStart(g, i, ti) + AxisExtent(g, i, ti) <= g.dims[i]
  {
    CeilDivBelow(g.dims[i], g.tiles[i], ti);
  }

  /** What spans tile `t`'s index along each axis is the tile. */
  lemma SpansAreTheTile(g: Geometry, t: nat, origin: seq<nat>, extent: seq<nat>)
    requires g.Filled() && |origin| == |extent| == |g.dims|
    requires forall k :: 0 <= k < |g.dims| ==> AxisSpans(g, k, IndexOf(g, t)[k], origin[k], extent[k])
    ensures origin == Origin(g, t) && extent == Extent(g, t)
  {
    forall k | 0 <= k < |g.dims| ensures origin[k] == Origin(g, t)[k] && extent[k] == Extent(g, t)[k] {
      assert AxisSpans(g, k, IndexOf(g, t)[k], origin[k], extent[k]);
    }
  }

  /** Whether the coordinate `c` lies in tile `t`. */
  ghost predicate InTile(g: Geometry, t: nat, c: seq<nat>)
    requires g.Filled()
  {
    InBox(c, Origin(g, t), Extent(g, t))
  }

  /** The tile of the coordinate `c`. */
  ghost function TileOf(g: Geometry, c: seq<nat>): (t: nat)
    requires g.Filled() && Inside(c, g.dims)
    ensures t < Product(g.tilesAxis)
  {
    var index := TileIndex(g, c);
    FlatInside(index, g.tilesAxis);
    Flat(index, g.tilesAxis)
  }

  ghost function TileIndex(g: Geometry, c: seq<nat>): (index: seq<nat>)
    requires g.Filled() && Inside(c, g.dims)
    ensures Inside(index, g.tilesAxis)
  {
    var index := seq(|c|, i requires 0 <= i < |c| => Quotient(c[i], g.tiles[i]));
    assert forall i :: 0 <= i < |c| ==> index[i] < g.tilesAxis[i] by {
      forall i | 0 <= i < |c| ensures index[i] < g.tilesAxis[i] {
        DivMod(c[i], g.tiles[i]);
        CeilDivBelow(g.dims[i], g.tiles[i], index[i]);
      }
    }
    index
  }

  /** Along one axis, a coordinate lies in the tile it divides into. */
  lemma {:induction false} AxisHolds(g: Geometry, i: nat, ti: nat, c: nat)
    requires g.Filled() && i < |g.dims| && ti < g.tilesAxis[i] && c < g.dims[i]
    requires AxisStart(g, i, ti) < g.dims[i]
    ensures AxisStart(g, i, ti) <= c < AxisStart(g, i, ti) + AxisExtent(g, i, ti)
            <==> ti == Quotient(c, g.tiles[i])
  {
    DivMod(c, g.tiles[i]);
    if AxisStart(g, i, ti) <= c < AxisStart(g, i, ti) + AxisExtent(g, i, ti) {
      DivModUnique(c, g.tiles[i], ti, c - AxisStart(g, i, ti));
    }
  }

  lemma IndexHolds(g: Geometry, t: nat, c: seq<nat>)
    requires g.Filled() && Inside(c, g.dims)
    ensures InTile(g, t, c) <==> IndexOf(g, t) == TileIndex(g, c)
  {
    var index := IndexOf(g, t);
    forall i | 0 <= i < |c|
      ensures Origin(g, t)[i] <= c[i] < Origin(g, t)[i] + Extent(g, t)[i] <==> index[i] == TileIndex(g, c)[i]
    {
      AxisLies(g, i, index[i]);
      AxisHolds(g, i, index[i], c[i]);
    }
  }

  /** A coordinate of the image lies in one tile and no other. */
  lemma TileOfHolds(g: Geometry, c: seq<nat>, t: nat)
    requires g.Filled() && Inside(c, g.dims) && t < Product(g.tilesAxis)
    ensures InTile(g, t, c) <==> t == TileOf(g, c)
  {
    TilesAxisPositive(g);
    IndexHolds(g, t, c);
    UnflatFlat(TileIndex(g, c), g.tilesAxis);
    FlatUnflat(t, g.tilesAxis);
  }

  // ---- Pixels ----

  /** The flat indices in the image of tile `t`'s pixels, in tile order. */
  ghost function Pixels(g: Geometry, t: nat): (pixels: seq<nat>)
    requires g.Filled()
    ensures |pixels| == Product(Extent(g, t)) > 0
  {
    ProductPositive(Extent(g, t));
    BoxPixels(Origin(g, t), Extent(g, t), g.dims)
  }

  lemma PixelsIncrease(g: Geometry, t: nat)
    requires g.Filled()
    ensures Increasing(Pixels(g, t)) && LiesIn(Pixels(g, t), 0, Product(g.dims))
  {
    BoxPixelsIncrease(Origin(g, t), Extent(g, t), g.dims);
  }

  /** Each flat index of the image is a pixel of one tile and of no other. */
  lemma {:induction false} PixelOfOneTile(g: Geometry, f: nat, t: nat)
    requires g.Filled() && f < Product(g.dims) && t < Product(g.tilesAxis)
    ensures f in Pixels(g, t) <==> t == TileOf(g, Unflat(f, g.dims))
  {
    InBoxPixels(Origin(g, t), Extent(g, t), g.dims, f);
    TileOfHolds(g, Unflat(f, g.dims), t);
  }

  // ---- Rows ----

  /** The pixels of a row of tile `t`, which lie side by side. */
  ghost function RowLen(g: Geometry, t: nat): (n: nat)
    requires g.Filled()
    ensures n > 0
  {
    BoxRowLen(Extent(g, t))
  }

  ghost function RowCount(g: Geometry, t: nat): nat
    requires g.Filled()
  {
    BoxRows(Extent(g, t))
  }

  /** Where row `k` of tile `t` starts in the image. */
  ghost function RowBase(g: Geometry, t: nat, k: nat): nat
    requires g.Filled()
  {
    BoxRowAt(Origin(g, t), Extent(g, t), g.dims, k)
  }

  ghost function RowBases(g: Geometry, t: nat): seq<nat>
    requires g.Filled()
  {
    seq(RowCount(g, t), k requires 0 <= k => RowBase(g, t, k))
  }

  /** Pixel `x` of row `k` is the tile's pixel at `k` rows and `x` more. */
  lemma RowPixel(g: Geometry, t: nat, k: nat, x: nat)
    requires g.Filled() && k < RowCount(g, t) && x < RowLen(g, t)
    ensures RowLen(g, t) * k + x < |Pixels(g, t)|
    ensures Pixels(g, t)[RowLen(g, t) * k + x] == RowBase(g, t, k) + x
  {
    BoxRowCell(Origin(g, t), Extent(g, t), g.dims, k, x);
  }

  /** Whether `f` is in the span of row `k` of tile `t`. */
  ghost predicate InSpan(g: Geometry, t: nat, k: nat, f: nat)
    requires g.Filled()
  {
    && t < Product(g.tilesAxis) && k < RowCount(g, t)
    && RowBase(g, t, k) <= f < RowBase(g, t, k) + RowLen(g, t)
  }

  lemma {:induction false} SpanHolds(g: Geometry, t: nat, k: nat, f: nat)
    requires g.Filled() && InSpan(g, t, k, f)
    ensures f < Product(g.dims) && TileOf(g, Unflat(f, g.dims)) == t
  {
    var x := BoxSpan(Origin(g, t), Extent(g, t), g.dims, k, f);
    TileOfHolds(g, Unflat(f, g.dims), t);
  }

  lemma SpanOf(g: Geometry, f: nat) returns (t: nat, k: nat)
    requires g.Filled() && f < Product(g.dims)
    ensures InSpan(g, t, k, f)
  {
    t := TileOf(g, Unflat(f, g.dims));
    PixelOfOneTile(g, f, t);
    k := BoxSpanOf(Origin(g, t), Extent(g, t), g.dims, f);
  }

  lemma SpanUnique(g: Geometry, f: nat, t: nat, k: nat, t': nat, k': nat)
    requires g.Filled() && InSpan(g, t, k, f) && InSpan(g, t', k', f)
    ensures t == t' && k == k'
  {
    SpanHolds(g, t, k, f);
    SpanHolds(g, t', k', f);
    BoxSpanUnique(Origin(g, t), Extent(g, t), g.dims, f, k, k');
  }

  /** The tiles partition the image: each flat index lies in the span of one row of one
      tile and no other, for any rank and any tile shape, edges clipped. */
  lemma SpansCoverOnce(g: Geometry, f: nat)
    requires g.Valid() && f < g.Samples()
    ensures g.Filled() && exists t: nat, k: nat :: t < g.TileCount() && InSpan(g, t, k, f)
    ensures forall t, k, t', k' :: InSpan(g, t, k, f) && InSpan(g, t', k', f) ==> t == t' && k == k'
  {
    CountsAre(g);
    var t, k := SpanOf(g, f);
    forall t, k, t', k' | InSpan(g, t, k, f) && InSpan(g, t', k', f) ensures t == t' && k == k' {
      SpanUnique(g, f, t, k, t', k');
    }
  }

  // ---- The whole plane ----

  /** Every tile's pixels. */
  ghost function AllPixels(g: Geometry): (tiles: seq<seq<nat>>)
    requires g.Filled()
    ensures |tiles| == Product(g.tilesAxis)
  {
    seq(Product(g.tilesAxis), t requires 0 <= t => Pixels(g, t))
  }

  /** Gathering every tile and scattering it back rebuilds the whole plane, for any rank
      and tile shape, whatever the buffer held and in whatever order the tiles come. */
  lemma AllTilesRebuildThePlane<S(!new), W(!new)>(
    g: Geometry, planes: seq<seq<S>>, order: seq<nat>, plane: seq<S>,
    values: seq<seq<W>>, widen: S -> W, narrow: W -> S)
    requires g.Filled() && IsRebuild(planes, AllPixels(g), order, plane, values, widen, narrow)
    requires |planes[0]| == |plane| == g.Samples()
    requires forall t :: 0 <= t < g.TileCount() ==> t in order
    ensures planes[|order|] == plane
  {
    RebuiltLength(planes, AllPixels(g), order, plane, values, widen, narrow, |order|);
    if g.dims == [] {
      return;
    }
    CountsAre(g);
    var tiles := AllPixels(g);
    forall f | 0 <= f < |plane| ensures InSome(tiles, f) {
      var t := TileOf(g, Unflat(f, g.dims));
      PixelOfOneTile(g, f, t);
      assert f in tiles[t];
    }
    CoveringTilesRebuildThePlane(planes, tiles, order, plane, values, widen, narrow);
  }
}

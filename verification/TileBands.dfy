/** The plane cut along its slowest axis into parts that no two tiles of different parts touch
    together, so that parts decode independently. */
module TileBands {
  import opened Bytes
  import opened MixedRadix
  import opened TileCopies
  import opened TileGeometry
  import opened TileRows

  /** Equal parts of the plane, save a short last one: part `b` is `len` samples from `b * len`
      on, and its own tiles are those whose number over `tiles` is `b`. */
  datatype Bands = Bands(count: nat, len: nat, tiles: nat)

  function BandsOf(g: Geometry): Bands
    requires |g.dims| == |g.tiles| == |g.stride| == |g.tilesAxis|
  {
    if g.dims == [] then Bands(1, 1, 1)
    else
      var last := |g.dims| - 1;
      Bands(g.tilesAxis[last], Min(g.tiles[last], g.dims[last]) * g.stride[last], Product(g.tilesAxis[..last]))
  }

  /** The thickness of a band along the slowest axis. */
  function Thickness(tile: nat, dim: nat): nat {
    Min(tile, dim)
  }

  /** The bands, each of the clipped tile's thickness, reach the axis's end and no more. */
  lemma BandsReach(dim: nat, tile: nat)
    requires dim > 0 && tile > 0
    ensures CeilDiv(dim, tile) > 0
    ensures (CeilDiv(dim, tile) - 1) * Thickness(tile, dim) < dim <= CeilDiv(dim, tile) * Thickness(tile, dim)
  {
    CeilDivBelow(dim, tile, 0);
    CeilDivBelow(dim, tile, 1);
    CeilDivBelow(dim, tile, CeilDiv(dim, tile));
    CeilDivBelow(dim, tile, CeilDiv(dim, tile) - 1);
  }

  /** Index `ti` of the axis, at `c`, is in the band `ti`. */
  lemma BandOfAxis(dim: nat, tile: nat, ti: nat, c: nat)
    requires tile > 0 && ti * tile <= c < ti * tile + tile && c < dim
    ensures ti * Thickness(tile, dim) <= c < (ti + 1) * Thickness(tile, dim)
  {
    if tile > dim && ti > 0 {
      assert ti * tile >= tile by {
        ScaledBelow(tile, 0, ti);
      }
    }
    ScaledNext(tile, ti);
  }

  /** Times the stride, with a lower part below it, a band of the axis is a run. */
  lemma RunOfBand(stride: nat, low: nat, ti: nat, thickness: nat, c: nat)
    requires low < stride && ti * thickness <= c < (ti + 1) * thickness
    ensures ti * (thickness * stride) <= low + stride * c < (ti + 1) * (thickness * stride)
  {
    MulLe(stride, ti * thickness, c);
    MulLe(stride, c + 1, (ti + 1) * thickness);
    assert ti * (thickness * stride) == stride * (ti * thickness);
    assert (ti + 1) * (thickness * stride) == stride * ((ti + 1) * thickness);
    ScaledNext(stride, c);
  }

  lemma MulLe(d: nat, a: nat, b: nat)
    requires a <= b
    ensures d * a <= d * b
  {
    if a < b {
      ScaledBelow(d, a, b);
    }
  }

  /** A flat index is its coordinate along the slowest axis times that axis's stride, and a
      lower part. */
  lemma SlowestAxis(c: seq<nat>, dims: seq<nat>) returns (low: nat)
    requires Inside(c, dims) && dims != []
    ensures var last := |dims| - 1;
            low < Product(dims[..last]) && Flat(c, dims) == low + Product(dims[..last]) * c[last]
  {
    var last := |dims| - 1;
    FlatPrefix(c, dims, last);
    assert c[..last + 1] == c && dims[..last + 1] == dims;
    low := Flat(c[..last], dims[..last]);
    FlatInside(c[..last], dims[..last]);
  }

  /** A tile's index along the slowest axis is its band. */
  lemma {:induction false} BandOfTile(g: Geometry, t: nat)
    requires g.Filled() && g.dims != [] && t < Product(g.tilesAxis)
    ensures BandsOf(g).tiles > 0 && Quotient(t, BandsOf(g).tiles) == IndexOf(g, t)[|g.dims| - 1] < BandsOf(g).count
  {
    TilesAxisPositive(g);
    var last := |g.dims| - 1;
    ProductPositive(g.tilesAxis[..last]);
    FlatUnflat(t, g.tilesAxis);
    var low := SlowestAxis(IndexOf(g, t), g.tilesAxis);
    DivModUnique(t, Product(g.tilesAxis[..last]), IndexOf(g, t)[last], low);
  }

  /** A box's pixel is a coordinate of the box along the slowest axis times that axis's
      stride, and a lower part. */
  lemma BoxLastAxis(start: seq<nat>, extent: seq<nat>, shape: seq<nat>, f: nat) returns (low: nat, c: nat)
    requires FitsIn(start, extent, shape) && Positive(extent) && Positive(shape) && shape != []
    requires f in BoxPixels(start, extent, shape)
    ensures var last := |shape| - 1;
            && low < Product(shape[..last]) && f == low + Product(shape[..last]) * c
            && start[last] <= c < start[last] + extent[last]
  {
    BoxPixelsIncrease(start, extent, shape);
    InBoxPixels(start, extent, shape, f);
    FlatUnflat(f, shape);
    low := SlowestAxis(Unflat(f, shape), shape);
    c := Unflat(f, shape)[|shape| - 1];
  }

  /** A pixel's tile's index along the slowest axis bounds its coordinate there. */
  lemma PixelsLastAxis(g: Geometry, t: nat, f: nat) returns (low: nat, c: nat)
    requires g.Filled() && g.dims != [] && f in Pixels(g, t)
    ensures var last := |g.dims| - 1; var ti := IndexOf(g, t)[last];
            && low < g.stride[last] && f == low + g.stride[last] * c && c < g.dims[last]
            && ti * g.tiles[last] <= c < ti * g.tiles[last] + g.tiles[last]
  {
    low, c := BoxLastAxis(Origin(g, t), Extent(g, t), g.dims, f);
  }

  /** Every pixel of tile `t` lies in the run of band `t / tiles`. */
  lemma {:induction false} BandHolds(g: Geometry, t: nat, f: nat)
    requires g.Filled() && g.dims != [] && t < Product(g.tilesAxis) && f in Pixels(g, t)
    ensures BandsOf(g).tiles > 0
    ensures var band := Quotient(t, BandsOf(g).tiles);
            band * BandsOf(g).len <= f < (band + 1) * BandsOf(g).len
  {
    var last := |g.dims| - 1;
    BandOfTile(g, t);
    var low, c := PixelsLastAxis(g, t, f);
    var ti := IndexOf(g, t)[last];
    BandOfAxis(g.dims[last], g.tiles[last], ti, c);
    RunOfBand(g.stride[last], low, ti, Thickness(g.tiles[last], g.dims[last]), c);
  }

  /** The bands cover the plane: `count` of them reach its end, and one fewer does not. */
  lemma BandsCover(g: Geometry)
    requires g.Filled() && g.dims != []
    ensures var bands := BandsOf(g);
            bands.count > 0 && (bands.count - 1) * bands.len < Product(g.dims) <= bands.count * bands.len
  {
    var last := |g.dims| - 1;
    var dim, tile, stride := g.dims[last], g.tiles[last], g.stride[last];
    BandsReach(dim, tile);
    ProductPrefix(g.dims, last);
    assert g.dims[..last + 1] == g.dims && stride == Product(g.dims[..last]);
    ProductPositive(g.dims[..last]);
    CoverScaled(stride, CeilDiv(dim, tile), Thickness(tile, dim), dim);
  }

  lemma CoverScaled(stride: nat, count: nat, thickness: nat, dim: nat)
    requires stride > 0 && count > 0 && (count - 1) * thickness < dim <= count * thickness
    ensures (count - 1) * (thickness * stride) < stride * dim <= count * (thickness * stride)
  {
    ScaledBelow(stride, (count - 1) * thickness, dim);
    MulLe(stride, dim, count * thickness);
    assert (count - 1) * (thickness * stride) == stride * ((count - 1) * thickness);
    assert count * (thickness * stride) == stride * (count * thickness);
  }

  /** The band whose run holds a flat index is the one the run's length divides it into, so
      the runs are disjoint. */
  lemma {:induction false} BandOfPixel(len: nat, f: nat, band: nat)
    requires band * len <= f < (band + 1) * len
    ensures len > 0 && band == Quotient(f, len)
  {
    ScaledNext(len, band);
    DivModUnique(f, len, band, f - len * band);
  }

  /** The tiles of band `band` are those it divides into. */
  lemma {:induction false} TilesOfBand(g: Geometry, band: nat, t: nat)
    requires g.Filled() && g.dims != [] && band < BandsOf(g).count
    ensures var tiles := BandsOf(g).tiles;
            && tiles > 0
            && (band * tiles <= t < (band + 1) * tiles ==>
                  t < Product(g.tilesAxis) && Quotient(t, tiles) == band)
            && (Quotient(t, tiles) == band ==> band * tiles <= t < (band + 1) * tiles)
  {
    TilesAxisPositive(g);
    var last := |g.dims| - 1;
    ProductPositive(g.tilesAxis[..last]);
    ProductPrefix(g.tilesAxis, last);
    assert g.tilesAxis[..last + 1] == g.tilesAxis;
    RangeOfQuotient(BandsOf(g).tiles, BandsOf(g).count, band, t);
  }

  lemma {:induction false} RangeOfQuotient(d: nat, count: nat, q: nat, n: nat)
    requires d > 0 && q < count
    ensures q * d <= n < (q + 1) * d ==> n < d * count && Quotient(n, d) == q
    ensures Quotient(n, d) == q ==> q * d <= n < (q + 1) * d
  {
    DivMod(n, d);
    ScaledNext(d, q);
    if q * d <= n < (q + 1) * d {
      DivModUnique(n, d, q, n - d * q);
      MulLe(d, q + 1, count);
    }
  }

  /** A tile's pixels lie in its band's part of the plane: a scatter into the part never
      reaches outside it. */
  lemma {:induction false} PixelsLieInPart(g: Geometry, band: nat, t: nat)
    requires g.Filled() && g.dims != [] && t < Product(g.tilesAxis)
    requires BandsOf(g).tiles > 0 && Quotient(t, BandsOf(g).tiles) == band
    ensures var start := band * BandsOf(g).len;
            start <= Product(g.dims) &&
            LiesIn(Pixels(g, t), start, Min(BandsOf(g).len, Product(g.dims) - start))
  {
    PixelsIncrease(g, t);
    var len := BandsOf(g).len;
    forall f | f in Pixels(g, t) ensures band * len <= f < (band + 1) * len {
      BandHolds(g, t, f);
    }
    ScaledNext(len, band);
    InRun(Pixels(g, t), band * len, len, Product(g.dims));
  }

  lemma InRun(pixels: seq<nat>, start: nat, len: nat, total: nat)
    requires LiesIn(pixels, 0, total) && |pixels| > 0
    requires forall f :: f in pixels ==> start <= f < start + len
    ensures start <= total && LiesIn(pixels, start, Min(len, total - start))
  {
    assert forall e :: 0 <= e < |pixels| ==> pixels[e] in pixels;
    assert pixels[0] in pixels;
  }

  /** A band's tiles write every pixel of its run. */
  lemma {:induction false} RunIsTiled(g: Geometry, band: nat, f: nat)
    requires g.Filled() && g.dims != [] && f < Product(g.dims) && band < BandsOf(g).count
    requires band * BandsOf(g).len <= f < (band + 1) * BandsOf(g).len
    ensures var t := TileOf(g, Unflat(f, g.dims));
            f in Pixels(g, t) && band * BandsOf(g).tiles <= t < (band + 1) * BandsOf(g).tiles
  {
    var t := TileOf(g, Unflat(f, g.dims));
    PixelOfOneTile(g, f, t);
    BandHolds(g, t, f);
    BandOfPixel(BandsOf(g).len, f, band);
    BandOfPixel(BandsOf(g).len, f, Quotient(t, BandsOf(g).tiles));
    TilesOfBand(g, band, t);
  }

  /** Decode tile `tile` into `part`, the plane's part from `start` on. */
  method DecodeTile<S(!new), W>(
    scratch: TileScratch, g: Geometry, tile: nat, part: array<S>, start: nat, values: seq<W>, narrow: W -> S,
    ghost pixels: seq<nat>)
    requires g.Filled() && tile < Product(g.tilesAxis) && pixels == Pixels(g, tile)
    requires LiesIn(pixels, start, part.Length) && |values| == |pixels|
    modifies scratch, part
    ensures Scattered(part[..], old(part[..]), start, pixels, values, narrow)
  {
    scratch.TileInto(g, tile);
    scratch.DescribedCovers(g, tile);
    scratch.RowsAreThePixels(g, tile);
    scratch.ScatterRowsInto(part, start, values, narrow, pixels);
  }

  /** The tiles of a band: each lies in the band's part, and together they fill it. */
  ghost predicate TilesFill(tiles: seq<seq<nat>>, first: nat, end: nat, start: nat, len: nat) {
    && first <= end <= |tiles|
    && (forall t :: first <= t < end ==> LiesIn(tiles[t], start, len))
    && forall f :: start <= f < start + len ==> InSomeOf(tiles, first, end, f)
  }

  lemma TilesOfBandLie(g: Geometry, band: nat, t: nat)
    requires g.Filled() && g.dims != [] && band < BandsOf(g).count
    requires band * BandsOf(g).tiles <= t < (band + 1) * BandsOf(g).tiles
    ensures var start := band * BandsOf(g).len;
            t < |AllPixels(g)| && start <= Product(g.dims) &&
            LiesIn(AllPixels(g)[t], start, Min(BandsOf(g).len, Product(g.dims) - start))
  {
    TilesOfBand(g, band, t);
    PixelsLieInPart(g, band, t);
  }

  lemma TilesOfBandExist(g: Geometry, band: nat)
    requires g.Filled() && g.dims != [] && band < BandsOf(g).count
    ensures band * BandsOf(g).tiles < (band + 1) * BandsOf(g).tiles <= |AllPixels(g)|
  {
    TilesOfBand(g, band, 0);
    ScaledNext(BandsOf(g).tiles, band);
    TilesOfBand(g, band, (band + 1) * BandsOf(g).tiles - 1);
  }

  lemma RunIsInSome(g: Geometry, band: nat, f: nat)
    requires g.Filled() && g.dims != [] && f < Product(g.dims) && band < BandsOf(g).count
    requires band * BandsOf(g).len <= f < (band + 1) * BandsOf(g).len
    requires (band + 1) * BandsOf(g).tiles <= |AllPixels(g)|
    ensures InSomeOf(AllPixels(g), band * BandsOf(g).tiles, (band + 1) * BandsOf(g).tiles, f)
  {
    RunIsTiled(g, band, f);
    assert f in AllPixels(g)[TileOf(g, Unflat(f, g.dims))];
  }

  lemma BandsTilesFill(g: Geometry, bands: Bands, tiles: seq<seq<nat>>, total: nat, band: nat, start: nat)
    requires g.Filled() && g.dims != [] && bands == BandsOf(g) && band < bands.count && tiles == AllPixels(g)
    requires start == band * bands.len <= total == Product(g.dims)
    ensures TilesFill(tiles, band * bands.tiles, (band + 1) * bands.tiles, start, Min(bands.len, total - start))
  {
    var first, end := band * bands.tiles, (band + 1) * bands.tiles;
    TilesOfBandExist(g, band);
    forall t | first <= t < end ensures LiesIn(tiles[t], start, Min(bands.len, total - start)) {
      TilesOfBandLie(g, band, t);
    }
    ScaledNext(bands.len, band);
    forall f | start <= f < start + Min(bands.len, total - start) ensures InSomeOf(tiles, first, end, f) {
      RunIsInSome(g, band, f);
    }
  }

  /** Decode the tiles from `first` to below `end` into `part`, the plane's part from
      `start` on, which they fill: whatever it held, it ends as the plane's own. */
  method DecodeTiles<S(!new), W(!new)>(
    g: Geometry, first: nat, end: nat, part: array<S>, start: nat, ghost plane: seq<S>,
    decoded: seq<seq<W>>, ghost widen: S -> W, narrow: W -> S, ghost tiles: seq<seq<nat>>)
    requires g.Filled() && tiles == AllPixels(g) && |decoded| == |tiles|
    requires TilesFill(tiles, first, end, start, part.Length) && start + part.Length <= |plane|
    requires forall t :: 0 <= t < |tiles| ==> Gathered(decoded[t], plane, tiles[t], widen)
    requires forall x :: narrow(widen(x)) == x
    modifies part
    ensures part[..] == plane[start..start + part.Length]
  {
    var scratch := new TileScratch();
    for tile := first to end
      invariant FilledTo(part[..], plane, start, tiles, first, tile)
    {
      ghost var was := part[..];
      DecodeTile(scratch, g, tile, part, start, decoded[tile], narrow, tiles[tile]);
      FillTile(part[..], was, plane, start, tiles, first, tile, decoded[tile], widen, narrow);
    }
    forall i | 0 <= i < part.Length ensures part[i] == plane[start + i] {
      assert InSomeOf(tiles, first, end, start + i);
    }
  }

  /** Decode the tiles of band `band` into `part`, its run of the plane. */
  method DecodeBand<S(!new), W(!new)>(
    g: Geometry, bands: Bands, band: nat, part: array<S>, start: nat, ghost plane: seq<S>, decoded: seq<seq<W>>,
    ghost widen: S -> W, narrow: W -> S, ghost tiles: seq<seq<nat>>)
    requires g.Filled() && g.dims != [] && |plane| == Product(g.dims) && tiles == AllPixels(g)
    requires bands == BandsOf(g) && band < bands.count && start == band * bands.len <= |plane|
    requires part.Length == Min(bands.len, |plane| - start)
    requires |decoded| == |tiles| && forall x :: narrow(widen(x)) == x
    requires forall t :: 0 <= t < |tiles| ==> Gathered(decoded[t], plane, tiles[t], widen)
    modifies part
    ensures part[..] == plane[start..start + part.Length]
  {
    BandsTilesFill(g, bands, tiles, |plane|, band, start);
    DecodeTiles(g, band * bands.tiles, (band + 1) * bands.tiles, part, start, plane, decoded, widen, narrow, tiles);
  }
}

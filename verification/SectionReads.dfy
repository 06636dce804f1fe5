/** A tiled read of a section refines the whole read. */
module SectionReads {
  import opened Bytes
  import opened MixedRadix
  import opened TileCopies
  import opened TileGeometry
  import opened TileSections

  /** Whether `order` has every tile that meets the section. */
  ghost predicate MeetsAll(g: Geometry, order: seq<nat>, lo: seq<nat>, selected: seq<nat>)
    requires g.Filled() && FitsIn(lo, selected, g.dims) && Positive(selected)
  {
    forall s :: 0 <= s < Product(selected) ==> SectionTile(g, lo, selected, s) in order
  }

  /** The one tile that holds the section's cell `s`. */
  ghost function SectionTile(g: Geometry, lo: seq<nat>, selected: seq<nat>, s: nat): (t: nat)
    requires g.Filled() && FitsIn(lo, selected, g.dims) && Positive(selected)
    ensures t < Product(g.tilesAxis)
  {
    TileOf(g, CellAt(lo, selected, s))
  }

  /** The tiles of `order`, as boxes. */
  ghost predicate AreTiles(g: Geometry, order: seq<nat>, origins: seq<seq<nat>>, extents: seq<seq<nat>>)
    requires g.Filled()
  {
    && |origins| == |extents| == |order|
    && forall k :: 0 <= k < |order| ==>
         order[k] < Product(g.tilesAxis)
         && origins[k] == Origin(g, order[k]) && extents[k] == Extent(g, order[k])
  }

  lemma CellIsReached(
    g: Geometry, order: seq<nat>, origins: seq<seq<nat>>, extents: seq<seq<nat>>,
    lo: seq<nat>, selected: seq<nat>, s: nat)
    requires g.Filled() && AreTiles(g, order, origins, extents)
    requires FitsIn(lo, selected, g.dims) && Positive(selected)
    requires SectionTile(g, lo, selected, s) in order
    ensures Reached(origins, extents, |order|, CellAt(lo, selected, s))
  {
    var c := CellAt(lo, selected, s);
    var t := SectionTile(g, lo, selected, s);
    TileOfHolds(g, c, t);
    var k :| 0 <= k < |order| && order[k] == t;
    assert InBox(c, origins[k], extents[k]);
  }

  /** Scattering the section's part of each tile that meets it, in any order, fills the
      section's plane: each cell has the value the full plane holds at its N-dimensional
      coordinate, whatever the buffer held. */
  lemma {:induction false} SectionReadRefinesWholeRead<S(!new), W(!new)>(
    g: Geometry, outs: seq<seq<S>>, order: seq<nat>, origins: seq<seq<nat>>, extents: seq<seq<nat>>,
    plane: seq<S>, values: seq<seq<W>>, widen: S -> W, narrow: W -> S, lo: seq<nat>, selected: seq<nat>)
    requires g.Filled() && AreTiles(g, order, origins, extents)
    requires IsSectionRebuild(outs, origins, extents, plane, values, widen, narrow, lo, selected, g.dims)
    requires FitsIn(lo, selected, g.dims) && Positive(selected) && MeetsAll(g, order, lo, selected)
    requires |outs[0]| == Product(selected)
    ensures |outs[|order|]| == Product(selected)
    ensures forall s :: 0 <= s < Product(selected) ==>
      Flat(CellAt(lo, selected, s), g.dims) < |plane|
      && outs[|order|][s] == plane[Flat(CellAt(lo, selected, s), g.dims)]
  {
    ProductPositive(selected);
    SectionRebuiltAt(outs, origins, extents, plane, values, widen, narrow, lo, selected, g.dims, |order|, 0);
    forall s | 0 <= s < Product(selected)
      ensures Flat(CellAt(lo, selected, s), g.dims) < |plane|
      ensures outs[|order|][s] == plane[Flat(CellAt(lo, selected, s), g.dims)]
    {
      CellIsReached(g, order, origins, extents, lo, selected, s);
      SectionRebuiltAt(outs, origins, extents, plane, values, widen, narrow, lo, selected, g.dims, |order|, s);
    }
  }

  /** A section plane's history under one tile's scatter after another, the `k`th of tile
      `order[k]`, whose values are its pixels of `plane`, gathered and widened. */
  ghost predicate IsTiledRead<S(!new), W(!new)>(
    g: Geometry, outs: seq<seq<S>>, order: seq<nat>, plane: seq<S>, values: seq<seq<W>>,
    widen: S -> W, narrow: W -> S, lo: seq<nat>, selected: seq<nat>)
    requires g.Filled()
  {
    && |values| == |order| && |outs| == |order| + 1 && |plane| == Product(g.dims)
    && (forall x :: narrow(widen(x)) == x)
    && forall k :: 0 <= k < |order| ==>
         order[k] < Product(g.tilesAxis) && Gathered(values[k], plane, Pixels(g, order[k]), widen)
         && SectionScattered(outs[k + 1], outs[k], Origin(g, order[k]), Extent(g, order[k]), lo, selected,
                             values[k], narrow)
  }

  /** Reading a section tile by tile, each one's pixels gathered and the section's part of
      them scattered, in any order that has every tile the section meets: each cell ends as
      the full plane's value at its coordinate. */
  lemma {:induction false} TiledReadRefinesWholeRead<S(!new), W(!new)>(
    g: Geometry, outs: seq<seq<S>>, order: seq<nat>, plane: seq<S>, values: seq<seq<W>>,
    widen: S -> W, narrow: W -> S, lo: seq<nat>, selected: seq<nat>)
    requires g.Filled() && IsTiledRead(g, outs, order, plane, values, widen, narrow, lo, selected)
    requires FitsIn(lo, selected, g.dims) && Positive(selected) && MeetsAll(g, order, lo, selected)
    requires |outs[0]| == Product(selected)
    ensures |outs[|order|]| == Product(selected)
    ensures forall s :: 0 <= s < Product(selected) ==>
      Flat(CellAt(lo, selected, s), g.dims) < |plane|
      && outs[|order|][s] == plane[Flat(CellAt(lo, selected, s), g.dims)]
  {
    var origins := seq(|order|, k requires 0 <= k < |order| => Origin(g, order[k]));
    var extents := seq(|order|, k requires 0 <= k < |order| => Extent(g, order[k]));
    forall k | 0 <= k < |order|
      ensures FitsIn(origins[k], extents[k], g.dims) && Positive(extents[k])
      ensures IsBoxOf(values[k], plane, origins[k], extents[k], g.dims, widen)
      ensures SectionScattered(outs[k + 1], outs[k], origins[k], extents[k], lo, selected, values[k], narrow)
    {
      GatheredIsBox(g, order[k], values[k], plane, widen);
    }
    SectionReadRefinesWholeRead(g, outs, order, origins, extents, plane, values, widen, narrow, lo, selected);
  }

  /** A tile's gathered pixels are its box's cells. */
  lemma GatheredIsBox<S, W(!new)>(g: Geometry, t: nat, values: seq<W>, plane: seq<S>, widen: S -> W)
    requires g.Filled() && Gathered(values, plane, Pixels(g, t), widen)
    ensures IsBoxOf(values, plane, Origin(g, t), Extent(g, t), g.dims, widen)
  {
    var pixels := Pixels(g, t);
    forall e | 0 <= e < |values|
      ensures pixels[e] == BoxAt(Origin(g, t), Extent(g, t), g.dims, e) < |plane| && values[e] == widen(plane[pixels[e]])
    {
    }
  }
}

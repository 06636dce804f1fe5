/** Copies between a plane and its tiles, each tile a list of flat indices. */
module TileCopies {
  import opened Bytes

  ghost predicate Increasing(pixels: seq<nat>) {
    forall i, j :: 0 <= i < j < |pixels| ==> pixels[i] < pixels[j]
  }

  /** `pixels` lie in the part of `len` samples from `start` on. */
  ghost predicate LiesIn(pixels: seq<nat>, start: nat, len: nat) {
    forall e :: 0 <= e < |pixels| ==> start <= pixels[e] < start + len
  }

  /** `values` are the pixels of `plane`, each widened. */
  ghost predicate Gathered<S, D(!new)>(values: seq<D>, plane: seq<S>, pixels: seq<nat>, widen: S -> D) {
    && |values| == |pixels| && LiesIn(pixels, 0, |plane|)
    && forall e :: 0 <= e < |pixels| ==> values[e] == widen(plane[pixels[e]])
  }

  /** `part` is `was` with each of the first `done` values at its pixel and no other change;
      both are the plane's part from `start` on. */
  ghost predicate ScatteredTo<S, D(!new)>(
    part: seq<D>, was: seq<D>, start: nat, pixels: seq<nat>, done: nat, values: seq<S>, convert: S -> D)
  {
    && |part| == |was| && done <= |pixels| <= |values| && LiesIn(pixels, start, |part|)
    && (forall e :: 0 <= e < done ==> part[pixels[e] - start] == convert(values[e]))
    && (forall i :: 0 <= i < |part| && start + i !in pixels[..done] ==> part[i] == was[i])
  }

  ghost predicate Scattered<S, D(!new)>(
    part: seq<D>, was: seq<D>, start: nat, pixels: seq<nat>, values: seq<S>, convert: S -> D)
  {
    ScatteredTo(part, was, start, pixels, |pixels|, values, convert)
  }

  lemma ScatterOne<S, D(!new)>(
    part: seq<D>, was: seq<D>, start: nat, pixels: seq<nat>, done: nat, values: seq<S>, convert: S -> D)
    requires ScatteredTo(part, was, start, pixels, done, values, convert)
    requires Increasing(pixels) && done < |pixels|
    ensures ScatteredTo(part[pixels[done] - start := convert(values[done])], was, start, pixels, done + 1, values, convert)
  {
    var result := part[pixels[done] - start := convert(values[done])];
    assert pixels[..done + 1] == pixels[..done] + [pixels[done]];
    forall i | 0 <= i < |part| && start + i !in pixels[..done + 1] ensures result[i] == was[i] {
      assert start + i != pixels[..done + 1][done];
    }
  }

  /** A plane's history under one scatter after another: the `k`th writes tile `order[k]`'s
      own pixels of `plane`, which a codec widened and narrowed back. */
  ghost predicate IsRebuild<S(!new), W(!new)>(
    planes: seq<seq<S>>, tiles: seq<seq<nat>>, order: seq<nat>, plane: seq<S>,
    values: seq<seq<W>>, widen: S -> W, narrow: W -> S)
  {
    && |planes| == |order| + 1 && |values| == |order|
    && (forall k :: 0 <= k < |order| ==> order[k] < |tiles|)
    && (forall x :: narrow(widen(x)) == x)
    && forall k :: 0 <= k < |order| ==>
         Gathered(values[k], plane, tiles[order[k]], widen)
         && Scattered(planes[k + 1], planes[k], 0, tiles[order[k]], values[k], narrow)
  }

  /** Whether one of the first `n` tiles of `order` holds `f`. */
  ghost predicate Written(tiles: seq<seq<nat>>, order: seq<nat>, n: nat, f: nat)
    requires n <= |order| && forall k :: 0 <= k < |order| ==> order[k] < |tiles|
  {
    exists k :: 0 <= k < n && f in tiles[order[k]]
  }

  /** A pixel is the plane's own once a tile that holds it is written, and untouched until
      then. */
  lemma {:induction false} RebuiltAt<S(!new), W(!new)>(
    planes: seq<seq<S>>, tiles: seq<seq<nat>>, order: seq<nat>, plane: seq<S>,
    values: seq<seq<W>>, widen: S -> W, narrow: W -> S, n: nat, f: nat)
    requires IsRebuild(planes, tiles, order, plane, values, widen, narrow) && n <= |order|
    requires |planes[0]| == |plane| && f < |plane|
    ensures |planes[n]| == |plane|
    ensures planes[n][f] == if Written(tiles, order, n, f) then plane[f] else planes[0][f]
  {
    if n > 0 {
      RebuiltAt(planes, tiles, order, plane, values, widen, narrow, n - 1, f);
      var pixels := tiles[order[n - 1]];
      assert Scattered(planes[n], planes[n - 1], 0, pixels, values[n - 1], narrow);
      assert pixels[..|pixels|] == pixels;
      if f in pixels {
        var e :| 0 <= e < |pixels| && pixels[e] == f;
        assert planes[n][pixels[e] - 0] == narrow(values[n - 1][e]);
        assert Written(tiles, order, n, f);
      } else {
        assert planes[n][f] == planes[n - 1][f];
        assert Written(tiles, order, n, f) <==> Written(tiles, order, n - 1, f);
      }
    }
  }

  /** Once every pixel's tile has been gathered and scattered back, in any order and any
      number of times, the plane is rebuilt whole, whatever the buffer held. */
  lemma WrittenTilesRebuildThePlane<S(!new), W(!new)>(
    planes: seq<seq<S>>, tiles: seq<seq<nat>>, order: seq<nat>, plane: seq<S>,
    values: seq<seq<W>>, widen: S -> W, narrow: W -> S)
    requires IsRebuild(planes, tiles, order, plane, values, widen, narrow)
    requires |planes[0]| == |plane|
    requires forall f :: 0 <= f < |plane| ==> Written(tiles, order, |order|, f)
    ensures planes[|order|] == plane
  {
    RebuiltLength(planes, tiles, order, plane, values, widen, narrow, |order|);
    forall f | 0 <= f < |plane| ensures planes[|order|][f] == plane[f] {
      RebuiltAt(planes, tiles, order, plane, values, widen, narrow, |order|, f);
    }
  }

  ghost predicate InSome(tiles: seq<seq<nat>>, f: nat) {
    exists t :: 0 <= t < |tiles| && f in tiles[t]
  }

  lemma CoveringTilesRebuildThePlane<S(!new), W(!new)>(
    planes: seq<seq<S>>, tiles: seq<seq<nat>>, order: seq<nat>, plane: seq<S>,
    values: seq<seq<W>>, widen: S -> W, narrow: W -> S)
    requires IsRebuild(planes, tiles, order, plane, values, widen, narrow)
    requires |planes[0]| == |plane|
    requires forall t :: 0 <= t < |tiles| ==> t in order
    requires forall f :: 0 <= f < |plane| ==> InSome(tiles, f)
    ensures planes[|order|] == plane
  {
    forall f | 0 <= f < |plane| ensures Written(tiles, order, |order|, f) {
      assert InSome(tiles, f);
      var t :| 0 <= t < |tiles| && f in tiles[t];
      assert t in order;
      var k :| 0 <= k < |order| && order[k] == t;
      assert f in tiles[order[k]];
    }
    WrittenTilesRebuildThePlane(planes, tiles, order, plane, values, widen, narrow);
  }

  lemma {:induction false} RebuiltLength<S(!new), W(!new)>(
    planes: seq<seq<S>>, tiles: seq<seq<nat>>, order: seq<nat>, plane: seq<S>,
    values: seq<seq<W>>, widen: S -> W, narrow: W -> S, n: nat)
    requires IsRebuild(planes, tiles, order, plane, values, widen, narrow) && n <= |order|
    ensures |planes[n]| == |planes[0]|
  {
    if n > 0 {
      RebuiltLength(planes, tiles, order, plane, values, widen, narrow, n - 1);
      assert Scattered(planes[n], planes[n - 1], 0, tiles[order[n - 1]], values[n - 1], narrow);
    }
  }

  // ---- Part of a plane ----

  /** Whether one of the tiles from `first` to below `end` holds `f`. */
  ghost predicate InSomeOf(tiles: seq<seq<nat>>, first: nat, end: nat, f: nat)
    requires end <= |tiles|
  {
    exists t :: first <= t < end && f in tiles[t]
  }

  /** The samples of `part`, from flat index `start` of `plane` on, that the tiles from
      `first` to below `end` hold are the plane's. */
  ghost predicate FilledTo<S>(
    part: seq<S>, plane: seq<S>, start: nat, tiles: seq<seq<nat>>, first: nat, end: nat)
    requires end <= |tiles| && start + |part| <= |plane|
  {
    forall i :: 0 <= i < |part| && InSomeOf(tiles, first, end, start + i) ==> part[i] == plane[start + i]
  }

  lemma FillTile<S(!new), W(!new)>(
    part: seq<S>, was: seq<S>, plane: seq<S>, start: nat, tiles: seq<seq<nat>>, first: nat, tile: nat,
    values: seq<W>, widen: S -> W, narrow: W -> S)
    requires tile < |tiles| && start + |part| <= |plane|
    requires Gathered(values, plane, tiles[tile], widen) && forall x :: narrow(widen(x)) == x
    requires Scattered(part, was, start, tiles[tile], values, narrow)
    requires FilledTo(was, plane, start, tiles, first, tile)
    ensures FilledTo(part, plane, start, tiles, first, tile + 1)
  {
    var pixels := tiles[tile];
    assert pixels[..|pixels|] == pixels;
    forall i | 0 <= i < |part| && InSomeOf(tiles, first, tile + 1, start + i)
      ensures part[i] == plane[start + i]
    {
      if start + i in pixels {
        var e :| 0 <= e < |pixels| && pixels[e] == start + i;
        assert narrow(widen(plane[pixels[e]])) == plane[pixels[e]];
      } else {
        assert InSomeOf(tiles, first, tile, start + i);
      }
    }
  }
}

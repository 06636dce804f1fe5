/** Sections of images: where each axis is cut, and the check that the cuts lie inside. */
module ImageRegion {
  import opened Bytes

  function Starts(ranges: seq<Range>): (s: seq<nat>)
    ensures |s| == |ranges|
  {
    seq(|ranges|, i requires 0 <= i < |ranges| => ranges[i].start)
  }

  /** Every range runs forwards and ends inside its axis, and `selected` has the ranges' lengths. */
  ghost predicate IsSection(ranges: seq<Range>, selected: seq<nat>, shape: seq<nat>) {
    && |ranges| == |selected| == |shape|
    && forall i :: 0 <= i < |ranges| ==>
         ranges[i].start <= ranges[i].end <= shape[i] && selected[i] == ranges[i].end - ranges[i].start
  }

  datatype RegionError =
    | RankMismatch(expected: nat, got: nat)
    | OutOfBounds(axis: nat, start: nat, end: nat, len: nat)

  /** The lengths of the ranges if they make a section; otherwise the ranks that differ, or the
      least axis that is bad with its bounds and length. */
  method ValidateImageRegion(ranges: seq<Range>, shape: seq<nat>) returns (r: Result<seq<nat>, RegionError>)
    ensures r.Ok? ==> IsSection(ranges, r.value, shape)
    ensures r.Err? && r.error.RankMismatch? <==> |ranges| != |shape|
    ensures r.Err? && r.error.OutOfBounds? ==>
              var axis := r.error.axis;
              axis < |ranges| == |shape| && IsBad(ranges[axis], shape[axis])
              && r.error == OutOfBounds(axis, ranges[axis].start, ranges[axis].end, shape[axis])
              && forall i :: 0 <= i < axis ==> !IsBad(ranges[i], shape[i])
  {
    if |ranges| != |shape| {
      return Err(RankMismatch(|shape|, |ranges|));
    }
    var selected := [];
    for i := 0 to |ranges|
      invariant |selected| == i
      invariant forall k :: 0 <= k < i ==>
        !IsBad(ranges[k], shape[k]) && selected[k] == ranges[k].end - ranges[k].start
    {
      if IsBad(ranges[i], shape[i]) {
        return Err(OutOfBounds(i, ranges[i].start, ranges[i].end, shape[i]));
      }
      selected := selected + [ranges[i].end - ranges[i].start];
    }
    r := Ok(selected);
  }

  predicate IsBad(range: Range, len: nat) {
    range.start > range.end || range.end > len
  }
}

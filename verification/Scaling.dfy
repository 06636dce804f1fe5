/** Stored samples mapped to their physical values, a block at a time (sections 3.4 and 5.2.5 of
    the FITS Standard 4.0). */
module Scaling {
  import opened Bytes

  /** The block's length in samples. */
  const BLOCK: nat := 256

  // ---- Sizes: each product and quotient by a sample's size is one by a literal ----

  predicate IsSize(size: nat) {
    size in {1, 2, 4, 8}
  }

  /** The bytes of `n` samples. */
  function BytesOf(n: nat, size: nat): nat
    requires IsSize(size)
  {
    match size
    case 1 => n
    case 2 => 2 * n
    case 4 => 4 * n
    case _ => 8 * n
  }

  /** The samples whole in `len` bytes. */
  function CountOf(len: nat, size: nat): nat
    requires IsSize(size)
  {
    match size
    case 1 => len
    case 2 => len / 2
    case 4 => len / 4
    case _ => len / 8
  }

  predicate IsWhole(len: nat, size: nat)
    requires IsSize(size)
  {
    BytesOf(CountOf(len, size), size) == len
  }

  /** Whole bytes hold a sample, and whole bytes after it. */
  lemma WholeRest(len: nat, size: nat)
    requires IsSize(size) && IsWhole(len, size) && len > 0
    ensures len >= size && IsWhole(len - size, size) && CountOf(len, size) == CountOf(len - size, size) + 1
  {
    if size == 2 {
    } else if size == 4 {
    } else if size == 8 {
    }
  }

  // ---- The map of one sample ----

  /** How a sample type is stored: the bytes of one sample, and what they decode to. */
  datatype Stored<!T> = Stored(size: nat, decode: seq<Byte> -> T)

  /** The affine map of a scaling, the map of an identity one, and the value of a blank sample. */
  datatype Scale<!T(==), !O> = Scale(affine: T -> O, plain: T -> O, undefined: O, blank: Option<T>, isIdentity: bool)
  {
    /** `undefined` for the blank, else the map the scaling has: affine, or plain where it is the
        identity. */
    function Physical(sample: T): O {
      if blank == Some(sample) then undefined else if isIdentity then plain(sample) else affine(sample)
    }

    function Mapped(samples: seq<T>): (values: seq<O>)
      ensures |values| == |samples|
    {
      seq(|samples|, i requires 0 <= i < |samples| => Physical(samples[i]))
    }
  }

  lemma MappedJoin<T, O>(scale: Scale<T, O>, a: seq<T>, b: seq<T>)
    ensures scale.Mapped(a + b) == scale.Mapped(a) + scale.Mapped(b)
  {
  }

  /** The samples of big-endian bytes, in order. */
  function Samples<T>(stored: Stored<T>, bytes: seq<Byte>): (samples: seq<T>)
    requires IsSize(stored.size)
    ensures |samples| == CountOf(|bytes|, stored.size)
  {
    if |bytes| < stored.size then [] else [stored.decode(bytes[..stored.size])] + Samples(stored, bytes[stored.size..])
  }

  /** Whole samples, and more after them. */
  lemma {:induction false} SamplesJoin<T>(stored: Stored<T>, a: seq<Byte>, b: seq<Byte>)
    requires IsSize(stored.size) && IsWhole(|a|, stored.size)
    ensures Samples(stored, a + b) == Samples(stored, a) + Samples(stored, b)
  {
    var size := stored.size;
    if a == [] {
      assert a + b == b;
    } else {
      WholeRest(|a|, size);
      assert (a + b)[..size] == a[..size] && (a + b)[size..] == a[size..] + b;
      SamplesJoin(stored, a[size..], b);
    }
  }

  predicate AreWhole(cells: seq<seq<Byte>>, size: nat)
    requires IsSize(size)
  {
    forall c :: 0 <= c < |cells| ==> IsWhole(|cells[c]|, size)
  }

  /** The samples of cells, in order. */
  function CellSamples<T>(stored: Stored<T>, cells: seq<seq<Byte>>): seq<T>
    requires IsSize(stored.size)
  {
    if cells == [] then [] else CellSamples(stored, cells[..|cells| - 1]) + Samples(stored, cells[|cells| - 1])
  }

  /** Cells cut from a run of samples hold the run's samples. */
  lemma {:induction false} CellsAreTheirRun<T>(stored: Stored<T>, cells: seq<seq<Byte>>)
    requires IsSize(stored.size) && AreWhole(cells, stored.size)
    ensures IsWhole(|Concat(cells)|, stored.size)
    ensures CellSamples(stored, cells) == Samples(stored, Concat(cells))
  {
    if cells != [] {
      CellsAreTheirRun(stored, cells[..|cells| - 1]);
      SamplesJoin(stored, Concat(cells[..|cells| - 1]), cells[|cells| - 1]);
    }
  }

  // ---- A block of samples ----

  /** The samples' one-sample maps follow `out`, whichever loop the blank and the scaling choose. */
  method ExtendPhysical<T(==), O>(scale: Scale<T, O>, samples: seq<T>, out: seq<O>) returns (r: seq<O>)
    ensures r == out + scale.Mapped(samples)
  {
    if scale.blank == None {
      if scale.isIdentity {
        r := out + seq(|samples|, i requires 0 <= i < |samples| => scale.plain(samples[i]));
      } else {
        r := out + seq(|samples|, i requires 0 <= i < |samples| => scale.affine(samples[i]));
      }
    } else {
      var blank := scale.blank.value;
      if scale.isIdentity {
        r := out + seq(|samples|, i requires 0 <= i < |samples| =>
                         if samples[i] == blank then scale.undefined else scale.plain(samples[i]));
      } else {
        r := out + seq(|samples|, i requires 0 <= i < |samples| =>
                         if samples[i] == blank then scale.undefined else scale.affine(samples[i]));
      }
    }
  }

  /** Decode whole samples into the block from `at` on. */
  method DecodeInto<T>(stored: Stored<T>, bytes: seq<Byte>, block: array<T>, at: nat) returns (end: nat)
    requires IsSize(stored.size) && IsWhole(|bytes|, stored.size) && at + CountOf(|bytes|, stored.size) <= block.Length
    modifies block
    ensures end == at + CountOf(|bytes|, stored.size)
    ensures block[..end] == old(block[..at]) + Samples(stored, bytes)
  {
    var rest := bytes;
    end := at;
    while rest != []
      invariant IsWhole(|rest|, stored.size) && end + CountOf(|rest|, stored.size) == at + CountOf(|bytes|, stored.size)
      invariant block[..end] + Samples(stored, rest) == old(block[..at]) + Samples(stored, bytes)
      decreases |rest|
    {
      ghost var was := block[..end];
      WholeRest(|rest|, stored.size);
      block[end] := stored.decode(rest[..stored.size]);
      assert block[..end + 1] == was + [block[end]];
      rest, end := rest[stored.size..], end + 1;
    }
  }

  /** The physical values given so far, and those of the samples in the block, are those of every
      sample met. */
  ghost predicate Holds<T, O>(scale: Scale<T, O>, base: seq<O>, met: seq<T>, out: seq<O>, block: seq<T>) {
    out + scale.Mapped(block) == base + scale.Mapped(met)
  }

  lemma HoldsMore<T, O>(scale: Scale<T, O>, base: seq<O>, met: seq<T>, out: seq<O>, block: seq<T>, more: seq<T>)
    requires Holds(scale, base, met, out, block)
    ensures Holds(scale, base, met + more, out, block + more)
  {
    MappedJoin(scale, block, more);
    MappedJoin(scale, met, more);
    assert out + (scale.Mapped(block) + scale.Mapped(more)) == out + scale.Mapped(block) + scale.Mapped(more);
    assert base + (scale.Mapped(met) + scale.Mapped(more)) == base + scale.Mapped(met) + scale.Mapped(more);
  }

  /** Append samples to the block, and map it once it is full. */
  method Gather<T(==), O>(scale: Scale<T, O>, stored: Stored<T>, bytes: seq<Byte>, block: array<T>, len: nat, out: seq<O>,
                          ghost base: seq<O>, ghost met: seq<T>)
    returns (left: nat, r: seq<O>)
    requires IsSize(stored.size) && IsWhole(|bytes|, stored.size)
    requires block.Length == BLOCK && len + CountOf(|bytes|, stored.size) <= BLOCK
    requires Holds(scale, base, met, out, block[..len])
    modifies block
    ensures left < BLOCK && Holds(scale, base, met + Samples(stored, bytes), r, block[..left])
  {
    HoldsMore(scale, base, met, out, block[..len], Samples(stored, bytes));
    r := out;
    left := DecodeInto(stored, bytes, block, len);
    if left == BLOCK {
      assert block[..] == block[..left];
      r := ExtendPhysical(scale, block[..], out);
      left := 0;
      assert r + scale.Mapped(block[..0]) == r;
    }
  }

  /** The bytes a block with `room` takes of a cell. */
  function Take(room: nat, len: nat, size: nat): (take: nat)
    requires IsSize(size) && IsWhole(len, size)
    ensures take <= len && IsWhole(take, size) && IsWhole(len - take, size) && CountOf(take, size) <= room
    ensures room > 0 && len > 0 ==> take > 0
  {
    TakeFits(room, len, size);
    Min(BytesOf(room, size), len)
  }

  lemma TakeFits(room: nat, len: nat, size: nat)
    requires IsSize(size) && IsWhole(len, size)
    ensures var take := Min(BytesOf(room, size), len);
            && take <= len && IsWhole(take, size) && IsWhole(len - take, size) && CountOf(take, size) <= room
            && (room > 0 && len > 0 ==> take > 0)
  {
    if size == 1 {
    } else if size == 2 {
    } else if size == 4 {
    } else {
      assert size == 8;
    }
  }

  lemma {:induction false} TakeJoins<T>(stored: Stored<T>, cell: seq<Byte>, take: nat, met: seq<T>)
    requires IsSize(stored.size) && take <= |cell| && IsWhole(take, stored.size)
    ensures met + Samples(stored, cell) == met + Samples(stored, cell[..take]) + Samples(stored, cell[take..])
  {
    assert cell == cell[..take] + cell[take..];
    SamplesJoin(stored, cell[..take], cell[take..]);
  }

  /** The cell's samples join those waiting in the block, and each full block is mapped to `out`. */
  method GatherCell<T(==), O>(scale: Scale<T, O>, stored: Stored<T>, whole: seq<Byte>, block: array<T>, len: nat, out: seq<O>,
                              ghost base: seq<O>, ghost met: seq<T>)
    returns (left: nat, r: seq<O>)
    requires IsSize(stored.size) && IsWhole(|whole|, stored.size) && block.Length == BLOCK && len < BLOCK
    requires Holds(scale, base, met, out, block[..len])
    modifies block
    ensures left < BLOCK && Holds(scale, base, met + Samples(stored, whole), r, block[..left])
  {
    if |whole| == stored.size {
      left, r := Gather(scale, stored, whole, block, len, out, base, met);
      return;
    }
    left, r := len, out;
    var cell := whole;
    ghost var seen, all := met, met + Samples(stored, whole);
    while cell != []
      invariant left < BLOCK && IsWhole(|cell|, stored.size)
      invariant seen + Samples(stored, cell) == all
      invariant Holds(scale, base, seen, r, block[..left])
      decreases |cell|
    {
      var take := Take(BLOCK - left, |cell|, stored.size);
      TakeJoins(stored, cell, take, seen);
      ghost var more := Samples(stored, cell[..take]);
      left, r := Gather(scale, stored, cell[..take], block, left, r, base, seen);
      cell, seen := cell[take..], seen + more;
    }
  }

  /** `out + scale.Mapped(CellSamples(..))`: where cells end and where blocks end make no
      difference. */
  method ExtendPhysicalBeCells<T(==), O>(scale: Scale<T, O>, stored: Stored<T>, cells: seq<seq<Byte>>, initial: T, out: seq<O>) returns (r: seq<O>)
    requires IsSize(stored.size) && AreWhole(cells, stored.size)
    ensures r == out + scale.Mapped(CellSamples(stored, cells))
  {
    var block := new T[BLOCK](_ => initial);
    var len: nat := 0;
    r := out;
    for c := 0 to |cells|
      invariant len < BLOCK && Holds(scale, out, CellSamples(stored, cells[..c]), r, block[..len])
    {
      assert cells[..c + 1][..c] == cells[..c];
      len, r := GatherCell(scale, stored, cells[c], block, len, r, out, CellSamples(stored, cells[..c]));
    }
    assert cells[..|cells|] == cells;
    r := ExtendPhysical(scale, block[..len], r);
  }

  /** `out + scale.Mapped(Samples(..))`, whatever the number of blocks the run takes. */
  method ExtendPhysicalBe<T(==), O>(scale: Scale<T, O>, stored: Stored<T>, bytes: seq<Byte>, initial: T, out: seq<O>) returns (r: seq<O>)
    requires IsSize(stored.size) && IsWhole(|bytes|, stored.size)
    ensures r == out + scale.Mapped(Samples(stored, bytes))
  {
    var block := new T[BLOCK](_ => initial);
    var rest := bytes;
    ghost var seen: seq<T> := [];
    r := out;
    while rest != []
      invariant IsWhole(|rest|, stored.size)
      invariant seen + Samples(stored, rest) == Samples(stored, bytes)
      invariant r == out + scale.Mapped(seen)
      decreases |rest|
    {
      var take := Take(BLOCK, |rest|, stored.size);
      TakeJoins(stored, rest, take, seen);
      ghost var more := Samples(stored, rest[..take]);
      r := MapBlock(scale, stored, rest[..take], block, r, out, seen);
      rest, seen := rest[take..], seen + more;
    }
  }

  /** Decode up to a block of samples, and append their physical values. */
  method MapBlock<T(==), O>(scale: Scale<T, O>, stored: Stored<T>, bytes: seq<Byte>, block: array<T>, given: seq<O>,
                            ghost base: seq<O>, ghost met: seq<T>)
    returns (r: seq<O>)
    requires IsSize(stored.size) && IsWhole(|bytes|, stored.size) && CountOf(|bytes|, stored.size) <= block.Length
    requires given == base + scale.Mapped(met)
    modifies block
    ensures r == base + scale.Mapped(met + Samples(stored, bytes))
  {
    ghost var more := Samples(stored, bytes);
    assert block[..0] == [];
    var end := DecodeInto(stored, bytes, block, 0);
    assert block[..end] == [] + more == more;
    MapsMore(scale, base, met, given, more);
    r := ExtendPhysical(scale, block[..end], given);
  }

  lemma MapsMore<T, O>(scale: Scale<T, O>, base: seq<O>, met: seq<T>, given: seq<O>, more: seq<T>)
    requires given == base + scale.Mapped(met)
    ensures given + scale.Mapped(more) == base + scale.Mapped(met + more)
  {
    MappedJoin(scale, met, more);
    Associated(base, scale.Mapped(met), scale.Mapped(more));
  }

  lemma Associated<O>(a: seq<O>, b: seq<O>, c: seq<O>)
    ensures a + b + c == a + (b + c)
  {
  }

  /** A run of samples, and the same samples cut into cells anywhere, give the same values. */
  method RunOrCells<T(==), O>(scale: Scale<T, O>, stored: Stored<T>, cells: seq<seq<Byte>>, initial: T) returns (run: seq<O>, cut: seq<O>)
    requires IsSize(stored.size) && AreWhole(cells, stored.size)
    ensures run == cut
  {
    CellsAreTheirRun(stored, cells);
    run := ExtendPhysicalBe(scale, stored, Concat(cells), initial, []);
    cut := ExtendPhysicalBeCells(scale, stored, cells, initial, []);
  }
}

/** The stored bytes of an image section, as runs joined where one follows another. */
module SectionRuns {
  import opened Bytes
  import opened ImageRegion
  import opened MixedRadix
  import opened Products

  /** So many bytes of the image's data unit from an offset. */
  datatype ByteRun = ByteRun(offset: nat, len: nat)

  /** The bytes a run covers. */
  ghost function BytesOf(run: ByteRun): seq<nat> {
    seq(run.len, j requires 0 <= j => run.offset + j)
  }

  /** The bytes runs cover, in order. */
  ghost function RunBytes(runs: seq<ByteRun>): seq<nat> {
    if runs == [] then [] else RunBytes(runs[..|runs| - 1]) + BytesOf(runs[|runs| - 1])
  }

  lemma {:induction false} RunBytesSnoc(runs: seq<ByteRun>, run: ByteRun)
    ensures RunBytes(runs + [run]) == RunBytes(runs) + BytesOf(run)
  {
    assert (runs + [run])[..|runs|] == runs;
  }

  lemma AppendedByte(bytes: seq<nat>, run: ByteRun, j: nat)
    requires j < |bytes| + run.len
    ensures (bytes + BytesOf(run))[j] == if j < |bytes| then bytes[j] else run.offset + (j - |bytes|)
  {
  }

  /** Each run's bytes follow those of the runs before it. */
  lemma {:induction false} RunByteAt(runs: seq<ByteRun>, k: nat, inner: nat)
    requires k < |runs| && inner < runs[k].len
    ensures |RunBytes(runs[..k])| + inner < |RunBytes(runs)|
    ensures RunBytes(runs)[|RunBytes(runs[..k])| + inner] == runs[k].offset + inner
  {
    var front := runs[..|runs| - 1];
    if k < |front| {
      RunByteAt(front, k, inner);
      assert front[..k] == runs[..k];
    }
    AppendedByte(RunBytes(front), runs[|runs| - 1], |RunBytes(runs[..k])| + inner);
  }

  lemma JoinedBytes(a: ByteRun, b: ByteRun)
    requires a.offset + a.len == b.offset
    ensures BytesOf(ByteRun(a.offset, a.len + b.len)) == BytesOf(a) + BytesOf(b)
  {
  }

  /** Runs that hold bytes, rise, and leave a gap between one and the next. */
  ghost predicate Maximal(runs: seq<ByteRun>) {
    && (forall i :: 0 <= i < |runs| ==> runs[i].len > 0)
    && forall i :: 0 < i < |runs| ==> runs[i - 1].offset + runs[i - 1].len < runs[i].offset
  }

  function CheckedAdd(a: nat, b: nat): Option<nat> {
    if a + b <= USIZE_MAX then Some(a + b) else None
  }

  // ---- What the section's bytes are ----

  /** A section of an image: its ranges' starts, its extent and the image's axes. */
  datatype Section = Section(lo: seq<nat>, selected: seq<nat>, shape: seq<nat>, size: nat)
  {
    ghost predicate Valid() {
      && FitsIn(lo, selected, shape) && Positive(selected) && shape != [] && size > 0
    }

    /** The rows of the section. */
    ghost function Rows(): nat
    {
      BoxRows(selected)
    }

    /** The bytes of a row. */
    ghost function RowBytes(): nat
      requires selected != []
    {
      selected[0] * size
    }

    /** Row `k`'s bytes in the image. */
    ghost function Row(k: nat): ByteRun
      requires Valid()
    {
      ByteRun(BoxRowAt(lo, selected, shape, k) * size, RowBytes())
    }

    ghost function RowRuns(k: nat): seq<ByteRun>
      requires Valid()
    {
      seq(k, i requires 0 <= i => Row(i))
    }

    /** The section's bytes of its first `k` rows, in Fortran order. */
    ghost function BytesTo(k: nat): (bytes: seq<nat>)
      requires Valid()
    {
      RunBytes(RowRuns(k))
    }

    lemma BytesToNext(k: nat)
      requires Valid()
      ensures BytesTo(k + 1) == BytesTo(k) + BytesOf(Row(k))
    {
      assert RowRuns(k + 1)[..k] == RowRuns(k);
    }

    /** The image's byte size fits `usize`. */
    ghost predicate Fits() {
      Product(shape) * size <= USIZE_MAX
    }

    lemma {:induction false} BytesToLength(k: nat)
      requires Valid()
      ensures |BytesTo(k)| == RowBytes() * k
    {
      if k > 0 {
        BytesToLength(k - 1);
        BytesToNext(k - 1);
        ScaledNext(RowBytes(), k - 1);
      }
    }

    /** Byte `b` of the section's element `x` of row `k` is that byte of the image's element at
        its N-dimensional coordinate. */
    lemma ByteAt(k: nat, x: nat, b: nat, e: nat, inner: nat, j: nat)
      requires Valid() && k < Rows() && x < selected[0] && b < size
      requires e == selected[0] * k + x && inner == x * size + b && j == RowBytes() * k + inner
      ensures j < |BytesTo(Rows())| && BytesTo(Rows())[j] == BoxAt(lo, selected, shape, e) * size + b
    {
      InnerByte(selected[0], x, size, b);
      ElementByte(k, x, b, e);
      BytesToLength(k);
      RowByteAt(k, inner, j);
    }

    lemma RowByteAt(k: nat, inner: nat, j: nat)
      requires Valid() && k < Rows() && inner < RowBytes() && j == |BytesTo(k)| + inner
      ensures j < |BytesTo(Rows())| && BytesTo(Rows())[j] == Row(k).offset + inner
    {
      assert RowRuns(Rows())[..k] == RowRuns(k);
      RunByteAt(RowRuns(Rows()), k, inner);
    }

    lemma ElementByte(k: nat, x: nat, b: nat, e: nat)
      requires Valid() && k < Rows() && x < selected[0] && b < size && e == selected[0] * k + x
      ensures Row(k).offset + (x * size + b) == BoxAt(lo, selected, shape, e) * size + b
    {
      BoxRowCell(lo, selected, shape, k, x);
      Distribute(BoxRowAt(lo, selected, shape, k), x, size);
    }

    /** A row ends before the next starts. */
    lemma RowEnds(k: nat)
      requires Valid() && k + 1 < Rows()
      ensures BoxRowAt(lo, selected, shape, k) + selected[0] <= BoxRowAt(lo, selected, shape, k + 1)
    {
      var w := selected[0];
      ScaledNext(w, k);
      RowsMeet(k, w * k, w * (k + 1));
    }

    lemma RowsMeet(k: nat, e: nat, e': nat)
      requires Valid() && k + 1 < Rows() && e == selected[0] * k && e' == selected[0] * (k + 1) && e' == e + selected[0]
      ensures BoxRowAt(lo, selected, shape, k) + selected[0] <= BoxRowAt(lo, selected, shape, k + 1)
    {
      BoxRowCell(lo, selected, shape, k, selected[0] - 1);
      BoxRowCell(lo, selected, shape, k + 1, 0);
      BoxIncreases(lo, selected, shape, e + (selected[0] - 1), e');
    }

    lemma RowsRise(k: nat)
      requires Valid() && k + 1 < Rows()
      ensures Row(k).offset + Row(k).len <= Row(k + 1).offset
    {
      RowEnds(k);
      ScaledEnd(BoxRowAt(lo, selected, shape, k), selected[0], BoxRowAt(lo, selected, shape, k + 1), size);
    }

    /** The last byte of a row is inside the image. */
    lemma RowLies(k: nat)
      requires Valid() && k < Rows()
      ensures BoxRowAt(lo, selected, shape, k) + selected[0] <= Product(shape)
      ensures Row(k).offset + Row(k).len <= Product(shape) * size
    {
      var w := selected[0];
      BoxRowCell(lo, selected, shape, k, w - 1);
      BoxCell(lo, selected, shape, w * k + (w - 1));
      ScaledEnd(BoxRowAt(lo, selected, shape, k), w, Product(shape), size);
    }
  }

  lemma InnerByte(w: nat, x: nat, size: nat, b: nat)
    requires x < w && b < size
    ensures x * size + b < w * size
  {
    ScaledBelow(size, x, w);
  }

  lemma Distribute(a: nat, b: nat, size: nat)
    ensures (a + b) * size == a * size + b * size
  {
  }

  lemma ScaledEnd(a: nat, w: nat, b: nat, size: nat)
    requires a + w <= b
    ensures a * size + w * size <= b * size
  {
    Distribute(a, w, size);
    MulMono(a + w, b, size);
  }

  lemma MulMono(a: nat, b: nat, size: nat)
    requires a <= b
    ensures a * size <= b * size
  {
    if a < b {
      ScaledBelow(size, a, b);
    }
  }

  // ---- No checked step fails in an image that fits ----

  lemma {:induction false} ProductMonotone(a: seq<nat>, b: seq<nat>)
    requires |a| == |b| && forall i :: 0 <= i < |a| ==> a[i] <= b[i]
    ensures Product(a) <= Product(b)
  {
    if a != [] {
      ProductMonotone(a[1..], b[1..]);
      MulMono(a[0], b[0], Product(a[1..]));
      MulMono(Product(a[1..]), Product(b[1..]), b[0]);
    }
  }

  /** A prefix of axes holds no more than all of them. */
  lemma {:induction false} PrefixFits(dims: seq<nat>, i: nat)
    requires Positive(dims) && i <= |dims|
    ensures Product(dims[..i]) <= Product(dims)
  {
    ProductSplit(dims[..i], dims[i..]);
    assert dims == dims[..i] + dims[i..];
    ProductPositive(dims[i..]);
    MulMono(1, Product(dims[i..]), Product(dims[..i]));
  }

  lemma SizeFits(elements: nat, size: nat)
    requires size > 0
    ensures elements <= elements * size
  {
    MulMono(1, size, elements);
  }

  // ---- The visit ----

  /** The rows of the section, or nothing when their count overflows. */
  method CountRows(selected: seq<nat>) returns (count: Option<nat>)
    requires selected != [] && Positive(selected)
    ensures count.Some? ==> count.value == BoxRows(selected)
    ensures count == None ==> BoxRows(selected) > USIZE_MAX
  {
    var rest := selected[1..];
    var product: nat := 1;
    for i := 0 to |rest|
      invariant product == Product(rest[..i])
    {
      ProductPrefix(rest, i);
      PrefixFits(rest, i + 1);
      TimesIs(product, rest[i]);
      if CheckedMul(product, rest[i]) == None {
        return None;
      }
      product := product * rest[i];
    }
    assert rest[..|rest|] == rest;
    count := Some(product);
  }

  /** The reading of the axes before `axis`, as the divisions of a row's number leave it. */
  ghost predicate ReadTo(c: seq<nat>, digits: seq<nat>, dims: seq<nat>, shape: seq<nat>, axis: nat,
                         remainder: nat, offset: nat, stride: nat)
    requires |c| == |shape| == |digits| + 1 == |dims| + 1 && Positive(dims) && 1 <= axis <= |shape|
  {
    && digits[axis - 1..] == Unflat(remainder, dims[axis - 1..])
    && offset == Flat(c[..axis], shape[..axis])
    && (axis < |shape| ==> stride == Product(shape[..axis]))
  }

  /** One more axis: its coordinate times its stride joins the offset. */
  lemma {:induction false} ReadAxis(c: seq<nat>, digits: seq<nat>, dims: seq<nat>, shape: seq<nat>, axis: nat,
                 remainder: nat, offset: nat, stride: nat)
    requires |c| == |shape| == |digits| + 1 == |dims| + 1 && Positive(dims) && 1 <= axis < |shape|
    requires Inside(c, shape) && ReadTo(c, digits, dims, shape, axis, remainder, offset, stride)
    ensures digits[axis - 1] == Remainder(remainder, dims[axis - 1])
    ensures ReadTo(c, digits, dims, shape, axis + 1, Quotient(remainder, dims[axis - 1]),
                   offset + c[axis] * stride, stride * shape[axis])
    ensures offset + c[axis] * stride < Product(shape)
    ensures stride * shape[axis] <= Product(shape)
  {
    DigitStep(digits, dims, axis - 1, remainder);
    FlatPrefix(c, shape, axis);
    ProductPrefix(shape, axis);
    PrefixLies(c, shape, axis + 1);
    InsideIsPositive(c, shape);
    PrefixFits(shape, axis + 1);
  }

  lemma InsideIsPositive(c: seq<nat>, shape: seq<nat>)
    requires Inside(c, shape)
    ensures Positive(shape)
  {
  }

  /** Where row `k` starts, in elements: its higher coordinates divided out of its number,
      each times its axis's stride. A checked step fails only where the image's element count
      does not fit. */
  method RowStart(section: Section, k: nat) returns (start: Option<nat>)
    requires section.Valid() && k < section.Rows()
    ensures start.Some? ==> start.value == BoxRowAt(section.lo, section.selected, section.shape, k)
    ensures start == None ==> Product(section.shape) > USIZE_MAX
  {
    var Section(lo, selected, shape, _) := section;
    ghost var dims := selected[1..];
    ghost var digits := Unflat(k, dims);
    ghost var c := Add(lo, RowCoord(selected, k));
    CoordLies(section, k);
    StartsAt(c, shape);
    assert dims[0..] == dims && digits[0..] == digits;
    start := Coordinates(lo, selected, shape, k, c, digits);
  }

  method Coordinates(lo: seq<nat>, selected: seq<nat>, shape: seq<nat>, k: nat,
                     ghost c: seq<nat>, ghost digits: seq<nat>)
    returns (start: Option<nat>)
    requires |lo| == |selected| == |shape| == |c| == |digits| + 1 && Positive(selected) && Inside(c, shape)
    requires forall i :: 1 <= i < |c| ==> c[i] == lo[i] + digits[i - 1]
    requires ReadTo(c, digits, selected[1..], shape, 1, k, lo[0], shape[0])
    ensures start.Some? ==> start.value == Flat(c, shape)
    ensures start == None ==> Product(shape) > USIZE_MAX
  {
    ghost var dims := selected[1..];
    var remainder := k;
    var offset := lo[0];
    var stride := shape[0];
    for axis := 1 to |shape|
      invariant ReadTo(c, digits, dims, shape, axis, remainder, offset, stride)
    {
      ReadAxis(c, digits, dims, shape, axis, remainder, offset, stride);
      var local;
      remainder, local := Divide(remainder, selected[axis]);
      TimesIs(lo[axis] + local, stride);
      var term := CheckedMul(lo[axis] + local, stride);
      if term == None {
        return None;
      }
      var next := CheckedAdd(offset, term.value);
      if next == None {
        return None;
      }
      offset := next.value;
      if axis + 1 < |shape| {
        TimesIs(stride, shape[axis]);
        var wider := CheckedMul(stride, shape[axis]);
        if wider == None {
          return None;
        }
        stride := wider.value;
      }
    }
    assert c[..|shape|] == c && shape[..|shape|] == shape;
    start := Some(offset);
  }

  lemma StartsAt(c: seq<nat>, shape: seq<nat>)
    requires |c| == |shape| > 0
    ensures Flat(c[..1], shape[..1]) == c[0] && Product(shape[..1]) == shape[0]
  {
    assert c[..1] == [c[0]] && shape[..1] == [shape[0]];
    assert Flat([c[0]], [shape[0]]) == c[0] + shape[0] * Flat([], []);
    assert Product([shape[0]]) == shape[0] * Product([]);
  }

  lemma CoordLies(section: Section, k: nat)
    requires section.Valid()
    ensures Inside(Add(section.lo, RowCoord(section.selected, k)), section.shape)
  {
    var inner := RowCoord(section.selected, k);
    forall i | 0 <= i < |inner| ensures inner[i] < section.selected[i] {
      if i > 0 {
        assert inner[i] == Unflat(k, section.selected[1..])[i - 1];
      }
    }
  }

  lemma PrefixLies(c: seq<nat>, shape: seq<nat>, i: nat)
    requires Inside(c, shape) && i <= |c|
    ensures Flat(c[..i], shape[..i]) < Product(shape[..i])
  {
    FlatInside(c[..i], shape[..i]);
  }

  /** The runs given so far and the one held back cover `bytes`, up to `end`. */
  ghost predicate Visited(bytes: seq<nat>, end: nat, runs: seq<ByteRun>, pending: ByteRun) {
    && Maximal(runs + [pending])
    && RunBytes(runs + [pending]) == bytes
    && pending.offset + pending.len == end
  }

  /** A run that starts where the one held back ends joins it. */
  lemma Joins(bytes: seq<nat>, end: nat, runs: seq<ByteRun>, pending: ByteRun, next: ByteRun)
    requires Visited(bytes, end, runs, pending) && next.offset == end
    ensures Visited(bytes + BytesOf(next), next.offset + next.len, runs,
                    ByteRun(pending.offset, pending.len + next.len))
  {
    JoinedCovers(runs, pending, next);
    LongerIsMaximal(runs, pending, pending.len + next.len);
  }

  lemma {:induction false} JoinedCovers(runs: seq<ByteRun>, a: ByteRun, b: ByteRun)
    requires a.offset + a.len == b.offset
    ensures RunBytes(runs + [ByteRun(a.offset, a.len + b.len)]) == RunBytes(runs + [a]) + BytesOf(b)
  {
    RunBytesSnoc(runs, a);
    RunBytesSnoc(runs, ByteRun(a.offset, a.len + b.len));
    JoinedBytes(a, b);
    Regroup(RunBytes(runs), BytesOf(a), BytesOf(b));
  }

  lemma Regroup(a: seq<nat>, b: seq<nat>, c: seq<nat>)
    ensures a + (b + c) == (a + b) + c
  {
  }

  lemma LongerIsMaximal(runs: seq<ByteRun>, last: ByteRun, len: nat)
    requires Maximal(runs + [last]) && len > 0
    ensures Maximal(runs + [ByteRun(last.offset, len)])
  {
    var was, now := runs + [last], runs + [ByteRun(last.offset, len)];
    forall i | 0 <= i < |now| ensures now[i].len > 0 {
      assert was[i].len > 0;
    }
    forall i | 0 < i < |now| ensures now[i - 1].offset + now[i - 1].len < now[i].offset {
      assert was[i - 1].offset + was[i - 1].len < was[i].offset;
    }
  }

  /** A run past the one held back lets it go. */
  lemma LetsGo(bytes: seq<nat>, end: nat, runs: seq<ByteRun>, pending: ByteRun, next: ByteRun)
    requires Visited(bytes, end, runs, pending) && end < next.offset && next.len > 0
    ensures Visited(bytes + BytesOf(next), next.offset + next.len, runs + [pending], next)
  {
    RunBytesSnoc(runs + [pending], next);
  }

  /** Take a row's run: joined to the one held back, or held back in its place. */
  method Take(runs: seq<ByteRun>, pending: Option<ByteRun>, next: ByteRun, ghost bytes: seq<nat>, ghost end: nat)
    returns (given: seq<ByteRun>, held: ByteRun, ok: bool)
    requires pending == None ==> bytes == [] && runs == []
    requires pending.Some? ==> Visited(bytes, end, runs, pending.value) && end <= next.offset
    requires next.len > 0
    ensures ok ==> Visited(bytes + BytesOf(next), next.offset + next.len, given, held)
    ensures next.offset + next.len <= USIZE_MAX ==> ok
  {
    given, held, ok := runs, next, true;
    if pending.Some? {
      var previous := pending.value;
      var stop := CheckedAdd(previous.offset, previous.len);
      if stop == None {
        return runs, previous, false;
      }
      if stop.value == next.offset {
        Joins(bytes, end, runs, previous, next);
        var len := CheckedAdd(previous.len, next.len);
        if len == None {
          return runs, previous, false;
        }
        held := ByteRun(previous.offset, len.value);
      } else {
        LetsGo(bytes, end, runs, previous, next);
        given := runs + [previous];
      }
    } else {
      assert [] + [next] == [next];
      RunBytesSnoc([], next);
    }
  }

  lemma RowHasBytes(section: Section)
    requires section.Valid()
    ensures section.RowBytes() > 0
  {
    MulMono(1, section.size, section.selected[0]);
  }

  /** The rows before `k` are visited. */
  ghost predicate RowsVisited(section: Section, k: nat, runs: seq<ByteRun>, pending: Option<ByteRun>)
    requires section.Valid()
  {
    && (k == 0 ==> pending == None && runs == [])
    && (k > 0 ==> pending.Some?
                  && Visited(section.BytesTo(k), section.Row(k - 1).offset + section.Row(k - 1).len, runs, pending.value))
  }

  /** The runs hold the section's bytes, axis 0 fastest, and each ends short of where the next
      begins. Only an image of more than 64 bits of bytes can make it fail. */
  method Visit(section: Section) returns (runs: seq<ByteRun>, ok: bool)
    requires FitsIn(section.lo, section.selected, section.shape) && section.size > 0
    ensures section.shape == [] || !Positive(section.selected) ==> ok && runs == []
    ensures ok && section.Valid() ==> Maximal(runs) && RunBytes(runs) == section.BytesTo(section.Rows())
    ensures section.Fits() ==> ok
  {
    runs, ok := [], true;
    if section.selected == [] || 0 in section.selected {
      return;
    }
    assert section.Valid();
    BoundsHold(section);
    var rowCount := CountRows(section.selected);
    TimesIs(section.selected[0], section.size);
    var rowBytes := CheckedMul(section.selected[0], section.size);
    if rowCount == None || rowBytes == None {
      return [], false;
    }
    ProductPositive(section.selected[1..]);
    var pending: Option<ByteRun> := None;
    for k := 0 to rowCount.value
      invariant RowsVisited(section, k, runs, pending)
    {
      runs, pending, ok := VisitRow(section, rowBytes.value, k, runs, pending);
      if !ok {
        return;
      }
    }
    runs := runs + [pending.value];
  }

  method VisitRow(section: Section, rowBytes: nat, k: nat, runs: seq<ByteRun>, pending: Option<ByteRun>)
    returns (given: seq<ByteRun>, held: Option<ByteRun>, ok: bool)
    requires section.Valid() && k < section.Rows() && rowBytes == section.RowBytes()
    requires RowsVisited(section, k, runs, pending)
    ensures ok ==> RowsVisited(section, k + 1, given, held)
    ensures section.Fits() ==> ok
  {
    BoundsHold(section);
    section.RowLies(k);
    given, held, ok := runs, pending, false;
    var start := RowStart(section, k);
    if start == None {
      return;
    }
    TimesIs(start.value, section.size);
    var offset := CheckedMul(start.value, section.size);
    if offset == None {
      return;
    }
    RowHasBytes(section);
    section.BytesToNext(k);
    ghost var end := 0;
    if k > 0 {
      section.RowsRise(k - 1);
      end := section.Row(k - 1).offset + section.Row(k - 1).len;
    }
    var next := ByteRun(offset.value, rowBytes);
    var last;
    given, last, ok := Take(runs, pending, next, section.BytesTo(k), end);
    held := Some(last);
  }

  /** What the checked steps of a section compute is no more than the image's byte size. */
  lemma BoundsHold(section: Section)
    requires section.Valid()
    ensures Product(section.shape) <= Product(section.shape) * section.size
    ensures section.Rows() <= Product(section.shape) && section.RowBytes() <= Product(section.shape) * section.size
  {
    var Section(lo, selected, shape, size) := section;
    SizeFits(Product(shape), size);
    ProductMonotone(selected, shape);
    ProductPositive(selected[1..]);
    MulMono(1, selected[0], Product(selected[1..]));
    MulMono(1, Product(selected[1..]), selected[0]);
    MulMono(selected[0], Product(shape), size);
  }
}

/** Coordinates of any rank and the flat indices they stand for, axis 0 fastest: the naive
    N-dimensional index formula that the geometry's loops agree with. */
module MixedRadix {
  import opened Bytes

  function Product(dims: seq<nat>): nat {
    if dims == [] then 1 else dims[0] * Product(dims[1..])
  }

  predicate Positive(dims: seq<nat>) {
    forall i :: 0 <= i < |dims| ==> dims[i] > 0
  }

  predicate Inside(c: seq<nat>, dims: seq<nat>) {
    |c| == |dims| && forall i :: 0 <= i < |dims| ==> c[i] < dims[i]
  }

  /** The flat index of the coordinate `c` in an array of `dims`. */
  function Flat(c: seq<nat>, dims: seq<nat>): nat
    requires |c| == |dims|
  {
    if c == [] then 0 else c[0] + dims[0] * Flat(c[1..], dims[1..])
  }

  /** The coordinate of the flat index `f` in an array of `dims`. */
  function Unflat(f: nat, dims: seq<nat>): (c: seq<nat>)
    requires Positive(dims)
    ensures Inside(c, dims)
    decreases dims
  {
    if dims == [] then [] else [Remainder(f, dims[0])] + Unflat(Quotient(f, dims[0]), dims[1..])
  }

  /** `f / d`, counted by subtraction. */
  function Quotient(f: nat, d: nat): nat
    requires d > 0
  {
    if f < d then 0 else 1 + Quotient(f - d, d)
  }

  /** `f % d`, counted by subtraction. */
  function Remainder(f: nat, d: nat): (r: nat)
    requires d > 0
    ensures r < d
  {
    if f < d then f else Remainder(f - d, d)
  }

  function Add(a: seq<nat>, b: seq<nat>): (c: seq<nat>)
    requires |a| == |b|
    ensures |c| == |a|
  {
    seq(|a|, i requires 0 <= i < |a| => a[i] + b[i])
  }

  function Subtract(a: seq<nat>, b: seq<nat>): (c: seq<nat>)
    requires |a| == |b| && forall i :: 0 <= i < |a| ==> b[i] <= a[i]
    ensures |c| == |a|
  {
    seq(|a|, i requires 0 <= i < |a| => a[i] - b[i])
  }

  // ---- Division ----

  lemma {:induction false} ScaledBelow(d: nat, a: nat, b: nat)
    requires a < b
    ensures d * a + d <= d * b
  {
    if a + 1 < b {
      ScaledBelow(d, a, b - 1);
    }
  }

  lemma {:induction false} DivMod(n: nat, d: nat)
    requires d > 0
    ensures n == d * Quotient(n, d) + Remainder(n, d)
  {
    if n >= d {
      DivMod(n - d, d);
      assert d * (1 + Quotient(n - d, d)) == d + d * Quotient(n - d, d);
    }
  }

  /** The machine's division is the counted one. */
  lemma {:induction false} Division(n: nat, d: nat)
    requires d > 0
    ensures n / d == Quotient(n, d) && n % d == Remainder(n, d)
  {
    var q, r := n / d, n % d;
    assert n == d * q + r;
    DivModUnique(n, d, q, r);
  }

  lemma ScaledNext(d: nat, k: nat)
    ensures d * (k + 1) == d * k + d
  {
  }

  lemma {:induction false} DivModUnique(n: nat, d: nat, q: nat, r: nat)
    requires r < d && n == d * q + r
    ensures Quotient(n, d) == q && Remainder(n, d) == r
  {
    DivMod(n, d);
    var q', r' := Quotient(n, d), Remainder(n, d);
    if q > q' {
      ScaledBelow(d, q', q);
    } else if q < q' {
      ScaledBelow(d, q, q');
    }
  }

  /** A quotient stays below a factor. */
  lemma {:induction false} QuotientBelow(f: nat, d: nat, n: nat)
    requires d > 0 && f < d * n
    ensures Quotient(f, d) < n
  {
    DivMod(f, d);
    if n < Quotient(f, d) {
      ScaledBelow(d, n, Quotient(f, d));
    }
  }

  // ---- The bijection ----

  /** The digit of one axis, and the digits left. */
  lemma {:induction false} DigitStep(digits: seq<nat>, dims: seq<nat>, i: nat, rest: nat)
    requires |digits| == |dims| && Positive(dims) && i < |dims| && digits[i..] == Unflat(rest, dims[i..])
    ensures digits[i] == Remainder(rest, dims[i])
    ensures digits[i + 1..] == Unflat(Quotient(rest, dims[i]), dims[i + 1..])
  {
    assert digits[i] == digits[i..][0];
    assert digits[i + 1..] == digits[i..][1..] && dims[i + 1..] == dims[i..][1..];
  }

  lemma {:induction false} ProductPositive(dims: seq<nat>)
    ensures Positive(dims) <==> Product(dims) > 0
  {
    if dims != [] {
      ProductPositive(dims[1..]);
      assert forall i :: 0 < i < |dims| ==> dims[i] == dims[1..][i - 1];
      if Positive(dims) {
        assert dims[0] * Product(dims[1..]) > 0;
      }
    }
  }

  lemma {:induction false} FlatInside(c: seq<nat>, dims: seq<nat>)
    requires Inside(c, dims)
    ensures Flat(c, dims) < Product(dims)
  {
    if c != [] {
      FlatInside(c[1..], dims[1..]);
      ScaledBelow(dims[0], Flat(c[1..], dims[1..]), Product(dims[1..]));
    }
  }

  lemma {:induction false} FlatUnflat(f: nat, dims: seq<nat>)
    requires Positive(dims) && f < Product(dims)
    ensures Flat(Unflat(f, dims), dims) == f
    decreases dims
  {
    if dims != [] {
      var d, rest := dims[0], dims[1..];
      QuotientBelow(f, d, Product(rest));
      FlatUnflat(Quotient(f, d), rest);
      assert Unflat(f, dims)[1..] == Unflat(Quotient(f, d), rest);
      DivMod(f, d);
    }
  }

  lemma {:induction false} UnflatFlat(c: seq<nat>, dims: seq<nat>)
    requires Inside(c, dims)
    ensures Unflat(Flat(c, dims), dims) == c
  {
    if c != [] {
      DivModUnique(Flat(c, dims), dims[0], Flat(c[1..], dims[1..]), c[0]);
      UnflatFlat(c[1..], dims[1..]);
    }
  }

  // ---- Splitting the axes ----

  lemma {:induction false} ProductSplit(a: seq<nat>, b: seq<nat>)
    ensures Product(a + b) == Product(a) * Product(b)
  {
    if a == [] {
      assert a + b == b;
    } else {
      ProductSplit(a[1..], b);
      assert (a + b)[1..] == a[1..] + b;
      assert a[0] * (Product(a[1..]) * Product(b)) == (a[0] * Product(a[1..])) * Product(b);
    }
  }

  lemma ProductPrefix(dims: seq<nat>, i: nat)
    requires i < |dims|
    ensures Product(dims[..i + 1]) == Product(dims[..i]) * dims[i]
  {
    ProductSplit(dims[..i], [dims[i]]);
    assert dims[..i + 1] == dims[..i] + [dims[i]];
    assert Product([dims[i]]) == dims[i] * Product([]);
  }

  lemma {:induction false} FlatSplit(c: seq<nat>, dims: seq<nat>, i: nat)
    requires |c| == |dims| && i <= |c|
    ensures Flat(c, dims) == Flat(c[..i], dims[..i]) + Product(dims[..i]) * Flat(c[i..], dims[i..])
  {
    if i == 0 {
      assert c[0..] == c && dims[0..] == dims;
    } else {
      FlatSplit(c[1..], dims[1..], i - 1);
      assert c[1..][..i - 1] == c[..i][1..] && dims[1..][..i - 1] == dims[..i][1..];
      assert c[1..][i - 1..] == c[i..] && dims[1..][i - 1..] == dims[i..];
      Regroup(dims[0], Flat(c[..i][1..], dims[..i][1..]), Product(dims[..i][1..]), Flat(c[i..], dims[i..]));
    }
  }

  lemma Regroup(d: nat, low: int, product: nat, high: int)
    ensures d * (low + product * high) == d * low + (d * product) * high
  {
  }

  /** One more axis adds its coordinate times the stride. */
  lemma FlatPrefix(c: seq<nat>, dims: seq<nat>, i: nat)
    requires |c| == |dims| && i < |c|
    ensures Flat(c[..i + 1], dims[..i + 1]) == Flat(c[..i], dims[..i]) + Product(dims[..i]) * c[i]
  {
    var c', dims' := c[..i + 1], dims[..i + 1];
    FlatSplit(c', dims', i);
    assert c'[..i] == c[..i] && dims'[..i] == dims[..i] && c'[i..] == [c[i]] && dims'[i..] == [dims[i]];
    assert Flat([c[i]], [dims[i]]) == c[i] + dims[i] * Flat([], []);
  }

  /** A step along axis `i` moves the flat index by its stride. */
  lemma {:induction false} FlatUpdate(c: seq<nat>, dims: seq<nat>, i: nat, value: nat)
    requires |c| == |dims| && i < |c|
    ensures Flat(c[i := value], dims) == Flat(c, dims) + Product(dims[..i]) * (value - c[i])
  {
    if i > 0 {
      var step, product := value - c[i], Product(dims[1..][..i - 1]);
      FlatUpdate(c[1..], dims[1..], i - 1, value);
      assert c[i := value][1..] == c[1..][i - 1 := value];
      assert dims[..i][1..] == dims[1..][..i - 1];
      Regroup(dims[0], Flat(c[1..], dims[1..]), product, step);
    }
  }

  lemma FlatStep(c: seq<nat>, dims: seq<nat>, i: nat)
    requires |c| == |dims| && i < |c|
    ensures Flat(c[i := c[i] + 1], dims) == Flat(c, dims) + Product(dims[..i])
  {
    FlatUpdate(c, dims, i, c[i] + 1);
  }

  lemma FlatBack(c: seq<nat>, dims: seq<nat>, i: nat, steps: nat)
    requires |c| == |dims| && i < |c| && steps <= c[i]
    ensures Flat(c[i := c[i] - steps], dims) == Flat(c, dims) - steps * Product(dims[..i])
  {
    FlatUpdate(c, dims, i, c[i] - steps);
  }

  lemma AddUpdate(a: seq<nat>, b: seq<nat>, i: nat, value: nat)
    requires |a| == |b| && i < |a|
    ensures Add(a, b[i := value]) == Add(a, b)[i := a[i] + value]
  {
  }

  /** The machine's quotient and remainder. */
  method Divide(n: nat, d: nat) returns (q: nat, r: nat)
    requires d > 0
    ensures q == Quotient(n, d) && r == Remainder(n, d)
  {
    Division(n, d);
    q, r := n / d, n % d;
  }

  // ---- The odometer ----

  /** The coordinate after `c`, its carries taken: back to zeros after the last. */
  function Next(c: seq<nat>, dims: seq<nat>): (n: seq<nat>)
    requires |c| == |dims|
    ensures |n| == |c|
  {
    if c == [] then []
    else if c[0] + 1 < dims[0] then [c[0] + 1] + c[1..]
    else [0] + Next(c[1..], dims[1..])
  }

  lemma {:induction false} UnflatNext(f: nat, dims: seq<nat>)
    requires Positive(dims)
    ensures Unflat(f + 1, dims) == Next(Unflat(f, dims), dims)
    decreases dims
  {
    if dims != [] {
      var d := dims[0];
      var q, r := Quotient(f, d), Remainder(f, d);
      DivMod(f, d);
      if r + 1 < d {
        UnflatIs(f + 1, dims, q, r + 1);
      } else {
        UnflatIs(f + 1, dims, q + 1, 0);
        UnflatNext(q, dims[1..]);
      }
    }
  }

  lemma {:induction false} UnflatIs(f: nat, dims: seq<nat>, q: nat, r: nat)
    requires Positive(dims) && dims != [] && r < dims[0] && f == dims[0] * q + r
    ensures Unflat(f, dims) == [r] + Unflat(q, dims[1..])
  {
    DivModUnique(f, dims[0], q, r);
  }

  /** The axes below `i` carry, and axis `i` steps when there is one. */
  lemma {:induction false} NextAt(c: seq<nat>, dims: seq<nat>, i: nat)
    requires |c| == |dims| && i <= |c|
    requires forall k :: 0 <= k < i ==> c[k] + 1 >= dims[k]
    requires i < |c| ==> c[i] + 1 < dims[i]
    ensures forall k :: 0 <= k < |c| ==> Next(c, dims)[k] == if k < i then 0 else if k == i then c[i] + 1 else c[k]
  {
    if i > 0 {
      NextAt(c[1..], dims[1..], i - 1);
    }
  }

  function Zeros(n: nat): (z: seq<nat>)
    ensures |z| == n && forall i :: 0 <= i < n ==> z[i] == 0
  {
    seq(n, _ => 0)
  }

  lemma {:induction false} UnflatZero(dims: seq<nat>)
    requires Positive(dims)
    ensures Unflat(0, dims) == Zeros(|dims|)
  {
    if dims != [] {
      DivModUnique(0, dims[0], 0, 0);
      UnflatZero(dims[1..]);
    }
  }

  // ---- Order ----

  /** The flat index in an array of `shape` of the `f`th cell of a box of `extent` at
      `start`. */
  function BoxAt(start: seq<nat>, extent: seq<nat>, shape: seq<nat>, f: nat): nat
    requires |start| == |extent| == |shape| && Positive(extent)
  {
    Flat(Add(start, Unflat(f, extent)), shape)
  }

  predicate FitsIn(start: seq<nat>, extent: seq<nat>, shape: seq<nat>) {
    && |start| == |extent| == |shape|
    && forall i :: 0 <= i < |shape| ==> start[i] + extent[i] <= shape[i]
  }

  lemma {:induction false} BoxStep(start: seq<nat>, extent: seq<nat>, shape: seq<nat>, f: nat)
    requires |start| == |extent| == |shape| > 0 && Positive(extent)
    ensures BoxAt(start, extent, shape, f)
            == start[0] + Remainder(f, extent[0])
               + shape[0] * BoxAt(start[1..], extent[1..], shape[1..], Quotient(f, extent[0]))
  {
    var c := Unflat(f, extent);
    assert Add(start, c)[1..] == Add(start[1..], c[1..]);
    assert c[1..] == Unflat(Quotient(f, extent[0]), extent[1..]);
  }

  /** A box's cells lie in the array in the order the box counts them. */
  lemma {:induction false} BoxIncreases(start: seq<nat>, extent: seq<nat>, shape: seq<nat>, f: nat, g: nat)
    requires FitsIn(start, extent, shape) && Positive(extent) && f < g < Product(extent)
    ensures BoxAt(start, extent, shape, f) < BoxAt(start, extent, shape, g)
    decreases shape
  {
    var d := extent[0];
    var p, q := Quotient(f, d), Quotient(g, d);
    BoxStep(start, extent, shape, f);
    BoxStep(start, extent, shape, g);
    DivMod(f, d);
    DivMod(g, d);
    if q < p {
      ScaledBelow(d, q, p);
    } else if p < q {
      QuotientBelow(g, d, Product(extent[1..]));
      BoxIncreases(start[1..], extent[1..], shape[1..], p, q);
      ScaledBelow(shape[0], BoxAt(start[1..], extent[1..], shape[1..], p), BoxAt(start[1..], extent[1..], shape[1..], q));
    }
  }

  // ---- Boxes ----

  predicate InBox(c: seq<nat>, start: seq<nat>, extent: seq<nat>) {
    && |c| == |start| == |extent|
    && forall i :: 0 <= i < |c| ==> start[i] <= c[i] < start[i] + extent[i]
  }

  /** Which of a box's cells the coordinate `c` is. */
  function BoxLocal(c: seq<nat>, start: seq<nat>, extent: seq<nat>): nat
    requires InBox(c, start, extent)
  {
    Flat(Subtract(c, start), extent)
  }

  lemma {:induction false} BoxCell(start: seq<nat>, extent: seq<nat>, shape: seq<nat>, e: nat)
    requires FitsIn(start, extent, shape) && Positive(extent) && e < Product(extent)
    ensures Positive(shape) && BoxAt(start, extent, shape, e) < Product(shape)
    ensures Unflat(BoxAt(start, extent, shape, e), shape) == Add(start, Unflat(e, extent))
    ensures var c := Unflat(BoxAt(start, extent, shape, e), shape);
            InBox(c, start, extent) && BoxLocal(c, start, extent) == e
  {
    var c := Add(start, Unflat(e, extent));
    FlatInside(c, shape);
    UnflatFlat(c, shape);
    assert Subtract(c, start) == Unflat(e, extent);
    FlatUnflat(e, extent);
  }

  lemma {:induction false} BoxInverse(c: seq<nat>, start: seq<nat>, extent: seq<nat>, shape: seq<nat>)
    requires FitsIn(start, extent, shape) && Positive(extent) && InBox(c, start, extent)
    ensures BoxLocal(c, start, extent) < Product(extent)
    ensures Unflat(BoxLocal(c, start, extent), extent) == Subtract(c, start)
    ensures BoxAt(start, extent, shape, BoxLocal(c, start, extent)) == Flat(c, shape)
  {
    var inner := Subtract(c, start);
    FlatInside(inner, extent);
    UnflatFlat(inner, extent);
    assert Add(start, inner) == c;
  }

  // ---- Rows of a box ----

  /** The odometer's reading at row `k` of a box of `extent`. */
  function RowCoord(extent: seq<nat>, k: nat): (c: seq<nat>)
    requires Positive(extent)
    ensures |c| == |extent|
  {
    if extent == [] then [] else [0] + Unflat(k, extent[1..])
  }

  /** The rows of a box: its cells along axis 0 lie side by side. */
  function BoxRows(extent: seq<nat>): nat {
    if extent == [] then 1 else Product(extent[1..])
  }

  function BoxRowLen(extent: seq<nat>): nat {
    if extent == [] then 1 else extent[0]
  }

  /** Where row `k` of a box starts in an array of `shape`. */
  function BoxRowAt(start: seq<nat>, extent: seq<nat>, shape: seq<nat>, k: nat): nat
    requires |start| == |extent| == |shape| && Positive(extent)
  {
    Flat(Add(start, RowCoord(extent, k)), shape)
  }

  /** Cell `x` of row `k` is the box's cell at `k` rows and `x` more. */
  lemma {:induction false} BoxRowCell(start: seq<nat>, extent: seq<nat>, shape: seq<nat>, k: nat, x: nat)
    requires |start| == |extent| == |shape| && Positive(extent)
    requires k < BoxRows(extent) && x < BoxRowLen(extent)
    ensures BoxRowLen(extent) * k + x < Product(extent)
    ensures BoxAt(start, extent, shape, BoxRowLen(extent) * k + x) == BoxRowAt(start, extent, shape, k) + x
  {
    if extent != [] {
      var e := extent[0] * k + x;
      ScaledBelow(extent[0], k, Product(extent[1..]));
      DivModUnique(e, extent[0], k, x);
      BoxStep(start, extent, shape, e);
      var c := Add(start, RowCoord(extent, k));
      assert c[1..] == Add(start[1..], Unflat(k, extent[1..]));
    }
  }

  /** Every cell of a box is in one of its rows. */
  lemma BoxCellRow(extent: seq<nat>, e: nat) returns (k: nat, x: nat)
    requires Positive(extent) && e < Product(extent)
    ensures k < BoxRows(extent) && x < BoxRowLen(extent) && e == BoxRowLen(extent) * k + x
  {
    if extent == [] {
      k, x := 0, 0;
    } else {
      k, x := Quotient(e, extent[0]), Remainder(e, extent[0]);
      DivMod(e, extent[0]);
      QuotientBelow(e, extent[0], Product(extent[1..]));
    }
  }

  /** What lies in the span of a box's row is that row's cell. */
  lemma BoxSpan(start: seq<nat>, extent: seq<nat>, shape: seq<nat>, k: nat, f: nat) returns (x: nat)
    requires FitsIn(start, extent, shape) && Positive(extent) && Positive(shape) && k < BoxRows(extent)
    requires BoxRowAt(start, extent, shape, k) <= f < BoxRowAt(start, extent, shape, k) + BoxRowLen(extent)
    ensures f < Product(shape) && InBox(Unflat(f, shape), start, extent)
    ensures x < BoxRowLen(extent) && BoxLocal(Unflat(f, shape), start, extent) == BoxRowLen(extent) * k + x
  {
    x := f - BoxRowAt(start, extent, shape, k);
    var e := BoxRowLen(extent) * k + x;
    BoxRowCell(start, extent, shape, k, x);
    assert BoxAt(start, extent, shape, e) == f;
    BoxCell(start, extent, shape, e);
  }

  /** No flat index is in the spans of two of a box's rows. */
  lemma BoxSpanUnique(start: seq<nat>, extent: seq<nat>, shape: seq<nat>, f: nat, k: nat, k': nat)
    requires FitsIn(start, extent, shape) && Positive(extent) && Positive(shape)
    requires k < BoxRows(extent) && k' < BoxRows(extent)
    requires BoxRowAt(start, extent, shape, k) <= f < BoxRowAt(start, extent, shape, k) + BoxRowLen(extent)
    requires BoxRowAt(start, extent, shape, k') <= f < BoxRowAt(start, extent, shape, k') + BoxRowLen(extent)
    ensures k == k'
  {
    var x := BoxSpan(start, extent, shape, k, f);
    var x' := BoxSpan(start, extent, shape, k', f);
    var e := BoxLocal(Unflat(f, shape), start, extent);
    DivModUnique(e, BoxRowLen(extent), k, x);
    DivModUnique(e, BoxRowLen(extent), k', x');
  }

  /** The odometer's reading after `c`: axis 0 stays, the others step. */
  ghost function NextRow(c: seq<nat>, extent: seq<nat>): (n: seq<nat>)
    requires |c| == |extent|
    ensures |n| == |c|
  {
    if c == [] then [] else [c[0]] + Next(c[1..], extent[1..])
  }

  lemma RowCoordNext(extent: seq<nat>, k: nat)
    requires Positive(extent)
    ensures RowCoord(extent, k + 1) == NextRow(RowCoord(extent, k), extent)
  {
    if extent != [] {
      UnflatNext(k, extent[1..]);
    }
  }

  lemma RowCoordZero(start: seq<nat>, extent: seq<nat>)
    requires Positive(extent) && |start| == |extent|
    ensures RowCoord(extent, 0) == Zeros(|extent|) && Add(start, Zeros(|extent|)) == start
  {
    if extent != [] {
      UnflatZero(extent[1..]);
    }
  }

  /** The flat indices of a box's cells, in the box's order. */
  function BoxPixels(start: seq<nat>, extent: seq<nat>, shape: seq<nat>): (pixels: seq<nat>)
    requires |start| == |extent| == |shape| && Positive(extent)
    ensures |pixels| == Product(extent)
  {
    seq(Product(extent), e requires 0 <= e => BoxAt(start, extent, shape, e))
  }

  lemma {:induction false} BoxPixelsIncrease(start: seq<nat>, extent: seq<nat>, shape: seq<nat>)
    requires FitsIn(start, extent, shape) && Positive(extent)
    ensures var pixels := BoxPixels(start, extent, shape);
            && (forall i, j :: 0 <= i < j < |pixels| ==> pixels[i] < pixels[j])
            && (forall i :: 0 <= i < |pixels| ==> pixels[i] < Product(shape))
  {
    var pixels := BoxPixels(start, extent, shape);
    forall i, j | 0 <= i < j < |pixels| ensures pixels[i] < pixels[j] {
      BoxIncreases(start, extent, shape, i, j);
    }
    forall i | 0 <= i < |pixels| ensures pixels[i] < Product(shape) {
      BoxCell(start, extent, shape, i);
    }
  }

  /** The cells of a box are the flat indices whose coordinates lie in it. */
  lemma {:induction false} InBoxPixels(start: seq<nat>, extent: seq<nat>, shape: seq<nat>, f: nat)
    requires FitsIn(start, extent, shape) && Positive(extent) && Positive(shape) && f < Product(shape)
    ensures f in BoxPixels(start, extent, shape) <==> InBox(Unflat(f, shape), start, extent)
  {
    var pixels := BoxPixels(start, extent, shape);
    if f in pixels {
      var e :| 0 <= e < |pixels| && pixels[e] == f;
      BoxCell(start, extent, shape, e);
    }
    if InBox(Unflat(f, shape), start, extent) {
      BoxInverse(Unflat(f, shape), start, extent, shape);
      FlatUnflat(f, shape);
      assert pixels[BoxLocal(Unflat(f, shape), start, extent)] == f;
    }
  }

  /** Each of a box's cells lies in the span of one of its rows. */
  lemma BoxSpanOf(start: seq<nat>, extent: seq<nat>, shape: seq<nat>, f: nat) returns (k: nat)
    requires |start| == |extent| == |shape| && Positive(extent) && f in BoxPixels(start, extent, shape)
    ensures k < BoxRows(extent)
    ensures BoxRowAt(start, extent, shape, k) <= f < BoxRowAt(start, extent, shape, k) + BoxRowLen(extent)
  {
    var e :| 0 <= e < Product(extent) && BoxPixels(start, extent, shape)[e] == f;
    var x;
    k, x := BoxCellRow(extent, e);
    BoxRowCell(start, extent, shape, k, x);
  }
}

/** The descriptors of variable-length arrays: two signed big-endian integers that say where
    in the heap a cell's elements lie (section 7.3.5 of the FITS Standard 4.0). */
module Descriptors {
  import opened Bytes

  datatype ElementKind =
    | Logical | Bit | U8 | I16 | I32 | I64 | Character | F32 | F64 | ComplexF32 | ComplexF64
  {
    /** The bytes of `count` elements, a whole number of bytes each, of every kind but `Bit`. */
    function Whole(count: nat): (len: nat)
      ensures count <= len <= 16 * count
    {
      match this
      case Logical => count
      case Bit => count
      case U8 => count
      case Character => count
      case I16 => 2 * count
      case I32 => 4 * count
      case F32 => 4 * count
      case I64 => 8 * count
      case F64 => 8 * count
      case ComplexF32 => 8 * count
      case ComplexF64 => 16 * count
    }

    /** The bits of one element. */
    function Bits(): nat {
      if Bit? then 1 else 8 * Whole(1)
    }

    /** The fewest bytes that hold the bits of `count` elements; nothing past 64 bits. */
    function PayloadLen(count: nat): (len: Option<nat>)
      ensures count == 0 ==> len == Some(0)
      ensures count > 0 ==> len != Some(0)
      ensures len.Some? ==> 8 * len.value - 7 <= Bits() * count <= 8 * len.value
      ensures len == None <==> !Bit? && Bits() * count > 8 * USIZE_MAX
    {
      if this == Bit then
        Some((count + 7) / 8)
      else if Whole(count) <= USIZE_MAX then
        Some(Whole(count))
      else
        None
    }
  }

  /** Which integers the count and the offset are: 32-bit in `P`, 64-bit in `Q`. */
  datatype Width = P | Q
  {
    function Half(): nat {
      if P? then 4 else 8
    }

    function Bytes(): nat {
      2 * Half()
    }

    /** The largest value one of its signed integers holds. */
    function Largest(): nat {
      if P? then 0x7FFF_FFFF else 0x7FFF_FFFF_FFFF_FFFF
    }
  }

  datatype Field = Count | Offset

  datatype TableError =
    | DataUnitOverflow
    | RowRangeOutOfBounds(start: nat, end: nat, len: nat)
    | InvalidDescriptor(field: Field, value: int)
    | DescriptorPastHeap(column: nat, row: nat)
    | DescriptorOutOfRange(width: Width, count: nat, offset: nat)
    | UnexpectedEof

  datatype Descriptor = Descriptor(count: nat, offset: nat)
  {
    /** Neither number is past the width's largest. */
    predicate Fits(width: Width) {
      count <= width.Largest() && offset <= width.Largest()
    }

    /** Both numbers in the width's bytes, high byte first. */
    function Encoded(width: Width): (bytes: seq<Byte>)
      ensures |bytes| == width.Bytes()
    {
      ToBe(count, width.Half()) + ToBe(offset, width.Half())
    }

    /** Start and end in the data unit of the array's payload, the heap's own start where it is
        empty; nothing where it would end past `heapEnd` or 64 bits. */
    function HeapRange(kind: ElementKind, heapStart: nat, heapEnd: nat): (range: Option<(nat, nat)>)
      ensures range.Some? ==>
                var (start, end) := range.value;
                && kind.PayloadLen(count) == Some(end - start)
                && (start < end ==> start == heapStart + offset && end <= heapEnd)
                && (start == end ==> start == heapStart)
      ensures range == None <==>
                var len := kind.PayloadLen(count);
                len == None || (len.value > 0 && heapStart + offset + len.value > Min(heapEnd, USIZE_MAX))
    {
      match kind.PayloadLen(count)
      case None => None
      case Some(len) =>
        if len == 0 then
          Some((heapStart, heapStart))
        else if heapStart + offset + len <= USIZE_MAX && heapStart + offset + len <= heapEnd then
          Some((heapStart + offset, heapStart + offset + len))
        else
          None
    }
  }

  const EMPTY := Descriptor(0, 0)

  /** The value of a big-endian two's complement integer. */
  function Signed(bytes: seq<Byte>): int {
    if 2 * FromBe(bytes) < Pow256(|bytes|) then FromBe(bytes) else FromBe(bytes) - Pow256(|bytes|)
  }

  function NonnegativeField(field: Field, value: int): (r: Result<nat, TableError>) {
    if value < 0 then Err(InvalidDescriptor(field, value)) else Ok(value)
  }

  /** The inverse of `Encoded`: a negative integer is refused, and of an empty array only the
      count counts. */
  function Decode(bytes: seq<Byte>, width: Width): (r: Result<Descriptor, TableError>)
    requires |bytes| == width.Bytes()
    ensures r.Err? ==> r.error.InvalidDescriptor?
  {
    match NonnegativeField(Count, Signed(bytes[..width.Half()]))
    case Err(e) => Err(e)
    case Ok(count) =>
      if count == 0 then
        Ok(Descriptor(0, 0))
      else
        match NonnegativeField(Offset, Signed(bytes[width.Half()..]))
        case Err(e) => Err(e)
        case Ok(offset) => Ok(Descriptor(count, offset))
  }

  lemma HalfHolds(width: Width)
    ensures 2 * (width.Largest() + 1) == Pow256(width.Half())
  {
    assert Pow256(4) == 0x1_0000_0000;
    assert Pow256(8) == 0x1_0000_0000 * 0x1_0000_0000 by {
      assert Pow256(6) == 0x1_0000_0000 * 0x1_0000;
    }
  }

  lemma {:induction false} SignedRoundTrip(value: nat, width: Width)
    requires value <= width.Largest()
    ensures Signed(ToBe(value, width.Half())) == value
  {
    HalfHolds(width);
    BeRoundTrip(value, width.Half());
  }

  /** What is written is read back; of an array of no elements, only that it has none. */
  lemma DescriptorRoundTrip(d: Descriptor, width: Width)
    requires d.Fits(width)
    ensures Decode(d.Encoded(width), width) == Ok(if d.count == 0 then EMPTY else d)
  {
    var bytes := d.Encoded(width);
    assert bytes[..width.Half()] == ToBe(d.count, width.Half());
    assert bytes[width.Half()..] == ToBe(d.offset, width.Half());
    SignedRoundTrip(d.count, width);
    SignedRoundTrip(d.offset, width);
  }

  /** A decoded descriptor always fits the width it was read from. */
  lemma DecodedFits(bytes: seq<Byte>, width: Width)
    requires |bytes| == width.Bytes() && Decode(bytes, width).Ok?
    ensures Decode(bytes, width).value.Fits(width)
  {
    HalfHolds(width);
  }
}

/** A byte sink with a position, whose writes may fail after any prefix. */
module Sinks {
  import opened Bytes

  /** `bytes` with `data` written over them from `pos` on, past their end where it reaches. */
  function Overlaid(bytes: seq<Byte>, pos: nat, data: seq<Byte>): (r: seq<Byte>)
    requires pos <= |bytes|
    ensures |r| == Max(|bytes|, pos + |data|)
  {
    bytes[..pos] + data + (if pos + |data| <= |bytes| then bytes[pos + |data|..] else [])
  }

  lemma OverlaidTwice(bytes: seq<Byte>, pos: nat, a: seq<Byte>, b: seq<Byte>)
    requires pos <= |bytes|
    ensures Overlaid(Overlaid(bytes, pos, a), pos + |a|, b) == Overlaid(bytes, pos, a + b)
  {
  }

  /** Data of the same length written over a part of what was written replaces that part. */
  lemma OverlaidWithin(bytes: seq<Byte>, pos: nat, a: seq<Byte>, b: seq<Byte>, b': seq<Byte>, c: seq<Byte>)
    requires pos <= |bytes| && |b| == |b'|
    ensures Overlaid(Overlaid(bytes, pos, a + b + c), pos + |a|, b') == Overlaid(bytes, pos, a + b' + c)
  {
  }

  class Sink {
    var bytes: seq<Byte>
    var pos: nat

    ghost predicate Valid()
      reads this
    {
      pos <= |bytes| <= USIZE_MAX
    }

    /** `data` was written from `start` on over what the sink held, and the position is at its
        end. */
    ghost predicate After(origin: seq<Byte>, start: nat, data: seq<Byte>)
      reads this
    {
      start <= |origin| && bytes == Overlaid(origin, start, data) && pos == start + |data|
    }

    /** Some of `plan` was written after `data`. */
    ghost predicate Partway(origin: seq<Byte>, start: nat, data: seq<Byte>, plan: seq<Byte>)
      reads this
    {
      exists n: nat :: n <= |plan| && After(origin, start, data + plan[..n])
    }

    /** What was written is in the sink, whatever comes after. */
    ghost predicate Keeps(origin: seq<Byte>, start: nat, data: seq<Byte>)
      reads this
    {
      start <= |origin| && origin[..start] + data <= bytes
    }

    constructor (held: seq<Byte>)
      requires |held| <= USIZE_MAX
      ensures Valid() && bytes == held && pos == |held|
    {
      bytes, pos := held, |held|;
    }

    /** Write every byte of `data`, or fail after some of them: always where they reach past a
        64-bit position. */
    method WriteAll(data: seq<Byte>, ghost origin: seq<Byte>, ghost start: nat, ghost held: seq<Byte>) returns (ok: bool)
      requires Valid() && After(origin, start, held)
      modifies this
      ensures Valid()
      ensures ok ==> After(origin, start, held + data)
      ensures !ok ==> Partway(origin, start, held, data)
    {
      var n: nat :| n <= |data| && (pos + |data| > USIZE_MAX ==> pos + n <= USIZE_MAX);
      OverlaidTwice(origin, start, held, data[..n]);
      bytes, pos := Overlaid(bytes, pos, data[..n]), pos + n;
      ok := n == |data|;
      assert After(origin, start, held + data[..n]);
      assert ok ==> data[..n] == data;
    }

    method Position() returns (at: Option<nat>)
      ensures at.Some? ==> at.value == pos
    {
      var ok := *;
      at := if ok then Some(pos) else None;
    }

    /** Move to a position the sink has passed, or fail somewhere. */
    method Seek(to: nat) returns (ok: bool)
      requires Valid() && to <= |bytes|
      modifies `pos
      ensures Valid() && (ok ==> pos == to)
    {
      ok := *;
      if ok {
        pos := to;
      } else {
        var at: nat :| at <= |bytes|;
        pos := at;
      }
    }
  }

  /** What is partway through a plan is partway through a longer one. */
  lemma PartwayLonger(sink: Sink, origin: seq<Byte>, start: nat, data: seq<Byte>, done: seq<Byte>, piece: seq<Byte>, plan: seq<Byte>)
    requires sink.Partway(origin, start, data + done, piece) && done + piece <= plan
    ensures sink.Partway(origin, start, data, plan)
  {
    var n: nat :| n <= |piece| && sink.After(origin, start, data + done + piece[..n]);
    assert plan[..|done| + n] == (done + piece)[..|done| + n] == done + piece[..n];
    assert data + done + piece[..n] == data + plan[..|done| + n];
  }

  lemma AfterKeeps(sink: Sink, origin: seq<Byte>, start: nat, data: seq<Byte>, more: seq<Byte>)
    requires sink.After(origin, start, data + more)
    ensures sink.Keeps(origin, start, data)
  {
  }

  lemma PartwayKeeps(sink: Sink, origin: seq<Byte>, start: nat, data: seq<Byte>, plan: seq<Byte>)
    requires sink.Partway(origin, start, data, plan)
    ensures sink.Keeps(origin, start, data)
  {
    var n: nat :| n <= |plan| && sink.After(origin, start, data + plan[..n]);
    AfterKeeps(sink, origin, start, data, plan[..n]);
  }
}

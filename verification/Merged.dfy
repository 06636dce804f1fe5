/** Appends of a data unit's ranges, adjacent ones held back and joined into one fetch. */
module MergedReads {
  import opened Bytes

  /** A growing buffer of bytes. */
  class ByteVec {
    var bytes: seq<Byte>

    constructor ()
      ensures bytes == []
    {
      bytes := [];
    }

    /** Replace the bytes from `at` with `new'`. */
    method Write(at: nat, new': seq<Byte>)
      requires at + |new'| <= |bytes|
      modifies this
      ensures |bytes| == |old(bytes)|
      ensures bytes[..at] == old(bytes)[..at] && bytes[at + |new'|..] == old(bytes)[at + |new'|..]
      ensures bytes[at..at + |new'|] == new'
    {
      bytes := bytes[..at] + new' + bytes[at + |new'|..];
    }
  }

  /** The bytes of a range, where the source has them. */
  function Slice(src: seq<Byte>, start: nat, end: nat): seq<Byte> {
    if start <= end <= |src| then src[start..end] else []
  }

  /** Copies of ranges of `fetch` into a growing buffer, the last one pending so that a next
      range beginning at its end makes one fetch of the two. */
  class Merged {
    const fetch: seq<Byte>
    var pending: Option<Range>

    ghost predicate Valid()
      reads this
    {
      pending.Some? ==> pending.value.start < pending.value.end
    }

    /** The range held back is not all in the source: to append it will fail. */
    ghost predicate Doomed()
      reads this
    {
      pending.Some? && pending.value.end > |fetch|
    }

    /** What the range held back will append. */
    ghost function Held(): seq<Byte>
      reads this
    {
      if pending.Some? then Slice(fetch, pending.value.start, pending.value.end) else []
    }

    constructor (fetch: seq<Byte>)
      ensures this.fetch == fetch && pending == None
    {
      this.fetch := fetch;
      pending := None;
    }

    /** Append the range held back. */
    method Flush(out: ByteVec) returns (ok: bool)
      requires Valid()
      modifies this, out
      ensures Valid() && pending == None
      ensures ok <==> !old(Doomed())
      ensures out.bytes == if ok then old(out.bytes + Held()) else old(out.bytes)
    {
      ok := true;
      if pending.Some? {
        var range := pending.value;
        pending := None;
        if range.end > |fetch| {
          return false;
        }
        out.bytes := out.bytes + fetch[range.start..range.end];
      }
    }

    /** Buffer and pending range together gain the range's bytes. Only a flush can fail: one of a
        range that reaches past `fetch`. */
    method Push(start: nat, end: nat, out: ByteVec) returns (ok: bool)
      requires Valid() && start <= end
      modifies this, out
      ensures Valid()
      ensures !ok ==> old(Doomed())
      ensures ok ==> (Doomed() <==> old(Doomed()) || (start < end && end > |fetch|))
      ensures ok && !Doomed() ==>
                out.bytes + Held() == old(out.bytes + Held()) + (if start == end then [] else Slice(fetch, start, end))
      ensures old(out.bytes) <= out.bytes
    {
      ok := true;
      if start == end {
        return;
      }
      if pending.Some? && pending.value.end == start {
        JoinedSlice(fetch, pending.value.start, start, end);
        pending := Some(Range(pending.value.start, end));
      } else {
        ok := Flush(out);
        if !ok {
          return;
        }
        pending := Some(Range(start, end));
      }
    }

    /** The offset in the output of a byte pushed now: the pending range counts though it is not
        there yet. */
    function NextOffset(out: ByteVec): (at: nat)
      requires Valid()
      reads this, out
      ensures !Doomed() ==> at == |out.bytes + Held()|
    {
      |out.bytes| + if pending.Some? then pending.value.end - pending.value.start else 0
    }
  }

  lemma JoinedSlice(src: seq<Byte>, a: nat, b: nat, c: nat)
    requires a < b < c
    ensures c <= |src| ==> Slice(src, a, c) == Slice(src, a, b) + Slice(src, b, c)
  {
  }
}

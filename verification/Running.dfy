/** Checksums of data that arrives in pieces. */
module RunningSum {
  import opened Bytes
  import opened Checksum

  /** `fed` is every byte so far: `sum` is that of its whole words, and `partial` starts with the
      bytes beyond them, three at most. */
  class Running {
    ghost var fed: seq<Byte>
    ghost var words: nat
    var sum: U32
    var partial: seq<Byte>
    var partialLen: nat

    ghost predicate Valid()
      reads this
    {
      && |partial| == 4 && partialLen < 4
      && |fed| == 4 * words + partialLen && fed[4 * words..] == partial[..partialLen]
      && sum == Canonical(TotalOf(fed, words))
    }

    constructor ()
      ensures Valid() && fed == []
    {
      fed, words, sum, partial, partialLen := [], 0, 0, [0, 0, 0, 0], 0;
    }

    /** `fed` grows by `bytes`. */
    method Update(bytes: seq<Byte>)
      requires Valid()
      modifies this
      ensures Valid() && fed == old(fed) + bytes
    {
      var rest := bytes;
      if partialLen > 0 {
        var fill := Min(4 - partialLen, |rest|);
        assert fed + bytes == (fed + bytes[..fill]) + bytes[fill..];
        Gather(rest[..fill]);
        rest := rest[fill..];
        if partialLen > 0 {
          assert rest == [];
          return;
        }
      }
      AddRest(rest);
    }

    /** Gather `bytes` in the partial word, and add it once it is whole. */
    method Gather(bytes: seq<Byte>)
      requires Valid() && partialLen + |bytes| <= 4
      modifies this
      ensures Valid() && fed == old(fed) + bytes
      ensures partialLen == if old(partialLen) + |bytes| < 4 then old(partialLen) + |bytes| else 0
    {
      partial := partial[..partialLen] + bytes + partial[partialLen + |bytes|..];
      partialLen := partialLen + |bytes|;
      TotalOfPrefix(fed + bytes, fed, words);
      fed := fed + bytes;
      if partialLen == 4 {
        AddPartial();
      }
    }

    /** Add the filled partial word. */
    method AddPartial()
      requires |partial| == 4 && partialLen == 4 && |fed| == 4 * words + 4 && fed[4 * words..] == partial
      requires sum == Canonical(TotalOf(fed, words))
      modifies `sum, `partialLen, `words
      ensures Valid() && partialLen == 0
    {
      assert forall i :: 0 <= i < 4 ==> fed[4 * words + i] == partial[i];
      CombineIsCanonical(TotalOf(fed, words), Word(partial, 0));
      assert Word(partial, 0) == Word(fed, words);
      sum := Combine(sum, Word(partial, 0));
      words := words + 1;
      partialLen := 0;
    }

    /** Add the whole words of `rest`, and keep what is left. */
    method AddRest(rest: seq<Byte>)
      requires Valid() && partialLen == 0
      modifies this
      ensures Valid() && fed == old(fed) + rest
    {
      var whole := |rest| / 4;
      AddWords(fed, words, rest, whole);
      sum := Accumulate(rest[..4 * whole], sum);
      var tail := rest[4 * whole..];
      partial := tail + partial[|tail|..];
      partialLen := |tail|;
      fed, words := fed + rest, words + whole;
    }

    /** `Canonical(Total(fed))`, once no byte waits. */
    method Finish() returns (total: U32)
      requires Valid() && |fed| % 4 == 0
      ensures total == Canonical(Total(fed)) == WordByWord(fed, |fed| / 4, 0)
    {
      DeferredCarriesAreExact(fed, |fed| / 4, 0);
      total := sum;
    }
  }

  /** Whole words added after whole words. */
  lemma AddWords(fed: seq<Byte>, words: nat, rest: seq<Byte>, whole: nat)
    requires |fed| == 4 * words && 4 * whole <= |rest|
    ensures Canonical(Canonical(TotalOf(fed, words)) + Total(rest[..4 * whole])) == Canonical(TotalOf(fed + rest, words + whole))
  {
    TotalOfSum(fed, words, rest, whole);
    TotalOfPrefix(rest[..4 * whole], rest, whole);
    CanonicalAdd(TotalOf(fed, words), Total(rest[..4 * whole]));
  }

  /** However a word-aligned byte string is cut into pieces, its running sum is the sum of
      the whole at once. */
  method SumPieces(pieces: seq<seq<Byte>>) returns (total: U32)
    requires |Concat(pieces)| % 4 == 0
    ensures total == Canonical(Total(Concat(pieces))) == WordByWord(Concat(pieces), |Concat(pieces)| / 4, 0)
  {
    var running := new Running();
    for i := 0 to |pieces|
      invariant fresh(running) && running.Valid() && running.fed == Concat(pieces[..i])
    {
      ConcatOne(pieces[..i], pieces[i]);
      assert pieces[..i + 1] == pieces[..i] + [pieces[i]];
      running.Update(pieces[i]);
    }
    assert pieces[..|pieces|] == pieces;
    total := running.Finish();
  }
}

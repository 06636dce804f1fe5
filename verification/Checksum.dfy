/** The ones'-complement checksum (section 4.4.2.7 and Appendix J of the FITS Standard 4.0). */
module Checksum {
  import opened Bytes

  /** All ones, negative zero: the modulus of the sum. */
  const ONES: nat := 0xFFFF_FFFF

  /** So few words that their sum and a 32-bit carry stay below 2^64. */
  const WORDS_PER_FOLD: nat := 0x8000_0000

  const ASCII_ZERO: Byte := 0x30

  /** Sixteen `0` characters, which a signature later replaces. */
  const PLACEHOLDER: seq<Byte> := seq(16, _ => ASCII_ZERO)

  // ---- What the sum is ----

  /** The big-endian word at word `i` of `bytes`. */
  function Word(bytes: seq<Byte>, i: nat): U32
    requires 4 * i + 4 <= |bytes|
  {
    0x100_0000 * bytes[4 * i] as int + 0x1_0000 * bytes[4 * i + 1] as int
    + 0x100 * bytes[4 * i + 2] as int + bytes[4 * i + 3]
  }

  /** The total of the first `n` words of `bytes`, no carry folded. */
  ghost function TotalOf(bytes: seq<Byte>, n: nat): nat
    requires 4 * n <= |bytes|
  {
    if n == 0 then 0 else TotalOf(bytes, n - 1) + Word(bytes, n - 1)
  }

  /** The total of the words of `bytes`. */
  ghost function Total(bytes: seq<Byte>): nat {
    TotalOf(bytes, |bytes| / 4)
  }

  /** `total` reduced modulo 2^32 - 1, save that a multiple above zero becomes 2^32 - 1 itself. */
  ghost function Canonical(total: nat): (sum: U32)
    ensures sum == 0 <==> total == 0
  {
    if total <= ONES then total else Canonical(total - ONES)
  }

  lemma {:induction false} TotalOfPrefix(a: seq<Byte>, b: seq<Byte>, n: nat)
    requires 4 * n <= |a| && 4 * n <= |b| && a[..4 * n] == b[..4 * n]
    ensures TotalOf(a, n) == TotalOf(b, n)
  {
    if n > 0 {
      assert a[..4 * n - 4] == a[..4 * n][..4 * n - 4] == b[..4 * n - 4];
      TotalOfPrefix(a, b, n - 1);
      assert forall i :: 4 * n - 4 <= i < 4 * n ==> a[i] == a[..4 * n][i] == b[i];
    }
  }

  lemma {:induction false} TotalOfSum(a: seq<Byte>, words: nat, b: seq<Byte>, n: nat)
    requires |a| == 4 * words && 4 * n <= |b|
    ensures TotalOf(a + b, words + n) == TotalOf(a, words) + TotalOf(b, n)
  {
    if n == 0 {
      TotalOfPrefix(a + b, a, words);
    } else {
      TotalOfSum(a, words, b, n - 1);
      assert Word(a + b, words + n - 1) == Word(b, n - 1);
    }
  }

  /** The total of whole words and more is the sum of the totals. */
  lemma TotalAppend(a: seq<Byte>, b: seq<Byte>)
    requires |a| % 4 == 0
    ensures Total(a + b) == Total(a) + Total(b)
  {
    TotalOfSum(a, |a| / 4, b, |b| / 4);
  }

  /** Folding early changes nothing. */
  lemma {:induction false} CanonicalAdd(a: nat, b: nat)
    ensures Canonical(Canonical(a) + b) == Canonical(a + b)
  {
    if a > ONES {
      CanonicalAdd(a - ONES, b);
    }
  }

  /** Whole turns of the modulus change nothing short of zero. */
  lemma {:induction false} CanonicalTurns(total: nat, turns: nat)
    requires total > 0
    ensures Canonical(total + turns * ONES) == Canonical(total)
  {
    if turns > 0 {
      CanonicalTurns(total, turns - 1);
      assert total + turns * ONES == total + (turns - 1) * ONES + ONES;
    }
  }

  /** A total and what its representative lacks of all ones sum to all ones. */
  lemma {:induction false} CanonicalCloses(total: nat)
    requires total > 0
    ensures Canonical(total + (ONES - Canonical(total))) == ONES
  {
    if total > ONES {
      CanonicalCloses(total - ONES);
    }
  }

  // ---- Adding ----

  /** The wrapping 32-bit sum, and whether it carried. */
  function OverflowingAdd(left: U32, right: U32): (U32, bool) {
    var sum := left + right;
    if sum > ONES then (sum - ONES - 1, true) else (sum, false)
  }

  /** The wrapping 32-bit sum with its carry added back. */
  function Combine(left: U32, right: U32): U32 {
    var (sum, carry) := OverflowingAdd(left, right);
    OverflowingAdd(sum, if carry then 1 else 0).0
  }

  lemma {:induction false} CombineIsCanonical(total: nat, right: U32)
    ensures Combine(Canonical(total), right) == Canonical(total + right)
  {
    CanonicalAdd(total, right);
  }

  /** Ones'-complement addition a word at a time, from `seed` over the first `n` words. */
  function WordByWord(bytes: seq<Byte>, n: nat, seed: U32): U32
    requires 4 * n <= |bytes|
  {
    if n == 0 then seed else Combine(WordByWord(bytes, n - 1, seed), Word(bytes, n - 1))
  }

  /** Deferring every carry gives the word-by-word sum, whatever the seed. */
  lemma {:induction false} DeferredCarriesAreExact(bytes: seq<Byte>, n: nat, seed: U32)
    requires 4 * n <= |bytes|
    ensures WordByWord(bytes, n, seed) == Canonical(seed + TotalOf(bytes, n))
  {
    if n > 0 {
      DeferredCarriesAreExact(bytes, n - 1, seed);
      CombineIsCanonical(seed + TotalOf(bytes, n - 1), Word(bytes, n - 1));
    }
  }

  /** The 32-bit number `start` leaves when its high half keeps being added to its low half. */
  method Fold(start: U64) returns (sum: U32)
    ensures sum == Canonical(start)
  {
    var total := start;
    while total > ONES
      invariant 0 <= total < 0x1_0000_0000_0000_0000
      invariant Canonical(total) == Canonical(start)
      decreases total
    {
      var folded := total % 0x1_0000_0000 + total / 0x1_0000_0000;
      CanonicalTurns(folded, total / 0x1_0000_0000);
      total := folded;
    }
    sum := total;
  }

  /** The sum of `bytes` added to `seed`: a block's words add to a 64-bit total with no
      carry folded, which the `U64` of `total` shows never overflows, then fold at once. */
  method Accumulate(bytes: seq<Byte>, seed: U32) returns (sum: U32)
    requires |bytes| % 4 == 0
    ensures sum == Canonical(seed + Total(bytes))
  {
    sum := seed;
    var words := |bytes| / 4;
    var start := 0;
    while start < words
      invariant 0 <= start <= words
      invariant sum == Canonical(seed + TotalOf(bytes, start))
    {
      var end := Min(start + WORDS_PER_FOLD, words);
      var total: U64 := sum;
      for word := start to end
        invariant total == sum + TotalOf(bytes, word) - TotalOf(bytes, start)
        invariant sum <= total <= ONES + (word - start) * ONES
      {
        total := total + Word(bytes, word);
      }
      CanonicalAdd(seed + TotalOf(bytes, start), total - sum);
      sum := Fold(total);
      start := end;
    }
  }

  // ---- Encoding ----

  /** The punctuation between the ASCII digits, capitals and small letters. */
  const EXCLUDE: seq<int> :=
    [0x3a, 0x3b, 0x3c, 0x3d, 0x3e, 0x3f, 0x40, 0x5b, 0x5c, 0x5d, 0x5e, 0x5f, 0x60]

  predicate IsPunctuation(c: int) {
    0x3a <= c <= 0x40 || 0x5b <= c <= 0x60
  }

  predicate IsAlphanumeric(c: int) {
    0x30 <= c <= 0x39 || 0x41 <= c <= 0x5a || 0x61 <= c <= 0x7a
  }

  /** The punctuation a character that only rises has yet to pass. */
  function Above(c: int): nat {
    Max(0, Min(7, 0x41 - c)) + Max(0, Min(6, 0x61 - c))
  }

  /** The punctuation a character that only falls has yet to pass. */
  function Below(c: int): nat {
    Max(0, Min(7, c - 0x39)) + Max(0, Min(6, c - 0x5a))
  }

  /** The fewest steps apart, one character up and the other down, that leave neither
      punctuation. */
  function Nudges(up: int, down: int): nat
    decreases Above(up) + Below(down)
  {
    if IsPunctuation(up) || IsPunctuation(down) then 1 + Nudges(up + 1, down - 1) else 0
  }

  /** Two characters up to three apart come out of their nudges as letters or digits. */
  lemma {:induction false} NudgedIsAlphanumeric(up: int, down: int, start: int, rest: int)
    requires 0x30 <= start <= 0x6f && 0 <= rest <= 3
    requires up + down == 2 * start + rest && up - start >= rest && down >= 0x30
    requires start + rest <= 0x39 || 0x41 <= start <= 0x57 || 0x61 <= start ==> down == start
    requires start <= 0x40 ==> up <= 0x4a
    requires start >= 0x58 ==> up <= 0x72 && down >= 0x4f
    ensures IsAlphanumeric(up + Nudges(up, down)) && IsAlphanumeric(down - Nudges(up, down))
    decreases Above(up) + Below(down)
  {
    if IsPunctuation(up) || IsPunctuation(down) {
      NudgedIsAlphanumeric(up + 1, down - 1, start, rest);
    }
  }

  /** The byte `i` of the big-endian form of `sum`. */
  function Lane(sum: U32, i: nat): Byte
    requires i < 4
  {
    match i
    case 0 => sum / 0x100_0000
    case 1 => sum / 0x1_0000 % 0x100
    case 2 => sum / 0x100 % 0x100
    case _ => sum % 0x100
  }

  lemma LanesAreTheWord(sum: U32)
    ensures 0x100_0000 * Lane(sum, 0) as int + 0x1_0000 * Lane(sum, 1) as int + 0x100 * Lane(sum, 2) as int
            + Lane(sum, 3) == sum
  {
  }

  /** Four characters, equal but for the remainder on the first, each pair nudged off
      punctuation: what one byte of the complement becomes. They balance: letters and
      digits that sum to the byte and four ASCII zeros. */
  function Column(byte: Byte): (chars: seq<Byte>)
    ensures |chars| == 4 && forall j :: 0 <= j < 4 ==> IsAlphanumeric(chars[j])
    ensures chars[0] as int + chars[1] as int + chars[2] as int + chars[3] as int == byte as int + 4 * 0x30
  {
    var quotient := byte / 4 + 0x30;
    var remainder := byte % 4;
    NudgedIsAlphanumeric(quotient + remainder, quotient, quotient, remainder);
    NudgedIsAlphanumeric(quotient, quotient, quotient, 0);
    var first := Nudges(quotient + remainder, quotient);
    var second := Nudges(quotient, quotient);
    [quotient + remainder + first, quotient - first, quotient + second, quotient - second]
  }

  /** Character `j` of column `i` at `4j + i`, then rotated one to the right. */
  function Interleaved(columns: seq<seq<Byte>>): (chars: seq<Byte>)
    requires |columns| == 4 && forall i :: 0 <= i < 4 ==> |columns[i]| == 4
    ensures |chars| == 16
    ensures forall i, j :: 0 <= i < 4 && 0 <= j < 4 ==> chars[(4 * j + i + 1) % 16] == columns[i][j]
  {
    var (a, b, c, d) := (columns[0], columns[1], columns[2], columns[3]);
    [d[3], a[0], b[0], c[0], d[0], a[1], b[1], c[1], d[1], a[2], b[2], c[2], d[2], a[3], b[3], c[3]]
  }

  /** Four interleaved columns, rotated right by one. */
  function Encoded(sum: U32): (chars: seq<Byte>)
    ensures |chars| == 16
  {
    Interleaved(Columns(ONES - sum))
  }

  function Columns(complement: U32): (columns: seq<seq<Byte>>)
    ensures |columns| == 4 && forall i :: 0 <= i < 4 ==> columns[i] == Column(Lane(complement, i))
  {
    [Column(Lane(complement, 0)), Column(Lane(complement, 1)), Column(Lane(complement, 2)), Column(Lane(complement, 3))]
  }

  /** Every character the encoder gives is a letter or a digit, for every sum. */
  lemma EncodedIsAlphanumeric(sum: U32)
    ensures forall p :: 0 <= p < 16 ==> IsAlphanumeric(Encoded(sum)[p])
  {
    InterleavedKeeps(Columns(ONES - sum));
  }

  lemma InterleavedKeeps(columns: seq<seq<Byte>>)
    requires |columns| == 4 && forall i :: 0 <= i < 4 ==> |columns[i]| == 4
    requires forall i, j :: 0 <= i < 4 && 0 <= j < 4 ==> IsAlphanumeric(columns[i][j])
    ensures forall p :: 0 <= p < 16 ==> IsAlphanumeric(Interleaved(columns)[p])
  {
  }

  /** `up` and `down` lie on the way to where their nudges end. */
  ghost predicate OnTheWay(up: int, down: int, endUp: int, endDown: int) {
    up + Nudges(up, down) == endUp && down - Nudges(up, down) == endDown
  }

  /** One pair against one excluded character. */
  method NudgePair(up: int, down: int, e: nat, ghost endUp: int, ghost endDown: int)
    returns (newUp: int, newDown: int, changed: bool)
    requires e < |EXCLUDE| && OnTheWay(up, down, endUp, endDown)
    ensures OnTheWay(newUp, newDown, endUp, endDown)
    ensures changed <==> up == EXCLUDE[e] || down == EXCLUDE[e]
    ensures if changed then Nudges(newUp, newDown) + 1 == Nudges(up, down) else newUp == up && newDown == down
  {
    newUp, newDown, changed := up, down, false;
    if up == EXCLUDE[e] || down == EXCLUDE[e] {
      assert IsPunctuation(EXCLUDE[e]);
      newUp, newDown, changed := up + 1, down - 1, true;
    }
  }

  /** The nudging loop on the characters of one byte ends, with each pair moved apart by
      the fewest steps. */
  method NudgeColumn(byte: Byte) returns (ch: seq<Byte>)
    ensures ch == Column(byte)
  {
    var quotient := byte / 4 + 0x30;
    ghost var column := Column(byte);
    var a, b, c, d := NudgePairs(quotient + byte % 4, quotient, quotient, quotient);
    assert a == column[0] && b == column[1] && c == column[2] && d == column[3];
    var a', b', c', d': Byte := a, b, c, d;
    ch := [a', b', c', d'];
  }

  method NudgePairs(a0: int, b0: int, c0: int, d0: int) returns (a: int, b: int, c: int, d: int)
    ensures a == a0 + Nudges(a0, b0) && b == b0 - Nudges(a0, b0)
    ensures c == c0 + Nudges(c0, d0) && d == d0 - Nudges(c0, d0)
  {
    a, b, c, d := a0, b0, c0, d0;
    ghost var ends := [a0 + Nudges(a0, b0), b0 - Nudges(a0, b0), c0 + Nudges(c0, d0), d0 - Nudges(c0, d0)];
    var changed := true;
    while changed
      invariant OnTheWay(a, b, ends[0], ends[1]) && OnTheWay(c, d, ends[2], ends[3])
      invariant !changed ==> Clear([a, b, c, d], |EXCLUDE|)
      decreases Nudges(a, b) + Nudges(c, d), changed
    {
      changed := false;
      ghost var left := Nudges(a, b) + Nudges(c, d);
      for e := 0 to |EXCLUDE|
        invariant OnTheWay(a, b, ends[0], ends[1]) && OnTheWay(c, d, ends[2], ends[3])
        invariant if changed then Nudges(a, b) + Nudges(c, d) < left
                  else Nudges(a, b) + Nudges(c, d) == left && Clear([a, b, c, d], e)
      {
        var first, second;
        a, b, first := NudgePair(a, b, e, ends[0], ends[1]);
        c, d, second := NudgePair(c, d, e, ends[2], ends[3]);
        changed := changed || first || second;
      }
    }
    ClearIsSettled([a, b, c, d]);
    assert [a, b, c, d][0] == a && [a, b, c, d][1] == b && [a, b, c, d][2] == c && [a, b, c, d][3] == d;
  }

  /** No character of `chars` is one of the first `e` excluded ones. */
  predicate Clear(chars: seq<int>, e: nat)
    requires e <= |EXCLUDE|
  {
    forall i, k :: 0 <= i < |chars| && 0 <= k < e ==> chars[i] != EXCLUDE[k]
  }

  lemma ClearIsSettled(chars: seq<int>)
    requires Clear(chars, |EXCLUDE|)
    ensures forall i :: 0 <= i < |chars| ==> !IsPunctuation(chars[i])
  {
    forall i | 0 <= i < |chars| ensures !IsPunctuation(chars[i]) {
      PunctuationIsExcluded(chars[i]);
    }
  }

  lemma PunctuationIsExcluded(c: int)
    ensures IsPunctuation(c) ==> exists k :: 0 <= k < |EXCLUDE| && EXCLUDE[k] == c
  {
    if 0x3a <= c <= 0x40 {
      assert EXCLUDE[c - 0x3a] == c;
    } else if 0x5b <= c <= 0x60 {
      assert EXCLUDE[c - 0x54] == c;
    }
  }

  /** Loop by loop to `Encoded(sum)`: offsets halved, characters nudged, columns interleaved and
      rotated. */
  method Encode(sum: U32) returns (asc: seq<Byte>)
    ensures asc == Encoded(sum)
  {
    var complement: U32 := ONES - sum;
    asc := PLACEHOLDER;
    ghost var columns := Columns(complement);
    for i := 0 to 4
      invariant Placed(asc, columns, i)
    {
      var ch := NudgeColumn(Lane(complement, i));
      PlaceColumn(asc, columns, i);
      asc := asc[i := ch[0]][4 + i := ch[1]][8 + i := ch[2]][12 + i := ch[3]];
    }
    RotatedIsInterleaved(asc, columns);
    asc := asc[15..] + asc[..15];
  }

  /** The first `n` columns lie in `asc`, not yet rotated. */
  ghost predicate Placed(asc: seq<Byte>, columns: seq<seq<Byte>>, n: nat) {
    && |asc| == 16 && |columns| == 4 && n <= 4
    && (forall i :: 0 <= i < 4 ==> |columns[i]| == 4)
    && forall i, j :: 0 <= i < n && 0 <= j < 4 ==> asc[4 * j + i] == columns[i][j]
  }

  lemma PlaceColumn(asc: seq<Byte>, columns: seq<seq<Byte>>, i: nat)
    requires Placed(asc, columns, i) && i < 4
    ensures var ch := columns[i];
            Placed(asc[i := ch[0]][4 + i := ch[1]][8 + i := ch[2]][12 + i := ch[3]], columns, i + 1)
  {
  }

  lemma RotatedIsInterleaved(asc: seq<Byte>, columns: seq<seq<Byte>>)
    requires Placed(asc, columns, 4)
    ensures asc[15..] + asc[..15] == Interleaved(columns)
  {
    assert forall i, j :: 0 <= i < 4 && 0 <= j < 4 ==> asc[4 * j + i] == columns[i][j];
  }

  // ---- Signing ----

  /** `bytes` with `value` written over them at `at`. */
  function Patch(bytes: seq<Byte>, at: nat, value: seq<Byte>): (patched: seq<Byte>)
    requires at + |value| <= |bytes|
    ensures |patched| == |bytes|
  {
    bytes[..at] + value + bytes[at + |value|..]
  }

  /** The sum of every fourth of 16 bytes from `at` on. */
  function Fourths(value: seq<Byte>, at: nat): nat
    requires |value| == 16 && at < 4
  {
    value[at] as int + value[at + 4] as int + value[at + 8] as int + value[at + 12] as int
  }

  function ColumnSum(column: seq<Byte>): nat
    requires |column| == 4
  {
    column[0] as int + column[1] as int + column[2] as int + column[3] as int
  }

  /** Where it lies in a record, `value` weighs `complement` more than the placeholder. */
  ghost predicate Outweighs(value: seq<Byte>, complement: U32) {
    && |value| == 16
    && 0x100_0000 * Fourths(value, 1) + 0x1_0000 * Fourths(value, 2) + 0x100 * Fourths(value, 3) + Fourths(value, 0)
       == 4 * 0x3030_3030 + complement
  }

  /** Interleaved, columns that sum to the bytes of `complement` and four ASCII zeros do. */
  lemma InterleavedOutweighs(columns: seq<seq<Byte>>, complement: U32)
    requires |columns| == 4 && forall i :: 0 <= i < 4 ==> |columns[i]| == 4
    requires forall i :: 0 <= i < 4 ==> ColumnSum(columns[i]) == Lane(complement, i) as int + 4 * 0x30
    ensures Outweighs(Interleaved(columns), complement)
  {
    var chars := Interleaved(columns);
    assert Fourths(chars, 1) == ColumnSum(columns[0]) && Fourths(chars, 2) == ColumnSum(columns[1])
      && Fourths(chars, 3) == ColumnSum(columns[2]) && Fourths(chars, 0) == ColumnSum(columns[3]);
    LanesAreTheWord(complement);
  }

  lemma EncodedOutweighs(sum: U32)
    ensures Outweighs(Encoded(sum), ONES - sum)
  {
    InterleavedOutweighs(Columns(ONES - sum), ONES - sum);
  }

  /** Past the words in which two byte strings differ, their totals keep their difference. */
  lemma {:induction false} TotalOfSuffix(a: seq<Byte>, b: seq<Byte>, from: nat, n: nat)
    requires |a| == |b| && from <= n && 4 * n <= |a|
    requires a[4 * from..] == b[4 * from..]
    ensures TotalOf(a, n) - TotalOf(a, from) == TotalOf(b, n) - TotalOf(b, from)
  {
    if from < n {
      TotalOfSuffix(a, b, from, n - 1);
      assert forall i :: 4 * from <= i < |a| ==> a[i] == a[4 * from..][i - 4 * from] == b[i];
    }
  }

  /** The five words a value at byte 12 of a record reaches into: its first byte ends the
      one at `m`, its last three start the one at `m + 4`. */
  lemma WordsOfValue(bytes: seq<Byte>, m: nat, value: seq<Byte>)
    requires 4 * m + 20 <= |bytes| && |value| == 16
    requires bytes[4 * m + 3..4 * m + 19] == value
    ensures TotalOf(bytes, m + 5) == TotalOf(bytes, m) + WordEndsAt(bytes, 4 * m)
            + 0x100_0000 * Fourths(value, 1) + 0x1_0000 * Fourths(value, 2) + 0x100 * Fourths(value, 3) + Fourths(value, 0)
  {
    assert forall i :: 0 <= i < 16 ==> value[i] == bytes[4 * m + 3 + i];
    assert TotalOf(bytes, m + 5) == TotalOf(bytes, m + 4) + Word(bytes, m + 4);
    assert TotalOf(bytes, m + 3) == TotalOf(bytes, m + 2) + Word(bytes, m + 2);
    assert TotalOf(bytes, m + 1) == TotalOf(bytes, m) + Word(bytes, m);
  }

  /** What the bytes around a value add to the words it reaches into. */
  function WordEndsAt(bytes: seq<Byte>, at: nat): nat
    requires at + 20 <= |bytes|
  {
    0x100_0000 * bytes[at] as int + 0x1_0000 * bytes[at + 1] as int + 0x100 * bytes[at + 2] as int
    + bytes[at + 19] as int
  }

  /** Such a value in the place of one that weighs as the placeholder does adds the
      complement to the total. */
  lemma TotalOfPatch(bytes: seq<Byte>, m: nat, value: seq<Byte>, complement: U32)
    requires 4 * m + 20 <= |bytes| && Outweighs(value, complement)
    requires Outweighs(bytes[4 * m + 3..4 * m + 19], 0)
    ensures Total(Patch(bytes, 4 * m + 3, value)) == Total(bytes) + complement
  {
    var patched := Patch(bytes, 4 * m + 3, value);
    PatchLeaves(bytes, 4 * m + 3, value);
    WordsOfValue(bytes, m, bytes[4 * m + 3..4 * m + 19]);
    WordsOfValue(patched, m, value);
    TotalOfPrefix(patched, bytes, m);
    TotalOfSuffix(patched, bytes, m + 5, |bytes| / 4);
  }

  /** A patch changes the 16 bytes it covers and no other. */
  lemma PatchLeaves(bytes: seq<Byte>, at: nat, value: seq<Byte>)
    requires at >= 3 && |value| == 16 && at + 17 <= |bytes|
    ensures var patched := Patch(bytes, at, value);
            && patched[at..at + 16] == value
            && patched[..at - 3] == bytes[..at - 3] && patched[at + 17..] == bytes[at + 17..]
            && WordEndsAt(patched, at - 3) == WordEndsAt(bytes, at - 3)
  {
  }

  lemma {:induction false} TotalIsPositive(bytes: seq<Byte>, i: nat, n: nat)
    requires i < 4 * n <= |bytes| && bytes[i] > 0
    ensures TotalOf(bytes, n) > 0
  {
    if i < 4 * n - 4 {
      TotalIsPositive(bytes, i, n - 1);
    } else {
      assert Word(bytes, n - 1) > 0;
    }
  }

  /** Adding what the sum of two parts lacks of all ones to one of them closes it. */
  lemma ComplementCloses(total: nat, dataSum: U32)
    requires total > 0
    ensures var lacking := ONES - Combine(Canonical(total), dataSum);
            Combine(Canonical(total + lacking), dataSum) == ONES
  {
    var lacking := ONES - Combine(Canonical(total), dataSum);
    CombineIsCanonical(total, dataSum);
    CombineIsCanonical(total + lacking, dataSum);
    CanonicalCloses(total + dataSum);
  }

  lemma PlaceholderWeighs()
    ensures Outweighs(PLACEHOLDER, 0)
  {
  }

  lemma ValueIsPositive(header: seq<Byte>, record: nat)
    requires record + 27 <= 4 * (|header| / 4) && header[record + 11..record + 27] == PLACEHOLDER
    ensures Total(header) > 0
  {
    assert header[record + 11] == header[record + 11..record + 27][0] == PLACEHOLDER[0];
    TotalIsPositive(header, record + 11, |header| / 4);
  }

  /** A value that outweighs the placeholder by the sum's complement closes the sum. */
  lemma OutweighingCloses(header: seq<Byte>, record: nat, dataSum: U32, value: seq<Byte>)
    requires |header| % 4 == 0 && record % 4 == 0 && record + 28 <= |header|
    requires header[record + 11..record + 27] == PLACEHOLDER
    requires Outweighs(value, ONES - Combine(Canonical(Total(header)), dataSum))
    ensures Combine(Canonical(Total(Patch(header, record + 11, value))), dataSum) == ONES
  {
    var m := record / 4 + 2;
    assert 4 * m + 3 == record + 11;
    PlaceholderWeighs();
    TotalOfPatch(header, m, value, ONES - Combine(Canonical(Total(header)), dataSum));
    ValueIsPositive(header, record);
    ComplementCloses(Total(header), dataSum);
  }

  /** Sixteen zeros, as characters. */
  predicate IsPlaceholder(value: seq<Byte>) {
    |value| == 16 && forall i :: 0 <= i < 16 ==> value[i] == ASCII_ZERO
  }

  lemma PlaceholderIs(value: seq<Byte>)
    ensures IsPlaceholder(value) <==> value == PLACEHOLDER
  {
    if IsPlaceholder(value) {
      assert forall i :: 0 <= i < 16 ==> value[i] == PLACEHOLDER[i];
    }
  }

  /** Writing the encoded sum over the placeholder of a `CHECKSUM` record brings the sum of
      the header and its data to all ones, for every header and every data sum. */
  lemma PatchClosesTheSum(header: seq<Byte>, record: nat, dataSum: U32)
    requires |header| % 4 == 0 && record % 4 == 0 && record + 28 <= |header|
    requires header[record + 11..record + 27] == PLACEHOLDER
    ensures var hduSum := Combine(Canonical(Total(header)), dataSum);
            Combine(Canonical(Total(Patch(header, record + 11, Encoded(hduSum)))), dataSum) == ONES
  {
    var hduSum := Combine(Canonical(Total(header)), dataSum);
    EncodedOutweighs(hduSum);
    OutweighingCloses(header, record, dataSum, Encoded(hduSum));
  }
}

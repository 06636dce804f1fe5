/** A header rendered to its blocks, signed so that the whole unit sums to negative zero
    (section 4.4.2.7 and Appendix J of the FITS Standard 4.0). */
module HeaderRender {
  import opened Bytes
  import opened Checksum
  import opened Decimals
  import opened HeaderModel
  import opened Headers
  import opened NameIndex

  const CARD_SIZE: nat := 80
  const RECORDS_PER_BLOCK: nat := 36
  const BLOCK_SIZE: nat := 2880

  const BLANK_BYTE: Byte := 0x20
  const QUOTE: Byte := 0x27

  // ---- One text card ----

  function Ascii(text: string): (bytes: seq<Byte>)
    requires IsRestrictedAscii(text)
    ensures |bytes| == |text|
  {
    seq(|text|, i requires 0 <= i < |text| => text[i] as int)
  }

  function Blanks(n: nat): (blanks: seq<Byte>)
    ensures |blanks| == n
  {
    seq(n, i => BLANK_BYTE)
  }

  /** `bytes` filled with blanks to `width`. */
  function Filled(bytes: seq<Byte>, width: nat): (filled: seq<Byte>)
    requires |bytes| <= width
    ensures |filled| == width && filled[..|bytes|] == bytes
  {
    bytes + Blanks(width - |bytes|)
  }

  /** The 10 bytes before a card's value. */
  function Indicator(keyword: string): (lead: seq<Byte>)
    requires |keyword| <= 8 && IsRestrictedAscii(keyword)
    ensures |lead| == 10
  {
    Filled(Ascii(keyword), 8) + Ascii("= ")
  }

  function CommentLen(comment: Option<string>): nat {
    if comment.Some? then 3 + |comment.value| else 0
  }

  function CommentBytes(comment: Option<string>): (bytes: seq<Byte>)
    requires comment.Some? ==> IsRestrictedAscii(comment.value)
    ensures |bytes| == CommentLen(comment)
  {
    if comment.Some? then Ascii(" / ") + Ascii(comment.value) else []
  }

  /** The text holds no quote, and fits one record with room for its continuation flag. */
  predicate IsShortText(text: string) {
    0 < |text| <= 16 && IsRestrictedAscii(text) && '\'' !in text
  }

  /** Whether a card goes on to a `CONTINUE` record: its quoted text and its comment are past
      one record. */
  predicate IsChain(text: string, comment: Option<string>) {
    10 + 2 + |text| + CommentLen(comment) > CARD_SIZE
  }

  /** The card of a short text value: quoted from column 11 and filled to 8 characters, its
      comment after it; or its quoted text alone and the comment on a record of its own. */
  function TextCard(keyword: string, text: string, comment: Option<string>): (r: Result<seq<Byte>, HeaderError>)
    requires |keyword| <= 8 && IsRestrictedAscii(keyword) && IsShortText(text)
    ensures r.Ok? ==> |r.value| == CARD_SIZE || |r.value| == 2 * CARD_SIZE
  {
    if comment.Some? && !IsRestrictedAscii(comment.value) then
      Err(InvalidAscii)
    else if IsChain(text, comment) then
      if 10 + 2 + CommentLen(comment) > CARD_SIZE then
        Err(HeaderCardTooLong(10 + 2 + CommentLen(comment)))
      else
        var first := Indicator(keyword) + [QUOTE] + Ascii(text) + Ascii("&'");
        var second := Ascii("CONTINUE  ''") + CommentBytes(comment);
        Ok(Filled(first, CARD_SIZE) + Filled(second, CARD_SIZE))
    else
      var value := [QUOTE] + Ascii(text) + Blanks(Max(8 - |text|, 0)) + [QUOTE];
      if 10 + |value| + CommentLen(comment) > CARD_SIZE then
        Err(HeaderCardTooLong(10 + |value| + CommentLen(comment)))
      else
        Ok(Filled(Indicator(keyword) + value + CommentBytes(comment), CARD_SIZE))
  }

  /** The value of a text card starts at its byte 11, one record or two. */
  lemma TextAt(keyword: string, text: string, comment: Option<string>)
    requires |keyword| <= 8 && IsRestrictedAscii(keyword) && IsShortText(text)
    requires TextCard(keyword, text, comment).Ok?
    ensures TextCard(keyword, text, comment).value[11..11 + |text|] == Ascii(text)
  {
    var card := TextCard(keyword, text, comment).value;
    var lead := Indicator(keyword) + [QUOTE];
    assert lead + Ascii(text) <= card by {
      if IsChain(text, comment) {
        var first := lead + Ascii(text) + Ascii("&'");
        assert first <= Filled(first, CARD_SIZE) <= card;
      } else {
        var value := [QUOTE] + Ascii(text) + Blanks(Max(8 - |text|, 0)) + [QUOTE];
        assert Indicator(keyword) + value + CommentBytes(comment) <= card;
        assert lead + Ascii(text) <= Indicator(keyword) + value;
      }
    }
    assert (lead + Ascii(text))[11..] == Ascii(text);
  }

  /** Exactly when a short text renders: its comment fits after the filled value, or the card
      goes on and the comment fits a record of its own. A text of fewer than 8 characters is
      refused with a comment between the two, though a longer comment is not. */
  lemma TextRenders(keyword: string, text: string, comment: string)
    requires |keyword| <= 8 && IsRestrictedAscii(keyword) && IsShortText(text) && IsRestrictedAscii(comment)
    ensures TextCard(keyword, text, Some(comment)).Ok? <==>
              |comment| <= 65 - Max(|text|, 8) || 65 - |text| < |comment| <= 65
  {
  }

  /** A shorter comment can be refused where a longer one renders. */
  lemma LongerCommentRenders()
    ensures forall comment: string :: |comment| == 58 && IsRestrictedAscii(comment) ==> TextCard("DATASUM", "0", Some(comment)).Err?
    ensures forall comment: string :: |comment| == 65 && IsRestrictedAscii(comment) ==> TextCard("DATASUM", "0", Some(comment)).Ok?
  {
  }

  // ---- Signed records ----

  datatype Signing = Unsigned | Placeholder | WithDataSum(sum: U32)

  const CHECKSUM := "CHECKSUM"
  const DATASUM := "DATASUM"
  const ZEROS := "0000000000000000"

  /** The value a signed record carries. */
  function SignedText(keyword: string, signing: Signing): (text: string)
    requires !signing.Unsigned?
  {
    if keyword == CHECKSUM then ZEROS
    else if signing.WithDataSum? then Decimal(signing.sum)
    else "0"
  }

  lemma SignedTextIsShort(keyword: string, signing: Signing)
    requires !signing.Unsigned?
    ensures IsShortText(SignedText(keyword, signing))
    ensures |SignedText(keyword, signing)| == 16 || |SignedText(keyword, signing)| <= 10
  {
    if keyword != CHECKSUM && signing.WithDataSum? {
      assert Tens(10) == 10_000_000_000 by {
        assert Tens(5) == 100_000;
      }
      DecimalLength(signing.sum, 10, Tens(10));
    }
  }

  function CommentOf(record: Record): Option<string> {
    if record.Valued? || record.Hierarch? then record.comment else None
  }

  /** A signed record as it renders. */
  function SignedCard(keyword: string, signing: Signing, comment: Option<string>): (r: Result<seq<Byte>, HeaderError>)
    requires !signing.Unsigned? && (keyword == CHECKSUM || keyword == DATASUM)
    ensures r.Ok? ==> |r.value| == CARD_SIZE || |r.value| == 2 * CARD_SIZE
  {
    SignedTextIsShort(keyword, signing);
    TextCard(keyword, SignedText(keyword, signing), comment)
  }

  /** The `CHECKSUM` record's value, before it is patched. */
  lemma ChecksumCard(signing: Signing, comment: Option<string>)
    requires !signing.Unsigned? && SignedCard(CHECKSUM, signing, comment).Ok?
    ensures IsPlaceholder(SignedCard(CHECKSUM, signing, comment).value[11..27])
  {
    SignedTextIsShort(CHECKSUM, signing);
    ZerosCard(comment);
  }

  lemma ZerosCard(comment: Option<string>)
    requires IsShortText(ZEROS) && IsRestrictedAscii(CHECKSUM) && TextCard(CHECKSUM, ZEROS, comment).Ok?
    ensures IsPlaceholder(TextCard(CHECKSUM, ZEROS, comment).value[11..27])
  {
    ZerosAre();
    TextAt(CHECKSUM, ZEROS, comment);
  }

  lemma ZerosAre()
    ensures |ZEROS| == 16 && IsRestrictedAscii(ZEROS) && IsPlaceholder(Ascii(ZEROS))
  {
  }

  /** What a signed record carries renders, by its keyword and its comment. */
  type Signer = (string, Option<string>) -> Result<seq<Byte>, HeaderError>

  /** How `signing` signs; nothing for an unsigned render. */
  function SignerOf(signing: Signing): Option<Signer> {
    if signing.Unsigned? then None
    else Some((keyword: string, comment: Option<string>) =>
                if keyword == CHECKSUM || keyword == DATASUM then SignedCard(keyword, signing, comment) else Err(InvalidAscii))
  }

  /** Signed records are whole cards, and the `CHECKSUM` one holds the placeholder. */
  ghost predicate SignsCards(signer: Option<Signer>) {
    signer.Some? ==> forall keyword, comment :: IsSignedCard(keyword, signer.value(keyword, comment))
  }

  predicate IsSignedCard(keyword: string, r: Result<seq<Byte>, HeaderError>) {
    r.Ok? ==> |r.value| > 0 && |r.value| % CARD_SIZE == 0 && (keyword == CHECKSUM ==> IsPlaceholder(r.value[11..27]))
  }

  lemma SignersSign(signing: Signing)
    ensures SignsCards(SignerOf(signing))
  {
    var signer := SignerOf(signing);
    if signer.Some? {
      forall keyword, comment ensures IsSignedCard(keyword, signer.value(keyword, comment)) {
        if keyword == CHECKSUM && SignedCard(CHECKSUM, signing, comment).Ok? {
          ChecksumCard(signing, comment);
        }
      }
    }
  }

  // ---- The records ----

  /** How each record renders to cards. */
  type Renderer = Record -> Result<seq<Byte>, HeaderError>

  /** Every record that renders is whole cards, at least one. */
  ghost predicate RendersCards(render: Renderer) {
    forall record :: IsCards(render(record))
  }

  predicate IsCards(r: Result<seq<Byte>, HeaderError>) {
    r.Ok? ==> |r.value| > 0 && |r.value| % CARD_SIZE == 0
  }

  /** Whether record `i` is the first so named of the two a signed render signs. */
  predicate IsSigned(records: seq<Record>, i: nat)
    requires i < |records|
  {
    && (records[i].KeywordOf() == Some(CHECKSUM) || records[i].KeywordOf() == Some(DATASUM))
    && FirstOf(records, KeywordName(records[i].KeywordOf().value), 0) == Some(i)
  }

  function RecordOut(records: seq<Record>, i: nat, signer: Option<Signer>, render: Renderer): (r: Result<seq<Byte>, HeaderError>)
    requires i < |records|
  {
    if signer.Some? && IsSigned(records, i) then signer.value(records[i].KeywordOf().value, CommentOf(records[i]))
    else render(records[i])
  }

  function Then(before: Result<seq<Byte>, HeaderError>, next: Result<seq<Byte>, HeaderError>): Result<seq<Byte>, HeaderError> {
    match before
    case Err(e) => Err(e)
    case Ok(bytes) =>
      match next
      case Err(e) => Err(e)
      case Ok(more) => Ok(bytes + more)
  }

  /** The first `k` records rendered. */
  function RecordsOut(records: seq<Record>, k: nat, signer: Option<Signer>, render: Renderer): Result<seq<Byte>, HeaderError>
    requires k <= |records|
  {
    if k == 0 then Ok([]) else Then(RecordsOut(records, k - 1, signer, render), RecordOut(records, k - 1, signer, render))
  }

  /** The signed record a header without it gets after its records. */
  function MissingOut(records: seq<Record>, keyword: string, signer: Option<Signer>): Result<seq<Byte>, HeaderError> {
    if signer == None || FirstOf(records, KeywordName(keyword), 0).Some? then Ok([]) else signer.value(keyword, None)
  }

  /** Every record rendered, signed as `signer` signs. */
  function AllOut(records: seq<Record>, signer: Option<Signer>, render: Renderer): Result<seq<Byte>, HeaderError> {
    Then(Then(RecordsOut(records, |records|, signer, render), MissingOut(records, DATASUM, signer)), MissingOut(records, CHECKSUM, signer))
  }

  function Length(r: Result<seq<Byte>, HeaderError>): nat {
    if r.Ok? then |r.value| else 0
  }

  /** Where the rendered records hold the `CHECKSUM` record. */
  function ChecksumOffset(records: seq<Record>, signer: Option<Signer>, render: Renderer): nat {
    match FirstOf(records, KeywordName(CHECKSUM), 0)
    case Some(i) => Length(RecordsOut(records, i, signer, render))
    case None => Length(RecordsOut(records, |records|, signer, render)) + Length(MissingOut(records, DATASUM, signer))
  }

  /** Where the bytes so far hold the `CHECKSUM` record, its value still the placeholder. */
  ghost predicate HoldsChecksum(out: seq<Byte>, at: Option<nat>) {
    at.Some? ==> at.value % CARD_SIZE == 0 && at.value + CARD_SIZE <= |out| && IsPlaceholder(out[at.value + 11..at.value + 27])
  }

  lemma HoldsStill(out: seq<Byte>, more: seq<Byte>, at: Option<nat>)
    requires HoldsChecksum(out, at)
    ensures HoldsChecksum(out + more, at)
  {
    if at.Some? {
      assert (out + more)[at.value + 11..at.value + 27] == out[at.value + 11..at.value + 27];
    }
  }

  lemma HoldsNow(out: seq<Byte>, card: seq<Byte>)
    requires |out| % CARD_SIZE == 0 && |card| >= CARD_SIZE && IsPlaceholder(card[11..27])
    ensures HoldsChecksum(out + card, Some(|out|))
  {
    assert (out + card)[|out| + 11..|out| + 27] == card[11..27];
  }

  lemma WholeCards(a: nat, b: nat)
    requires a % CARD_SIZE == 0 && b % CARD_SIZE == 0
    ensures (a + b) % CARD_SIZE == 0 && (b > 0 ==> b >= CARD_SIZE)
  {
  }

  /** The first `i` records are rendered, and the `CHECKSUM` record among them is known. */
  ghost predicate RenderedTo(records: seq<Record>, i: nat, signer: Option<Signer>, render: Renderer, out: seq<Byte>, at: Option<nat>, checksum: Option<nat>)
    requires i <= |records|
  {
    && RecordsOut(records, i, signer, render) == Ok(out)
    && |out| % CARD_SIZE == 0 && HoldsChecksum(out, at)
    && (at.Some? <==> signer.Some? && checksum.Some? && checksum.value < i)
    && (at.Some? ==> at.value == Length(RecordsOut(records, checksum.value, signer, render)))
  }

  /** Append every record rendered, and give where the `CHECKSUM` record is when it signs. */
  method RenderRecords(header: Header, signer: Option<Signer>, render: Renderer)
    returns (r: Result<seq<Byte>, HeaderError>, checksumAt: Option<nat>)
    requires header.Valid() && RendersCards(render) && SignsCards(signer)
    ensures r == AllOut(header.records, signer, render)
    ensures r.Ok? ==> HoldsChecksum(r.value, checksumAt) && (checksumAt.Some? <==> signer.Some?)
    ensures r.Ok? && checksumAt.Some? ==> checksumAt.value == ChecksumOffset(header.records, signer, render)
  {
    var records := header.records;
    var datasum := header.First(KeywordName(DATASUM));
    var checksum := header.First(KeywordName(CHECKSUM));
    var out := [];
    checksumAt := None;
    for i := 0 to |records|
      invariant RenderedTo(records, i, signer, render, out, checksumAt, checksum)
    {
      var card;
      card, checksumAt := RenderOne(records, i, signer, render, out, checksumAt, datasum, checksum);
      if card.Err? {
        RecordsFail(records, i + 1, signer, render);
        return card, None;
      }
      out := out + card.value;
    }
    r, checksumAt := RenderMissing(records, signer, out, checksumAt);
  }

  /** `RecordOut` for record `i`, and the offset of the signature once that record is out. */
  method RenderOne(records: seq<Record>, i: nat, signer: Option<Signer>, render: Renderer, out: seq<Byte>, at: Option<nat>,
                   datasum: Option<nat>, checksum: Option<nat>)
    returns (card: Result<seq<Byte>, HeaderError>, checksumAt: Option<nat>)
    requires i < |records| && RendersCards(render) && SignsCards(signer) && RenderedTo(records, i, signer, render, out, at, checksum)
    requires datasum == FirstOf(records, KeywordName(DATASUM), 0) && checksum == FirstOf(records, KeywordName(CHECKSUM), 0)
    ensures card == RecordOut(records, i, signer, render)
    ensures card.Ok? ==> RenderedTo(records, i + 1, signer, render, out + card.value, checksumAt, checksum)
  {
    var keyword := records[i].KeywordOf();
    checksumAt := at;
    SignsIt(records, i, datasum, checksum);
    if signer.Some? && (keyword == Some(DATASUM) || keyword == Some(CHECKSUM)) && (datasum == Some(i) || checksum == Some(i)) {
      card := signer.value(keyword.value, CommentOf(records[i]));
      assert IsSignedCard(keyword.value, signer.value(keyword.value, CommentOf(records[i])));
      if keyword == Some(CHECKSUM) && card.Ok? {
        checksumAt := Some(|out|);
      }
    } else {
      card := render(records[i]);
      assert IsCards(render(records[i]));
    }
    if card.Ok? {
      OneMore(out, card.value, at, signer.Some? && checksum == Some(i));
    }
  }

  lemma OneMore(out: seq<Byte>, card: seq<Byte>, at: Option<nat>, isChecksum: bool)
    requires |out| % CARD_SIZE == 0 && |card| % CARD_SIZE == 0 && |card| > 0 && HoldsChecksum(out, at)
    requires isChecksum ==> IsPlaceholder(card[11..27])
    ensures |out + card| % CARD_SIZE == 0 && HoldsChecksum(out + card, if isChecksum then Some(|out|) else at)
  {
    WholeCards(|out|, |card|);
    if isChecksum {
      HoldsNow(out, card);
    } else {
      HoldsStill(out, card, at);
    }
  }

  /** Comparing with both first positions finds the records that are signed. */
  lemma {:induction false} SignsIt(records: seq<Record>, i: nat, datasum: Option<nat>, checksum: Option<nat>)
    requires i < |records|
    requires datasum == FirstOf(records, KeywordName(DATASUM), 0) && checksum == FirstOf(records, KeywordName(CHECKSUM), 0)
    ensures var keyword := records[i].KeywordOf();
            && (IsSigned(records, i) <==>
                  (keyword == Some(DATASUM) || keyword == Some(CHECKSUM)) && (datasum == Some(i) || checksum == Some(i)))
            && (checksum == Some(i) ==> keyword == Some(CHECKSUM))
            && (IsSigned(records, i) && keyword == Some(CHECKSUM) ==> checksum == Some(i))
  {
    FirstHasName(records, KeywordName(CHECKSUM), checksum);
    FirstHasName(records, KeywordName(DATASUM), datasum);
  }

  lemma {:induction false} FirstHasName(records: seq<Record>, name: RecordName, at: Option<nat>)
    requires at == FirstOf(records, name, 0)
    ensures at.Some? ==> at.value < |records| && HasName(records[at.value], name)
  {
  }

  lemma {:induction false} RecordsFail(records: seq<Record>, k: nat, signer: Option<Signer>, render: Renderer)
    requires k <= |records| && RecordsOut(records, k, signer, render).Err?
    ensures RecordsOut(records, |records|, signer, render) == RecordsOut(records, k, signer, render)
    decreases |records| - k
  {
    if k < |records| {
      RecordsFail(records, k + 1, signer, render);
    }
  }

  /** Append the signed records a header without them gets. */
  method RenderMissing(records: seq<Record>, signer: Option<Signer>, before: seq<Byte>, at: Option<nat>)
    returns (r: Result<seq<Byte>, HeaderError>, checksumAt: Option<nat>)
    requires |before| % CARD_SIZE == 0 && HoldsChecksum(before, at) && SignsCards(signer)
    requires at.Some? <==> signer.Some? && FirstOf(records, KeywordName(CHECKSUM), 0).Some?
    ensures r == Then(Then(Ok(before), MissingOut(records, DATASUM, signer)), MissingOut(records, CHECKSUM, signer))
    ensures r.Ok? ==> HoldsChecksum(r.value, checksumAt) && (checksumAt.Some? <==> signer.Some?)
    ensures r.Ok? && checksumAt.Some? ==>
              checksumAt == if at.Some? then at else Some(|before| + Length(MissingOut(records, DATASUM, signer)))
  {
    checksumAt := at;
    var datasum := MissingOut(records, DATASUM, signer);
    MissingIsCards(records, DATASUM, signer);
    MissingIsCards(records, CHECKSUM, signer);
    if datasum.Err? {
      return datasum, None;
    }
    var checksum := MissingOut(records, CHECKSUM, signer);
    if checksum.Err? {
      return checksum, None;
    }
    var middle := before + datasum.value;
    WholeCards(|before|, |datasum.value|);
    HoldsStill(before, datasum.value, at);
    if at == None && signer.Some? {
      checksumAt := Some(|middle|);
      OneMore(middle, checksum.value, at, true);
    } else {
      HoldsStill(middle, checksum.value, at);
    }
    r := Ok(middle + checksum.value);
  }

  lemma {:induction false} MissingIsCards(records: seq<Record>, keyword: string, signer: Option<Signer>)
    requires SignsCards(signer)
    ensures var r := MissingOut(records, keyword, signer);
            && (r.Ok? ==> |r.value| % CARD_SIZE == 0)
            && (r.Ok? && signer.Some? && FirstOf(records, KeywordName(keyword), 0) == None ==>
                  |r.value| > 0 && (keyword == CHECKSUM ==> |r.value| >= CARD_SIZE && IsPlaceholder(r.value[11..27])))
  {
    if signer.Some? {
      assert IsSignedCard(keyword, signer.value(keyword, None));
    }
  }

  // ---- The header, whole ----

  /** How much room is left ahead of `END`: a number of cards, or all that a number of blocks
      has. */
  datatype Space = Spare(spare: nat) | Blocks(blocks: nat)

  function SpareRecords(records: nat, space: Space): Result<nat, HeaderError> {
    match space
    case Spare(spare) => Ok(spare)
    case Blocks(blocks) =>
      var needed := (records + 1 + (RECORDS_PER_BLOCK - 1)) / RECORDS_PER_BLOCK;
      if needed > blocks then Err(HeaderDoesNotFit(needed, blocks)) else Ok(blocks * RECORDS_PER_BLOCK - records - 1)
  }

  function EndCard(): (card: seq<Byte>)
    ensures |card| == CARD_SIZE
  {
    Filled(Ascii("END"), CARD_SIZE)
  }

  /** The bytes to the next block boundary. */
  function Fill(len: nat): (fill: nat)
    ensures (len + fill) % BLOCK_SIZE == 0 && fill < BLOCK_SIZE
  {
    (BLOCK_SIZE - len % BLOCK_SIZE) % BLOCK_SIZE
  }

  /** The records, blank records to fill the space, `END`, then blanks to the block boundary. */
  function Closed(records: seq<Byte>, spare: nat): (unit: seq<Byte>)
    ensures |unit| % BLOCK_SIZE == 0 && |unit| > 0 && records <= unit
    ensures |unit| == |records| + spare * CARD_SIZE + CARD_SIZE + Fill(|records| + spare * CARD_SIZE + CARD_SIZE)
  {
    var content := records + (Blanks(spare * CARD_SIZE) + EndCard());
    content + Blanks(Fill(|records| + spare * CARD_SIZE + CARD_SIZE))
  }

  /** `AllOut` closed to whole blocks with as many spare cards as `space` wants, and patched with
      its `Signature` when the signing has a data sum. */
  ghost function RenderUnit(records: seq<Record>, signing: Signing, space: Space, render: Renderer): (r: Result<seq<Byte>, HeaderError>)
    ensures r.Ok? ==> |r.value| % BLOCK_SIZE == 0 && |r.value| > 0
  {
    match AllOut(records, SignerOf(signing), render)
    case Err(e) => Err(e)
    case Ok(out) => UnitOf(out, ChecksumOffset(records, SignerOf(signing), render), signing, space)
  }

  /** The unit the rendered records make, signed at `at`. */
  ghost function UnitOf(out: seq<Byte>, at: nat, signing: Signing, space: Space): (r: Result<seq<Byte>, HeaderError>)
    ensures r.Ok? ==> |r.value| % BLOCK_SIZE == 0 && |r.value| > 0
  {
    match SpareRecords(|out| / CARD_SIZE, space)
    case Err(e) => Err(e)
    case Ok(spare) =>
      if (|out| / CARD_SIZE + spare + 1) * CARD_SIZE > USIZE_MAX then Err(DataUnitOverflow)
      else if signing.WithDataSum? then Ok(SignedUnit(Closed(out, spare), at, signing.sum))
      else Ok(Closed(out, spare))
  }

  /** What the `CHECKSUM` record of `unit` holds, signed with `dataSum`. */
  ghost function Signature(unit: seq<Byte>, dataSum: U32): (value: seq<Byte>)
    ensures |value| == 16
  {
    Encoded(Combine(Canonical(Total(unit)), dataSum))
  }

  /** The unit with its signature in the record at `at`. */
  ghost function SignedUnit(unit: seq<Byte>, at: nat, dataSum: U32): (signed: seq<Byte>)
    ensures |signed| == |unit|
  {
    if at + 27 <= |unit| then Patch(unit, at + 11, Signature(unit, dataSum)) else unit
  }

  /** `RenderUnit` as bytes; with a data sum, the ones'-complement total of the unit and that sum
      is all ones. */
  method RenderInto(header: Header, signing: Signing, space: Space, render: Renderer) returns (r: Result<seq<Byte>, HeaderError>)
    requires header.Valid() && RendersCards(render)
    ensures r == RenderUnit(header.records, signing, space, render)
    ensures r.Ok? && signing.WithDataSum? ==> Combine(Canonical(Total(r.value)), signing.sum) == ONES
  {
    SignersSign(signing);
    var rendered, checksumAt := RenderRecords(header, SignerOf(signing), render);
    if rendered.Err? {
      return rendered;
    }
    r := CloseUnit(rendered.value, checksumAt, signing, space);
  }

  /** Fill the space, end the header, fill its block and sign it. */
  method CloseUnit(out: seq<Byte>, at: Option<nat>, signing: Signing, space: Space) returns (r: Result<seq<Byte>, HeaderError>)
    requires HoldsChecksum(out, at) && (signing.WithDataSum? ==> at.Some?)
    ensures r == UnitOf(out, if at.Some? then at.value else 0, signing, space)
    ensures r.Ok? && signing.WithDataSum? ==> Combine(Canonical(Total(r.value)), signing.sum) == ONES
  {
    var records := |out| / CARD_SIZE;
    var spare := SpareRecords(records, space);
    if spare.Err? {
      return Err(spare.error);
    }
    if (records + spare.value + 1) * CARD_SIZE > USIZE_MAX {
      return Err(DataUnitOverflow);
    }
    var unit := Closed(out, spare.value);
    if signing.WithDataSum? {
      Unpatched(out, unit, at.value);
      unit := Sign(unit, at.value, signing.sum);
    }
    r := Ok(unit);
  }

  /** Write the encoded sum over the placeholder of the `CHECKSUM` record. */
  method Sign(unit: seq<Byte>, at: nat, dataSum: U32) returns (signed: seq<Byte>)
    requires |unit| % 4 == 0 && at % 4 == 0 && at + 28 <= |unit| && IsPlaceholder(unit[at + 11..at + 27])
    ensures signed == SignedUnit(unit, at, dataSum)
    ensures Combine(Canonical(Total(signed)), dataSum) == ONES
  {
    SignedCloses(unit, at, dataSum);
    var value := SignatureOf(unit, dataSum);
    signed := Patch(unit, at + 11, value);
  }

  method SignatureOf(unit: seq<Byte>, dataSum: U32) returns (value: seq<Byte>)
    requires |unit| % 4 == 0
    ensures value == Signature(unit, dataSum)
  {
    var sum := Accumulate(unit, 0);
    value := Encode(Combine(sum, dataSum));
  }

  lemma SignedCloses(unit: seq<Byte>, at: nat, dataSum: U32)
    requires |unit| % 4 == 0 && at % 4 == 0 && at + 28 <= |unit| && IsPlaceholder(unit[at + 11..at + 27])
    ensures Combine(Canonical(Total(SignedUnit(unit, at, dataSum))), dataSum) == ONES
  {
    PlaceholderIs(unit[at + 11..at + 27]);
    PatchClosesTheSum(unit, at, dataSum);
  }

  lemma Unpatched(records: seq<Byte>, unit: seq<Byte>, at: nat)
    requires HoldsChecksum(records, Some(at)) && records <= unit && |unit| % BLOCK_SIZE == 0
    ensures |unit| % 4 == 0 && at % 4 == 0 && at + 28 <= |unit| && IsPlaceholder(unit[at + 11..at + 27])
  {
    assert unit[at + 11..at + 27] == records[at + 11..at + 27];
  }

  // ---- A placeholder header is as long as the signed one ----

  /** Exactly when a `DATASUM` record's comment leaves its signed card as long as the
      placeholder's. */
  lemma {:induction false} DataSumLengths(sum: U32, comment: Option<string>)
    requires SignedCard(DATASUM, Placeholder, comment).Ok? && SignedCard(DATASUM, WithDataSum(sum), comment).Ok?
    ensures |SignedCard(DATASUM, Placeholder, comment).value| == |SignedCard(DATASUM, WithDataSum(sum), comment).value|
       <==> comment == None || |comment.value| > 57 || |comment.value| <= 65 - |Decimal(sum)|
  {
    SignedTextIsShort(DATASUM, WithDataSum(sum));
  }

  /** A 57-character comment and a 10-digit sum part them: one card for the placeholder, two
      signed. */
  lemma DataSumLengthsPart(comment: string)
    requires |comment| == 57 && IsRestrictedAscii(comment)
    ensures SignedCard(DATASUM, Placeholder, Some(comment)).Ok?
    ensures SignedCard(DATASUM, WithDataSum(4294967295), Some(comment)).Ok?
    ensures |SignedCard(DATASUM, Placeholder, Some(comment)).value| == CARD_SIZE
    ensures |SignedCard(DATASUM, WithDataSum(4294967295), Some(comment)).value| == 2 * CARD_SIZE
  {
    SignedTextIsShort(DATASUM, WithDataSum(4294967295));
    assert |Decimal(4294967295)| == 10 by {
      assert |Decimal(4294967295)| == |Decimal(42949)| + 5;
      assert |Decimal(42949)| == |Decimal(4)| + 4;
    }
  }

  /** The records of a header with no `DATASUM` render alike under signers that sign a
      `CHECKSUM` alike. */
  lemma {:induction false} RecordsAlike(records: seq<Record>, k: nat, a: Option<Signer>, b: Option<Signer>, render: Renderer)
    requires k <= |records| && FirstOf(records, KeywordName(DATASUM), 0) == None && a.Some? && b.Some?
    requires forall comment :: a.value(CHECKSUM, comment) == b.value(CHECKSUM, comment)
    ensures RecordsOut(records, k, a, render) == RecordsOut(records, k, b, render)
  {
    if k > 0 {
      RecordsAlike(records, k - 1, a, b, render);
      assert !HasName(records[k - 1], KeywordName(DATASUM));
    }
  }

  /** Of a header with no `DATASUM` record, only that record differs, and it is as long. */
  lemma {:induction false} AllAlike(records: seq<Record>, a: Option<Signer>, b: Option<Signer>, render: Renderer)
    requires FirstOf(records, KeywordName(DATASUM), 0) == None && a.Some? && b.Some?
    requires forall comment :: a.value(CHECKSUM, comment) == b.value(CHECKSUM, comment)
    requires a.value(DATASUM, None).Ok? && b.value(DATASUM, None).Ok? && |a.value(DATASUM, None).value| == |b.value(DATASUM, None).value|
    ensures AllOut(records, a, render).Ok? <==> AllOut(records, b, render).Ok?
    ensures Length(AllOut(records, a, render)) == Length(AllOut(records, b, render))
    ensures AllOut(records, a, render).Err? ==> AllOut(records, a, render) == AllOut(records, b, render)
  {
    RecordsAlike(records, |records|, a, b, render);
  }

  lemma DataSumCard(signing: Signing)
    requires !signing.Unsigned?
    ensures SignedCard(DATASUM, signing, None).Ok? && |SignedCard(DATASUM, signing, None).value| == CARD_SIZE
  {
    SignedTextIsShort(DATASUM, signing);
  }

  lemma SignersAlike(sum: U32)
    ensures var a, b := SignerOf(Placeholder), SignerOf(WithDataSum(sum));
            && (forall comment :: a.value(CHECKSUM, comment) == b.value(CHECKSUM, comment))
            && a.value(DATASUM, None).Ok? && b.value(DATASUM, None).Ok?
            && |a.value(DATASUM, None).value| == |b.value(DATASUM, None).value|
  {
    DataSumCard(Placeholder);
    DataSumCard(WithDataSum(sum));
  }

  /** Records as long make units as long. */
  lemma UnitsAlike(out: seq<Byte>, out': seq<Byte>, at: nat, at': nat, sum: U32, space: Space)
    requires |out| == |out'|
    ensures UnitOf(out, at, Placeholder, space).Ok? <==> UnitOf(out', at', WithDataSum(sum), space).Ok?
    ensures UnitOf(out, at, Placeholder, space).Ok? ==>
              |UnitOf(out, at, Placeholder, space).value| == |UnitOf(out', at', WithDataSum(sum), space).value|
  {
  }

  /** The signed unit of a header with no `DATASUM` is as long as its placeholder unit, whatever
      the sum, and one renders when the other does. */
  lemma {:induction false} UnitLengths(records: seq<Record>, sum: U32, space: Space, render: Renderer)
    requires FirstOf(records, KeywordName(DATASUM), 0) == None
    ensures RenderUnit(records, Placeholder, space, render).Ok? <==> RenderUnit(records, WithDataSum(sum), space, render).Ok?
    ensures RenderUnit(records, Placeholder, space, render).Ok? ==>
              |RenderUnit(records, Placeholder, space, render).value| == |RenderUnit(records, WithDataSum(sum), space, render).value|
  {
    SignersAlike(sum);
    var a, b := SignerOf(Placeholder), SignerOf(WithDataSum(sum));
    AllAlike(records, a, b, render);
    var out, out' := AllOut(records, a, render), AllOut(records, b, render);
    if out.Ok? {
      UnitsAlike(out.value, out'.value, ChecksumOffset(records, a, render), ChecksumOffset(records, b, render), sum, space);
    }
  }
}

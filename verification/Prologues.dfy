/** The structural records an array's header opens with (section 4.4.1 of the FITS Standard 4.0),
    and how they read. */
module Prologues {
  import opened Bytes
  import opened Decimals
  import opened HduHeaders
  import opened HeaderModel
  import opened Headers
  import opened Products

  /** What a header opens with: `SIMPLE`, or `XTENSION` of a kind, with the bytes of its heap. */
  datatype Opening = OpensPrimary | OpensExtension(xtension: string, pcount: nat)

  function AxisRecords(axes: seq<nat>): (records: seq<Record>)
    ensures |records| == |axes|
  {
    seq(|axes|, i requires 0 <= i < |axes| => Valued(NaxisKeyword(i + 1), Integer(axes[i]), None))
  }

  function OpeningComment(xtension: string): string {
    if xtension == "IMAGE" then "image extension"
    else if xtension == "TABLE" then "ASCII table extension"
    else "binary table extension"
  }

  function OpeningRecord(opening: Opening): Record {
    match opening
    case OpensPrimary => Valued("SIMPLE", Logical(true), Some("file conforms to FITS standard"))
    case OpensExtension(xtension, _) => Valued("XTENSION", Text(xtension), Some(OpeningComment(xtension)))
  }

  /** What follows the axes. */
  function ClosingRecords(opening: Opening): seq<Record> {
    match opening
    case OpensPrimary => [Valued("EXTEND", Logical(true), Some("extensions may follow"))]
    case OpensExtension(_, pcount) => [Valued("PCOUNT", Integer(pcount), None), Valued("GCOUNT", Integer(1), None)]
  }

  /** Opening, `BITPIX`, `NAXIS`, one record an axis, then what closes the structure. */
  function PrologueRecords(opening: Opening, bitpix: Bitpix, axes: seq<nat>): seq<Record> {
    [OpeningRecord(opening),
     Valued("BITPIX", Integer(bitpix.Code()), Some("number of bits per data value")),
     Valued("NAXIS", Integer(|axes|), Some("number of data axes"))] + AxisRecords(axes) + ClosingRecords(opening)
  }

  /** Axes a header's integers hold. */
  predicate AreAxes(axes: seq<nat>) {
    |axes| <= MAX_AXES && forall i :: 0 <= i < |axes| ==> axes[i] <= I64_MAX
  }

  /** The record at `i` is the first of its keyword. */
  ghost predicate IsFirstOf(records: seq<Record>, i: nat)
    requires i < |records|
  {
    records[i].Valued? && forall j :: 0 <= j < i ==> records[j].KeywordOf() != Some(records[i].valuedKeyword)
  }

  lemma FirstReads(records: seq<Record>, i: nat)
    requires i < |records| && IsFirstOf(records, i)
    ensures ReaderOf(records)(records[i].valuedKeyword) == Ok(Some(records[i].value))
  {
    FirstIs(records, KeywordName(records[i].valuedKeyword), i);
  }

  lemma {:induction false} AbsentReads(records: seq<Record>, keyword: string)
    requires forall j :: 0 <= j < |records| ==> records[j].KeywordOf() != Some(keyword)
    ensures FirstOf(records, KeywordName(keyword), 0) == None && ReaderOf(records)(keyword) == Ok(None)
  {
    NoneHas(records, KeywordName(keyword));
  }

  ghost predicate Lacks(records: seq<Record>, keyword: string) {
    forall i :: 0 <= i < |records| ==> records[i].KeywordOf() != Some(keyword)
  }

  lemma BothLack(a: seq<Record>, b: seq<Record>, keyword: string)
    requires Lacks(a, keyword) && Lacks(b, keyword)
    ensures Lacks(a + b, keyword)
  {
  }

  lemma {:induction false} NaxisSpells(n: nat)
    ensures |NaxisKeyword(n)| == 5 + |Decimal(n)| && NaxisKeyword(n)[0] == 'N'
    ensures NaxisKeyword(n)[5..] == Decimal(n)
  {
  }

  lemma NaxisDiffer(m: nat, n: nat)
    requires m != n
    ensures NaxisKeyword(m) != NaxisKeyword(n)
  {
    DecimalReads(m);
    DecimalReads(n);
    NaxisSpells(m);
    NaxisSpells(n);
  }

  lemma AxesLack(axes: seq<nat>, keyword: string)
    requires |keyword| <= 5 || keyword[0] != 'N'
    ensures Lacks(AxisRecords(axes), keyword)
  {
    forall i | 0 <= i < |axes| ensures AxisRecords(axes)[i].KeywordOf() != Some(keyword) {
      NaxisSpells(i + 1);
    }
  }

  /** A keyword none of a prologue's records has but its axes. */
  predicate IsForeign(keyword: string, opening: Opening) {
    && keyword !in ["BITPIX", "NAXIS"]
    && keyword !in (if opening.OpensPrimary? then ["SIMPLE", "EXTEND"] else ["XTENSION", "PCOUNT", "GCOUNT"])
  }

  lemma PrologueLacks(opening: Opening, bitpix: Bitpix, axes: seq<nat>, keyword: string)
    requires IsForeign(keyword, opening) && |keyword| >= 1 && keyword[0] != 'N'
    ensures Lacks(PrologueRecords(opening, bitpix, axes), keyword)
  {
    AxesLack(axes, keyword);
    PartsLack(opening, bitpix, axes, keyword);
  }

  lemma PartsLack(opening: Opening, bitpix: Bitpix, axes: seq<nat>, keyword: string)
    requires IsForeign(keyword, opening) && Lacks(AxisRecords(axes), keyword)
    ensures Lacks(PrologueRecords(opening, bitpix, axes), keyword)
  {
    var front := [OpeningRecord(opening),
                  Valued("BITPIX", Integer(bitpix.Code()), Some("number of bits per data value")),
                  Valued("NAXIS", Integer(|axes|), Some("number of data axes"))];
    BothLack(front, AxisRecords(axes), keyword);
    BothLack(front + AxisRecords(axes), ClosingRecords(opening), keyword);
  }

  // ---- Each keyword an array's header is read by ----

  ghost predicate Reads(records: seq<Record>, i: nat, keyword: string, value: Value) {
    i < |records| && IsFirstOf(records, i) && records[i].valuedKeyword == keyword && records[i].value == value
  }

  lemma OpeningReads(records: seq<Record>, opening: Opening, bitpix: Bitpix, axes: seq<nat>)
    requires PrologueRecords(opening, bitpix, axes) <= records
    ensures Reads(records, 0, if opening.OpensPrimary? then "SIMPLE" else "XTENSION",
                  if opening.OpensPrimary? then Logical(true) else Text(opening.xtension))
    ensures Reads(records, 1, "BITPIX", Integer(bitpix.Code()))
    ensures Reads(records, 2, "NAXIS", Integer(|axes|))
  {
    var prologue := PrologueRecords(opening, bitpix, axes);
    assert records[0] == prologue[0] && records[1] == prologue[1] && records[2] == prologue[2];
    OpeningsDiffer();
  }

  lemma OpeningsDiffer()
    ensures "SIMPLE" != "BITPIX" && "XTENSION" != "BITPIX" && "SIMPLE" != "NAXIS" && "XTENSION" != "NAXIS" && "BITPIX" != "NAXIS"
  {
  }

  lemma AxisReads(records: seq<Record>, opening: Opening, bitpix: Bitpix, axes: seq<nat>, k: nat)
    requires PrologueRecords(opening, bitpix, axes) <= records && k < |axes|
    ensures Reads(records, 3 + k, NaxisKeyword(k + 1), Integer(axes[k]))
  {
    var prologue := PrologueRecords(opening, bitpix, axes);
    NaxisSpells(k + 1);
    forall j | 0 <= j < 3 + k ensures records[j].KeywordOf() != Some(NaxisKeyword(k + 1)) {
      assert records[j] == prologue[j];
      if j >= 3 {
        assert prologue[j] == AxisRecords(axes)[j - 3];
        NaxisDiffer(j - 2, k + 1);
      } else {
        OpeningsAreShort(opening);
      }
    }
    assert records[3 + k] == prologue[3 + k] == AxisRecords(axes)[k];
  }

  lemma OpeningsAreShort(opening: Opening)
    ensures OpeningRecord(opening).KeywordOf().value[0] != 'N'
  {
  }

  lemma CountsRead(records: seq<Record>, opening: Opening, bitpix: Bitpix, axes: seq<nat>)
    requires opening.OpensExtension? && PrologueRecords(opening, bitpix, axes) <= records
    ensures Reads(records, 3 + |axes|, "PCOUNT", Integer(opening.pcount)) && Reads(records, 4 + |axes|, "GCOUNT", Integer(1))
  {
    var prologue := PrologueRecords(opening, bitpix, axes);
    var closing := ClosingRecords(opening);
    assert records[3 + |axes|] == prologue[3 + |axes|] == closing[0];
    assert records[4 + |axes|] == prologue[4 + |axes|] == closing[1];
    AxesLack(axes, "PCOUNT");
    AxesLack(axes, "GCOUNT");
    forall j | 0 <= j < 3 + |axes| ensures records[j].KeywordOf() != Some("PCOUNT") && records[j].KeywordOf() != Some("GCOUNT") {
      assert records[j] == prologue[j];
      if j >= 3 {
        assert prologue[j] == AxisRecords(axes)[j - 3];
      }
    }
  }

  /** A header reads as a prologue's. */
  ghost predicate ReadsAs(read: Reader, opening: Opening, bitpix: Bitpix, axes: seq<nat>) {
    && read("BITPIX") == Ok(Some(Integer(bitpix.Code()))) && read("NAXIS") == Ok(Some(Integer(|axes|)))
    && (forall k: nat :: k < |axes| ==> read(NaxisKeyword(k + 1)) == Ok(Some(Integer(axes[k]))))
    && match opening
       case OpensPrimary =>
         read("SIMPLE") == Ok(Some(Logical(true))) && read("GROUPS") == Ok(None) && read("XTENSION") == Ok(None)
       case OpensExtension(xtension, pcount) =>
         && read("XTENSION") == Ok(Some(Text(xtension)))
         && read("PCOUNT") == Ok(Some(Integer(pcount))) && read("GCOUNT") == Ok(Some(Integer(1)))
  }

  /** A prologue, and records that bring in no `GROUPS` or `XTENSION`, read as the prologue. */
  lemma PrologueReads(records: seq<Record>, opening: Opening, bitpix: Bitpix, axes: seq<nat>, more: seq<Record>)
    requires records == PrologueRecords(opening, bitpix, axes) + more && Lacks(more, "GROUPS") && Lacks(more, "XTENSION")
    ensures ReadsAs(ReaderOf(records), opening, bitpix, axes)
  {
    OpeningReads(records, opening, bitpix, axes);
    FirstReads(records, 0);
    FirstReads(records, 1);
    FirstReads(records, 2);
    forall k: nat | k < |axes| ensures ReaderOf(records)(NaxisKeyword(k + 1)) == Ok(Some(Integer(axes[k]))) {
      AxisReads(records, opening, bitpix, axes, k);
      FirstReads(records, 3 + k);
    }
    if opening.OpensPrimary? {
      PrologueLacks(opening, bitpix, axes, "GROUPS");
      PrologueLacks(opening, bitpix, axes, "XTENSION");
      BothLack(PrologueRecords(opening, bitpix, axes), more, "GROUPS");
      BothLack(PrologueRecords(opening, bitpix, axes), more, "XTENSION");
      AbsentReads(records, "GROUPS");
      AbsentReads(records, "XTENSION");
    } else {
      CountsRead(records, opening, bitpix, axes);
      FirstReads(records, 3 + |axes|);
      FirstReads(records, 4 + |axes|);
    }
  }

  // ---- The declared bytes ----

  lemma {:induction false} AxesRead(read: Reader, axes: seq<nat>, k: nat)
    requires k <= |axes| && AreAxes(axes)
    requires forall i: nat :: i < |axes| ==> read(NaxisKeyword(i + 1)) == Ok(Some(Integer(axes[i])))
    ensures AxesTo(read, k) == Ok(axes[..k])
  {
    if k > 0 {
      AxesRead(read, axes, k - 1);
      assert axes[..k] == axes[..k - 1] + [axes[k - 1]];
      assert read(NaxisKeyword(k - 1 + 1)) == Ok(Some(Integer(axes[k - 1])));
    }
  }

  lemma ArrayAxes(read: Reader, axes: seq<nat>)
    requires read("NAXIS") == Ok(Some(Integer(|axes|))) && AreAxes(axes)
    requires forall i: nat :: i < |axes| ==> read(NaxisKeyword(i + 1)) == Ok(Some(Integer(axes[i])))
    ensures Axes(read) == Ok(axes)
  {
    AxesRead(read, axes, |axes|);
    assert axes[..|axes|] == axes;
  }

  lemma DeclaredBytes(read: Reader, kind: HduKind, bitpix: Bitpix, axes: seq<nat>)
    requires read("BITPIX") == Ok(Some(Integer(bitpix.Code()))) && Axes(read) == Ok(axes)
    ensures DataBytes(kind, read) ==
            match UnpaddedBytes(kind, bitpix.ElemSize(), axes, read)
            case Err(e) => Err(e)
            case Ok(len) => if Pads(len) then Ok(len) else Err(DataUnitOverflow)
  {
    assert BitpixOf(bitpix.Code()) == Ok(bitpix);
  }

  /** One group of an extension: its heap, and its array. */
  lemma OneGroup(read: Reader, size: nat, elements: nat, pcount: nat)
    requires read("PCOUNT") == Ok(Some(Integer(pcount))) && read("GCOUNT") == Ok(Some(Integer(1)))
    requires size <= USIZE_MAX && pcount <= I64_MAX
    ensures GroupedBytes(size, elements, read) ==
            if pcount + elements > USIZE_MAX then Err(DataUnitOverflow) else OrOverflow(CheckedMul(size, pcount + elements))
  {
    TimesIs(size, 1);
  }

  lemma {:induction false} ProductFits(axes: seq<nat>, k: nat)
    requires k <= |axes|
    ensures ProductTo(axes, k).Some? ==> ProductTo(axes, k).value <= USIZE_MAX
  {
  }
}

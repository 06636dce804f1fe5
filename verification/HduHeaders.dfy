/** What an HDU's header declares: its kind, and the bytes of its data unit (section 4.4.1 of
    the FITS Standard 4.0). */
module HduHeaders {
  import opened Bytes
  import opened HeaderModel
  import opened Headers
  import opened Decimals
  import opened Products

  /** First in its file or behind another HDU. */
  datatype HduPosition = AtPrimary | AtExtension

  datatype HduKind =
    | PrimaryArray | Image | AsciiTable | BinTable | CompressedImage | CompressedTable | RandomGroups | OtherKind

  // ---- Typed lookups ----

  /** What a keyword is looked up to in one header. */
  type Reader = string -> Result<Option<Value>, HeaderError>

  function ReaderOf(records: seq<Record>): Reader {
    (keyword: string) => Lookup(records, KeywordName(keyword))
  }

  function ReadLogical(read: Reader, keyword: string): Result<Option<bool>, HeaderError> {
    match read(keyword)
    case Err(e) => Err(e)
    case Ok(None) => Ok(None)
    case Ok(Some(Logical(truth))) => Ok(Some(truth))
    case Ok(Some(_)) => Err(ValueTypeMismatch(KeywordName(keyword)))
  }

  function ReadText(read: Reader, keyword: string): Result<Option<string>, HeaderError> {
    match read(keyword)
    case Err(e) => Err(e)
    case Ok(None) => Ok(None)
    case Ok(Some(Text(text))) => Ok(Some(text))
    case Ok(Some(_)) => Err(ValueTypeMismatch(KeywordName(keyword)))
  }

  /** A mandatory integer, of the 64 bits an integer value is read in. */
  function RequireInteger(read: Reader, keyword: string): Result<int, HeaderError> {
    match read(keyword)
    case Err(e) => Err(e)
    case Ok(None) => Err(MissingKeyword(KeywordName(keyword)))
    case Ok(Some(Integer(n))) => if I64_MIN <= n <= I64_MAX then Ok(n) else Err(IntegerOutOfRange(KeywordName(keyword)))
    case Ok(Some(_)) => Err(ValueTypeMismatch(KeywordName(keyword)))
  }

  function RequireUsize(read: Reader, keyword: string): Result<nat, HeaderError> {
    match RequireInteger(read, keyword)
    case Err(e) => Err(e)
    case Ok(n) => if n < 0 then Err(InvalidKeywordValue(keyword)) else Ok(n)
  }

  // ---- The declared array ----

  datatype Bitpix = U8 | I16 | I32 | I64 | F32 | F64
  {
    function Code(): int {
      match this
      case U8 => 8
      case I16 => 16
      case I32 => 32
      case I64 => 64
      case F32 => -32
      case F64 => -64
    }

    function ElemSize(): (size: nat)
      ensures 1 <= size <= 8
    {
      match this
      case U8 => 1
      case I16 => 2
      case I32 => 4
      case I64 => 8
      case F32 => 4
      case F64 => 8
    }
  }

  function BitpixOf(code: int): (r: Result<Bitpix, HeaderError>)
    ensures r.Ok? <==> code in {8, 16, 32, 64, -32, -64}
    ensures r.Ok? ==> r.value.Code() == code
  {
    match code
    case 8 => Ok(U8)
    case 16 => Ok(I16)
    case 32 => Ok(I32)
    case 64 => Ok(I64)
    case -32 => Ok(F32)
    case -64 => Ok(F64)
    case _ => Err(InvalidBitpix(code))
  }

  const MAX_AXES: nat := 999

  function NaxisKeyword(n: nat): string {
    "NAXIS" + Decimal(n)
  }

  function Naxis(read: Reader): Result<nat, HeaderError> {
    match RequireUsize(read, "NAXIS")
    case Err(e) => Err(e)
    case Ok(n) => if n > MAX_AXES then Err(InvalidKeywordValue("NAXIS")) else Ok(n)
  }

  /** The first `k` axis lengths. */
  function AxesTo(read: Reader, k: nat): Result<seq<nat>, HeaderError> {
    if k == 0 then Ok([])
    else
      match AxesTo(read, k - 1)
      case Err(e) => Err(e)
      case Ok(axes) =>
        match RequireUsize(read, NaxisKeyword(k))
        case Err(e) => Err(e)
        case Ok(length) => Ok(axes + [length])
  }

  function Axes(read: Reader): Result<seq<nat>, HeaderError> {
    match Naxis(read)
    case Err(e) => Err(e)
    case Ok(n) => AxesTo(read, n)
  }

  /** The product of the first `k` axes, nothing past 64 bits. */
  function ProductTo(axes: seq<nat>, k: nat): Option<nat>
    requires k <= |axes|
  {
    if k == 0 then Some(1)
    else
      match ProductTo(axes, k - 1)
      case None => None
      case Some(product) => CheckedMul(product, axes[k - 1])
  }

  /** The elements the axes span: none along an axis of length zero, `empty` of no axes. */
  function AxisProduct(axes: seq<nat>, empty: nat): Option<nat> {
    if 0 in axes then Some(0) else if axes == [] then Some(empty) else ProductTo(axes, |axes|)
  }

  function OrOverflow(n: Option<nat>): Result<nat, HeaderError> {
    if n.Some? then Ok(n.value) else Err(DataUnitOverflow)
  }

  /** The bytes of groups of elements: of each group, its parameters and its array. */
  function GroupedBytes(size: nat, elements: nat, read: Reader): Result<nat, HeaderError> {
    match RequireUsize(read, "PCOUNT")
    case Err(e) => Err(e)
    case Ok(pcount) =>
      match RequireUsize(read, "GCOUNT")
      case Err(e) => Err(e)
      case Ok(gcount) =>
        if pcount + elements > USIZE_MAX then Err(DataUnitOverflow)
        else if CheckedMul(size, gcount) == None then Err(DataUnitOverflow)
        else OrOverflow(CheckedMul(Times(size, gcount), pcount + elements))
  }

  /** Whether a unit of `len` bytes ends on a block boundary 64 bits hold. */
  predicate Pads(len: nat) {
    (len + 2879) / 2880 * 2880 <= USIZE_MAX
  }

  /** Told from `SIMPLE` and `GROUPS` of a primary, and from `XTENSION` and the compression flags
      of an extension. */
  function KindOf(read: Reader, position: HduPosition): Result<HduKind, HeaderError> {
    if position.AtPrimary? then
      match ReadLogical(read, "SIMPLE")
      case Err(e) => Err(e)
      case Ok(None) => Err(MissingKeyword(KeywordName("SIMPLE")))
      case Ok(Some(_)) =>
        match ReadLogical(read, "GROUPS")
        case Err(e) => Err(e)
        case Ok(Some(true)) => GroupsKind(read)
        case Ok(_) => Ok(PrimaryArray)
    else
      match ReadText(read, "XTENSION")
      case Err(e) => Err(e)
      case Ok(None) => Err(MissingKeyword(KeywordName("XTENSION")))
      case Ok(Some(xtension)) =>
        if xtension == "IMAGE" then Ok(Image)
        else if xtension == "TABLE" then Ok(AsciiTable)
        else if xtension == "BINTABLE" then TableKind(read)
        else Ok(OtherKind)
  }

  /** Random groups, of axes that start with the length zero. */
  function GroupsKind(read: Reader): Result<HduKind, HeaderError> {
    match Axes(read)
    case Err(e) => Err(e)
    case Ok(axes) =>
      if axes == [] then Err(InvalidKeywordValue("NAXIS"))
      else if axes[0] != 0 then Err(InvalidKeywordValue("NAXIS1"))
      else Ok(RandomGroups)
  }

  function TableKind(read: Reader): Result<HduKind, HeaderError> {
    match ReadLogical(read, "ZIMAGE")
    case Err(e) => Err(e)
    case Ok(Some(true)) => Ok(CompressedImage)
    case Ok(_) =>
      match ReadLogical(read, "ZTABLE")
      case Err(e) => Err(e)
      case Ok(Some(true)) => Ok(CompressedTable)
      case Ok(_) => Ok(BinTable)
  }

  /** The data unit's length as `BITPIX`, the axes and the group keywords multiply out, or why
      they give none. */
  function DataBytes(kind: HduKind, read: Reader): Result<nat, HeaderError> {
    match RequireInteger(read, "BITPIX")
    case Err(e) => Err(e)
    case Ok(code) =>
      match BitpixOf(code)
      case Err(e) => Err(e)
      case Ok(bitpix) =>
        match Axes(read)
        case Err(e) => Err(e)
        case Ok(axes) =>
          match UnpaddedBytes(kind, bitpix.ElemSize(), axes, read)
          case Err(e) => Err(e)
          case Ok(len) => if Pads(len) then Ok(len) else Err(DataUnitOverflow)
  }

  function UnpaddedBytes(kind: HduKind, size: nat, axes: seq<nat>, read: Reader): Result<nat, HeaderError> {
    var product := if kind.RandomGroups? && axes != [] then AxisProduct(axes[1..], 1) else AxisProduct(axes, 0);
    match product
    case None => Err(DataUnitOverflow)
    case Some(elements) =>
      if kind.PrimaryArray? then OrOverflow(CheckedMul(size, elements)) else GroupedBytes(size, elements, read)
  }

  // ---- What a writer generates ----

  const STRUCTURE: seq<string> :=
    ["SIMPLE", "XTENSION", "BITPIX", "NAXIS", "PCOUNT", "GCOUNT", "EXTEND", "GROUPS", "BLOCKED", "BSCALE", "BZERO", "BLANK",
     "CHECKSUM", "DATASUM", "THEAP", "TFIELDS"]

  const STRUCTURE_INDEXED: seq<string> := ["NAXIS", "TFORM", "TTYPE", "TUNIT", "TDIM", "TSCAL", "TZERO", "TNULL", "TBCOL"]

  const IMAGE_COMPRESSION: seq<string> :=
    ["ZIMAGE", "ZCMPTYPE", "ZBITPIX", "ZNAXIS", "ZQUANTIZ", "ZDITHER0", "ZBLANK", "ZMASKCMP", "ZSIMPLE", "ZTENSION", "ZEXTEND",
     "ZBLOCKED", "ZGCOUNT", "ZHEAPPTR"]

  const IMAGE_COMPRESSION_INDEXED: seq<string> := ["ZNAXIS", "ZTILE", "ZNAME", "ZVAL"]

  const TABLE_COMPRESSION: seq<string> := ["ZTABLE", "ZTILELEN", "ZNAXIS1", "ZNAXIS2", "ZPCOUNT", "ZTHEAP", "ZHECKSUM", "ZDATASUM"]

  const TABLE_COMPRESSION_INDEXED: seq<string> := ["ZFORM", "ZCTYP"]

  /** A keyword of the family of `root`: decimal digits after it, no zero first. */
  predicate IsIndexed(keyword: string, root: string) {
    && root < keyword
    && keyword[|root|] != '0' && AreDigits(keyword[|root|..])
  }

  predicate IsAnyIndexed(keyword: string, roots: seq<string>) {
    exists i :: 0 <= i < |roots| && IsIndexed(keyword, roots[i])
  }

  /** A template's record of this keyword is left out of a merge. */
  predicate IsGenerated(keyword: string) {
    || keyword in STRUCTURE || keyword in IMAGE_COMPRESSION || keyword in TABLE_COMPRESSION
    || IsAnyIndexed(keyword, STRUCTURE_INDEXED) || IsAnyIndexed(keyword, IMAGE_COMPRESSION_INDEXED)
    || IsAnyIndexed(keyword, TABLE_COMPRESSION_INDEXED)
  }

  /** Whether a writer copies `keyword` from a template. */
  function IsCopied(): string -> bool {
    (keyword: string) => !IsGenerated(keyword)
  }

  /** The records a template gives a header: those its writer does not generate. */
  function FromTemplate(template: seq<Record>): seq<Record> {
    Kept(template, Keeping(IsCopied()))
  }

  lemma NaxisIsGenerated(n: nat)
    requires n > 0
    ensures IsGenerated(NaxisKeyword(n))
  {
    DecimalStarts(n);
    assert IsIndexed(NaxisKeyword(n), STRUCTURE_INDEXED[0]);
  }

  // ---- A template changes nothing a header declares ----

  lemma TemplateLacks(template: seq<Record>, keyword: string)
    requires IsGenerated(keyword)
    ensures forall r :: r in FromTemplate(template) ==> r.KeywordOf() != Some(keyword)
  {
    KeptAre(template, Keeping(IsCopied()));
  }

  lemma {:induction false} FirstOfFront(records: seq<Record>, more: seq<Record>, name: RecordName)
    requires forall r :: r in more ==> !HasName(r, name)
    ensures FirstOf(records + more, name, 0) == FirstOf(records, name, 0)
  {
    var at := FirstOf(records, name, 0);
    if at.Some? {
      FirstIs(records + more, name, at.value);
    } else {
      NoneHas(records + more, name);
    }
  }

  lemma {:induction false} NoneHas(records: seq<Record>, name: RecordName)
    requires forall i :: 0 <= i < |records| ==> !HasName(records[i], name)
    ensures FirstOf(records, name, 0) == None
  {
  }

  /** A generated keyword reads as it did before the template. */
  lemma {:induction false} TemplateLeaves(records: seq<Record>, template: seq<Record>, keyword: string)
    requires IsGenerated(keyword)
    ensures FirstOf(records + FromTemplate(template), KeywordName(keyword), 0) == FirstOf(records, KeywordName(keyword), 0)
    ensures ReaderOf(records + FromTemplate(template))(keyword) == ReaderOf(records)(keyword)
  {
    TemplateLacks(template, keyword);
    FirstOfFront(records, FromTemplate(template), KeywordName(keyword));
  }

  /** Two headers read alike wherever a kind or a length is read. */
  ghost predicate ReadAlike(a: Reader, b: Reader) {
    && a("SIMPLE") == b("SIMPLE") && a("GROUPS") == b("GROUPS") && a("XTENSION") == b("XTENSION")
    && a("ZIMAGE") == b("ZIMAGE") && a("ZTABLE") == b("ZTABLE")
    && a("BITPIX") == b("BITPIX") && a("NAXIS") == b("NAXIS") && a("PCOUNT") == b("PCOUNT") && a("GCOUNT") == b("GCOUNT")
    && forall n: nat :: n > 0 ==> a(NaxisKeyword(n)) == b(NaxisKeyword(n))
  }

  lemma {:induction false} AxesAlike(a: Reader, b: Reader, k: nat)
    requires forall n: nat :: n > 0 ==> a(NaxisKeyword(n)) == b(NaxisKeyword(n))
    ensures AxesTo(a, k) == AxesTo(b, k)
  {
    if k > 0 {
      AxesAlike(a, b, k - 1);
    }
  }

  lemma DeclaredAxesAlike(a: Reader, b: Reader)
    requires ReadAlike(a, b)
    ensures Axes(a) == Axes(b)
  {
    if Naxis(a).Ok? {
      AxesAlike(a, b, Naxis(a).value);
    }
  }

  /** Headers that read alike declare the same kind. */
  lemma KindsAlike(a: Reader, b: Reader, position: HduPosition)
    requires ReadAlike(a, b)
    ensures KindOf(a, position) == KindOf(b, position)
  {
    DeclaredAxesAlike(a, b);
  }

  /** Headers that read alike declare the same data unit. */
  lemma BytesAlike(a: Reader, b: Reader, kind: HduKind)
    requires ReadAlike(a, b)
    ensures DataBytes(kind, a) == DataBytes(kind, b)
  {
    DeclaredAxesAlike(a, b);
    var code, axes := RequireInteger(a, "BITPIX"), Axes(a);
    if code.Ok? && axes.Ok? && BitpixOf(code.value).Ok? {
      UnpaddedAlike(a, b, kind, BitpixOf(code.value).value.ElemSize(), axes.value);
    }
  }

  lemma UnpaddedAlike(a: Reader, b: Reader, kind: HduKind, size: nat, axes: seq<nat>)
    requires a("PCOUNT") == b("PCOUNT") && a("GCOUNT") == b("GCOUNT")
    ensures UnpaddedBytes(kind, size, axes, a) == UnpaddedBytes(kind, size, axes, b)
  {
  }

  lemma FixedAreGenerated()
    ensures IsGenerated("SIMPLE") && IsGenerated("GROUPS") && IsGenerated("XTENSION") && IsGenerated("ZIMAGE") && IsGenerated("ZTABLE")
    ensures IsGenerated("BITPIX") && IsGenerated("NAXIS") && IsGenerated("PCOUNT") && IsGenerated("GCOUNT")
    ensures IsGenerated("DATASUM") && IsGenerated("CHECKSUM")
  {
    assert STRUCTURE[0] == "SIMPLE" && STRUCTURE[1] == "XTENSION" && STRUCTURE[2] == "BITPIX" && STRUCTURE[3] == "NAXIS";
    assert STRUCTURE[4] == "PCOUNT" && STRUCTURE[5] == "GCOUNT" && STRUCTURE[7] == "GROUPS";
    assert STRUCTURE[12] == "CHECKSUM" && STRUCTURE[13] == "DATASUM";
    assert IMAGE_COMPRESSION[0] == "ZIMAGE" && TABLE_COMPRESSION[0] == "ZTABLE";
  }

  /** Whatever the template, a header declares the kind and the data unit it declared before. */
  lemma TemplateReadsAlike(records: seq<Record>, template: seq<Record>)
    ensures ReadAlike(ReaderOf(records + FromTemplate(template)), ReaderOf(records))
  {
    FixedAreGenerated();
    TemplateLeaves(records, template, "SIMPLE");
    TemplateLeaves(records, template, "GROUPS");
    TemplateLeaves(records, template, "XTENSION");
    TemplateLeaves(records, template, "ZIMAGE");
    TemplateLeaves(records, template, "ZTABLE");
    TemplateLeaves(records, template, "BITPIX");
    TemplateLeaves(records, template, "NAXIS");
    TemplateLeaves(records, template, "PCOUNT");
    TemplateLeaves(records, template, "GCOUNT");
    forall n: nat | n > 0
      ensures ReaderOf(records + FromTemplate(template))(NaxisKeyword(n)) == ReaderOf(records)(NaxisKeyword(n))
    {
      NaxisIsGenerated(n);
      TemplateLeaves(records, template, NaxisKeyword(n));
    }
  }
}

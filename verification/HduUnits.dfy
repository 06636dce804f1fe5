/** Complete HDUs, and what one HDU write is to add to a file: decided before its first byte. */
module HduUnits {
  import opened Bytes
  import opened Checksum
  import opened HduHeaders
  import opened HeaderModel
  import opened HeaderRender
  import opened Headers
  import opened ImageHeaders

  /** How headers are rendered: signed or not, and with so many spare records. */
  datatype HeaderForm = HeaderForm(checksums: bool, spare: nat)

  datatype WriterError =
    | WriterFailed
    | Io
    | PrimaryAlreadyWritten
    | DataSizeMismatch(expected: nat, got: nat)
    | ChunkTypeMismatch(declared: Bitpix, chunk: Bitpix)
    | Refused(error: HeaderError)

  // ---- What headers render to and declare ----

  /** Where an HDU goes and what its header declares. */
  datatype Role = Role(position: HduPosition, kind: HduKind)

  /** Where a header goes: an extension's, written first, after an empty primary. */
  function PositionOf(read: Reader, next: HduPosition): Result<HduPosition, HeaderError> {
    if next.AtPrimary? then
      match read("XTENSION")
      case Err(e) => Err(e)
      case Ok(None) => Ok(AtPrimary)
      case Ok(Some(_)) => Ok(AtExtension)
    else
      Ok(next)
  }

  /** The role of a header, when it declares as many bytes as the body holds. */
  function RoleOf(read: Reader, next: HduPosition, len: nat): Result<Role, WriterError> {
    match PositionOf(read, next)
    case Err(e) => Err(Refused(e))
    case Ok(position) =>
      match KindOf(read, position)
      case Err(e) => Err(Refused(e))
      case Ok(kind) =>
        match DataBytes(kind, read)
        case Err(e) => Err(Refused(e))
        case Ok(declared) =>
          if len > USIZE_MAX then Err(Refused(HeaderError.DataUnitOverflow))
          else if len != declared then Err(DataSizeMismatch(declared, len))
          else Ok(Role(position, kind))
  }

  /** A role is the header's role where it goes. */
  lemma RoleStays(read: Reader, next: HduPosition, len: nat)
    requires RoleOf(read, next, len).Ok?
    ensures RoleOf(read, RoleOf(read, next, len).value.position, len) == RoleOf(read, next, len)
  {
  }

  /** The bytes of a header, by its records, its signing and its spare records. */
  type Heads = (seq<Record>, Signing, nat) -> Result<seq<Byte>, HeaderError>

  /** The role of a header, by its records, the next position and the bytes of its body. */
  type Roles = (seq<Record>, HduPosition, nat) -> Result<Role, WriterError>

  datatype Rules = Rules(heads: Heads, roles: Roles)

  /** The rules are those of the headers: how `render` renders them, and what they declare. */
  ghost predicate AreRules(rules: Rules, render: Renderer) {
    && RendersCards(render)
    && (forall records, signing, spare {:trigger RenderUnit(records, signing, Spare(spare), render)} ::
          rules.heads(records, signing, spare) == RenderUnit(records, signing, Spare(spare), render))
    && forall records, next, len {:trigger RoleOf(ReaderOf(records), next, len)} ::
          rules.roles(records, next, len) == RoleOf(ReaderOf(records), next, len)
  }

  ghost function RulesOf(render: Renderer): (rules: Rules)
    requires RendersCards(render)
    ensures AreRules(rules, render)
  {
    Rules((records: seq<Record>, signing: Signing, spare: nat) => RenderUnit(records, signing, Spare(spare), render),
          (records: seq<Record>, next: HduPosition, len: nat) => RoleOf(ReaderOf(records), next, len))
  }

  // ---- One HDU ----

  /** The fill of a data unit: blanks for an ASCII table, zeros for any other. */
  function FillOf(kind: HduKind, len: nat): (fill: seq<Byte>)
    ensures |fill| == HeaderRender.Fill(len)
  {
    var byte: Byte := if kind.AsciiTable? then BLANK_BYTE else 0;
    seq(HeaderRender.Fill(len), i => byte)
  }

  /** The data unit with its fill. */
  function WithFill(kind: HduKind, body: seq<Byte>): (filled: seq<Byte>)
    ensures |filled| % BLOCK_SIZE == 0 && body <= filled
  {
    body + FillOf(kind, |body|)
  }

  /** One HDU: its header as records and as bytes, and its data unit before its fill. */
  datatype Hdu = Hdu(records: seq<Record>, position: HduPosition, kind: HduKind, form: HeaderForm, head: seq<Byte>, body: seq<Byte>)

  /** The header, the data unit and its fill. */
  function Unit(hdu: Hdu): seq<Byte> {
    hdu.head + WithFill(hdu.kind, hdu.body)
  }

  ghost function SumOf(bytes: seq<Byte>): U32 {
    Canonical(Total(bytes))
  }

  /** How the header of a data unit is signed. */
  ghost function SigningOf(form: HeaderForm, filled: seq<Byte>): Signing {
    if form.checksums then WithDataSum(SumOf(filled)) else Unsigned
  }

  /** A header rendered as its HDU's form says, that declares its data unit; whole blocks, that
      sum to negative zero when signed. */
  ghost predicate IsComplete(hdu: Hdu, rules: Rules) {
    && rules.heads(hdu.records, SigningOf(hdu.form, WithFill(hdu.kind, hdu.body)), hdu.form.spare) == Ok(hdu.head)
    && rules.roles(hdu.records, hdu.position, |hdu.body|) == Ok(Role(hdu.position, hdu.kind))
    && |Unit(hdu)| % BLOCK_SIZE == 0 && |Unit(hdu)| > 0
    && (hdu.form.checksums ==> SumOf(Unit(hdu)) == ONES)
  }

  lemma WholeBlocks(a: nat, b: nat)
    requires a % BLOCK_SIZE == 0 && b % BLOCK_SIZE == 0
    ensures (a + b) % BLOCK_SIZE == 0
  {
  }

  /** A header that closes the sum of its data closes the sum of its unit. */
  lemma UnitSums(head: seq<Byte>, filled: seq<Byte>)
    requires |head| % 4 == 0
    requires Combine(Canonical(Total(head)), Canonical(Total(filled))) == ONES
    ensures Canonical(Total(head + filled)) == ONES
  {
    TotalAppend(head, filled);
    CombineIsCanonical(Total(head), Canonical(Total(filled)));
    CanonicalAdd(Total(filled), Total(head));
  }

  // ---- Files ----

  function Units(hdus: seq<Hdu>): (units: seq<seq<Byte>>)
    ensures |units| == |hdus|
  {
    seq(|hdus|, i requires 0 <= i < |hdus| => Unit(hdus[i]))
  }

  function FileBytes(hdus: seq<Hdu>): seq<Byte> {
    Concat(Units(hdus))
  }

  lemma FileAppend(a: seq<Hdu>, b: seq<Hdu>)
    ensures FileBytes(a + b) == FileBytes(a) + FileBytes(b)
  {
    assert Units(a + b) == Units(a) + Units(b);
    ConcatAppend(Units(a), Units(b));
  }

  lemma OneUnit(hdu: Hdu)
    ensures FileBytes([hdu]) == Unit(hdu)
  {
    var none: seq<seq<Byte>> := [];
    assert Units([hdu]) == none + [Unit(hdu)];
    ConcatOne(none, Unit(hdu));
  }

  ghost predicate AllComplete(hdus: seq<Hdu>, rules: Rules) {
    forall i :: 0 <= i < |hdus| ==> IsComplete(hdus[i], rules)
  }

  /** Complete HDUs, a primary first and extensions after it; extensions alone in a file whose
      primary was there. */
  ghost predicate IsFile(hdus: seq<Hdu>, continuing: bool, rules: Rules) {
    && AllComplete(hdus, rules)
    && forall i :: 0 <= i < |hdus| ==> (hdus[i].position.AtPrimary? <==> i == 0 && !continuing)
  }

  /** Whole blocks after whole blocks are whole blocks. */
  lemma {:induction false} BlocksJoin(units: seq<seq<Byte>>)
    requires forall i :: 0 <= i < |units| ==> |units[i]| % BLOCK_SIZE == 0
    ensures |Concat(units)| % BLOCK_SIZE == 0
  {
    if units != [] {
      BlocksJoin(units[..|units| - 1]);
      WholeBlocks(|Concat(units[..|units| - 1])|, |units[|units| - 1]|);
    }
  }

  /** A file is whole blocks. */
  lemma FileIsBlocks(hdus: seq<Hdu>, rules: Rules)
    requires AllComplete(hdus, rules)
    ensures |FileBytes(hdus)| % BLOCK_SIZE == 0
  {
    var units := Units(hdus);
    forall i | 0 <= i < |units| ensures |units[i]| % BLOCK_SIZE == 0 {
      assert IsComplete(hdus[i], rules);
    }
    BlocksJoin(units);
  }

  // ---- What one write adds ----

  /** The HDU of these records and this body. */
  ghost function HduOf(records: seq<Record>, role: Role, body: seq<Byte>, form: HeaderForm, rules: Rules): Result<Hdu, WriterError> {
    match rules.heads(records, SigningOf(form, WithFill(role.kind, body)), form.spare)
    case Err(e) => Err(Refused(e))
    case Ok(head) => Ok(Hdu(records, role.position, role.kind, form, head, body))
  }

  /** One empty primary where an extension opens the file, else none. */
  ghost function PrimaryBefore(next: HduPosition, position: HduPosition, form: HeaderForm, rules: Rules): Result<seq<Hdu>, WriterError> {
    if next.AtPrimary? && position.AtExtension? then
      match HduOf(EmptyPrimary(), Role(AtPrimary, PrimaryArray), [], form, rules)
      case Err(e) => Err(e)
      case Ok(primary) => Ok([primary])
    else
      Ok([])
  }

  /** The HDUs one write adds, or why it is refused. */
  ghost function Planned(records: seq<Record>, next: HduPosition, body: seq<Byte>, form: HeaderForm, rules: Rules)
    : Result<seq<Hdu>, WriterError>
  {
    match rules.roles(records, next, |body|)
    case Err(e) => Err(e)
    case Ok(role) =>
      match PrimaryBefore(next, role.position, form, rules)
      case Err(e) => Err(e)
      case Ok(before) =>
        match HduOf(records, role, body, form, rules)
        case Err(e) => Err(e)
        case Ok(hdu) => Ok(before + [hdu])
  }

  /** A plan adds complete HDUs at the positions they go. */
  ghost predicate IsPlan(hdus: seq<Hdu>, next: HduPosition, rules: Rules) {
    hdus != [] && IsFile(hdus, next.AtExtension?, rules)
  }

  /** What a plan adds to a file makes a file. */
  lemma PlanExtendsFile(hdus: seq<Hdu>, plan: seq<Hdu>, continuing: bool, next: HduPosition, rules: Rules)
    requires IsFile(hdus, continuing, rules) && IsPlan(plan, next, rules)
    requires next.AtPrimary? <==> hdus == [] && !continuing
    ensures IsFile(hdus + plan, continuing, rules)
  {
  }
}

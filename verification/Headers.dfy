/** What headers hold: records that may repeat a name, and the search by name that an index
    answers. */
module Headers {
  import opened Bytes
  import opened NameIndex

  datatype Value = Text(text: string) | Logical(truth: bool) | Integer(number: int) | Other(repr: string)

  datatype RecordName = KeywordName(keyword: string) | HierarchName(hierarch: string) | CommentaryName(commentary: string)

  /** The keywords no valued record carries. */
  const RESERVED: seq<string> := ["END", "CONTINUE", "COMMENT", "HISTORY"]

  datatype Record =
    | Valued(valuedKeyword: string, value: Value, comment: Option<string>)
    | Commentary(commentaryName: string, text: Option<string>)
    | Hierarch(hierarchName: string, value: Value, comment: Option<string>)
    | Malformed(name: Option<RecordName>, raw: seq<Byte>, defect: string)
  {
    /** The keyword the keyword index finds the record by. */
    function KeywordOf(): Option<string> {
      match this
      case Valued(keyword, _, _) => Some(keyword)
      case Malformed(Some(KeywordName(keyword)), _, _) => Some(keyword)
      case _ => None
    }

    /** The name the `HIERARCH` index finds the record by. */
    function HierarchOf(): Option<string> {
      match this
      case Hierarch(name, _, _) => Some(name)
      case Malformed(Some(HierarchName(name)), _, _) => Some(name)
      case _ => None
    }

    function CommentaryOf(): Option<string> {
      match this
      case Commentary(name, _) => Some(name)
      case Malformed(Some(CommentaryName(name)), _, _) => Some(name)
      case _ => None
    }

    /** `name` finds this record: by keyword either a valued or a commentary one, by any other
        name only one of its own form. */
    predicate IsNamed(name: RecordName) {
      match name
      case KeywordName(keyword) => KeywordOf() == Some(keyword) || CommentaryOf() == Some(keyword)
      case HierarchName(wanted) => HierarchOf() == Some(wanted)
      case CommentaryName(wanted) => CommentaryOf() == Some(wanted)
    }

    /** The record is one an index holds. */
    predicate IsIndexed() {
      KeywordOf().Some? || HierarchOf().Some?
    }

    /** A sound record under the same names that holds `value'`; a comment survives, save a
        malformed record's. */
    function WithValue(value': Value): (r: Record)
      requires IsIndexed()
      ensures r.KeywordOf() == KeywordOf() && r.HierarchOf() == HierarchOf()
      ensures (r.Valued? || r.Hierarch?) && r.value == value' && r.comment == if Malformed? then None else comment
    {
      match this
      case Valued(keyword, _, comment) => Valued(keyword, value', comment)
      case Hierarch(name, _, comment) => Hierarch(name, value', comment)
      case Malformed(Some(KeywordName(keyword)), _, _) => Valued(keyword, value', None)
      case Malformed(Some(HierarchName(name)), _, _) => Hierarch(name, value', None)
    }

    function ValueOrDefect(): Result<Value, HeaderError>
      requires IsIndexed()
    {
      match this
      case Valued(_, value, _) => Ok(value)
      case Hierarch(_, value, _) => Ok(value)
      case Malformed(name, _, defect) => Err(InvalidValue(name, defect))
    }
  }

  datatype HeaderError =
    | IndexOutOfBounds(index: nat, len: nat)
    | ReservedName(name: RecordName)
    | MissingKeyword(name: RecordName)
    | InvalidValue(record: Option<RecordName>, defect: string)
    | ValueTypeMismatch(of: RecordName)
    | IntegerOutOfRange(of: RecordName)
    | InvalidKeywordValue(keyword: string)
    | InvalidBitpix(code: int)
    | InvalidAscii
    | Unrenderable(refused: Record)
    | MissingEnd
    | HeaderCardTooLong(length: nat)
    | HeaderDoesNotFit(needed: nat, available: nat)
    | DataUnitOverflow

  predicate IsReserved(name: RecordName) {
    match name
    case KeywordName(keyword) => keyword in RESERVED
    case HierarchName(_) => false
    case CommentaryName(_) => true
  }

  /** A valued record of the name, without a comment. */
  function ValuedRecord(name: RecordName, value: Value): Record
    requires !IsReserved(name)
  {
    match name
    case KeywordName(keyword) => Valued(keyword, value, None)
    case HierarchName(hierarch) => Hierarch(hierarch, value, None)
  }

  predicate IsRestrictedAscii(text: string) {
    forall i :: 0 <= i < |text| ==> 0x20 as char <= text[i] <= 0x7e as char
  }

  // ---- Names and positions ----

  function Keywords(records: seq<Record>): (names: Names)
    ensures |names| == |records|
  {
    seq(|records|, i requires 0 <= i < |records| => records[i].KeywordOf())
  }

  function Hierarchs(records: seq<Record>): (names: Names)
    ensures |names| == |records|
  {
    seq(|records|, i requires 0 <= i < |records| => records[i].HierarchOf())
  }

  /** The first record from `i` on that `name` names. */
  function FindNamed(records: seq<Record>, name: RecordName, i: nat): (at: Option<nat>)
    requires i <= |records|
    ensures at.Some? ==> i <= at.value < |records| && records[at.value].IsNamed(name)
                         && forall j :: i <= j < at.value ==> !records[j].IsNamed(name)
    ensures at == None ==> forall j :: i <= j < |records| ==> !records[j].IsNamed(name)
    decreases |records| - i
  {
    if i == |records| then None
    else if records[i].IsNamed(name) then Some(i)
    else FindNamed(records, name, i + 1)
  }

  lemma NamesInserted(records: seq<Record>, i: nat, record: Record)
    requires i <= |records|
    ensures Keywords(Inserted(records, i, record)) == Inserted(Keywords(records), i, record.KeywordOf())
    ensures Hierarchs(Inserted(records, i, record)) == Inserted(Hierarchs(records), i, record.HierarchOf())
  {
  }

  lemma NamesRemoved(records: seq<Record>, i: nat)
    requires i < |records|
    ensures Keywords(Removed(records, i)) == Removed(Keywords(records), i)
    ensures Hierarchs(Removed(records, i)) == Removed(Hierarchs(records), i)
  {
  }

  /** A record replaced by one of its names leaves the names. */
  lemma NamesReplaced(records: seq<Record>, i: nat, record: Record)
    requires i < |records| && record.KeywordOf() == records[i].KeywordOf() && record.HierarchOf() == records[i].HierarchOf()
    ensures Keywords(records[i := record]) == Keywords(records) && Hierarchs(records[i := record]) == Hierarchs(records)
  {
  }

  /** The records that stay, in order. */
  function Kept(records: seq<Record>, stays: Record -> bool): (kept: seq<Record>)
    ensures |kept| <= |records|
  {
    if records == [] then []
    else
      var before := Kept(records[..|records| - 1], stays);
      if stays(records[|records| - 1]) then before + [records[|records| - 1]] else before
  }

  lemma {:induction false} AllKept(records: seq<Record>, stays: Record -> bool)
    requires |Kept(records, stays)| == |records|
    ensures Kept(records, stays) == records
  {
    if records != [] {
      AllKept(records[..|records| - 1], stays);
    }
  }

  /** What stays is what the list held of it. */
  lemma {:induction false} KeptAre(records: seq<Record>, stays: Record -> bool)
    ensures forall r :: r in Kept(records, stays) <==> r in records && stays(r)
  {
    if records != [] {
      var front, last := records[..|records| - 1], records[|records| - 1];
      KeptAre(front, stays);
      assert records == front + [last];
    }
  }
}

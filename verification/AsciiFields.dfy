/** The fields of an ASCII table (section 7.2 of the FITS Standard 4.0): cells as texts of their
    column's width, and what a reader makes of them. */
module AsciiFields {
  import opened Bytes
  import opened Decimals
  import opened HeaderModel
  import opened Headers

  // ---- Blanks ----

  /** The characters that pad a field. */
  predicate IsBlank(c: char) {
    c == ' ' || '\t' <= c <= '\r'
  }

  function TrimLeft(text: string): string {
    if text != [] && IsBlank(text[0]) then TrimLeft(text[1..]) else text
  }

  function TrimRight(text: string): string {
    if text != [] && IsBlank(text[|text| - 1]) then TrimRight(text[..|text| - 1]) else text
  }

  /** The text from its first character that is no blank to its last. */
  function Trim(text: string): string {
    TrimRight(TrimLeft(text))
  }

  function Spaces(n: nat): (spaces: string)
    ensures |spaces| == n
  {
    if n == 0 then [] else Spaces(n - 1) + [' ']
  }

  lemma {:induction false} RightPadTrims(text: string, n: nat)
    ensures TrimRight(text + Spaces(n)) == TrimRight(text)
  {
    if n == 0 {
      assert text + [] == text;
    } else {
      var padded := text + Spaces(n);
      assert padded[..|padded| - 1] == text + Spaces(n - 1);
      RightPadTrims(text, n - 1);
    }
  }

  /** Blanks after a text are trimmed with it. */
  lemma {:induction false} TrimPadded(text: string, n: nat)
    ensures Trim(text + Spaces(n)) == Trim(text)
  {
    if text == [] {
      SpacesTrim(n);
      assert [] + Spaces(n) == Spaces(n);
    } else if IsBlank(text[0]) {
      assert (text + Spaces(n))[1..] == text[1..] + Spaces(n);
      TrimPadded(text[1..], n);
    } else {
      RightPadTrims(text, n);
    }
  }

  lemma {:induction false} SpacesTrim(n: nat)
    ensures TrimLeft(Spaces(n)) == []
  {
    if n > 0 {
      SpacesAre(n);
      SpacesTrim(n - 1);
    }
  }

  lemma {:induction false} SpacesAre(n: nat)
    ensures forall i :: 0 <= i < n ==> Spaces(n)[i] == ' '
    ensures n > 0 ==> Spaces(n)[1..] == Spaces(n - 1)
  {
    if n > 0 {
      SpacesAre(n - 1);
    }
  }

  /** Blanks before a text are trimmed with it. */
  lemma {:induction false} TrimIndented(n: nat, text: string)
    ensures Trim(Spaces(n) + text) == Trim(text)
  {
    if n == 0 {
      assert [] + text == text;
    } else {
      SpacesAre(n);
      assert (Spaces(n) + text)[1..] == Spaces(n - 1) + text;
      TrimIndented(n - 1, text);
    }
  }

  /** However many spaces follow a text, its end trims to the same. */
  lemma {:induction false} PaddingDrops(text: string, n: nat)
    ensures TrimEnd(text + Spaces(n)) == TrimEnd(text)
  {
    if n == 0 {
      assert text + [] == text;
    } else {
      var padded := text + Spaces(n);
      assert padded[..|padded| - 1] == text + Spaces(n - 1);
      PaddingDrops(text, n - 1);
    }
  }

  // ---- Integers ----

  /** An integer as text. */
  function Printed(value: int): (text: string) {
    if value < 0 then "-" + Decimal(-value) else Decimal(value)
  }

  function InRange(value: int): Option<int> {
    if I64_MIN <= value <= I64_MAX then Some(value) else None
  }

  function Signed(sign: char, magnitude: int): int {
    if sign == '-' then -magnitude else magnitude
  }

  /** The 64-bit integer a text spells: digits after a sign or none. */
  function ParseI64(text: string): Option<int> {
    if text == [] then None
    else if text[0] == '-' || text[0] == '+' then
      if |text| == 1 || !AreDigits(text[1..]) then None
      else InRange(Signed(text[0], NumberOf(text[1..])))
    else if AreDigits(text) then InRange(NumberOf(text))
    else None
  }

  /** A blank field is a genuine zero. */
  function ParseInteger(field: string): Option<int> {
    if field == [] then Some(0) else ParseI64(field)
  }

  /** Every 64-bit integer parses back from its text. */
  lemma PrintedParses(value: int)
    requires I64_MIN <= value <= I64_MAX
    ensures ParseInteger(Printed(value)) == Some(value)
  {
    if value < 0 {
      DecimalReads(-value);
      assert Printed(value)[1..] == Decimal(-value);
    } else {
      DecimalReads(value);
      assert IsDigit(Decimal(value)[0]);
    }
  }

  /** An integer's text holds no blank. */
  lemma PrintedIsTrimmed(value: int)
    ensures Trim(Printed(value)) == Printed(value)
  {
    var text := Printed(value);
    var digits := Decimal(if value < 0 then -value else value);
    assert text[|text| - 1] == digits[|digits| - 1] && IsDigit(digits[|digits| - 1]) && IsDigit(digits[0]);
  }

  // ---- Columns ----

  /** The values of a column and the width they are written in. */
  datatype Cells =
    | TextCells(texts: seq<Option<string>>, width: nat)
    | IntegerCells(integers: seq<Option<int>>, width: nat)
  {
    function Len(): nat {
      if TextCells? then |texts| else |integers|
    }

    predicate IsNull(r: nat)
      requires r < Len()
    {
      if TextCells? then texts[r] == None else integers[r] == None
    }

    predicate HasNull() {
      exists r: nat :: r < Len() && IsNull(r)
    }

    /** A defined cell as text. */
    function TextOf(r: nat): string
      requires r < Len() && !IsNull(r)
    {
      if TextCells? then texts[r].value else Printed(integers[r].value)
    }
  }

  /** One column: its name and unit, its cells, and the text that marks a null. */
  datatype AsciiColumn = AsciiColumn(name: string, unit: Option<string>, cells: Cells, tnull: Option<string>)
  {
    /** A text has lost its trailing blanks, and an integer is one of 64 bits. */
    predicate Valid() {
      match cells
      case TextCells(texts, _) => forall r :: 0 <= r < |texts| && texts[r].Some? ==> TrimEnd(texts[r].value) == texts[r].value
      case IntegerCells(integers, _) => forall r :: 0 <= r < |integers| && integers[r].Some? ==> I64_MIN <= integers[r].value <= I64_MAX
    }

    /** The null marker as a reader compares it. */
    function Marker(): Option<string> {
      if tnull.Some? then Some(Trim(tnull.value)) else None
    }
  }

  datatype AsciiError =
    | InvalidText
    | InvalidNull
    | FieldTooWide(width: nat, minimum: nat)
    | MarkerCollision
    | RowCountMismatch(expected: nat, got: nat)
    | InvalidFieldCount
    | TableOverflow
    | InvalidField(row: nat, field: string)

  /** Why a column cannot be written, whatever its fields. */
  function Validate(column: AsciiColumn): Option<AsciiError> {
    if !IsRestrictedAscii(column.name) then Some(InvalidText)
    else if column.unit.Some? && !IsRestrictedAscii(column.unit.value) then Some(InvalidText)
    else if column.tnull.Some? && !IsRestrictedAscii(column.tnull.value) then Some(InvalidText)
    else if column.tnull.Some? && (Trim(column.tnull.value) == [] || |column.tnull.value| > column.cells.width) then Some(InvalidNull)
    else if column.cells.HasNull() && column.tnull == None then Some(InvalidNull)
    else None
  }

  lemma PrintedIsAscii(cells: Cells, r: nat)
    requires r < cells.Len()
    ensures cells.IntegerCells? && !cells.IsNull(r) ==> IsRestrictedAscii(cells.TextOf(r))
  {
  }

  datatype Field = TextField(text: string) | NumberField(text: string) | NullField(text: string)

  /** The field of a row, not yet checked. */
  function RawField(column: AsciiColumn, r: nat): Result<Field, AsciiError>
    requires Validate(column) == None && r < column.cells.Len()
  {
    if column.cells.IsNull(r) then
      assert column.cells.HasNull();
      Ok(NullField(column.tnull.value))
    else
      match column.cells
      case TextCells(texts, _) => if IsRestrictedAscii(texts[r].value) then Ok(TextField(texts[r].value)) else Err(InvalidText)
      case IntegerCells(integers, _) => Ok(NumberField(Printed(integers[r].value)))
  }

  /** A defined cell that a reader can tell from a null: of restricted text no wider than the
      column, and not what the null marker reads as. */
  predicate IsWritable(column: AsciiColumn, text: string) {
    IsRestrictedAscii(text) && |text| <= column.cells.width && column.Marker() != Some(Trim(text))
  }

  /** The field of a row. A null is the marker and is never refused; a defined cell is its own
      text, and is refused exactly when it is not writable, for the first reason that holds. */
  function FieldOf(column: AsciiColumn, r: nat): (field: Result<Field, AsciiError>)
    requires Validate(column) == None && r < column.cells.Len()
    ensures field.Ok? ==> |field.value.text| <= column.cells.width
    ensures column.cells.IsNull(r) ==> column.tnull.Some? && field == Ok(NullField(column.tnull.value))
    ensures !column.cells.IsNull(r) ==>
              var text := column.cells.TextOf(r);
              && (field.Ok? <==> IsWritable(column, text))
              && (field.Ok? ==> field.value.text == text && !field.value.NullField?)
              && (field == Err(InvalidText) <==> !IsRestrictedAscii(text))
              && (field == Err(MarkerCollision) ==> column.Marker() == Some(Trim(text)) && |text| <= column.cells.width)
  {
    match RawField(column, r)
    case Err(e) => Err(e)
    case Ok(field) =>
      PrintedIsAscii(column.cells, r);
      if |field.text| > column.cells.width then Err(FieldTooWide(column.cells.width, |field.text|))
      else if !field.NullField? && column.Marker() == Some(Trim(field.text)) then Err(MarkerCollision)
      else Ok(field)
  }

  /** `width` characters: spaces, then a number; or any other text, then spaces. */
  function Padded(field: Field, width: nat): (text: string)
    requires |field.text| <= width
    ensures |text| == width
  {
    if field.NumberField? then Spaces(width - |field.text|) + field.text else field.text + Spaces(width - |field.text|)
  }

  function Rendered(column: AsciiColumn, r: nat): (text: Result<string, AsciiError>)
    requires Validate(column) == None && r < column.cells.Len()
    ensures text.Ok? ==> |text.value| == column.cells.width
  {
    match FieldOf(column, r)
    case Err(e) => Err(e)
    case Ok(field) => Ok(Padded(field, column.cells.width))
  }

  // ---- Reading a field ----

  /** A text field: undefined where it is the null marker, else without its trailing blanks. */
  function ReadText(field: string, marker: Option<string>): Option<string> {
    if marker == Some(Trim(field)) then None else Some(TrimEnd(field))
  }

  /** An integer field: undefined where it is the null marker, else its number. */
  function ReadInteger(field: string, marker: Option<string>, row: nat): Result<Option<int>, AsciiError> {
    if marker == Some(Trim(field)) then Ok(None)
    else
      match ParseInteger(Trim(field))
      case Some(value) => Ok(Some(value))
      case None => Err(InvalidField(row, Trim(field)))
  }

  lemma PaddedTrims(field: Field, width: nat)
    requires |field.text| <= width
    ensures Trim(Padded(field, width)) == Trim(field.text)
    ensures !field.NumberField? ==> TrimEnd(Padded(field, width)) == TrimEnd(field.text)
  {
    TrimIndented(width - |field.text|, field.text);
    TrimPadded(field.text, width - |field.text|);
    PaddingDrops(field.text, width - |field.text|);
  }

  /** Every text cell a column writes reads back: a defined one as its text, never as the null
      marker, and a null as a null. */
  lemma TextReadsBack(column: AsciiColumn, r: nat)
    requires column.Valid() && Validate(column) == None && column.cells.TextCells? && r < column.cells.Len()
    requires Rendered(column, r).Ok?
    ensures ReadText(Rendered(column, r).value, column.Marker()) == column.cells.texts[r]
  {
    var field := FieldOf(column, r).value;
    PaddedTrims(field, column.cells.width);
  }

  /** Every integer cell a column writes reads back. */
  lemma IntegerReadsBack(column: AsciiColumn, r: nat)
    requires column.Valid() && Validate(column) == None && column.cells.IntegerCells? && r < column.cells.Len()
    requires Rendered(column, r).Ok?
    ensures ReadInteger(Rendered(column, r).value, column.Marker(), r) == Ok(column.cells.integers[r])
  {
    var field := FieldOf(column, r).value;
    PaddedTrims(field, column.cells.width);
    if column.cells.integers[r].Some? {
      PrintedParses(column.cells.integers[r].value);
      PrintedIsTrimmed(column.cells.integers[r].value);
    }
  }
}

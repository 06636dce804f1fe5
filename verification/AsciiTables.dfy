/** ASCII tables written row by row and read column by column. */
module AsciiTables {
  import opened AsciiFields
  import opened Bytes
  import opened Products
  import TableBuilder

  // ---- Rows ----

  /** Where column `c` starts in its row. */
  function WidthTo(columns: seq<AsciiColumn>, c: nat): nat
    requires c <= |columns|
  {
    if c == 0 then 0 else WidthTo(columns, c - 1) + columns[c - 1].cells.width
  }

  /** The columns are valid as types make them, and each holds `n` cells. */
  predicate AllHold(columns: seq<AsciiColumn>, n: nat) {
    forall c :: 0 <= c < |columns| ==> columns[c].Valid() && columns[c].cells.Len() == n
  }

  predicate AllWritable(columns: seq<AsciiColumn>) {
    forall c :: 0 <= c < |columns| ==> Validate(columns[c]) == None
  }

  type Parts = seq<Result<string, AsciiError>>

  /** The first `k` parts in order, or the first error among them. */
  function Joined(parts: Parts, k: nat): Result<string, AsciiError>
    requires k <= |parts|
  {
    if k == 0 then Ok([])
    else
      match Joined(parts, k - 1)
      case Err(e) => Err(e)
      case Ok(before) =>
        match parts[k - 1]
        case Err(e) => Err(e)
        case Ok(part) => Ok(before + part)
  }

  lemma {:induction false} JoinFails(parts: Parts, i: nat, k: nat)
    requires i <= k <= |parts| && Joined(parts, i).Err?
    ensures Joined(parts, k) == Joined(parts, i)
  {
    if i < k {
      JoinFails(parts, i, k - 1);
    }
  }

  /** What joins holds each part where those before it end. */
  lemma {:induction false} PartInJoined(parts: Parts, i: nat, k: nat)
    requires i < k <= |parts| && Joined(parts, k).Ok?
    ensures parts[i].Ok? && Joined(parts, i).Ok? && |Joined(parts, i).value| + |parts[i].value| <= |Joined(parts, k).value|
    ensures var at := |Joined(parts, i).value|;
            Joined(parts, k).value[at..at + |parts[i].value|] == parts[i].value
  {
    if i < k - 1 {
      PartInJoined(parts, i, k - 1);
    }
  }

  /** The fields of a row. */
  function RowFields(columns: seq<AsciiColumn>, n: nat, r: nat): (parts: Parts)
    requires AllHold(columns, n) && AllWritable(columns) && r < n
    ensures |parts| == |columns|
  {
    seq(|columns|, c requires 0 <= c < |columns| => Rendered(columns[c], r))
  }

  function TableRows(columns: seq<AsciiColumn>, n: nat): (parts: Parts)
    requires AllHold(columns, n) && AllWritable(columns)
    ensures |parts| == n
  {
    seq(n, r requires 0 <= r < n => Joined(RowFields(columns, n, r), |columns|))
  }

  /** The data unit: every row, and of a row every field. */
  function TableText(columns: seq<AsciiColumn>, n: nat): Result<string, AsciiError>
    requires AllHold(columns, n) && AllWritable(columns)
  {
    Joined(TableRows(columns, n), n)
  }

  /** Each part is as wide as its column. */
  ghost predicate AreWide(columns: seq<AsciiColumn>, parts: Parts) {
    |parts| == |columns| && forall c :: 0 <= c < |parts| ==> (parts[c].Ok? ==> |parts[c].value| == columns[c].cells.width)
  }

  /** A row's fields end where its columns do. */
  lemma {:induction false} RowWidth(columns: seq<AsciiColumn>, parts: Parts, c: nat)
    requires AreWide(columns, parts) && c <= |columns|
    ensures Joined(parts, c).Ok? ==> |Joined(parts, c).value| == WidthTo(columns, c)
  {
    if c > 0 {
      RowWidth(columns, parts, c - 1);
    }
  }

  lemma {:induction false} FieldsAreWide(columns: seq<AsciiColumn>, n: nat, r: nat)
    requires AllHold(columns, n) && AllWritable(columns) && r < n
    ensures AreWide(columns, RowFields(columns, n, r))
  {
    var parts := RowFields(columns, n, r);
    forall c | 0 <= c < |parts| && parts[c].Ok? ensures |parts[c].value| == columns[c].cells.width {
      assert parts[c] == Rendered(columns[c], r);
    }
  }

  /** Rows of one length end at its multiples. */
  lemma {:induction false} RowsLength(rows: Parts, len: nat, k: nat)
    requires k <= |rows| && forall r :: 0 <= r < |rows| ==> (rows[r].Ok? ==> |rows[r].value| == len)
    ensures Joined(rows, k).Ok? ==> |Joined(rows, k).value| == Times(k, len)
  {
    if k > 0 {
      RowsLength(rows, len, k - 1);
    }
  }

  lemma {:induction false} RowsAreLong(columns: seq<AsciiColumn>, n: nat)
    requires AllHold(columns, n) && AllWritable(columns)
    ensures var rows := TableRows(columns, n);
            forall r :: 0 <= r < |rows| ==> (rows[r].Ok? ==> |rows[r].value| == WidthTo(columns, |columns|))
  {
    var rows := TableRows(columns, n);
    forall r | 0 <= r < |rows| && rows[r].Ok? ensures |rows[r].value| == WidthTo(columns, |columns|) {
      FieldsAreWide(columns, n, r);
      RowWidth(columns, RowFields(columns, n, r), |columns|);
      assert rows[r] == Joined(RowFields(columns, n, r), |columns|);
    }
  }

  // ---- Writing ----

  /** The row count a table infers from its columns. */
  class AsciiBuilder {
    var rowCount: Option<nat>
    var columns: seq<AsciiColumn>

    /** Every column holds the table's rows. */
    ghost predicate Valid()
      reads this
    {
      (rowCount == None ==> columns == []) && (rowCount.Some? ==> AllHold(columns, rowCount.value))
    }

    constructor ()
      ensures Valid() && rowCount == None && columns == []
    {
      rowCount, columns := None, [];
    }

    constructor WithRows(rows: nat)
      ensures Valid() && rowCount == Some(rows) && columns == []
    {
      rowCount, columns := Some(rows), [];
    }

    /** Append a column: the first fixes the row count, and every later one must agree. */
    method Push(column: AsciiColumn) returns (err: Option<AsciiError>)
      requires Valid() && column.Valid()
      modifies this
      ensures Valid()
      ensures err.Some? <==> old(rowCount).Some? && old(rowCount).value != column.cells.Len()
      ensures err.Some? ==> err == Some(RowCountMismatch(old(rowCount).value, column.cells.Len())) && unchanged(this)
      ensures err == None ==> columns == old(columns) + [column] && rowCount == Some(column.cells.Len())
    {
      var got := column.cells.Len();
      if rowCount.Some? && rowCount.value != got {
        return Some(RowCountMismatch(rowCount.value, got));
      }
      rowCount, columns := Some(got), columns + [column];
      err := None;
    }

    function Rows(): nat
      reads this
    {
      if rowCount.Some? then rowCount.value else 0
    }

    /** The rows, their width and the column each field starts at, counted from one: given
        exactly where every column can be written and no sum passes 64 bits. */
    method Layout() returns (r: Result<AsciiLayout, AsciiError>)
      requires Valid()
      ensures r.Ok? <==> IsLayable(columns)
      ensures r.Ok? ==> IsLayoutOf(r.value, columns, Rows())
    {
      if |columns| > TableBuilder.MAX_TABLE_FIELDS {
        return Err(InvalidFieldCount);
      }
      var len: nat, tbcols: seq<nat> := 0, [];
      for c := 0 to |columns|
        invariant LaidTo(columns, c, len, tbcols) && forall i :: 0 <= i < c ==> Validate(columns[i]) == None
      {
        var refused := RefusedAt(columns, c, len);
        if refused.Some? {
          return Err(refused.value);
        }
        LaidNext(columns, c, len, tbcols);
        tbcols := tbcols + [len + 1];
        len := len + columns[c].cells.width;
      }
      LaidAll(columns, len, tbcols);
      r := Ok(AsciiLayout(Rows(), len, tbcols));
    }

    /** The data unit, row by row. It encodes exactly where the table can be laid out, its header's
        integers hold its numbers, its length fits and every defined cell is writable; then it is
        its rows of the declared width, each with every field in its column's place. A table that
        is laid out is refused only for its first field in row order that is. */
    method Encode() returns (r: Result<string, AsciiError>)
      requires Valid()
      ensures AllHold(columns, Rows())
      ensures r.Ok? <==> IsPlaceable(columns, Rows()) && forall i :: 0 <= i < Rows() ==> HasFields(columns, Rows(), i)
      ensures r.Ok? ==> HoldsFields(columns, Rows(), r.value)
      ensures IsPlaceable(columns, Rows()) ==> r == TableText(columns, Rows())
    {
      var layout := Layout();
      if layout.Err? {
        return Err(layout.error);
      }
      var AsciiLayout(n, len, _) := layout.value;
      var declared := Declares(layout.value);
      if !declared || Times(n, len) > USIZE_MAX {
        return Err(TableOverflow);
      }
      r := EncodeRows(columns, n);
      EncodesWhere(columns, n);
      if r.Ok? {
        FieldsAreHeld(columns, n, r.value);
      }
    }
  }

  // ---- What a table needs ----

  datatype AsciiLayout = AsciiLayout(rowCount: nat, rowLen: nat, tbcols: seq<nat>)

  predicate IsLayoutOf(layout: AsciiLayout, columns: seq<AsciiColumn>, n: nat) {
    && layout.rowCount == n && layout.rowLen == WidthTo(columns, |columns|) && |layout.tbcols| == |columns|
    && forall c :: 0 <= c < |columns| ==> layout.tbcols[c] == WidthTo(columns, c) + 1
  }

  predicate IsLayable(columns: seq<AsciiColumn>) {
    && |columns| <= TableBuilder.MAX_TABLE_FIELDS && AllWritable(columns) && WidthTo(columns, |columns|) <= USIZE_MAX
    && forall c :: 0 <= c < |columns| ==> WidthTo(columns, c) < USIZE_MAX
  }

  /** The first `c` columns are laid out, `len` wide. */
  ghost predicate LaidTo(columns: seq<AsciiColumn>, c: nat, len: nat, tbcols: seq<nat>) {
    && |tbcols| == c <= |columns| && len == WidthTo(columns, c) <= USIZE_MAX
    && forall i :: 0 <= i < c ==> tbcols[i] == WidthTo(columns, i) + 1 <= USIZE_MAX
  }

  lemma {:induction false} LaidNext(columns: seq<AsciiColumn>, c: nat, len: nat, tbcols: seq<nat>)
    requires LaidTo(columns, c, len, tbcols) && c < |columns|
    requires len < USIZE_MAX && WidthTo(columns, c + 1) <= USIZE_MAX
    ensures LaidTo(columns, c + 1, len + columns[c].cells.width, tbcols + [len + 1])
  {
    var next := tbcols + [len + 1];
    forall i | 0 <= i <= c ensures next[i] == WidthTo(columns, i) + 1 <= USIZE_MAX {
      if i < c {
        assert next[i] == tbcols[i];
      }
    }
  }

  lemma LaidAll(columns: seq<AsciiColumn>, len: nat, tbcols: seq<nat>)
    requires LaidTo(columns, |columns|, len, tbcols) && AllWritable(columns) && |columns| <= TableBuilder.MAX_TABLE_FIELDS
    ensures IsLayable(columns) && forall n :: IsLayoutOf(AsciiLayout(n, len, tbcols), columns, n)
  {
  }

  /** Why column `c` ends the layout, when it does. */
  method RefusedAt(columns: seq<AsciiColumn>, c: nat, len: nat) returns (refused: Option<AsciiError>)
    requires c < |columns| && len == WidthTo(columns, c) <= USIZE_MAX
    ensures refused.Some? ==> !IsLayable(columns)
    ensures refused == None ==> Validate(columns[c]) == None && len < USIZE_MAX && WidthTo(columns, c + 1) <= USIZE_MAX
  {
    WidthRises(columns, c + 1, |columns|);
    var invalid := Validate(columns[c]);
    if invalid.Some? {
      return invalid;
    }
    if len == USIZE_MAX || len + columns[c].cells.width > USIZE_MAX {
      return Some(TableOverflow);
    }
    refused := None;
  }

  /** The table can be laid out, with numbers its header's integers hold and of a length that
      fits. */
  predicate IsPlaceable(columns: seq<AsciiColumn>, n: nat) {
    && IsLayable(columns) && n <= I64_MAX && WidthTo(columns, |columns|) <= I64_MAX
    && (forall c :: 0 <= c < |columns| ==> WidthTo(columns, c) < I64_MAX)
    && Times(n, WidthTo(columns, |columns|)) <= USIZE_MAX
  }

  /** Whether row `r` has a field of column `c`: a null always, a defined cell when it is
      writable. */
  predicate HasField(columns: seq<AsciiColumn>, c: nat, r: nat)
    requires c < |columns| && r < columns[c].cells.Len()
  {
    columns[c].cells.IsNull(r) || IsWritable(columns[c], columns[c].cells.TextOf(r))
  }

  predicate HasFields(columns: seq<AsciiColumn>, n: nat, r: nat)
    requires AllHold(columns, n) && r < n
  {
    forall c :: 0 <= c < |columns| ==> HasField(columns, c, r)
  }

  /** `data` is `n` rows as wide as the columns, with each field padded in its column's place. */
  predicate HoldsFields(columns: seq<AsciiColumn>, n: nat, data: string)
    requires AllHold(columns, n)
  {
    var len := WidthTo(columns, |columns|);
    && AllWritable(columns) && |data| == Times(n, len)
    && forall r, c :: 0 <= r < n && 0 <= c < |columns| ==> HoldsField(columns, n, data, len, r, c)
  }

  predicate HoldsField(columns: seq<AsciiColumn>, n: nat, data: string, len: nat, r: nat, c: nat)
    requires AllHold(columns, n) && AllWritable(columns) && r < n && c < |columns|
  {
    Fits(FormOf(columns, c), data, n, len) && Rendered(columns[c], r) == Ok(FieldText(FormOf(columns, c), data, n, len, r))
  }

  /** Whether the header's integers hold the layout's numbers. */
  method Declares(layout: AsciiLayout) returns (ok: bool)
    ensures ok <==> layout.rowLen <= I64_MAX && layout.rowCount <= I64_MAX
                    && forall c :: 0 <= c < |layout.tbcols| ==> layout.tbcols[c] <= I64_MAX
  {
    if layout.rowLen > I64_MAX || layout.rowCount > I64_MAX {
      return false;
    }
    for c := 0 to |layout.tbcols|
      invariant forall i :: 0 <= i < c ==> layout.tbcols[i] <= I64_MAX
    {
      if layout.tbcols[c] > I64_MAX {
        return false;
      }
    }
    ok := true;
  }

  lemma {:induction false} JoinsWhere(parts: Parts, k: nat)
    requires k <= |parts|
    ensures Joined(parts, k).Ok? <==> forall i :: 0 <= i < k ==> parts[i].Ok?
  {
    if k > 0 {
      JoinsWhere(parts, k - 1);
    }
  }

  /** A laid-out table encodes exactly where each of its cells has a field. */
  lemma {:induction false} EncodesWhere(columns: seq<AsciiColumn>, n: nat)
    requires AllHold(columns, n) && AllWritable(columns)
    ensures TableText(columns, n).Ok? <==> forall r :: 0 <= r < n ==> HasFields(columns, n, r)
  {
    var rows := TableRows(columns, n);
    JoinsWhere(rows, n);
    forall r | 0 <= r < n ensures rows[r].Ok? <==> HasFields(columns, n, r) {
      assert rows[r] == Joined(RowFields(columns, n, r), |columns|);
      RowEncodesWhere(columns, n, r);
    }
  }

  lemma {:induction false} RowEncodesWhere(columns: seq<AsciiColumn>, n: nat, r: nat)
    requires AllHold(columns, n) && AllWritable(columns) && r < n
    ensures Joined(RowFields(columns, n, r), |columns|).Ok? <==> HasFields(columns, n, r)
  {
    var fields := RowFields(columns, n, r);
    JoinsWhere(fields, |columns|);
    forall c | 0 <= c < |columns| ensures fields[c].Ok? <==> HasField(columns, c, r) {
      assert fields[c] == Rendered(columns[c], r);
    }
  }

  /** An encoded table holds its fields. */
  lemma {:induction false} FieldsAreHeld(columns: seq<AsciiColumn>, n: nat, data: string)
    requires AllHold(columns, n) && AllWritable(columns) && TableText(columns, n) == Ok(data)
    ensures HoldsFields(columns, n, data)
  {
    var len := WidthTo(columns, |columns|);
    DataLength(columns, n, data, len);
    forall r, c | 0 <= r < n && 0 <= c < |columns| ensures HoldsField(columns, n, data, len, r, c) {
      var rows, fields := WrittenRow(columns, n, data, r, len);
      WrittenField(columns, rows, fields, data, r, c, len);
    }
  }

  lemma {:induction false} WidthRises(columns: seq<AsciiColumn>, c: nat, k: nat)
    requires c <= k <= |columns|
    ensures WidthTo(columns, c) <= WidthTo(columns, k)
  {
    if c < k {
      WidthRises(columns, c, k - 1);
    }
  }

  method EncodeRows(columns: seq<AsciiColumn>, n: nat) returns (r: Result<string, AsciiError>)
    requires AllHold(columns, n) && AllWritable(columns)
    ensures r == TableText(columns, n)
  {
    ghost var rows := TableRows(columns, n);
    var out := "";
    for row := 0 to n
      invariant Joined(rows, row) == Ok(out)
    {
      var text := EncodeRow(columns, n, row);
      assert rows[row] == text;
      if text.Err? {
        JoinFails(rows, row + 1, n);
        return Err(text.error);
      }
      out := out + text.value;
    }
    r := Ok(out);
  }

  /** The row's fields joined in column order, or the first that is refused. */
  method EncodeRow(columns: seq<AsciiColumn>, n: nat, row: nat) returns (r: Result<string, AsciiError>)
    requires AllHold(columns, n) && AllWritable(columns) && row < n
    ensures r == Joined(RowFields(columns, n, row), |columns|)
  {
    ghost var fields := RowFields(columns, n, row);
    var out := "";
    for c := 0 to |columns|
      invariant Joined(fields, c) == Ok(out)
    {
      var field := Rendered(columns[c], row);
      assert fields[c] == field;
      if field.Err? {
        JoinFails(fields, c + 1, |columns|);
        return Err(field.error);
      }
      out := out + field.value;
    }
    r := Ok(out);
  }

  // ---- Reading ----

  /** A column as its header declares it: its form and width, where it starts, and its null marker
      trimmed. */
  datatype FieldForm = FieldForm(isText: bool, width: nat, offset: nat, marker: Option<string>)

  datatype Values = Texts(texts: seq<Option<string>>) | Integers(integers: seq<Option<int>>)

  function FormOf(columns: seq<AsciiColumn>, c: nat): FieldForm
    requires c < |columns|
  {
    FieldForm(columns[c].cells.TextCells?, columns[c].cells.width, WidthTo(columns, c), columns[c].Marker())
  }

  /** The field lies within each row, and the rows within the data. */
  predicate Fits(form: FieldForm, data: string, n: nat, rowLen: nat) {
    form.offset + form.width <= rowLen && Times(n, rowLen) <= |data|
  }

  /** The complete text of a field. */
  function FieldText(form: FieldForm, data: string, n: nat, rowLen: nat, r: nat): string
    requires Fits(form, data, n, rowLen) && r < n
  {
    TimesRises(r + 1, n, rowLen);
    data[Times(r, rowLen) + form.offset..Times(r, rowLen) + form.offset + form.width]
  }

  /** The text fields of the first `k` rows. */
  function TextsTo(form: FieldForm, data: string, n: nat, rowLen: nat, k: nat): seq<Option<string>>
    requires Fits(form, data, n, rowLen) && k <= n
  {
    if k == 0 then []
    else TextsTo(form, data, n, rowLen, k - 1) + [ReadText(FieldText(form, data, n, rowLen, k - 1), form.marker)]
  }

  /** The integer fields of the first `k` rows, or the first that holds no number. */
  function IntegersTo(form: FieldForm, data: string, n: nat, rowLen: nat, k: nat): Result<seq<Option<int>>, AsciiError>
    requires Fits(form, data, n, rowLen) && k <= n
  {
    if k == 0 then Ok([])
    else
      match IntegersTo(form, data, n, rowLen, k - 1)
      case Err(e) => Err(e)
      case Ok(before) =>
        match ReadInteger(FieldText(form, data, n, rowLen, k - 1), form.marker, k - 1)
        case Err(e) => Err(e)
        case Ok(value) => Ok(before + [value])
  }

  function ReadColumn(form: FieldForm, data: string, n: nat, rowLen: nat): Result<Values, AsciiError>
    requires Fits(form, data, n, rowLen)
  {
    if form.isText then Ok(Texts(TextsTo(form, data, n, rowLen, n)))
    else
      match IntegersTo(form, data, n, rowLen, n)
      case Err(e) => Err(e)
      case Ok(values) => Ok(Integers(values))
  }

  /** Decode the stored fields, row by row. */
  method RawInto(form: FieldForm, data: string, n: nat, rowLen: nat) returns (r: Result<Values, AsciiError>)
    requires Fits(form, data, n, rowLen)
    ensures r == ReadColumn(form, data, n, rowLen)
  {
    if form.isText {
      var texts := [];
      for row := 0 to n
        invariant texts == TextsTo(form, data, n, rowLen, row)
      {
        texts := texts + [ReadText(FieldText(form, data, n, rowLen, row), form.marker)];
      }
      return Ok(Texts(texts));
    }
    var values := [];
    for row := 0 to n
      invariant IntegersTo(form, data, n, rowLen, row) == Ok(values)
    {
      var value := ReadInteger(FieldText(form, data, n, rowLen, row), form.marker, row);
      if value.Err? {
        IntegersFail(form, data, n, rowLen, row + 1, n);
        return Err(value.error);
      }
      values := values + [value.value];
    }
    r := Ok(Integers(values));
  }

  lemma {:induction false} IntegersFail(form: FieldForm, data: string, n: nat, rowLen: nat, c: nat, k: nat)
    requires Fits(form, data, n, rowLen) && c <= k <= n && IntegersTo(form, data, n, rowLen, c).Err?
    ensures IntegersTo(form, data, n, rowLen, k) == IntegersTo(form, data, n, rowLen, c)
  {
    if c < k {
      IntegersFail(form, data, n, rowLen, c, k - 1);
    }
  }

  // ---- The round trip ----

  /** A written table holds every field where its column's form says. */
  lemma {:induction false} WrittenField(columns: seq<AsciiColumn>, rows: Parts, fields: Parts, data: string, r: nat, c: nat, len: nat)
    requires r < |rows| && c < |columns| && AreWide(columns, fields) && len == WidthTo(columns, |columns|)
    requires rows[r] == Joined(fields, |columns|) && Joined(rows, |rows|) == Ok(data)
    requires forall i :: 0 <= i < |rows| ==> (rows[i].Ok? ==> |rows[i].value| == len)
    ensures Fits(FormOf(columns, c), data, |rows|, len) && fields[c].Ok?
    ensures FieldText(FormOf(columns, c), data, |rows|, len, r) == fields[c].value
  {
    FieldPlace(columns, rows, fields, data, r, c, len);
    FieldAt(FormOf(columns, c), data, |rows|, len, r, fields[c].value);
  }

  /** The fields of a written row. */
  lemma {:induction false} WrittenRow(columns: seq<AsciiColumn>, n: nat, data: string, r: nat, len: nat) returns (rows: Parts, fields: Parts)
    requires AllHold(columns, n) && AllWritable(columns) && TableText(columns, n) == Ok(data) && r < n
    requires len == WidthTo(columns, |columns|)
    ensures |rows| == n && AreWide(columns, fields) && rows[r] == Joined(fields, |columns|) && Joined(rows, n) == Ok(data)
    ensures forall i :: 0 <= i < n ==> (rows[i].Ok? ==> |rows[i].value| == len)
    ensures forall c :: 0 <= c < |columns| ==> fields[c] == Rendered(columns[c], r)
  {
    rows, fields := TableRows(columns, n), RowFields(columns, n, r);
    RowsAreLong(columns, n);
    FieldsAreWide(columns, n, r);
  }

  lemma {:induction false} FieldAt(form: FieldForm, data: string, n: nat, len: nat, r: nat, field: string)
    requires r < n && form.offset + form.width <= len && |data| == Times(n, len) && Times(r, len) + len <= |data|
    requires data[Times(r, len) + form.offset..Times(r, len) + form.offset + form.width] == field
    ensures Fits(form, data, n, len) && FieldText(form, data, n, len, r) == field
  {
  }

  /** Where a field of a row of a table lies. */
  lemma {:induction false} FieldPlace(columns: seq<AsciiColumn>, rows: Parts, fields: Parts, data: string, r: nat, c: nat, len: nat)
    requires r < |rows| && c < |columns| && AreWide(columns, fields) && len == WidthTo(columns, |columns|)
    requires rows[r] == Joined(fields, |columns|) && Joined(rows, |rows|) == Ok(data)
    requires forall i :: 0 <= i < |rows| ==> (rows[i].Ok? ==> |rows[i].value| == len)
    ensures fields[c].Ok? && |fields[c].value| == columns[c].cells.width
    ensures WidthTo(columns, c) + columns[c].cells.width <= len && Times(r, len) + len <= |data| == Times(|rows|, len)
    ensures data[Times(r, len) + WidthTo(columns, c)..Times(r, len) + WidthTo(columns, c) + columns[c].cells.width] == fields[c].value
  {
    RowsLength(rows, len, r);
    RowsLength(rows, len, |rows|);
    PartInJoined(rows, r, |rows|);
    RowWidth(columns, fields, c);
    PartInJoined(fields, c, |columns|);
    SliceOfSlice(data, Times(r, len), len, WidthTo(columns, c), columns[c].cells.width);
  }

  lemma {:induction false} SliceOfSlice(data: string, at: nat, len: nat, offset: nat, width: nat)
    requires at + len <= |data| && offset + width <= len
    ensures data[at..at + len][offset..offset + width] == data[at + offset..at + offset + width]
  {
    var a, b := data[at..at + len][offset..offset + width], data[at + offset..at + offset + width];
    assert forall i :: 0 <= i < width ==> a[i] == b[i];
  }

  lemma {:induction false} DataLength(columns: seq<AsciiColumn>, n: nat, data: string, len: nat)
    requires AllHold(columns, n) && AllWritable(columns) && TableText(columns, n) == Ok(data)
    requires len == WidthTo(columns, |columns|)
    ensures |data| == Times(n, len)
  {
    RowsAreLong(columns, n);
    RowsLength(TableRows(columns, n), len, n);
  }

  lemma {:induction false} WrittenFits(columns: seq<AsciiColumn>, n: nat, data: string, c: nat, len: nat)
    requires AllHold(columns, n) && AllWritable(columns) && TableText(columns, n) == Ok(data) && c < |columns|
    requires len == WidthTo(columns, |columns|)
    ensures |data| == Times(n, len) && Fits(FormOf(columns, c), data, n, len)
  {
    WidthRises(columns, c + 1, |columns|);
    DataLength(columns, n, data, len);
  }

  /** The text fields read as `texts`. */
  ghost predicate ReadAsTexts(form: FieldForm, data: string, n: nat, rowLen: nat, texts: seq<Option<string>>) {
    && Fits(form, data, n, rowLen) && |texts| == n
    && forall r: nat :: r < n ==> ReadText(FieldText(form, data, n, rowLen, r), form.marker) == texts[r]
  }

  lemma {:induction false} TextsRead(form: FieldForm, data: string, n: nat, rowLen: nat, texts: seq<Option<string>>, k: nat)
    requires ReadAsTexts(form, data, n, rowLen, texts) && k <= n
    ensures TextsTo(form, data, n, rowLen, k) == texts[..k]
  {
    if k > 0 {
      TextsRead(form, data, n, rowLen, texts, k - 1);
    }
  }

  /** The integer fields read as `integers`. */
  ghost predicate ReadAsIntegers(form: FieldForm, data: string, n: nat, rowLen: nat, integers: seq<Option<int>>) {
    && Fits(form, data, n, rowLen) && |integers| == n
    && forall r: nat :: r < n ==> ReadInteger(FieldText(form, data, n, rowLen, r), form.marker, r) == Ok(integers[r])
  }

  lemma {:induction false} IntegersRead(form: FieldForm, data: string, n: nat, rowLen: nat, integers: seq<Option<int>>, k: nat)
    requires ReadAsIntegers(form, data, n, rowLen, integers) && k <= n
    ensures IntegersTo(form, data, n, rowLen, k) == Ok(integers[..k])
  {
    if k > 0 {
      IntegersRead(form, data, n, rowLen, integers, k - 1);
      assert integers[..k] == integers[..k - 1] + [integers[k - 1]];
    }
  }

  function CellsOf(cells: Cells): Values {
    if cells.TextCells? then Texts(cells.texts) else Integers(cells.integers)
  }

  /** Every table that encodes reads back: each column to exactly its cells, defined or null, and
      the data unit is its rows of exactly the declared width. */
  lemma {:induction false} TableReadsBack(columns: seq<AsciiColumn>, n: nat, data: string, c: nat)
    requires AllHold(columns, n) && AllWritable(columns) && TableText(columns, n) == Ok(data) && c < |columns|
    ensures |data| == n * WidthTo(columns, |columns|)
    ensures Fits(FormOf(columns, c), data, n, WidthTo(columns, |columns|))
    ensures ReadColumn(FormOf(columns, c), data, n, WidthTo(columns, |columns|)) == Ok(CellsOf(columns[c].cells))
  {
    var len, form := WidthTo(columns, |columns|), FormOf(columns, c);
    TimesIs(n, len);
    WrittenFits(columns, n, data, c, len);
    if columns[c].cells.TextCells? {
      ColumnReadsTexts(columns, n, data, c, len);
      TextsRead(form, data, n, len, columns[c].cells.texts, n);
      assert columns[c].cells.texts[..n] == columns[c].cells.texts;
    } else {
      ColumnReadsIntegers(columns, n, data, c, len);
      IntegersRead(form, data, n, len, columns[c].cells.integers, n);
      assert columns[c].cells.integers[..n] == columns[c].cells.integers;
    }
  }

  lemma {:induction false} ColumnReadsTexts(columns: seq<AsciiColumn>, n: nat, data: string, c: nat, len: nat)
    requires AllHold(columns, n) && AllWritable(columns) && TableText(columns, n) == Ok(data) && c < |columns|
    requires len == WidthTo(columns, |columns|) && Fits(FormOf(columns, c), data, n, len) && columns[c].cells.TextCells?
    ensures ReadAsTexts(FormOf(columns, c), data, n, len, columns[c].cells.texts)
  {
    forall r: nat | r < n
      ensures ReadText(FieldText(FormOf(columns, c), data, n, len, r), columns[c].Marker()) == columns[c].cells.texts[r]
    {
      var rows, fields := WrittenRow(columns, n, data, r, len);
      WrittenField(columns, rows, fields, data, r, c, len);
      TextReadsBack(columns[c], r);
    }
  }

  lemma {:induction false} ColumnReadsIntegers(columns: seq<AsciiColumn>, n: nat, data: string, c: nat, len: nat)
    requires AllHold(columns, n) && AllWritable(columns) && TableText(columns, n) == Ok(data) && c < |columns|
    requires len == WidthTo(columns, |columns|) && Fits(FormOf(columns, c), data, n, len) && columns[c].cells.IntegerCells?
    ensures ReadAsIntegers(FormOf(columns, c), data, n, len, columns[c].cells.integers)
  {
    forall r: nat | r < n
      ensures ReadInteger(FieldText(FormOf(columns, c), data, n, len, r), columns[c].Marker(), r) == Ok(columns[c].cells.integers[r])
    {
      var rows, fields := WrittenRow(columns, n, data, r, len);
      WrittenField(columns, rows, fields, data, r, c, len);
      IntegerReadsBack(columns[c], r);
    }
  }
}

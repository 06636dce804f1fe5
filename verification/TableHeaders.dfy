/** The headers a writer makes of a table: they declare its rows and its heap. */
module TableHeaders {
  import opened Bytes
  import opened HduHeaders
  import opened HduUnits
  import opened HeaderModel
  import opened Headers
  import opened Products
  import opened Prologues
  import HeaderRender
  import TableBody
  import Tables

  const BINTABLE := "BINTABLE"
  const TABLE := "TABLE"

  /** Record by record of one name and value: only comments differ. */
  ghost predicate SameButComments(a: seq<Record>, b: seq<Record>) {
    |a| == |b| && forall i :: 0 <= i < |a| ==> SameReading(a[i], b[i])
  }

  ghost predicate SameReading(a: Record, b: Record) {
    a.KeywordOf() == b.KeywordOf() && (a.KeywordOf().Some? ==> a.ValueOrDefect() == b.ValueOrDefect())
  }

  lemma {:induction false} FoundAlike(a: seq<Record>, b: seq<Record>, keyword: string, i: nat)
    requires SameButComments(a, b) && i <= |a|
    ensures FirstOf(a, KeywordName(keyword), i) == FirstOf(b, KeywordName(keyword), i)
    decreases |a| - i
  {
    if i < |a| {
      assert SameReading(a[i], b[i]);
      FoundAlike(a, b, keyword, i + 1);
    }
  }

  /** No lookup reads a comment. */
  lemma {:induction false} CommentsUnread(a: seq<Record>, b: seq<Record>, keyword: string)
    requires SameButComments(a, b)
    ensures ReaderOf(a)(keyword) == ReaderOf(b)(keyword)
  {
    FoundAlike(a, b, keyword, 0);
    var at := FirstOf(a, KeywordName(keyword), 0);
    if at.Some? {
      assert SameReading(a[at.value], b[at.value]);
    }
  }

  /** A table's header: its prologue, of rows of `rowLen` bytes and a heap, under any comments,
      then its columns' keywords, none of which says what it is. */
  ghost predicate IsTableHeader(records: seq<Record>, xtension: string, rowLen: nat, rows: nat, heapLen: nat) {
    && rowLen <= I64_MAX && rows <= I64_MAX && heapLen <= I64_MAX
    && exists columns: seq<Record> ::
         && SameButComments(records, PrologueRecords(OpensExtension(xtension, heapLen), U8, [rowLen, rows]) + columns)
         && LacksStructure(columns)
  }

  /** The records of a binary table's header: its prologue, the axes with what they count, and the
      keywords of its columns. */
  function TableRecords(rowLen: nat, rows: nat, heapLen: nat, columns: seq<Record>): seq<Record> {
    var axes := [rowLen, rows];
    var prologue := PrologueRecords(OpensExtension(BINTABLE, heapLen), U8, axes);
    prologue[3 := WithComment(prologue[3], "width of table in bytes")][4 := WithComment(prologue[4], "number of rows")] + columns
  }

  lemma TableRecordsAre(rowLen: nat, rows: nat, heapLen: nat, columns: seq<Record>)
    requires rowLen <= I64_MAX && rows <= I64_MAX && heapLen <= I64_MAX && LacksStructure(columns)
    ensures IsTableHeader(TableRecords(rowLen, rows, heapLen, columns), BINTABLE, rowLen, rows, heapLen)
  {
    var plain := PrologueRecords(OpensExtension(BINTABLE, heapLen), U8, [rowLen, rows]) + columns;
    assert SameButComments(TableRecords(rowLen, rows, heapLen, columns), plain);
  }

  ghost predicate LacksStructure(columns: seq<Record>) {
    Lacks(columns, "GROUPS") && Lacks(columns, "XTENSION") && Lacks(columns, "ZIMAGE") && Lacks(columns, "ZTABLE")
  }

  /** The bytes of a table's data unit. */
  function TableLen(rowLen: nat, rows: nat, heapLen: nat): nat {
    Times(rows, rowLen) + heapLen
  }

  /** The array of a table is its rows. */
  lemma {:induction false} TableProduct(rowLen: nat, rows: nat)
    requires Times(rows, rowLen) <= USIZE_MAX
    ensures AxisProduct([rowLen, rows], 0) == Some(Times(rows, rowLen))
  {
    TimesCommutes(rows, rowLen);
    if rowLen != 0 && rows != 0 {
      var axes := [rowLen, rows];
      assert 0 !in axes;
      TimesRises(1, rows, rowLen);
      TimesIs(1, rowLen);
      assert ProductTo(axes, 0) == Some(1);
      assert ProductTo(axes, 1) == Some(rowLen);
      assert ProductTo(axes, 2) == Some(Times(rowLen, rows));
    } else {
      TimesIs(rows, rowLen);
    }
  }

  /** A table's header reads as its prologue, and flags no compression. */
  lemma TableReads(records: seq<Record>, xtension: string, rowLen: nat, rows: nat, heapLen: nat)
    requires IsTableHeader(records, xtension, rowLen, rows, heapLen)
    ensures var read := ReaderOf(records);
            ReadsAs(read, OpensExtension(xtension, heapLen), U8, [rowLen, rows]) && read("ZIMAGE") == Ok(None) && read("ZTABLE") == Ok(None)
  {
    var opening := OpensExtension(xtension, heapLen);
    var columns: seq<Record> :| SameButComments(records, PrologueRecords(opening, U8, [rowLen, rows]) + columns) && LacksStructure(columns);
    var plain := PrologueRecords(opening, U8, [rowLen, rows]) + columns;
    PlainReads(opening, [rowLen, rows], columns);
    ReadsThrough(records, plain, opening, [rowLen, rows]);
  }

  lemma PlainReads(opening: Opening, axes: seq<nat>, columns: seq<Record>)
    requires opening.OpensExtension? && LacksStructure(columns)
    ensures var read := ReaderOf(PrologueRecords(opening, U8, axes) + columns);
            ReadsAs(read, opening, U8, axes) && read("ZIMAGE") == Ok(None) && read("ZTABLE") == Ok(None)
  {
    PrologueReads(PrologueRecords(opening, U8, axes) + columns, opening, U8, axes, columns);
    NoCompression(opening, axes, columns, "ZIMAGE");
    NoCompression(opening, axes, columns, "ZTABLE");
  }

  lemma ReadsThrough(records: seq<Record>, plain: seq<Record>, opening: Opening, axes: seq<nat>)
    requires SameButComments(records, plain) && ReadsAs(ReaderOf(plain), opening, U8, axes)
    requires ReaderOf(plain)("ZIMAGE") == Ok(None) && ReaderOf(plain)("ZTABLE") == Ok(None)
    ensures ReadsAs(ReaderOf(records), opening, U8, axes)
    ensures ReaderOf(records)("ZIMAGE") == Ok(None) && ReaderOf(records)("ZTABLE") == Ok(None)
  {
    forall keyword ensures ReaderOf(records)(keyword) == ReaderOf(plain)(keyword) {
      CommentsUnread(records, plain, keyword);
    }
    ReadsAsAlike(ReaderOf(records), ReaderOf(plain), opening, axes);
  }

  lemma ReadsAsAlike(a: Reader, b: Reader, opening: Opening, axes: seq<nat>)
    requires ReadsAs(b, opening, U8, axes) && forall keyword :: a(keyword) == b(keyword)
    ensures ReadsAs(a, opening, U8, axes)
  {
  }

  lemma NoCompression(opening: Opening, axes: seq<nat>, columns: seq<Record>, keyword: string)
    requires keyword == "ZIMAGE" || keyword == "ZTABLE"
    requires opening.OpensExtension? && Lacks(columns, keyword)
    ensures ReaderOf(PrologueRecords(opening, U8, axes) + columns)(keyword) == Ok(None)
  {
    assert keyword[0] == 'Z';
    PrologueLacks(opening, U8, axes, keyword);
    BothLack(PrologueRecords(opening, U8, axes), columns, keyword);
    AbsentReads(PrologueRecords(opening, U8, axes) + columns, keyword);
  }

  function TableKindOf(xtension: string): HduKind {
    if xtension == TABLE then AsciiTable else BinTable
  }

  lemma TableUnit(read: Reader, kind: HduKind, xtension: string, rowLen: nat, rows: nat, heapLen: nat)
    requires ReadsAs(read, OpensExtension(xtension, heapLen), U8, [rowLen, rows]) && (kind.BinTable? || kind.AsciiTable?)
    requires heapLen <= I64_MAX && TableLen(rowLen, rows, heapLen) <= USIZE_MAX
    ensures UnpaddedBytes(kind, 1, [rowLen, rows], read) == Ok(TableLen(rowLen, rows, heapLen))
  {
    TableProduct(rowLen, rows);
    OneGroup(read, 1, Times(rows, rowLen), heapLen);
    TimesIs(1, heapLen + Times(rows, rowLen));
  }

  lemma TableKind(read: Reader, xtension: string)
    requires read("XTENSION") == Ok(Some(Text(xtension))) && (xtension == BINTABLE || xtension == TABLE)
    requires read("ZIMAGE") == Ok(None) && read("ZTABLE") == Ok(None)
    ensures KindOf(read, AtExtension) == Ok(TableKindOf(xtension))
  {
    assert BINTABLE[0] == 'B' && TABLE[0] == 'T' && "IMAGE"[0] == 'I';
  }

  /** A table's header declares exactly its rows and its heap, whatever the template: no table is
      refused for its length, and the first one written goes after an empty primary. */
  lemma TableDeclares(records: seq<Record>, xtension: string, rowLen: nat, rows: nat, heapLen: nat, template: seq<Record>, next: HduPosition)
    requires IsTableHeader(records, xtension, rowLen, rows, heapLen) && (xtension == BINTABLE || xtension == TABLE)
    requires TableLen(rowLen, rows, heapLen) <= USIZE_MAX && Pads(TableLen(rowLen, rows, heapLen))
    ensures RoleOf(ReaderOf(records + FromTemplate(template)), next, TableLen(rowLen, rows, heapLen))
         == Ok(Role(AtExtension, TableKindOf(xtension)))
  {
    var a, b, kind := ReaderOf(records + FromTemplate(template)), ReaderOf(records), TableKindOf(xtension);
    TableReads(records, xtension, rowLen, rows, heapLen);
    TableKind(b, xtension);
    ArrayAxes(b, [rowLen, rows]);
    TableUnit(b, kind, xtension, rowLen, rows, heapLen);
    DeclaredBytes(b, kind, U8, [rowLen, rows]);
    TemplateReadsAlike(records, template);
    KindsAlike(a, b, AtExtension);
    BytesAlike(a, b, kind);
    TableRole(a, next, kind, xtension, TableLen(rowLen, rows, heapLen));
  }

  lemma TableRole(read: Reader, next: HduPosition, kind: HduKind, xtension: string, len: nat)
    requires read("XTENSION") == Ok(Some(Text(xtension))) && KindOf(read, AtExtension) == Ok(kind)
    requires DataBytes(kind, read) == Ok(len) && len <= USIZE_MAX
    ensures RoleOf(read, next, len) == Ok(Role(AtExtension, kind))
  {
  }

  /** The fill of an ASCII table is blanks, and of any other data unit zeros. */
  lemma FillIs(kind: HduKind, body: seq<Byte>, i: nat)
    requires |body| <= i < |WithFill(kind, body)|
    ensures WithFill(kind, body)[i] == (if kind.AsciiTable? then ' ' as int else 0)
    ensures |WithFill(kind, body)| < |body| + 2880
  {
  }

  /** A table laid out, under a header of its layout, is never refused for its length: what the
      header declares is what its cells pack to. */
  lemma TablePlan(table: TableBody.TableToWrite, records: seq<Record>, template: seq<Record>, next: HduPosition, rules: Rules, render: HeaderRender.Renderer)
    requires table.Valid() && AreRules(rules, render)
    requires IsTableHeader(records, BINTABLE, table.layout.rowLen, table.layout.rowCount, table.layout.heapLen)
    requires Pads(|table.Unit()|) && |table.Unit()| <= USIZE_MAX
    ensures rules.roles(records + FromTemplate(template), next, |table.Unit()|) == Ok(Role(AtExtension, BinTable))
  {
    var layout, len := table.layout, |table.Unit()|;
    TableBody.UnitLen(table);
    Tables.RowStartIs(layout.rowCount, layout.rowLen);
    TimesIs(layout.rowCount, layout.rowLen);
    assert TableLen(layout.rowLen, layout.rowCount, layout.heapLen) == len;
    TableDeclares(records, BINTABLE, layout.rowLen, layout.rowCount, layout.heapLen, template, next);
    assert rules.roles(records + FromTemplate(template), next, len) == RoleOf(ReaderOf(records + FromTemplate(template)), next, len);
  }
}

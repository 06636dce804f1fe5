/** A binary table written from its columns: laid out, declared, committed and read back. */
module TableRuns {
  import opened Bytes
  import opened HduHeaders
  import opened HduUnits
  import opened HduWriter
  import opened HeaderModel
  import opened Headers
  import opened ImageHeaders
  import opened Prologues
  import opened TableBody
  import opened TableBuilder
  import opened TableHeaders
  import opened TableLayout
  import opened Tables
  import opened WrittenCells
  import HeaderRender
  import TableSelection

  datatype TableRefusal = Unlaid(layout: LayoutError) | Unwritten(writer: WriterError)

  /** A reader of the table's data unit finds the cell: a fixed one's bytes where its column says,
      an array's element count and payload through its descriptor. */
  ghost predicate CellReadsBack(columns: seq<WriteColumn>, n: nat, unit: seq<Byte>, r: nat, c: nat)
    requires AllHold(columns, n) && RowStart(n, WidthTo(ColumnsOf(columns), |columns|)) <= |unit| <= USIZE_MAX
    requires r < n && c < |columns|
  {
    var s := WrittenSchema(columns, n, unit);
    && TableSelection.RowIn(unit, s.extent.rowLen, r)
    && if columns[c].Fixed? then TableSelection.CellBytes(s, unit, c, r) == Concat(columns[c].Row(n, r))
       else s.columns[c].storage.Array?
            && TableSelection.Finds(s, unit, c, r, |columns[c].Row(n, r)|, Concat(columns[c].Row(n, r)))
  }

  /** `unit` is the table: every cell reads back. */
  ghost predicate ReadsBack(columns: seq<WriteColumn>, n: nat, unit: seq<Byte>) {
    && AllHold(columns, n) && RowStart(n, WidthTo(ColumnsOf(columns), |columns|)) <= |unit| <= USIZE_MAX
    && forall r, c :: 0 <= r < n && 0 <= c < |columns| ==> CellReadsBack(columns, n, unit, r, c)
  }

  lemma {:induction false} UnitReadsBack(table: TableToWrite)
    requires table.Valid() && |table.Unit()| <= USIZE_MAX
    ensures ReadsBack(table.columns, table.rowCount, table.Unit())
  {
    var columns, n, unit := table.columns, table.rowCount, table.Unit();
    UnitLen(table);
    forall r, c | 0 <= r < n && 0 <= c < |columns| ensures CellReadsBack(columns, n, unit, r, c) {
      if columns[c].Fixed? {
        FixedReadsBack(columns, n, unit, r, c);
      } else {
        ArrayReadsBack(columns, n, unit, r, c);
      }
    }
  }

  /** The HDU holds the table: an extension of a binary table's kind, that declares the table's
      rows and heap, and whose data unit reads back cell by cell. */
  ghost predicate HoldsTable(hdu: Hdu, table: TableToWrite)
    requires table.Valid()
  {
    && hdu.position.AtExtension? && hdu.kind.BinTable? && hdu.body == table.Unit()
    && ReadsAs(ReaderOf(hdu.records), OpensExtension(BINTABLE, table.layout.heapLen), U8, [table.layout.rowLen, table.layout.rowCount])
    && ReadsBack(table.columns, table.rowCount, hdu.body)
  }

  /** A role is only ever of a length that fits with its fill. */
  lemma RoleFits(read: Reader, next: HduPosition, len: nat)
    requires RoleOf(read, next, len).Ok?
    ensures len <= USIZE_MAX && Pads(len)
  {
  }

  /** The records a table's HDU carries. */
  ghost function RecordsFor(table: TableToWrite, described: seq<Record>, template: Option<seq<Record>>): seq<Record>
  {
    MergedRecords(TableRecords(table.layout.rowLen, table.layout.rowCount, table.layout.heapLen, described), template)
  }

  /** A table's length, when it and its fill fit, is the length its header declares. */
  lemma {:induction false} TableIsDeclared(
    table: TableToWrite, described: seq<Record>, template: Option<seq<Record>>, next: HduPosition, rules: Rules, render: HeaderRender.Renderer)
    requires table.Valid() && AreRules(rules, render) && LacksStructure(described)
    requires Pads(|table.Unit()|) && |table.Unit()| <= USIZE_MAX
    ensures rules.roles(RecordsFor(table, described, template), next, |table.Unit()|) == Ok(Role(AtExtension, BinTable))
    ensures ReadsAs(ReaderOf(RecordsFor(table, described, template)), OpensExtension(BINTABLE, table.layout.heapLen), U8,
                    [table.layout.rowLen, table.layout.rowCount])
  {
    var layout := table.layout;
    var records := TableRecords(layout.rowLen, layout.rowCount, layout.heapLen, described);
    var more := if template.Some? then template.value else [];
    TableRecordsAre(layout.rowLen, layout.rowCount, layout.heapLen, described);
    TableReads(records, BINTABLE, layout.rowLen, layout.rowCount, layout.heapLen);
    TablePlan(table, records, more, next, rules, render);
    TemplateReadsAlike(records, more);
    assert RecordsFor(table, described, template) == records + FromTemplate(more);
  }

  /** A plan ends in the HDU of its records, behind an empty primary where an extension is first. */
  lemma {:induction false} PlanEnds(records: seq<Record>, next: HduPosition, role: Role, body: seq<Byte>, form: HeaderForm, rules: Rules, plan: seq<Hdu>)
    requires Planned(records, next, body, form, rules) == Ok(plan) && rules.roles(records, next, |body|) == Ok(role)
    ensures |plan| == if next.AtPrimary? && role.position.AtExtension? then 2 else 1
    ensures var hdu := plan[|plan| - 1];
            hdu.records == records && hdu.position == role.position && hdu.kind == role.kind && hdu.body == body
  {
  }

  lemma {:induction false} PlannedFits(records: seq<Record>, next: HduPosition, body: seq<Byte>, form: HeaderForm, rules: Rules, render: HeaderRender.Renderer)
    requires AreRules(rules, render) && Planned(records, next, body, form, rules).Ok?
    ensures |body| <= USIZE_MAX && Pads(|body|)
  {
    assert rules.roles(records, next, |body|) == RoleOf(ReaderOf(records), next, |body|);
    RoleFits(ReaderOf(records), next, |body|);
  }

  /** What is planned for a table ends in an HDU that holds it. */
  lemma {:induction false} PlanHoldsTable(
    table: TableToWrite, described: seq<Record>, template: Option<seq<Record>>, next: HduPosition, form: HeaderForm, rules: Rules,
    render: HeaderRender.Renderer, plan: seq<Hdu>)
    requires table.Valid() && AreRules(rules, render) && LacksStructure(described)
    requires Planned(RecordsFor(table, described, template), next, table.Unit(), form, rules) == Ok(plan)
    ensures plan != [] && HoldsTable(plan[|plan| - 1], table)
    ensures |plan| == (if next.AtPrimary? then 2 else 1) && Pads(|table.Unit()|)
  {
    var records := RecordsFor(table, described, template);
    PlannedFits(records, next, table.Unit(), form, rules, render);
    TableIsDeclared(table, described, template, next, rules, render);
    UnitReadsBack(table);
    PlanEnds(records, next, Role(AtExtension, BinTable), table.Unit(), form, rules, plan);
  }

  /** A header of the plan does not render: the table's, or that of the empty primary before it. */
  ghost predicate NotRendered(error: WriterError, table: TableToWrite, records: seq<Record>, next: HduPosition, form: HeaderForm, rules: Rules)
    requires table.Valid()
  {
    Unrendered(error, records, next, BinTable, table.Unit(), form, rules)
  }

  ghost predicate Unrendered(error: WriterError, records: seq<Record>, next: HduPosition, kind: HduKind, body: seq<Byte>, form: HeaderForm, rules: Rules)
  {
    && error.Refused?
    && (rules.heads(records, SigningOf(form, WithFill(kind, body)), form.spare) == Err(error.error)
        || (next.AtPrimary? && rules.heads(EmptyPrimary(), SigningOf(form, WithFill(PrimaryArray, [])), form.spare) == Err(error.error)))
  }

  lemma {:induction false} RoleRefuses(records: seq<Record>, next: HduPosition, role: Role, body: seq<Byte>, form: HeaderForm, rules: Rules)
    requires rules.roles(records, next, |body|) == Ok(role) && Planned(records, next, body, form, rules).Err?
    ensures Unrendered(Planned(records, next, body, form, rules).error, records, next, role.kind, body, form, rules)
  {
  }

  /** A table of a length that fits is planned unless a header does not render. */
  lemma {:induction false} PlanRefuses(
    table: TableToWrite, described: seq<Record>, template: Option<seq<Record>>, next: HduPosition, form: HeaderForm, rules: Rules,
    render: HeaderRender.Renderer)
    requires table.Valid() && AreRules(rules, render) && LacksStructure(described)
    requires Pads(|table.Unit()|) && |table.Unit()| <= USIZE_MAX
    ensures var planned := Planned(RecordsFor(table, described, template), next, table.Unit(), form, rules);
            planned.Err? ==> NotRendered(planned.error, table, RecordsFor(table, described, template), next, form, rules)
  {
    TableIsDeclared(table, described, template, next, rules, render);
    var records := RecordsFor(table, described, template);
    if Planned(records, next, table.Unit(), form, rules).Err? {
      RoleRefuses(records, next, Role(AtExtension, BinTable), table.Unit(), form, rules);
    }
  }

  /** Commit a table that was laid out, as its plan is. */
  method CommitTable(writer: FitsWriter, table: TableToWrite, described: seq<Record>, template: Header?, next: HduPosition)
    returns (err: Option<WriterError>, ghost planned: Result<seq<Hdu>, WriterError>)
    requires writer.Valid() && !writer.open && table.Valid() && writer.NextPosition() == Ok(next)
    modifies writer`state, writer`hdus, writer.sink
    ensures writer.Valid()
    ensures planned == Planned(RecordsFor(table, described, RecordsOf(template)), next, table.Unit(), writer.form, writer.rules)
    ensures planned.Err? ==> err == Some(planned.error)
    ensures planned.Ok? ==> err == None || err == Some(Io)
    ensures if err == None then planned.Ok? && writer.hdus == old(writer.hdus) + planned.value
            else writer.hdus == old(writer.hdus) && (writer.state.Failed? || (unchanged(writer) && unchanged(writer.sink)))
  {
    planned := Planned(RecordsFor(table, described, RecordsOf(template)), next, table.Unit(), writer.form, writer.rules);
    var header := new Header.Of(TableRecords(table.layout.rowLen, table.layout.rowCount, table.layout.heapLen, described));
    err := writer.WriteTable(header, table, template);
  }

  /** The file gained an HDU that holds the table, of a length that fits with its fill, and when it
      was empty the primary before it. */
  ghost predicate GainsTable(was: seq<Hdu>, hdus: seq<Hdu>, table: TableToWrite, next: HduPosition)
    requires table.Valid()
  {
    && |hdus| == |was| + (if next.AtPrimary? then 2 else 1) && was <= hdus
    && HoldsTable(hdus[|hdus| - 1], table) && Pads(|table.Unit()|)
  }

  lemma {:induction false} PlanGainsTable(
    was: seq<Hdu>, table: TableToWrite, described: seq<Record>, template: Option<seq<Record>>, next: HduPosition, form: HeaderForm,
    rules: Rules, render: HeaderRender.Renderer, plan: seq<Hdu>)
    requires table.Valid() && AreRules(rules, render) && LacksStructure(described)
    requires Planned(RecordsFor(table, described, template), next, table.Unit(), form, rules) == Ok(plan)
    ensures GainsTable(was, was + plan, table, next)
  {
    PlanHoldsTable(table, described, template, next, form, rules, render, plan);
    assert (was + plan)[|was + plan| - 1] == plan[|plan| - 1];
  }

  /** Write a laid-out table: refused, where its length fits with its fill, only for a header that
      does not render, and always where it does not; written, the file gains an HDU that holds it,
      after an empty primary when it is the first. */
  method WriteLaid(writer: FitsWriter, table: TableToWrite, described: seq<Record>, template: Header?, next: HduPosition)
    returns (err: Option<WriterError>)
    requires writer.Valid() && !writer.open && table.Valid() && writer.NextPosition() == Ok(next) && LacksStructure(described)
    modifies writer`state, writer`hdus, writer.sink
    ensures writer.Valid()
    ensures err.Some? ==> writer.hdus == old(writer.hdus) && (writer.state.Failed? || (unchanged(writer) && unchanged(writer.sink)))
    ensures err.Some? && Pads(|table.Unit()|) && |table.Unit()| <= USIZE_MAX ==>
              err == Some(Io)
              || NotRendered(err.value, table, RecordsFor(table, described, RecordsOf(template)), next, writer.form, writer.rules)
    ensures err == None ==> GainsTable(old(writer.hdus), writer.hdus, table, next)
  {
    ghost var planned;
    err, planned := CommitTable(writer, table, described, template, next);
    if planned.Ok? {
      PlanGainsTable(old(writer.hdus), table, described, RecordsOf(template), next, writer.form, writer.rules, writer.render, planned.value);
    } else if Pads(|table.Unit()|) && |table.Unit()| <= USIZE_MAX {
      PlanRefuses(table, described, RecordsOf(template), next, writer.form, writer.rules, writer.render);
    }
  }

  /** Write a table of these columns: laid out, declared, committed. It is refused for its layout
      exactly where it cannot be laid out, and then nothing changes. */
  method WriteColumns(writer: FitsWriter, columns: seq<WriteColumn>, n: nat, described: seq<Record>, template: Header?)
    returns (err: Option<TableRefusal>, ghost table: TableToWrite)
    requires writer.Valid() && !writer.open && AllHold(columns, n) && LacksStructure(described)
    modifies writer`state, writer`hdus, writer.sink
    ensures writer.Valid()
    ensures old(writer.state).Failed? ==> err == Some(Unwritten(WriterFailed))
    ensures !old(writer.state).Failed? ==> (err.Some? && err.value.Unlaid? <==> !Layable(columns, n))
    ensures err.Some? ==> writer.hdus == old(writer.hdus) && (writer.state.Failed? || (unchanged(writer) && unchanged(writer.sink)))
    ensures !old(writer.state).Failed? && Layable(columns, n) ==>
              && table.Valid() && table.columns == columns && table.rowCount == n
              && var next := old(writer.NextPosition()).value;
                 if err == None then GainsTable(old(writer.hdus), writer.hdus, table, next)
                 else Pads(|table.Unit()|) && |table.Unit()| <= USIZE_MAX ==>
                        err == Some(Unwritten(Io))
                        || NotRendered(err.value.writer, table, RecordsFor(table, described, old(RecordsOf(template))), next, writer.form, writer.rules)
  {
    table := TableToWrite(columns, n, Layout(0, 0, 0));
    var next := writer.NextPosition();
    if next.Err? {
      return Some(Unwritten(next.error)), table;
    }
    var layout := LayOut(columns, n);
    if layout.Err? {
      return Some(Unlaid(layout.error)), table;
    }
    var laid := TableToWrite(columns, n, layout.value);
    table := laid;
    var refused := WriteLaid(writer, laid, described, template, next.value);
    err := if refused.Some? then Some(Unwritten(refused.value)) else None;
  }
}

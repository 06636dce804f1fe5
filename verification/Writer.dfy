/** The writer: whole HDUs or nothing while it is usable, and nothing more once a write fails. */
module HduWriter {
  import opened Bytes
  import opened Checksum
  import opened HduHeaders
  import opened HduUnits
  import opened HeaderModel
  import opened HeaderRender
  import opened Headers
  import opened ImageHeaders
  import opened Preflight
  import opened RunningSum
  import opened Sinks
  import opened TableBuilder
  import TableBody

  datatype WriterState = Empty | Active | Failed

  class FitsWriter {
    const sink: Sink
    const render: Renderer
    var state: WriterState
    var form: HeaderForm

    ghost const rules: Rules
    ghost const continuing: bool
    /** What the sink held, and where it stood, when the writer took it. */
    ghost const origin: seq<Byte>
    ghost const start: nat
    /** The complete HDUs written. */
    ghost var hdus: seq<Hdu>
    /** A stream is open: its HDU is not complete. */
    ghost var open: bool

    /** Usable with no stream open, the writer has added to the sink a file of complete HDUs and
        nothing else. Whatever fails, those HDUs stay. */
    ghost predicate Valid()
      reads this, sink
    {
      && AreRules(rules, render) && sink.Valid()
      && IsFile(hdus, continuing, rules)
      && sink.Keeps(origin, start, FileBytes(hdus))
      && (state.Empty? ==> hdus == [] && !continuing && !open)
      && (state.Active? && !open ==> hdus != [] || continuing)
      && (!state.Failed? && !open ==> sink.After(origin, start, FileBytes(hdus)))
    }

    constructor (sink: Sink, render: Renderer)
      requires sink.Valid() && RendersCards(render)
      ensures Valid() && state.Empty? && !open && hdus == [] && !continuing
      ensures this.sink == sink && this.render == render && origin == sink.bytes && start == sink.pos
      ensures form == HeaderForm(false, 0)
    {
      this.sink, this.render, state, form := sink, render, Empty, HeaderForm(false, 0);
      rules, continuing, origin, start, hdus, open := RulesOf(render), false, sink.bytes, sink.pos, [], false;
      new;
      NoFile();
    }

    /** A writer whose sink already has a primary: what it adds are extensions. */
    constructor Continuing(sink: Sink, render: Renderer)
      requires sink.Valid() && RendersCards(render)
      ensures Valid() && state.Active? && !open && hdus == [] && continuing
      ensures this.sink == sink && this.render == render && origin == sink.bytes && start == sink.pos
    {
      this.sink, this.render, state, form := sink, render, Active, HeaderForm(false, 0);
      rules, continuing, origin, start, hdus, open := RulesOf(render), true, sink.bytes, sink.pos, [], false;
      new;
      NoFile();
    }

    method WithChecksums()
      requires Valid() && !open
      modifies `form
      ensures Valid() && form == old(form).(checksums := true)
    {
      form := form.(checksums := true);
    }

    method WithSpareRecords(records: nat)
      requires Valid() && !open
      modifies `form
      ensures Valid() && form == old(form).(spare := records)
    {
      form := form.(spare := records);
    }

    /** First when nothing is written, behind the last when something is, nowhere after a
        failure. */
    function NextPosition(): Result<HduPosition, WriterError>
      reads this
    {
      match state
      case Empty => Ok(AtPrimary)
      case Active => Ok(AtExtension)
      case Failed => Err(WriterFailed)
    }

    // ---- Every byte written ----

    /** The sink holds `held + bytes`; or it holds `held` and a prefix, and the writer is
        `Failed`; or the writer was, and nothing moves. */
    method Emit(bytes: seq<Byte>, ghost held: seq<Byte>) returns (err: Option<WriterError>)
      requires sink.Valid() && (!state.Failed? ==> sink.After(origin, start, held))
      modifies `state, sink
      ensures sink.Valid()
      ensures old(state).Failed? ==> err == Some(WriterFailed) && state == old(state) && unchanged(sink)
      ensures !old(state).Failed? ==> Emitted(err, old(state), held, bytes)
    {
      err := EmitOver(bytes, origin, start, held);
    }

    /** Write `bytes` where the sink stands, over whatever it held. */
    method EmitOver(bytes: seq<Byte>, ghost over: seq<Byte>, ghost at: nat, ghost held: seq<Byte>) returns (err: Option<WriterError>)
      requires sink.Valid() && (!state.Failed? ==> sink.After(over, at, held))
      modifies `state, sink
      ensures sink.Valid()
      ensures old(state).Failed? ==> err == Some(WriterFailed) && state == old(state) && unchanged(sink)
      ensures !old(state).Failed? && err == None ==> state == old(state) && sink.After(over, at, held + bytes)
      ensures !old(state).Failed? && err.Some? ==> err == Some(Io) && state.Failed? && sink.Partway(over, at, held, bytes)
    {
      if state.Failed? {
        return Some(WriterFailed);
      }
      var ok := sink.WriteAll(bytes, over, at, held);
      if !ok {
        state := Failed;
        return Some(Io);
      }
      err := None;
    }

    /** All of `bytes` were written after `held`, or some and the writer failed. */
    ghost predicate Emitted(err: Option<WriterError>, was: WriterState, held: seq<Byte>, bytes: seq<Byte>)
      reads this, sink
    {
      if err == None then state == was && sink.After(origin, start, held + bytes)
      else err == Some(Io) && state.Failed? && sink.Partway(origin, start, held, bytes)
    }

    /** What fails in a part fails in the whole. */
    lemma FailsWithin(err: Option<WriterError>, was: WriterState, held: seq<Byte>, done: seq<Byte>, part: seq<Byte>, whole: seq<Byte>)
      requires err.Some? && Emitted(err, was, held + done, part) && done + part <= whole
      ensures Emitted(err, was, held, whole)
    {
      PartwayLonger(sink, origin, start, held, done, part, whole);
    }

    /** Write parts in order. */
    method EmitAll(parts: seq<seq<Byte>>, ghost held: seq<Byte>) returns (err: Option<WriterError>)
      requires sink.Valid() && !state.Failed? && sink.After(origin, start, held)
      modifies `state, sink
      ensures sink.Valid() && Emitted(err, old(state), held, Concat(parts))
    {
      ghost var was := state;
      assert held + Concat(parts[..0]) == held;
      for i := 0 to |parts|
        invariant sink.Valid() && state == was && sink.After(origin, start, held + Concat(parts[..i]))
      {
        err := Emit(parts[i], held + Concat(parts[..i]));
        ConcatNext(parts, i);
        ConcatPrefix(parts, i + 1);
        if err.Some? {
          FailsWithin(err, was, held, Concat(parts[..i]), parts[i], Concat(parts));
          return;
        }
        assert held + Concat(parts[..i + 1]) == held + Concat(parts[..i]) + parts[i];
      }
      assert parts[..|parts|] == parts;
      err := None;
    }

    /** The sink gains the samples' bytes, and `sum` as well where there is one; a failed writer
        refuses all but an empty list. */
    method EmitSamples(samples: seq<Element>, sum: Running?, ghost held: seq<Byte>) returns (err: Option<WriterError>)
      requires sink.Valid() && (!state.Failed? ==> sink.After(origin, start, held)) && (sum != null ==> sum.Valid())
      modifies `state, sink, sum
      ensures sink.Valid() && (sum != null ==> sum.Valid())
      ensures old(state).Failed? ==> state == old(state) && unchanged(sink) && err == (if samples == [] then None else Some(WriterFailed))
      ensures !old(state).Failed? ==> Emitted(err, old(state), held, Concat(samples))
      ensures err == None && sum != null ==> sum.fed == old(sum.fed) + Concat(samples)
    {
      ghost var was := state;
      var from := 0;
      while from < |samples|
        invariant from <= |samples| && sink.Valid() && state == was
        invariant sum != null ==> sum.Valid() && sum.fed == old(sum.fed) + Concat(samples[..from])
        invariant if was.Failed? then unchanged(sink) && from == 0 else sink.After(origin, start, held + Concat(samples[..from]))
      {
        var end := ChunkEnd(samples, from);
        err := EmitRange(samples, from, end, sum, held);
        if err.Some? {
          return;
        }
        ChunkJoins(samples, from, end);
        from := end;
      }
      assert samples[..|samples|] == samples;
      err := None;
    }

    /** Encode the samples of one chunk, and write it after those before it. */
    method EmitRange(samples: seq<Element>, from: nat, end: nat, sum: Running?, ghost held: seq<Byte>) returns (err: Option<WriterError>)
      requires from <= end <= |samples| && sink.Valid() && (sum != null ==> sum.Valid())
      requires !state.Failed? ==> sink.After(origin, start, held + Concat(samples[..from]))
      modifies `state, sink, sum
      ensures sink.Valid() && (sum != null ==> sum.Valid() && sum.fed == old(sum.fed) + Concat(samples[from..end]))
      ensures old(state).Failed? ==> err == Some(WriterFailed) && state == old(state) && unchanged(sink)
      ensures !old(state).Failed? && err == None ==> state == old(state) && sink.After(origin, start, held + Concat(samples[..end]))
      ensures !old(state).Failed? && err.Some? ==> Emitted(err, old(state), held, Concat(samples))
    {
      ghost var was := state;
      ChunkJoins(samples, from, end);
      err := EmitChunk(Concat(samples[from..end]), sum, held, Concat(samples[..from]));
      if err.Some? && !was.Failed? {
        ConcatPrefix(samples, end);
        LongerFails(err, was, held, Concat(samples[..end]), Concat(samples));
      }
    }

    /** `sum` gains the chunk whatever the sink does with it. */
    method EmitChunk(chunk: seq<Byte>, sum: Running?, ghost held: seq<Byte>, ghost done: seq<Byte>) returns (err: Option<WriterError>)
      requires sink.Valid() && (!state.Failed? ==> sink.After(origin, start, held + done)) && (sum != null ==> sum.Valid())
      modifies `state, sink, sum
      ensures sink.Valid() && (sum != null ==> sum.Valid() && sum.fed == old(sum.fed) + chunk)
      ensures old(state).Failed? ==> err == Some(WriterFailed) && state == old(state) && unchanged(sink)
      ensures !old(state).Failed? ==> Emitted(err, old(state), held, done + chunk)
    {
      if sum != null {
        sum.Update(chunk);
      }
      ghost var was := state;
      err := Emit(chunk, held + done);
      assert held + done + chunk == held + (done + chunk);
      if err.Some? && !was.Failed? {
        FailsWithin(err, was, held, done, chunk, done + chunk);
      }
    }

    /** The sink gains `rows + Concat(heap)` or a prefix of it, however the cells are grouped
        into writes. */
    method EmitParts(rows: seq<Byte>, heap: seq<seq<Byte>>, ghost held: seq<Byte>) returns (err: Option<WriterError>)
      requires sink.Valid() && !state.Failed? && sink.After(origin, start, held)
      modifies `state, sink
      ensures sink.Valid() && Emitted(err, old(state), held, rows + Concat(heap))
    {
      ghost var was := state;
      var parts := [rows] + heap;
      PartsJoin(rows, heap);
      var chunk: seq<Byte> := [];
      ghost var done: seq<Byte> := [];
      assert held + done == held;
      for i := 0 to |parts|
        invariant sink.Valid() && state == was && sink.After(origin, start, held + done)
        invariant done + chunk == Concat(parts[..i])
      {
        ConcatNext(parts, i);
        ConcatPrefix(parts, i + 1);
        ghost var all := done + chunk + parts[i];
        err, chunk, done := GatherPart(chunk, parts[i], held, done);
        if err.Some? {
          LongerFails(err, was, held, all, Concat(parts));
          return;
        }
      }
      assert parts[..|parts|] == parts;
      err := None;
      if chunk != [] {
        err := Emit(chunk, held + done);
        if err.Some? {
          FailsWithin(err, was, held, done, chunk, Concat(parts));
        }
      }
      assert held + done + chunk == held + Concat(parts);
    }

    /** Write out a chunk that a part would overfill, then gather the part or write it. */
    method GatherPart(chunk: seq<Byte>, part: seq<Byte>, ghost held: seq<Byte>, ghost done: seq<Byte>)
      returns (err: Option<WriterError>, gathered: seq<Byte>, ghost written: seq<Byte>)
      requires sink.Valid() && !state.Failed? && sink.After(origin, start, held + done)
      modifies `state, sink
      ensures sink.Valid()
      ensures err == None ==> state == old(state) && sink.After(origin, start, held + written) && written + gathered == done + chunk + part
      ensures err.Some? ==> Emitted(err, old(state), held, done + chunk + part)
    {
      ghost var was := state;
      gathered, written, err := chunk, done, None;
      if |chunk| + |part| > TableBody.CHUNK_BYTES && chunk != [] {
        err := Emit(chunk, held + done);
        if err.Some? {
          FailsWithin(err, was, held, done, chunk, done + chunk + part);
          return;
        }
        gathered, written := [], done + chunk;
        assert held + done + chunk == held + written;
      }
      if |part| >= TableBody.CHUNK_BYTES {
        assert gathered == [];
        err := Emit(part, held + written);
        if err.Some? {
          FailsWithin(err, was, held, written, part, done + chunk + part);
          return;
        }
        assert held + written + part == held + (written + part);
        written := written + part;
      } else {
        gathered := gathered + part;
      }
    }

    lemma LongerFails(err: Option<WriterError>, was: WriterState, held: seq<Byte>, part: seq<Byte>, whole: seq<Byte>)
      requires err.Some? && Emitted(err, was, held, part) && part <= whole
      ensures Emitted(err, was, held, whole)
    {
      assert held + [] == held;
      FailsWithin(err, was, held, [], part, whole);
    }

    /** The sink gains `BodyBytes(body)` or a prefix of it. */
    method EmitBody(body: Body, ghost held: seq<Byte>) returns (err: Option<WriterError>)
      requires IsBody(body) && sink.Valid() && !state.Failed? && sink.After(origin, start, held)
      modifies `state, sink
      ensures sink.Valid() && Emitted(err, old(state), held, BodyBytes(body))
    {
      match body
      case Raw(bytes) =>
        err := Emit(bytes, held);
      case Samples(view) =>
        err := EmitSamples(view.samples, null, held);
      case Parts(rows, heap) =>
        err := EmitParts(rows, heap, held);
      case Table(table) =>
        var chunks := TableBody.Chunks(table);
        err := EmitAll(chunks, held);
    }

    // ---- One HDU ----

    /** What one HDU write does: nothing once the writer failed; nothing where its plan refuses;
        else it adds every HDU of the plan, or it fails partway through them and the writer with
        it. */
    twostate predicate Commits(records: seq<Record>, body: seq<Byte>, new err: Option<WriterError>)
      reads this, sink
    {
      if old(state).Failed? then
        err == Some(WriterFailed) && unchanged(this) && unchanged(sink)
      else
        match Planned(records, old(NextPosition()).value, body, old(form), rules)
        case Err(refusal) => err == Some(refusal) && unchanged(this) && unchanged(sink)
        case Ok(plan) => Adds(plan, err)
    }

    /** Every HDU of the plan is added, or the writer fails partway through them. */
    twostate predicate Adds(plan: seq<Hdu>, new err: Option<WriterError>)
      reads this, sink
    {
      && form == old(form)
      && (err == None ==> state.Active? && hdus == old(hdus) + plan)
      && (err.Some? ==> err == Some(Io) && state.Failed? && hdus == old(hdus))
      && (err.Some? ==> sink.Partway(origin, start, FileBytes(old(hdus)), FileBytes(plan)))
    }

    /** Write the next piece of a plan. */
    method EmitNext(bytes: seq<Byte>, ghost held: seq<Byte>, ghost done: seq<Byte>, ghost whole: seq<Byte>) returns (err: Option<WriterError>)
      requires sink.Valid() && !state.Failed? && sink.After(origin, start, held + done) && done + bytes <= whole
      modifies `state, sink
      ensures sink.Valid()
      ensures err == None ==> state == old(state) && sink.After(origin, start, held + (done + bytes))
      ensures err.Some? ==> Emitted(err, old(state), held, whole)
    {
      ghost var was := state;
      err := Emit(bytes, held + done);
      assert held + done + bytes == held + (done + bytes);
      if err.Some? {
        FailsWithin(err, was, held, done, bytes, whole);
      }
    }

    /** Write the bytes of a plan. */
    method EmitPlan(prepared: Prepared, body: Body, ghost held: seq<Byte>, ghost whole: seq<Byte>) returns (err: Option<WriterError>)
      requires IsBody(body) && sink.Valid() && !state.Failed? && sink.After(origin, start, held)
      requires whole == prepared.primary + prepared.head + BodyBytes(body) + prepared.fill
      modifies `state, sink
      ensures sink.Valid() && Emitted(err, old(state), held, whole)
    {
      ghost var was, bytes := state, BodyBytes(body);
      assert held + [] == held;
      err := EmitNext(prepared.primary, held, [], whole);
      if err.Some? {
        return;
      }
      err := EmitNext(prepared.head, held, [] + prepared.primary, whole);
      if err.Some? {
        return;
      }
      ghost var done := [] + prepared.primary + prepared.head;
      err := EmitBody(body, held + done);
      if err.Some? {
        FailsWithin(err, was, held, done, bytes, whole);
        return;
      }
      assert held + done + bytes == held + (done + bytes);
      err := EmitNext(prepared.fill, held, done + bytes, whole);
      assert done + bytes + prepared.fill == whole;
    }

    /** Commit a plan. */
    method Commit(prepared: Prepared, body: Body, next: HduPosition, ghost plan: seq<Hdu>) returns (err: Option<WriterError>)
      requires Valid() && !open && NextPosition() == Ok(next) && IsBody(body)
      requires IsPlan(plan, next, rules) && Emits(prepared, BodyBytes(body), plan)
      modifies `state, `hdus, sink
      ensures Valid() && Adds(plan, err)
    {
      ghost var held := FileBytes(hdus);
      err := EmitPlan(prepared, body, held, FileBytes(plan));
      if err.Some? {
        PartwayKeeps(sink, origin, start, held, FileBytes(plan));
        return;
      }
      PlanExtendsFile(hdus, plan, continuing, next, rules);
      FileAppend(hdus, plan);
      state, hdus := Active, hdus + plan;
      assert FileBytes(hdus) + [] == FileBytes(hdus);
      AfterKeeps(sink, origin, start, FileBytes(hdus), []);
    }

    /** What `Planned` says of the merged records and the body happens: a refusal leaves writer
        and sink alone, a plan is added whole, and an I/O failure partway poisons. */
    method FinishHdu(header: Header, template: Header?, body: Body) returns (err: Option<WriterError>)
      requires Valid() && !open && header.Valid() && IsBody(body)
      modifies `state, `hdus, sink
      ensures Valid() && Commits(MergedRecords(header.records, RecordsOf(template)), BodyBytes(body), err)
    {
      var next := NextPosition();
      if next.Err? {
        return Some(next.error);
      }
      var merged := header;
      if template != null {
        merged := new Header.Of(header.records);
        merged.AppendFilteredFrom(template.records, IsCopied());
      }
      var prepared;
      ghost var plan;
      prepared, plan := Prepare(merged, next.value, body, form, render, rules);
      if prepared.Err? {
        return Some(prepared.error);
      }
      err := Commit(prepared.value, body, next.value, plan);
    }

    /** Write one complete raw HDU: the header declares the data unit's exact length. */
    method WriteRawHdu(header: Header, raw: seq<Byte>) returns (err: Option<WriterError>)
      requires Valid() && !open && header.Valid()
      modifies `state, `hdus, sink
      ensures Valid() && Commits(header.records, raw, err)
    {
      err := FinishHdu(header, null, Raw(raw));
    }

    /** Write a table laid out under `header`: its bytes are its cells, packed. */
    method WriteTable(header: Header, table: TableBody.TableToWrite, template: Header?) returns (err: Option<WriterError>)
      requires Valid() && !open && header.Valid() && table.Valid()
      modifies `state, `hdus, sink
      ensures Valid() && Commits(MergedRecords(header.records, RecordsOf(template)), table.Unit(), err)
    {
      err := FinishHdu(header, template, Table(table));
    }

    /** `Commits` with the body `rows + Concat(heap)`. */
    method WriteUnit(header: Header, rows: seq<Byte>, heap: seq<seq<Byte>>, template: Header?) returns (err: Option<WriterError>)
      requires Valid() && !open && header.Valid()
      modifies `state, `hdus, sink
      ensures Valid() && Commits(MergedRecords(header.records, RecordsOf(template)), rows + Concat(heap), err)
    {
      err := FinishHdu(header, template, Parts(rows, heap));
    }

    /** Commits `EmptyPrimary()` as the file's first HDU, and refuses to be anything but the
        first. */
    method WriteEmptyPrimary(template: Header?) returns (err: Option<WriterError>)
      requires Valid() && !open
      modifies `state, `hdus, sink
      ensures Valid()
      ensures old(state).Active? ==> err == Some(PrimaryAlreadyWritten) && unchanged(this) && unchanged(sink)
      ensures !old(state).Active? ==> Commits(MergedRecords(EmptyPrimary(), RecordsOf(template)), [], err)
    {
      var next := NextPosition();
      if next.Err? {
        return Some(next.error);
      }
      if next != Ok(AtPrimary) {
        return Some(PrimaryAlreadyWritten);
      }
      var header := new Header.Of(EmptyPrimary());
      err := FinishHdu(header, template, Raw([]));
    }

    /** Write an image as the primary, or as an extension after it. */
    method WriteImage(layout: Metadata, view: View, template: Header?) returns (err: Option<WriterError>)
      requires Valid() && !open && view.Valid() && view.bitpix == layout.bitpix && ShapeProduct(layout.shape) == Some(|view.samples|)
      modifies `state, `hdus, sink
      ensures Valid() && WritesImage(layout, Concat(view.samples), RecordsOf(template), err)
    {
      var next := NextPosition();
      if next.Err? {
        return Some(next.error);
      }
      var records := ImageHeader(layout, next.value);
      if records.Err? {
        return Some(Refused(records.error));
      }
      var header := new Header.Of(records.value);
      err := FinishHdu(header, template, Samples(view));
    }

    /** What an image write does: as its header's HDU commits, or nothing where no header declares
        it. */
    twostate predicate WritesImage(layout: Metadata, body: seq<Byte>, template: Option<seq<Record>>, new err: Option<WriterError>)
      reads this, sink
    {
      if old(state).Failed? then
        err == Some(WriterFailed) && unchanged(this) && unchanged(sink)
      else
        match ImageHeader(layout, old(NextPosition()).value)
        case Err(refusal) => err == Some(Refused(refusal)) && unchanged(this) && unchanged(sink)
        case Ok(records) => Commits(MergedRecords(records, template), body, err)
    }

    // ---- Streams ----

    /** From here on the writer is `Failed` with no stream open; its complete HDUs stay. */
    method Poison()
      requires Valid()
      modifies `state, `open
      ensures Valid() && state.Failed? && !open
    {
      state, open := Failed, false;
    }

    /** With placeholders, where the finished header is to be signed. */
    function StreamSigning(): Signing
      reads this
    {
      if form.checksums then Placeholder else Unsigned
    }

    /** Opens a stream: the sink gains a header that renders as long as the signed one will, and
        the result is where that begins. */
    method StartStream(header: Header) returns (r: Result<nat, WriterError>, ghost head: seq<Byte>)
      requires Valid() && !open && !state.Failed? && header.Valid()
      modifies `state, `open, sink
      ensures Valid()
      ensures r.Ok? ==> open && state.Active? && r.value == start + |FileBytes(hdus)|
      ensures r.Ok? ==> IsStreamHead(header.records, head) && sink.After(origin, start, FileBytes(hdus) + head)
      ensures r.Err? && !state.Failed? ==> unchanged(this) && unchanged(sink)
      ensures r.Err? && state.Failed? ==> !open && r.error == Io
      ensures r.Err? && rules.heads(header.records, StreamSigning(), form.spare).Ok? ==> r.error == Io
    {
      ghost var held := FileBytes(hdus);
      head := [];
      var at := sink.Position();
      if at == None {
        return Err(Io), head;
      }
      var rendered := RenderHead(header, StreamSigning(), form, render, rules);
      if rendered.Err? {
        return Err(rendered.error), head;
      }
      head := rendered.value;
      var err := Emit(rendered.value, held);
      if err.Some? {
        PartwayKeeps(sink, origin, start, held, head);
        return Err(err.value), head;
      }
      AfterKeeps(sink, origin, start, held, head);
      state, open := Active, true;
      r := Ok(at.value);
    }

    /** A stream's header as it starts. */
    ghost predicate IsStreamHead(records: seq<Record>, head: seq<Byte>)
      reads this
    {
      rules.heads(records, StreamSigning(), form.spare) == Ok(head) && IsHead(head, StreamSigning())
    }

    /** The bytes of `head` become those of `head'`, no other byte changes and the position ends
        where it was; any failure leaves the writer `Failed`, with `held` intact. */
    method RewriteHeader(header: Header, offset: nat, signing: Signing, ghost held: seq<Byte>, ghost head: seq<Byte>, ghost rest: seq<Byte>)
      returns (err: Option<WriterError>, ghost head': seq<Byte>)
      requires header.Valid() && AreRules(rules, render) && sink.Valid() && !state.Failed?
      requires sink.After(origin, start, held + head + rest) && offset == start + |held|
      requires var signed := rules.heads(header.records, signing, form.spare); signed.Ok? && |signed.value| == |head|
      modifies `state, sink
      ensures sink.Valid() && sink.Keeps(origin, start, held)
      ensures err == None ==> state == old(state) && sink.After(origin, start, held + head' + rest)
      ensures err == None ==> rules.heads(header.records, signing, form.spare) == Ok(head') && IsHead(head', signing)
      ensures err.Some? ==> err == Some(Io) && state.Failed?
    {
      head' := rules.heads(header.records, signing, form.spare).value;
      assert held + head + rest == held + (head + rest);
      AfterKeeps(sink, origin, start, held, head + rest);
      err := TryRewrite(header, offset, signing, head', held);
      if err.Some? {
        state := Failed;
      } else {
        OverlaidWithin(origin, start, held, head, head', rest);
      }
    }

    /** Seek to the header, write it, and seek back. */
    method TryRewrite(header: Header, offset: nat, signing: Signing, ghost head: seq<Byte>, ghost held: seq<Byte>) returns (err: Option<WriterError>)
      requires header.Valid() && AreRules(rules, render) && sink.Valid() && !state.Failed?
      requires offset == start + |held| && offset + |head| <= sink.pos && sink.Keeps(origin, start, held)
      requires rules.heads(header.records, signing, form.spare) == Ok(head)
      modifies `state, sink
      ensures sink.Valid() && sink.Keeps(origin, start, held)
      ensures err == None ==> state == old(state) && sink.pos == old(sink.pos) && IsHead(head, signing)
      ensures err == None ==> sink.bytes == Overlaid(old(sink.bytes), offset, head)
      ensures err.Some? ==> err == Some(Io)
    {
      ghost var was := sink.bytes;
      var end := sink.Position();
      if end == None {
        return Some(Io);
      }
      var sought := sink.Seek(offset);
      if !sought {
        return Some(Io);
      }
      var rendered := RenderHead(header, signing, form, render, rules);
      if rendered.Err? {
        return Some(rendered.error);
      }
      NothingOver(was, offset);
      err := EmitOver(rendered.value, was, offset, []);
      OverKeeps(sink, was, offset, head, origin, start, held, err == None);
      if err.Some? {
        return;
      }
      assert [] + head == head;
      sought := sink.Seek(end.value);
      err := if sought then None else Some(Io);
    }

    /** The stream's bytes become a complete unit: its data filled to a block, under a header
        that signs it where checksums are on. */
    method FinishStream(header: Header, offset: nat, dataBytes: nat, sum: Running, ghost head: seq<Byte>, ghost data: seq<Byte>)
      returns (err: Option<WriterError>, ghost head': seq<Byte>)
      requires Valid() && open && header.Valid() && IsStreamHead(header.records, head)
      requires FirstOf(header.records, KeywordName(DATASUM), 0) == None && offset == start + |FileBytes(hdus)|
      requires state.Active? && sink.After(origin, start, FileBytes(hdus) + head + data)
      requires sum.Valid() && sum.fed == data && |data| == dataBytes
      modifies `state, sink, sum
      ensures Valid()
      ensures err == None ==> state.Active? && sink.After(origin, start, FileBytes(hdus) + head' + WithFill(PrimaryArray, data))
      ensures err == None ==> var signing := SigningOf(form, WithFill(PrimaryArray, data));
                              rules.heads(header.records, signing, form.spare) == Ok(head') && IsHead(head', signing)
      ensures err.Some? ==> err == Some(Io) && state.Failed?
    {
      ghost var held := FileBytes(hdus);
      var fill := FillOf(PrimaryArray, dataBytes);
      head' := head;
      Reassociated(held, head, data, fill);
      err := Emit(fill, held + (head + data));
      EmittedKeeps(err, Active, head + data, fill);
      if err.Some? {
        return;
      }
      sum.Update(fill);
      BlocksAreWords(|WithFill(PrimaryArray, data)|);
      err, head' := SignStream(header, offset, sum, held, head, WithFill(PrimaryArray, data));
    }

    /** Sign a stream's header with the sum of its data unit, when the writer writes checksums. */
    method SignStream(header: Header, offset: nat, sum: Running, ghost held: seq<Byte>, ghost head: seq<Byte>, ghost filled: seq<Byte>)
      returns (err: Option<WriterError>, ghost head': seq<Byte>)
      requires header.Valid() && AreRules(rules, render) && sink.Valid() && !state.Failed?
      requires IsStreamHead(header.records, head) && FirstOf(header.records, KeywordName(DATASUM), 0) == None
      requires offset == start + |held| && sink.After(origin, start, held + head + filled) && sink.Keeps(origin, start, held)
      requires sum.Valid() && sum.fed == filled && |filled| % 4 == 0
      modifies `state, sink
      ensures sink.Valid() && sink.Keeps(origin, start, held)
      ensures err == None ==> state == old(state) && sink.After(origin, start, held + head' + filled)
      ensures err == None ==> rules.heads(header.records, SigningOf(form, filled), form.spare) == Ok(head') && IsHead(head', SigningOf(form, filled))
      ensures err.Some? ==> err == Some(Io) && state.Failed?
    {
      err, head' := None, head;
      if form.checksums {
        var total := sum.Finish();
        assert total == SumOf(filled);
        HeadsAreAsLong(header.records, total);
        err, head' := RewriteHeader(header, offset, WithDataSum(total), held, head, filled);
      }
    }

    /** The file stays whatever a write past it does. */
    lemma EmittedKeeps(err: Option<WriterError>, was: WriterState, past: seq<Byte>, bytes: seq<Byte>)
      requires Emitted(err, was, FileBytes(hdus) + past, bytes)
      ensures sink.Keeps(origin, start, FileBytes(hdus))
    {
      var held := FileBytes(hdus);
      if err == None {
        assert held + past + bytes == held + (past + bytes);
        AfterKeeps(sink, origin, start, held, past + bytes);
      } else {
        PartwayKeeps(sink, origin, start, held + past, bytes);
        assert origin[..start] + held <= origin[..start] + (held + past);
      }
    }

    /** The signed header of records without a `DATASUM` is as long as the one with placeholders. */
    lemma {:induction false} HeadsAreAsLong(records: seq<Record>, sum: U32)
      requires AreRules(rules, render) && FirstOf(records, KeywordName(DATASUM), 0) == None
      ensures var a, b := rules.heads(records, Placeholder, form.spare), rules.heads(records, WithDataSum(sum), form.spare);
              (a.Ok? <==> b.Ok?) && (a.Ok? ==> |a.value| == |b.value|)
    {
      UnitLengths(records, sum, Spare(form.spare), render);
      assert rules.heads(records, Placeholder, form.spare) == RenderUnit(records, Placeholder, Spare(form.spare), render);
      assert rules.heads(records, WithDataSum(sum), form.spare) == RenderUnit(records, WithDataSum(sum), Spare(form.spare), render);
    }

    /** The finished stream's HDU is complete. */
    ghost method Complete(hdu: Hdu, next: HduPosition)
      requires Valid() && open && state.Active? && sink.After(origin, start, FileBytes(hdus) + Unit(hdu))
      requires IsComplete(hdu, rules) && hdu.position == next && (next.AtPrimary? <==> hdus == [] && !continuing)
      modifies `hdus, `open
      ensures Valid() && !open && hdus == old(hdus) + [hdu]
    {
      PlanExtendsFile(hdus, [hdu], continuing, next, rules);
      FileAppend(hdus, [hdu]);
      OneUnit(hdu);
      hdus, open := hdus + [hdu], false;
      assert FileBytes(hdus) + [] == FileBytes(hdus);
      AfterKeeps(sink, origin, start, FileBytes(hdus), []);
    }
  }

  lemma Reassociated(a: seq<Byte>, b: seq<Byte>, c: seq<Byte>, d: seq<Byte>)
    ensures a + b + c == a + (b + c)
    ensures a + (b + c) + d == a + b + (c + d)
  {
  }

  lemma NothingOver(bytes: seq<Byte>, at: nat)
    requires at <= |bytes|
    ensures Overlaid(bytes, at, []) == bytes
  {
  }

  /** What is written from past the file on, or some of it, keeps the file. */
  lemma OverKeeps(sink: Sink, was: seq<Byte>, at: nat, head: seq<Byte>, origin: seq<Byte>, start: nat, held: seq<Byte>, all: bool)
    requires start <= |origin| && origin[..start] + held <= was && at == start + |held|
    requires if all then sink.After(was, at, [] + head) else sink.Partway(was, at, [], head)
    ensures sink.Keeps(origin, start, held)
  {
    assert head[..|head|] == head;
    var n: nat :| n <= |head| && sink.After(was, at, [] + head[..n]);
    assert was[..at] <= sink.bytes;
  }

  /** The records of a template, when there is one. */
  function RecordsOf(template: Header?): Option<seq<Record>>
    reads template
  {
    if template == null then None else Some(template.records)
  }

  /** A header with the records its template gives it. */
  function MergedRecords(records: seq<Record>, template: Option<seq<Record>>): seq<Record> {
    if template.Some? then records + FromTemplate(template.value) else records
  }

  lemma {:induction false} PartsJoin(rows: seq<Byte>, heap: seq<seq<Byte>>)
    ensures Concat([rows] + heap) == rows + Concat(heap)
  {
    ConcatAppend([rows], heap);
    assert [rows][..0] == [];
    assert Concat([rows]) == [] + rows;
  }

  lemma NoFile()
    ensures FileBytes([]) == []
    ensures forall bytes: seq<Byte>, pos: nat :: pos <= |bytes| ==> Overlaid(bytes, pos, []) == bytes
  {
    assert Units([]) == [];
  }
}

/** A whole streamed image is the image written at once. */
module StreamRuns {
  import opened Bytes
  import opened HduHeaders
  import opened HduUnits
  import opened HduWriter
  import opened HeaderModel
  import opened HeaderRender
  import opened Headers
  import opened ImageHeaders
  import opened ImageStream
  import opened Preflight
  import opened Products
  import Prologues
  import opened Sinks
  import opened TableBuilder

  /** A stream of the image can begin unless the sink fails: the writer is usable, and its header
      is one that renders as streams sign it. */
  ghost predicate CanStart(writer: FitsWriter, layout: Metadata, template: Option<seq<Record>>)
    reads writer
  {
    && !writer.state.Failed? && ShapeProduct(layout.shape).Some?
    && var header := ImageHeader(layout, writer.NextPosition().value);
       && header.Ok?
       && writer.rules.heads(MergedRecords(header.value, template), writer.StreamSigning(), writer.form.spare).Ok?
  }

  /** Begin a stream of an image. */
  method StreamImage(writer: FitsWriter, layout: Metadata, template: Header?) returns (r: Result<ImageWriter, WriterError>)
    requires writer.Valid() && !writer.open
    modifies writer`state, writer`open, writer.sink
    ensures writer.Valid()
    ensures old(writer.state).Failed? ==> r.Err? && unchanged(writer) && unchanged(writer.sink)
    ensures r.Err? ==> !writer.open && (writer.state.Failed? || (unchanged(writer) && unchanged(writer.sink)))
    ensures r.Err? && old(CanStart(writer, layout, RecordsOf(template))) ==> r.error == Io
    ensures r.Ok? ==> Opens(r.value, writer, layout, RecordsOf(template)) && fresh(r.value) && fresh(r.value.checksum) && fresh(r.value.header)
    ensures r.Ok? ==> old(writer.NextPosition()) == Ok(r.value.position)
  {
    var expected := ShapeProduct(layout.shape);
    if expected == None {
      return Err(Refused(HeaderError.DataUnitOverflow));
    }
    var next := writer.NextPosition();
    if next.Err? {
      return Err(next.error);
    }
    var records := ImageHeader(layout, next.value);
    if records.Err? {
      return Err(Refused(records.error));
    }
    var header := new Header.Of(records.value);
    if template != null {
      header.AppendFilteredFrom(template.records, IsCopied());
    }
    var offset;
    ghost var head;
    offset, head := writer.StartStream(header);
    if offset.Err? {
      return Err(offset.error);
    }
    var stream := new ImageWriter(writer, header, offset.value, expected.value, layout, layout.bitpix, RecordsOf(template), next.value, head);
    r := Ok(stream);
  }

  /** A stream just opened, of this layout. */
  ghost predicate Opens(stream: ImageWriter, writer: FitsWriter, layout: Metadata, template: Option<seq<Record>>)
    reads stream, writer, writer.sink, stream.header, stream.checksum
  {
    && stream.writer == writer && stream.Valid() && stream.samples == [] && writer.state.Active?
    && stream.layout == layout && stream.template == template
  }

  /** The samples of chunks, in order. */
  function Gathered(chunks: seq<View>): seq<Element> {
    if chunks == [] then [] else Gathered(chunks[..|chunks| - 1]) + chunks[|chunks| - 1].samples
  }

  /** Chunks of the stream's type, of no more samples than it expects. */
  predicate NoneRefused(chunks: seq<View>, bitpix: Bitpix, expected: nat) {
    (forall i :: 0 <= i < |chunks| ==> chunks[i].bitpix == bitpix) && |Gathered(chunks)| <= expected
  }

  /** Chunks of the image's type that hold its samples, of a byte length memory addresses. */
  predicate MakeUp(chunks: seq<View>, layout: Metadata) {
    && (forall i :: 0 <= i < |chunks| ==> chunks[i].bitpix == layout.bitpix)
    && ShapeProduct(layout.shape) == Some(|Gathered(chunks)|)
    && Times(|Gathered(chunks)|, layout.bitpix.ElemSize()) <= USIZE_MAX
  }

  lemma {:induction false} GatheredGrows(chunks: seq<View>, k: nat)
    requires k <= |chunks|
    ensures |Gathered(chunks[..k])| <= |Gathered(chunks)|
    ensures k > 0 ==> Gathered(chunks[..k]) == Gathered(chunks[..k - 1]) + chunks[k - 1].samples
    decreases |chunks|
  {
    if k < |chunks| {
      var front := chunks[..|chunks| - 1];
      GatheredGrows(front, k);
      assert front[..k] == chunks[..k];
      if k > 0 {
        assert front[..k - 1] == chunks[..k - 1];
      }
    } else {
      assert chunks[..k] == chunks;
    }
  }

  lemma ShapeFits(shape: seq<nat>)
    ensures ShapeProduct(shape).Some? ==> ShapeProduct(shape).value <= USIZE_MAX
  {
    if ShapeProduct(shape).Some? && shape != [] && 0 !in shape {
      Prologues.ProductFits(shape, |shape|);
    }
  }

  /** Write every chunk, until one is refused or fails. */
  method WriteChunks(stream: ImageWriter, chunks: seq<View>) returns (err: Option<WriterError>)
    requires stream.Valid() && stream.samples == [] && !stream.writer.state.Failed? && forall i :: 0 <= i < |chunks| ==> chunks[i].Valid()
    modifies stream`writtenSamples, stream`samples, stream.writer`state, stream.writer.sink, stream.checksum
    ensures stream.Valid()
    ensures err == None ==> stream.samples == Gathered(chunks) && stream.writer.state.Active?
    ensures NoneRefused(chunks, stream.bitpix, stream.expectedSamples) ==> err == None || err == Some(Io)
  {
    for i := 0 to |chunks|
      invariant stream.Valid() && !stream.writer.state.Failed? && stream.samples == Gathered(chunks[..i])
    {
      assert chunks[..i + 1][..i] == chunks[..i];
      if NoneRefused(chunks, stream.bitpix, stream.expectedSamples) {
        ShapeFits(stream.layout.shape);
        GatheredGrows(chunks, i + 1);
      }
      err := stream.WriteChunk(chunks[i]);
      if err.Some? {
        return;
      }
    }
    assert chunks[..|chunks|] == chunks;
    err := None;
  }

  /** A stream's HDU is its single write's plan. */
  lemma StreamPlans(records: seq<Record>, data: seq<Byte>, hdu: Hdu, position: HduPosition, form: HeaderForm, rules: Rules)
    requires IsStreamed(records, data, hdu, position, form, rules)
    ensures Planned(records, position, data, form, rules) == Ok([hdu])
  {
    var none: seq<Hdu> := [];
    assert none + [hdu] == [hdu];
  }

  /** Finish a stream: it added what a single write plans. */
  method FinishPlanned(stream: ImageWriter) returns (err: Option<WriterError>, ghost plan: seq<Hdu>)
    requires stream.Valid()
    modifies stream`finished, stream.writer`state, stream.writer`hdus, stream.writer`open, stream.writer.sink, stream.checksum
    ensures var writer := stream.writer;
            && writer.Valid() && !writer.open
            && (err.Some? ==> writer.state.Failed? && writer.hdus == old(writer.hdus))
            && (err == None ==> writer.state.Active? && writer.hdus == old(writer.hdus) + plan && |stream.samples| == stream.expectedSamples)
            && (err == None ==> Planned(stream.header.records, stream.position, Concat(stream.samples), writer.form, writer.rules) == Ok(plan))
    ensures !old(stream.writer.state).Failed? && |stream.samples| == stream.expectedSamples ==>
              Times(stream.expectedSamples, stream.bitpix.ElemSize()) <= USIZE_MAX ==> err == None || err == Some(Io)
  {
    var writer := stream.writer;
    plan := [];
    err := stream.Finish();
    if err == None {
      plan := [writer.hdus[|writer.hdus| - 1]];
      StreamPlans(stream.header.records, Concat(stream.samples), plan[0], stream.position, writer.form, writer.rules);
    }
  }

  /** Write every chunk of an open stream and finish it, or drop it. */
  method RunStream(stream: ImageWriter, chunks: seq<View>, ghost records: seq<Record>) returns (err: Option<WriterError>, ghost plan: seq<Hdu>)
    requires stream.Valid() && stream.samples == [] && !stream.writer.state.Failed? && forall i :: 0 <= i < |chunks| ==> chunks[i].Valid()
    requires records == stream.header.records
    modifies stream, stream.writer`state, stream.writer`hdus, stream.writer`open, stream.writer.sink, stream.checksum
    ensures var writer := stream.writer;
            && writer.Valid() && !writer.open
            && (err.Some? ==> writer.state.Failed? && writer.hdus == old(writer.hdus))
            && (err == None ==> writer.state.Active? && writer.hdus == old(writer.hdus) + plan && |Gathered(chunks)| == stream.expectedSamples)
            && (err == None ==> Planned(records, stream.position, Concat(Gathered(chunks)), writer.form, writer.rules) == Ok(plan))
    ensures MakeUp(chunks, stream.layout) ==> err == None || err == Some(Io)
  {
    plan := [];
    err := WriteChunks(stream, chunks);
    if err.Some? {
      stream.Drop();
      return;
    }
    err, plan := FinishPlanned(stream);
  }

  /** Run a stream just opened. */
  method RunImage(writer: FitsWriter, layout: Metadata, template: Header?, stream: ImageWriter, chunks: seq<View>)
    returns (err: Option<WriterError>, ghost plan: seq<Hdu>)
    requires Opens(stream, writer, layout, RecordsOf(template)) && forall i :: 0 <= i < |chunks| ==> chunks[i].Valid()
    modifies stream, writer`state, writer`hdus, writer`open, writer.sink, stream.checksum
    ensures writer.Valid() && !writer.open
    ensures err.Some? ==> writer.state.Failed? && writer.hdus == old(writer.hdus)
    ensures err == None ==> ShapeProduct(layout.shape) == Some(|Gathered(chunks)|)
    ensures err == None ==> writer.state.Active? && writer.hdus == old(writer.hdus) + plan
    ensures err == None ==> ImageHeader(layout, stream.position).Ok?
    ensures err == None ==>
              Planned(MergedRecords(ImageHeader(layout, stream.position).value, RecordsOf(template)), stream.position, Concat(Gathered(chunks)),
                      writer.form, writer.rules) == Ok(plan)
    ensures MakeUp(chunks, layout) ==> err == None || err == Some(Io)
  {
    ghost var records := stream.header.records;
    err, plan := RunStream(stream, chunks, records);
  }

  /** Stream an image in any chunks. Finished, it did exactly what one write of all the samples
      does: the same HDUs, the same bytes. Else the file is as it was, and the writer is unusable
      unless nothing was written. */
  method StreamWhole(writer: FitsWriter, layout: Metadata, template: Header?, chunks: seq<View>)
    returns (err: Option<WriterError>, ghost plan: seq<Hdu>)
    requires writer.Valid() && !writer.open && forall i :: 0 <= i < |chunks| ==> chunks[i].Valid()
    modifies writer`state, writer`open, writer`hdus, writer.sink
    ensures writer.Valid() && !writer.open
    ensures err == None ==> ShapeProduct(layout.shape) == Some(|Gathered(chunks)|)
    ensures err == None ==> !old(writer.state).Failed? && writer.Adds(plan, None)
    ensures err == None ==>
              var position := old(writer.NextPosition()).value;
              && ImageHeader(layout, position).Ok?
              && Planned(MergedRecords(ImageHeader(layout, position).value, RecordsOf(template)), position, Concat(Gathered(chunks)),
                         writer.form, writer.rules) == Ok(plan)
    ensures err.Some? ==> writer.hdus == old(writer.hdus)
    ensures err.Some? ==> writer.state.Failed? || (unchanged(writer) && unchanged(writer.sink))
    ensures old(CanStart(writer, layout, RecordsOf(template))) && MakeUp(chunks, layout) ==> err == None || err == Some(Io)
  {
    var begun := StreamImage(writer, layout, template);
    if begun.Err? {
      return Some(begun.error), [];
    }
    err, plan := RunImage(writer, layout, template, begun.value, chunks);
  }

  // ---- Streamed and written at once ----

  /** Rules of one render decide alike. */
  lemma PlansAgree(records: seq<Record>, next: HduPosition, body: seq<Byte>, form: HeaderForm, a: Rules, b: Rules, render: Renderer)
    requires AreRules(a, render) && AreRules(b, render)
    ensures Planned(records, next, body, form, a) == Planned(records, next, body, form, b)
  {
    assert a.roles(records, next, |body|) == RoleOf(ReaderOf(records), next, |body|);
    forall records', signing ensures a.heads(records', signing, form.spare) == b.heads(records', signing, form.spare) {
      assert a.heads(records', signing, form.spare) == RenderUnit(records', signing, Spare(form.spare), render);
    }
  }

  /** Writing the same after two sinks that stood alike leaves them alike. */
  lemma SinksAgree(origin: seq<Byte>, start: nat, held: seq<Byte>, origin': seq<Byte>, start': nat, held': seq<Byte>, more: seq<Byte>)
    requires start <= |origin| && start' <= |origin'| && start + |held| == start' + |held'|
    requires Overlaid(origin, start, held) == Overlaid(origin', start', held')
    ensures Overlaid(origin, start, held + more) == Overlaid(origin', start', held' + more)
  {
    OverlaidTwice(origin, start, held, more);
    OverlaidTwice(origin', start', held', more);
  }

  /** The samples of chunks of one type are of it. */
  lemma {:induction false} GatheredAre(chunks: seq<View>, bitpix: Bitpix)
    requires forall i :: 0 <= i < |chunks| ==> chunks[i].Valid() && chunks[i].bitpix == bitpix
    ensures View(bitpix, Gathered(chunks)).Valid()
  {
    if chunks != [] {
      GatheredAre(chunks[..|chunks| - 1], bitpix);
      assert chunks[|chunks| - 1].Valid();
    }
  }

  /** Two usable writers that stand alike: the same state, form and rendering, over sinks that hold
      the same bytes. */
  ghost predicate StandAlike(a: FitsWriter, b: FitsWriter)
    reads a, a.sink, b, b.sink
  {
    && a.state == b.state && a.form == b.form && a.render == b.render
    && a.sink.bytes == b.sink.bytes && a.sink.pos == b.sink.pos
  }

  /** Write at once an image whose plan is known. */
  method AtOnce(writer: FitsWriter, layout: Metadata, template: Header?, view: View, ghost position: HduPosition, ghost plan: seq<Hdu>)
    returns (err: Option<WriterError>)
    requires writer.Valid() && !writer.open && writer.NextPosition() == Ok(position)
    requires view.Valid() && view.bitpix == layout.bitpix && ShapeProduct(layout.shape) == Some(|view.samples|)
    requires ImageHeader(layout, position).Ok?
    requires Planned(MergedRecords(ImageHeader(layout, position).value, RecordsOf(template)), position, Concat(view.samples),
                     writer.form, writer.rules) == Ok(plan)
    modifies writer`state, writer`hdus, writer.sink
    ensures writer.Valid() && (err == None || err == Some(Io))
    ensures err == None ==> writer.state.Active? && writer.hdus == old(writer.hdus) + plan
  {
    err := writer.WriteImage(layout, view, template);
  }

  /** Two files that held alike and gained the same hold alike. */
  lemma GainedAlike(a: FitsWriter, b: FitsWriter, hdus: seq<Hdu>, hdus': seq<Hdu>, plan: seq<Hdu>)
    requires a.Valid() && !a.open && b.Valid() && !b.open && a.state.Active? && b.state.Active?
    requires a.hdus == hdus + plan && b.hdus == hdus' + plan
    requires a.start <= |a.origin| && b.start <= |b.origin| && a.start + |FileBytes(hdus)| == b.start + |FileBytes(hdus')|
    requires Overlaid(a.origin, a.start, FileBytes(hdus)) == Overlaid(b.origin, b.start, FileBytes(hdus'))
    ensures a.sink.bytes == b.sink.bytes && a.sink.pos == b.sink.pos
  {
    FileAppend(hdus, plan);
    FileAppend(hdus', plan);
    SinksAgree(a.origin, a.start, FileBytes(hdus), b.origin, b.start, FileBytes(hdus'), FileBytes(plan));
  }

  /** Write at once what another writer streamed from where it stood alike. */
  method AtOnceAlike(a: FitsWriter, b: FitsWriter, layout: Metadata, template: Header?, view: View, ghost position: HduPosition,
                     ghost hdus: seq<Hdu>, ghost plan: seq<Hdu>)
    returns (err: Option<WriterError>)
    requires a != b && a.sink != b.sink && a.render == b.render && a.form == b.form
    requires a.Valid() && !a.open && a.state.Active? && a.hdus == hdus + plan
    requires b.Valid() && !b.open && b.NextPosition() == Ok(position)
    requires a.start + |FileBytes(hdus)| == b.start + |FileBytes(b.hdus)|
    requires Overlaid(a.origin, a.start, FileBytes(hdus)) == Overlaid(b.origin, b.start, FileBytes(b.hdus))
    requires view.Valid() && view.bitpix == layout.bitpix && ShapeProduct(layout.shape) == Some(|view.samples|)
    requires ImageHeader(layout, position).Ok?
    requires Planned(MergedRecords(ImageHeader(layout, position).value, RecordsOf(template)), position, Concat(view.samples),
                     a.form, a.rules) == Ok(plan)
    modifies b`state, b`hdus, b.sink
    ensures b.Valid() && (err == None || err == Some(Io))
    ensures err == None ==> StandAlike(a, b)
  {
    ghost var records, hdus' := MergedRecords(ImageHeader(layout, position).value, RecordsOf(template)), b.hdus;
    PlansAgree(records, position, Concat(view.samples), a.form, a.rules, b.rules, a.render);
    err := AtOnce(b, layout, template, view, position, plan);
    if err == None {
      GainedAlike(a, b, hdus, hdus', plan);
    }
  }

  /** What plans can be streamed: its header renders as streams sign it, and its samples are of a
      length memory addresses. */
  lemma {:induction false} PlannedStarts(writer: FitsWriter, layout: Metadata, template: Option<seq<Record>>, position: HduPosition, data: seq<Byte>)
    requires AreRules(writer.rules, writer.render) && ImageHeader(layout, position).Ok?
    requires Planned(MergedRecords(ImageHeader(layout, position).value, template), position, data, writer.form, writer.rules).Ok?
    ensures writer.rules.heads(MergedRecords(ImageHeader(layout, position).value, template), writer.StreamSigning(), writer.form.spare).Ok?
    ensures |data| <= USIZE_MAX
  {
    var records := MergedRecords(ImageHeader(layout, position).value, template);
    ImageRole(records, layout, position, template);
    assert writer.rules.roles(records, position, |data|) == RoleOf(ReaderOf(records), position, |data|);
    var role := writer.rules.roles(records, position, |data|).value;
    writer.HeadsAreAsLong(records, SumOf(WithFill(role.kind, data)));
  }

  /** Write at once what another writer failed to stream from where it stood alike: where this
      succeeds, nothing refused the stream. */
  method AtOnceAfter(a: FitsWriter, b: FitsWriter, layout: Metadata, template: Header?, view: View, ghost position: HduPosition,
                     ghost chunks: seq<View>, ghost streamed: Option<WriterError>, ghost couldStart: bool)
    returns (err: Option<WriterError>)
    requires a != b && a.sink != b.sink && a.render == b.render && a.form == b.form && AreRules(a.rules, a.render)
    requires b.Valid() && !b.open && (!b.state.Failed? ==> b.NextPosition() == Ok(position))
    requires view.Valid() && view == View(layout.bitpix, Gathered(chunks)) && ShapeProduct(layout.shape) == Some(|view.samples|)
    requires forall i :: 0 <= i < |chunks| ==> chunks[i].bitpix == layout.bitpix
    requires !b.state.Failed? && ImageHeader(layout, position).Ok? ==>
               a.rules.heads(MergedRecords(ImageHeader(layout, position).value, RecordsOf(template)), a.StreamSigning(), a.form.spare).Ok? ==>
                 couldStart
    requires couldStart && MakeUp(chunks, layout) ==> streamed == None || streamed == Some(Io)
    modifies b`state, b`hdus, b.sink
    ensures b.Valid()
    ensures err == None ==> streamed == None || streamed == Some(Io)
  {
    err := b.WriteImage(layout, view, template);
    if err == None {
      ghost var records := MergedRecords(ImageHeader(layout, position).value, RecordsOf(template));
      PlansAgree(records, position, Concat(view.samples), a.form, b.rules, a.rules, a.render);
      PlannedStarts(a, layout, RecordsOf(template), position, Concat(view.samples));
      SamplesLength(view.samples, layout.bitpix.ElemSize());
    }
  }

  /** However its samples are cut into chunks, an image streamed leaves its sink exactly as one
      written at once does; and where either succeeds, only the sink can fail the other. */
  method StreamOrAtOnce(a: FitsWriter, b: FitsWriter, layout: Metadata, template: Header?, chunks: seq<View>)
    returns (streamed: Option<WriterError>, atOnce: Option<WriterError>)
    requires a.Valid() && !a.open && b.Valid() && !b.open && a != b && a.sink != b.sink && StandAlike(a, b)
    requires forall i :: 0 <= i < |chunks| ==> chunks[i].Valid() && chunks[i].bitpix == layout.bitpix
    requires ShapeProduct(layout.shape) == Some(|Gathered(chunks)|)
    modifies a`state, a`open, a`hdus, a.sink, b`state, b`hdus, b.sink
    ensures a.Valid() && b.Valid()
    ensures streamed == None && atOnce == None ==> StandAlike(a, b)
    ensures streamed == None ==> atOnce == None || atOnce == Some(Io)
    ensures atOnce == None ==> streamed == None || streamed == Some(Io)
  {
    ghost var hdus, couldStart := a.hdus, CanStart(a, layout, RecordsOf(template));
    ghost var position := if a.state.Empty? then AtPrimary else AtExtension;
    ghost var plan;
    streamed, plan := StreamWhole(a, layout, template, chunks);
    GatheredAre(chunks, layout.bitpix);
    var view := View(layout.bitpix, Gathered(chunks));
    if streamed.Some? {
      atOnce := AtOnceAfter(a, b, layout, template, view, position, chunks, streamed, couldStart);
    } else {
      atOnce := AtOnceAlike(a, b, layout, template, view, position, hdus, plan);
    }
  }
}

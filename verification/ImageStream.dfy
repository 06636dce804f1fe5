/** An image written in chunks: its header up front, signed again once its data is summed. */
module ImageStream {
  import opened Bytes
  import opened HduHeaders
  import opened HduUnits
  import opened HduWriter
  import opened HeaderModel
  import opened HeaderRender
  import opened Headers
  import opened ImageHeaders
  import opened Preflight
  import opened Products
  import opened RunningSum
  import opened Sinks
  import opened TableBuilder

  // ---- What an image's write plans ----

  lemma PadsIs(len: nat)
    requires len + HeaderRender.Fill(len) <= USIZE_MAX
    ensures Pads(len)
  {
  }

  /** The header of an image with its template's records. */
  ghost predicate IsImageHeader(records: seq<Record>, layout: Metadata, position: HduPosition, template: Option<seq<Record>>) {
    ImageHeader(layout, position).Ok? && records == MergedRecords(ImageHeader(layout, position).value, template)
  }

  /** An image's header has its role wherever its data unit fits 64 bits, and holds no `DATASUM`. */
  lemma {:induction false} ImageRole(records: seq<Record>, layout: Metadata, position: HduPosition, template: Option<seq<Record>>)
    requires IsImageHeader(records, layout, position, template)
    ensures FirstOf(records, KeywordName(DATASUM), 0) == None
    ensures forall len: nat :: ImageBytes(layout.bitpix, layout.shape) == Ok(len) && len <= USIZE_MAX ==>
              RoleOf(ReaderOf(records), position, len) == Ok(Role(position, ImageKind(position)))
  {
    var header := ImageHeader(layout, position).value;
    var more := if template.Some? then template.value else [];
    ImageDeclares(layout, position, more);
    assert records == header + FromTemplate(more);
  }

  /** The bytes of an image whose samples are all there. */
  lemma {:induction false} ImageLength(layout: Metadata, samples: nat, len: nat)
    requires ShapeProduct(layout.shape) == Some(samples) && len == Times(samples, layout.bitpix.ElemSize())
    requires len + HeaderRender.Fill(len) <= USIZE_MAX
    ensures ImageBytes(layout.bitpix, layout.shape) == Ok(len)
  {
    PadsIs(len);
    TimesCommutes(samples, layout.bitpix.ElemSize());
  }

  lemma {:induction false} StreamRole(records: seq<Record>, layout: Metadata, position: HduPosition, template: Option<seq<Record>>, samples: nat, len: nat,
                   rules: Rules, render: Renderer)
    requires IsImageHeader(records, layout, position, template) && AreRules(rules, render)
    requires ShapeProduct(layout.shape) == Some(samples) && len == Times(samples, layout.bitpix.ElemSize())
    requires len + HeaderRender.Fill(len) <= USIZE_MAX
    ensures rules.roles(records, position, len) == Ok(Role(position, ImageKind(position)))
  {
    ImageRole(records, layout, position, template);
    ImageLength(layout, samples, len);
    assert rules.roles(records, position, len) == RoleOf(ReaderOf(records), position, len);
  }

  lemma FillsAlike(kind: HduKind, body: seq<Byte>)
    requires kind == PrimaryArray || kind == Image
    ensures WithFill(kind, body) == WithFill(PrimaryArray, body)
  {
  }

  // ---- The stream ----

  class ImageWriter {
    const writer: FitsWriter
    const header: Header
    const offset: nat
    const expectedSamples: nat
    const bitpix: Bitpix
    const checksum: Running
    var writtenSamples: nat
    var finished: bool

    ghost const layout: Metadata
    ghost const template: Option<seq<Record>>
    ghost const position: HduPosition
    ghost const head: seq<Byte>
    /** The samples written. */
    ghost var samples: seq<Element>

    /** The stream is the writer's open one: unless a write failed, the sink holds the file, the
        stream's header and its samples so far, and the checksum has summed them. */
    ghost predicate Valid()
      reads this, writer, writer.sink, header, checksum
    {
      && writer.Valid() && writer.open && !finished
      && header.Valid() && IsImageHeader(header.records, layout, position, template)
      && layout.bitpix == bitpix && ShapeProduct(layout.shape) == Some(expectedSamples)
      && |samples| == writtenSamples <= expectedSamples
      && (forall i :: 0 <= i < |samples| ==> |samples[i]| == bitpix.ElemSize())
      && (position.AtPrimary? <==> writer.hdus == [] && !writer.continuing)
      && checksum.Valid()
      && (!writer.state.Failed? ==>
            && writer.state.Active? && checksum.fed == Concat(samples)
            && writer.IsStreamHead(header.records, head) && offset == writer.start + |FileBytes(writer.hdus)|
            && writer.sink.After(writer.origin, writer.start, FileBytes(writer.hdus) + (head + Concat(samples))))
    }

    constructor (writer: FitsWriter, header: Header, offset: nat, expectedSamples: nat, ghost layout: Metadata, bitpix: Bitpix,
                 ghost template: Option<seq<Record>>, ghost position: HduPosition, ghost head: seq<Byte>)
      requires writer.Valid() && writer.open && writer.state.Active? && header.Valid()
      requires IsImageHeader(header.records, layout, position, template)
      requires layout.bitpix == bitpix && ShapeProduct(layout.shape) == Some(expectedSamples)
      requires position.AtPrimary? <==> writer.hdus == [] && !writer.continuing
      requires writer.IsStreamHead(header.records, head) && offset == writer.start + |FileBytes(writer.hdus)|
      requires writer.sink.After(writer.origin, writer.start, FileBytes(writer.hdus) + head)
      ensures Valid() && fresh(checksum) && samples == []
      ensures this.writer == writer && this.header == header && this.layout == layout && this.template == template && this.position == position
      ensures this.expectedSamples == expectedSamples && this.bitpix == bitpix
    {
      this.writer, this.header, this.offset, this.expectedSamples, this.bitpix := writer, header, offset, expectedSamples, bitpix;
      this.layout, this.template, this.position, this.head := layout, template, position, head;
      checksum := new Running();
      writtenSamples, finished, samples := 0, false, [];
      new;
      assert head + Concat(samples) == head;
    }

    /** The samples grow by the chunk's unless it is of another type or one too many, which
        changes nothing, or the sink fails, which leaves the writer `Failed`. */
    method WriteChunk(view: View) returns (err: Option<WriterError>)
      requires Valid() && view.Valid()
      modifies `writtenSamples, `samples, writer`state, writer.sink, checksum
      ensures Valid()
      ensures var total := |old(samples)| + |view.samples|;
              var refusal := if view.bitpix != bitpix then Some(ChunkTypeMismatch(bitpix, view.bitpix))
                             else if total > USIZE_MAX then Some(Refused(HeaderError.DataUnitOverflow))
                             else if total > expectedSamples then Some(DataSizeMismatch(expectedSamples, total))
                             else None;
              if refusal.Some? then err == refusal && unchanged(this) && unchanged(writer) && unchanged(writer.sink)
              else if err == None then samples == old(samples) + view.samples && writer.state == old(writer.state)
              else samples == old(samples) && writer.state.Failed? && err == Some(if old(writer.state).Failed? then WriterFailed else Io)
    {
      if view.bitpix != bitpix {
        return Some(ChunkTypeMismatch(bitpix, view.bitpix));
      }
      var total := writtenSamples + |view.samples|;
      if total > USIZE_MAX {
        return Some(Refused(HeaderError.DataUnitOverflow));
      }
      if total > expectedSamples {
        return Some(DataSizeMismatch(expectedSamples, total));
      }
      err := EmitChunkOf(view.samples);
      if err.Some? {
        return;
      }
      writtenSamples, samples := total, samples + view.samples;
    }

    /** Write the chunk's samples after those before it. */
    method EmitChunkOf(more: seq<Element>) returns (err: Option<WriterError>)
      requires Valid()
      modifies writer`state, writer.sink, checksum
      ensures writer.Valid() && writer.open && checksum.Valid()
      ensures err.Some? ==> writer.state.Failed? && err == Some(if old(writer.state).Failed? then WriterFailed else Io)
      ensures err == None ==> writer.state == old(writer.state)
      ensures err == None && !writer.state.Failed? ==>
                && checksum.fed == Concat(samples + more)
                && writer.sink.After(writer.origin, writer.start, FileBytes(writer.hdus) + (head + Concat(samples + more)))
    {
      ghost var was, held, past := writer.state, FileBytes(writer.hdus), head + Concat(samples);
      ConcatAppend(samples, more);
      err := writer.EmitSamples(more, checksum, held + past);
      if !was.Failed? {
        writer.EmittedKeeps(err, was, past, Concat(more));
      }
      assert held + past + Concat(more) == held + (head + (Concat(samples) + Concat(more)));
    }

    /** Finish a stream whose samples are all written: fill its block, and sign its header again.
        Then its HDU is the file's last; whatever fails, the writer is poisoned. */
    method Finish() returns (err: Option<WriterError>)
      requires Valid()
      modifies `finished, writer`state, writer`hdus, writer`open, writer.sink, checksum
      ensures writer.Valid() && !writer.open
      ensures old(writer.state).Failed? ==> err == Some(WriterFailed)
      ensures !old(writer.state).Failed? && |samples| != expectedSamples ==> err == Some(DataSizeMismatch(expectedSamples, |samples|))
      ensures !old(writer.state).Failed? && |samples| == expectedSamples && Times(expectedSamples, bitpix.ElemSize()) <= USIZE_MAX ==> err == None || err == Some(Io)
      ensures err.Some? ==> writer.state.Failed? && writer.hdus == old(writer.hdus)
      ensures err == None ==> writer.state.Active? && |samples| == expectedSamples && |writer.hdus| == |old(writer.hdus)| + 1
      ensures err == None ==> var hdu := writer.hdus[|old(writer.hdus)|];
                && writer.hdus == old(writer.hdus) + [hdu]
                && IsStreamed(header.records, Concat(samples), hdu, position, writer.form, writer.rules)
    {
      err := FinishOpen();
      if err.Some? {
        writer.Poison();
      }
    }

    /** Finish an open stream, or leave it open. */
    method FinishOpen() returns (err: Option<WriterError>)
      requires Valid()
      modifies `finished, writer`state, writer`hdus, writer`open, writer.sink, checksum
      ensures writer.Valid()
      ensures old(writer.state).Failed? ==> err == Some(WriterFailed)
      ensures !old(writer.state).Failed? && |samples| != expectedSamples ==> err == Some(DataSizeMismatch(expectedSamples, |samples|))
      ensures !old(writer.state).Failed? && |samples| == expectedSamples && Times(expectedSamples, bitpix.ElemSize()) <= USIZE_MAX ==> err == None || err == Some(Io)
      ensures err.Some? ==> writer.hdus == old(writer.hdus)
      ensures err == None ==> !writer.open && writer.state.Active? && |samples| == expectedSamples && |writer.hdus| == |old(writer.hdus)| + 1
      ensures err == None ==> var hdu := writer.hdus[|old(writer.hdus)|];
                && writer.hdus == old(writer.hdus) + [hdu]
                && IsStreamed(header.records, Concat(samples), hdu, position, writer.form, writer.rules)
    {
      if writer.state.Failed? {
        return Some(WriterFailed);
      }
      if writtenSamples != expectedSamples {
        return Some(DataSizeMismatch(expectedSamples, writtenSamples));
      }
      var dataBytes := CheckedMul(expectedSamples, bitpix.ElemSize());
      if dataBytes == None {
        return Some(Refused(HeaderError.DataUnitOverflow));
      }
      err := FinishData(dataBytes.value);
      finished := err == None;
    }

    /** Fill the block, sign the header, and complete the HDU. */
    method FinishData(dataBytes: nat) returns (err: Option<WriterError>)
      requires Valid() && !writer.state.Failed? && |samples| == expectedSamples && dataBytes == Times(expectedSamples, bitpix.ElemSize())
      modifies writer`state, writer`hdus, writer`open, writer.sink, checksum
      ensures writer.Valid()
      ensures err.Some? ==> err == Some(Io) && writer.hdus == old(writer.hdus)
      ensures err == None ==> !writer.open && writer.state.Active? && |writer.hdus| == |old(writer.hdus)| + 1
      ensures err == None ==> var hdu := writer.hdus[|old(writer.hdus)|];
                && writer.hdus == old(writer.hdus) + [hdu]
                && IsStreamed(header.records, Concat(samples), hdu, position, writer.form, writer.rules)
    {
      ghost var data, records := Concat(samples), header.records;
      SamplesLength(samples, bitpix.ElemSize());
      Reassociated(FileBytes(writer.hdus), head, data, []);
      ImageRole(records, layout, position, template);
      ghost var signed;
      err, signed := writer.FinishStream(header, offset, dataBytes, checksum, head, data);
      if err == None {
        ghost var hdu := Hdu(records, position, ImageKind(position), writer.form, signed, data);
        StreamCompletes(hdu);
        writer.Complete(hdu, position);
      }
    }

    /** What a finished stream left is complete: its sink's position bounds it. */
    lemma StreamCompletes(hdu: Hdu)
      requires writer.Valid() && IsImageHeader(hdu.records, layout, position, template)
      requires hdu.position == position && hdu.kind == ImageKind(position) && hdu.form == writer.form
      requires ShapeProduct(layout.shape) == Some(expectedSamples) && |hdu.body| == Times(expectedSamples, layout.bitpix.ElemSize())
      requires writer.sink.After(writer.origin, writer.start, FileBytes(writer.hdus) + hdu.head + WithFill(PrimaryArray, hdu.body))
      requires var signing := SigningOf(writer.form, WithFill(PrimaryArray, hdu.body));
               writer.rules.heads(hdu.records, signing, writer.form.spare) == Ok(hdu.head) && IsHead(hdu.head, signing)
      ensures IsComplete(hdu, writer.rules) && writer.sink.After(writer.origin, writer.start, FileBytes(writer.hdus) + Unit(hdu))
      ensures IsStreamed(hdu.records, hdu.body, hdu, position, writer.form, writer.rules)
    {
      FillsAlike(hdu.kind, hdu.body);
      StreamRole(hdu.records, layout, position, template, expectedSamples, |hdu.body|, writer.rules, writer.render);
      HeadCompletes(hdu, writer.rules);
      Reassociated(FileBytes(writer.hdus), hdu.head, WithFill(PrimaryArray, hdu.body), []);
    }

    /** Drop a stream that was not finished: its HDU is partial. */
    method Drop()
      requires Valid()
      modifies writer`state, writer`open
      ensures writer.Valid() && writer.state.Failed? && !writer.open && writer.hdus == old(writer.hdus)
    {
      writer.Poison();
    }
  }

  /** The HDU a stream of these records and this data leaves is the one a single write plans. */
  ghost predicate IsStreamed(records: seq<Record>, data: seq<Byte>, hdu: Hdu, position: HduPosition, form: HeaderForm, rules: Rules) {
    var role := Role(position, ImageKind(position));
    rules.roles(records, position, |data|) == Ok(role) && HduOf(records, role, data, form, rules) == Ok(hdu)
  }
}

/** Whole runs of a writer: any operations, in any order, each failing or not. */
module WriterRuns {
  import opened Bytes
  import opened Checksum
  import opened HduHeaders
  import opened HduUnits
  import opened HduWriter
  import opened HeaderModel
  import opened HeaderRender
  import opened Headers
  import opened ImageHeaders
  import opened ImageStream
  import opened Preflight
  import opened StreamRuns

  type Template = Option<seq<Record>>

  /** A chunk, and whether the stream's caller goes on where it is refused or fails. */
  datatype Attempt = Attempt(chunk: View, goesOn: bool)

  /** What a caller asks of a writer. A stream's caller chooses at each refusal to go on or to drop
      the stream, and after its chunks to finish it or drop it. */
  datatype Operation =
    | WriteHdu(header: seq<Record>, template: Template, body: Body)
    | WriteEmptyPrimary(template: Template)
    | WriteImage(layout: Metadata, view: View, template: Template)
    | Stream(layout: Metadata, template: Template, attempts: seq<Attempt>, finishes: bool)
    | WithChecksums
    | WithSpareRecords(records: nat)

  /** What the types of the operations' arguments already say. */
  ghost predicate IsOperation(op: Operation) {
    match op
    case WriteHdu(_, _, body) => IsBody(body)
    case WriteImage(layout, view, _) => view.Valid() && view.bitpix == layout.bitpix && ShapeProduct(layout.shape) == Some(|view.samples|)
    case Stream(_, _, attempts, _) => forall i :: 0 <= i < |attempts| ==> attempts[i].chunk.Valid()
    case _ => true
  }

  method HeaderWith(records: seq<Record>) returns (header: Header)
    ensures fresh(header) && header.Valid() && header.records == records
  {
    header := new Header.Of(records);
  }

  method TemplateWith(template: Template) returns (header: Header?)
    ensures header != null ==> fresh(header) && header.Valid()
    ensures RecordsOf(header) == template
  {
    header := null;
    if template.Some? {
      header := HeaderWith(template.value);
    }
  }

  /** One operation: complete HDUs are only ever added, and a failed writer does nothing. */
  method Apply(writer: FitsWriter, op: Operation)
    requires writer.Valid() && !writer.open && IsOperation(op)
    modifies writer, writer.sink
    ensures writer.Valid() && !writer.open && old(writer.hdus) <= writer.hdus
    ensures old(writer.state).Failed? ==> Unmoved(old(writer.sink.bytes), old(writer.sink.pos), old(writer.hdus), writer)
    ensures op.Stream? ==>
              || writer.state.Failed?
              || (op.finishes && |writer.hdus| == |old(writer.hdus)| + 1)
              || (unchanged(writer) && unchanged(writer.sink))
    ensures op.Stream? && (writer.state.Failed? || !op.finishes) ==> writer.hdus == old(writer.hdus)
  {
    match op
    case Stream(layout, template, attempts, finishes) =>
      RunStreamed(writer, layout, template, attempts, finishes);
    case WithChecksums =>
      writer.WithChecksums();
    case WithSpareRecords(records) =>
      writer.WithSpareRecords(records);
    case _ =>
      WriteOne(writer, op);
  }

  /** One HDU written whole. */
  method WriteOne(writer: FitsWriter, op: Operation)
    requires writer.Valid() && !writer.open && IsOperation(op) && (op.WriteHdu? || op.WriteEmptyPrimary? || op.WriteImage?)
    modifies writer`state, writer`hdus, writer.sink
    ensures writer.Valid() && old(writer.hdus) <= writer.hdus
    ensures old(writer.state).Failed? ==> Unmoved(old(writer.sink.bytes), old(writer.sink.pos), old(writer.hdus), writer)
  {
    match op
    case WriteHdu(records, more, body) =>
      var header := HeaderWith(records);
      var template := TemplateWith(more);
      var _ := writer.FinishHdu(header, template, body);
    case WriteEmptyPrimary(more) =>
      var template := TemplateWith(more);
      var _ := writer.WriteEmptyPrimary(template);
    case WriteImage(layout, view, more) =>
      var template := TemplateWith(more);
      var _ := writer.WriteImage(layout, view, template);
  }

  /** A failed writer's sink, and its file, are as they were. */
  ghost predicate Unmoved(bytes: seq<Byte>, pos: nat, hdus: seq<Hdu>, writer: FitsWriter)
    reads writer, writer.sink
  {
    writer.state.Failed? && writer.sink.bytes == bytes && writer.sink.pos == pos && writer.hdus == hdus
  }

  /** Write each chunk, whatever became of those before it, until the caller drops the stream at a
      refusal. */
  method WriteEach(stream: ImageWriter, attempts: seq<Attempt>) returns (dropped: bool)
    requires stream.Valid() && forall i :: 0 <= i < |attempts| ==> attempts[i].chunk.Valid()
    modifies stream`writtenSamples, stream`samples, stream.writer`state, stream.writer.sink, stream.checksum
    ensures stream.Valid()
  {
    for i := 0 to |attempts|
      invariant stream.Valid()
    {
      var err := stream.WriteChunk(attempts[i].chunk);
      if err.Some? && !attempts[i].goesOn {
        return true;
      }
    }
    dropped := false;
  }

  /** Stream chunks, and finish the stream or drop it. The file gains the stream's HDU or the
      writer is poisoned, unless the stream never began; dropped, it adds nothing. */
  method RunStreamed(writer: FitsWriter, layout: Metadata, more: Template, attempts: seq<Attempt>, finishes: bool)
    requires writer.Valid() && !writer.open && forall i :: 0 <= i < |attempts| ==> attempts[i].chunk.Valid()
    modifies writer`state, writer`open, writer`hdus, writer.sink
    ensures writer.Valid() && !writer.open && old(writer.hdus) <= writer.hdus
    ensures old(writer.state).Failed? ==> Unmoved(old(writer.sink.bytes), old(writer.sink.pos), old(writer.hdus), writer)
    ensures || writer.state.Failed?
            || (finishes && |writer.hdus| == |old(writer.hdus)| + 1)
            || (unchanged(writer) && unchanged(writer.sink))
    ensures writer.state.Failed? || !finishes ==> writer.hdus == old(writer.hdus)
  {
    var template := TemplateWith(more);
    var begun := StreamImage(writer, layout, template);
    if begun.Ok? {
      var stream := begun.value;
      var dropped := WriteEach(stream, attempts);
      if finishes && !dropped {
        var _ := stream.Finish();
      } else {
        stream.Drop();
      }
    }
  }

  /** Any run keeps the file: what was complete stays, and a failure is the end of it. */
  method Run(writer: FitsWriter, ops: seq<Operation>)
    requires writer.Valid() && !writer.open && forall i :: 0 <= i < |ops| ==> IsOperation(ops[i])
    modifies writer, writer.sink
    ensures writer.Valid() && !writer.open && old(writer.hdus) <= writer.hdus
    ensures old(writer.state).Failed? ==> Unmoved(old(writer.sink.bytes), old(writer.sink.pos), old(writer.hdus), writer)
  {
    for i := 0 to |ops|
      invariant writer.Valid() && !writer.open && old(writer.hdus) <= writer.hdus
      invariant old(writer.state).Failed? ==> Unmoved(old(writer.sink.bytes), old(writer.sink.pos), old(writer.hdus), writer)
    {
      Apply(writer, ops[i]);
    }
  }

  /** While the writer is usable, what it added to its sink is exactly its complete HDUs: whole
      blocks, positioned primary then extensions, and each signed unit totals all ones. */
  lemma RunLeavesAFile(writer: FitsWriter)
    requires writer.Valid() && !writer.open && !writer.state.Failed?
    ensures var file := writer.sink.bytes[writer.start..writer.sink.pos];
            && writer.start <= writer.sink.pos && file == FileBytes(writer.hdus) && |file| % BLOCK_SIZE == 0
    ensures writer.state.Active? && !writer.continuing ==> writer.hdus != [] && writer.hdus[0].position.AtPrimary?
    ensures forall i :: 1 <= i < |writer.hdus| ==> writer.hdus[i].position.AtExtension?
    ensures forall i :: 0 <= i < |writer.hdus| && writer.hdus[i].form.checksums ==> Canonical(Total(Unit(writer.hdus[i]))) == ONES
  {
    FileIsBlocks(writer.hdus, writer.rules);
    forall i | 0 <= i < |writer.hdus| && writer.hdus[i].form.checksums ensures Canonical(Total(Unit(writer.hdus[i]))) == ONES {
      assert IsComplete(writer.hdus[i], writer.rules);
    }
  }

  /** What a run leaves of a failed writer: every HDU it completed, untouched. */
  lemma FailureKeepsTheFile(writer: FitsWriter)
    requires writer.Valid()
    ensures var end := writer.start + |FileBytes(writer.hdus)|;
            writer.start <= end <= |writer.sink.bytes| && writer.sink.bytes[writer.start..end] == FileBytes(writer.hdus)
    ensures writer.sink.bytes[..writer.start] == writer.origin[..writer.start]
  {
    var all := writer.origin[..writer.start] + FileBytes(writer.hdus);
    assert writer.sink.bytes[..|all|] == all;
  }
}

/** The headers a writer makes of an image, and of an empty primary. */
module ImageHeaders {
  import opened Bytes
  import opened Decimals
  import opened HduHeaders
  import opened HeaderModel
  import opened Headers
  import opened Products
  import opened Prologues

  /** How stored samples scale, as the keywords say it; `refusal` when it does not fit the
      samples. */
  datatype ImageScaling = ImageScaling(affine: Option<(Value, Value)>, blank: Option<Value>, refusal: Option<HeaderError>)

  datatype Metadata = Metadata(shape: seq<nat>, bitpix: Bitpix, scaling: ImageScaling)

  /** What an image's header opens with. */
  function ImageOpening(position: HduPosition): Opening {
    if position.AtPrimary? then OpensPrimary else OpensExtension("IMAGE", 0)
  }

  function ScalingRecords(scaling: ImageScaling): seq<Record> {
    (if scaling.affine.Some? then [Valued("BZERO", scaling.affine.value.0, None), Valued("BSCALE", scaling.affine.value.1, None)] else [])
    + (if scaling.blank.Some? then [Valued("BLANK", scaling.blank.value, None)] else [])
  }

  /** The header of an image, or why none declares it. */
  function ImageHeader(layout: Metadata, position: HduPosition): Result<seq<Record>, HeaderError> {
    if |layout.shape| > MAX_AXES then Err(InvalidKeywordValue("NAXIS"))
    else if exists i :: 0 <= i < |layout.shape| && layout.shape[i] > I64_MAX then Err(DataUnitOverflow)
    else if layout.scaling.refusal.Some? then Err(layout.scaling.refusal.value)
    else Ok(PrologueRecords(ImageOpening(position), layout.bitpix, layout.shape) + ScalingRecords(layout.scaling))
  }

  /** A primary's structure over no axes. */
  function EmptyPrimary(): seq<Record> {
    PrologueRecords(OpensPrimary, U8, [])
  }

  /** The samples a shape holds; none past what memory addresses. */
  function ShapeProduct(shape: seq<nat>): Option<nat> {
    AxisProduct(shape, 0)
  }

  // ---- An image's header declares the image ----

  lemma ScalingLacks(scaling: ImageScaling, keyword: string)
    requires keyword !in ["BZERO", "BSCALE", "BLANK"]
    ensures Lacks(ScalingRecords(scaling), keyword)
  {
    assert ["BZERO", "BSCALE", "BLANK"][0] == "BZERO" && ["BZERO", "BSCALE", "BLANK"][1] == "BSCALE"
      && ["BZERO", "BSCALE", "BLANK"][2] == "BLANK";
  }

  function ImageKind(position: HduPosition): HduKind {
    if position.AtPrimary? then PrimaryArray else Image
  }

  /** The bytes of an image's data unit, where its block boundary is one 64 bits hold. */
  function ImageBytes(bitpix: Bitpix, shape: seq<nat>): Result<nat, HeaderError> {
    match ShapeProduct(shape)
    case None => Err(DataUnitOverflow)
    case Some(samples) =>
      match CheckedMul(bitpix.ElemSize(), samples)
      case None => Err(DataUnitOverflow)
      case Some(len) => if Pads(len) then Ok(len) else Err(DataUnitOverflow)
  }

  lemma ArrayUnit(read: Reader, position: HduPosition, bitpix: Bitpix, axes: seq<nat>)
    requires ReadsAs(read, ImageOpening(position), bitpix, axes)
    ensures UnpaddedBytes(ImageKind(position), bitpix.ElemSize(), axes, read) ==
            match ShapeProduct(axes)
            case None => Err(DataUnitOverflow)
            case Some(samples) => OrOverflow(CheckedMul(bitpix.ElemSize(), samples))
  {
    var product := ShapeProduct(axes);
    if product.Some? && position.AtExtension? {
      ProductFits(axes, |axes|);
      OneGroup(read, bitpix.ElemSize(), product.value, 0);
    }
  }

  /** A header that reads as an array's declares it. */
  lemma ArrayIsDeclared(read: Reader, position: HduPosition, bitpix: Bitpix, axes: seq<nat>)
    requires ReadsAs(read, ImageOpening(position), bitpix, axes) && AreAxes(axes)
    ensures KindOf(read, position) == Ok(ImageKind(position))
    ensures DataBytes(ImageKind(position), read) == ImageBytes(bitpix, axes)
  {
    ArrayAxes(read, axes);
    ArrayUnit(read, position, bitpix, axes);
    DeclaredBytes(read, ImageKind(position), bitpix, axes);
  }

  /** An image's header reads as its array's, and holds no `DATASUM`. */
  lemma ImageReads(layout: Metadata, position: HduPosition)
    ensures var records := PrologueRecords(ImageOpening(position), layout.bitpix, layout.shape) + ScalingRecords(layout.scaling);
            ReadsAs(ReaderOf(records), ImageOpening(position), layout.bitpix, layout.shape) && Lacks(records, "DATASUM")
  {
    var opening, more := ImageOpening(position), ScalingRecords(layout.scaling);
    ScalingLacks(layout.scaling, "GROUPS");
    ScalingLacks(layout.scaling, "XTENSION");
    ScalingLacks(layout.scaling, "DATASUM");
    PrologueReads(PrologueRecords(opening, layout.bitpix, layout.shape) + more, opening, layout.bitpix, layout.shape, more);
    PrologueLacks(opening, layout.bitpix, layout.shape, "DATASUM");
    BothLack(PrologueRecords(opening, layout.bitpix, layout.shape), more, "DATASUM");
  }

  /** Whatever the template, an image's header goes where it was made for, declares the image's
      bytes, and holds no `DATASUM`. */
  lemma ImageDeclares(layout: Metadata, position: HduPosition, template: seq<Record>)
    requires ImageHeader(layout, position).Ok?
    ensures var records := ImageHeader(layout, position).value + FromTemplate(template);
            && (position.AtPrimary? ==> ReaderOf(records)("XTENSION") == Ok(None))
            && KindOf(ReaderOf(records), position) == Ok(ImageKind(position))
            && DataBytes(ImageKind(position), ReaderOf(records)) == ImageBytes(layout.bitpix, layout.shape)
            && FirstOf(records, KeywordName("DATASUM"), 0) == None
  {
    var header := ImageHeader(layout, position).value;
    var a, b := ReaderOf(header + FromTemplate(template)), ReaderOf(header);
    ImageReads(layout, position);
    ArrayIsDeclared(b, position, layout.bitpix, layout.shape);
    TemplateReadsAlike(header, template);
    KindsAlike(a, b, position);
    BytesAlike(a, b, ImageKind(position));
    AbsentReads(header, "DATASUM");
    FixedAreGenerated();
    TemplateLeaves(header, template, "DATASUM");
  }

  /** An empty primary declares no bytes. */
  lemma EmptyPrimaryDeclares()
    ensures ReaderOf(EmptyPrimary())("XTENSION") == Ok(None)
    ensures KindOf(ReaderOf(EmptyPrimary()), AtPrimary) == Ok(PrimaryArray)
    ensures DataBytes(PrimaryArray, ReaderOf(EmptyPrimary())) == Ok(0)
    ensures FirstOf(EmptyPrimary(), KeywordName("DATASUM"), 0) == None
  {
    var layout := Metadata([], U8, ImageScaling(None, None, None));
    ImageDeclares(layout, AtPrimary, []);
    assert ImageHeader(layout, AtPrimary).value + FromTemplate([]) == EmptyPrimary();
  }
}

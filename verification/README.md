# fits-well, modelled and proved in Dafny

fits-well reads and writes FITS 4.0 files. This project models its index arithmetic, its byte
layouts and its writer protocol, and proves what each fast loop owes its slow specification.
`dafny verify dfyconfig.toml` checks all of it.

The parts, each with the files that hold it:

1. **Tiles and sections** (`MixedRadix`, `TileGeometry`, `TileScratch`, `TileCopies`, `TileBands`,
   `TileSections`, `SectionReads`, `Region`, `SectionRuns`). The reference is the coordinate of a
   flat index in an array of any rank. The odometer that walks a tile's rows, the row gathers and
   scatters, the bands that let tiles decode in parallel, the section scatter and the merged byte
   runs of a plain section are each proved against it.
2. **Table selection** (`Descriptors`, `Tables`, `PackedTables`, `TableSelection`, `Merged`,
   `CopySelection`, `CopyTable`). `Selected` is the data unit a copy should be; `CopyInto`, which
   holds ranges back and rewrites descriptors in place, gives exactly it, and reading it back,
   composing it and repeating it are lemmas about `Selected`.
3. **Binary-table writer** (`TableBuilder`, `TableLayout`, `TableBands`, `TableEncoder`,
   `TableChunks`, `WrittenCells`). The chunks are the packed unit of part 2, so the reading side of
   part 2 reads them back.
4. **Checksums** (`Checksum`, `Running`). The sum is one canonical representative modulo 2^32 - 1,
   whose two zeros are told apart.
5. **Headers** (`NameIndex`, `Headers`, `HeaderModel`, `HeaderParse`, `HeaderRender`,
   `ParsedEdits`). Every edit
   keeps both indexes exact, and a signed header closes the sum of its unit.
6. **Writer** (`HduHeaders`, `Prologues`, `ImageHeaders`, `TableHeaders`, `HduUnits`, `Sinks`,
   `TableBody`, `Preflight`, `Writer`, `ImageStream`, `StreamRuns`, `TableRuns`, `WriterRuns`). `Planned` says,
   before a byte is written, which complete HDUs a write adds or why it is refused. Every write
   follows its plan or fails partway and poisons; a stream in any chunks adds what one write plans.
7. **Parallel map** (`FirstFailure`). Workers step in any order over one atomic hint that each may
   read as stale as it likes.
8. **Physical scaling** (`Scaling`) and **ASCII tables** (`AsciiFields`, `AsciiTables`).

`Bytes`, `Decimals` and `Products` are shared: bytes and their big-endian forms, decimal digits, and
products added up so that proofs meet few non-linear terms. Four modules are named apart from their
files: `RunningSum` in `Running.dfy`, `TileRows` in `TileScratch.dfy`, `ImageRegion` in `Region.dfy`
and `MergedReads` in `Merged.dfy`; `HduWriter` is in `Writer.dfy`. A `usize` is 64 bits.

Where the code differs from what a reader might expect, the code is kept and the exact condition
proved:

- A text card's comment between two lengths is refused though a longer one renders
  (`HeaderRender.TextRenders`, `HeaderRender.LongerCommentRenders`): the test that starts a
  continuation counts the text as it is, the card that does not continue pads it to 8 characters.
- A `DATASUM` record with a comment can render to another length signed than with its placeholder
  (`HeaderRender.DataSumLengths` says exactly when, and `HeaderRender.DataSumLengthsPart` gives an
  input). No stream meets this: a template's `DATASUM` is
  dropped, so a stream's header holds none (`ImageHeaders.ImageDeclares`, `HeaderRender.UnitLengths`).
- Inserting back what was removed restores a header exactly when the record may be inserted at all
  (`HeaderModel.Header.RemoveThenInsert`), and a parsed header can hold a record that may not:
  `ParsedEdits.PutBackFails` gives one, `ParsedEdits.TakeAndPutBack` all of its kind.
- A failed writer reports it for a chunk exactly when the chunk is not empty
  (`HduWriter.FitsWriter.EmitSamples`); the stream's finish then reports the failure.

## Model

| member | source | states |
|---|---|---|
| TileGeometry.NewGeometry | src/compression/tile_geometry.rs:172-199 | A geometry keeps the axes and the positive tile sizes it is given, and holds per axis the stride, how many tiles reach its end and the longest tile. |
| TileGeometry.CountsAre | src/compression/tile_geometry.rs:231-237 | An image has tiles exactly when it has pixels: none without an axis or along an empty one, else one at every combination of the per-axis counts. |
| TileGeometry.TileOfHolds | src/compression/tile_geometry.rs:262-303 | Every coordinate of the image lies in one tile and in no other. |
| TileGeometry.PixelOfOneTile | src/compression/tile_geometry.rs:262-303 | Every flat index of the image is a pixel of exactly one tile. |
| TileGeometry.SpansCoverOnce | src/compression/tile_geometry.rs:262-303 | Over all tiles, the row spans cover every pixel of the image exactly once, for any rank and tile shape, edges clipped; an image of no axes has no pixel and no tile. |
| TileGeometry.AllTilesRebuildThePlane | src/compression/tile_geometry.rs:104-121 | Gathering every tile of a plane and scattering it back, in any order, rebuilds the whole plane whatever the buffer held. |
| TileRows.TileScratch.TileInto | src/compression/tile_geometry.rs:262-303 | The odometer, which divides once an axis and never in a row, leaves exactly the origin, the clipped extent and the row starts the N-dimensional index formula gives for tile `t`. |
| TileRows.TileScratch.EmitRows | src/compression/tile_geometry.rs:280-302 | Stepping the odometer emits, in order, the flat start of each row of the tile. |
| TileRows.TileScratch.Advance | src/compression/tile_geometry.rs:286-301 | One step carries over the higher axes: the coordinate is that of the next row, and the flat start kept by adding and taking off strides is its flat index. |
| TileRows.TileScratch.ScatterRowsInto | src/compression/tile_geometry.rs:104-121 | A scatter writes each converted value at its pixel of the part of the plane, changes nothing else, and never indexes outside the part. |
| TileRows.TileScratch.ScatterSectionInto | src/compression/tile_geometry.rs:126-168 | A section scatter writes each value of the tile that lies in the section at its cell of the section plane, and changes no other cell. |
| TileRows.TileScratch.RowInSection | src/compression/tile_geometry.rs:143-157 | Dividing a row number out axis by axis finds the same higher coordinates the odometer stepped through: the row is met exactly when they lie in the ranges, and starts where they put it in the section plane. |
| TileRows.GatherRows | src/compression/convert.rs:16-29 | A gather gives the samples at the tile's pixels, in tile order, each converted. |
| TileCopies.RebuiltAt | src/compression/tile_geometry.rs:104-121 | After any sequence of scatters a sample is the plane's own once a tile that holds it was written, and what it was until then. |
| TileCopies.CoveringTilesRebuildThePlane | src/compression/tile_geometry.rs:104-121 | Scatters whose tiles hold every pixel rebuild the whole plane, repeats and order included. |
| TileBands.BandHolds | src/compression/tile_geometry.rs:241-254 | Every pixel of tile `t` lies in the run of band `t / tiles`. |
| TileBands.BandsCover | src/compression/tile_geometry.rs:241-254 | The bands reach the end of the plane and one fewer does not. |
| TileBands.BandOfPixel | src/compression/tile_geometry.rs:35-44 | A flat index lies in the run of the one band its length divides it into: the runs are disjoint. |
| TileBands.TilesOfBand | src/compression/tile_geometry.rs:33-35 | The tiles of a band are exactly those whose number divides to it. |
| TileBands.PixelsLieInPart | src/compression/tile_geometry.rs:38-43 | A tile's pixels lie in its band's part of the plane: a band-relative index neither under- nor overflows. |
| TileBands.RunIsTiled | src/compression/tile_geometry.rs:33-35 | A band's tiles write every sample of its run. |
| TileBands.DecodeBand | src/compression/decode/image_decode_plan.rs:185-204 | Decoding the tiles of one band into its part leaves that part of the plane, whatever it held; bands can be decoded apart. |
| SectionReads.TiledReadRefinesWholeRead | src/compression/tile_geometry.rs:126-168 | Gathering tiles of the full plane and scattering the section of each, in any order that has every tile the section meets, fills the section plane: each cell holds what the full plane holds at its N-dimensional coordinate. |
| SectionReads.SectionReadRefinesWholeRead | src/compression/tile_geometry.rs:126-168 | The same of any boxes that are the tiles, whatever gave their values. |
| TileSections.SectionRebuiltAt | src/compression/tile_geometry.rs:126-168 | A section cell holds the full plane's value once a tile reaches it, and what the buffer held until then. |
| TileSections.RowRun | src/compression/tile_geometry.rs:158-166 | The section's cells in one row of a tile are one run of its plane, in order. |
| MixedRadix.FlatUnflat | src/compression/tile_geometry.rs:262-303 | Dividing a flat index out by the axes and multiplying back gives the index, for any rank. |
| MixedRadix.UnflatFlat | src/compression/tile_geometry.rs:262-303 | The flat index of a coordinate divides out to the coordinate. |
| MixedRadix.UnflatNext | src/compression/tile_geometry.rs:286-301 | Stepping an odometer from a flat index's coordinate gives the next flat index's coordinate. |
| ImageRegion.ValidateImageRegion | src/image_model/mod.rs:66-76 | A region is refused unless it has the image's rank and each range is ordered and inside its axis, the first bad axis reported; otherwise its extent is given. |
| SectionRuns.Visit | src/image_model/region.rs:54-118 | The runs' bytes, joined, are the section's bytes in Fortran order; their offsets rise and no run ends where the next starts; it fails only when the image's byte size does not fit `usize`. |
| SectionRuns.Section.ByteAt | src/image_model/region.rs:54-118 | Byte `b` of element `x` of section row `k` is that byte of the image's element at its N-dimensional coordinate. |
| SectionRuns.RowStart | src/image_model/region.rs:72-92 | Checked division of a row number gives the element the row starts at, and overflows only where the image's element count does. |
| SectionRuns.Take | src/image_model/region.rs:98-116 | A row's run joins the one held back exactly when it starts where that ends. |
| Descriptors.DescriptorRoundTrip | src/bintable/descriptor/mod.rs:93-106 | What is written is read back; of an array of no elements, only that it has none. |
| Descriptors.DecodedFits | src/bintable/descriptor/mod.rs:60-83 | A decoded descriptor fits the width it was read from. |
| Descriptors.Descriptor.HeapRange | src/bintable/descriptor/mod.rs:129-142 | An array's range is its payload length from its offset past the heap's start, empty at the start without elements; there is none exactly when the payload length overflows or a payload would end past the heap or past `usize`. |
| Descriptors.ElementKind.PayloadLen | src/bintable/element_kind.rs:96-101 | The fewest bytes that hold the bits of so many elements; none exactly when whole-byte elements need more than `usize`. |
| Tables.VlaCellSpan | src/bintable/selection.rs:416-433 | The count and the payload bounds a descriptor cell gives; its decoding error, or past-the-heap with its column and row exactly when it has no heap range. |
| Tables.Schema.Compacted | src/bintable/table_extent.rs:19-31 | The schema of a copy of so many rows: valid, with the same columns, its heap directly after its rows and up to the data's end. |
| MergedReads.Merged.Push | src/bintable/selection.rs:156-168 | Whether joined or not, what was appended and what is pending together grow by exactly the range's bytes. |
| MergedReads.Merged.Flush | src/bintable/selection.rs:177-182 | A flush appends the range held back, or fails leaving `out` as it was. |
| MergedReads.Merged.NextOffset | src/bintable/selection.rs:172-174 | The next pushed byte lands where `out` ends once the held range lands. |
| CopyTable.CopyInto | src/bintable/selection.rs:264-332 | Although ranges are held back and joined while descriptor slots of `out` are overwritten, `out` ends as the selection's data unit (its rows, then its arrays packed in row order), or the selection's own error is given. |
| CopyTable.CopiedLen | src/bintable/selection.rs:227-258 | The length `copy_into` writes, counted from the main table alone, or the error the copy gives; overflow is reported. |
| CopySelection.HeapLen | src/bintable/selection.rs:339-364 | The heap bytes the selected rows address, with the errors the whole read meets, nothing fetched. |
| CopySelection.RewriteCell | src/bintable/selection.rs:285-330 | In place, a fixed cell stays, a left-out descriptor becomes empty, and a kept one addresses its array's place in the copy; no other byte before the heap changes. |
| CopyTable.FetchRows | src/bintable/selection.rs:264-284 | The selected rows are fetched in order, joined where they follow one another, each checked as it is met. |
| CopyTable.RowsWithin | src/bintable/selection.rs:452-466 | A caller's bounds give a range that is empty or inside the table and holds exactly the rows the bounds admit, or an error. |
| TableSelection.SelectionKeepsFixed | src/bintable/table_view.rs:90-93 | Read through the compacted extent, each selected row's fixed cells are the source's. |
| TableSelection.SelectionKeepsArrays | src/bintable/table_view.rs:71-79 | For every selected row and kept array column, the copy gives the source's element count and payload bytes. |
| TableSelection.SelectionLeavesOut | src/bintable/selection.rs:264-333 | A left-out array column reads as empty arrays. |
| TableSelection.PackedCell | src/bintable/selection.rs:264-333 | An array of the copy lies after the heap bytes of all the cells before it in row order: arrays are packed, in order, and do not overlap. |
| TableSelection.SelectedLength | src/bintable/selection.rs:227-258 | The copy is as long as its rows and its cells' heap bytes. |
| TableSelection.SelectionsCompose | src/bintable/selection.rs:264-332 | Copying rows of a copy, under a mask that keeps no more columns, is copying those rows of the source: the same bytes or the same error. |
| TableSelection.SelectionIsIdempotent | src/bintable/selection.rs:264-332 | Compacting a copy under its own mask changes nothing. |
| TableSelection.SameNumbers | src/bintable/selection.rs:187-210 | A range and the same rows picked one by one give the same copy. |
| TableSelection.CellIsSlot | src/bintable/table_view.rs:90-93 | A cell of a table is its column's bytes of its row. |
| TableLayout.Builder.Push | src/fits_writer/builder.rs:244-249 | The first column that implies a row count fixes it; every later one must hold that many rows; a refusal changes nothing. |
| TableLayout.InferredExactly | src/fits_writer/builder.rs:201-215 | A column holds the rows it implies and no other count. |
| TableLayout.LayOut | src/fits_writer/builder.rs:264-289 | A layout is given exactly when every count fits a header integer and every descriptor addresses its array in its width, and it is the table's extent. |
| TableLayout.HeapLen | src/fits_writer/builder.rs:276-289 | The running heap length is that of every array, each descriptor checked where its array will start. |
| TableEncoder.ScatterColumn | src/fits_writer/builder.rs:727-752 | A fixed column's cells land at their row's stride, and nothing else of the band changes. |
| TableEncoder.WriteArrays | src/fits_writer/builder.rs:403-425 | The descriptors of a band, written from a running counter, are those of the packed unit. |
| TableChunks.EncodeChunks | src/fits_writer/builder.rs:377-453 | For every chunk size the chunks together are the packed unit of the columns' cells, as long as `data_len`; no descriptor fails, and the running offset ends at the heap's length. |
| TableChunks.WriteBand | src/fits_writer/builder.rs:395-430 | A band of rows follows the rows before it in the packed unit. |
| TableChunks.GatherArray | src/fits_writer/builder.rs:431-452 | Arrays gather to a chunk and go out once it is large enough, none lost or reordered. |
| WrittenCells.FixedReadsBack | src/fits_writer/builder.rs:773-792 | A fixed cell of the written table reads back as its values' bytes. |
| WrittenCells.ArrayReadsBack | src/fits_writer/builder.rs:795-798 | An array reads back with its element count and its values' bytes. |
| WrittenCells.DescriptorIsPrefixSum | src/fits_writer/builder.rs:403-425 | A written descriptor's offset is the bytes of every array before it in row order. |
| WrittenCells.RowStarts | src/fits_writer/builder.rs:489-504 | Each row's precomputed heap offset is the bytes of the rows before it. |
| WrittenCells.ArrayCell | src/fits_writer/builder.rs:517-535 | The descriptor computed from prefix sums is the one the written table holds. |
| HeaderModel.Header.InsertAt | src/header_model/mod.rs:652-677 | The records gain the new one at its position and both indexes stay exact. |
| HeaderModel.Header.TakeAt | src/header_model/mod.rs:681-723 | The records lose the one at the position and both indexes stay exact, a name with another record passing to it. |
| HeaderModel.Header.Reindex | src/header_model/mod.rs:726-739 | Rebuilding gives the indexes of the records, whatever they were. |
| HeaderModel.Header.IndexOf | src/header_model/mod.rs:326-336 | The position found through the index is the first record the name names, commentary included. |
| HeaderModel.Header.First | src/header_model/mod.rs:134-140 | An index lookup finds what a search of the records would. |
| HeaderModel.Header.Get | src/header_model/mod.rs:144-148 | Lookup by index gives what a search gives: a value, a malformed record's defect, or nothing. |
| HeaderModel.Header.Set | src/header_model/mod.rs:427-443 | After a set the name reads as the value and every other name as before; a refused set changes nothing. |
| HeaderModel.Header.SetComment | src/header_model/mod.rs:745-760 | Only the comment of the first record of the name changes; every name reads as before; a refusal changes nothing. |
| HeaderModel.Header.PushCommentary | src/header_model/mod.rs:777-786 | Commentary is appended without touching either index. |
| HeaderModel.Header.InsertRecord | src/header_model/mod.rs:538-554 | A record is inserted exactly when the position exists and the record renders under a permitted name (or is malformed); a refusal changes nothing. |
| HeaderModel.Header.RemoveAt | src/header_model/mod.rs:568-577 | Removing by position succeeds exactly for a position there is. |
| HeaderModel.Header.Remove | src/header_model/mod.rs:557-565 | The first record a name names is removed, or nothing. |
| HeaderModel.Header.RemoveThenInsert | src/header_model/mod.rs:568-577 | Inserting back what was removed restores records and both indexes, exactly when the record may be inserted; else the record is gone. |
| ParsedEdits.TakeAndPutBack | src/header_model/mod.rs:538-554 | Of a header parsed from one short text card, the removed record goes back exactly when its comment fits beside the filled text or on a card of its own and is not between. |
| ParsedEdits.PutBackFails | src/header_model/card/mod.rs:288-316 | The input that fails: the text `0` with a 58-character comment parses, and is refused when put back. |
| HeaderModel.Header.RemoveAll | src/header_model/mod.rs:581-592 | Every record of a name goes, the others keep their order, and the count is right. |
| HeaderModel.Header.RemoveWhere | src/header_model/mod.rs:613-624 | Exactly the records whose keyword is not removed stay, in order, both indexes rebuilt. |
| HeaderModel.Header.AppendFilteredFrom | src/header_model/mod.rs:596-609 | The template's kept records follow the header's, both indexes rebuilt. |
| HeaderModel.Header.RenameKeywords | src/header_model/mod.rs:629-643 | Each valued record is renamed in place, its value, comment and position kept. |
| NameIndex.InsertKeeps | src/header_model/mod.rs:652-677 | Shifting positions up and entering the new name keeps an index exact. |
| NameIndex.RemoveKeeps | src/header_model/mod.rs:681-723 | Shifting positions back and finding the next of the removed name keeps an index exact. |
| NameIndex.IndexIsUnique | src/header_model/mod.rs:54-63 | A list of names has one index: two valid indexes of it are equal. |
| NameIndex.InsertUndoesRemove | src/header_model/mod.rs:568-577 | Inserting back what was removed gives the list again. |
| HeaderParse.Parse | src/header_model/mod.rs:71-114 | A header unit parses to its cards before the first `END`, long strings folded, trailing blanks dropped, both indexes exact; without `END` it fails. |
| HeaderParse.FoldContinuation | src/header_model/mod.rs:966-999 | A continuation joins the last record exactly when that awaits one, and keeps its name. |
| HeaderParse.TrimmedIs | src/header_model/mod.rs:71-114 | What is dropped before `END` is blank, and what is kept does not end in a blank record. |
| Headers.Record.WithValue | src/header_model/mod.rs:448-485 | The result is never malformed, has the same names and the new value, and keeps the comment of a record that was sound. |
| Headers.FindNamed | src/header_model/record.rs:190-201 | The first record a name names, by keyword, `HIERARCH` name or commentary name. |
| HeaderRender.RenderInto | src/header_model/mod.rs:793-832 | A rendered header is its records, spare blanks, `END` and block fill; signed with a data sum, header and data sum to negative zero (all ones), for every header and every data sum. |
| HeaderRender.RenderRecords | src/header_model/mod.rs:844-895 | The first `DATASUM` and `CHECKSUM` are signed, missing ones appended, and the `CHECKSUM` record's offset given with its placeholder in place. |
| HeaderRender.Sign | src/header_model/mod.rs:815-830 | Patching the encoded sum over the placeholder at byte 11 of a record closes the sum of the unit. |
| HeaderRender.TextAt | src/header_model/card/mod.rs:640-760 | A short text value starts at byte 11 of its record, continued or not. |
| HeaderRender.TextRenders | src/header_model/card/mod.rs:288-316 | Exactly which comments a short text card takes: after the value, or on a record of their own; some lengths between are refused though longer ones fit. |
| HeaderRender.LongerCommentRenders | src/header_model/card/mod.rs:288-316 | A 58-character comment on a one-digit `DATASUM` is refused where a 65-character one renders. |
| HeaderRender.DataSumLengths | src/header_model/mod.rs:844-895 | Exactly when a commented `DATASUM` record is as long with its sum as with its placeholder. |
| HeaderRender.DataSumLengthsPart | src/header_model/mod.rs:844-895 | An input where they differ: a 57-character comment and the sum 4294967295 take one card with the placeholder and two signed. |
| HeaderRender.UnitLengths | src/header_model/mod.rs:793-832 | A header without a `DATASUM` record renders with placeholders exactly when it renders signed, to the same length, whatever the sum. |
| HeaderRender.Fill | src/block/mod.rs:43-45 | The fill to the next block boundary is less than a block. |
| Checksum.Accumulate | src/checksum/mod.rs:23-33 | The deferred sum never overflows its 64-bit total and is the seed and the words modulo 2^32-1, 0 only for an all-zero total. |
| Checksum.DeferredCarriesAreExact | src/checksum/mod.rs:44-47 | Folding each word's carry at once gives the same sum, for every seed. |
| Checksum.Fold | src/checksum/mod.rs:37-42 | Adding the end-around carries back ends at the 32-bit representative. |
| Checksum.CombineIsCanonical | src/checksum/mod.rs:44-47 | The wrapping sum with its carry is addition modulo 2^32-1 that is 0 only for 0. |
| Checksum.CanonicalCloses | src/checksum/mod.rs:52-94 | A total and what it lacks of all ones sum to all ones, of the two zeros. |
| Checksum.Encode | src/checksum/mod.rs:52-94 | The encoder ends for every sum and gives the interleaved, rotated columns, each byte's characters nudged apart by the fewest steps. |
| Checksum.NudgePairs | src/checksum/mod.rs:62-80 | The punctuation-avoiding loop ends, each pair moved apart by the fewest steps that leave neither excluded. |
| Checksum.Column | src/checksum/mod.rs:52-94 | The four characters of a byte are letters or digits and sum to that byte and four ASCII zeros. |
| Checksum.EncodedIsAlphanumeric | src/checksum/mod.rs:52-94 | All 16 characters are letters or digits, for every sum. |
| Checksum.EncodedOutweighs | src/checksum/mod.rs:52-94 | Where a record puts it, the value weighs the complement more than sixteen zeros do. |
| Checksum.PatchClosesTheSum | src/header_model/mod.rs:815-830 | Writing the encoded sum over the placeholder at a word-aligned record brings header and data to all ones. |
| RunningSum.Running.Update | src/checksum/running.rs:25-42 | A piece of any length, words cut anywhere, joins what was fed. |
| RunningSum.Running.Finish | src/checksum/running.rs:45-48 | Whole words fed, the sum is that of all the bytes at once. |
| RunningSum.SumPieces | src/checksum/running.rs:25-42 | However a word-aligned byte string is cut, its running sum is the sum of the whole. |
| HduHeaders.TemplateReadsAlike | src/fits_writer/mod.rs:680-684 | Whatever a template holds, the merged header reads as before in every keyword a kind or a length is read from. |
| HduHeaders.KindsAlike | src/hdu/hdu_kind/mod.rs:60-94 | Headers that read alike declare the same kind. |
| HduHeaders.BytesAlike | src/hdu/hdu_kind/mod.rs:99-119 | Headers that read alike declare the same data unit. |
| HduHeaders.NaxisIsGenerated | src/reserved_keywords.rs:89-100 | Every axis keyword is one a writer generates, so no template can change it. |
| ImageHeaders.ImageDeclares | src/fits_writer/image_writer.rs:108-122 | With any template, an image's header goes where it was made for, declares exactly the image's bytes, and holds no `DATASUM`. |
| ImageHeaders.EmptyPrimaryDeclares | src/fits_writer/mod.rs:617-625 | An empty primary declares no bytes. |
| Prologues.AxisReads | src/hdu/prologue.rs:39-85 | Axis `k` of a prologue reads back as its length, for any number of axes. |
| Prologues.PrologueReads | src/hdu/prologue.rs:39-85 | Every structural keyword of a prologue reads back as what it was made of, whatever records follow it. |
| TableHeaders.TableDeclares | src/fits_writer/builder.rs:319-362 | A table's header declares exactly its rows and its heap, whatever the template, and goes after an empty primary when it is first. |
| TableHeaders.TablePlan | src/fits_writer/mod.rs:455-466 | A table that was laid out is never refused for its length: its header declares what its cells pack to. |
| TableHeaders.FillIs | src/fits_writer/mod.rs:226-232 | The fill is blanks for an ASCII table and zeros for any other data unit, less than a block of it. |
| HduUnits.RoleStays | src/fits_writer/mod.rs:607-613 | The role a header is given is its role where it goes. |
| Sinks.Sink.WriteAll | src/fits_writer/mod.rs:174-181 | A write lands whole, or fails after any prefix; it always fails past a 64-bit position. |
| HduUnits.FileIsBlocks | src/fits_writer/mod.rs:199-267 | A file of complete HDUs is whole 2880-byte blocks. |
| HduUnits.UnitSums | src/fits_writer/mod.rs:199-267 | If header and data unit combine to all ones, so does the total of the unit they make. |
| HduUnits.PlanExtendsFile | src/fits_writer/mod.rs:199-267 | What a write adds to a file makes a file: a primary first, extensions after. |
| Preflight.ByteLen | src/fits_writer/mod.rs:629-643 | The length of a body without encoding it; none past `usize`. |
| Preflight.SumBody | src/fits_writer/mod.rs:270-297 | Chunked, gathered or whole, every body sums as its bytes. |
| Preflight.Prepare | src/fits_writer/mod.rs:199-262 | Everything fallible is decided before the first byte: the refusal, or every byte of every HDU to be written, each complete and signed. |
| HduWriter.FitsWriter.constructor | src/fits_writer/mod.rs:107-118 | A new writer is usable and has written nothing. |
| HduWriter.FitsWriter.Continuing | src/fits_writer/mod.rs:121-125 | A continuing writer writes extensions after a file whose primary is there. |
| HduWriter.FitsWriter.Emit | src/fits_writer/mod.rs:174-181 | After a write the sink holds all the bytes, or a prefix and the writer is Failed; in Failed nothing is written. |
| HduWriter.FitsWriter.EmitSamples | src/fits_writer/mod.rs:349-356 | Chunked encoding writes exactly the samples' bytes, and sums them when asked, or fails partway; a failed writer reports it exactly when there is a sample to write. |
| HduWriter.FitsWriter.EmitParts | src/fits_writer/mod.rs:320-345 | Gathering small cells and passing large ones writes the rows and the heap in order, or fails partway. |
| HduWriter.FitsWriter.EmitBody | src/fits_writer/mod.rs:300-314 | Every kind of body writes exactly its bytes, or fails partway. |
| HduWriter.FitsWriter.FinishHdu | src/fits_writer/mod.rs:199-267 | A refusal leaves sink and state unchanged; otherwise every planned HDU is added, the empty primary an extension needs first, or the writer fails partway and keeps the file. |
| HduWriter.FitsWriter.WriteRawHdu | src/fits_writer/mod.rs:148-152 | A raw HDU is committed as its plan says. |
| HduWriter.FitsWriter.WriteTable | src/fits_writer/mod.rs:199-267 | Under any header, a laid-out table is committed with its packed cells as its data unit. |
| TableRuns.WriteColumns | src/fits_writer/mod.rs:455-466 | Columns are laid out, declared and committed: refused for their layout exactly when they cannot be laid out; of a length that fits with its fill, otherwise only for a header that does not render; written, the file gains a binary-table HDU that declares the table's rows and heap and reads back cell by cell. |
| HduWriter.FitsWriter.WriteUnit | src/fits_writer/mod.rs:397-412 | A compressed container is committed as its rows and its heap. |
| HduWriter.FitsWriter.WriteEmptyPrimary | src/fits_writer/mod.rs:487-492 | An empty primary is committed first only; after any HDU it is refused and nothing changes. |
| HduWriter.FitsWriter.WriteImage | src/fits_writer/mod.rs:474-481 | An image is committed under the header that declares it, or refused with nothing changed. |
| HduWriter.FitsWriter.StartStream | src/fits_writer/mod.rs:557-566 | A stream's placeholder header is written at the file's end, or nothing is, or the writer fails. |
| HduWriter.FitsWriter.RewriteHeader | src/fits_writer/mod.rs:541-553 | Rewriting in place replaces the header by one as long and disturbs no other byte; a failed seek or write poisons. |
| HduWriter.FitsWriter.FinishStream | src/fits_writer/mod.rs:570-583 | A finished stream leaves its signed header, its data and its fill. |
| HduWriter.FitsWriter.Poison | src/fits_writer/mod.rs:184-186 | A poisoned writer is failed and keeps its file. |
| ImageStream.ImageWriter.WriteChunk | src/fits_writer/image_writer.rs:59-77 | A chunk of another type or past the shape is refused and changes nothing; else its samples follow those before, or the writer fails. |
| ImageStream.ImageWriter.Finish | src/fits_writer/image_writer.rs:81-94 | Finishing succeeds only with every sample written, and then adds exactly the HDU one write plans; any failure poisons. |
| ImageStream.ImageWriter.Drop | src/fits_writer/image_writer.rs:98-102 | A stream dropped unfinished poisons the writer and adds nothing. |
| StreamRuns.StreamImage | src/fits_writer/image_writer.rs:34-54 | An opened stream is empty, of its layout, with its header written and its template merged. |
| StreamRuns.StreamWhole | src/fits_writer/image_writer.rs:59-77 | For every split into chunks, a finished stream added exactly what one write of all the samples plans; and one that can start, with chunks that make the image up, is refused by nothing but the sink. |
| StreamRuns.StreamOrAtOnce | src/fits_writer/image_writer.rs:81-94 | Streamed in any chunks or written at once, from sinks that stand alike, an image leaves the sinks byte-identical, checksums on or off; where either succeeds only the sink can fail the other. |
| WriterRuns.Apply | src/fits_writer/mod.rs:541-605 | No operation, under any template, removes or changes a complete HDU; on a failed writer none does anything; a stream that is not finished adds nothing, and leaves the writer failed or everything unchanged. |
| WriterRuns.Run | src/fits_writer/mod.rs:156-186 | Over any run of operations complete HDUs are only added, and Failed is absorbing; a stream's caller may go on or give up at each chunk that is refused. |
| WriterRuns.RunLeavesAFile | src/fits_writer/mod.rs:199-267 | Usable with no stream open, the sink holds whole blocks made of complete HDUs, a primary first, each signed one summing to negative zero. |
| WriterRuns.FailureKeepsTheFile | src/fits_writer/mod.rs:174-186 | Whatever failed, every HDU that was complete is still in the sink, untouched. |
| FirstFailure.StepKeeps | src/compression/first_failure.rs:48-61 | Every step of every worker, whatever stale hint it saw, keeps that a skipped index comes after a known failure. |
| FirstFailure.EveryScheduleAgrees | src/compression/first_failure.rs:42-68 | Under every schedule a finished run collects the lowest failure or all results in order, meets no empty slot first, is never stuck, and is bounded in length. |
| FirstFailure.SlotIsFilled | src/compression/first_failure.rs:62-69 | Before the first failure every slot is filled. |
| FirstFailure.InOrderIs | src/compression/first_failure.rs:42-68 | Working in order gives the error of the least failing index, or every value. |
| FirstFailure.TryMapInit | src/compression/first_failure.rs:42-68 | The map gives what working in order gives. |
| FirstFailure.Collect | src/compression/first_failure.rs:62-69 | The ordered pass gives the first failure or every value. |
| Scaling.ExtendPhysical | src/image_model/scaling.rs:99-130 | The loop with its branches decided once is the one-sample map over the samples. |
| Scaling.ExtendPhysicalBe | src/image_model/scaling.rs:135-151 | Decoding a block at a time gives the one-sample map over all the samples. |
| Scaling.ExtendPhysicalBeCells | src/image_model/scaling.rs:156-190 | Gathering cells of whole samples in one block gives exactly the one-sample map over the flattened samples, in order; the block never overflows. |
| Scaling.CellsAreTheirRun | src/image_model/scaling.rs:156-190 | Cells cut from a run hold the run's samples. |
| Scaling.RunOrCells | src/image_model/scaling.rs:135-151 | The run and the cells give the same values. |
| AsciiFields.PrintedParses | src/ascii/mod.rs:418-423 | Every 64-bit integer parses back from its text. |
| AsciiFields.TrimPadded | src/blank.rs:6-19 | Blanks after a text are trimmed with it. |
| AsciiFields.FieldOf | src/fits_writer/ascii_builder.rs:191-244 | A null is written as the marker and never refused; a defined cell is written as its own text, and refused exactly when that is not restricted text, is wider than the column or reads as the marker. |
| AsciiFields.TextReadsBack | src/fits_writer/ascii_builder.rs:255-271 | Every text cell written reads back: a defined one never as the null marker, a null always as null. |
| AsciiFields.IntegerReadsBack | src/fits_writer/ascii_builder.rs:255-271 | Every integer cell written reads back. |
| AsciiTables.AsciiBuilder.Push | src/fits_writer/ascii_builder.rs:325-331 | The first column fixes the row count and later ones must agree; a refusal changes nothing. |
| AsciiTables.AsciiBuilder.Layout | src/fits_writer/ascii_builder.rs:345-363 | A layout is given exactly for at most 999 valid columns whose sums fit `usize`, and holds the row count, the row width and each column's start. |
| AsciiTables.AsciiBuilder.Encode | src/fits_writer/ascii_builder.rs:400-415 | A table encodes exactly when it can be laid out, its header's integers hold its numbers, its length fits and every defined cell is writable; then it is its rows of the declared width with every field in its column's place. |
| AsciiTables.EncodeRow | src/fits_writer/ascii_builder.rs:419-429 | A row is its fields in order, or the first field's refusal. |
| AsciiTables.RawInto | src/ascii/mod.rs:284-342 | Decoding row by row gives each field's value, or the first field that holds no number. |
| AsciiTables.TableReadsBack | src/ascii/mod.rs:284-342 | Every table that encodes reads back, each column to exactly its cells, and is as long as its rows. |

## Left out

- 32-bit targets: a `usize` is 64 bits everywhere.
- Allocation failure, buffer capacity and reuse: buffers are fresh sequences, so what a reused scratch buffer held is not modelled, except the planes and blocks that a scatter or a decode overwrites.
- Codec streams, quantization, WCS, time and unit strings: a codec is what gives a tile's values back.
- Floating point: a float sample is its stored bytes, and the affine map of a scaling is any function; float text columns of ASCII tables are not modelled.
- Bit-packed `X` columns: their length in a descriptor is, their bits are not.
- HeaderRender.RenderInto: how one unsigned record renders is a parameter, taken to give whole cards or refuse; only the short text cards of `DATASUM` and `CHECKSUM` are rendered in full.
- HeaderParse.Parse: takes cards already told apart as records, continuations and `END`; the bytes of one card, and repairs, are not parsed.
- HeaderModel.Header.InsertRecord: whether a record renders is a parameter, as in every other edit.
- TableLayout.LayOut: the text, name, unit, `TDIM` and null checks of a column are not modelled, nor its `TFORM`; the layout's counts and descriptors are.
- TableHeaders.TableDeclares: the keywords of a table's columns are any records that say nothing of its structure.
- ImageHeaders.ImageDeclares: whether a scaling fits its samples is a parameter.
- TableRuns.WriteColumns: the keywords of its columns are any records that say nothing of its structure; which error refuses a table whose length does not fit with its fill is not stated.
- AsciiTables.AsciiBuilder.Encode: the header's keywords are not made, only whether its integers hold the table's numbers; column names, units and scalings are checked for their text alone.
- HduWriter.FitsWriter.WriteUnit: the ASCII table writer's and the compressed writers' encoders are not joined to the writer, which commits their bytes as a raw or two-part body.
- Sinks.Sink.WriteAll: a write lands whole or fails after a prefix; flushing, buffering and short writes below that are not modelled, nor a sink past a 64-bit position.
- Forgetting a stream without dropping it: a stream is finished or dropped.
- FirstFailure.TryMapInit: a worker's scratch is not modelled, so the work is a function of its index; rayon's own scheduling is any order of steps.
- MergedReads.Merged.Push: the fetch is a byte string it may run past; a fetch that fails for any other reason is not modelled.
- AsciiTables.RawInto: reads columns by the forms the writer gives; the keyword text of `TFORMn`, `TBCOLn` and `TNULLn` is not parsed.
- The editor, random-group reading, the reader's HDU walk and typed column accessors.

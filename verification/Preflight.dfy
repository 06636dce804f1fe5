/** What an HDU write decides before its first byte: the role of its header, the sum of its data
    unit, and every header it writes. */
module Preflight {
  import opened Bytes
  import opened Checksum
  import opened HduHeaders
  import opened HduUnits
  import opened HeaderModel
  import opened HeaderRender
  import opened Headers
  import opened ImageHeaders
  import opened Products
  import opened RunningSum
  import opened TableBody
  import opened TableBuilder

  // ---- Bodies ----

  /** Typed samples, each its big-endian bytes. */
  datatype View = View(bitpix: Bitpix, samples: seq<Element>)
  {
    predicate Valid() {
      forall i :: 0 <= i < |samples| ==> |samples[i]| == bitpix.ElemSize()
    }
  }

  /** What a caller hands over as data, in the form it has it. */
  datatype Body =
    | Raw(bytes: seq<Byte>)
    | Samples(view: View)
    | Parts(rows: seq<Byte>, heap: seq<seq<Byte>>)
    | Table(table: TableToWrite)

  /** Samples are whole, and a table was laid out. */
  ghost predicate IsBody(body: Body) {
    match body
    case Raw(_) => true
    case Samples(view) => view.Valid()
    case Parts(_, _) => true
    case Table(table) => table.Valid()
  }

  /** The bytes of a body: a table's are its cells, packed. */
  ghost function BodyBytes(body: Body): seq<Byte>
    requires IsBody(body)
  {
    match body
    case Raw(bytes) => bytes
    case Samples(view) => Concat(view.samples)
    case Parts(rows, heap) => rows + Concat(heap)
    case Table(table) => table.Unit()
  }

  /** The samples encoded at a time. */
  const CHUNK_SAMPLES: nat := 0x2_0000

  /** The samples from `start` on that make one chunk. */
  function ChunkEnd(samples: seq<Element>, start: nat): (end: nat)
    requires start < |samples|
    ensures start < end <= |samples|
  {
    Min(start + CHUNK_SAMPLES, |samples|)
  }

  lemma ChunkJoins(samples: seq<Element>, start: nat, end: nat)
    requires start <= end <= |samples|
    ensures Concat(samples[..start]) + Concat(samples[start..end]) == Concat(samples[..end])
  {
    assert samples[..end] == samples[..start] + samples[start..end];
    ConcatAppend(samples[..start], samples[start..end]);
  }

  lemma {:induction false} SamplesLength(samples: seq<Element>, size: nat)
    requires forall i :: 0 <= i < |samples| ==> |samples[i]| == size
    ensures |Concat(samples)| == Times(|samples|, size)
  {
    if samples != [] {
      SamplesLength(samples[..|samples| - 1], size);
    }
  }

  /** `|BodyBytes(body)|` without the bytes, or none where it takes more than 64 bits. */
  method ByteLen(body: Body) returns (len: Option<nat>)
    requires IsBody(body)
    ensures len == if |BodyBytes(body)| <= USIZE_MAX then Some(|BodyBytes(body)|) else None
  {
    match body
    case Raw(bytes) =>
      len := if |bytes| <= USIZE_MAX then Some(|bytes|) else None;
    case Samples(view) =>
      SamplesLength(view.samples, view.bitpix.ElemSize());
      len := CheckedMul(|view.samples|, view.bitpix.ElemSize());
    case Parts(rows, heap) =>
      len := PartsLen(rows, heap);
    case Table(table) =>
      UnitLen(table);
      len := if table.layout.DataLen() <= USIZE_MAX then Some(table.layout.DataLen()) else None;
  }

  method PartsLen(rows: seq<Byte>, heap: seq<seq<Byte>>) returns (len: Option<nat>)
    ensures var all := |rows| + |Concat(heap)|;
            len == if all <= USIZE_MAX then Some(all) else None
  {
    if |rows| > USIZE_MAX {
      return None;
    }
    var sum := |rows|;
    for i := 0 to |heap|
      invariant sum == |rows| + |Concat(heap[..i])| <= USIZE_MAX
    {
      ConcatNext(heap, i);
      if sum + |heap[i]| > USIZE_MAX {
        ConcatPrefix(heap, i + 1);
        return None;
      }
      sum := sum + |heap[i]|;
    }
    assert heap[..|heap|] == heap;
    len := Some(sum);
  }

  // ---- The data sum ----

  /** `sum` has been fed `BodyBytes(body)` more. */
  method SumBody(body: Body, sum: Running)
    requires IsBody(body) && sum.Valid()
    modifies sum
    ensures sum.Valid() && sum.fed == old(sum.fed) + BodyBytes(body)
  {
    match body
    case Raw(bytes) =>
      sum.Update(bytes);
    case Samples(view) =>
      SumSamples(view.samples, sum);
    case Parts(rows, heap) =>
      sum.Update(rows);
      SumAll(heap, sum);
    case Table(table) =>
      var chunks := TableBody.Chunks(table);
      SumAll(chunks, sum);
  }

  method SumAll(parts: seq<seq<Byte>>, sum: Running)
    requires sum.Valid()
    modifies sum
    ensures sum.Valid() && sum.fed == old(sum.fed) + Concat(parts)
  {
    for i := 0 to |parts|
      invariant sum.Valid() && sum.fed == old(sum.fed) + Concat(parts[..i])
    {
      ConcatNext(parts, i);
      sum.Update(parts[i]);
    }
    assert parts[..|parts|] == parts;
  }

  method SumSamples(samples: seq<Element>, sum: Running)
    requires sum.Valid()
    modifies sum
    ensures sum.Valid() && sum.fed == old(sum.fed) + Concat(samples)
  {
    var start := 0;
    while start < |samples|
      invariant start <= |samples|
      invariant sum.Valid() && sum.fed == old(sum.fed) + Concat(samples[..start])
    {
      var end := ChunkEnd(samples, start);
      ChunkJoins(samples, start, end);
      sum.Update(Concat(samples[start..end]));
      start := end;
    }
    assert samples[..|samples|] == samples;
  }

  /** The sum of a body and its fill. */
  method SumFilled(body: Body, fill: seq<Byte>) returns (total: U32)
    requires IsBody(body) && |BodyBytes(body) + fill| % 4 == 0
    ensures total == SumOf(BodyBytes(body) + fill)
  {
    var sum := new Running();
    SumBody(body, sum);
    assert sum.fed == BodyBytes(body);
    sum.Update(fill);
    total := sum.Finish();
  }

  lemma BlocksAreWords(len: nat)
    requires len % BLOCK_SIZE == 0
    ensures len % 4 == 0
  {
  }

  /** How the header of this body is signed. */
  method SignBody(body: Body, len: nat, kind: HduKind, form: HeaderForm) returns (signing: Signing)
    requires IsBody(body) && len == |BodyBytes(body)|
    ensures signing == SigningOf(form, WithFill(kind, BodyBytes(body)))
  {
    if !form.checksums {
      return Unsigned;
    }
    BlocksAreWords(|WithFill(kind, BodyBytes(body))|);
    var total := SumFilled(body, FillOf(kind, len));
    signing := WithDataSum(total);
  }

  // ---- The headers ----

  /** A header rendered, or refused. */
  method RenderHead(header: Header, signing: Signing, form: HeaderForm, render: Renderer, ghost rules: Rules)
    returns (r: Result<seq<Byte>, WriterError>)
    requires header.Valid() && AreRules(rules, render)
    ensures var head := rules.heads(header.records, signing, form.spare);
            match head
            case Ok(bytes) => r == Ok(bytes) && IsHead(bytes, signing)
            case Err(e) => r == Err(Refused(e))
  {
    var rendered := RenderInto(header, signing, Spare(form.spare), render);
    assert rules.heads(header.records, signing, form.spare) == RenderUnit(header.records, signing, Spare(form.spare), render);
    r := match rendered
         case Ok(bytes) => Ok(bytes)
         case Err(e) => Err(Refused(e));
  }

  /** Whole blocks, that close the data sum they are signed with. */
  ghost predicate IsHead(head: seq<Byte>, signing: Signing) {
    && |head| % BLOCK_SIZE == 0 && |head| > 0
    && (signing.WithDataSum? ==> Combine(SumOf(head), signing.sum) == ONES)
  }

  /** A head and the data it is signed for are a complete HDU. */
  lemma HeadCompletes(hdu: Hdu, rules: Rules)
    requires rules.heads(hdu.records, SigningOf(hdu.form, WithFill(hdu.kind, hdu.body)), hdu.form.spare) == Ok(hdu.head)
    requires rules.roles(hdu.records, hdu.position, |hdu.body|) == Ok(Role(hdu.position, hdu.kind))
    requires IsHead(hdu.head, SigningOf(hdu.form, WithFill(hdu.kind, hdu.body)))
    ensures IsComplete(hdu, rules)
  {
    var filled := WithFill(hdu.kind, hdu.body);
    WholeBlocks(|hdu.head|, |filled|);
    if hdu.form.checksums {
      BlocksAreWords(|hdu.head|);
      UnitSums(hdu.head, filled);
    }
  }

  /** The header of one HDU, signed for its body. */
  method PrepareHdu(header: Header, role: Role, ghost body: seq<Byte>, signing: Signing, form: HeaderForm, render: Renderer, ghost rules: Rules)
    returns (r: Result<seq<Byte>, WriterError>, ghost hdu: Hdu)
    requires header.Valid() && AreRules(rules, render)
    requires rules.roles(header.records, role.position, |body|) == Ok(role)
    requires signing == SigningOf(form, WithFill(role.kind, body))
    ensures r.Err? ==> HduOf(header.records, role, body, form, rules) == Err(r.error)
    ensures r.Ok? ==> HduOf(header.records, role, body, form, rules) == Ok(hdu) && IsComplete(hdu, rules)
    ensures r.Ok? ==> hdu == Hdu(header.records, role.position, role.kind, form, r.value, body)
  {
    r := RenderHead(header, signing, form, render, rules);
    hdu := Hdu(header.records, role.position, role.kind, form, if r.Ok? then r.value else [], body);
    if r.Ok? {
      HeadCompletes(hdu, rules);
    }
  }

  /** `EmptyPrimary()` as its own complete HDU, or why it does not render. */
  method PreparePrimary(form: HeaderForm, render: Renderer, ghost rules: Rules)
    returns (r: Result<seq<Byte>, WriterError>, ghost hdu: Hdu)
    requires AreRules(rules, render)
    ensures var role := Role(AtPrimary, PrimaryArray);
            && (r.Err? ==> HduOf(EmptyPrimary(), role, [], form, rules) == Err(r.error))
            && (r.Ok? ==> HduOf(EmptyPrimary(), role, [], form, rules) == Ok(hdu) && IsComplete(hdu, rules))
            && (r.Ok? ==> hdu == Hdu(EmptyPrimary(), AtPrimary, PrimaryArray, form, r.value, []) && Unit(hdu) == r.value)
  {
    var header := new Header.Of(EmptyPrimary());
    EmptyPrimaryDeclares();
    assert RoleOf(ReaderOf(EmptyPrimary()), AtPrimary, 0) == Ok(Role(AtPrimary, PrimaryArray));
    NothingSums();
    r, hdu := PrepareHdu(header, Role(AtPrimary, PrimaryArray), [], if form.checksums then WithDataSum(0) else Unsigned, form, render, rules);
    if r.Ok? {
      assert Unit(hdu) == r.value + WithFill(PrimaryArray, []);
    }
  }

  lemma NothingSums()
    ensures WithFill(PrimaryArray, []) == [] && SumOf([]) == 0
  {
    var none: seq<Byte> := [];
    assert TotalOf(none, 0) == 0;
  }

  // ---- The whole write ----

  /** The headers a write emits: of an empty primary before it, or none, and its own. */
  datatype Prepared = Prepared(primary: seq<Byte>, head: seq<Byte>, fill: seq<Byte>)

  /** The bytes a write emits are those of the HDUs it plans. */
  ghost predicate Emits(prepared: Prepared, body: seq<Byte>, plan: seq<Hdu>) {
    FileBytes(plan) == prepared.primary + prepared.head + body + prepared.fill
  }

  /** The role of the header, and the length of the body. */
  method RoleFor(header: Header, next: HduPosition, body: Body, render: Renderer, ghost rules: Rules) returns (r: Result<Role, WriterError>, len: nat)
    requires IsBody(body) && AreRules(rules, render)
    ensures r == rules.roles(header.records, next, |BodyBytes(body)|)
    ensures r.Ok? ==> len == |BodyBytes(body)| && IsRoleOf(header.records, r.value, len, next, rules)
  {
    var known := ByteLen(body);
    len := if known.Some? then known.value else USIZE_MAX + 1;
    r := RoleOf(ReaderOf(header.records), next, len);
    LongBodies(ReaderOf(header.records), next, len, |BodyBytes(body)|);
    assert rules.roles(header.records, next, |BodyBytes(body)|) == RoleOf(ReaderOf(header.records), next, |BodyBytes(body)|);
    if r.Ok? {
      RoleStaysIn(header.records, next, len, r.value, rules, render);
    }
  }

  /** A header has a role where it goes, which is after the HDUs there are. */
  ghost predicate IsRoleOf(records: seq<Record>, role: Role, len: nat, next: HduPosition, rules: Rules) {
    rules.roles(records, role.position, len) == Ok(role) && (next.AtExtension? ==> role.position.AtExtension?)
  }

  /** Every body past what memory addresses is refused alike. */
  lemma LongBodies(read: Reader, next: HduPosition, a: nat, b: nat)
    requires a == b || (a > USIZE_MAX && b > USIZE_MAX)
    ensures RoleOf(read, next, a) == RoleOf(read, next, b)
    ensures RoleOf(read, next, a).Ok? ==> a <= USIZE_MAX
  {
  }

  /** The empty primary a write puts before its HDU, or nothing. */
  method PrepareBefore(next: HduPosition, position: HduPosition, form: HeaderForm, render: Renderer, ghost rules: Rules)
    returns (r: Result<seq<Byte>, WriterError>, ghost before: seq<Hdu>)
    requires AreRules(rules, render)
    ensures r.Err? ==> PrimaryBefore(next, position, form, rules) == Err(r.error)
    ensures r.Ok? ==> PrimaryBefore(next, position, form, rules) == Ok(before) && FileBytes(before) == r.value
    ensures r.Ok? ==> IsFile(before, false, rules) && (before != [] <==> next.AtPrimary? && position.AtExtension?)
  {
    before := [];
    if next.AtPrimary? && position.AtExtension? {
      ghost var hdu;
      r, hdu := PreparePrimary(form, render, rules);
      before := [hdu];
      OneUnit(hdu);
    } else {
      assert Units(before) == [];
      r := Ok([]);
    }
  }

  /** Decide a write: refused as its plan is, or every byte of its plan known. */
  method Prepare(header: Header, next: HduPosition, body: Body, form: HeaderForm, render: Renderer, ghost rules: Rules)
    returns (r: Result<Prepared, WriterError>, ghost plan: seq<Hdu>)
    requires header.Valid() && AreRules(rules, render) && IsBody(body)
    ensures r.Err? ==> Planned(header.records, next, BodyBytes(body), form, rules) == Err(r.error)
    ensures r.Ok? ==> Planned(header.records, next, BodyBytes(body), form, rules) == Ok(plan)
    ensures r.Ok? ==> IsPlan(plan, next, rules) && Emits(r.value, BodyBytes(body), plan)
  {
    ghost var bytes := BodyBytes(body);
    plan := [];
    var role, len := RoleFor(header, next, body, render, rules);
    if role.Err? {
      return Err(role.error), plan;
    }
    var signing := SignBody(body, len, role.value.kind, form);
    var primary;
    ghost var before;
    primary, before := PrepareBefore(next, role.value.position, form, render, rules);
    if primary.Err? {
      return Err(primary.error), plan;
    }
    var head;
    ghost var hdu;
    head, hdu := PrepareHdu(header, role.value, bytes, signing, form, render, rules);
    if head.Err? {
      return Err(head.error), plan;
    }
    plan := before + [hdu];
    r := Ok(Prepared(primary.value, head.value, FillOf(role.value.kind, len)));
    PlanEmits(before, hdu, primary.value);
  }

  lemma RoleStaysIn(records: seq<Record>, next: HduPosition, len: nat, role: Role, rules: Rules, render: Renderer)
    requires AreRules(rules, render) && RoleOf(ReaderOf(records), next, len) == Ok(role)
    ensures IsRoleOf(records, role, len, next, rules)
  {
    RoleStays(ReaderOf(records), next, len);
    assert rules.roles(records, role.position, len) == RoleOf(ReaderOf(records), role.position, len);
  }

  lemma PlanEmits(before: seq<Hdu>, hdu: Hdu, primary: seq<Byte>)
    requires FileBytes(before) == primary
    ensures FileBytes(before + [hdu]) == primary + hdu.head + hdu.body + FillOf(hdu.kind, |hdu.body|)
  {
    FileAppend(before, [hdu]);
    OneUnit(hdu);
    Regrouped(primary, hdu.head, hdu.body, FillOf(hdu.kind, |hdu.body|));
  }

  lemma Regrouped(a: seq<Byte>, b: seq<Byte>, c: seq<Byte>, d: seq<Byte>)
    ensures a + (b + (c + d)) == a + b + c + d
  {
  }
}

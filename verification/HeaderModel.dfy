/** The header's edits: every one keeps each index on exactly the names present, at the first
    record of each. */
module HeaderModel {
  import opened Bytes
  import opened Headers
  import opened NameIndex

  class Header {
    var records: seq<Record>
    var index: map<string, nat>
    var hierarchIndex: map<string, nat>

    /** Each index maps exactly the names present to the first record so named. */
    ghost predicate Valid()
      reads this
    {
      Indexes(Keywords(records), index) && Indexes(Hierarchs(records), hierarchIndex)
    }

    constructor ()
      ensures Valid() && records == []
    {
      records, index, hierarchIndex := [], map[], map[];
    }

    /** A header of these records. */
    constructor Of(held: seq<Record>)
      ensures Valid() && records == held
    {
      records, index, hierarchIndex := held, map[], map[];
      new;
      Reindex();
    }

    // ---- Lookups ----

    /** One map lookup in place of the search `FirstOf` makes. */
    function First(name: RecordName): (at: Option<nat>)
      requires Valid()
      reads this
      ensures at == FirstOf(records, name, 0)
    {
      match name
      case KeywordName(keyword) =>
        IndexFinds(records, Keywords(records), index, name);
        if keyword in index then Some(index[keyword]) else None
      case HierarchName(hierarch) =>
        IndexFinds(records, Hierarchs(records), hierarchIndex, name);
        if hierarch in hierarchIndex then Some(hierarchIndex[hierarch]) else None
      case CommentaryName(_) =>
        CommentaryHasNone(records, name, 0);
        None
    }

    /** `Lookup` through the index. */
    function Get(name: RecordName): (r: Result<Option<Value>, HeaderError>)
      requires Valid()
      reads this
      ensures r == Lookup(records, name)
    {
      match First(name)
      case None => Ok(None)
      case Some(i) =>
        match records[i].ValueOrDefect()
        case Ok(value) => Ok(Some(value))
        case Err(e) => Err(e)
    }

    /** The first position `name` names: of the index's find and any earlier commentary record,
        the one in front. */
    method IndexOf(name: RecordName) returns (at: Option<nat>)
      requires Valid()
      ensures at == FindNamed(records, name, 0)
    {
      var first := First(name);
      var end := if first.Some? then first.value + 1 else |records|;
      for i := 0 to end
        invariant forall j :: 0 <= j < i ==> !records[j].IsNamed(name)
      {
        if records[i].IsNamed(name) {
          FoundAt(records, name, 0, i);
          return Some(i);
        }
      }
      at := None;
    }

    // ---- One record in, one record out ----

    /** The records gain one at `i`, and both indexes stay exact: later positions move up by one,
        and the new record is entered unless an earlier one has its name. */
    method InsertAt(i: nat, record: Record)
      requires Valid() && i <= |records|
      modifies this
      ensures Valid() && records == Inserted(old(records), i, record)
    {
      NamesInserted(records, i, record);
      InsertIndexes(Keywords(records), index, i, record.KeywordOf());
      InsertIndexes(Hierarchs(records), hierarchIndex, i, record.HierarchOf());
      if i < |records| {
        index, hierarchIndex := ShiftedUp(index, i), ShiftedUp(hierarchIndex, i);
      }
      index := Entered(index, record.KeywordOf(), i);
      hierarchIndex := Entered(hierarchIndex, record.HierarchOf(), i);
      records := Inserted(records, i, record);
    }

    method PushRecord(record: Record)
      requires Valid()
      modifies this
      ensures Valid() && records == old(records) + [record]
    {
      InsertAt(|records|, record);
      assert Inserted(old(records), |old(records)|, record) == old(records) + [record];
    }

    /** The records lose the one at `i`, and both indexes stay exact: later positions move down
        by one, and a name whose first record went passes to its next or leaves. */
    method TakeAt(i: nat) returns (record: Record)
      requires Valid() && i < |records|
      modifies this
      ensures Valid() && record == old(records)[i] && records == Removed(old(records), i)
    {
      NamesRemoved(records, i);
      RemoveKeeps(Keywords(records), index, i);
      RemoveKeeps(Hierarchs(records), hierarchIndex, i);
      record := records[i];
      records := Removed(records, i);
      index, hierarchIndex := ShiftedDown(index, i), ShiftedDown(hierarchIndex, i);
      index := Left(index, record.KeywordOf(), i, Keywords(records));
      hierarchIndex := Left(hierarchIndex, record.HierarchOf(), i, Hierarchs(records));
    }

    /** Whatever the maps held, they end exact for the records. */
    method Reindex()
      modifies `index, `hierarchIndex
      ensures Valid()
    {
      index, hierarchIndex := map[], map[];
      assert Keywords(records)[..0] == [] && Hierarchs(records)[..0] == [];
      for i := 0 to |records|
        invariant Indexes(Keywords(records)[..i], index) && Indexes(Hierarchs(records)[..i], hierarchIndex)
      {
        var keyword, hierarch := records[i].KeywordOf(), records[i].HierarchOf();
        AppendKeeps(Keywords(records)[..i], index, keyword);
        AppendKeeps(Hierarchs(records)[..i], hierarchIndex, hierarch);
        assert Keywords(records)[..i + 1] == Keywords(records)[..i] + [keyword];
        assert Hierarchs(records)[..i + 1] == Hierarchs(records)[..i] + [hierarch];
        if keyword.Some? && keyword.value !in index {
          index := index[keyword.value := i];
        }
        if hierarch.Some? && hierarch.value !in hierarchIndex {
          hierarchIndex := hierarchIndex[hierarch.value := i];
        }
      }
      assert Keywords(records)[..|records|] == Keywords(records) && Hierarchs(records)[..|records|] == Hierarchs(records);
    }

    /** Succeeds exactly for an insertable record at a position from 0 to the end, and otherwise
        changes nothing. */
    method InsertRecord(i: nat, record: Record, renders: Record -> bool) returns (err: Option<HeaderError>)
      requires Valid()
      modifies this
      ensures Valid()
      ensures err == None <==> i <= |old(records)| && Insertable(record, renders)
      ensures err == None ==> records == Inserted(old(records), i, record)
      ensures err.Some? ==> records == old(records) && index == old(index) && hierarchIndex == old(hierarchIndex)
    {
      if i > |records| {
        return Some(IndexOutOfBounds(i, |records|));
      }
      if record.Valued? && IsReserved(KeywordName(record.valuedKeyword)) {
        return Some(ReservedName(KeywordName(record.valuedKeyword)));
      }
      if !record.Malformed? && !renders(record) {
        return Some(Unrenderable(record));
      }
      InsertAt(i, record);
      err := None;
    }

    /** Remove one record by position. */
    method RemoveAt(i: nat) returns (r: Result<Record, HeaderError>)
      requires Valid()
      modifies this
      ensures Valid()
      ensures r.Ok? <==> i < |old(records)|
      ensures r.Ok? ==> r.value == old(records)[i] && records == Removed(old(records), i)
      ensures r.Err? ==> r.error == IndexOutOfBounds(i, |records|) && records == old(records)
    {
      if i >= |records| {
        return Err(IndexOutOfBounds(i, |records|));
      }
      var record := TakeAt(i);
      r := Ok(record);
    }

    /** Inserting back what was removed restores the records and both indexes, exactly when the
        record could be inserted. */
    method RemoveThenInsert(i: nat, renders: Record -> bool) returns (err: Option<HeaderError>)
      requires Valid() && i < |records|
      modifies this
      ensures Valid()
      ensures err == None <==> Insertable(old(records)[i], renders)
      ensures err == None ==> records == old(records) && index == old(index) && hierarchIndex == old(hierarchIndex)
      ensures err.Some? ==> records == Removed(old(records), i)
    {
      InsertUndoesRemove(records, i);
      var record := TakeAt(i);
      err := InsertRecord(i, record, renders);
      if err == None {
        IndexIsUnique(Keywords(records), index, old(index));
        IndexIsUnique(Hierarchs(records), hierarchIndex, old(hierarchIndex));
      }
    }

    /** What `FindNamed` finds goes, if it finds any. */
    method Remove(name: RecordName) returns (removed: Option<Record>)
      requires Valid()
      modifies this
      ensures Valid()
      ensures var at := FindNamed(old(records), name, 0);
              if at == None then removed == None && records == old(records)
              else removed == Some(old(records)[at.value]) && records == Removed(old(records), at.value)
    {
      var at := IndexOf(name);
      if at == None {
        return None;
      }
      var record := TakeAt(at.value);
      removed := Some(record);
    }

    // ---- Values and comments ----

    /** After a success `Get(name)` is `value` and `Get` of any other name is what it was; after
        a refusal nothing differs. The record written stays where the name was first found, or
        goes last. */
    method Set(name: RecordName, value: Value, renders: Record -> bool) returns (err: Option<HeaderError>)
      requires Valid()
      modifies this
      ensures Valid()
      ensures err == None <==> !IsReserved(name) && renders(SetRecord(old(records), name, value))
      ensures err == None ==> records == WithSet(old(records), name, value)
      ensures err.Some? ==> records == old(records) && index == old(index) && hierarchIndex == old(hierarchIndex)
      ensures err == None ==> Get(name) == Ok(Some(value)) && forall other :: other != name ==> Get(other) == old(Get(other))
    {
      if IsReserved(name) {
        return Some(ReservedName(name));
      }
      var record := SetRecord(records, name, value);
      if !renders(record) {
        return Some(Unrenderable(record));
      }
      SetReads(records, name, value);
      forall other | other != name ensures Lookup(WithSet(records, name, value), other) == Lookup(records, other) {
        SetLeaves(records, name, value, other);
      }
      var first := First(name);
      if first.Some? {
        NamesReplaced(records, first.value, record);
        records := records[first.value := record];
      } else {
        PushRecord(record);
      }
      err := None;
    }

    /** After a success one record differs, in its comment alone, and every `Get` answers as
        before; after a refusal nothing differs. */
    method SetComment(name: RecordName, text: string, renders: Record -> bool) returns (err: Option<HeaderError>)
      requires Valid()
      modifies this
      ensures Valid() && index == old(index) && hierarchIndex == old(hierarchIndex)
      ensures err.Some? ==> records == old(records)
      ensures err == None ==>
                old(First(name)).Some?
                && var i := old(First(name)).value;
                   && !old(records)[i].Malformed?
                   && records == old(records)[i := WithComment(old(records)[i], text)]
      ensures err == None ==> forall other :: Get(other) == old(Get(other))
    {
      if IsReserved(name) {
        return Some(ReservedName(name));
      }
      if !IsRestrictedAscii(text) {
        return Some(InvalidAscii);
      }
      var first := First(name);
      if first == None {
        return Some(MissingKeyword(name));
      }
      if records[first.value].Malformed? {
        return Some(InvalidValue(records[first.value].name, records[first.value].defect));
      }
      var record := WithComment(records[first.value], text);
      if !renders(record) {
        return Some(Unrenderable(record));
      }
      NamesReplaced(records, first.value, record);
      forall other ensures Lookup(records[first.value := record], other) == Lookup(records, other) {
        SameNamesFirst(records, records[first.value := record], other, 0);
      }
      records := records[first.value := record];
      err := None;
    }

    /** Append a commentary record. */
    method PushCommentary(name: string, text: string, renders: Record -> bool) returns (err: Option<HeaderError>)
      requires Valid()
      modifies this
      ensures Valid()
      ensures err == None <==> renders(CommentaryRecord(name, text))
      ensures records == if err == None then old(records) + [CommentaryRecord(name, text)] else old(records)
      ensures index == old(index) && hierarchIndex == old(hierarchIndex)
    {
      var record := CommentaryRecord(name, text);
      if !renders(record) {
        return Some(Unrenderable(record));
      }
      AppendKeeps(Keywords(records), index, None);
      AppendKeeps(Hierarchs(records), hierarchIndex, None);
      assert Keywords(records + [record]) == Keywords(records) + [None];
      assert Hierarchs(records + [record]) == Hierarchs(records) + [None];
      records := records + [record];
      err := None;
    }

    // ---- Bulk edits ----

    /** No record keeps the name, the others keep their order, and the lengths differ by the
        count. */
    method RemoveAll(name: RecordName) returns (count: nat)
      requires Valid()
      modifies this
      ensures Valid() && records == Kept(old(records), NotNamed(name)) && count == |old(records)| - |records|
      ensures FindNamed(records, name, 0) == None
    {
      var was := |records|;
      KeptHasNone(records, name);
      var kept := Kept(records, NotNamed(name));
      if |kept| == was {
        AllKept(records, NotNamed(name));
      }
      records := kept;
      if |records| != was {
        Reindex();
      }
      count := was - |records|;
    }

    /** The records left are those `removes` does not take by keyword, in order; every record of no
        keyword is among them. */
    method RemoveWhere(removes: string -> bool)
      requires Valid()
      modifies this
      ensures Valid()
      ensures records == Kept(old(records), Keeping(k => !removes(k)))
    {
      var stays := Keeping(k => !removes(k));
      var was := |records|;
      var kept := Kept(records, stays);
      if |kept| == was {
        AllKept(records, stays);
      }
      records := kept;
      if |records| != was {
        Reindex();
      }
    }

    /** The records become the old ones followed by `Kept(source, ..)`, with both indexes exact. */
    method AppendFilteredFrom(source: seq<Record>, keep: string -> bool)
      modifies this
      ensures Valid()
      ensures records == old(records) + Kept(source, Keeping(keep))
    {
      records := records + Kept(source, Keeping(keep));
      Reindex();
    }

    /** Position by position the record there, under the keyword `renames` gives it. */
    method RenameKeywords(renames: seq<(string, string)>)
      requires Valid()
      modifies this
      ensures Valid() && |records| == |old(records)|
      ensures forall i :: 0 <= i < |records| ==> records[i] == Renamed(old(records)[i], renames)
    {
      var changed := false;
      for i := 0 to |records|
        invariant |records| == |old(records)|
        invariant index == old(index) && hierarchIndex == old(hierarchIndex)
        invariant forall j :: 0 <= j < i ==> records[j] == Renamed(old(records)[j], renames)
        invariant forall j :: i <= j < |records| ==> records[j] == old(records)[j]
        invariant !changed ==> records == old(records)
      {
        if Renamed(records[i], renames) != records[i] {
          changed := true;
        }
        records := records[i := Renamed(records[i], renames)];
      }
      if changed {
        Reindex();
      }
    }
  }

  // ---- What the edits rest on ----

  /** What a record is indexed by, for a name of that kind. */
  predicate HasName(record: Record, name: RecordName) {
    match name
    case KeywordName(keyword) => record.KeywordOf() == Some(keyword)
    case HierarchName(hierarch) => record.HierarchOf() == Some(hierarch)
    case CommentaryName(_) => false
  }

  /** The first record from `i` on with `name`. */
  function FirstOf(records: seq<Record>, name: RecordName, i: nat): (at: Option<nat>)
    requires i <= |records|
    ensures at.Some? ==> i <= at.value < |records| && HasName(records[at.value], name)
                         && records[at.value].IsIndexed() && records[at.value].IsNamed(name)
    ensures at.Some? ==> forall j :: i <= j < at.value ==> !HasName(records[j], name)
    ensures at == None ==> forall j :: i <= j < |records| ==> !HasName(records[j], name)
    decreases |records| - i
  {
    if i == |records| then None
    else if HasName(records[i], name) then Some(i)
    else FirstOf(records, name, i + 1)
  }

  /** The value a name reads as. */
  function Lookup(records: seq<Record>, name: RecordName): Result<Option<Value>, HeaderError> {
    match FirstOf(records, name, 0)
    case None => Ok(None)
    case Some(i) =>
      match records[i].ValueOrDefect()
      case Ok(value) => Ok(Some(value))
      case Err(e) => Err(e)
  }

  /** An index finds what a search does. */
  lemma {:induction false} IndexFinds(records: seq<Record>, names: Names, index: map<string, nat>, name: RecordName)
    requires Indexes(names, index) && !name.CommentaryName?
    requires names == if name.KeywordName? then Keywords(records) else Hierarchs(records)
    ensures var k := if name.KeywordName? then name.keyword else name.hierarch;
            FirstOf(records, name, 0) == if k in index then Some(index[k]) else None
  {
    var k := if name.KeywordName? then name.keyword else name.hierarch;
    var at := FirstOf(records, name, 0);
    forall j | 0 <= j < |records| ensures HasName(records[j], name) <==> names[j] == Some(k) {
    }
    if at.Some? {
      assert names[at.value] == Some(k);
      assert IsFirst(names, k, index[k]);
      assert HasName(records[index[k]], name);
    }
  }

  lemma {:induction false} CommentaryHasNone(records: seq<Record>, name: RecordName, i: nat)
    requires name.CommentaryName? && i <= |records|
    ensures FirstOf(records, name, i) == None
    decreases |records| - i
  {
    if i < |records| {
      CommentaryHasNone(records, name, i + 1);
    }
  }

  lemma {:induction false} FoundAt(records: seq<Record>, name: RecordName, i: nat, at: nat)
    requires i <= at < |records| && records[at].IsNamed(name) && forall j :: i <= j < at ==> !records[j].IsNamed(name)
    ensures FindNamed(records, name, i) == Some(at)
  {
  }

  /** Lists of the same names find alike. */
  lemma {:induction false} SameNamesFirst(was: seq<Record>, now: seq<Record>, name: RecordName, i: nat)
    requires |was| == |now| && i <= |was| && Keywords(was) == Keywords(now) && Hierarchs(was) == Hierarchs(now)
    ensures FirstOf(was, name, i) == FirstOf(now, name, i)
    decreases |was| - i
  {
    if i < |was| {
      assert Keywords(was)[i] == Keywords(now)[i] && Hierarchs(was)[i] == Hierarchs(now)[i];
      SameNamesFirst(was, now, name, i + 1);
    }
  }

  /** The record a set leaves: of the first so named, or a new one. */
  function SetRecord(records: seq<Record>, name: RecordName, value: Value): Record
    requires !IsReserved(name)
  {
    var first := FirstOf(records, name, 0);
    if first.Some? then records[first.value].WithValue(value) else ValuedRecord(name, value)
  }

  function WithSet(records: seq<Record>, name: RecordName, value: Value): seq<Record>
    requires !IsReserved(name)
  {
    var first := FirstOf(records, name, 0);
    if first.Some? then records[first.value := SetRecord(records, name, value)] else records + [SetRecord(records, name, value)]
  }

  lemma {:induction false} FirstIs(records: seq<Record>, name: RecordName, at: nat)
    requires at < |records| && HasName(records[at], name) && forall j :: 0 <= j < at ==> !HasName(records[j], name)
    ensures FirstOf(records, name, 0) == Some(at)
  {
  }

  lemma SetReads(records: seq<Record>, name: RecordName, value: Value)
    requires !IsReserved(name)
    ensures Lookup(WithSet(records, name, value), name) == Ok(Some(value))
  {
    var first := FirstOf(records, name, 0);
    FirstIs(WithSet(records, name, value), name, if first.Some? then first.value else |records|);
  }

  lemma SetLeaves(records: seq<Record>, name: RecordName, value: Value, other: RecordName)
    requires !IsReserved(name) && other != name
    ensures Lookup(WithSet(records, name, value), other) == Lookup(records, other)
  {
    var first := FirstOf(records, name, 0);
    var now := WithSet(records, name, value);
    var at := FirstOf(records, other, 0);
    if first.Some? {
      assert !HasName(records[first.value], other) && !HasName(now[first.value], other);
    }
    if at.Some? {
      FirstIs(now, other, at.value);
    }
  }

  function NotNamed(name: RecordName): Record -> bool {
    (r: Record) => !r.IsNamed(name)
  }

  lemma {:induction false} KeptHasNone(records: seq<Record>, name: RecordName)
    ensures FindNamed(Kept(records, NotNamed(name)), name, 0) == None
  {
    var kept := Kept(records, NotNamed(name));
    KeptAre(records, NotNamed(name));
    forall j | 0 <= j < |kept| ensures !kept[j].IsNamed(name) {
      assert kept[j] in kept;
    }
  }

  function Keeping(keep: string -> bool): Record -> bool {
    (r: Record) => r.KeywordOf() == None || keep(r.KeywordOf().value)
  }

  /** The new keyword of the first rename of `keyword`. */
  function RenameOf(keyword: string, renames: seq<(string, string)>): Option<string> {
    if renames == [] then None
    else if renames[0].0 == keyword then Some(renames[0].1)
    else RenameOf(keyword, renames[1..])
  }

  lemma NothingShifts(names: Names, index: map<string, nat>)
    requires Indexes(names, index)
    ensures ShiftedUp(index, |names|) == index
  {
    forall k | k in index ensures index[k] < |names| {
      assert IsFirst(names, k, index[k]);
    }
  }

  /** An append shifts nothing, and keeps the index as any insert does. */
  lemma InsertIndexes(names: Names, index: map<string, nat>, i: nat, name: Option<string>)
    requires Indexes(names, index) && i <= |names|
    ensures Indexes(Inserted(names, i, name), Entered(if i < |names| then ShiftedUp(index, i) else index, name, i))
  {
    InsertKeeps(names, index, i, name);
    if i == |names| {
      NothingShifts(names, index);
    }
  }

  /** A record that may be inserted: as it is when malformed, else one that renders under a name
      a valued record can carry. */
  predicate Insertable(record: Record, renders: Record -> bool) {
    record.Malformed? || (renders(record) && (record.Valued? ==> !IsReserved(KeywordName(record.valuedKeyword))))
  }

  function WithComment(record: Record, text: string): (r: Record)
    requires record.Valued? || record.Hierarch?
    ensures r.KeywordOf() == record.KeywordOf() && r.HierarchOf() == record.HierarchOf()
  {
    match record
    case Valued(keyword, value, _) => Valued(keyword, value, Some(text))
    case Hierarch(name, value, _) => Hierarch(name, value, Some(text))
  }

  function TrimEnd(text: string): string {
    if text != [] && text[|text| - 1] == ' ' then TrimEnd(text[..|text| - 1]) else text
  }

  /** A commentary record, its trailing blanks stripped; of no text, a blank one. */
  function CommentaryRecord(name: string, text: string): Record {
    Commentary(name, if TrimEnd(text) == [] then None else Some(TrimEnd(text)))
  }

  function Renamed(record: Record, renames: seq<(string, string)>): Record {
    if record.Valued? && RenameOf(record.valuedKeyword, renames).Some? then
      record.(valuedKeyword := RenameOf(record.valuedKeyword, renames).value)
    else
      record
  }
}

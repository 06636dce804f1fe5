/** Cards made into a header's records: continued strings joined, and trailing blanks dropped. */
module HeaderParse {
  import opened Bytes
  import opened HeaderModel
  import opened Headers
  import opened NameIndex

  /** What one card parses to. */
  datatype Card =
    | End
    | Continue(substring: string, comment: Option<string>, tail: Option<string>)
    | Content(record: Record)

  /** A string awaiting continuation: its text ends with the flag. */
  predicate Continues(record: Record) {
    (record.Valued? || record.Hierarch?) && record.value.Text? && record.value.text != [] && record.value.text[|record.value.text| - 1] == '&'
  }

  /** The comment with a fragment of a continuation after it. */
  function FoldComment(comment: Option<string>, fragment: Option<string>): Option<string> {
    match fragment
    case None => comment
    case Some(more) =>
      match comment
      case None => Some(more)
      case Some(text) => Some((if text == [] then text else text + " ") + more)
  }

  /** The string with its flag dropped and the substring in its place. */
  function FoldInto(record: Record, substring: string, fragment: Option<string>): (r: Record)
    requires Continues(record)
    ensures r.KeywordOf() == record.KeywordOf() && r.HierarchOf() == record.HierarchOf()
  {
    var text := record.value.text;
    record.(value := Text(text[..|text| - 1] + substring), comment := FoldComment(record.comment, fragment))
  }

  /** The records with one more card. */
  function WithCard(records: seq<Record>, card: Card): seq<Record>
    requires !card.End?
  {
    match card
    case Content(record) => records + [record]
    case Continue(substring, comment, tail) =>
      if records != [] && Continues(records[|records| - 1]) then
        records[|records| - 1 := FoldInto(records[|records| - 1], substring, comment)]
      else
        records + [Commentary("CONTINUE", tail)]
  }

  /** The records of the first `k` cards. */
  function Folded(cards: seq<Card>, k: nat): seq<Record>
    requires k <= |cards| && forall i :: 0 <= i < k ==> !cards[i].End?
  {
    if k == 0 then [] else WithCard(Folded(cards, k - 1), cards[k - 1])
  }

  const BLANK := Commentary("", None)

  /** The records without the blank ones at their end. */
  function Trimmed(records: seq<Record>): seq<Record> {
    if records != [] && records[|records| - 1] == BLANK then Trimmed(records[..|records| - 1]) else records
  }

  /** What is dropped is blank, and what is kept does not end in a blank. */
  lemma {:induction false} TrimmedIs(records: seq<Record>)
    ensures Trimmed(records) <= records
    ensures Trimmed(records) == [] || Trimmed(records)[|Trimmed(records)| - 1] != BLANK
    ensures forall i :: |Trimmed(records)| <= i < |records| ==> records[i] == BLANK
  {
    if records != [] && records[|records| - 1] == BLANK {
      TrimmedIs(records[..|records| - 1]);
    }
  }

  /** The first `END` from `i` on. */
  function FindEnd(cards: seq<Card>, i: nat): (at: Option<nat>)
    requires i <= |cards|
    ensures at.Some? ==> i <= at.value < |cards| && cards[at.value].End? && forall j :: i <= j < at.value ==> !cards[j].End?
    ensures at == None ==> forall j :: i <= j < |cards| ==> !cards[j].End?
    decreases |cards| - i
  {
    if i == |cards| then None else if cards[i].End? then Some(i) else FindEnd(cards, i + 1)
  }

  /** The last record takes the substring in exactly when it is a string that ends with the flag. */
  method FoldContinuation(header: Header, substring: string, fragment: Option<string>) returns (folded: bool)
    requires header.Valid()
    modifies header
    ensures header.Valid() && header.index == old(header.index) && header.hierarchIndex == old(header.hierarchIndex)
    ensures folded <==> old(header.records) != [] && Continues(old(header.records)[|old(header.records)| - 1])
    ensures if folded then header.records == WithCard(old(header.records), Continue(substring, fragment, None))
            else header.records == old(header.records)
  {
    var records := header.records;
    if records == [] || !Continues(records[|records| - 1]) {
      return false;
    }
    var last := |records| - 1;
    var record := FoldInto(records[last], substring, fragment);
    NamesReplaced(records, last, record);
    header.records := records[last := record];
    folded := true;
  }

  /** Parse a header unit's cards: the records before the first `END`, both indexes on the first
      of each name, or an error when there is no `END`. */
  method Parse(cards: seq<Card>) returns (r: Result<Header, HeaderError>)
    ensures r.Ok? ==> fresh(r.value) && r.value.Valid()
    ensures var end := FindEnd(cards, 0);
            if end == None then r == Err(MissingEnd) else r.Ok? && r.value.records == Trimmed(Folded(cards, end.value))
  {
    var header := new Header();
    for k := 0 to |cards|
      invariant fresh(header) && header.Valid()
      invariant forall i :: 0 <= i < k ==> !cards[i].End?
      invariant header.records == Folded(cards, k)
    {
      match cards[k] {
        case End =>
          EndAt(cards, 0, k);
          DropBlanks(header);
          return Ok(header);
        case Continue(substring, comment, tail) =>
          var folded := FoldContinuation(header, substring, comment);
          if !folded {
            header.PushRecord(Commentary("CONTINUE", tail));
          }
        case Content(record) =>
          header.PushRecord(record);
      }
    }
    r := Err(MissingEnd);
  }

  lemma {:induction false} EndAt(cards: seq<Card>, i: nat, at: nat)
    requires i <= at < |cards| && cards[at].End? && forall j :: i <= j < at ==> !cards[j].End?
    ensures FindEnd(cards, i) == Some(at)
  {
  }

  /** The records become `Trimmed(..)`, and no index has to change. */
  method DropBlanks(header: Header)
    requires header.Valid()
    modifies header
    ensures header.Valid() && header.records == Trimmed(old(header.records))
  {
    while header.records != [] && header.records[|header.records| - 1] == BLANK
      invariant header.Valid() && Trimmed(header.records) == Trimmed(old(header.records))
      decreases |header.records|
    {
      var last := |header.records| - 1;
      BlankUnindexed(header.records, header.index, header.hierarchIndex);
      header.records := header.records[..last];
    }
  }

  lemma BlankUnindexed(records: seq<Record>, index: map<string, nat>, hierarchIndex: map<string, nat>)
    requires records != [] && records[|records| - 1] == BLANK
    requires Indexes(Keywords(records), index) && Indexes(Hierarchs(records), hierarchIndex)
    ensures Indexes(Keywords(records[..|records| - 1]), index) && Indexes(Hierarchs(records[..|records| - 1]), hierarchIndex)
  {
    var front := records[..|records| - 1];
    DroppedNames(Keywords(records), Keywords(front), index);
    DroppedNames(Hierarchs(records), Hierarchs(front), hierarchIndex);
  }

  lemma DroppedNames(names: Names, front: Names, index: map<string, nat>)
    requires names == front + [None] && Indexes(names, index)
    ensures Indexes(front, index)
  {
    forall k | k in index ensures IsFirst(front, k, index[k]) {
      assert IsFirst(names, k, index[k]);
      forall j | 0 <= j < |front| ensures front[j] == names[j] {
      }
    }
    forall i | 0 <= i < |front| && front[i].Some? ensures front[i].value in index {
      assert names[i] == front[i];
    }
  }
}

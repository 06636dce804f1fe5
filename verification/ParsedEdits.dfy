/** A parsed header can hold a record that its edits do not admit. */
module ParsedEdits {
  import opened Bytes
  import opened HeaderModel
  import opened HeaderParse
  import opened HeaderRender
  import opened Headers

  /** Of records of short texts, `renders` holds for those with a card. */
  ghost predicate RendersTexts(renders: Record -> bool) {
    forall keyword, text, comment ::
      |keyword| <= 8 && IsRestrictedAscii(keyword) && IsShortText(text) ==> AgreesWithCard(renders, keyword, text, comment)
  }

  ghost predicate AgreesWithCard(renders: Record -> bool, keyword: string, text: string, comment: Option<string>)
    requires |keyword| <= 8 && IsRestrictedAscii(keyword) && IsShortText(text)
  {
    renders(Valued(keyword, Text(text), comment)) <==> TextCard(keyword, text, comment).Ok?
  }

  /** Taking the one record of a parsed header out and putting it back: refused exactly when its
      comment lies between the lengths that fit beside the filled text and on a card of its
      own. */
  method TakeAndPutBack(keyword: string, text: string, comment: string, renders: Record -> bool)
    returns (header: Header, err: Option<HeaderError>)
    requires |keyword| <= 8 && IsRestrictedAscii(keyword) && keyword !in RESERVED
    requires IsShortText(text) && IsRestrictedAscii(comment) && RendersTexts(renders)
    ensures fresh(header) && header.Valid()
    ensures err == None <==> |comment| <= 65 - Max(|text|, 8) || 65 - |text| < |comment| <= 65
    ensures header.records == if err == None then [Valued(keyword, Text(text), Some(comment))] else []
  {
    var record := Valued(keyword, Text(text), Some(comment));
    var cards := [Content(record), End];
    EndAt(cards, 0, 1);
    var parsed := Parse(cards);
    assert Folded(cards, 1) == WithCard(Folded(cards, 0), cards[0]) == [record];
    header := parsed.value;
    TextRenders(keyword, text, comment);
    assert AgreesWithCard(renders, keyword, text, Some(comment));
    err := header.RemoveThenInsert(0, renders);
  }

  /** The input that fails: the text `0` beside 58 characters of comment. */
  method PutBackFails(renders: Record -> bool) returns (err: Option<HeaderError>)
    requires RendersTexts(renders)
    ensures err.Some?
  {
    var comment := seq(58, i => 'c');
    var _, refused := TakeAndPutBack("OBJECT", "0", comment, renders);
    err := refused;
  }
}

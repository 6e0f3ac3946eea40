/** The two text boxes' default values, run through the parsers. */
module DefaultInputs {
  import opened PyStr
  import opened InputParsing

  /** The initial content of the ticker text box. */
  const DefaultTickerText: string := "AAPL, TSLA"

  /** The symbols the default ticker text stands for. */
  const DefaultTickerList: seq<string> := ["AAPL", "TSLA"]

  /** The initial content of the trend-topic text box. */
  const DefaultTopicText: string := "AI stocks, Nvidia, inflation"

  /** The topics the default topic text stands for. */
  const DefaultTopicList: seq<string> := ["AI stocks", "Nvidia", "inflation"]

  /** The default ticker text is `", ".join(DefaultTickerList)`. */
  lemma DefaultTickerLayout()
    ensures Join(SpacedParts(DefaultTickerList), Comma) == DefaultTickerText
  {
    var parts := SpacedParts(DefaultTickerList);
    assert parts[0] == "AAPL" && parts[1] == " TSLA";
    assert parts == ["AAPL", " TSLA"];
  }

  /** The ticker box's default text gives the two default symbols. */
  lemma DefaultTickers()
    ensures ParseTickers(DefaultTickerText) == DefaultTickerList
  {
    DefaultTickerLayout();
    ParseTickersJoin(DefaultTickerList);
  }

  /** The default topic text is `", ".join(DefaultTopicList)`. */
  lemma DefaultTopicLayout()
    ensures Join(SpacedParts(DefaultTopicList), Comma) == DefaultTopicText
  {
    var parts := SpacedParts(DefaultTopicList);
    assert parts[0] == "AI stocks" && parts[1] == " Nvidia" && parts[2] == " inflation";
    assert Join(parts[2..], Comma) == parts[2];
    assert Join(parts[1..], Comma) == parts[1] + [Comma] + parts[2];
    assert Join(parts, Comma) == parts[0] + [Comma] + parts[1] + [Comma] + parts[2];
  }

  /** The topic box's default text gives the three default keywords. */
  lemma DefaultTopics()
    ensures ParseKeywords(DefaultTopicText) == DefaultTopicList
  {
    DefaultTopicLayout();
    assert IsToken(DefaultTopicList[0]) && IsToken(DefaultTopicList[1]) && IsToken(DefaultTopicList[2]);
    ParseKeywordsJoinSpaced(DefaultTopicList);
  }
}

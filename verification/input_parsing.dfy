/** The two comma-separated input parsers of the dashboard script.

    `get_price_chart` turns the ticker text box into a list of symbols with
    `[t.strip().upper() for t in tickers.split(',') if t.strip()]`, and
    `fetch_google_trends` turns the topic text box into a keyword list with
    `[k.strip() for k in keywords.split(',') if k.strip()]`. Both split on
    every comma, strip each segment, drop the segments that strip to the
    empty string and keep the rest in input order; only the ticker parser
    upper-cases.
 */
module InputParsing {
  import opened Ascii
  import opened PyStr

  const Comma: char := ','

  /** What either parser promises of every token it returns. */
  predicate IsToken(t: string) {
    |t| > 0 && Trimmed(t) && Comma !in t
  }

  /** The input holds nothing but commas and whitespace. */
  predicate OnlyCommasAndSpace(s: string) {
    forall k :: 0 <= k < |s| ==> s[k] == Comma || IsSpace(s[k])
  }

  /** Every segment is whitespace only. */
  predicate AllBlank(segments: seq<string>) {
    forall m :: 0 <= m < |segments| ==> AllSpace(segments[m])
  }

  /** Stripping a segment cannot bring in a comma. */
  lemma StripKeepsCommaOut(segment: string)
    ensures Comma in Strip(segment) ==> Comma in segment
  {
    var r := Strip(segment);
    if Comma in r {
      var k :| 0 <= k < |r| && r[k] == Comma;
      assert segment[LeadingSpace(segment) + k] == Comma;
    }
  }

  /** `[k.strip() for k in segments if k.strip()]` */
  function StripNonBlank(segments: seq<string>): (r: seq<string>)
    ensures |r| <= |segments|
    ensures forall k :: 0 <= k < |r| ==> |r[k]| > 0 && Trimmed(r[k])
    ensures (forall m :: 0 <= m < |segments| ==> Comma !in segments[m]) ==>
              forall k :: 0 <= k < |r| ==> Comma !in r[k]
  {
    if |segments| == 0 then []
    else
      var t := Strip(segments[0]);
      StripKeepsCommaOut(segments[0]);
      (if t != "" then [t] else []) + StripNonBlank(segments[1..])
  }

  /** `[t.strip().upper() for t in segments if t.strip()]` */
  function UpperStripNonBlank(segments: seq<string>): (r: seq<string>)
    ensures |r| <= |segments|
    ensures forall k :: 0 <= k < |r| ==> |r[k]| > 0 && Trimmed(r[k]) && NoLower(r[k])
    ensures (forall m :: 0 <= m < |segments| ==> Comma !in segments[m]) ==>
              forall k :: 0 <= k < |r| ==> Comma !in r[k]
  {
    if |segments| == 0 then []
    else
      var t := Strip(segments[0]);
      StripKeepsCommaOut(segments[0]);
      (if t != "" then [ToUpper(t)] else []) + UpperStripNonBlank(segments[1..])
  }

  /** The keyword list built from the topic text box (main.py, line 93). */
  function ParseKeywords(s: string): (r: seq<string>)
    ensures |r| <= multiset(s)[Comma] + 1
    ensures forall k :: 0 <= k < |r| ==> IsToken(r[k])
  {
    SplitCount(s, Comma);
    StripNonBlank(Split(s, Comma))
  }

  /** The ticker list built from the ticker text box (main.py, line 31). */
  function ParseTickers(s: string): (r: seq<string>)
    ensures |r| <= multiset(s)[Comma] + 1
    ensures forall k :: 0 <= k < |r| ==> IsToken(r[k]) && NoLower(r[k])
  {
    SplitCount(s, Comma);
    UpperStripNonBlank(Split(s, Comma))
  }

  /** `[t.upper() for t in tokens]` */
  function UpperAll(tokens: seq<string>): (r: seq<string>)
    ensures |r| == |tokens|
    ensures forall k :: 0 <= k < |r| ==> r[k] == ToUpper(tokens[k]) && NoLower(r[k])
  {
    if |tokens| == 0 then [] else [ToUpper(tokens[0])] + UpperAll(tokens[1..])
  }

  /** Upper-casing tokens that hold no lower-case letter changes nothing. */
  lemma {:induction false} UpperAllFixesUpper(tokens: seq<string>)
    requires forall k :: 0 <= k < |tokens| ==> NoLower(tokens[k])
    ensures UpperAll(tokens) == tokens
    decreases |tokens|
  {
    if |tokens| > 0 {
      ToUpperFixesNoLower(tokens[0]);
      UpperAllFixesUpper(tokens[1..]);
      assert tokens == [tokens[0]] + tokens[1..];
    }
  }

  /** Testing the raw segment and then mapping `strip().upper()` is the
      keyword comprehension followed by upper-casing every keyword. */
  lemma {:induction false} UpperStripNonBlankIsUpperAll(segments: seq<string>)
    ensures UpperStripNonBlank(segments) == UpperAll(StripNonBlank(segments))
    decreases |segments|
  {
    if |segments| > 0 {
      var tail := segments[1..];
      UpperStripNonBlankIsUpperAll(tail);
      var t := Strip(segments[0]);
      if t != "" {
        assert StripNonBlank(segments) == [t] + StripNonBlank(tail);
        assert ([t] + StripNonBlank(tail))[1..] == StripNonBlank(tail);
      } else {
        assert StripNonBlank(segments) == StripNonBlank(tail);
      }
    }
  }

  /** The two parsers differ only in upper-casing: the tickers are the
      keywords the same text would give, each upper-cased. */
  lemma TickersAreUpperKeywords(s: string)
    ensures ParseTickers(s) == UpperAll(ParseKeywords(s))
    ensures |ParseTickers(s)| == |ParseKeywords(s)|
  {
    UpperStripNonBlankIsUpperAll(Split(s, Comma));
  }

  /** StripNonBlank drops exactly the segments that are all whitespace. */
  lemma {:induction false} StripNonBlankEmpty(segments: seq<string>)
    ensures StripNonBlank(segments) == [] <==> AllBlank(segments)
    decreases |segments|
  {
    if |segments| > 0 {
      StripNonBlankEmpty(segments[1..]);
      assert forall m :: 1 <= m < |segments| ==> segments[m] == segments[1..][m - 1];
    }
  }

  /** Every segment of the split is blank exactly when the input has
      nothing but commas and whitespace. */
  lemma {:induction false} SplitAllBlank(s: string)
    ensures AllBlank(Split(s, Comma)) <==> OnlyCommasAndSpace(s)
    decreases |s|
  {
    if |s| > 0 {
      var tail := s[1..];
      SplitAllBlank(tail);
      OnlyCommasAndSpaceCons(s);
      var rest := Split(tail, Comma);
      var parts := Split(s, Comma);
      if s[0] == Comma {
        assert parts == [""] + rest;
        AllBlankCons("", rest);
      } else {
        var first := [s[0]] + rest[0];
        assert parts == [first] + rest[1..];
        AllBlankCons(first, rest[1..]);
        assert rest == [rest[0]] + rest[1..];
        AllBlankCons(rest[0], rest[1..]);
        assert first[1..] == rest[0];
        AllSpaceCons(first);
      }
    }
  }

  lemma AllSpaceCons(s: string)
    requires |s| > 0
    ensures AllSpace(s) <==> IsSpace(s[0]) && AllSpace(s[1..])
  {
    assert forall k :: 1 <= k < |s| ==> s[k] == s[1..][k - 1];
  }

  lemma AllBlankCons(first: string, rest: seq<string>)
    ensures AllBlank([first] + rest) <==> AllSpace(first) && AllBlank(rest)
  {
    var all := [first] + rest;
    assert all[0] == first;
    if AllBlank(all) {
      forall m | 0 <= m < |rest|
        ensures AllSpace(rest[m])
      {
        assert all[m + 1] == rest[m];
      }
    }
    if AllSpace(first) && AllBlank(rest) {
      forall m | 0 <= m < |all|
        ensures AllSpace(all[m])
      {
        if m > 0 { assert all[m] == rest[m - 1]; }
      }
    }
  }

  lemma OnlyCommasAndSpaceCons(s: string)
    requires |s| > 0
    ensures OnlyCommasAndSpace(s) <==> (s[0] == Comma || IsSpace(s[0])) && OnlyCommasAndSpace(s[1..])
  {
    assert forall k :: 1 <= k < |s| ==> s[k] == s[1..][k - 1];
  }

  /** A text made only of commas and whitespace parses to the empty list,
      and it is the only kind of text that does. */
  lemma BlankInputGivesNothing(s: string)
    ensures ParseKeywords(s) == [] <==> OnlyCommasAndSpace(s)
    ensures ParseTickers(s) == [] <==> OnlyCommasAndSpace(s)
  {
    var segments := Split(s, Comma);
    assert ParseKeywords(s) == StripNonBlank(segments);
    StripNonBlankEmpty(segments);
    SplitAllBlank(s);
    TickersAreUpperKeywords(s);
  }

  /** The positions, in ascending order, of the segments from index `i` on
      that are not all whitespace, that is, that do not strip to the empty string. */
  function NonBlankFrom(segments: seq<string>, i: nat): (idx: seq<nat>)
    requires i <= |segments|
    ensures forall k :: 0 <= k < |idx| ==> i <= idx[k] < |segments| && !AllSpace(segments[idx[k]])
    ensures forall k :: 0 < k < |idx| ==> idx[k - 1] < idx[k]
    decreases |segments| - i
  {
    if i == |segments| then []
    else (if !AllSpace(segments[i]) then [i] else []) + NonBlankFrom(segments, i + 1)
  }

  /** NonBlankFrom misses no non-blank segment. */
  lemma {:induction false} NonBlankFromComplete(segments: seq<string>, i: nat)
    requires i <= |segments|
    ensures forall j :: i <= j < |segments| && !AllSpace(segments[j]) ==> j in NonBlankFrom(segments, i)
    decreases |segments| - i
  {
    if i < |segments| {
      NonBlankFromComplete(segments, i + 1);
      var rest := NonBlankFrom(segments, i + 1);
      var idx := NonBlankFrom(segments, i);
      if AllSpace(segments[i]) {
        assert idx == rest;
      } else {
        assert idx == [i] + rest;
      }
    }
  }

  /** One step of StripNonBlank on the suffix from index `i`. */
  lemma StripNonBlankStep(segments: seq<string>, i: nat)
    requires i < |segments|
    ensures var t := Strip(segments[i]);
            StripNonBlank(segments[i..]) == (if t != "" then [t] else []) + StripNonBlank(segments[i + 1..])
  {
    assert segments[i..][1..] == segments[i + 1..];
  }

  /** The stripped segments at positions `idx`, in the order of `idx`. */
  function StrippedAt(segments: seq<string>, idx: seq<nat>): (r: seq<string>)
    requires forall k :: 0 <= k < |idx| ==> idx[k] < |segments|
    ensures |r| == |idx|
    ensures forall k :: 0 <= k < |idx| ==> r[k] == Strip(segments[idx[k]])
  {
    if |idx| == 0 then [] else [Strip(segments[idx[0]])] + StrippedAt(segments, idx[1..])
  }

  /** StripNonBlank keeps the stripped non-blank segments in their order:
      its tokens are the stripped segments at the non-blank positions. */
  lemma {:induction false} StripNonBlankSelects(segments: seq<string>, i: nat)
    requires i <= |segments|
    ensures StripNonBlank(segments[i..]) == StrippedAt(segments, NonBlankFrom(segments, i))
    decreases |segments| - i
  {
    if i < |segments| {
      StripNonBlankSelects(segments, i + 1);
      StripNonBlankStep(segments, i);
      var t := Strip(segments[i]);
      assert t == "" <==> AllSpace(segments[i]);
      var idx := NonBlankFrom(segments, i);
      var idxTail := NonBlankFrom(segments, i + 1);
      if t != "" {
        assert idx == [i] + idxTail;
        assert idx[1..] == idxTail;
      }
    }
  }

  /** Order and content of the keyword list: the tokens are the stripped
      comma-separated segments that are not blank, one per such segment, in
      the order the segments appear in the input. */
  lemma KeywordsFollowSegments(s: string)
    ensures var segments := Split(s, Comma);
            var idx := NonBlankFrom(segments, 0);
            ParseKeywords(s) == StrippedAt(segments, idx)
            && (forall j :: 0 <= j < |segments| && !AllSpace(segments[j]) ==> j in idx)
  {
    var segments := Split(s, Comma);
    StripNonBlankSelects(segments, 0);
    NonBlankFromComplete(segments, 0);
    assert segments[0..] == segments;
  }

  /** The ticker list in the same terms: the non-blank segments, in input
      order, each stripped and then upper-cased. */
  lemma TickersFollowSegments(s: string)
    ensures var segments := Split(s, Comma);
            ParseTickers(s) == UpperAll(StrippedAt(segments, NonBlankFrom(segments, 0)))
  {
    KeywordsFollowSegments(s);
    TickersAreUpperKeywords(s);
  }

  /** When every segment strips to a given non-empty token, StripNonBlank
      returns exactly those tokens. */
  lemma {:induction false} StripNonBlankOfStripped(segments: seq<string>, tokens: seq<string>)
    requires |segments| == |tokens|
    requires forall k :: 0 <= k < |tokens| ==> tokens[k] != "" && Strip(segments[k]) == tokens[k]
    ensures StripNonBlank(segments) == tokens
    decreases |tokens|
  {
    if |tokens| > 0 {
      StripNonBlankOfStripped(segments[1..], tokens[1..]);
      assert tokens == [tokens[0]] + tokens[1..];
    }
  }

  /** A token with one space in front strips back to the token. */
  lemma StripSpaceThenToken(t: string)
    requires IsToken(t)
    ensures Strip(t) == t
    ensures Strip(" " + t) == t
  {
    assert t[0..|t|] == t;
    StripUnique(t, 0, |t|);
    var p := " " + t;
    assert p[1..|p|] == t;
    assert IsSpace(p[0]);
    StripUnique(p, 1, |p|);
  }

  /** `", ".join(tokens)` seen as a comma join: every part after the first
      starts with the space that follows its comma. */
  function SpacedParts(tokens: seq<string>): (parts: seq<string>)
    ensures |parts| == |tokens|
    ensures |tokens| > 0 ==> parts[0] == tokens[0]
    ensures forall k :: 0 < k < |tokens| ==> parts[k] == " " + tokens[k]
  {
    if |tokens| == 0 then []
    else [tokens[0]] + seq(|tokens| - 1, k requires 0 <= k < |tokens| - 1 => " " + tokens[k + 1])
  }

  /** Parsing a comma join of segments, none holding a comma, gives the
      segments' stripped forms, provided each strips to a non-empty token. */
  lemma ParseKeywordsOfJoin(segments: seq<string>, tokens: seq<string>)
    requires |segments| == |tokens| > 0
    requires forall k :: 0 <= k < |segments| ==> Comma !in segments[k]
    requires forall k :: 0 <= k < |tokens| ==> tokens[k] != "" && Strip(segments[k]) == tokens[k]
    ensures ParseKeywords(Join(segments, Comma)) == tokens
  {
    SplitJoin(segments, Comma);
    StripNonBlankOfStripped(segments, tokens);
  }

  /** Joining well-formed keywords with commas and parsing the text again
      gives back the same keywords. */
  lemma ParseKeywordsJoin(tokens: seq<string>)
    requires forall k :: 0 <= k < |tokens| ==> IsToken(tokens[k])
    ensures ParseKeywords(Join(tokens, Comma)) == tokens
  {
    if |tokens| == 0 {
      assert Split("", Comma) == [""];
      assert Strip("") == "";
    } else {
      forall k | 0 <= k < |tokens|
        ensures Strip(tokens[k]) == tokens[k]
      {
        StripSpaceThenToken(tokens[k]);
      }
      ParseKeywordsOfJoin(tokens, tokens);
    }
  }

  /** The same with comma and space between keywords, the way the text
      boxes' default values are written. */
  lemma ParseKeywordsJoinSpaced(tokens: seq<string>)
    requires forall k :: 0 <= k < |tokens| ==> IsToken(tokens[k])
    ensures ParseKeywords(Join(SpacedParts(tokens), Comma)) == tokens
  {
    if |tokens| == 0 {
      assert Split("", Comma) == [""];
      assert Strip("") == "";
    } else {
      var spaced := SpacedParts(tokens);
      forall k | 0 <= k < |tokens|
        ensures Comma !in spaced[k] && Strip(spaced[k]) == tokens[k]
      {
        StripSpaceThenToken(tokens[k]);
        if k > 0 { assert spaced[k] == [' '] + tokens[k]; }
      }
      ParseKeywordsOfJoin(spaced, tokens);
    }
  }

  /** The same round trip for upper-case tickers. */
  lemma ParseTickersJoin(tokens: seq<string>)
    requires forall k :: 0 <= k < |tokens| ==> IsToken(tokens[k]) && NoLower(tokens[k])
    ensures ParseTickers(Join(tokens, Comma)) == tokens
    ensures ParseTickers(Join(SpacedParts(tokens), Comma)) == tokens
  {
    ParseKeywordsJoin(tokens);
    ParseKeywordsJoinSpaced(tokens);
    TickersAreUpperKeywords(Join(tokens, Comma));
    TickersAreUpperKeywords(Join(SpacedParts(tokens), Comma));
    UpperAllFixesUpper(tokens);
  }
}

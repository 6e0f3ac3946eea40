# Comma-separated input parsing of the Delta Ghost dashboard

The dashboard script reads two free-text boxes and turns each one into a
list before it calls a market-data or trends service:

- the ticker box: `get_price_chart` builds
  `[t.strip().upper() for t in tickers.split(',') if t.strip()]`;
- the trend-topic box: `fetch_google_trends` builds
  `[k.strip() for k in keywords.split(',') if k.strip()]`.

This project models those two comprehensions as pure Dafny functions,
`InputParsing.ParseTickers` and `InputParsing.ParseKeywords`. They are built
from models of the Python string methods they use:

- `str.split` with a one-character separator, and its inverse `str.join`;
- `str.strip()` with no argument;
- `str.upper()`.

All three are restricted to ASCII.

Modules:

- `Ascii` (ascii.dfy): which characters count as whitespace, and the mapping
  from lower case to upper case.
- `PyStr` (pystr.dfy):
  - `Split` follows Python: `"".split(",")` is `[""]`, and every comma opens a
    new segment.
  - `Join` is `sep.join`.
  - `Strip` scans from both ends the same way CPython's `strip` does.
- `InputParsing` (input_parsing.dfy): the two parsers and their properties.
  - Every token is non-empty, has no whitespace at either end, and holds no
    comma.
  - No ticker holds a lower-case letter.
  - There are at most one more token than commas.
  - The tokens are the non-blank segments, stripped, in input order.
  - The tickers are the keywords upper-cased.
  - Only a text of commas and whitespace gives the empty list.
  - Parsing undoes a comma join of well-formed tokens.
- `DefaultInputs` (default_inputs.dfy): the default texts of the two boxes and
  the lists they parse to.

The ticker filter is modelled as written in the source:

1. It tests `t.strip()` on the raw segment.
2. Then it maps `strip().upper()` over the segments that pass.

`TickersAreUpperKeywords` proves that this equals upper-casing every keyword.

## Model

| member | source | states |
|---|---|---|
| Ascii.ToUpperChar | main.py:31 | `c.upper()` on one ASCII character. The result is never a lower-case letter. Each letter `a`..`z` goes to the upper-case letter at the same alphabet position. Every other character is unchanged. Whitespace stays whitespace and nothing else becomes whitespace. |
| Ascii.ToUpper | main.py:31 | `s.upper()`. The result has the length of `s`, is `s` upper-cased character by character, and contains no lower-case letter. |
| Ascii.ToUpperIdempotent | main.py:31 | Upper-casing an already upper-cased string changes nothing. |
| PyStr.Split | main.py:31 | `s.split(',')` always returns at least one segment, and no segment contains the separator. |
| PyStr.JoinSplit | main.py:31 | The segments of `split` cover the whole input: joining them with the separator rebuilds the input exactly. |
| PyStr.SplitJoin | main.py:93 | `split` undoes `join` whenever no part holds the separator. So the segments are the only separator-free parts that join back to the input. |
| PyStr.SplitCount | main.py:31 | `split` returns exactly one more segment than the input has separators. |
| PyStr.Strip | main.py:31 | `s.strip()` is the slice of `s` that starts after the leading whitespace. Only whitespace lies outside the slice. The slice neither starts nor ends with whitespace. It is empty exactly when `s` is all whitespace. |
| PyStr.StripUnique | main.py:93 | Any slice of `s` that has no whitespace at either end and only whitespace around it equals `s.strip()`, so the contract of `Strip` determines its result. |
| PyStr.StripIdempotent | main.py:93 | Stripping twice gives the same as stripping once. |
| InputParsing.StripKeepsCommaOut | main.py:93 | Stripping a segment cannot introduce a comma that the segment did not have. |
| InputParsing.StripNonBlank | main.py:93 | `[k.strip() for k in segments if k.strip()]` returns no more tokens than there are segments. Each token is non-empty and has no whitespace at either end. Comma-free segments give comma-free tokens. |
| InputParsing.UpperStripNonBlank | main.py:31 | `[t.strip().upper() for t in segments if t.strip()]` has the same guarantees as `StripNonBlank`, and in addition no token holds a lower-case letter. |
| InputParsing.ParseKeywords | main.py:93 | Every keyword is non-empty, has no whitespace at either end, and contains no comma. There are at most (number of commas + 1) keywords. |
| InputParsing.ParseTickers | main.py:31 | Every ticker is non-empty, has no whitespace at either end, contains no comma, and contains no lower-case ASCII letter. There are at most (number of commas + 1) tickers. |
| InputParsing.UpperAllFixesUpper | main.py:31 | Upper-casing each token of a list in which no token has a lower-case letter gives back the same list. |
| InputParsing.UpperStripNonBlankIsUpperAll | main.py:31 | Testing the raw segment and then mapping `strip().upper()` equals upper-casing each result of the keyword comprehension. |
| InputParsing.TickersAreUpperKeywords | main.py:31 | The ticker parse of a text equals the keyword parse of the same text with each token upper-cased. The two lists have the same length. |
| InputParsing.StripNonBlankEmpty | main.py:93 | The comprehension returns `[]` exactly when every segment is all whitespace. |
| InputParsing.SplitAllBlank | main.py:93 | Every comma segment is all whitespace exactly when the text holds only commas and whitespace. |
| InputParsing.BlankInputGivesNothing | main.py:93 | Both parsers return `[]` if and only if the text holds only commas and whitespace. |
| InputParsing.NonBlankFrom | main.py:93 | The reference selection is the list of positions, in strictly ascending order, of segments that are not all whitespace, i.e. the segments the `if k.strip()` filter keeps. |
| InputParsing.NonBlankFromComplete | main.py:93 | The reference selection misses no segment that the filter keeps. |
| InputParsing.StripNonBlankSelects | main.py:93 | The comprehension returns exactly the stripped segments at the kept positions, in ascending position order. |
| InputParsing.KeywordsFollowSegments | main.py:93 | The keywords are the kept comma segments of the input, each stripped, one per kept segment, in input order. Every kept segment is among them. |
| InputParsing.TickersFollowSegments | main.py:31 | The tickers are the kept comma segments of the input, in input order, each stripped and then upper-cased. |
| InputParsing.ParseKeywordsOfJoin | main.py:93 | Joining comma-free segments with commas and then parsing gives the segments' stripped forms, whenever each segment strips to a non-empty token. |
| InputParsing.ParseKeywordsJoin | main.py:93 | Parsing `",".join(tokens)` gives back `tokens` when every token is non-empty, comma-free and has no whitespace at either end. |
| InputParsing.ParseKeywordsJoinSpaced | main.py:90-93 | The same round trip for `", ".join(tokens)`, the layout the default texts use. |
| InputParsing.ParseTickersJoin | main.py:28-31 | The same two round trips through the ticker parser, for tokens that also contain no lower-case letter. |
| DefaultInputs.DefaultTickerLayout | main.py:28 | The ticker box's default text `"AAPL, TSLA"` is `", ".join(["AAPL", "TSLA"])`. |
| DefaultInputs.DefaultTickers | main.py:28-31 | The ticker box's default text parses to `["AAPL", "TSLA"]`. |
| DefaultInputs.DefaultTopicLayout | main.py:90 | The topic box's default text is `", ".join(["AI stocks", "Nvidia", "inflation"])`. |
| DefaultInputs.DefaultTopics | main.py:90-93 | The topic box's default text parses to `["AI stocks", "Nvidia", "inflation"]`. |

## Left out

- Ascii.IsSpace: only ASCII whitespace is modelled: TAB, LF, VT, FF and CR (9..13), the separators FS, GS, RS and US (28..31), and SPACE. Python's `str.isspace()` also accepts them. Non-ASCII whitespace such as U+0085 or U+00A0, which Python's `strip()` also removes, is treated as an ordinary character.
- Ascii.ToUpperChar: only `a`..`z` are mapped. Python's `str.upper()` also maps non-ASCII letters, sometimes to several characters (`'ß'.upper() == 'SS'`). The model leaves those letters unchanged.
- Market data: `yf.download`, the price-frame shaping and the single-ticker branch (main.py:32-34, 44-48) call an external service and rely on pandas DataFrame semantics.
- RSI and SMA (main.py:49-50) are computed in floating point by the third-party `pandas_ta` library.
- All Streamlit and matplotlib rendering, buttons and layout (main.py:13-14, 27-28, 36-40, 52-63, 83-86, 97-106) are user interface. The text boxes' default values are modelled; the boxes themselves are not.
- The Reddit client and `scan_reddit` (main.py:17-21, 66-81) are a network client that reads secrets and appends to a module-level list.
- pytrends setup and queries (main.py:24, 94-95, 99-102) are network calls. The model stops at the keyword list that would be passed to `build_payload`.

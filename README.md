# Gold price scraper, modelled in Dafny

The gold-price-tracker's `scrape_gold_price` (scraper.py) fetches
goldprice.org, parses the HTML and looks for the current gold price in four
ways, one after another, while no price has been found:

1. the `content` of each `<meta>` tag that mentions "gold" and holds four digits in a row;
2. in the text of each `<script>` tag, the `"price` key followed by an optional
   quote, a colon with optional whitespace on either side, an optional quote and
   the numeral;
3. a window of up to five lines of the page text (fewer at the start and end of
   the text) around each line that mentions "gold" or "usd";
4. the first numeral of the page text whose value lies between 2000 and 5000.

It then returns a six-field record: timestamp, price, change, percent
change, URL and status. If anything raises an exception it returns an error
record instead.

The model is split into these modules:

- `Wrappers`: the `Option` type, which stands for a Python variable that may be `None`.
- `Text`: the string operations the code relies on. These are `\d`, `\s`, `str.lower`, `in`, `split('\n')`, `' '.join`, and Python truthiness.
- `Patterns`: the regular expressions, with Python `re.search` and `re.findall` semantics.
  - Each matcher is written as the engine runs it and is proved equal to a declarative description of its language.
  - `\d{1}` may start inside a longer run of digits.
  - `,?` prefers the comma.
  - `\d{1,2}` is greedy.
- `Cents`: `float(num.replace(',', ''))`, computed exactly in hundredths and related to the real value of the decimal.
- `Extraction`: each method as a specification function.
  - One function for a single tag or line, and one for the first candidate along the loop.
  - `Discover` chains the four methods behind the `if not price` tests.
- `Records`: the two record shapes.
- `Scraper`: the imperative code.
  - Each method's `for ... break` loop is a Dafny `for` loop with a `break`, proved equal to its specification function.
  - `ScrapeGoldPrice` reassigns `price` across the four `if not price` stages.

The HTML parse is taken as its results, the `Page` datatype:

- the `content` attribute of every meta tag, `None` where it is absent;
- the `.string` of every script tag;
- `soup.get_text()`.

A fetch or parse that raises is the `Raised(message)` case of `Fetch`. The
clock reading is a parameter.

Three behaviours of the code are easy to misread, and the model follows the code in each:

- **The four-digit test in method 1 (scraper.py:34).** One might expect the
  meta content `Gold price today 2,345.67 USD` to yield a price. Method 1
  first requires four digits in a row (`\d{4}`), and the comma breaks them,
  so method 1 passes this tag over. `Extraction.MetaNeedsFourDigits` states this.
- **The comma in the stored price (scraper.py:37).** The price is the
  matched text as it stands, so `2,345.67` is stored with its comma, not
  as `2345.67`.
- **Where the 2000-5000 range applies (scraper.py:72).** Only method 4
  checks the range. A numeral found by methods 1 to 3 is kept whatever its
  value.

Python's `float` is replaced by exact integer arithmetic in hundredths.
Every numeral the patterns accept has one or two fractional digits, so its
value is a whole number of hundredths. The nearest double to such a value
lies on the same side of 2000 and of 5000 as the value itself, so
`2000 <= float(...) <= 5000` gives the same answer as the exact comparison.
`Extraction.RangeCandidateExact` proves that the test in hundredths agrees
with the test on the exact real value.

## Model

| member | source | states |
|---|---|---|
| Text.Split | scraper.py:54 | `split('\n')` gives one more piece than there are line feeds, and no piece holds a line feed |
| Text.JoinSplit | scraper.py:54 | joining the lines of the text with line feeds gives the text back |
| Text.PartInJoin | scraper.py:60 | every line of a window occurs in the joined window text |
| Text.JoinHoldsParts | scraper.py:60 | all the pieces of a join occur in the joined text |
| Text.ContainedInOnePart | scraper.py:60 | a text without spaces that occurs in a space-joined window occurs whole in one of its lines |
| Patterns.TailEndExact | scraper.py:35 | the engine matches `\d{3}\.\d{1,2}` greedily: the longest fraction tail at a position, and none when none starts there |
| Patterns.NumeralEndExact | scraper.py:35 | the numeral matcher at one position finds the longest numeral there, with the comma optional or required, and none when none starts there |
| Patterns.SearchFrom | scraper.py:35 | the search reports the leftmost position at which a numeral starts, and none when no numeral starts at or after the starting point |
| Patterns.SearchText | scraper.py:35 | `re.search(...).group(1)` is a numeral occurring in the text, and is None exactly when the text holds no numeral |
| Patterns.SearchTextLeftmost | scraper.py:35 | the group reported is the numeral that starts leftmost, taken as far as it extends |
| Patterns.NumeralChars | scraper.py:61 | a numeral holds only digits, a comma and a point, so it never spans a space or a line break |
| Patterns.FindAllFrom | scraper.py:68 | `re.findall` reports numerals at increasing, non-overlapping positions |
| Patterns.FindAllLeftmost | scraper.py:68 | `re.findall` skips no numeral: none starts before the first match, between two successive ones, or after the last |
| Patterns.FindAll | scraper.py:68 | every text `re.findall` returns matches the pattern and occurs in the searched text |
| Patterns.SkipSpaces | scraper.py:46 | `\s*` consumes the longest run of whitespace |
| Patterns.GlueEndSound | scraper.py:46 | what the greedy matcher of `["\']?\s*:\s*["\']?` accepts is in that language |
| Patterns.GlueEndComplete | scraper.py:46 | glue followed by a digit is exactly what the greedy matcher finds, so backtracking cannot place the numeral elsewhere |
| Patterns.PriceMatchAtExact | scraper.py:46 | the script pattern matches at a position exactly when the `"price` key, the glue and a numeral follow one another there, and the group is the greedy numeral |
| Patterns.PriceSearchFrom | scraper.py:46 | the script pattern is searched for at the leftmost position where it matches |
| Patterns.PriceSearchText | scraper.py:46 | the group is a numeral occurring in the script, and the script holds the `"price` key |
| Patterns.PriceSearchTextLeftmost | scraper.py:46-48 | the group returned is the numeral of the leftmost match: no match starts earlier, the glue there admits no other start for the numeral, and no longer numeral starts at the same place |
| Patterns.PriceSearchTextNone | scraper.py:46 | the script search finds nothing exactly when the pattern matches nowhere in the script |
| Cents.StripCommas | scraper.py:71 | `replace(',', '')` leaves no comma and keeps every other character, counted with multiplicity |
| Cents.ParseCentsExact | scraper.py:71 | parsing a decimal with one or two fractional digits in hundredths succeeds and gives exactly 100 times its value |
| Cents.StrippedNumeral | scraper.py:71 | a matched numeral with its comma removed is a decimal with four integer digits |
| Cents.StrippedNumeralParses | scraper.py:71 | `float(num.replace(',', ''))` cannot fail on a matched numeral, and its value in hundredths is exact |
| Extraction.FirstSomeIsFirst | scraper.py:32-38 | a `for ... break` loop finds nothing exactly when no element yields a candidate; otherwise it yields the candidate of the first element that does |
| Extraction.MetaCandidate | scraper.py:33-37 | a meta tag yields a price exactly when its content mentions gold in any case, holds four digits in a row and holds a numeral; the price is a numeral taken from the content |
| Extraction.MetaStageChoice | scraper.py:32-38 | method 1 yields nothing exactly when no meta tag passes all three tests, and otherwise yields the leftmost numeral of the first tag that passes them |
| Extraction.MetaNeedsFourDigits | scraper.py:34 | the content `Gold price today 2,345.67 USD` fails the four-digit test, so method 1 passes it over |
| Extraction.ScriptCandidate | scraper.py:44-48 | a script yields a price exactly when the pattern matches in its text, taken as empty when the tag has no string; the price is the greedy numeral of the leftmost match, right after the `"price` key and its glue |
| Extraction.ScriptStageChoice | scraper.py:43-49 | method 2 yields nothing exactly when no script holds a match, and otherwise yields the numeral of the first script that does |
| Extraction.Window | scraper.py:60 | the window around line `i` runs from `max(0, i-2)` to `min(n, i+3)`, so it contains line `i` and stays within the lines; every line in that range occurs in the joined text |
| Extraction.WindowCandidate | scraper.py:58-63 | a line yields a price exactly when it mentions gold or usd in any case and its window holds a comma numeral, which is then taken from the window |
| Extraction.WindowScanFrom | scraper.py:56-64 | method 3 yields the candidate of the first qualifying line in ascending order, and nothing exactly when no line yields one |
| Extraction.LineStageLocated | scraper.py:56-64 | the price method 3 yields is a comma numeral occurring in the page text, on a line at most two lines from one that mentions gold or usd |
| Extraction.RangeCandidateExact | scraper.py:71-72 | the range test in hundredths accepts a numeral exactly when its exact value lies in [2000, 5000] |
| Extraction.RangeStageChoice | scraper.py:68-74 | method 4 yields the first numeral, in `re.findall` order, whose value lies in [2000, 5000], and nothing exactly when none does |
| Extraction.StagesYieldNumerals | scraper.py:37 | every method yields only numerals, with the comma required in methods 3 and 4, so `not price` holds exactly when nothing was found |
| Extraction.DiscoverOrder | scraper.py:41-67 | the methods are tried strictly in order, and the first that finds a price decides |
| Extraction.DiscoverFound | scraper.py:26-74 | the price settled on is a numeral copied from a meta content, a script, or the page text |
| Records.OrNotAvailable | scraper.py:78 | a falsy value becomes `N/A` and a truthy one is kept, so the field is never empty, and it reads `N/A` exactly when nothing was found or what was found is `N/A` itself |
| Records.StatusesDistinct | scraper.py:82 | `success`, `parsing_failed` and every `error: ...` status are pairwise distinct |
| Records.ParsedRecord | scraper.py:76-83 | the status is `success` exactly when a price was found, and `parsing_failed` otherwise; the price is the match or `N/A` |
| Records.ErrorRecord | scraper.py:85-94 | the exception record has `ERROR` in all three value fields, the same URL, and the status `error: ` followed by the message |
| Records.ParsedRecordConsistent | scraper.py:76-83 | a record of the normal path whose price is not a sentinel has the status its price calls for |
| Records.ErrorRecordConsistent | scraper.py:85-94 | an exception record is consistent and never reads as success or parsing failure |
| Scraper.MetaScan | scraper.py:31-38 | the meta loop returns what method 1 specifies |
| Scraper.ScriptScan | scraper.py:42-49 | the script loop returns what method 2 specifies |
| Scraper.LineWindowScan | scraper.py:53-64 | the line loop returns what method 3 specifies, never slicing outside the lines |
| Scraper.RangeScan | scraper.py:68-74 | the numeral loop returns what method 4 specifies |
| Scraper.ScrapeGoldPrice | scraper.py:26-94 | the function returns the error record when the fetch raised, and otherwise the record built from the chained methods |
| Scraper.ScrapeOutcome | scraper.py:76-94 | the status is `success` with a numeral from the page exactly when some method found a price, and `parsing_failed` with `N/A` exactly when none did; `error: ...` appears exactly when the fetch raised; change and percent change are always `N/A` on the normal path |
| Scraper.NumeralIsNoSentinel | scraper.py:78 | a found price is never empty, `N/A` or `ERROR` |

## Left out

- The HTTP request, its headers, its 15-second timeout and `raise_for_status` (scraper.py:14-18): network I/O. A failure appears only as the `Raised(message)` case of `Fetch`.
- BeautifulSoup parsing, `find_all`, `.get`, `.string` and `get_text` (scraper.py:20, 31, 33, 42, 44, 53): a foreign library. Their results are the fields of `Page`.
- `datetime.now().strftime(...)` (scraper.py:23, 86): the clock. The timestamp is a string parameter.
- The text of `str(e)`: the message is an arbitrary string.
- An exception raised between the fetch and the record, for instance one inside BeautifulSoup. It is covered only as a `Raised` fetch outcome. Nothing in the modelled part raises.
- `save_to_csv` and the `__main__` block (scraper.py:96-122): file-system I/O and printing.
- `float` itself: replaced by exact arithmetic in hundredths, as explained above.
- Unicode: `\d` is the ASCII digits, `\s` is ASCII whitespace (including the separators 0x1C-0x1F), and `str.lower` folds only `A`-`Z`.
- The library calls inside each loop (`in`, `lower`, `re.search`, `join`) are functions, not loops of their own.

/**
 * `scrape_gold_price`: fetch the page, try the four methods in turn while
 * no price has been found, and build the record; any exception raised while
 * fetching or parsing gives the error record instead.
 */
module Scraper {
  import opened Wrappers
  import opened Text
  import opened Patterns
  import opened Cents
  import opened Extraction
  import opened Records

  /**
   * The outcome of `requests.get(...)`, `raise_for_status()` and the HTML
   * parse: the parsed page, or the message of the exception raised.
   */
  datatype Fetch = Fetched(page: Page) | Raised(message: string)

  /** Method 1: the loop over the meta tags, which stops at the first price found. */
  method MetaScan(metas: seq<Option<string>>) returns (price: Option<string>)
    ensures price == FirstSome(metas, MetaCandidate)
  {
    price := None;
    for i := 0 to |metas|
      invariant price.None?
      invariant FirstSome(metas, MetaCandidate) == FirstSome(metas[i..], MetaCandidate)
    {
      FirstSomeStep(metas, MetaCandidate, i);
      var content := metas[i].GetOr("");
      if Contains(Lower(content), "gold") && HasDigitRun(content) {
        var m := SearchText(content, OptionalComma);
        if m.Some? {
          price := m;
          break;
        }
      }
    }
  }

  /** Method 2: the loop over the script tags, which stops at the first price found. */
  method ScriptScan(scripts: seq<Option<string>>) returns (price: Option<string>)
    ensures price == FirstSome(scripts, ScriptCandidate)
  {
    price := None;
    for i := 0 to |scripts|
      invariant price.None?
      invariant FirstSome(scripts, ScriptCandidate) == FirstSome(scripts[i..], ScriptCandidate)
    {
      FirstSomeStep(scripts, ScriptCandidate, i);
      var scriptText := scripts[i].GetOr("");
      var m := PriceSearchText(scriptText);
      if m.Some? {
        price := m;
        break;
      }
    }
  }

  /**
   * Method 3: the loop over the lines of the page text, which searches the
   * window of each line that mentions gold or USD.
   */
  method LineWindowScan(lines: seq<string>) returns (price: Option<string>)
    ensures price == WindowScanFrom(lines, 0)
  {
    price := None;
    for i := 0 to |lines|
      invariant price.None?
      invariant WindowScanFrom(lines, 0) == WindowScanFrom(lines, i)
    {
      var line := Lower(lines[i]);
      if Contains(line, "gold") || Contains(line, "usd") {
        var searchText := Join(lines[WindowLo(i)..WindowHi(|lines|, i)], " ");
        var m := SearchText(searchText, RequiredComma);
        assert m == WindowCandidate(lines, i);
        if m.Some? {
          price := m;
          break;
        }
      }
    }
  }

  /** Method 4: the loop over every numeral of the page text, which stops at the first in range. */
  method RangeScan(allNumbers: seq<string>) returns (price: Option<string>)
    ensures price == FirstSome(allNumbers, RangeCandidate)
  {
    price := None;
    for i := 0 to |allNumbers|
      invariant price.None?
      invariant FirstSome(allNumbers, RangeCandidate) == FirstSome(allNumbers[i..], RangeCandidate)
    {
      FirstSomeStep(allNumbers, RangeCandidate, i);
      var num := allNumbers[i];
      var value := ParseCents(StripCommas(num));
      if value.Some? && MinCents <= value.value <= MaxCents {
        price := Some(num);
        break;
      }
    }
  }

  /** The record the scraper returns for a fetch outcome and the clock reading `now`. */
  function ScrapeRecord(fetch: Fetch, now: string): PriceRecord {
    match fetch
    case Raised(message) => ErrorRecord(now, message)
    case Fetched(page) => ParsedRecord(now, Discover(page), None, None)
  }

  /**
   * `scrape_gold_price`. `change` and `percent_change` start as None and
   * no method ever sets them.
   */
  method ScrapeGoldPrice(fetch: Fetch, now: string) returns (record: PriceRecord)
    ensures record == ScrapeRecord(fetch, now)
  {
    if fetch.Raised? {
      return ErrorRecord(now, fetch.message);
    }
    var page := fetch.page;
    var price: Option<string> := None;
    var change: Option<string> := None;
    var percentChange: Option<string> := None;
    price := MetaScan(page.metaContents);
    if !Truthy(price) {
      price := ScriptScan(page.scriptStrings);
    }
    if !Truthy(price) {
      price := LineWindowScan(Split(page.text, '\n'));
    }
    if !Truthy(price) {
      price := RangeScan(FindAll(page.text, RequiredComma));
    }
    record := ParsedRecord(now, price, change, percentChange);
  }

  /**
   * The record always has the status its fields call for: "success" with a
   * price copied from the page exactly when some method found one,
   * "parsing_failed" with "N/A" when none did, and an error status exactly
   * when the fetch raised.
   */
  lemma ScrapeOutcome(fetch: Fetch, now: string)
    ensures var r := ScrapeRecord(fetch, now); Consistent(r) && r.timestamp == now
    ensures var r := ScrapeRecord(fetch, now);
      r.status == Success <==> fetch.Fetched? && Discover(fetch.page).Some?
    ensures var r := ScrapeRecord(fetch, now);
      r.status == Success ==> IsNumeral(r.price, OptionalComma) && InPage(fetch.page, r.price)
    ensures var r := ScrapeRecord(fetch, now);
      r.status == ParsingFailed <==> fetch.Fetched? && Discover(fetch.page).None?
    ensures IsErrorStatus(ScrapeRecord(fetch, now).status) <==> fetch.Raised?
    ensures var r := ScrapeRecord(fetch, now);
      fetch.Fetched? ==> r.change == NotAvailable && r.percentChange == NotAvailable
  {
    match fetch
    case Raised(message) =>
      ErrorRecordConsistent(now, message);
    case Fetched(page) =>
      DiscoverFound(page);
      var price := Discover(page);
      if price.Some? {
        NumeralIsNoSentinel(price.value);
      }
      ParsedRecordConsistent(now, price, None, None);
  }

  /** A numeral is neither of the sentinels, so a found price always reads as found. */
  lemma NumeralIsNoSentinel(t: string)
    requires IsNumeral(t, OptionalComma)
    ensures t != "" && t != NotAvailable && t != ErrorMark
  {
    assert IsDigit(t[0]);
  }
}

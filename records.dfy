/**
 * The six-field dictionary `scrape_gold_price` returns, on the normal path
 * and on the exception path.
 */
module Records {
  import opened Wrappers
  import opened Text

  datatype PriceRecord = PriceRecord(
    timestamp: string,
    price: string,
    change: string,
    percentChange: string,
    url: string,
    status: string)

  /** The page the scraper reads. */
  const SourceUrl: string := "https://goldprice.org"

  /** The sentinel for a value that was not found. */
  const NotAvailable: string := "N/A"

  /** The sentinel for every value of a record made on the exception path. */
  const ErrorMark: string := "ERROR"

  const Success: string := "success"
  const ParsingFailed: string := "parsing_failed"
  const ErrorPrefix: string := "error: "

  /**
   * `x if x else 'N/A'`: the field is never left empty, and it reads "N/A"
   * exactly when nothing was found or what was found is "N/A" itself.
   */
  function OrNotAvailable(x: Option<string>): (r: string)
    ensures Truthy(x) ==> r == x.value
    ensures !Truthy(x) ==> r == NotAvailable
    ensures r != ""
    ensures r == NotAvailable <==> !Truthy(x) || x.value == NotAvailable
  {
    if Truthy(x) then x.value else NotAvailable
  }

  /** A status the exception path writes: `error: ` followed by the message. */
  predicate IsErrorStatus(status: string) {
    |ErrorPrefix| <= |status| && status[..|ErrorPrefix|] == ErrorPrefix
  }

  /**
   * What every record the scraper returns satisfies: it names the source,
   * its status is one of the three kinds, and the status agrees with the
   * value fields.
   */
  predicate Consistent(r: PriceRecord) {
    r.url == SourceUrl &&
    (r.status == Success || r.status == ParsingFailed || IsErrorStatus(r.status)) &&
    (r.status == Success ==> r.price != NotAvailable && r.price != ErrorMark) &&
    (r.status == ParsingFailed ==> r.price == NotAvailable) &&
    (IsErrorStatus(r.status) ==> r.price == ErrorMark && r.change == ErrorMark && r.percentChange == ErrorMark)
  }

  /** The three kinds of status cannot be mistaken for one another. */
  lemma StatusesDistinct()
    ensures Success != ParsingFailed
    ensures !IsErrorStatus(Success) && !IsErrorStatus(ParsingFailed)
    ensures forall message :: IsErrorStatus(ErrorPrefix + message)
  {
    assert Success[..|ErrorPrefix|][0] != ErrorPrefix[0];
    assert ParsingFailed[..|ErrorPrefix|][0] != ErrorPrefix[0];
    forall message ensures IsErrorStatus(ErrorPrefix + message) {
      assert (ErrorPrefix + message)[..|ErrorPrefix|] == ErrorPrefix;
    }
  }

  /**
   * The record of the normal path: a falsy value becomes "N/A", and the
   * status is "success" exactly when a price was found.
   */
  function ParsedRecord(timestamp: string, price: Option<string>, change: Option<string>,
                        percentChange: Option<string>): (r: PriceRecord)
    ensures r.timestamp == timestamp && r.url == SourceUrl
    ensures r.status == Success <==> Truthy(price)
    ensures r.status == ParsingFailed <==> !Truthy(price)
    ensures r.price == OrNotAvailable(price)
    ensures r.change == OrNotAvailable(change) && r.percentChange == OrNotAvailable(percentChange)
  {
    PriceRecord(timestamp, OrNotAvailable(price), OrNotAvailable(change), OrNotAvailable(percentChange),
                SourceUrl, if Truthy(price) then Success else ParsingFailed)
  }

  /** The record of the exception path: "ERROR" in every value field and the message in the status. */
  function ErrorRecord(timestamp: string, message: string): (r: PriceRecord)
    ensures r.timestamp == timestamp && r.url == SourceUrl
    ensures r.price == ErrorMark && r.change == ErrorMark && r.percentChange == ErrorMark
    ensures IsErrorStatus(r.status) && r.status[|ErrorPrefix|..] == message
  {
    StatusesDistinct();
    PriceRecord(timestamp, ErrorMark, ErrorMark, ErrorMark, SourceUrl, ErrorPrefix + message)
  }

  /** A record of the normal path is consistent when the price found is not itself a sentinel. */
  lemma ParsedRecordConsistent(timestamp: string, price: Option<string>, change: Option<string>,
                               percentChange: Option<string>)
    requires Truthy(price) ==> price.value != NotAvailable && price.value != ErrorMark
    ensures Consistent(ParsedRecord(timestamp, price, change, percentChange))
    ensures !IsErrorStatus(ParsedRecord(timestamp, price, change, percentChange).status)
  {
    StatusesDistinct();
  }

  /** A record of the exception path is consistent, and never reads as success or parsing failure. */
  lemma ErrorRecordConsistent(timestamp: string, message: string)
    ensures Consistent(ErrorRecord(timestamp, message))
    ensures ErrorRecord(timestamp, message).status != Success
    ensures ErrorRecord(timestamp, message).status != ParsingFailed
  {
    StatusesDistinct();
  }
}

/**
 * The four ways `scrape_gold_price` looks for the price in a parsed page,
 * as functions of what the page yields: the `content` attribute of each
 * `<meta>` tag, the `.string` of each `<script>` tag and the page's text.
 * Each stage is the first candidate its loop finds; `Discover` chains the
 * stages behind the `if not price` tests.
 */
module Extraction {
  import opened Wrappers
  import opened Text
  import opened Patterns
  import opened Cents

  /**
   * What the parsed page offers the scraper: the `content` attribute of
   * every `<meta>` tag in document order (None where it is absent), the
   * `.string` of every `<script>` tag (None where the tag has no single
   * string child) and `soup.get_text()`.
   */
  datatype Page = Page(metaContents: seq<Option<string>>, scriptStrings: seq<Option<string>>, text: string)

  /** The first `f(x)` along `xs` that is not None: a `for ... break` loop over `xs`. */
  function FirstSome<T>(xs: seq<T>, f: T -> Option<string>): Option<string>
    decreases |xs|
  {
    if xs == [] then None
    else if f(xs[0]).Some? then f(xs[0])
    else FirstSome(xs[1..], f)
  }

  /** No element before position `j` yields a candidate. */
  predicate NoneBefore<T>(xs: seq<T>, f: T -> Option<string>, j: nat)
    requires j <= |xs|
  {
    forall i :: 0 <= i < j ==> f(xs[i]).None?
  }

  /**
   * `FirstSome` is None exactly when no element yields a candidate, and
   * otherwise it is the candidate of an element that no earlier element
   * pre-empts.
   */
  lemma {:induction false} FirstSomeIsFirst<T>(xs: seq<T>, f: T -> Option<string>)
    ensures FirstSome(xs, f).None? <==> NoneBefore(xs, f, |xs|)
    ensures FirstSome(xs, f).Some? ==>
      exists j :: 0 <= j < |xs| && FirstSome(xs, f) == f(xs[j]) && NoneBefore(xs, f, j)
    decreases |xs|
  {
    if xs != [] {
      FirstSomeIsFirst(xs[1..], f);
      if f(xs[0]).Some? {
        assert NoneBefore(xs, f, 0);
      } else {
        assert forall i :: 1 <= i < |xs| ==> xs[1..][i - 1] == xs[i];
        if FirstSome(xs[1..], f).Some? {
          var j :| 0 <= j < |xs| - 1 && FirstSome(xs[1..], f) == f(xs[1..][j]) && NoneBefore(xs[1..], f, j);
          assert NoneBefore(xs, f, j + 1);
        }
      }
    }
  }

  /** One step of the loop that computes `FirstSome`, from position `i`. */
  lemma FirstSomeStep<T>(xs: seq<T>, f: T -> Option<string>, i: nat)
    requires i < |xs|
    ensures FirstSome(xs[i..], f) == if f(xs[i]).Some? then f(xs[i]) else FirstSome(xs[i + 1..], f)
  {
    assert xs[i..][1..] == xs[i + 1..];
  }

  // Method 1: meta tags.

  /** The tests method 1 makes of one meta tag's content, all of which must pass. */
  predicate MetaQualifies(content: Option<string>) {
    var c := content.GetOr("");
    Contains(Lower(c), "gold") && HasDigitRun(c) && HasNumeral(c, OptionalComma)
  }

  /**
   * Method 1 on one meta tag: when its content mentions gold in any case
   * and holds four digits in a row, the first numeral in it.
   */
  function MetaCandidate(content: Option<string>): (r: Option<string>)
    ensures r.Some? <==> MetaQualifies(content)
    ensures r.Some? ==> IsNumeral(r.value, OptionalComma) && Contains(content.GetOr(""), r.value)
  {
    var c := content.GetOr("");
    if Contains(Lower(c), "gold") && HasDigitRun(c) then SearchText(c, OptionalComma) else None
  }

  function MetaStage(page: Page): Option<string> {
    FirstSome(page.metaContents, MetaCandidate)
  }

  /**
   * Method 1 yields nothing exactly when no meta tag passes all its tests;
   * otherwise it yields the first numeral of the first meta tag that does.
   */
  lemma MetaStageChoice(page: Page)
    ensures var metas := page.metaContents;
      MetaStage(page).None? <==> forall j :: 0 <= j < |metas| ==> !MetaQualifies(metas[j])
    ensures var metas := page.metaContents;
      MetaStage(page).Some? ==> exists j :: (0 <= j < |metas| && MetaQualifies(metas[j]) &&
        MetaStage(page) == SearchText(metas[j].GetOr(""), OptionalComma) &&
        forall i :: 0 <= i < j ==> !MetaQualifies(metas[i]))
  {
    FirstSomeIsFirst(page.metaContents, MetaCandidate);
  }

  // Method 2: script tags.

  /**
   * Method 2 on one script tag: the numeral that follows the first `"price`
   * key at which the whole pattern matches.
   */
  function ScriptCandidate(str: Option<string>): (r: Option<string>)
    ensures r.Some? <==> HasPriceEntry(str.GetOr(""))
    ensures r.Some? ==> IsNumeral(r.value, OptionalComma) && Contains(str.GetOr(""), r.value)
    ensures r.Some? ==> Contains(str.GetOr(""), PriceKey)
    ensures r.Some? ==>
      exists p: nat, j: nat, e: nat | p + |PriceKey| <= j <= e <= |str.GetOr("")| ::
        FirstPriceEntry(str.GetOr(""), p, j, e) && r.value == str.GetOr("")[j..e]
  {
    PriceSearchTextNone(str.GetOr(""));
    PriceSearchTextLeftmost(str.GetOr(""));
    PriceSearchText(str.GetOr(""))
  }

  function ScriptStage(page: Page): Option<string> {
    FirstSome(page.scriptStrings, ScriptCandidate)
  }

  /**
   * Method 2 yields nothing exactly when no script holds the `"price` key
   * followed by a numeral; otherwise it yields the numeral of the first
   * such script.
   */
  lemma ScriptStageChoice(page: Page)
    ensures var scripts := page.scriptStrings;
      ScriptStage(page).None? <==> forall j :: 0 <= j < |scripts| ==> !HasPriceEntry(scripts[j].GetOr(""))
    ensures var scripts := page.scriptStrings;
      ScriptStage(page).Some? ==> exists j :: (0 <= j < |scripts| && HasPriceEntry(scripts[j].GetOr("")) &&
        ScriptStage(page) == PriceSearchText(scripts[j].GetOr("")) &&
        forall i :: 0 <= i < j ==> !HasPriceEntry(scripts[i].GetOr("")))
  {
    FirstSomeIsFirst(page.scriptStrings, ScriptCandidate);
  }

  // Method 3: lines of the page text.

  /** `max(0, i - 2)`: the first line of the window around line `i`. */
  function WindowLo(i: nat): nat {
    if i >= 2 then i - 2 else 0
  }

  /** `min(n, i + 3)`: one past the last line of the window around line `i`. */
  function WindowHi(n: nat, i: nat): nat {
    if i + 3 <= n then i + 3 else n
  }

  /** The lines from two before line `i` to two after it, joined with spaces. */
  function Window(lines: seq<string>, i: nat): (w: string)
    requires i < |lines|
    ensures WindowLo(i) <= i < WindowHi(|lines|, i) <= |lines|
    ensures forall k :: WindowLo(i) <= k < WindowHi(|lines|, i) ==> Contains(w, lines[k])
  {
    var parts := lines[WindowLo(i)..WindowHi(|lines|, i)];
    JoinHoldsParts(parts, " ");
    assert forall k :: WindowLo(i) <= k < WindowHi(|lines|, i) ==> parts[k - WindowLo(i)] == lines[k];
    Join(parts, " ")
  }

  /** The line mentions "gold" or "usd" in any case. */
  predicate MentionsGoldOrUsd(line: string) {
    Contains(Lower(line), "gold") || Contains(Lower(line), "usd")
  }

  /**
   * Method 3 on line `i`: when the line mentions gold or USD, the first
   * numeral with a thousands comma in its window.
   */
  function WindowCandidate(lines: seq<string>, i: nat): (r: Option<string>)
    requires i < |lines|
    ensures r.Some? <==> MentionsGoldOrUsd(lines[i]) && HasNumeral(Window(lines, i), RequiredComma)
    ensures r.Some? ==> IsNumeral(r.value, RequiredComma) && Contains(Window(lines, i), r.value)
  {
    if MentionsGoldOrUsd(lines[i]) then SearchText(Window(lines, i), RequiredComma) else None
  }

  /** The first candidate of method 3 from line `i` on. */
  function WindowScanFrom(lines: seq<string>, i: nat): (r: Option<string>)
    requires i <= |lines|
    ensures r.Some? ==> exists k :: (i <= k < |lines| && r == WindowCandidate(lines, k) &&
      forall m :: i <= m < k ==> WindowCandidate(lines, m).None?)
    ensures r.None? <==> forall k :: i <= k < |lines| ==> WindowCandidate(lines, k).None?
    decreases |lines| - i
  {
    if i == |lines| then None
    else if WindowCandidate(lines, i).Some? then WindowCandidate(lines, i)
    else WindowScanFrom(lines, i + 1)
  }

  /** `page_text.split('\n')`. */
  function Lines(page: Page): seq<string> {
    Split(page.text, '\n')
  }

  function LineStage(page: Page): Option<string> {
    WindowScanFrom(Lines(page), 0)
  }

  /** Line `k` lies in the window of a line that mentions gold or USD, and holds `v`. */
  predicate NearMention(lines: seq<string>, k: nat, v: string) {
    k < |lines| && Contains(lines[k], v) &&
    exists i :: 0 <= i < |lines| && WindowLo(i) <= k < WindowHi(|lines|, i) && MentionsGoldOrUsd(lines[i])
  }

  /**
   * What method 3 yields is a numeral with a thousands comma that occurs in
   * the page text, on a line at most two lines away from one that mentions
   * gold or USD.
   */
  lemma LineStageLocated(page: Page)
    ensures LineStage(page).Some? ==> IsNumeral(LineStage(page).value, RequiredComma)
    ensures LineStage(page).Some? ==> Contains(page.text, LineStage(page).value)
    ensures LineStage(page).Some? ==> exists k :: NearMention(Lines(page), k, LineStage(page).value)
  {
    if LineStage(page).None? {
      return;
    }
    var lines := Lines(page);
    var v := LineStage(page).value;
    var i :| 0 <= i < |lines| && LineStage(page) == WindowCandidate(lines, i);
    var k := WindowLineHolding(lines, i, v);
    assert NearMention(lines, k, v);
    LineInText(page.text, k);
    ContainsTransitive(page.text, lines[k], v);
  }

  /** A numeral found in the window of line `i` occurs whole in one of the window's lines. */
  lemma WindowLineHolding(lines: seq<string>, i: nat, v: string) returns (k: nat)
    requires i < |lines| && WindowCandidate(lines, i) == Some(v)
    ensures WindowLo(i) <= k < WindowHi(|lines|, i) && MentionsGoldOrUsd(lines[i]) && Contains(lines[k], v)
  {
    var lo, hi := WindowLo(i), WindowHi(|lines|, i);
    WindowIsJoin(lines, i);
    var m := NumeralInOnePart(lines[lo..hi], v);
    k := lo + m;
    assert lines[lo..hi][m] == lines[k];
  }

  /** A comma numeral found in lines joined with spaces lies within one of the lines. */
  lemma NumeralInOnePart(parts: seq<string>, v: string) returns (m: nat)
    requires |parts| > 0 && IsNumeral(v, RequiredComma) && Contains(Join(parts, [' ']), v)
    ensures m < |parts| && Contains(parts[m], v)
  {
    NumeralWithoutSpace(v, RequiredComma);
    ContainedInOnePart(parts, ' ', v);
    m :| m < |parts| && Contains(parts[m], v);
  }

  lemma WindowIsJoin(lines: seq<string>, i: nat)
    requires i < |lines|
    ensures Window(lines, i) == Join(lines[WindowLo(i)..WindowHi(|lines|, i)], [' '])
  {
  }

  /** Every line of the page text occurs in it. */
  lemma LineInText(text: string, k: nat)
    requires k < |Split(text, '\n')|
    ensures Contains(text, Split(text, '\n')[k])
  {
    PartInJoin(Split(text, '\n'), "\n", k);
    JoinSplit(text, '\n');
  }

  lemma NumeralWithoutSpace(v: string, rule: CommaRule)
    requires IsNumeral(v, rule)
    ensures ' ' !in v
  {
    NumeralChars(v, rule);
  }

  // Method 4: every numeral of the page text, checked against a range.

  /** The bounds of `2000 <= num_value <= 5000`, in hundredths. */
  const MinCents: nat := 200000
  const MaxCents: nat := 500000

  /** Method 4 on one numeral: the numeral itself when its value lies in the range. */
  function RangeCandidate(num: string): (r: Option<string>)
    ensures r.Some? ==> r.value == num
  {
    match ParseCents(StripCommas(num))
    case None => None
    case Some(c) => if MinCents <= c <= MaxCents then Some(num) else None
  }

  /** `2000 <= float(t.replace(',', '')) <= 5000`, on the exact value of the numeral. */
  ghost predicate InBand(t: string) {
    DotAt(StripCommas(t), 4) && 2000.0 <= DecimalValue(StripCommas(t), 4) <= 5000.0
  }

  /** The range test in hundredths agrees with the range test on the numeral's exact value. */
  lemma RangeCandidateExact(num: string, rule: CommaRule)
    requires IsNumeral(num, rule)
    ensures RangeCandidate(num).Some? <==> InBand(num)
  {
    StrippedNumeralParses(num, rule);
  }

  function RangeStage(page: Page): Option<string> {
    FirstSome(FindAll(page.text, RequiredComma), RangeCandidate)
  }

  /**
   * Method 4 yields nothing exactly when no numeral with a thousands comma
   * in the page text lies in the range; otherwise it yields the first one
   * that does, in the order `re.findall` reports them.
   */
  lemma RangeStageChoice(page: Page)
    ensures var nums := FindAll(page.text, RequiredComma);
      RangeStage(page).None? <==> forall j :: 0 <= j < |nums| ==> !InBand(nums[j])
    ensures var nums := FindAll(page.text, RequiredComma);
      RangeStage(page).Some? ==> exists j :: (0 <= j < |nums| && InBand(nums[j]) &&
        RangeStage(page) == Some(nums[j]) &&
        forall i :: 0 <= i < j ==> !InBand(nums[i]))
  {
    var nums := FindAll(page.text, RequiredComma);
    FirstSomeIsFirst(nums, RangeCandidate);
    forall j | 0 <= j < |nums| ensures RangeCandidate(nums[j]).Some? <==> InBand(nums[j]) {
      RangeCandidateExact(nums[j], RequiredComma);
    }
  }

  // The chain of methods.

  /**
   * The price the scraper settles on: each method runs only while `price`
   * is still falsy, and the first one that finds something decides.
   */
  function Discover(page: Page): Option<string> {
    var p1 := MetaStage(page);
    var p2 := if Truthy(p1) then p1 else ScriptStage(page);
    var p3 := if Truthy(p2) then p2 else LineStage(page);
    if Truthy(p3) then p3 else RangeStage(page)
  }

  /** Every method yields only numerals, so `not price` holds exactly when nothing was found. */
  lemma StagesYieldNumerals(page: Page)
    ensures MetaStage(page).Some? ==> IsNumeral(MetaStage(page).value, OptionalComma)
    ensures ScriptStage(page).Some? ==> IsNumeral(ScriptStage(page).value, OptionalComma)
    ensures LineStage(page).Some? ==> IsNumeral(LineStage(page).value, RequiredComma)
    ensures RangeStage(page).Some? ==> IsNumeral(RangeStage(page).value, RequiredComma)
  {
    FirstSomeIsFirst(page.metaContents, MetaCandidate);
    FirstSomeIsFirst(page.scriptStrings, ScriptCandidate);
    FirstSomeIsFirst(FindAll(page.text, RequiredComma), RangeCandidate);
  }

  /**
   * The methods are tried strictly in order and the first that finds a
   * price decides; the price is None only when all four find nothing.
   */
  lemma DiscoverOrder(page: Page)
    ensures MetaStage(page).Some? ==> Discover(page) == MetaStage(page)
    ensures MetaStage(page).None? && ScriptStage(page).Some? ==> Discover(page) == ScriptStage(page)
    ensures MetaStage(page).None? && ScriptStage(page).None? && LineStage(page).Some? ==>
      Discover(page) == LineStage(page)
    ensures MetaStage(page).None? && ScriptStage(page).None? && LineStage(page).None? ==>
      Discover(page) == RangeStage(page)
  {
    StagesYieldNumerals(page);
  }

  /** `v` occurs in a meta tag's content, in a script, or in the page text. */
  predicate InPage(page: Page, v: string) {
    (exists j :: 0 <= j < |page.metaContents| && Contains(page.metaContents[j].GetOr(""), v)) ||
    (exists j :: 0 <= j < |page.scriptStrings| && Contains(page.scriptStrings[j].GetOr(""), v)) ||
    Contains(page.text, v)
  }

  /** The price the scraper settles on is a numeral copied from the page. */
  lemma DiscoverFound(page: Page)
    ensures Discover(page).Some? ==> IsNumeral(Discover(page).value, OptionalComma)
    ensures Discover(page).Some? ==> InPage(page, Discover(page).value)
  {
    DiscoverOrder(page);
    StagesYieldNumerals(page);
    FirstSomeIsFirst(page.metaContents, MetaCandidate);
    FirstSomeIsFirst(page.scriptStrings, ScriptCandidate);
    FirstSomeIsFirst(FindAll(page.text, RequiredComma), RangeCandidate);
    if MetaStage(page).None? && ScriptStage(page).None? && LineStage(page).Some? {
      LineStageLocated(page);
    }
  }

  /**
   * A meta tag whose only four-digit stretch is broken by the thousands
   * comma fails the `\d{4}` test, so method 1 passes over it.
   */
  lemma MetaNeedsFourDigits()
    ensures MetaCandidate(Some("Gold price today 2,345.67 USD")).None?
  {
    NoFourDigits("Gold price today 2,345.67 USD");
  }

  lemma NoFourDigits(c: string)
    requires c == "Gold price today 2,345.67 USD"
    ensures !HasDigitRun(c)
  {
    forall i: nat | i <= |c| ensures !DigitRunAt(c, i) {
      var k := if i <= 16 then i else if i <= 18 then 18 else if i <= 22 then 22 else 25;
      if i + 4 <= |c| {
        assert c[i..i + 4][k - i] == c[k];
      }
    }
  }
}

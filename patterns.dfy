/**
 * The regular expressions of the scraper, with Python `re` semantics:
 *
 *   `\d{1},?\d{3}\.\d{1,2}`     the price numeral, comma optional (methods 1 and 2)
 *   `\d{1},\d{3}\.\d{1,2}`      the price numeral, comma required (methods 3 and 4)
 *   `\d{4}`                     the four-digit gate of method 1
 *   `"price["\']?\s*:\s*["\']?` the key that precedes the numeral in method 2
 *
 * Each matcher is written as the backtracking engine runs it at one
 * position, and is proved equal to a declarative description of the
 * language it accepts. `re.search` is the leftmost position that matches and
 * `re.findall` the successive leftmost matches, each search resuming where
 * the previous match ended.
 */
module Patterns {
  import opened Wrappers
  import opened Text

  /** Whether the thousands separator of the numeral is `,?` or `,`. */
  datatype CommaRule = OptionalComma | RequiredComma

  /** A match `s[start..end]`. */
  datatype Span = Span(start: nat, end: nat)

  /** The language of `\d{3}\.\d{1,2}`. */
  predicate IsFractionTail(u: string) {
    (|u| == 5 || |u| == 6) && AllDigits(u[..3]) && u[3] == '.' && AllDigits(u[4..])
  }

  /** The language of `\d{1},?\d{3}\.\d{1,2}` or, for RequiredComma, `\d{1},\d{3}\.\d{1,2}`. */
  predicate IsNumeral(t: string, rule: CommaRule) {
    |t| >= 2 && IsDigit(t[0]) &&
    ((t[1] == ',' && IsFractionTail(t[2..])) || (rule == OptionalComma && IsFractionTail(t[1..])))
  }

  /** A numeral is made of digits, at most one comma and one point. */
  lemma NumeralChars(t: string, rule: CommaRule)
    requires IsNumeral(t, rule)
    ensures forall k :: 0 <= k < |t| ==> IsDigit(t[k]) || t[k] == ',' || t[k] == '.'
  {
    var off := if t[1] == ',' then 2 else 1;
    var u := t[off..];
    forall k | 0 <= k < |t| ensures IsDigit(t[k]) || t[k] == ',' || t[k] == '.' {
      if off <= k < off + 3 {
        assert t[k] == u[..3][k - off];
      } else if off + 4 <= k {
        assert t[k] == u[4..][k - off - 4];
      }
    }
  }

  /** `s` holds a numeral of the given rule somewhere. */
  predicate HasNumeral(s: string, rule: CommaRule) {
    exists i: nat, j: nat | i <= j <= |s| :: IsNumeral(s[i..j], rule)
  }

  /**
   * Where `\d{3}\.\d{1,2}` ends when matched from `q`: `\d{1,2}` is greedy,
   * so two fractional digits are taken when there are two.
   */
  function TailEnd(s: string, q: nat): (r: Option<nat>)
    ensures r.Some? ==> q + 5 <= r.value <= |s|
  {
    if q + 5 <= |s| && IsDigit(s[q]) && IsDigit(s[q + 1]) && IsDigit(s[q + 2])
       && s[q + 3] == '.' && IsDigit(s[q + 4])
    then
      Some(if q + 6 <= |s| && IsDigit(s[q + 5]) then q + 6 else q + 5)
    else
      None
  }

  /** The matcher finds the longest fraction tail at `q`, and none when none starts there. */
  lemma TailEndExact(s: string, q: nat)
    ensures var r := TailEnd(s, q);
      (r.Some? ==> IsFractionTail(s[q..r.value])) &&
      (r.Some? ==> forall e :: r.value < e <= |s| ==> !IsFractionTail(s[q..e])) &&
      (r.None? ==> forall e :: q <= e <= |s| ==> !IsFractionTail(s[q..e]))
  {
    forall e | q <= e <= |s| ensures IsFractionTail(s[q..e]) <==> FractionTailAt(s, q, e) {
      FractionTailSlice(s, q, e);
    }
  }

  /** `s[q..e]` spelled out character by character as `\d{3}\.\d{1,2}`. */
  predicate FractionTailAt(s: string, q: nat, e: nat)
    requires q <= e <= |s|
  {
    (e == q + 5 || e == q + 6) &&
    IsDigit(s[q]) && IsDigit(s[q + 1]) && IsDigit(s[q + 2]) && s[q + 3] == '.' &&
    IsDigit(s[q + 4]) && (e == q + 6 ==> IsDigit(s[q + 5]))
  }

  lemma FractionTailSlice(s: string, q: nat, e: nat)
    requires q <= e <= |s|
    ensures IsFractionTail(s[q..e]) <==> FractionTailAt(s, q, e)
  {
    var u := s[q..e];
    if |u| == 5 || |u| == 6 {
      assert forall k :: 0 <= k < 3 ==> u[..3][k] == s[q + k];
      assert forall k :: 0 <= k < |u| - 4 ==> u[4..][k] == s[q + 4 + k];
    }
  }

  /**
   * Where the numeral that starts at `p` ends, if one starts there. The
   * engine takes `\d`, then a comma if the next character is one; were the
   * rest to fail after the comma, dropping it cannot help, since `\d{3}`
   * would then have to start at the comma.
   */
  function NumeralEnd(s: string, p: nat, rule: CommaRule): (r: Option<nat>)
    ensures r.Some? ==> p < r.value <= |s|
  {
    if p + 1 < |s| && IsDigit(s[p]) then
      if s[p + 1] == ',' then TailEnd(s, p + 2)
      else if rule == OptionalComma then TailEnd(s, p + 1)
      else None
    else
      None
  }

  /**
   * The matcher finds the longest numeral that starts at `p`, and finds
   * none when none starts there.
   */
  lemma NumeralEndExact(s: string, p: nat, rule: CommaRule)
    ensures var r := NumeralEnd(s, p, rule);
      (r.Some? ==> IsNumeral(s[p..r.value], rule)) &&
      (r.Some? ==> forall e :: r.value < e <= |s| ==> !IsNumeral(s[p..e], rule)) &&
      (r.None? ==> forall e :: p <= e <= |s| ==> !IsNumeral(s[p..e], rule))
  {
    forall e | p <= e <= |s| ensures IsNumeral(s[p..e], rule) <==> NumeralAt(s, p, e, rule) {
      NumeralSlice(s, p, e, rule);
    }
  }

  /** `s[p..e]` spelled out character by character as a numeral. */
  predicate NumeralAt(s: string, p: nat, e: nat, rule: CommaRule)
    requires p <= e <= |s|
  {
    p + 2 <= e && IsDigit(s[p]) &&
    ((s[p + 1] == ',' && FractionTailAt(s, p + 2, e)) ||
     (rule == OptionalComma && FractionTailAt(s, p + 1, e)))
  }

  lemma NumeralSlice(s: string, p: nat, e: nat, rule: CommaRule)
    requires p <= e <= |s|
    ensures IsNumeral(s[p..e], rule) <==> NumeralAt(s, p, e, rule)
  {
    if p + 2 <= e {
      FractionTailSlice(s, p + 1, e);
      FractionTailSlice(s, p + 2, e);
      assert s[p..e][2..] == s[p + 2..e];
      assert s[p..e][1..] == s[p + 1..e];
    }
  }

  /**
   * `re.search` for the numeral, started at `from`: the leftmost position
   * at which a numeral starts, with the end the engine gives it there.
   */
  function SearchFrom(s: string, from: nat, rule: CommaRule): (r: Option<Span>)
    ensures r.Some? ==> from <= r.value.start && NumeralEnd(s, r.value.start, rule) == Some(r.value.end)
    ensures r.Some? ==> forall p :: from <= p < r.value.start ==> NumeralEnd(s, p, rule).None?
    ensures r.None? ==> forall p :: from <= p ==> NumeralEnd(s, p, rule).None?
    decreases |s| - from
  {
    if from >= |s| then None
    else if NumeralEnd(s, from, rule).Some? then Some(Span(from, NumeralEnd(s, from, rule).value))
    else SearchFrom(s, from + 1, rule)
  }

  /** `re.search(pattern, s).group(1)` for the numeral, or None when nothing matches. */
  function SearchText(s: string, rule: CommaRule): (r: Option<string>)
    ensures r.Some? ==> IsNumeral(r.value, rule) && Contains(s, r.value)
    ensures r.None? <==> !HasNumeral(s, rule)
  {
    match SearchFrom(s, 0, rule)
    case None =>
      NoNumeralAnywhere(s, rule);
      None
    case Some(sp) =>
      NumeralEndExact(s, sp.start, rule);
      ContainsSlice(s, sp.start, sp.end);
      Some(s[sp.start..sp.end])
  }

  /**
   * `s[i..j]` is the match `re.search` reports: no numeral starts before
   * `i`, and the one at `i` cannot be extended past `j`.
   */
  predicate LeftmostLongest(s: string, i: nat, j: nat, rule: CommaRule)
    requires i <= j <= |s|
  {
    IsNumeral(s[i..j], rule) &&
    (forall e :: j < e <= |s| ==> !IsNumeral(s[i..e], rule)) &&
    (forall p, e :: 0 <= p < i && p <= e <= |s| ==> !IsNumeral(s[p..e], rule))
  }

  /** What `SearchText` reports is the leftmost numeral, taken greedily. */
  lemma SearchTextLeftmost(s: string, rule: CommaRule)
    ensures SearchText(s, rule).Some? ==>
      exists i: nat, j: nat | i <= j <= |s| :: SearchText(s, rule).value == s[i..j] && LeftmostLongest(s, i, j, rule)
  {
    if SearchFrom(s, 0, rule).Some? {
      var sp := SearchFrom(s, 0, rule).value;
      NumeralEndExact(s, sp.start, rule);
      forall p, e | 0 <= p < sp.start && p <= e <= |s| ensures !IsNumeral(s[p..e], rule) {
        NumeralEndExact(s, p, rule);
      }
      assert LeftmostLongest(s, sp.start, sp.end, rule);
    }
  }

  lemma NoNumeralAnywhere(s: string, rule: CommaRule)
    requires SearchFrom(s, 0, rule).None?
    ensures !HasNumeral(s, rule)
  {
    forall i: nat, j: nat | i <= j <= |s| ensures !IsNumeral(s[i..j], rule) {
      assert NumeralEnd(s, i, rule).None?;
      NumeralEndExact(s, i, rule);
    }
  }

  /**
   * `re.findall` for the numeral, started at `from`: successive leftmost
   * matches, each search resuming where the previous match ended.
   */
  function FindAllFrom(s: string, from: nat, rule: CommaRule): (spans: seq<Span>)
    ensures forall k :: 0 <= k < |spans| ==>
      from <= spans[k].start && NumeralEnd(s, spans[k].start, rule) == Some(spans[k].end)
    ensures forall k :: 0 <= k < |spans| - 1 ==> spans[k].end <= spans[k + 1].start
    decreases |s| - from
  {
    match SearchFrom(s, from, rule)
    case None => []
    case Some(sp) => [sp] + FindAllFrom(s, sp.end, rule)
  }

  /** No numeral starts at any position in `[lo, hi)`. */
  predicate NoNumeralBetween(s: string, lo: nat, hi: nat, rule: CommaRule) {
    forall p :: lo <= p < hi ==> NumeralEnd(s, p, rule).None?
  }

  /** No numeral starts between the match before the `k`th and the `k`th. */
  predicate GapBefore(s: string, spans: seq<Span>, k: nat, rule: CommaRule)
    requires 1 <= k < |spans|
  {
    NoNumeralBetween(s, spans[k - 1].end, spans[k].start, rule)
  }

  /** No numeral starts between two successive matches. */
  predicate GapsFree(s: string, spans: seq<Span>, rule: CommaRule) {
    forall k :: 1 <= k < |spans| ==> GapBefore(s, spans, k, rule)
  }

  /**
   * `re.findall` skips no match: no numeral starts before the first match,
   * between two successive matches, or after the last one.
   */
  lemma FindAllLeftmost(s: string, from: nat, rule: CommaRule)
    ensures var spans := FindAllFrom(s, from, rule);
      NoNumeralBetween(s, from, if spans == [] then |s| else spans[0].start, rule) &&
      GapsFree(s, spans, rule) &&
      (spans != [] ==> NoNumeralBetween(s, spans[|spans| - 1].end, |s|, rule))
  {
    FindAllInnerGaps(s, from, rule);
    FindAllLastGap(s, from, rule);
  }


  lemma {:induction false} FindAllInnerGaps(s: string, from: nat, rule: CommaRule)
    ensures GapsFree(s, FindAllFrom(s, from, rule), rule)
    decreases |s| - from
  {
    match SearchFrom(s, from, rule)
    case None =>
    case Some(sp) =>
      var rest := FindAllFrom(s, sp.end, rule);
      FindAllInnerGaps(s, sp.end, rule);
      if rest != [] {
        assert rest[0] == SearchFrom(s, sp.end, rule).value;
      }
      GapsFreeCons(s, sp, rest, rule);
  }

  /** Putting a match in front keeps the gaps free when none starts before the next match. */
  lemma GapsFreeCons(s: string, sp: Span, rest: seq<Span>, rule: CommaRule)
    requires GapsFree(s, rest, rule)
    requires rest != [] ==> NoNumeralBetween(s, sp.end, rest[0].start, rule)
    ensures GapsFree(s, [sp] + rest, rule)
  {
    var spans := [sp] + rest;
    forall k | 1 <= k < |spans| ensures GapBefore(s, spans, k, rule) {
      if k >= 2 {
        assert GapBefore(s, rest, k - 1, rule);
        assert spans[k - 1] == rest[k - 2] && spans[k] == rest[k - 1];
      }
    }
  }

  lemma {:induction false} FindAllLastGap(s: string, from: nat, rule: CommaRule)
    ensures var spans := FindAllFrom(s, from, rule);
      spans != [] ==> NoNumeralBetween(s, spans[|spans| - 1].end, |s|, rule)
    decreases |s| - from
  {
    match SearchFrom(s, from, rule)
    case None =>
    case Some(sp) =>
      var rest := FindAllFrom(s, sp.end, rule);
      FindAllLastGap(s, sp.end, rule);
      if rest != [] {
        assert ([sp] + rest)[|rest|] == rest[|rest| - 1];
      }
  }

  /** The texts `re.findall(pattern, s)` returns for the numeral, in order. */
  function FindAll(s: string, rule: CommaRule): (nums: seq<string>)
    ensures forall k :: 0 <= k < |nums| ==> IsNumeral(nums[k], rule) && Contains(s, nums[k])
  {
    var spans := FindAllFrom(s, 0, rule);
    var nums := seq(|spans|, k requires 0 <= k < |spans| => s[spans[k].start..spans[k].end]);
    assert forall k :: 0 <= k < |nums| ==> Contains(s, nums[k]) by {
      forall k | 0 <= k < |nums| ensures Contains(s, nums[k]) {
        ContainsSlice(s, spans[k].start, spans[k].end);
      }
    }
    assert forall k :: 0 <= k < |nums| ==> IsNumeral(nums[k], rule) by {
      forall k | 0 <= k < |nums| ensures IsNumeral(nums[k], rule) {
        NumeralEndExact(s, spans[k].start, rule);
      }
    }
    nums
  }

  /** `re.search(r'\d{4}', s)` succeeds: `s` holds four digits in a row. */
  predicate HasDigitRun(s: string) {
    exists i: nat | i <= |s| :: DigitRunAt(s, i)
  }

  predicate DigitRunAt(s: string, i: nat) {
    i + 4 <= |s| && AllDigits(s[i..i + 4])
  }

  /** `["\']`. */
  predicate IsQuote(c: char) {
    c == '"' || c == '\''
  }

  /** The literal that opens the script pattern. */
  const PriceKey: string := "\"price"

  /** Where `\s*` ends when matched greedily from `i`. */
  function SkipSpaces(s: string, i: nat): (j: nat)
    requires i <= |s|
    ensures i <= j <= |s|
    ensures AllSpaces(s[i..j])
    ensures j < |s| ==> !IsSpace(s[j])
    decreases |s| - i
  {
    if i < |s| && IsSpace(s[i]) then
      var j := SkipSpaces(s, i + 1);
      assert s[i..j] == [s[i]] + s[i + 1..j];
      j
    else i
  }

  /** Where `["\']?` ends when matched greedily from `i`. */
  function SkipQuote(s: string, i: nat): nat {
    if i < |s| && IsQuote(s[i]) then i + 1 else i
  }

  /**
   * Where the glue `["\']?\s*:\s*["\']?` between the key and the numeral
   * ends when matched greedily from `i`, if it matches there.
   */
  function GlueEnd(s: string, i: nat): Option<nat>
    requires i <= |s|
  {
    var b := SkipSpaces(s, SkipQuote(s, i));
    if b < |s| && s[b] == ':' then Some(SkipQuote(s, SkipSpaces(s, b + 1))) else None
  }

  /**
   * `g` is the glue `["\']?\s*:\s*["\']?`, split so that the opening quote
   * ends at `a`, the spaces before the colon at `b` (the colon is `g[b]`)
   * and the spaces after it at `d`.
   */
  predicate GlueSplitAt(g: string, a: nat, b: nat, d: nat) {
    a <= 1 && a <= b && b + 1 <= d <= |g| <= d + 1 &&
    (a == 1 ==> IsQuote(g[0])) && AllSpaces(g[a..b]) && g[b] == ':' &&
    AllSpaces(g[b + 1..d]) && (|g| == d + 1 ==> IsQuote(g[d]))
  }

  /** The language of `["\']?\s*:\s*["\']?`. */
  ghost predicate IsGlue(g: string) {
    exists a: nat, b: nat, d: nat | d <= |g| :: GlueSplitAt(g, a, b, d)
  }

  /** What the greedy glue matcher accepts is glue. */
  lemma GlueEndSound(s: string, i: nat)
    requires i <= |s| && GlueEnd(s, i).Some?
    ensures i <= GlueEnd(s, i).value <= |s| && IsGlue(s[i..GlueEnd(s, i).value])
  {
    var a := SkipQuote(s, i);
    var b := SkipSpaces(s, a);
    var d := SkipSpaces(s, b + 1);
    var j := SkipQuote(s, d);
    assert GlueSplitIn(s, i, a, b, d, j);
    GlueSplitShift(s, i, a, b, d, j);
  }

  /** `GlueSplitAt` in the coordinates of the whole text: the glue is `s[i..j]`. */
  predicate GlueSplitIn(s: string, i: nat, a: nat, b: nat, d: nat, j: nat) {
    i <= a <= i + 1 && a <= b && b + 1 <= d <= j <= d + 1 && j <= |s| &&
    (a == i + 1 ==> IsQuote(s[i])) && AllSpaces(s[a..b]) && s[b] == ':' &&
    AllSpaces(s[b + 1..d]) && (j == d + 1 ==> IsQuote(s[d]))
  }

  lemma GlueSplitShift(s: string, i: nat, a: nat, b: nat, d: nat, j: nat)
    requires GlueSplitIn(s, i, a, b, d, j)
    ensures GlueSplitAt(s[i..j], a - i, b - i, d - i)
  {
    var g := s[i..j];
    SliceOfSlice(s, i, j, a - i, b - i);
    SliceOfSlice(s, i, j, b + 1 - i, d - i);
    assert g[b - i] == s[b];
    assert g[0] == s[i];
    assert j == d + 1 ==> g[d - i] == s[d];
  }

  /** `SkipSpaces` stops at the first character that is not a space. */
  lemma SkipSpacesStops(s: string, i: nat, k: nat)
    requires i <= k < |s| && AllSpaces(s[i..k]) && !IsSpace(s[k])
    ensures SkipSpaces(s, i) == k
    decreases k - i
  {
    if i < k {
      assert s[i] == s[i..k][0];
      assert s[i + 1..k] == s[i..k][1..];
      SkipSpacesStops(s, i + 1, k);
    }
  }

  /**
   * Glue followed by a digit is exactly what the greedy matcher finds:
   * no other way of matching `["\']?\s*:\s*["\']?` can leave the numeral
   * a different starting point.
   */
  lemma {:induction false} GlueEndComplete(s: string, i: nat, j: nat)
    requires i <= j < |s| && IsDigit(s[j]) && IsGlue(s[i..j])
    ensures GlueEnd(s, i) == Some(j)
  {
    var a: nat, b: nat, d: nat :| d <= |s[i..j]| && GlueSplitAt(s[i..j], a, b, d);
    GlueEndFromSplit(s, i, j, a, b, d);
  }

  lemma GlueEndFromSplit(s: string, i: nat, j: nat, a: nat, b: nat, d: nat)
    requires i <= j < |s| && IsDigit(s[j]) && GlueSplitAt(s[i..j], a, b, d)
    ensures GlueEnd(s, i) == Some(j)
  {
    GlueStartsAfterQuote(s, i, j, a, b, d);
    GlueColon(s, i, j, a, b, d);
    GlueEndsAtNumeral(s, i, j, a, b, d);
  }

  lemma GlueColon(s: string, i: nat, j: nat, a: nat, b: nat, d: nat)
    requires i <= j < |s| && GlueSplitAt(s[i..j], a, b, d)
    ensures SkipSpaces(s, i + a) == i + b && s[i + b] == ':'
  {
    assert s[i + b] == s[i..j][b];
    SliceOfSlice(s, i, j, a, b);
    SkipSpacesStops(s, i + a, i + b);
  }

  lemma GlueStartsAfterQuote(s: string, i: nat, j: nat, a: nat, b: nat, d: nat)
    requires i <= j < |s| && GlueSplitAt(s[i..j], a, b, d)
    ensures SkipQuote(s, i) == i + a
  {
    var g := s[i..j];
    assert s[i] == g[0];
    if a == 0 {
      // the glue then starts with a space or the colon, not a quote
      assert b > 0 ==> IsSpace(g[a..b][0]);
    }
  }

  lemma GlueEndsAtNumeral(s: string, i: nat, j: nat, a: nat, b: nat, d: nat)
    requires i <= j < |s| && IsDigit(s[j]) && GlueSplitAt(s[i..j], a, b, d)
    ensures SkipSpaces(s, i + b + 1) == i + d && SkipQuote(s, i + d) == j
  {
    var g := s[i..j];
    if d < |g| {
      assert s[i + d] == g[d];
    }
    SliceOfSlice(s, i, j, b + 1, d);
    SkipSpacesStops(s, i + b + 1, i + d);
  }

  /**
   * The script pattern matched at `p`: the span of its group, the numeral,
   * if the whole pattern matches starting at `p`.
   */
  function PriceMatchAt(s: string, p: nat): Option<Span> {
    if p + |PriceKey| <= |s| && s[p..p + |PriceKey|] == PriceKey then
      match GlueEnd(s, p + |PriceKey|)
      case None => None
      case Some(j) =>
        match NumeralEnd(s, j, OptionalComma)
        case None => None
        case Some(e) => Some(Span(j, e))
    else
      None
  }

  /**
   * The pattern `"price["\']?\s*:\s*["\']?(\d{1},?\d{3}\.\d{1,2})` matches
   * at `p` exactly when the key, glue and a numeral follow one another
   * there; the group is then the greedy numeral.
   */
  lemma PriceMatchAtExact(s: string, p: nat, j: nat, e: nat)
    requires p + |PriceKey| <= j <= |s|
    ensures PriceMatchAt(s, p) == Some(Span(j, e)) <==>
      s[p..p + |PriceKey|] == PriceKey && IsGlue(s[p + |PriceKey|..j]) &&
      NumeralEnd(s, j, OptionalComma) == Some(e)
  {
    var k := p + |PriceKey|;
    if s[p..k] == PriceKey && IsGlue(s[k..j]) && NumeralEnd(s, j, OptionalComma) == Some(e) {
      assert s[j..e][0] == s[j];
      GlueEndComplete(s, k, j);
    }
    if PriceMatchAt(s, p) == Some(Span(j, e)) {
      GlueEndSound(s, k);
    }
  }

  /** `re.search` for the script pattern, started at `from`: where the leftmost match starts. */
  function PriceSearchFrom(s: string, from: nat): (r: Option<nat>)
    ensures r.Some? ==> from <= r.value && PriceMatchAt(s, r.value).Some?
    ensures r.Some? ==> forall p :: from <= p < r.value ==> PriceMatchAt(s, p).None?
    ensures r.None? ==> forall p :: from <= p ==> PriceMatchAt(s, p).None?
    decreases |s| - from
  {
    if from >= |s| then None
    else if PriceMatchAt(s, from).Some? then Some(from)
    else PriceSearchFrom(s, from + 1)
  }

  /** `re.search(pattern, s).group(1)` for the script pattern, or None when it does not match. */
  function PriceSearchText(s: string): (r: Option<string>)
    ensures r.Some? ==> IsNumeral(r.value, OptionalComma) && Contains(s, r.value)
    ensures r.Some? ==> Contains(s, PriceKey)
  {
    match PriceSearchFrom(s, 0)
    case None => None
    case Some(p) =>
      var sp := PriceMatchAt(s, p).value;
      NumeralEndExact(s, sp.start, OptionalComma);
      ContainsSlice(s, sp.start, sp.end);
      ContainsSlice(s, p, p + |PriceKey|);
      Some(s[sp.start..sp.end])
  }

  /**
   * The key, the glue and a numeral follow one another at `p`, `j` and
   * `e`: the script pattern matches at `p` with the group `s[j..e]`.
   */
  ghost predicate PriceEntryAt(s: string, p: nat, j: nat, e: nat)
    requires p + |PriceKey| <= j <= e <= |s|
  {
    s[p..p + |PriceKey|] == PriceKey && IsGlue(s[p + |PriceKey|..j]) && IsNumeral(s[j..e], OptionalComma)
  }

  /** The script pattern matches somewhere in `s`. */
  ghost predicate HasPriceEntry(s: string) {
    exists p: nat, j: nat, e: nat | p + |PriceKey| <= j <= e <= |s| :: PriceEntryAt(s, p, j, e)
  }

  /** Wherever the script pattern can match, the matcher at that position succeeds. */
  lemma PriceEntriesMatch(s: string)
    ensures forall p: nat, j: nat, e: nat | p + |PriceKey| <= j <= e <= |s| ::
      PriceEntryAt(s, p, j, e) ==> PriceMatchAt(s, p).Some?
  {
    forall p: nat, j: nat, e: nat | p + |PriceKey| <= j <= e <= |s| && PriceEntryAt(s, p, j, e)
      ensures PriceMatchAt(s, p).Some?
    {
      NumeralEndExact(s, j, OptionalComma);
      PriceMatchAtExact(s, p, j, NumeralEnd(s, j, OptionalComma).value);
    }
  }

  /** `PriceSearchText` finds nothing exactly when the script pattern matches nowhere. */
  lemma PriceSearchTextNone(s: string)
    ensures PriceSearchText(s).None? <==> !HasPriceEntry(s)
  {
    if PriceSearchFrom(s, 0).None? {
      PriceEntriesMatch(s);
    } else {
      var p := PriceSearchFrom(s, 0).value;
      var sp := PriceMatchAt(s, p).value;
      GlueEndSound(s, p + |PriceKey|);
      PriceMatchAtExact(s, p, sp.start, sp.end);
      NumeralEndExact(s, sp.start, OptionalComma);
      assert PriceEntryAt(s, p, sp.start, sp.end);
    }
  }

  /**
   * The match `re.search` reports for the script pattern: an entry at `p`
   * with no entry at any earlier position, whose group `s[j..e]` is the
   * only place the numeral can start after the glue at `p` and extends as
   * far as a numeral can.
   */
  ghost predicate FirstPriceEntry(s: string, p: nat, j: nat, e: nat)
    requires p + |PriceKey| <= j <= e <= |s|
  {
    PriceEntryAt(s, p, j, e) &&
    (forall q: nat, j': nat, e': nat | q < p && q + |PriceKey| <= j' <= e' <= |s| :: !PriceEntryAt(s, q, j', e')) &&
    (forall j': nat, e': nat | p + |PriceKey| <= j' <= e' <= |s| :: PriceEntryAt(s, p, j', e') ==> j' == j && e' <= e)
  }

  /** The group `PriceSearchText` returns is the numeral of the first entry of the script pattern. */
  lemma PriceSearchTextLeftmost(s: string)
    ensures PriceSearchText(s).Some? ==>
      exists p: nat, j: nat, e: nat | p + |PriceKey| <= j <= e <= |s| ::
        FirstPriceEntry(s, p, j, e) && PriceSearchText(s).value == s[j..e]
  {
    if PriceSearchFrom(s, 0).Some? {
      var p := PriceSearchFrom(s, 0).value;
      var sp := PriceMatchAt(s, p).value;
      var j, e := sp.start, sp.end;
      GlueEndSound(s, p + |PriceKey|);
      PriceMatchAtExact(s, p, j, e);
      NumeralEndExact(s, j, OptionalComma);
      assert PriceEntryAt(s, p, j, e);
      PriceEntriesMatch(s);
      forall j': nat, e': nat | p + |PriceKey| <= j' <= e' <= |s| && PriceEntryAt(s, p, j', e')
        ensures j' == j && e' <= e
      {
        NumeralEndExact(s, j', OptionalComma);
        PriceMatchAtExact(s, p, j', NumeralEnd(s, j', OptionalComma).value);
      }
      assert FirstPriceEntry(s, p, j, e);
    }
  }
}

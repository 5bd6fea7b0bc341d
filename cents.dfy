/**
 * `float(num.replace(',', ''))` for the numerals the scraper matches,
 * computed exactly in hundredths. Every matched numeral has at most two
 * fractional digits, so its value is a whole number of cents, and the
 * comparison with the plausibility band can be made on integers.
 */
module Cents {
  import opened Wrappers
  import opened Text
  import opened Patterns

  /** `t.replace(',', '')`. */
  function StripCommas(t: string): (u: string)
    ensures ',' !in u
    ensures forall c :: c != ',' ==> multiset(u)[c] == multiset(t)[c]
  {
    if t == [] then []
    else
      assert t == [t[0]] + t[1..];
      (if t[0] == ',' then [] else [t[0]]) + StripCommas(t[1..])
  }

  function DigitValue(c: char): nat
    requires IsDigit(c)
  {
    c as int - '0' as int
  }

  /** The number a string of decimal digits denotes. */
  function DigitsValue(ds: string): nat
    requires AllDigits(ds)
  {
    if ds == [] then 0 else DigitsValue(ds[..|ds| - 1]) * 10 + DigitValue(ds[|ds| - 1])
  }

  function Pow10(n: nat): (r: nat)
    ensures r >= 1
  {
    if n == 0 then 1 else 10 * Pow10(n - 1)
  }

  /**
   * `u` is a decimal literal with its point at `k`: at least one digit
   * before it and one or two after it.
   */
  predicate DotAt(u: string, k: nat) {
    1 <= k && k + 2 <= |u| <= k + 3 && u[k] == '.' && AllDigits(u[..k]) && AllDigits(u[k + 1..])
  }

  /** The exact value of the decimal literal `u`, as a real number. */
  ghost function DecimalValue(u: string, k: nat): real
    requires DotAt(u, k)
  {
    DigitsValue(u[..k]) as real + DigitsValue(u[k + 1..]) as real / Pow10(|u| - k - 1) as real
  }

  /**
   * The value of a decimal literal with one or two fractional digits, in
   * hundredths; None for any other text.
   */
  function ParseCents(u: string): Option<nat> {
    if |u| >= 3 && u[|u| - 2] == '.' && AllDigits(u[..|u| - 2]) && IsDigit(u[|u| - 1]) then
      Some(DigitsValue(u[..|u| - 2]) * 100 + DigitValue(u[|u| - 1]) * 10)
    else if |u| >= 4 && u[|u| - 3] == '.' && AllDigits(u[..|u| - 3]) && AllDigits(u[|u| - 2..]) then
      Some(DigitsValue(u[..|u| - 3]) * 100 + DigitsValue(u[|u| - 2..]))
    else
      None
  }

  /** Parsing in hundredths is exact: it gives 100 times the literal's value. */
  lemma ParseCentsExact(u: string, k: nat)
    requires DotAt(u, k)
    ensures ParseCents(u).Some?
    ensures ParseCents(u).value as real == 100.0 * DecimalValue(u, k)
  {
    var frac := u[k + 1..];
    if |u| == k + 2 {
      assert u[..|u| - 2] == u[..k];
      assert frac == [u[|u| - 1]] && frac[..0] == [];
      assert DigitsValue(frac) == DigitValue(u[|u| - 1]);
    } else {
      assert u[|u| - 2] == frac[0];
      assert u[..|u| - 3] == u[..k];
      assert u[|u| - 2..] == frac;
      assert Pow10(2) == 100;
    }
  }

  /** Removing the comma from a matched numeral leaves a decimal literal with its point at 4. */
  lemma StrippedNumeral(t: string, rule: CommaRule)
    requires IsNumeral(t, rule)
    ensures DotAt(StripCommas(t), 4)
  {
    if t[1] == ',' {
      var rest := t[2..];
      assert t[1..][..3][0] == ',';
      NoCommaUnchanged(rest);
      assert t == [t[0]] + ([','] + rest);
      StripCommasCons(',', rest);
      assert StripCommas([','] + rest) == rest;
      StripCommasCons(t[0], [','] + rest);
      assert StripCommas(t) == [t[0]] + rest;
      DotAtAfterDigit(t[0], rest);
    } else {
      var rest := t[1..];
      NoCommaUnchanged(rest);
      assert t == [t[0]] + rest;
      StripCommasCons(t[0], rest);
      assert StripCommas(t) == [t[0]] + rest;
      DotAtAfterDigit(t[0], rest);
    }
  }

  /**
   * `float(num.replace(',', ''))` never fails on a matched numeral, and its
   * value in hundredths is exact.
   */
  lemma StrippedNumeralParses(t: string, rule: CommaRule)
    requires IsNumeral(t, rule)
    ensures DotAt(StripCommas(t), 4)
    ensures ParseCents(StripCommas(t)).Some?
    ensures ParseCents(StripCommas(t)).value as real == 100.0 * DecimalValue(StripCommas(t), 4)
  {
    StrippedNumeral(t, rule);
    ParseCentsExact(StripCommas(t), 4);
  }

  lemma DotAtAfterDigit(c: char, rest: string)
    requires IsDigit(c) && IsFractionTail(rest)
    ensures DotAt([c] + rest, 4)
  {
    var u := [c] + rest;
    assert u[..4] == [c] + rest[..3];
    assert u[5..] == rest[4..];
  }

  lemma StripCommasCons(c: char, rest: string)
    ensures StripCommas([c] + rest) == (if c == ',' then [] else [c]) + StripCommas(rest)
  {
    assert ([c] + rest)[1..] == rest;
  }

  lemma {:induction false} NoCommaUnchanged(u: string)
    requires IsFractionTail(u)
    ensures StripCommas(u) == u
  {
    assert forall i :: 0 <= i < |u| ==> u[i] != ',' by {
      forall i | 0 <= i < |u| ensures u[i] != ',' {
        if i < 3 { assert u[..3][i] == u[i]; }
        else if i > 3 { assert u[4..][i - 4] == u[i]; }
      }
    }
    StripCommasIdentity(u);
  }

  lemma {:induction false} StripCommasIdentity(u: string)
    requires forall i :: 0 <= i < |u| ==> u[i] != ','
    ensures StripCommas(u) == u
    decreases |u|
  {
    if u != [] {
      StripCommasIdentity(u[1..]);
    }
  }
}

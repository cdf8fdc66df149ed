/**
  packages/core/src/decimal.ts: money as decimal strings and as whole minor units. `MINOR_UNITS` stands as the literal
  100 wherever it multiplies or divides, which keeps the arithmetic linear.
*/
module Decimal {
  import opened Prelude
  import opened Digits

  predicate IsWhole(s: string) { s != [] && AllDigits(s) }

  /** The first dot of a string from `i` on, or its length. */
  function DotFrom(s: string, i: nat): (k: nat)
    requires i <= |s|
    ensures i <= k <= |s| && (k < |s| ==> s[k] == '.') && forall j :: i <= j < k ==> s[j] != '.'
    decreases |s| - i
  {
    if i == |s| || s[i] == '.' then i else DotFrom(s, i + 1)
  }

  function DotAt(s: string): nat { DotFrom(s, 0) }

  function Unsigned(s: string): string { if s != [] && s[0] == '-' then s[1..] else s }

  /** `DECIMAL_PATTERN`. */
  predicate IsDecimal(s: string) {
    var body := Unsigned(s);
    var dot := DotAt(body);
    IsWhole(body[..dot]) && (dot < |body| ==> IsWhole(body[dot + 1..]))
  }

  /** Two digits of a fraction: padded with zeros, further ones cut off. */
  function Hundredths(fraction: string): (h: nat)
    requires AllDigits(fraction)
    ensures h < 100
  {
    if fraction == [] then 0
    else if |fraction| == 1 then 10 * DigitValue(fraction[0])
    else 10 * DigitValue(fraction[0]) + DigitValue(fraction[1])
  }

  function Magnitude(body: string): nat
    requires IsDecimal(body) && (body == [] || body[0] != '-')
  {
    var dot := DotAt(body);
    NatValue(body[..dot]) * 100 + Hundredths(if dot < |body| then body[dot + 1..] else [])
  }

  /** `toMinorUnits`; None is the error it throws. */
  function ToMinorUnits(value: string): Option<int> {
    if !IsDecimal(value) then None
    else
      NoSecondSign(value);
      Some(Signed(value[0] == '-', Magnitude(Unsigned(value))))
  }

  lemma NoSecondSign(value: string)
    requires IsDecimal(value)
    ensures value != [] && IsDecimal(Unsigned(value)) && Unsigned(value) != [] && Unsigned(value)[0] != '-'
  {
    var body := Unsigned(value);
    assert body[..DotAt(body)][0] == body[0] && IsDigit(body[0]);
  }

  function TwoDigits(n: nat): string
    requires n < 100
  {
    [DigitChar(n / 10), DigitChar(n % 10)]
  }

  function Signed(negative: bool, magnitude: int): int { if negative then -magnitude else magnitude }

  function Sign(negative: bool): string { if negative then "-" else "" }

  /** `fromMinorUnits`. */
  function FromMinorUnits(minor: int): string {
    var magnitude := if minor < 0 then -minor else minor;
    Sign(minor < 0) + (NatText(magnitude / 100) + "." + TwoDigits(magnitude % 100))
  }

  lemma DotAfter(whole: string, fraction: string)
    requires AllDigits(whole)
    ensures DotAt(whole + "." + fraction) == |whole|
  {
    var text := whole + "." + fraction;
    assert text[|whole|] == '.' && forall j :: 0 <= j < |whole| ==> text[j] == whole[j];
  }

  lemma MagnitudeOf(digits: string, fraction: string)
    requires IsWhole(digits) && IsWhole(fraction)
    ensures var body := digits + "." + fraction;
      && IsDigit(body[0]) && IsDecimal(body) && Magnitude(body) == NatValue(digits) * 100 + Hundredths(fraction)
  {
    var body := digits + "." + fraction;
    assert body[0] == digits[0] && IsDigit(body[0]);
    DotAfter(digits, fraction);
    assert body[..|digits|] == digits && body[|digits| + 1..] == fraction;
  }

  lemma SignedReads(negative: bool, body: string, magnitude: nat)
    requires body != [] && IsDigit(body[0]) && IsDecimal(body) && Magnitude(body) == magnitude
    ensures ToMinorUnits(Sign(negative) + body) == Some(Signed(negative, magnitude))
  {
    var text := Sign(negative) + body;
    assert Unsigned(text) == body && Unsigned(body) == body;
    assert text[0] == if negative then '-' else body[0];
  }

  lemma ReadsDigits(negative: bool, digits: string, fraction: string, magnitude: nat)
    requires IsWhole(digits) && IsWhole(fraction)
    requires magnitude == NatValue(digits) * 100 + Hundredths(fraction)
    ensures ToMinorUnits(Sign(negative) + (digits + "." + fraction)) == Some(Signed(negative, magnitude))
  {
    MagnitudeOf(digits, fraction);
    SignedReads(negative, digits + "." + fraction, magnitude);
  }

  /** Reading any decimal that is written as sign, whole part, dot and fraction. */
  lemma ReadsWritten(negative: bool, whole: nat, fraction: string)
    requires IsWhole(fraction)
    ensures ToMinorUnits(Sign(negative) + (NatText(whole) + "." + fraction))
      == Some(Signed(negative, whole * 100 + Hundredths(fraction)))
  {
    NatTextValue(whole);
    var digits, magnitude := NatText(whole), whole * 100 + Hundredths(fraction);
    assert NatValue(digits) == whole;
    ReadsDigits(negative, digits, fraction, magnitude);
  }

  lemma TwoDigitsAreHundredths(n: nat)
    requires n < 100
    ensures IsWhole(TwoDigits(n)) && Hundredths(TwoDigits(n)) == n
  {
  }

  /** `toMinorUnits` undoes `fromMinorUnits` on every integer. */
  lemma MinorUnitsRoundTrip(minor: int)
    ensures ToMinorUnits(FromMinorUnits(minor)) == Some(minor)
  {
    var magnitude := if minor < 0 then -minor else minor;
    var whole, rest := magnitude / 100, magnitude % 100;
    TwoDigitsAreHundredths(rest);
    ReadsWritten(minor < 0, whole, TwoDigits(rest));
    assert Signed(minor < 0, whole * 100 + rest) == minor;
  }

  /** Digits behind the second place of the fraction do not count, and a missing second one counts as zero. */
  lemma FractionIsCut(negative: bool, whole: nat, fraction: string, cents: nat)
    requires IsWhole(fraction)
    requires cents == 10 * DigitValue(fraction[0]) + if |fraction| > 1 then DigitValue(fraction[1]) else 0
    ensures ToMinorUnits(Sign(negative) + (NatText(whole) + "." + fraction))
      == Some(Signed(negative, whole * 100 + cents))
  {
    ReadsWritten(negative, whole, fraction);
    assert Hundredths(fraction) == cents;
  }

  /** `subtract`. */
  function Subtract(a: string, b: string): Option<string> {
    var x, y := ToMinorUnits(a), ToMinorUnits(b);
    if x.None? || y.None? then None else Some(FromMinorUnits(x.value - y.value))
  }

  /** Subtracting is exact: adding the difference back gives the first operand. */
  lemma SubtractIsExact(a: string, b: string)
    requires ToMinorUnits(a).Some? && ToMinorUnits(b).Some?
    ensures ToMinorUnits(Subtract(a, b).value) == Some(ToMinorUnits(a).value - ToMinorUnits(b).value)
  {
    var difference := ToMinorUnits(a).value - ToMinorUnits(b).value;
    assert Subtract(a, b) == Some(FromMinorUnits(difference));
    MinorUnitsRoundTrip(difference);
  }

  // ----- Prices -----

  type Price = s: string | IsDecimal(s) witness "0"

  function Minor(price: Price): int { ToMinorUnits(price).value }

  function Minors(prices: seq<Price>): seq<int> {
    seq(|prices|, i requires 0 <= i < |prices| => Minor(prices[i]))
  }

  /** The position the reduce of `cheapestByMinorUnits` ends on. */
  function LeastIndex(values: seq<int>): (k: Option<nat>)
    ensures k.Some? ==> k.value < |values|
  {
    if values == [] then None
    else
      var n := |values| - 1;
      var min := LeastIndex(values[..n]);
      if min.None? || values[n] < values[min.value] then Some(n) else min
  }

  function Cheapest(prices: seq<Price>): Option<nat> { LeastIndex(Minors(prices)) }

  lemma {:induction false} LeastIndexIsFirstLeast(values: seq<int>)
    ensures LeastIndex(values).None? <==> values == []
    ensures values != [] ==> var k := LeastIndex(values).value;
      && (forall i :: 0 <= i < |values| ==> values[k] <= values[i])
      && (forall i :: 0 <= i < k ==> values[k] < values[i])
  {
    if values != [] {
      LeastIndexIsFirstLeast(values[..|values| - 1]);
    }
  }

  /** `cheapestByMinorUnits` picks the least price of all, and the first row that has it. */
  lemma CheapestIsFirstLeast(prices: seq<Price>)
    requires prices != []
    ensures Cheapest(prices).Some? && Cheapest(prices).value < |prices|
    ensures var k := Cheapest(prices).value;
      && (forall i :: 0 <= i < |prices| ==> Minor(prices[k]) <= Minor(prices[i]))
      && (forall i :: 0 <= i < k ==> Minor(prices[k]) < Minor(prices[i]))
  {
    LeastIndexIsFirstLeast(Minors(prices));
    var k := Cheapest(prices).value;
    forall i | 0 <= i < |prices|
      ensures Minor(prices[k]) <= Minor(prices[i]) && (i < k ==> Minor(prices[k]) < Minor(prices[i]))
    {
      assert Minors(prices)[k] == Minor(prices[k]) && Minors(prices)[i] == Minor(prices[i]);
    }
  }

  // ----- Percentages -----

  /** BigInt division truncates towards zero. */
  function TruncatingDiv(a: int, b: int): int
    requires b > 0
  {
    if a >= 0 then a / b else -(-a / b)
  }

  function Tenths(from: int, to: int): int
    requires from != 0
  {
    TruncatingDiv((to - from) * 1000, if from < 0 then -from else from)
  }

  /** A number of tenths with its one decimal place. */
  function TenthsText(tenths: int): string {
    var magnitude := if tenths < 0 then -tenths else tenths;
    Sign(tenths < 0) + (NatText(magnitude / 10) + "." + NatText(magnitude % 10))
  }

  /** `percentChange`: None from zero. */
  function PercentChange(from: Price, to: Price): Option<string> {
    if Minor(from) == 0 then None else Some(TenthsText(Tenths(Minor(from), Minor(to))))
  }

  lemma TenthsTextValue(tenths: int)
    ensures ToMinorUnits(TenthsText(tenths)) == Some(10 * tenths)
  {
    var magnitude := if tenths < 0 then -tenths else tenths;
    ReadsWritten(tenths < 0, magnitude / 10, NatText(magnitude % 10));
    assert magnitude % 10 < 10;
  }

  /** The text shows its tenths exactly: read back as a decimal it is a hundred times the percentage. */
  lemma PercentTextValue(from: Price, to: Price)
    requires Minor(from) != 0
    ensures ToMinorUnits(PercentChange(from, to).value) == Some(10 * Tenths(Minor(from), Minor(to)))
  {
    TenthsTextValue(Tenths(Minor(from), Minor(to)));
  }
}

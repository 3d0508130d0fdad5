/** The static foreign-exchange table behind `effectiveFxRate`, and the
    two-decimal rounding applied to it before it is reported. Rates are exact
    Dafny reals rather than binary doubles. */
module FxRates {
  import opened Wrappers
  import opened Ascii

  /** `lookupFxRate(currency)`: USD, EUR and INR, matched ignoring case, have
      their own rate; a null or any other code falls back to 1.0. */
  function LookupFxRate(currency: Option<string>): (rate: real)
    ensures rate == 0.92 <==> currency.Some? && EqualsIgnoreCase(currency.value, "EUR")
    ensures rate == 83.5 <==> currency.Some? && EqualsIgnoreCase(currency.value, "INR")
    ensures rate == 1.0 <==>
      currency.None? || !(EqualsIgnoreCase(currency.value, "EUR") || EqualsIgnoreCase(currency.value, "INR"))
  {
    if currency.None? then 1.0
    else
      var code := ToUpper(currency.value);
      MatchesUpperLiteral(currency.value, "EUR");
      MatchesUpperLiteral(currency.value, "INR");
      if code == "USD" then 1.0
      else if code == "EUR" then 0.92
      else if code == "INR" then 83.5
      else 1.0
  }

  /** Every rate the table can produce has at most two decimals. */
  lemma LookupFxRateHasTwoDecimals(currency: Option<string>)
    ensures HasDecimals(LookupFxRate(currency), 2)
  {
    var rate := LookupFxRate(currency);
    assert IsWhole(rate * 100.0);
  }

  function Pow10(n: nat): (p: nat)
    ensures p >= 1
  {
    if n == 0 then 1 else 10 * Pow10(n - 1)
  }

  /** The factor `10^places` by which `round` scales its argument. */
  function Scale(places: nat): (f: real)
    ensures f >= 1.0
  {
    Pow10(places) as real
  }

  predicate IsWhole(x: real) {
    x.Floor as real == x
  }

  /** True when `v` is a whole number of units of `10^-places`. */
  predicate HasDecimals(v: real, places: nat) {
    IsWhole(v * Scale(places))
  }

  /** `Math.round(y)`: the nearest whole number, halves going up. */
  function MathRound(y: real): (k: int)
    ensures -0.5 <= y - k as real < 0.5
  {
    (y + 0.5).Floor
  }

  /** The whole number of `10^-places` units that `round` keeps:
      `Math.round(value * factor)`. */
  function RoundedUnits(value: real, places: nat): (k: int)
    ensures -0.5 <= value * Scale(places) - k as real < 0.5
  {
    MathRound(value * Scale(places))
  }

  /** `round(value, places)`: a negative `places` is rejected (the source
      throws `IllegalArgumentException`); otherwise the value is rounded to
      `places` decimals, halves upward, as `Math.round(value * 10^places) /
      10^places` does. */
  function Round(value: real, places: int): (r: Option<real>)
    ensures r.Some? <==> places >= 0
    ensures r.Some? ==> HasDecimals(r.value, places)
    ensures r.Some? ==> -0.5 <= value * Scale(places) - r.value * Scale(places) < 0.5
  {
    if places < 0 then None
    else
      UnitsHaveDecimals(RoundedUnits(value, places), places);
      Some(RoundedUnits(value, places) as real / Scale(places))
  }

  /** A whole number of `10^-places` units has `places` decimals. */
  lemma UnitsHaveDecimals(k: int, places: nat)
    ensures (k as real / Scale(places)) * Scale(places) == k as real
    ensures HasDecimals(k as real / Scale(places), places)
  {
  }

  /** A value that already has `places` decimals is left unchanged. */
  lemma RoundKeepsExactValue(value: real, places: nat)
    requires HasDecimals(value, places)
    ensures Round(value, places) == Some(value)
  {
    var y := value * Scale(places);
    assert IsWhole(y);
    var k := y.Floor;
    assert y == k as real;
    assert (k as real + 0.5).Floor == k;
    assert RoundedUnits(value, places) == k;
    assert k as real / Scale(places) == value;
  }

  /** Rounding a rounded value changes nothing. */
  lemma RoundIdempotent(value: real, places: nat)
    ensures Round(Round(value, places).value, places) == Round(value, places)
  {
    RoundKeepsExactValue(Round(value, places).value, places);
  }

  /** The reported rate: rounding to two decimals leaves every table rate as it is. */
  lemma RoundedRateIsTableRate(currency: Option<string>)
    ensures Round(LookupFxRate(currency), 2) == Some(LookupFxRate(currency))
  {
    LookupFxRateHasTwoDecimals(currency);
    RoundKeepsExactValue(LookupFxRate(currency), 2);
  }
}

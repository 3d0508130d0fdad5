# Loyalty points quote — Dafny model

This project models the points-quote calculation of the loyalty points
service: the `/v1/points/quote` request handler of `LoyaltyPointsService`
and its currency lookup `lookupFxRate`. Given a parsed JSON request body,
the handler rejects a body without `fareAmount` with status 400 and the
error "Missing fareAmount". Otherwise it fills in the defaults
(`currency` USD, `cabinClass` ECONOMY, `customerTier` NONE, `promoCode`
null) and computes a quote:

- the base points, `(int) Math.floor(fareAmount)`;
- a tier bonus of 15, 25 or 50 percent for SILVER, GOLD or PLATINUM,
  matched ignoring case;
- a 25 percent promotion bonus when the promo code is SUMMER25, ignoring
  case, which also adds the warning `PROMO_EXPIRES_SOON`;
- the total of the three;
- the static FX rate of the currency (USD 1.0, EUR 0.92, INR 83.5,
  anything else 1.0), rounded to two decimals.

The model is a pure function, `PointsQuote.HandleQuote`, from an optional
`RequestBody` to either a `Quote` or an `ApiError`. Absent JSON keys are
`None`. Its parts are:

- `wrappers.dfy`: `Option` and `Result`.
- `java_int.dfy`: Java `int` arithmetic written out over unbounded
  integers. It covers the saturating cast `(int) Math.floor`, the 32-bit
  wrap-around of `*` and `+`, and `/`, which rounds toward zero.
- `ascii.dfy`: `toUpperCase` and `equalsIgnoreCase` over ASCII.
- `tiers.dfy`: the tier table.
- `fx_rates.dfy`: the currency table and the `round` helper, on exact
  reals.
- `quote.dfy`: validation, defaults, the computation and the handler.
- `quote_properties.dfy`: an independent description of the expected
  quote in exact arithmetic, and the lemmas that connect it to the
  handler.
- `quote_examples.dfy`: the scenarios of the service's component tests,
  plus a negative fare and an overflowing fare.

The handler computes on Java `int`s, and so does the model: a large
fare's products wrap around rather than being excluded by a precondition.
The exact-arithmetic properties (`ComputeQuoteIsExact`, `TotalBounds`, …)
therefore carry the hypothesis `SafeFare`: the fare's floor is at most
`IntMax / 50` = 42,949,672 in magnitude, the range in which
`basePoints * 50` cannot overflow. `PlatinumOverflowExample` shows a
result outside that range.

Two consequences of what the handler checks:

- The handler checks only that the `fareAmount` key is present
  (LoyaltyPointsService.java:26), so negative fares are quoted
  (`NegativeFareExample`).
- The handler checks only `body == null`; a malformed body is handled
  inside Vert.x (see "Left out").

## Model

| member | source | states |
|---|---|---|
| PointsQuote.Validate | src/main/java/org/LoyaltyPointsService.java:23-37 | the request fails exactly when the body or its `fareAmount` key is absent, always with the 400 "Missing fareAmount" error; otherwise the fare and promo code pass through unchanged, and currency, cabin class and tier are the given value or, when absent, USD, ECONOMY and NONE |
| PointsQuote.ComputeQuote | src/main/java/org/LoyaltyPointsService.java:39-69 | every points field is a Java `int`; the total is the wrapped sum of base, tier and promo bonus; the warning list is `[PROMO_EXPIRES_SOON]` exactly when the promotion applies, and otherwise empty with no promo bonus; the reported FX rate is the table rate, which rounding leaves unchanged |
| PointsQuote.HandleQuote | src/main/java/org/LoyaltyPointsService.java:22-74 | the response is the 400 error exactly when the body or `fareAmount` is missing; on success the warning is present exactly when the promo code is SUMMER25 ignoring case |
| PointsQuote.PromoApplies | src/main/java/org/LoyaltyPointsService.java:51 | the promotion applies exactly when a promo code is given whose upper-case form is SUMMER25 |
| PointsQuote.PercentOf | src/main/java/org/LoyaltyPointsService.java:47-52 | `(basePoints * pct) / 100` always yields a Java `int` |
| PointsQuote.ReportedFxRate | src/main/java/org/LoyaltyPointsService.java:56-65 | the reported `effectiveFxRate`, `round(lookupFxRate(currency), 2)`, is the table rate of the currency |
| PointsQuote.StatusCode | src/main/java/org/LoyaltyPointsService.java:26-31 | a successful quote is answered with 200 and an error with its own status |
| JavaInt.Wrap | src/main/java/org/LoyaltyPointsService.java:47-58 | an `int` `+` or `*` yields a value in the `int` range, and the exact result itself when that fits; that the two differ by a multiple of 2^32 is `JavaInt.WrapIsCongruent` |
| JavaInt.WrapIsCongruent | src/main/java/org/LoyaltyPointsService.java:47-58 | a wrapped `int` result differs from the exact one by a multiple of 2^32 |
| JavaInt.WrapCongruent | src/main/java/org/LoyaltyPointsService.java:58 | exact values that differ by a multiple of 2^32 wrap to the same `int` |
| JavaInt.WrapOfPartialSum | src/main/java/org/LoyaltyPointsService.java:58 | wrapping the partial sum `basePoints + tierBonus` does not change the wrapped total |
| JavaInt.FloorToInt | src/main/java/org/LoyaltyPointsService.java:39 | the base is an `int` with `base <= fare < base + 1`, except where it saturates at the `int` bounds |
| JavaInt.TruncDiv | src/main/java/org/LoyaltyPointsService.java:47-52 | the quotient leaves a remainder smaller than the divisor with the sign of the dividend, which is rounding toward zero |
| JavaInt.TruncDivUnique | src/main/java/org/LoyaltyPointsService.java:47-52 | rounding toward zero determines the quotient uniquely |
| JavaInt.TruncDivOfNonNegative | src/main/java/org/LoyaltyPointsService.java:47 | on a non-negative dividend and a positive divisor, Java's division agrees with Dafny's |
| Ascii.ToUpper | src/main/java/org/LoyaltyPointsService.java:41 | upper-casing keeps the length, maps each character through `UpperChar`, and leaves no lower-case letter |
| Ascii.EqualsIgnoreCase | src/main/java/org/LoyaltyPointsService.java:51 | every string equals itself ignoring case; `EqualsIgnoreCaseIffSameUpper` characterises the comparison fully |
| Ascii.EqualsIgnoreCaseIffSameUpper | src/main/java/org/LoyaltyPointsService.java:51 | two strings are equal ignoring case if and only if their upper-case forms are equal |
| Ascii.ToUpperOfNoLower | src/main/java/org/LoyaltyPointsService.java:42-44 | a string without lower-case letters, like every `case` label, is its own upper-case form |
| Ascii.ToUpperIdempotent | src/main/java/org/LoyaltyPointsService.java:41 | upper-casing twice is upper-casing once |
| Ascii.MatchesUpperLiteral | src/main/java/org/LoyaltyPointsService.java:88-92 | a `switch` on `s.toUpperCase()` hits an upper-case label exactly when `s` equals it ignoring case |
| Tiers.BonusPercent | src/main/java/org/LoyaltyPointsService.java:42-45 | each tier's percentage lies in 0..50, and it is 0 only for the default tier |
| Tiers.ParseTier | src/main/java/org/LoyaltyPointsService.java:41-46 | SILVER, GOLD and PLATINUM are recognised exactly when the tier equals them ignoring case |
| Tiers.TierPercent | src/main/java/org/LoyaltyPointsService.java:36-46 | the percentage is in {0, 15, 25, 50}: 15, 25 or 50 exactly when the tier is SILVER, GOLD or PLATINUM ignoring case, and 0 exactly when it is none of them |
| Tiers.ParseTierIgnoresCase | src/main/java/org/LoyaltyPointsService.java:41 | tiers equal ignoring case select the same table entry |
| FxRates.LookupFxRate | src/main/java/org/LoyaltyPointsService.java:86-94 | the rate is 0.92 exactly for EUR and 83.5 exactly for INR, ignoring case, and 1.0 exactly for null, USD and every other code |
| FxRates.LookupFxRateHasTwoDecimals | src/main/java/org/LoyaltyPointsService.java:89-92 | every table rate has at most two decimals |
| FxRates.Pow10 | src/main/java/org/LoyaltyPointsService.java:98 | `10^places` is a whole number of at least 1 |
| FxRates.Scale | src/main/java/org/LoyaltyPointsService.java:98 | the factor `(long) Math.pow(10, places)` is at least 1, so dividing by it is defined |
| FxRates.MathRound | src/main/java/org/LoyaltyPointsService.java:100 | `Math.round` lands within half a unit of its argument, with halves going up |
| FxRates.RoundedUnits | src/main/java/org/LoyaltyPointsService.java:98-100 | the kept units are within half a unit of the scaled value |
| FxRates.Round | src/main/java/org/LoyaltyPointsService.java:96-102 | a negative `places` is rejected; otherwise the result has `places` decimals and lies within half a unit of the value, with halves going up |
| FxRates.UnitsHaveDecimals | src/main/java/org/LoyaltyPointsService.java:101 | dividing whole units by the factor gives a value with `places` decimals that scales back to those units |
| FxRates.RoundKeepsExactValue | src/main/java/org/LoyaltyPointsService.java:96-102 | a value that already has `places` decimals is returned unchanged |
| FxRates.RoundIdempotent | src/main/java/org/LoyaltyPointsService.java:96-102 | rounding a rounded value changes nothing |
| FxRates.RoundedRateIsTableRate | src/main/java/org/LoyaltyPointsService.java:56-65 | `round(lookupFxRate(c), 2)` is the table rate itself |
| QuoteProperties.PercentOfExact | src/main/java/org/LoyaltyPointsService.java:47-52 | within the safe range, `(basePoints * pct) / 100` is exactly `pct` percent of the base rounded toward zero, and at most half of it in magnitude |
| QuoteProperties.ComputeQuoteIsExact | src/main/java/org/LoyaltyPointsService.java:39-69 | on a safe fare the computed quote meets the exact description: the base is the fare's floor, each bonus is its truncated percentage, the total is the exact sum, and the warning and rate follow the tables |
| QuoteProperties.ExactQuoteIsUnique | src/main/java/org/LoyaltyPointsService.java:39-69 | the exact description determines the quote uniquely |
| QuoteProperties.ExactQuoteIffComputed | src/main/java/org/LoyaltyPointsService.java:39-69 | on a safe fare, a quote meets the exact description if and only if it is the computed one |
| QuoteProperties.TotalBounds | src/main/java/org/LoyaltyPointsService.java:47-58 | on a safe fare with a non-negative base, base <= total <= base + base/2 + base/4; with a negative base the mirror-image bounds hold |
| QuoteProperties.SumOfSharesBounds | src/main/java/org/LoyaltyPointsService.java:58 | adding a half share and a quarter share on the base's side keeps the total within those bounds |
| QuoteProperties.HandleQuoteIgnoresCaseAndCabin | src/main/java/org/LoyaltyPointsService.java:33-69 | bodies that agree on the fare and agree, up to case, on currency, tier and promo code get identical responses, whatever their cabin classes |
| QuoteProperties.ComputeQuoteReadsOnly | src/main/java/org/LoyaltyPointsService.java:35-69 | the quote depends only on the fare, the tier percentage, the currency rate and whether the promotion applies, so `cabinClass` has no effect |
| QuoteProperties.SameTierUpToCase | src/main/java/org/LoyaltyPointsService.java:36-41 | tiers that are both absent or equal ignoring case get the same percentage |
| QuoteProperties.SameRateUpToCase | src/main/java/org/LoyaltyPointsService.java:34 | currencies that are both absent or equal ignoring case get the same rate |
| QuoteProperties.SamePromoUpToCase | src/main/java/org/LoyaltyPointsService.java:37-51 | promo codes that are both absent or equal ignoring case either both apply or both do not |
| QuoteProperties.AbsentFieldsActAsDefaults | src/main/java/org/LoyaltyPointsService.java:34-36 | leaving out currency, cabin class and tier is the same as sending USD, ECONOMY and NONE |
| QuoteProperties.BaseOnlyQuote | src/main/java/org/LoyaltyPointsService.java:39-58 | on a fare whose floor fits in an `int`, a request whose tier earns nothing and whose promotion does not apply has no bonuses, no warning, and a total equal to the fare's floor |
| QuoteProperties.NoBonusWithoutTierOrPromo | src/main/java/org/LoyaltyPointsService.java:36-58 | with no tier and no promo code on a fare whose floor fits in an `int`, the quote has no bonuses, no warning, and a total equal to the fare's floor |
| QuoteExamples.UsdRate | src/main/java/org/LoyaltyPointsService.java:89 | USD has rate 1.0 |
| QuoteExamples.EurRate | src/main/java/org/LoyaltyPointsService.java:90 | EUR has rate 0.92 |
| QuoteExamples.TierPercents | src/main/java/org/LoyaltyPointsService.java:41-46 | NONE earns 0 percent, SILVER (in either case) 15, GOLD 25 and PLATINUM 50 |
| QuoteExamples.Summer25Applies | src/main/java/org/LoyaltyPointsService.java:51 | both "SUMMER25" and "Summer25" trigger the promotion |
| QuoteExamples.ResponseOfValidBody | src/main/java/org/LoyaltyPointsService.java:22-74 | a body that passes validation is answered with the quote of its defaulted request |
| QuoteExamples.SilverWithPromoExample | src/main/test/java/org/emirates/loyaltyservicetest.java:46-77 | 1234.50 USD, SILVER, SUMMER25 gives 1234 / 185 / 308 / 1727, rate 1.0 and the expiry warning |
| QuoteExamples.MissingFareExample | src/main/test/java/org/emirates/loyaltyservicetest.java:80-96 | a body without `fareAmount` gets status 400 and "Missing fareAmount" |
| QuoteExamples.GoldWithoutPromoExample | src/main/test/java/org/emirates/loyaltyservicetest.java:99-127 | 1000.0 GOLD without a promotion gives 1000 / 250 / 0 / 1250 and no warning |
| QuoteExamples.EuroRateExample | src/main/test/java/org/emirates/loyaltyservicetest.java:130-155 | 500.0 EUR, tier NONE gives 500 points with no bonus and the rate 0.92 |
| QuoteExamples.DefaultsExample | src/main/test/java/org/emirates/loyaltyservicetest.java:158-180 | a body with only a fare of 200.0 gives 200 points, no bonus, rate 1.0 |
| QuoteExamples.LowerCaseExample | src/main/java/org/LoyaltyPointsService.java:41-51 | "eur", "silver" and "Summer25" are recognised like their upper-case forms |
| QuoteExamples.NegativeFareExample | src/main/java/org/LoyaltyPointsService.java:26-47 | a fare of -1.5 is accepted: the base is -2 and SILVER's 15 percent of it truncates to 0 |
| QuoteExamples.PlatinumOverflowExample | src/main/java/org/LoyaltyPointsService.java:39-58 | at a fare of 50,000,000 the PLATINUM product wraps around, giving a tier bonus of -17,949,672 and a total of 32,050,328 |

## Left out

- HTTP and startup plumbing is not modelled: the router, `BodyHandler`,
  `main`, binding port 8080, the startup message, the Content-Type header
  and JSON encoding of the response (LoyaltyPointsService.java:12-21,
  71-83). It is framework I/O. A response is modelled as a
  `Result<Quote, ApiError>` plus `StatusCode`.
- Keys present with an explicit JSON `null` value are not modelled: an
  `Option` field is either absent or holds a value, so it cannot represent
  a key that is present but null. Taking Vert.x's `getString` and
  `getDouble` to return null for such a key, the handler behaves as
  follows. The key passes the presence check at line 26. A null
  `fareAmount` makes the handler throw when line 33 unboxes it into a
  `double`. A null `customerTier` makes it throw at
  `customerTier.toUpperCase()` on line 41. An exception in the handler is
  answered with status 500, not 400. A null `promoCode` means no
  promotion (line 51). A null `currency` takes `lookupFxRate`'s null
  branch (line 87), which `FxRates.LookupFxRate` models for
  `currency == None`. A null `cabinClass` is never read.
- JSON coercion is not modelled. The body is an already-typed record, so
  wrongly typed values and a malformed body, which are handled inside
  Vert.x (`getBodyAsJson`, `getDouble`, `getString`), are not part of this
  model.
- Floating point is not modelled. `fareAmount` and the FX rates are exact
  reals, but the source holds them as `double`. A decimal fare is first
  rounded to the nearest double, which can change its floor only within
  one ulp of a whole number. `round` is modelled exactly:
  `(long) Math.pow(10, places)`, the `long` saturation of `Math.round` and
  the rounding error of the final double division are not.
- Ascii.ToUpper: upper-cases only ASCII letters. Java's `toUpperCase` is
  Unicode-aware and depends on the default locale; for example `'ı'`
  upper-cases to `'I'`, and under a Turkish locale `"silver"` becomes
  `"SİLVER"` and `"inr"` becomes `"İNR"`, so the tier and currency
  switches (lines 41 and 88) miss them.
- Ascii.EqualsIgnoreCase: compares only ASCII letters ignoring case.
  Java's `equalsIgnoreCase` also folds non-ASCII letters (`'ſ'` matches
  `'S'`), but it compares characters with `Character.toUpperCase` and
  `toLowerCase`, which do not depend on the locale, so the promo-code
  match (line 51) is unaffected by a Turkish locale.
- FxRates.Pow10: its contract states only that the power is at least 1,
  which is what `Round` needs; that it is `10^places` is its definition.
- Ascii.EqualsIgnoreCase: its own contract states only that a string
  equals itself ignoring case; the full comparison is stated by
  `Ascii.EqualsIgnoreCaseIffSameUpper`, kept apart so that proofs which
  mention the predicate need not unfold `ToUpper`.
- JavaInt.TruncDiv: is exact division rounded toward zero, and does not
  model the one overflowing `int` division, `Integer.MIN_VALUE / -1`. The
  service only ever divides by 100.
- QuoteProperties.ComputeQuoteIsExact: holds only on a `SafeFare`. Beyond
  that range the handler's `int` arithmetic wraps, and
  `PlatinumOverflowExample` gives the resulting values.
- QuoteProperties.ExactQuoteIffComputed: holds only on a `SafeFare`, for
  the same reason.
- QuoteProperties.TotalBounds: holds only on a `SafeFare`, for the same
  reason.
- QuoteProperties.NoBonusWithoutTierOrPromo: holds only when the fare's
  floor fits in an `int`. Beyond that `(int) Math.floor` saturates, so the
  base is no longer the floor; no product can overflow, since there is no
  bonus.
- QuoteProperties.BaseOnlyQuote: holds only when the fare's floor fits in
  an `int`, for the same reason.

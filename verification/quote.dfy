/** The `/v1/points/quote` handler of the loyalty points service: validation
    of the request body, field defaults, and the points and FX-rate
    computation, as one pure function from the parsed body to either a quote
    or the 400 error. */
module PointsQuote {
  import opened Wrappers
  import opened JavaInt
  import opened Ascii
  import opened Tiers
  import opened FxRates

  /** The JSON request body as the handler sees it; `None` is an absent key. */
  datatype RequestBody = RequestBody(
    fareAmount: Option<real>,
    currency: Option<string>,
    cabinClass: Option<string>,
    customerTier: Option<string>,
    promoCode: Option<string>)

  /** A request that passed validation, with every default filled in;
      `promoCode` stays optional because its default is `null`. */
  datatype QuoteRequest = QuoteRequest(
    fareAmount: real,
    currency: string,
    cabinClass: string,
    customerTier: string,
    promoCode: Option<string>)

  /** The points breakdown returned with status 200. */
  datatype Quote = Quote(
    basePoints: int,
    tierBonus: int,
    promoBonus: int,
    totalPoints: int,
    effectiveFxRate: real,
    warnings: seq<string>)

  /** An error response: its HTTP status and the `error` message. */
  datatype ApiError = ApiError(status: int, message: string)

  const MissingFareAmount := ApiError(400, "Missing fareAmount")
  const StatusOk := 200

  const DefaultCurrency := "USD"
  const DefaultCabinClass := "ECONOMY"
  const DefaultTier := "NONE"

  const PromoSummer25 := "SUMMER25"
  const PromoPercent := 25
  const PromoExpiresSoon := "PROMO_EXPIRES_SOON"
  const FxPlaces := 2

  /** `field` is the given value when the key is present, and `default` otherwise. */
  predicate Defaulted(field: string, given: Option<string>, default: string) {
    (given.Some? ==> field == given.value) && (given.None? ==> field == default)
  }

  /** The only check the handler makes: a body is present and has a
      `fareAmount` key. Otherwise the request is rejected with 400; if it
      passes, absent fields take their defaults. */
  function Validate(body: Option<RequestBody>): (r: Result<QuoteRequest, ApiError>)
    ensures r.Failure? <==> body.None? || body.value.fareAmount.None?
    ensures r.Failure? ==> r.error == MissingFareAmount
    ensures r.Success? ==> r.value.fareAmount == body.value.fareAmount.value
    ensures r.Success? ==> r.value.promoCode == body.value.promoCode
    ensures r.Success? ==> Defaulted(r.value.currency, body.value.currency, DefaultCurrency)
    ensures r.Success? ==> Defaulted(r.value.cabinClass, body.value.cabinClass, DefaultCabinClass)
    ensures r.Success? ==> Defaulted(r.value.customerTier, body.value.customerTier, DefaultTier)
  {
    if body.None? || body.value.fareAmount.None? then
      Failure(MissingFareAmount)
    else
      var b := body.value;
      Success(QuoteRequest(
        b.fareAmount.value,
        b.currency.GetOr(DefaultCurrency),
        b.cabinClass.GetOr(DefaultCabinClass),
        b.customerTier.GetOr(DefaultTier),
        b.promoCode))
  }

  /** The promotion applies exactly when a promo code is given and it equals
      SUMMER25 ignoring case. */
  predicate PromoApplies(code: Option<string>): (applies: bool)
    ensures applies <==> code.Some? && ToUpper(code.value) == "SUMMER25"
  {
    code.Some? && EqualsIgnoreCase(code.value, PromoSummer25)
  }

  /** `(basePoints * pct) / 100` on Java `int`s: the product wraps, the
      division rounds toward zero. */
  function PercentOf(base: int, pct: int): (r: int)
    ensures InRange(r)
  {
    TruncDiv(Wrap(base * pct), 100)
  }

  /** `round(lookupFxRate(currency), 2)`: rounding to two decimals leaves
      every table rate as it is. */
  function ReportedFxRate(currency: string): (rate: real)
    ensures rate == LookupFxRate(Some(currency))
  {
    RoundedRateIsTableRate(Some(currency));
    Round(LookupFxRate(Some(currency)), FxPlaces).value
  }

  /** The points calculation of the handler on a validated request. The total
      is the wrapped exact sum of its three parts, the warning is present
      exactly when the promotion applies, and the reported FX rate is the
      table rate, which two-decimal rounding leaves unchanged. */
  function ComputeQuote(req: QuoteRequest): (q: Quote)
    ensures InRange(q.basePoints) && InRange(q.tierBonus)
    ensures InRange(q.promoBonus) && InRange(q.totalPoints)
    ensures q.totalPoints == Wrap(q.basePoints + q.tierBonus + q.promoBonus)
    ensures q.warnings == [PromoExpiresSoon] <==> PromoApplies(req.promoCode)
    ensures !PromoApplies(req.promoCode) ==> q.warnings == [] && q.promoBonus == 0
    ensures q.effectiveFxRate == LookupFxRate(Some(req.currency))
  {
    var basePoints := FloorToInt(req.fareAmount);
    var tierBonus := PercentOf(basePoints, TierPercent(req.customerTier));
    var promoExpiring := PromoApplies(req.promoCode);
    var promoBonus := if promoExpiring then PercentOf(basePoints, PromoPercent) else 0;
    var effectiveFxRate := ReportedFxRate(req.currency);
    WrapOfPartialSum(basePoints, tierBonus, promoBonus);
    var totalPoints := Wrap(Wrap(basePoints + tierBonus) + promoBonus);
    var warnings := if promoExpiring then [PromoExpiresSoon] else [];
    Quote(basePoints, tierBonus, promoBonus, totalPoints, effectiveFxRate, warnings)
  }

  /** The whole handler: the 400 error when the fare is missing, and
      otherwise the quote of the defaulted request. */
  function HandleQuote(body: Option<RequestBody>): (r: Result<Quote, ApiError>)
    ensures r.Failure? <==> body.None? || body.value.fareAmount.None?
    ensures r.Failure? ==> r.error == MissingFareAmount
    ensures r.Success? ==> (PromoApplies(body.value.promoCode) <==> r.value.warnings == [PromoExpiresSoon])
  {
    match Validate(body)
    case Failure(e) => Failure(e)
    case Success(req) => Success(ComputeQuote(req))
  }

  /** The HTTP status of the handler's response. */
  function StatusCode(r: Result<Quote, ApiError>): (status: int)
    ensures r.Success? ==> status == StatusOk
    ensures r.Failure? ==> status == r.error.status
  {
    match r
    case Success(_) => StatusOk
    case Failure(e) => e.status
  }
}

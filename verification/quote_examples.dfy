/** The scenarios exercised by the service's component tests, and two inputs
    that show how Java's `int` arithmetic shapes the result. */
module QuoteExamples {
  import opened Wrappers
  import opened JavaInt
  import opened Ascii
  import opened Tiers
  import opened FxRates
  import opened PointsQuote

  /** A body that validates is answered with the quote of its request. */
  lemma ResponseOfValidBody(body: RequestBody, req: QuoteRequest)
    requires Validate(Some(body)) == Success(req)
    ensures HandleQuote(Some(body)) == Success(ComputeQuote(req))
  {
  }

  /** The table entries the scenarios use. */
  lemma UsdRate()
    ensures LookupFxRate(Some("USD")) == 1.0
  {
    assert UpperChar("USD"[0]) != UpperChar("EUR"[0]);
    assert UpperChar("USD"[0]) != UpperChar("INR"[0]);
  }

  lemma EurRate()
    ensures LookupFxRate(Some("EUR")) == 0.92
    ensures LookupFxRate(Some("eur")) == 0.92
  {
    assert EqualsIgnoreCase("EUR", "EUR");
    assert EqualsIgnoreCase("eur", "EUR");
  }

  lemma TierPercents()
    ensures TierPercent("NONE") == 0
    ensures TierPercent("SILVER") == 15 && TierPercent("silver") == 15
    ensures TierPercent("GOLD") == 25
    ensures TierPercent("PLATINUM") == 50
  {
    assert EqualsIgnoreCase("SILVER", "SILVER");
    assert EqualsIgnoreCase("silver", "SILVER");
    assert EqualsIgnoreCase("GOLD", "GOLD");
    assert EqualsIgnoreCase("PLATINUM", "PLATINUM");
  }

  lemma Summer25Applies()
    ensures PromoApplies(Some("SUMMER25")) && PromoApplies(Some("Summer25"))
  {
    assert EqualsIgnoreCase("SUMMER25", PromoSummer25);
    assert EqualsIgnoreCase("Summer25", PromoSummer25);
  }

  /** Each scenario is proved in three steps: the `int` arithmetic on its
      literal values, the table lookups and arithmetic for any request with
      its fields (`...Parts`), and the quote of such a request (`...Quote`).
      The example itself then relates the body to that request. */
  lemma SilverWithPromoArithmetic()
    ensures FloorToInt(1234.5) == 1234
    ensures PercentOf(1234, 15) == 185
    ensures PercentOf(1234, PromoPercent) == 308
    ensures Wrap(1234 + 185 + 308) == 1727
  {
  }

  lemma SilverWithPromoParts(req: QuoteRequest)
    requires req.fareAmount == 1234.5 && req.currency == "USD"
    requires req.customerTier == "SILVER" && req.promoCode == Some("SUMMER25")
    ensures TierPercent(req.customerTier) == 15
    ensures PromoApplies(req.promoCode)
    ensures LookupFxRate(Some(req.currency)) == 1.0
    ensures FloorToInt(req.fareAmount) == 1234
    ensures PercentOf(FloorToInt(req.fareAmount), TierPercent(req.customerTier)) == 185
    ensures PercentOf(FloorToInt(req.fareAmount), PromoPercent) == 308
  {
    assert TierPercent(req.customerTier) == 15 by { TierPercents(); }
    assert LookupFxRate(Some(req.currency)) == 1.0 by { UsdRate(); }
    assert PromoApplies(req.promoCode) by { Summer25Applies(); }
    SilverWithPromoArithmetic();
  }

  lemma SilverWithPromoQuote(req: QuoteRequest)
    requires req.fareAmount == 1234.5 && req.currency == "USD"
    requires req.customerTier == "SILVER" && req.promoCode == Some("SUMMER25")
    ensures ComputeQuote(req) == Quote(1234, 185, 308, 1727, 1.0, [PromoExpiresSoon])
  {
    SilverWithPromoParts(req);
    SilverWithPromoArithmetic();
  }

  /** 1234.50 USD, SILVER, SUMMER25: 1234 base, 185 tier bonus, 308 promo
      bonus, 1727 in total, and the expiry warning. */
  lemma SilverWithPromoExample(body: RequestBody)
    requires body.fareAmount == Some(1234.5) && body.currency == Some("USD")
    requires body.customerTier == Some("SILVER") && body.promoCode == Some("SUMMER25")
    ensures HandleQuote(Some(body))
         == Success(Quote(1234, 185, 308, 1727, 1.0, [PromoExpiresSoon]))
  {
    var req := Validate(Some(body)).value;
    ResponseOfValidBody(body, req);
    SilverWithPromoQuote(req);
  }

  /** A body without `fareAmount` is answered with status 400. */
  lemma MissingFareExample()
    ensures var r := HandleQuote(Some(RequestBody(None, Some("USD"), Some("ECONOMY"), Some("NONE"), None)));
      r == Failure(ApiError(400, "Missing fareAmount")) && StatusCode(r) == 400
  {
  }

  lemma GoldWithoutPromoArithmetic()
    ensures FloorToInt(1000.0) == 1000
    ensures PercentOf(1000, 25) == 250
    ensures Wrap(1000 + 250 + 0) == 1250
  {
  }

  lemma GoldWithoutPromoParts(req: QuoteRequest)
    requires req.fareAmount == 1000.0 && req.currency == "USD"
    requires req.customerTier == "GOLD" && req.promoCode == None
    ensures TierPercent(req.customerTier) == 25
    ensures !PromoApplies(req.promoCode)
    ensures LookupFxRate(Some(req.currency)) == 1.0
    ensures FloorToInt(req.fareAmount) == 1000
    ensures PercentOf(FloorToInt(req.fareAmount), TierPercent(req.customerTier)) == 250
  {
    assert TierPercent(req.customerTier) == 25 by { TierPercents(); }
    assert LookupFxRate(Some(req.currency)) == 1.0 by { UsdRate(); }
    assert !PromoApplies(req.promoCode);
    GoldWithoutPromoArithmetic();
  }

  lemma GoldWithoutPromoQuote(req: QuoteRequest)
    requires req.fareAmount == 1000.0 && req.currency == "USD"
    requires req.customerTier == "GOLD" && req.promoCode == None
    ensures ComputeQuote(req) == Quote(1000, 250, 0, 1250, 1.0, [])
  {
    GoldWithoutPromoParts(req);
    GoldWithoutPromoArithmetic();
  }

  /** 1000.0 USD, GOLD, no promotion: 1000 base, 250 tier bonus, no warning. */
  lemma GoldWithoutPromoExample(body: RequestBody)
    requires body.fareAmount == Some(1000.0) && body.currency == Some("USD")
    requires body.customerTier == Some("GOLD") && body.promoCode == None
    ensures HandleQuote(Some(body))
         == Success(Quote(1000, 250, 0, 1250, 1.0, []))
  {
    var req := Validate(Some(body)).value;
    ResponseOfValidBody(body, req);
    GoldWithoutPromoQuote(req);
  }

  lemma EuroRateArithmetic()
    ensures FloorToInt(500.0) == 500
    ensures PercentOf(500, 0) == 0
    ensures Wrap(500 + 0 + 0) == 500
  {
  }

  lemma EuroRateParts(req: QuoteRequest)
    requires req.fareAmount == 500.0 && req.currency == "EUR"
    requires req.customerTier == "NONE" && req.promoCode == None
    ensures TierPercent(req.customerTier) == 0
    ensures !PromoApplies(req.promoCode)
    ensures LookupFxRate(Some(req.currency)) == 0.92
    ensures FloorToInt(req.fareAmount) == 500
    ensures PercentOf(FloorToInt(req.fareAmount), TierPercent(req.customerTier)) == 0
  {
    assert TierPercent(req.customerTier) == 0 by { TierPercents(); }
    assert LookupFxRate(Some(req.currency)) == 0.92 by { EurRate(); }
    assert !PromoApplies(req.promoCode);
    EuroRateArithmetic();
  }

  lemma EuroRateQuote(req: QuoteRequest)
    requires req.fareAmount == 500.0 && req.currency == "EUR"
    requires req.customerTier == "NONE" && req.promoCode == None
    ensures ComputeQuote(req) == Quote(500, 0, 0, 500, 0.92, [])
  {
    EuroRateParts(req);
    EuroRateArithmetic();
  }

  /** 500.0 EUR, tier NONE: no bonus, and the EUR rate 0.92. */
  lemma EuroRateExample(body: RequestBody)
    requires body.fareAmount == Some(500.0) && body.currency == Some("EUR")
    requires body.customerTier == Some("NONE") && body.promoCode == None
    ensures HandleQuote(Some(body))
         == Success(Quote(500, 0, 0, 500, 0.92, []))
  {
    var req := Validate(Some(body)).value;
    ResponseOfValidBody(body, req);
    EuroRateQuote(req);
  }

  lemma DefaultsArithmetic()
    ensures FloorToInt(200.0) == 200
    ensures PercentOf(200, 0) == 0
    ensures Wrap(200 + 0 + 0) == 200
  {
  }

  lemma DefaultsParts(req: QuoteRequest)
    requires req.fareAmount == 200.0 && req.currency == "USD"
    requires req.customerTier == "NONE" && req.promoCode == None
    ensures TierPercent(req.customerTier) == 0
    ensures !PromoApplies(req.promoCode)
    ensures LookupFxRate(Some(req.currency)) == 1.0
    ensures FloorToInt(req.fareAmount) == 200
    ensures PercentOf(FloorToInt(req.fareAmount), TierPercent(req.customerTier)) == 0
  {
    assert TierPercent(req.customerTier) == 0 by { TierPercents(); }
    assert LookupFxRate(Some(req.currency)) == 1.0 by { UsdRate(); }
    assert !PromoApplies(req.promoCode);
    DefaultsArithmetic();
  }

  lemma DefaultsQuote(req: QuoteRequest)
    requires req.fareAmount == 200.0 && req.currency == "USD"
    requires req.customerTier == "NONE" && req.promoCode == None
    ensures ComputeQuote(req) == Quote(200, 0, 0, 200, 1.0, [])
  {
    DefaultsParts(req);
    DefaultsArithmetic();
  }

  /** Only the fare given: every default applies and the quote is the base alone. */
  lemma DefaultsExample(body: RequestBody)
    requires body.fareAmount == Some(200.0) && body.currency == None
    requires body.customerTier == None && body.promoCode == None
    ensures HandleQuote(Some(body))
         == Success(Quote(200, 0, 0, 200, 1.0, []))
  {
    var req := Validate(Some(body)).value;
    ResponseOfValidBody(body, req);
    DefaultsQuote(req);
  }

  lemma LowerCaseParts(req: QuoteRequest)
    requires req.fareAmount == 1234.5 && req.currency == "eur"
    requires req.customerTier == "silver" && req.promoCode == Some("Summer25")
    ensures TierPercent(req.customerTier) == 15
    ensures PromoApplies(req.promoCode)
    ensures LookupFxRate(Some(req.currency)) == 0.92
    ensures FloorToInt(req.fareAmount) == 1234
    ensures PercentOf(FloorToInt(req.fareAmount), TierPercent(req.customerTier)) == 185
    ensures PercentOf(FloorToInt(req.fareAmount), PromoPercent) == 308
  {
    assert TierPercent(req.customerTier) == 15 by { TierPercents(); }
    assert LookupFxRate(Some(req.currency)) == 0.92 by { EurRate(); }
    assert PromoApplies(req.promoCode) by { Summer25Applies(); }
    SilverWithPromoArithmetic();
  }

  lemma LowerCaseQuote(req: QuoteRequest)
    requires req.fareAmount == 1234.5 && req.currency == "eur"
    requires req.customerTier == "silver" && req.promoCode == Some("Summer25")
    ensures ComputeQuote(req) == Quote(1234, 185, 308, 1727, 0.92, [PromoExpiresSoon])
  {
    LowerCaseParts(req);
    SilverWithPromoArithmetic();
  }

  /** Tier, currency and promo code match in any case. */
  lemma LowerCaseExample(body: RequestBody)
    requires body.fareAmount == Some(1234.5) && body.currency == Some("eur")
    requires body.customerTier == Some("silver") && body.promoCode == Some("Summer25")
    ensures HandleQuote(Some(body))
         == Success(Quote(1234, 185, 308, 1727, 0.92, [PromoExpiresSoon]))
  {
    var req := Validate(Some(body)).value;
    ResponseOfValidBody(body, req);
    LowerCaseQuote(req);
  }

  lemma NegativeFareArithmetic()
    ensures FloorToInt(-1.5) == -2
    ensures PercentOf(-2, 15) == 0
    ensures Wrap(-2 + 0 + 0) == -2
  {
    assert (-2 * 15) / 100 == -1;
  }

  lemma NegativeFareParts(req: QuoteRequest)
    requires req.fareAmount == -1.5 && req.currency == "USD"
    requires req.customerTier == "SILVER" && req.promoCode == None
    ensures TierPercent(req.customerTier) == 15
    ensures !PromoApplies(req.promoCode)
    ensures LookupFxRate(Some(req.currency)) == 1.0
    ensures FloorToInt(req.fareAmount) == -2
    ensures PercentOf(FloorToInt(req.fareAmount), TierPercent(req.customerTier)) == 0
  {
    assert TierPercent(req.customerTier) == 15 by { TierPercents(); }
    assert LookupFxRate(Some(req.currency)) == 1.0 by { UsdRate(); }
    assert !PromoApplies(req.promoCode);
    NegativeFareArithmetic();
  }

  lemma NegativeFareQuote(req: QuoteRequest)
    requires req.fareAmount == -1.5 && req.currency == "USD"
    requires req.customerTier == "SILVER" && req.promoCode == None
    ensures ComputeQuote(req) == Quote(-2, 0, 0, -2, 1.0, [])
  {
    NegativeFareParts(req);
    NegativeFareArithmetic();
  }

  /** A negative fare is not rejected: -1.5 floors to -2, and SILVER's
      15 percent of it, -0.3, is truncated toward zero to 0, where a floored
      division would give -1. */
  lemma NegativeFareExample(body: RequestBody)
    requires body.fareAmount == Some(-1.5) && body.currency == Some("USD")
    requires body.customerTier == Some("SILVER") && body.promoCode == None
    ensures HandleQuote(Some(body))
         == Success(Quote(-2, 0, 0, -2, 1.0, []))
  {
    var req := Validate(Some(body)).value;
    ResponseOfValidBody(body, req);
    NegativeFareQuote(req);
  }

  lemma PlatinumOverflowArithmetic()
    ensures FloorToInt(50000000.0) == 50000000
    ensures PercentOf(50000000, 50) == -17949672
    ensures Wrap(50000000 + -17949672 + 0) == 32050328
  {
    assert Wrap(2500000000) == -1794967296 by {
      assert (2500000000 - IntMin) % Modulus == 352516352;
    }
    assert TruncDiv(-1794967296, 100) == -17949672;
  }

  lemma PlatinumOverflowParts(req: QuoteRequest)
    requires req.fareAmount == 50000000.0 && req.currency == "USD"
    requires req.customerTier == "PLATINUM" && req.promoCode == None
    ensures TierPercent(req.customerTier) == 50
    ensures !PromoApplies(req.promoCode)
    ensures LookupFxRate(Some(req.currency)) == 1.0
    ensures FloorToInt(req.fareAmount) == 50000000
    ensures PercentOf(FloorToInt(req.fareAmount), TierPercent(req.customerTier)) == -17949672
  {
    assert TierPercent(req.customerTier) == 50 by { TierPercents(); }
    assert LookupFxRate(Some(req.currency)) == 1.0 by { UsdRate(); }
    assert !PromoApplies(req.promoCode);
    PlatinumOverflowArithmetic();
  }

  lemma PlatinumOverflowQuote(req: QuoteRequest)
    requires req.fareAmount == 50000000.0 && req.currency == "USD"
    requires req.customerTier == "PLATINUM" && req.promoCode == None
    ensures ComputeQuote(req) == Quote(50000000, -17949672, 0, 32050328, 1.0, [])
  {
    PlatinumOverflowParts(req);
    PlatinumOverflowArithmetic();
  }

  /** Past the safe range the `int` product wraps: 50,000,000 base points
      times PLATINUM's 50 exceeds 2^31 - 1, so the tier bonus comes out
      negative and the total below the base. */
  lemma PlatinumOverflowExample(body: RequestBody)
    requires body.fareAmount == Some(50000000.0) && body.currency == Some("USD")
    requires body.customerTier == Some("PLATINUM") && body.promoCode == None
    ensures HandleQuote(Some(body))
         == Success(Quote(50000000, -17949672, 0, 32050328, 1.0, []))
  {
    var req := Validate(Some(body)).value;
    ResponseOfValidBody(body, req);
    PlatinumOverflowQuote(req);
  }
}

/** What the quote handler promises, stated against an independent
    description of the quote in exact arithmetic. The handler computes on
    Java `int`s; as long as the fare's floor stays within `MaxSafeBase` in
    magnitude nothing overflows and the two descriptions coincide. */
module QuoteProperties {
  import opened Wrappers
  import opened JavaInt
  import opened Ascii
  import opened Tiers
  import opened FxRates
  import opened PointsQuote

  /** The largest base for which `basePoints * 50`, the biggest product the
      handler forms, still fits in an `int`. */
  const MaxSafeBase: int := IntMax / 50

  /** A fare whose points arithmetic cannot overflow. */
  predicate SafeFare(fare: real) {
    -MaxSafeBase <= fare.Floor <= MaxSafeBase
  }

  /** `share` is `pct` percent of `n`, rounded toward zero. */
  ghost predicate IsTruncatedShare(n: int, pct: int, share: int) {
    var scaled := n * pct;
    && (scaled >= 0 ==> 0 <= scaled - share * 100 < 100)
    && (scaled < 0 ==> 0 <= share * 100 - scaled < 100)
  }

  /** The quote a request should receive, described without reference to
      how it is computed: the base is the floor of the fare, each bonus its
      percentage of the base rounded toward zero, the total their exact sum,
      and the warning and FX rate as the tables say. */
  ghost predicate IsExactQuote(req: QuoteRequest, q: Quote) {
    && q.basePoints as real <= req.fareAmount < (q.basePoints + 1) as real
    && IsTruncatedShare(q.basePoints, TierPercent(req.customerTier), q.tierBonus)
    && (if PromoApplies(req.promoCode) then
          IsTruncatedShare(q.basePoints, PromoPercent, q.promoBonus) && q.warnings == [PromoExpiresSoon]
        else
          q.promoBonus == 0 && q.warnings == [])
    && q.totalPoints == q.basePoints + q.tierBonus + q.promoBonus
    && q.effectiveFxRate == LookupFxRate(Some(req.currency))
  }

  /** A percentage between 0 and 50 scales `n` toward zero, never past `n * 50`. */
  lemma ScaledBetween(n: int, pct: int)
    requires 0 <= pct <= 50
    ensures n >= 0 ==> 0 <= n * pct <= n * 50
    ensures n < 0 ==> n * 50 <= n * pct <= 0
  {
    if n >= 0 {
      assert n * pct <= n * 50 by {
        assert n * (50 - pct) >= 0;
      }
    } else {
      assert n * pct >= n * 50 by {
        assert (-n) * (50 - pct) >= 0;
      }
    }
  }

  /** Within the safe range `PercentOf` is the exact truncated percentage,
      and it is at most half the base in magnitude. */
  lemma PercentOfExact(n: int, pct: int)
    requires -MaxSafeBase <= n <= MaxSafeBase
    requires 0 <= pct <= 50
    ensures IsTruncatedShare(n, pct, PercentOf(n, pct))
    ensures n >= 0 ==> 0 <= 100 * PercentOf(n, pct) <= n * pct && 2 * PercentOf(n, pct) <= n
    ensures n < 0 ==> n * pct <= 100 * PercentOf(n, pct) <= 0 && n <= 2 * PercentOf(n, pct)
  {
    ScaledBetween(n, pct);
    assert InRange(n * pct);
    assert PercentOf(n, pct) == TruncDiv(n * pct, 100);
  }

  /** On a safe fare the handler's `int` arithmetic produces the exact quote. */
  lemma ComputeQuoteIsExact(req: QuoteRequest)
    requires SafeFare(req.fareAmount)
    ensures IsExactQuote(req, ComputeQuote(req))
  {
    var q := ComputeQuote(req);
    var base := req.fareAmount.Floor;
    assert q.basePoints == base;
    PercentOfExact(base, TierPercent(req.customerTier));
    PercentOfExact(base, PromoPercent);
    assert InRange(q.basePoints + q.tierBonus + q.promoBonus);
  }

  /** The exact description admits only one quote per request. */
  lemma ExactQuoteIsUnique(req: QuoteRequest, q1: Quote, q2: Quote)
    requires IsExactQuote(req, q1) && IsExactQuote(req, q2)
    ensures q1 == q2
  {
    assert q1.basePoints == q2.basePoints by {
      assert q1.basePoints as real < (q2.basePoints + 1) as real;
      assert q2.basePoints as real < (q1.basePoints + 1) as real;
    }
    var base := q1.basePoints;
    var pct := TierPercent(req.customerTier);
    TruncDivUnique(base * pct, 100, q1.tierBonus);
    TruncDivUnique(base * pct, 100, q2.tierBonus);
    if PromoApplies(req.promoCode) {
      TruncDivUnique(base * PromoPercent, 100, q1.promoBonus);
      TruncDivUnique(base * PromoPercent, 100, q2.promoBonus);
    }
  }

  /** On a safe fare a quote satisfies the exact description if and only if
      it is the one the handler computes. */
  lemma ExactQuoteIffComputed(req: QuoteRequest, q: Quote)
    requires SafeFare(req.fareAmount)
    ensures IsExactQuote(req, q) <==> q == ComputeQuote(req)
  {
    ComputeQuoteIsExact(req);
    if IsExactQuote(req, q) {
      ExactQuoteIsUnique(req, q, ComputeQuote(req));
    }
  }

  /** Bonuses never take the total across zero: for a non-negative base the
      total lies between the base and the base plus half plus a quarter of
      it, and for a negative base symmetrically below zero. */
  lemma TotalBounds(req: QuoteRequest)
    requires SafeFare(req.fareAmount)
    ensures var q := ComputeQuote(req);
      q.basePoints >= 0 ==> q.basePoints <= q.totalPoints <= q.basePoints + q.basePoints / 2 + q.basePoints / 4
    ensures var q := ComputeQuote(req);
      q.basePoints < 0 ==> q.basePoints - (-q.basePoints) / 2 - (-q.basePoints) / 4 <= q.totalPoints <= q.basePoints
  {
    var q := ComputeQuote(req);
    var n := q.basePoints;
    ComputeQuoteIsExact(req);
    PercentOfExact(n, TierPercent(req.customerTier));
    PercentOfExact(n, PromoPercent);
    SumOfSharesBounds(n, q.tierBonus, q.promoBonus);
  }

  /** A half share and a quarter share, both on the side of `n`, keep the
      sum between `n` and `n` plus its half plus its quarter. */
  lemma SumOfSharesBounds(n: int, half: int, quarter: int)
    requires n >= 0 ==> 0 <= 2 * half <= n && 0 <= 4 * quarter <= n
    requires n < 0 ==> n <= 2 * half <= 0 && n <= 4 * quarter <= 0
    ensures n >= 0 ==> n <= n + half + quarter <= n + n / 2 + n / 4
    ensures n < 0 ==> n - (-n) / 2 - (-n) / 4 <= n + half + quarter <= n
  {
  }

  /** Two optional strings that are both absent or equal ignoring case. */
  predicate SameUpToCase(a: Option<string>, b: Option<string>) {
    || (a.None? && b.None?)
    || (a.Some? && b.Some? && EqualsIgnoreCase(a.value, b.value))
  }

  /** The currency, tier and promo code are read ignoring case, and the
      cabin class is not read at all: bodies that agree on the fare and on
      those three fields up to case receive the same response. */
  lemma HandleQuoteIgnoresCaseAndCabin(b1: RequestBody, b2: RequestBody)
    requires b1.fareAmount == b2.fareAmount
    requires SameUpToCase(b1.currency, b2.currency)
    requires SameUpToCase(b1.customerTier, b2.customerTier)
    requires SameUpToCase(b1.promoCode, b2.promoCode)
    ensures HandleQuote(Some(b1)) == HandleQuote(Some(b2))
  {
    if b1.fareAmount.Some? {
      var r1 := Validate(Some(b1)).value;
      var r2 := Validate(Some(b2)).value;
      SameTierUpToCase(b1.customerTier, b2.customerTier);
      SameRateUpToCase(b1.currency, b2.currency);
      SamePromoUpToCase(b1.promoCode, b2.promoCode);
      ComputeQuoteReadsOnly(r1, r2);
    }
  }

  /** The computation reads only the fare, the tier's percentage, the
      currency's rate and whether the promotion applies. */
  lemma ComputeQuoteReadsOnly(r1: QuoteRequest, r2: QuoteRequest)
    requires r1.fareAmount == r2.fareAmount
    requires TierPercent(r1.customerTier) == TierPercent(r2.customerTier)
    requires LookupFxRate(Some(r1.currency)) == LookupFxRate(Some(r2.currency))
    requires PromoApplies(r1.promoCode) == PromoApplies(r2.promoCode)
    ensures ComputeQuote(r1) == ComputeQuote(r2)
  {
  }

  lemma SameTierUpToCase(a: Option<string>, b: Option<string>)
    requires SameUpToCase(a, b)
    ensures TierPercent(a.GetOr(DefaultTier)) == TierPercent(b.GetOr(DefaultTier))
  {
    if a.Some? {
      ParseTierIgnoresCase(a.value, b.value);
    }
  }

  lemma SameRateUpToCase(a: Option<string>, b: Option<string>)
    requires SameUpToCase(a, b)
    ensures LookupFxRate(Some(a.GetOr(DefaultCurrency))) == LookupFxRate(Some(b.GetOr(DefaultCurrency)))
  {
    if a.Some? {
      EqualsIgnoreCaseIffSameUpper(a.value, b.value);
    }
  }

  lemma SamePromoUpToCase(a: Option<string>, b: Option<string>)
    requires SameUpToCase(a, b)
    ensures PromoApplies(a) == PromoApplies(b)
  {
    if a.Some? {
      EqualsIgnoreCaseIffSameUpper(a.value, b.value);
      EqualsIgnoreCaseIffSameUpper(a.value, PromoSummer25);
      EqualsIgnoreCaseIffSameUpper(b.value, PromoSummer25);
    }
  }

  /** An absent currency, cabin class or tier behaves exactly as the
      explicit defaults USD, ECONOMY and NONE. */
  lemma AbsentFieldsActAsDefaults(fare: real, promo: Option<string>)
    ensures HandleQuote(Some(RequestBody(Some(fare), None, None, None, promo)))
         == HandleQuote(Some(RequestBody(Some(fare), Some("USD"), Some("ECONOMY"), Some("NONE"), promo)))
  {
  }

  /** A request whose tier earns nothing and whose promotion does not apply
      is quoted at its base points alone. */
  lemma BaseOnlyQuote(req: QuoteRequest)
    requires InRange(req.fareAmount.Floor)
    requires TierPercent(req.customerTier) == 0 && !PromoApplies(req.promoCode)
    ensures var q := ComputeQuote(req);
      && q.tierBonus == 0 && q.promoBonus == 0
      && q.totalPoints == q.basePoints == req.fareAmount.Floor
      && q.warnings == []
  {
    var q := ComputeQuote(req);
    assert PercentOf(q.basePoints, 0) == 0;
  }

  /** Without a tier or a promotion, the quote is the base points alone. */
  lemma NoBonusWithoutTierOrPromo(fare: real, currency: Option<string>, cabin: Option<string>)
    requires InRange(fare.Floor)
    ensures var r := HandleQuote(Some(RequestBody(Some(fare), currency, cabin, None, None)));
      && r.Success?
      && r.value.tierBonus == 0 && r.value.promoBonus == 0
      && r.value.totalPoints == r.value.basePoints == fare.Floor
      && r.value.warnings == []
  {
    var req := Validate(Some(RequestBody(Some(fare), currency, cabin, None, None))).value;
    assert req.customerTier == DefaultTier && req.promoCode == None;
    assert TierPercent(DefaultTier) == 0;
    BaseOnlyQuote(req);
  }
}

/** Customer loyalty tiers and the bonus percentage each one earns. */
module Tiers {
  import opened Ascii

  datatype Tier = NoTier | Silver | Gold | Platinum

  /** The tier's bonus, as a percentage of the base points. */
  function BonusPercent(t: Tier): (pct: int)
    ensures 0 <= pct <= 50
    ensures pct == 0 <==> t == NoTier
  {
    match t
    case NoTier => 0
    case Silver => 15
    case Gold => 25
    case Platinum => 50
  }

  /** The `switch (customerTier.toUpperCase())` of the quote handler: SILVER,
      GOLD and PLATINUM are recognised ignoring case; NONE and every other
      string fall to the default branch. */
  function ParseTier(s: string): (t: Tier)
    ensures t == Silver <==> EqualsIgnoreCase(s, "SILVER")
    ensures t == Gold <==> EqualsIgnoreCase(s, "GOLD")
    ensures t == Platinum <==> EqualsIgnoreCase(s, "PLATINUM")
  {
    var u := ToUpper(s);
    MatchesUpperLiteral(s, "SILVER");
    MatchesUpperLiteral(s, "GOLD");
    MatchesUpperLiteral(s, "PLATINUM");
    if u == "SILVER" then Silver
    else if u == "GOLD" then Gold
    else if u == "PLATINUM" then Platinum
    else NoTier
  }

  /** `tierBonusPct`: 15, 25 or 50 for the three recognised tiers, ignoring
      case, and 0 for anything else. */
  function TierPercent(s: string): (pct: int)
    ensures pct in {0, 15, 25, 50}
    ensures pct == 15 <==> EqualsIgnoreCase(s, "SILVER")
    ensures pct == 25 <==> EqualsIgnoreCase(s, "GOLD")
    ensures pct == 50 <==> EqualsIgnoreCase(s, "PLATINUM")
    ensures pct == 0 <==>
      !(EqualsIgnoreCase(s, "SILVER") || EqualsIgnoreCase(s, "GOLD") || EqualsIgnoreCase(s, "PLATINUM"))
  {
    BonusPercent(ParseTier(s))
  }

  /** Tier lookup depends on the string only up to case. */
  lemma ParseTierIgnoresCase(s: string, t: string)
    requires EqualsIgnoreCase(s, t)
    ensures ParseTier(s) == ParseTier(t)
  {
    EqualsIgnoreCaseIffSameUpper(s, t);
  }
}

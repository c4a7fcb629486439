/** The client-side battle pass: a table of 100 tiers, 30 XP apart, and the
    lookups that place a player's total XP on it. */
module BattlePass {
  import opened Text

  const TIER_COUNT: nat := 100
  const XP_PER_TIER: nat := 30

  datatype Tier = Tier(tier: nat, requiredXP: nat, coins: nat, cosmetics: seq<string>, title: string)

  datatype Progress = Progress(currentTier: nat, xpToNextTier: nat, totalXP: int)

  /** Entry `i` of `BATTLEPASS_TIERS`. */
  function TierAt(i: nat): Tier
  {
    var tier := i + 1;
    Tier(tier, tier * XP_PER_TIER, (tier / 10 + 1) * 50 + (tier % 10) * 10,
         if tier % 5 == 0 then ["cosmetic_" + DecimalString(tier)] else [],
         if tier % 20 == 0 then "Battle Pass Tier " + DecimalString(tier) else "")
  }

  /** `BATTLEPASS_TIERS`: tier `i + 1` at index `i`, needing 30 XP per tier,
      a cosmetic on every fifth tier and a title on every twentieth. */
  function Tiers(): (t: seq<Tier>)
    ensures |t| == TIER_COUNT
    ensures forall i :: 0 <= i < TIER_COUNT ==> t[i].tier == i + 1 && t[i].requiredXP == XP_PER_TIER * (i + 1)
    ensures forall i :: 0 <= i < TIER_COUNT ==> t[i].coins == (t[i].tier / 10 + 1) * 50 + (t[i].tier % 10) * 10
    ensures forall i :: 0 <= i < TIER_COUNT ==> (|t[i].cosmetics| == 1 <==> t[i].tier % 5 == 0) && |t[i].cosmetics| <= 1
    ensures forall i :: 0 <= i < TIER_COUNT ==> (t[i].title != "" <==> t[i].tier % 20 == 0)
  {
    seq(TIER_COUNT, i requires 0 <= i < TIER_COUNT => TierAt(i))
  }

  /** Thresholds rise strictly along the table. */
  lemma ThresholdsIncrease(i: nat, j: nat)
    requires i < j < TIER_COUNT
    ensures Tiers()[i].requiredXP < Tiers()[j].requiredXP
  {
  }

  /** Each tier pays between 60 and 590 coins; the payout drops at every tenth
      tier, where the `tier % 10` part returns to zero. */
  lemma CoinsRange(i: nat)
    requires i < TIER_COUNT
    ensures 60 <= Tiers()[i].coins <= 590
    ensures Tiers()[i].tier % 10 == 0 && i > 0 ==> Tiers()[i].coins < Tiers()[i - 1].coins
  {
  }

  /** The index of the highest tier whose threshold `totalXP` reaches, and
      index 0 when it reaches none. */
  function TierIndex(totalXP: int): (k: nat)
    ensures k < TIER_COUNT
    ensures totalXP >= XP_PER_TIER ==> Tiers()[k].requiredXP <= totalXP
    ensures forall j :: k < j < TIER_COUNT ==> Tiers()[j].requiredXP > totalXP
    ensures totalXP < XP_PER_TIER ==> k == 0
  {
    if totalXP < XP_PER_TIER then 0
    else if totalXP / XP_PER_TIER >= TIER_COUNT then TIER_COUNT - 1
    else totalXP / XP_PER_TIER - 1
  }

  /** `getBattlePassTier`: scans the table from the top and returns the first
      tier reached, or the first tier when none is. */
  method GetBattlePassTier(totalXP: int) returns (t: Tier)
    ensures t == Tiers()[TierIndex(totalXP)]
    ensures t.requiredXP <= totalXP || (t.tier == 1 && totalXP < XP_PER_TIER)
    ensures forall j :: 0 <= j < TIER_COUNT && Tiers()[j].requiredXP <= totalXP ==> Tiers()[j].tier <= t.tier
  {
    var tiers := Tiers();
    var i := |tiers| - 1;
    while i >= 0
      invariant -1 <= i < |tiers|
      invariant forall j :: i < j < |tiers| ==> tiers[j].requiredXP > totalXP
    {
      if totalXP >= tiers[i].requiredXP {
        assert i == TierIndex(totalXP);
        return tiers[i];
      }
      i := i - 1;
    }
    t := tiers[0];
  }

  /** `getBattlePassProgress` without its percentage: the tier reached and the
      XP still missing to the threshold of the table entry after it (the last
      entry for the top tier). Below the first threshold the player is shown
      at tier 1 and the missing XP counts up to tier 2. */
  method GetBattlePassProgress(totalXP: int) returns (p: Progress)
    ensures p.currentTier == TierIndex(totalXP) + 1
    ensures p.totalXP == totalXP
    ensures p.xpToNextTier == if XP_PER_TIER * (Min(p.currentTier, TIER_COUNT - 1) + 1) > totalXP
                              then XP_PER_TIER * (Min(p.currentTier, TIER_COUNT - 1) + 1) - totalXP else 0
    ensures TierIndex(totalXP) < TIER_COUNT - 1 && totalXP >= XP_PER_TIER ==> 1 <= p.xpToNextTier <= XP_PER_TIER
    ensures totalXP < XP_PER_TIER ==> p.xpToNextTier == 2 * XP_PER_TIER - totalXP
    ensures totalXP >= XP_PER_TIER * TIER_COUNT ==> p.xpToNextTier == 0
  {
    var current := GetBattlePassTier(totalXP);
    var tiers := Tiers();
    var nextIdx := Min(current.tier, |tiers| - 1);
    var nextReq := tiers[nextIdx].requiredXP;
    var missing := if nextReq - totalXP > 0 then nextReq - totalXP else 0;
    p := Progress(current.tier, missing, totalXP);
  }

  function Min(a: int, b: int): int
  {
    if a < b then a else b
  }
}

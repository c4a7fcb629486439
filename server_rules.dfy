/** The business rules inside the server's request handlers, lifted out of
    the SQL callbacks around them: the rate-limit middleware, the placeholder
    rewriting for PostgreSQL, the battle-pass level-up and reward claim, the
    daily-challenge progress, and the gem balance checks. */
module ServerRules {
  import opened Wrappers
  import opened Text
  import RateLimit

  const DEFAULT_WINDOW_MS: int := 60000
  const DEFAULT_MAX: int := 60
  const GEMS_PER_TEN_TIERS: nat := 5

  // ---------------------------------------------------------------------------
  // Rate limiting

  /** `req.playerId || req.ip || 'anon'`, with `""` for a missing value. */
  function RateKey(playerId: string, ip: string): (key: string)
    ensures playerId != "" ==> key == playerId
    ensures playerId == "" && ip != "" ==> key == ip
    ensures key != ""
  {
    if playerId != "" then playerId else if ip != "" then ip else "anon"
  }

  /** The `rateLimit({windowMs, max})` middleware: counts the request against
      its key and answers 429 exactly when that key's window has now seen more
      than `max` requests. */
  method Admit(limiter: RateLimit.RateLimiter, playerId: string, ip: string, now: int, windowMs: int, max: int)
    returns (allowed: bool)
    modifies limiter
    ensures var key := RateKey(playerId, ip);
      limiter.buckets == old(limiter.buckets)[key := RateLimit.AfterHit(
        if key in old(limiter.buckets) then Some(old(limiter.buckets)[key]) else None, now, windowMs)]
    ensures allowed <==> limiter.buckets[RateKey(playerId, ip)].count <= max
  {
    allowed := limiter.Hit(RateKey(playerId, ip), now, windowMs, max);
  }

  /** `rateLimit()` with its default options: a one-minute window and at most
      sixty requests in it. */
  method AdmitDefault(limiter: RateLimit.RateLimiter, playerId: string, ip: string, now: int)
    returns (allowed: bool)
    modifies limiter
    ensures var key := RateKey(playerId, ip);
      limiter.buckets == old(limiter.buckets)[key := RateLimit.AfterHit(
        if key in old(limiter.buckets) then Some(old(limiter.buckets)[key]) else None, now, DEFAULT_WINDOW_MS)]
    ensures allowed <==> limiter.buckets[RateKey(playerId, ip)].count <= DEFAULT_MAX
  {
    allowed := Admit(limiter, playerId, ip, now, DEFAULT_WINDOW_MS, DEFAULT_MAX);
  }

  // ---------------------------------------------------------------------------
  // Placeholders

  /** The number of `?` in `s`. */
  function QCount(s: string): nat
  {
    if s == [] then 0 else QCount(s[..|s| - 1]) + (if s[|s| - 1] == '?' then 1 else 0)
  }

  /** What character `i` of the SQL text becomes: the `k`-th question mark
      (counting from 1) turns into `$k`, everything else stays. */
  function Piece(sql: string, i: nat): string
    requires i < |sql|
  {
    if sql[i] == '?' then "$" + DecimalString(QCount(sql[..i]) + 1) else [sql[i]]
  }

  /** The rewritten text of the first `upTo` characters. */
  function Pieces(sql: string, upTo: nat): string
    requires upTo <= |sql|
  {
    if upTo == 0 then "" else Pieces(sql, upTo - 1) + Piece(sql, upTo - 1)
  }

  /** `convertPlaceholders`: with no parameters the text is returned as it
      is; otherwise every `?` is replaced, left to right, by `$1`, `$2`, ...
      using a running counter, and the parameters are passed on unchanged. */
  method ConvertPlaceholders<V>(sql: string, params: seq<V>) returns (text: string, values: seq<V>)
    ensures params == [] ==> text == sql && values == []
    ensures params != [] ==> text == Pieces(sql, |sql|) && values == params
  {
    if params == [] {
      return sql, [];
    }
    text := "";
    var idx := 0;
    var i := 0;
    while i < |sql|
      invariant 0 <= i <= |sql|
      invariant idx == QCount(sql[..i])
      invariant text == Pieces(sql, i)
    {
      assert sql[..i + 1][..i] == sql[..i];
      if sql[i] == '?' {
        idx := idx + 1;
        text := text + "$" + DecimalString(idx);
      } else {
        text := text + [sql[i]];
      }
      i := i + 1;
    }
    values := params;
  }

  /** Text without question marks comes through unchanged. */
  lemma {:induction false} NoPlaceholders(sql: string, upTo: nat)
    requires upTo <= |sql|
    requires forall i :: 0 <= i < |sql| ==> sql[i] != '?'
    ensures Pieces(sql, upTo) == sql[..upTo]
  {
    if upTo > 0 {
      NoPlaceholders(sql, upTo - 1);
      assert sql[..upTo] == sql[..upTo - 1] + [sql[upTo - 1]];
    }
  }

  /** The rewrite of a prefix is a prefix of the rewrite. */
  lemma {:induction false} PiecesPrefix(sql: string, a: nat, b: nat)
    requires a <= b <= |sql|
    ensures |Pieces(sql, a)| <= |Pieces(sql, b)|
    ensures Pieces(sql, b)[..|Pieces(sql, a)|] == Pieces(sql, a)
    decreases b - a
  {
    if a < b {
      PiecesPrefix(sql, a, b - 1);
      var p := Pieces(sql, b - 1);
      var x := Piece(sql, b - 1);
      var n := |Pieces(sql, a)|;
      assert Pieces(sql, b) == p + x;
      assert (p + x)[..n] == p[..n];
    }
  }

  /** In the rewritten text, the question mark at position `p` of the SQL
      text sits replaced, at the offset its prefix's rewrite ends, by `$k`
      where `k` counts the question marks up to and including it. */
  lemma PlaceholderAt(sql: string, p: nat)
    requires p < |sql| && sql[p] == '?'
    ensures |Pieces(sql, p)| + 1 + |DecimalString(QCount(sql[..p]) + 1)| <= |Pieces(sql, |sql|)|
    ensures Pieces(sql, |sql|)[|Pieces(sql, p)|..|Pieces(sql, p + 1)|] == "$" + DecimalString(QCount(sql[..p]) + 1)
  {
    PiecesPrefix(sql, p + 1, |sql|);
    var all := Pieces(sql, |sql|);
    var before := Pieces(sql, p);
    var piece := Piece(sql, p);
    assert piece == "$" + DecimalString(QCount(sql[..p]) + 1);
    var whole := Pieces(sql, p + 1);
    assert whole == before + piece;
    assert all[..|whole|] == whole;
    assert all[|before|..|whole|] == whole[|before|..] == piece;
  }

  lemma {:induction false} QCountGrows(sql: string, p: nat, q: nat)
    requires p < q <= |sql| && sql[p] == '?'
    ensures QCount(sql[..p]) < QCount(sql[..q])
    decreases q - p
  {
    if q == p + 1 {
      assert sql[..q][..p] == sql[..p];
    } else {
      QCountGrows(sql, p, q - 1);
      assert sql[..q][..q - 1] == sql[..q - 1];
    }
  }

  /** Two different question marks get different numbers. */
  lemma DistinctPlaceholders(sql: string, p: nat, q: nat)
    requires p < q < |sql| && sql[p] == '?' && sql[q] == '?'
    ensures Piece(sql, p) != Piece(sql, q)
  {
    QCountGrows(sql, p, q);
    var m, n := QCount(sql[..p]) + 1, QCount(sql[..q]) + 1;
    if Piece(sql, p) == Piece(sql, q) {
      assert DecimalString(m) == Piece(sql, p)[1..] == Piece(sql, q)[1..] == DecimalString(n);
      DecimalStringInjective(m, n);
    }
  }

  // ---------------------------------------------------------------------------
  // Battle pass on the server

  /** A `player_battle_pass` row: the tier, the XP inside it, the XP a tier
      takes, and the tiers whose rewards were claimed. */
  datatype PassRow = PassRow(currentTier: int, currentXP: int, xpRequired: int, claimedRewards: seq<int>)

  datatype XpOutcome = XpOutcome(row: Option<PassRow>, leveledUp: bool)

  /** `/api/battle-pass/add-xp` once the XP is logged: without a row for the
      season nothing changes; otherwise a gain reaching the tier's requirement
      moves up exactly one tier and keeps the excess. */
  function AddPassXP(progress: Option<PassRow>, amount: int): (r: XpOutcome)
    ensures progress.None? ==> r.row.None? && !r.leveledUp
    ensures progress.Some? ==> r.row.Some?
    ensures progress.Some? ==>
      var p, q := progress.value, r.row.value;
      && (r.leveledUp <==> p.currentXP + amount >= p.xpRequired)
      && q.xpRequired == p.xpRequired && q.claimedRewards == p.claimedRewards
      && (r.leveledUp ==> q.currentTier == p.currentTier + 1 && q.currentXP == p.currentXP + amount - p.xpRequired)
      && (!r.leveledUp ==> q.currentTier == p.currentTier && q.currentXP == p.currentXP + amount)
  {
    if progress.None? then XpOutcome(None, false)
    else
      var p := progress.value;
      var newXP := p.currentXP + amount;
      if newXP >= p.xpRequired then XpOutcome(Some(p.(currentTier := p.currentTier + 1, currentXP := newXP - p.xpRequired)), true)
      else XpOutcome(Some(p.(currentXP := newXP)), false)
  }

  /** No XP is lost or created: tiers times requirement plus XP grows by
      exactly the amount. Yet a single gain climbs at most one tier, so a gain
      of two tiers' worth leaves the row above its own requirement. */
  lemma AddPassXPConserves(p: PassRow, amount: int)
    ensures var q := AddPassXP(Some(p), amount).row.value;
      q.currentTier * p.xpRequired + q.currentXP == p.currentTier * p.xpRequired + p.currentXP + amount
    ensures p.xpRequired > 0 && p.currentXP >= 0 && amount >= 2 * p.xpRequired ==>
      AddPassXP(Some(p), amount).row.value.currentXP >= p.xpRequired
  {
    var q := AddPassXP(Some(p), amount).row.value;
    if p.currentXP + amount >= p.xpRequired {
      assert q.currentTier * p.xpRequired == p.currentTier * p.xpRequired + p.xpRequired;
    }
  }

  /** Gems a claimed tier pays: 5 on every tenth tier. */
  function TierGems(tier: int): (g: nat)
    ensures g == GEMS_PER_TEN_TIERS <==> tier > 0 && tier % 10 == 0
    ensures g == 0 || g == GEMS_PER_TEN_TIERS
  {
    if tier > 0 && tier % 10 == 0 then GEMS_PER_TEN_TIERS else 0
  }

  datatype Claim = Claim(claimedRewards: seq<int>, gemsAwarded: nat)

  /** `/api/battle-pass/claim-reward`: refused without a row or above the
      current tier, refused for a tier already claimed, and otherwise records
      the tier and pays its gems. */
  function ClaimReward(progress: Option<PassRow>, tier: int): (r: Result<Claim>)
    ensures progress.None? || progress.value.currentTier < tier ==> r == Err("Tier not yet unlocked")
    ensures progress.Some? && progress.value.currentTier >= tier && tier in progress.value.claimedRewards ==>
              r == Err("Reward already claimed")
    ensures r.Ok? <==> progress.Some? && progress.value.currentTier >= tier && tier !in progress.value.claimedRewards
    ensures r.Ok? ==> r.value.claimedRewards == progress.value.claimedRewards + [tier]
    ensures r.Ok? ==> r.value.gemsAwarded == TierGems(tier)
  {
    if progress.None? || progress.value.currentTier < tier then Err("Tier not yet unlocked")
    else if tier in progress.value.claimedRewards then Err("Reward already claimed")
    else Ok(Claim(progress.value.claimedRewards + [tier], TierGems(tier)))
  }

  predicate NoRepeats(s: seq<int>)
  {
    forall i, j :: 0 <= i < j < |s| ==> s[i] != s[j]
  }

  /** A reward can be claimed once: the claimed list never holds a tier twice,
      and claiming the same tier again is refused. */
  lemma ClaimOnce(p: PassRow, tier: int)
    requires NoRepeats(p.claimedRewards)
    requires ClaimReward(Some(p), tier).Ok?
    ensures NoRepeats(ClaimReward(Some(p), tier).value.claimedRewards)
    ensures ClaimReward(Some(p.(claimedRewards := ClaimReward(Some(p), tier).value.claimedRewards)), tier)
              == Err("Reward already claimed")
  {
    var c := ClaimReward(Some(p), tier).value.claimedRewards;
    assert c[|c| - 1] == tier;
  }

  // ---------------------------------------------------------------------------
  // Daily challenges

  /** How far an event moves a challenge: the event's count when its type
      matches the challenge's metric (and its role the required role, if
      any); `None` when the event does not apply. */
  function ChallengeIncrement(requiredRole: string, metric: string, role: string, eventType: string, count: int): (inc: Option<int>)
    ensures inc.Some? ==> inc.value == count
    ensures inc.Some? <==>
      && (requiredRole == "" || role == requiredRole)
      && ((metric == "wins" && eventType == "win") || (metric == "count" && eventType == "count")
          || (metric == "clues" && eventType == "clue") || (metric == "votes" && eventType == "vote"))
  {
    if requiredRole != "" && role != requiredRole then None
    else if (metric == "wins" && eventType == "win") || (metric == "count" && eventType == "count") then Some(count)
    else if metric == "clues" && eventType == "clue" then Some(count)
    else if metric == "votes" && eventType == "vote" then Some(count)
    else None
  }

  datatype DailyProgress = DailyProgress(progress: int, completed: bool)

  /** The new progress row: the previous progress (none counts as 0) plus the
      increment, capped at the target; complete once the target is reached. */
  function Advance(prev: Option<int>, increment: int, target: int): (r: DailyProgress)
    ensures r.progress <= target
    ensures r.completed <==> r.progress >= target
    ensures r.completed <==> (if prev.None? then 0 else prev.value) + increment >= target
    ensures (if prev.None? then 0 else prev.value) + increment <= target ==>
              r.progress == (if prev.None? then 0 else prev.value) + increment
  {
    var base := if prev.None? then 0 else prev.value;
    var p := if base + increment < target then base + increment else target;
    DailyProgress(p, p >= target)
  }

  function SumOf(s: seq<int>): int
  {
    if s == [] then 0 else SumOf(s[..|s| - 1]) + s[|s| - 1]
  }

  /** The progress after the events `incs`, one `Advance` each. */
  function AdvanceAll(start: int, incs: seq<int>, target: int): int
  {
    if incs == [] then start else Advance(Some(AdvanceAll(start, incs[..|incs| - 1], target)), incs[|incs| - 1], target).progress
  }

  /** For progress that only grows, capping after every event is the same as
      capping the total once. */
  lemma {:induction false} AdvanceAllCaps(start: int, incs: seq<int>, target: int)
    requires start <= target
    requires forall i :: 0 <= i < |incs| ==> incs[i] >= 0
    ensures AdvanceAll(start, incs, target) == if start + SumOf(incs) < target then start + SumOf(incs) else target
  {
    if incs != [] {
      AdvanceAllCaps(start, incs[..|incs| - 1], target);
    }
  }

  // ---------------------------------------------------------------------------
  // Gems

  /** `/api/shop/buy/:itemId`: refused when the item is owned, unknown, or
      dearer than the balance (a missing balance row counts as 0 gems);
      otherwise the balance after paying. */
  function Buy(alreadyOwned: bool, price: Option<int>, gems: Option<int>): (r: Result<int>)
    ensures alreadyOwned ==> r == Err("Already owned")
    ensures !alreadyOwned && price.None? ==> r == Err("Item not found")
    ensures r.Ok? <==> !alreadyOwned && price.Some? && (if gems.None? then 0 else gems.value) >= price.value
    ensures r.Ok? ==> r.value >= 0 && r.value == (if gems.None? then 0 else gems.value) - price.value
  {
    if alreadyOwned then Err("Already owned")
    else if price.None? then Err("Item not found")
    else
      var current := if gems.None? then 0 else gems.value;
      if current < price.value then Err("Not enough gems") else Ok(current - price.value)
  }

  /** `/api/player/gems/spend` as written: refused without a row or when the
      balance is below the amount; otherwise the balance minus the amount. */
  function SpendGems(gems: Option<int>, amount: int): (r: Result<int>)
    ensures r.Ok? <==> gems.Some? && gems.value >= amount
    ensures r.Ok? ==> r.value >= 0 && r.value == gems.value - amount
    ensures r.Err? ==> r.msg == "Insufficient gems"
  {
    if gems.None? || gems.value < amount then Err("Insufficient gems") else Ok(gems.value - amount)
  }

  /** Nothing stops a negative amount, so "spending" one raises the balance:
      100 gems appear from an empty balance. */
  lemma NegativeSpendMints()
    ensures SpendGems(Some(0), -100) == Ok(100)
  {
  }

  /** The spend rule with the amount required to be positive. */
  function SpendGemsChecked(gems: Option<int>, amount: int): (r: Result<int>)
    ensures r.Ok? <==> amount > 0 && gems.Some? && gems.value >= amount
    ensures r.Ok? ==> 0 <= r.value < gems.value && r.value == gems.value - amount
  {
    if amount <= 0 then Err("Invalid amount") else SpendGems(gems, amount)
  }

  /** With the check, spending can never raise a balance. */
  lemma SpendNeverMints(gems: Option<int>, amount: int)
    requires SpendGemsChecked(gems, amount).Ok?
    ensures SpendGemsChecked(gems, amount).value < gems.value
  {
  }
}

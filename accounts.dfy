/** Local accounts and the local game history: account creation, XP with coin
    awards, the level read-out, the bounded history and the per-user
    statistics computed from it. */
module Accounts {
  import opened Wrappers
  import opened Text
  import BoundedLog

  const MIN_PASSWORD: nat := 6
  const XP_PER_COIN_STEP: nat := 50
  const COINS_PER_STEP: nat := 10
  const XP_PER_LEVEL: nat := 100
  const HISTORY_CAP: nat := 50
  const DEFAULT_RECENT: nat := 10

  datatype Account = Account(
    password: string, email: string, xp: int, coins: int, skins: seq<string>,
    created: nat, sessionToken: string)

  datatype GameRecord = GameRecord(
    timestamp: nat, players: seq<string>, imposters: seq<string>, word: string,
    won: bool, imposterWon: bool)

  datatype Stats = Stats(gamesPlayed: nat, wins: nat, civilianWins: nat, imposterWins: nat)

  datatype Level = Level(level: int, progress: int)

  // ---------------------------------------------------------------------------
  // Validation

  /** `/^\S+@\S+\.\S+$/`: no white space at all, an `@` with something
      before it, and after it something, a dot, and something. */
  predicate ValidEmail(s: string)
  {
    && (forall k :: 0 <= k < |s| ==> !IsJsSpace(s[k]))
    && exists i, j | 0 <= i < |s| && 0 <= j < |s| :: AtAndDot(s, i, j)
  }

  /** An `@` at `i` and a dot at `j`, with at least one character before,
      between and after them. */
  predicate AtAndDot(s: string, i: int, j: int)
  {
    1 <= i && i + 2 <= j && j + 2 <= |s| && s[i] == '@' && s[j] == '.'
  }

  /** The pattern read as a concatenation: `s` splits as `a + "@" + b + "." + c`
      with `a`, `b` and `c` non-empty exactly when `@` and `.` sit at
      positions `AtAndDot` accepts. */
  lemma AtAndDotSplit(s: string, i: int, j: int)
    requires 1 <= i && i + 2 <= j && j + 2 <= |s|
    ensures AtAndDot(s, i, j) <==> s == s[..i] + "@" + s[i + 1..j] + "." + s[j + 1..]
  {
    var t := s[..i] + "@" + s[i + 1..j] + "." + s[j + 1..];
    assert |t| == |s|;
    assert t[i] == '@' && t[j] == '.';
    if AtAndDot(s, i, j) {
      forall k | 0 <= k < |s| ensures t[k] == s[k] {
        if k < i {
        } else if k == i {
        } else if k < j {
          assert t[k] == s[i + 1..j][k - i - 1];
        } else if k == j {
        } else {
          assert t[k] == s[j + 1..][k - j - 1];
        }
      }
    }
  }

  /** Whether some account already uses `email`, compared in lower case. */
  predicate EmailInUse(accounts: map<string, Account>, email: string)
  {
    exists u :: u in accounts && accounts[u].email != "" && LowerString(accounts[u].email) == LowerString(email)
  }

  /** The first check of `createAccount` that a request fails, if any. */
  function Rejection(accounts: map<string, Account>, username: string, password: string, email: string): (e: Option<string>)
    ensures e.None? ==> username != "" && password != "" && email != ""
    ensures e.None? ==> Utf16Length(password) >= MIN_PASSWORD && ValidEmail(email)
    ensures e.None? ==> username !in accounts && !EmailInUse(accounts, email)
    ensures username in accounts ==> e.Some?
    ensures EmailInUse(accounts, email) ==> e.Some?
  {
    if username == "" || password == "" || email == "" then Some("Username, password and email required")
    else if Utf16Length(password) < MIN_PASSWORD then Some("Password must be at least 6 characters")
    else if !ValidEmail(email) then Some("Invalid email address")
    else if username in accounts then Some("Username already exists")
    else if EmailInUse(accounts, email) then Some("Email already in use")
    else None
  }

  /** Email addresses compare without regard to ASCII case: a request whose
      address differs from a stored one only in letter case is refused. */
  lemma EmailCaseInsensitive(accounts: map<string, Account>, u: string, email: string)
    requires u in accounts && accounts[u].email != ""
    requires |email| == |accounts[u].email|
    requires forall k :: 0 <= k < |email| ==> Lower(email[k]) == Lower(accounts[u].email[k])
    ensures EmailInUse(accounts, email)
  {
    assert LowerString(accounts[u].email) == LowerString(email);
  }

  // ---------------------------------------------------------------------------
  // XP, coins and levels

  /** Coins for moving from `oldXp` to `newXp`: 10 for each 50-XP step the
      floor of XP/50 rises by, none when it falls. */
  function CoinAward(oldXp: int, newXp: int): (c: nat)
    ensures c % COINS_PER_STEP == 0
    ensures c > 0 <==> newXp / XP_PER_COIN_STEP > oldXp / XP_PER_COIN_STEP
    ensures newXp <= oldXp ==> c == 0
  {
    if newXp / XP_PER_COIN_STEP > oldXp / XP_PER_COIN_STEP
    then COINS_PER_STEP * (newXp / XP_PER_COIN_STEP - oldXp / XP_PER_COIN_STEP)
    else 0
  }

  /** The multiples of 50 in the interval `(a, b]`. */
  function MultiplesIn(a: int, b: int): nat
    decreases b - a
  {
    if b <= a then 0 else MultiplesIn(a, b - 1) + (if b % XP_PER_COIN_STEP == 0 then 1 else 0)
  }

  lemma FloorStep(b: int)
    ensures b / XP_PER_COIN_STEP - (b - 1) / XP_PER_COIN_STEP == if b % XP_PER_COIN_STEP == 0 then 1 else 0
  {
  }

  /** A gain of XP earns 10 coins for every multiple of 50 it passes or reaches. */
  lemma {:induction false} CoinsCountThresholds(a: int, b: int)
    requires a <= b
    ensures CoinAward(a, b) == COINS_PER_STEP * MultiplesIn(a, b)
    decreases b - a
  {
    if b > a {
      CoinsCountThresholds(a, b - 1);
      FloorStep(b);
    }
  }

  /** Two gains in a row earn the same coins as one gain of their sum. */
  lemma CoinAwardAdds(a: int, b: int, c: int)
    requires a <= b <= c
    ensures CoinAward(a, b) + CoinAward(b, c) == CoinAward(a, c)
  {
    assert a / XP_PER_COIN_STEP <= b / XP_PER_COIN_STEP <= c / XP_PER_COIN_STEP;
  }

  /** The accounts after `account_addXP(username, amount)`. */
  function WithXP(accounts: map<string, Account>, username: string, amount: int): (r: map<string, Account>)
    ensures r.Keys == accounts.Keys
    ensures forall u :: u in accounts && u != username ==> r[u] == accounts[u]
    ensures username == "" || amount == 0 || username !in accounts ==> r == accounts
    ensures username != "" && amount != 0 && username in accounts ==>
              var a := accounts[username];
              r[username] == a.(xp := a.xp + amount, coins := a.coins + CoinAward(a.xp, a.xp + amount))
  {
    if username == "" || amount == 0 || username !in accounts then accounts
    else
      var a := accounts[username];
      accounts[username := a.(xp := a.xp + amount, coins := a.coins + CoinAward(a.xp, a.xp + amount))]
  }

  /** `account_addXP(names[i], amount)` for every `i` in turn. */
  function ApplyXP(accounts: map<string, Account>, names: seq<string>, amount: int): map<string, Account>
  {
    if names == [] then accounts
    else WithXP(ApplyXP(accounts, names[..|names| - 1], amount), names[|names| - 1], amount)
  }

  lemma ApplyXPSnoc(accounts: map<string, Account>, names: seq<string>, u: string, amount: int)
    ensures ApplyXP(accounts, names + [u], amount) == WithXP(ApplyXP(accounts, names, amount), u, amount)
  {
    assert (names + [u])[..|names|] == names;
  }

  /** How often `u` occurs in `names`. */
  function Occurrences(names: seq<string>, u: string): nat
  {
    if names == [] then 0
    else Occurrences(names[..|names| - 1], u) + (if names[|names| - 1] == u then 1 else 0)
  }

  /** Awarding `amount` to a list of names gives each named account `amount`
      per occurrence of its name, never takes coins away for a gain, and leaves
      every other account as it was. */
  lemma {:induction false} ApplyXPGains(accounts: map<string, Account>, names: seq<string>, amount: int, u: string)
    requires u in accounts && u != "" && amount > 0
    ensures ApplyXP(accounts, names, amount).Keys == accounts.Keys
    ensures ApplyXP(accounts, names, amount)[u].xp == accounts[u].xp + amount * Occurrences(names, u)
    ensures ApplyXP(accounts, names, amount)[u].coins >= accounts[u].coins
    ensures Occurrences(names, u) == 0 ==> ApplyXP(accounts, names, amount)[u] == accounts[u]
  {
    if names != [] {
      var init := names[..|names| - 1];
      var last := names[|names| - 1];
      ApplyXPGains(accounts, init, amount, u);
      var before := ApplyXP(accounts, init, amount);
      var k := Occurrences(init, u);
      assert before[u].xp == accounts[u].xp + amount * k;
      if last == u {
        assert Occurrences(names, u) == k + 1;
        assert amount * (k + 1) == amount * k + amount;
      } else {
        assert Occurrences(names, u) == k;
      }
    }
  }

  /** JavaScript's `%`: the remainder takes the sign of the dividend. */
  function JsRem(a: int, b: int): (r: int)
    requires b > 0
    ensures a >= 0 ==> 0 <= r < b
    ensures a < 0 ==> -b < r <= 0
    ensures a == TruncDiv(a, b) * b + r
  {
    if a >= 0 then a % b else -((-a) % b)
  }

  /** Division rounding toward zero, JavaScript's `Math.trunc(a / b)`. */
  function TruncDiv(a: int, b: int): int
    requires b > 0
  {
    if a >= 0 then a / b else -((-a) / b)
  }

  /** `account_getLevelFromXP`: the level is the floor of XP/100 and the
      progress JavaScript's remainder. For non-negative XP they recombine to
      the XP; for negative XP that is not a multiple of 100 the floored level
      and the truncated remainder miss it by exactly 100. */
  function LevelFromXP(xp: int): (l: Level)
    ensures xp >= 0 ==> l.level * XP_PER_LEVEL + l.progress == xp && 0 <= l.progress < XP_PER_LEVEL
    ensures xp < 0 && xp % XP_PER_LEVEL != 0 ==> l.level * XP_PER_LEVEL + l.progress == xp - XP_PER_LEVEL
    ensures xp < 0 && xp % XP_PER_LEVEL == 0 ==> l.level * XP_PER_LEVEL + l.progress == xp
  {
    Level(xp / XP_PER_LEVEL, JsRem(xp, XP_PER_LEVEL))
  }

  /** A history entry as `logGame` builds it. */
  function Entry(players: seq<string>, imposters: seq<string>, word: string, won: bool, imposterWon: bool, now: nat): GameRecord
  {
    GameRecord(now, players, imposters, word, won, imposterWon)
  }

  // ---------------------------------------------------------------------------
  // History views

  /** The index where `games.slice(-limit)` starts: `-0` is 0, so a limit of
      0 keeps everything, and a negative limit drops entries from the front. */
  function SliceStart(len: nat, limit: int): (start: nat)
    ensures start <= len
  {
    if limit == 0 then 0
    else if limit > 0 then (if limit >= len then 0 else len - limit)
    else (if -limit >= len then len else -limit)
  }

  /** `getRecentGames`: the last `limit` entries, newest first. */
  function Recent(games: seq<GameRecord>, limit: int): (r: seq<GameRecord>)
    ensures limit > 0 ==> |r| == if limit < |games| then limit else |games|
    ensures limit == 0 ==> |r| == |games|
    ensures limit < 0 ==> |r| == |games| - SliceStart(|games|, limit)
    ensures forall i :: 0 <= i < |r| ==> r[i] == games[|games| - 1 - i]
  {
    Reverse(games[SliceStart(|games|, limit)..])
  }

  // ---------------------------------------------------------------------------
  // Statistics

  /** One game's effect on a user's statistics. */
  function StatsStep(s: Stats, g: GameRecord, user: string): Stats
  {
    if user !in g.players then s
    else if g.won then
      if user !in g.imposters then Stats(s.gamesPlayed + 1, s.wins + 1, s.civilianWins + 1, s.imposterWins)
      else s.(gamesPlayed := s.gamesPlayed + 1)
    else
      if user in g.imposters then Stats(s.gamesPlayed + 1, s.wins + 1, s.civilianWins, s.imposterWins + 1)
      else s.(gamesPlayed := s.gamesPlayed + 1)
  }

  /** The reference statistics of `user` over `games`, oldest first. */
  function StatsOf(games: seq<GameRecord>, user: string): Stats
  {
    if games == [] then Stats(0, 0, 0, 0)
    else StatsStep(StatsOf(games[..|games| - 1], user), games[|games| - 1], user)
  }

  /** The games `user` took part in. */
  function GamesWith(games: seq<GameRecord>, user: string): nat
  {
    if games == [] then 0
    else GamesWith(games[..|games| - 1], user) + (if user in games[|games| - 1].players then 1 else 0)
  }

  /** A win is a civilian win or an imposter win, and a user cannot win more
      games than they played, which are the games listing them. */
  lemma {:induction false} StatsConsistent(games: seq<GameRecord>, user: string)
    ensures StatsOf(games, user).wins == StatsOf(games, user).civilianWins + StatsOf(games, user).imposterWins
    ensures StatsOf(games, user).wins <= StatsOf(games, user).gamesPlayed
    ensures StatsOf(games, user).gamesPlayed == GamesWith(games, user)
  {
    if games != [] {
      StatsConsistent(games[..|games| - 1], user);
    }
  }

  // ---------------------------------------------------------------------------
  // The stored state

  /** The `accounts` and `gameHistory` entries of browser storage. */
  class AccountStore {
    var accounts: map<string, Account>
    var history: seq<GameRecord>

    constructor ()
      ensures accounts == map[] && history == []
    {
      accounts := map[];
      history := [];
    }

    ghost predicate Valid()
      reads this
    {
      |history| <= HISTORY_CAP
    }

    /** `createAccount`. `encrypted` is what the password encryption returned
      (`None` when it failed); `token` and `now` stand for the session token
      and the clock. A refused request changes nothing. */
    method CreateAccount(username: string, password: string, email: string,
                         encrypted: Option<string>, token: string, now: nat) returns (ok: bool, msg: string)
      modifies this
      ensures history == old(history)
      ensures Rejection(old(accounts), username, password, email).Some? ==>
                !ok && msg == Rejection(old(accounts), username, password, email).value && accounts == old(accounts)
      ensures Rejection(old(accounts), username, password, email).None? && encrypted.None? ==>
                !ok && msg == "Encryption failed" && accounts == old(accounts)
      ensures Rejection(old(accounts), username, password, email).None? && encrypted.Some? ==>
                ok && msg == ""
                && accounts == old(accounts)[username := Account(encrypted.value, email, 0, 0, [], now, token)]
    {
      var e := Rejection(accounts, username, password, email);
      if e.Some? {
        return false, e.value;
      }
      if encrypted.None? {
        return false, "Encryption failed";
      }
      accounts := accounts[username := Account(encrypted.value, email, 0, 0, [], now, token)];
      ok, msg := true, "";
    }

    /** `account_addXP`: refused (and nothing changes) for an empty name, a
      zero amount or a missing account; otherwise adds the XP, and the coins
      for every 50-XP step crossed. */
    method AddXP(username: string, amount: int) returns (ok: bool)
      modifies this
      ensures history == old(history)
      ensures ok <==> username != "" && amount != 0 && username in old(accounts)
      ensures accounts == WithXP(old(accounts), username, amount)
    {
      if username == "" || amount == 0 || username !in accounts {
        return false;
      }
      var a := accounts[username];
      var newXp := a.xp + amount;
      var crossed := newXp / XP_PER_COIN_STEP - a.xp / XP_PER_COIN_STEP;
      var coins := a.coins;
      if crossed > 0 {
        coins := coins + crossed * COINS_PER_STEP;
      }
      accounts := accounts[username := a.(xp := newXp, coins := coins)];
      ok := true;
    }

    /** `logGame`: appends one entry and drops the oldest beyond 50. */
    method LogGame(players: seq<string>, imposters: seq<string>, word: string,
                   won: bool, imposterWon: bool, now: nat) returns (ok: bool)
      requires Valid()
      modifies this
      ensures Valid() && ok && accounts == old(accounts)
      ensures history == BoundedLog.Newest(old(history) + [Entry(players, imposters, word, won, imposterWon, now)], HISTORY_CAP)
      ensures history[|history| - 1] == Entry(players, imposters, word, won, imposterWon, now)
    {
      var entry := Entry(players, imposters, word, won, imposterWon, now);
      BoundedLog.AppendIsNewest(history, entry, HISTORY_CAP);
      history := history + [entry];
      if |history| > HISTORY_CAP {
        history := history[1..];
      }
      ok := true;
    }

    /** `getRecentGames`. */
    function RecentGames(limit: int): (r: seq<GameRecord>)
      reads this
      ensures r == Recent(history, limit)
      ensures limit > 0 ==> |r| <= limit
    {
      Recent(history, limit)
    }

    /** `getRecentGames()` with its default limit of ten. */
    function DefaultRecentGames(): (r: seq<GameRecord>)
      reads this
      ensures |r| == if |history| < DEFAULT_RECENT then |history| else DEFAULT_RECENT
      ensures forall i :: 0 <= i < |r| ==> r[i] == history[|history| - 1 - i]
    {
      RecentGames(DEFAULT_RECENT)
    }

    /** `calculatePlayerStats` without the rounded win rate. */
    method PlayerStats(username: string) returns (s: Stats)
      ensures s == StatsOf(history, username)
      ensures s.wins == s.civilianWins + s.imposterWins <= s.gamesPlayed
      ensures s.gamesPlayed == GamesWith(history, username)
    {
      var games := history;
      s := Stats(0, 0, 0, 0);
      var i := 0;
      while i < |games|
        invariant 0 <= i <= |games|
        invariant s == StatsOf(games[..i], username)
      {
        assert games[..i + 1][..i] == games[..i];
        var g := games[i];
        if username in g.players {
          s := s.(gamesPlayed := s.gamesPlayed + 1);
          if g.won {
            if username !in g.imposters {
              s := s.(wins := s.wins + 1, civilianWins := s.civilianWins + 1);
            }
          } else if username in g.imposters {
            s := s.(wins := s.wins + 1, imposterWins := s.imposterWins + 1);
          }
        }
        i := i + 1;
      }
      assert games[..i] == games;
      StatsConsistent(games, username);
    }
  }
}

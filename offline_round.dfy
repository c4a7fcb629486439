/** The single-device round: the players pass one device around, the game
    picks imposters, shows every player a role, runs the discussion, collects
    one vote per player into a tally and scores the round. */
module OfflineRound {
  import opened Wrappers
  import opened Text
  import RateLimit
  import Accounts
  import BoundedLog

  const MIN_PLAYERS: int := 3
  const MAX_PLAYERS: int := 10
  const DEFAULT_PLAYERS: int := 6
  const DEFAULT_DISCUSSION: int := 120
  const MIN_DISCUSSION: int := 5
  const VOTE_LIMIT: int := 3
  const VOTE_WINDOW_MS: int := 1000
  const CIVILIAN_XP: int := 5
  const IMPOSTER_XP: int := 10

  datatype Seat = Seat(id: nat, name: string)
  datatype ScoreEntry = ScoreEntry(id: nat, name: string, score: int)
  datatype OfflineVote = OfflineVote(voter: string, target: string, targetIdx: nat)

  // ---------------------------------------------------------------------------
  // Setup

  /** `parseInt(playerCount) || 6` clamped to [3, 10]; `None` is a field that
      does not parse. */
  function PlayerCount(input: Option<int>): (n: int)
    ensures MIN_PLAYERS <= n <= MAX_PLAYERS
    ensures input.Some? && MIN_PLAYERS <= input.value <= MAX_PLAYERS ==> n == input.value
    ensures input.None? || input == Some(0) ==> n == DEFAULT_PLAYERS
  {
    var raw := if input.None? || input.value == 0 then DEFAULT_PLAYERS else input.value;
    if raw < MIN_PLAYERS then MIN_PLAYERS else if raw > MAX_PLAYERS then MAX_PLAYERS else raw
  }

  /** `parseInt(imposterCount) || 1`, capped at `max(1, n - 1)`; a negative
      entry is not raised and then picks no imposter at all. */
  function ImposterNum(input: Option<int>, n: int): (m: int)
    ensures m <= if n - 1 > 1 then n - 1 else 1
    ensures input.None? || input == Some(0) ==> m == 1
    ensures input.Some? && input.value != 0 && input.value <= n - 1 ==> m == input.value
  {
    var raw := if input.None? || input.value == 0 then 1 else input.value;
    var cap := if n - 1 > 1 then n - 1 else 1;
    if raw < cap then raw else cap
  }

  /** A player's name: the typed name, else the signed-in user for the first
      seat, else `Player i+1`. */
  function SeatName(typed: string, i: nat, currentUser: Option<string>): (name: string)
    ensures typed != "" ==> name == typed
    ensures name != ""
  {
    if typed != "" then typed
    else if i == 0 && currentUser.Some? && currentUser.value != "" then currentUser.value
    else "Player " + DecimalString(i + 1)
  }

  /** The fresh score table for `n` seats, ids `0 .. n-1`. */
  function FreshScores(names: seq<string>, currentUser: Option<string>, n: nat): (s: seq<ScoreEntry>)
    ensures |s| == n
    ensures forall i :: 0 <= i < n ==> s[i].id == i && s[i].score == 0
  {
    seq(n, i requires 0 <= i < n => ScoreEntry(i, SeatName(if i < |names| then names[i] else "", i, currentUser), 0))
  }

  /** `playerScores.map(p => ({id, name}))`. */
  function SeatsOf(scores: seq<ScoreEntry>): (seats: seq<Seat>)
    ensures |seats| == |scores|
    ensures forall i :: 0 <= i < |scores| ==> seats[i] == Seat(scores[i].id, scores[i].name)
  {
    seq(|scores|, i requires 0 <= i < |scores| => Seat(scores[i].id, scores[i].name))
  }

  function Range(n: nat): (r: seq<nat>)
    ensures |r| == n && forall i :: 0 <= i < n ==> r[i] == i
  {
    seq(n, i requires 0 <= i < n => i)
  }

  /** Sampling without replacement: draw `d` takes position `d mod |avail|`
      out of the indices still available; once none are left JavaScript reads
      `availableIndices[0]` of an empty array, and `None` stands for that
      `undefined`. */
  function Sample(avail: seq<nat>, draws: seq<nat>): (r: seq<Option<nat>>)
    ensures |r| == |draws|
    decreases |draws|
  {
    if draws == [] then []
    else if avail == [] then [None] + Sample([], draws[1..])
    else
      var k := draws[0] % |avail|;
      [Some(avail[k])] + Sample(avail[..k] + avail[k + 1..], draws[1..])
  }

  predicate DistinctNats(s: seq<nat>)
  {
    forall i, j :: 0 <= i < j < |s| ==> s[i] != s[j]
  }

  /** Taking position `k` out of a list without repeats leaves a list
      without repeats, made of the other members. */
  lemma RemoveAt(avail: seq<nat>, k: nat)
    requires DistinctNats(avail) && k < |avail|
    ensures DistinctNats(avail[..k] + avail[k + 1..])
    ensures forall x :: x in avail[..k] + avail[k + 1..] ==> x in avail && x != avail[k]
  {
    var rest := avail[..k] + avail[k + 1..];
    forall i, j | 0 <= i < j < |rest| ensures rest[i] != rest[j] {
      var i' := if i < k then i else i + 1;
      var j' := if j < k then j else j + 1;
      assert rest[i] == avail[i'] && rest[j] == avail[j'];
    }
    forall x | x in rest ensures x in avail && x != avail[k] {
      var i :| 0 <= i < |rest| && rest[i] == x;
      var i' := if i < k then i else i + 1;
      assert rest[i] == avail[i'];
    }
  }

  /** `Sample` picks one index per draw while any are left, and `None` after
      that. */
  lemma {:induction false} SampleDefined(avail: seq<nat>, draws: seq<nat>)
    ensures forall i :: 0 <= i < |draws| ==> (Sample(avail, draws)[i].Some? <==> i < |avail|)
    decreases |draws|
  {
    if draws != [] {
      var r := Sample(avail, draws);
      if avail == [] {
        SampleDefined([], draws[1..]);
        assert forall i :: 1 <= i < |draws| ==> r[i] == Sample([], draws[1..])[i - 1];
      } else {
        var k := draws[0] % |avail|;
        var rest := avail[..k] + avail[k + 1..];
        SampleDefined(rest, draws[1..]);
        assert forall i :: 1 <= i < |draws| ==> r[i] == Sample(rest, draws[1..])[i - 1];
      }
    }
  }

  /** The picks of `Sample` are distinct members of `avail`. */
  lemma {:induction false} SampleDistinct(avail: seq<nat>, draws: seq<nat>)
    requires DistinctNats(avail)
    ensures forall i :: 0 <= i < |draws| && Sample(avail, draws)[i].Some? ==> Sample(avail, draws)[i].value in avail
    ensures forall i, j :: 0 <= i < j < |draws| && Sample(avail, draws)[i].Some? ==> Sample(avail, draws)[i] != Sample(avail, draws)[j]
    decreases |draws|
  {
    if draws != [] {
      var r := Sample(avail, draws);
      if avail == [] {
        SampleDistinct([], draws[1..]);
        assert forall i :: 1 <= i < |draws| ==> r[i] == Sample([], draws[1..])[i - 1];
      } else {
        var k := draws[0] % |avail|;
        var rest := avail[..k] + avail[k + 1..];
        RemoveAt(avail, k);
        SampleDistinct(rest, draws[1..]);
        var tail := Sample(rest, draws[1..]);
        assert r == [Some(avail[k])] + tail;
        forall i | 1 <= i < |draws| && r[i].Some? ensures r[i].value in avail && r[i].value != avail[k] {
          assert r[i] == tail[i - 1];
        }
      }
    }
  }

  /** The loop of `newGame` that pushes a random available index and splices
      it out, `count` times. */
  method SampleImposters(players: nat, count: int, draws: seq<nat>) returns (picked: seq<Option<nat>>)
    requires count <= |draws|
    ensures picked == Sample(Range(players), draws[..if count < 0 then 0 else count])
    ensures forall i :: 0 <= i < |picked| ==> (picked[i].Some? <==> i < players)
    ensures forall i :: 0 <= i < |picked| && picked[i].Some? ==> picked[i].value < players
    ensures forall i, j :: 0 <= i < j < |picked| && picked[i].Some? ==> picked[i] != picked[j]
  {
    var total := if count < 0 then 0 else count;
    var available := Range(players);
    picked := [];
    var i := 0;
    while i < total
      invariant 0 <= i <= total
      invariant picked + Sample(available, draws[i..total]) == Sample(Range(players), draws[..total])
    {
      assert draws[i..total] == [draws[i]] + draws[i + 1..total];
      if available == [] {
        picked := picked + [None];
      } else {
        var k := draws[i] % |available|;
        picked := picked + [Some(available[k])];
        available := available[..k] + available[k + 1..];
      }
      i := i + 1;
    }
    SampleDefined(Range(players), draws[..total]);
    SampleDistinct(Range(players), draws[..total]);
  }

  // ---------------------------------------------------------------------------
  // Tally

  /** The zero tally, `new Array(n).fill(0)`. */
  function Zeros(n: nat): (z: seq<int>)
    ensures |z| == n && forall i :: 0 <= i < n ==> z[i] == 0
  {
    seq(n, _ => 0)
  }

  /** The tally array after the votes `vs`, one `voteTally[targetIdx]++` each. */
  function TallyOf(vs: seq<OfflineVote>, n: nat): (t: seq<int>)
    requires forall k :: 0 <= k < |vs| ==> vs[k].targetIdx < n
    ensures |t| == n
  {
    if vs == [] then Zeros(n)
    else
      var t := TallyOf(vs[..|vs| - 1], n);
      var j := vs[|vs| - 1].targetIdx;
      t[j := t[j] + 1]
  }

  /** The votes with target `j`. */
  function VotesFor(vs: seq<OfflineVote>, j: nat): nat
  {
    if vs == [] then 0
    else VotesFor(vs[..|vs| - 1], j) + (if vs[|vs| - 1].targetIdx == j then 1 else 0)
  }

  function Sum(s: seq<int>): int
  {
    if s == [] then 0 else s[0] + Sum(s[1..])
  }

  /** The tally counts, for every target, exactly the votes aimed at it. */
  lemma {:induction false} TallyCounts(vs: seq<OfflineVote>, n: nat, j: nat)
    requires forall k :: 0 <= k < |vs| ==> vs[k].targetIdx < n
    requires j < n
    ensures TallyOf(vs, n)[j] == VotesFor(vs, j)
  {
    if vs != [] {
      TallyCounts(vs[..|vs| - 1], n, j);
    }
  }

  lemma {:induction false} SumZeros(n: nat)
    ensures Sum(Zeros(n)) == 0
  {
    if n > 0 {
      assert Zeros(n)[1..] == Zeros(n - 1);
      SumZeros(n - 1);
    }
  }

  lemma {:induction false} SumIncrement(s: seq<int>, j: nat)
    requires j < |s|
    ensures Sum(s[j := s[j] + 1]) == Sum(s) + 1
  {
    if j == 0 {
      assert s[j := s[j] + 1][1..] == s[1..];
    } else {
      assert s[j := s[j] + 1][1..] == s[1..][j - 1 := s[j] + 1];
      SumIncrement(s[1..], j - 1);
    }
  }

  /** Every vote lands in exactly one slot: the tally sums to the number of votes. */
  lemma {:induction false} TallySum(vs: seq<OfflineVote>, n: nat)
    requires forall k :: 0 <= k < |vs| ==> vs[k].targetIdx < n
    ensures Sum(TallyOf(vs, n)) == |vs|
  {
    if vs == [] {
      SumZeros(n);
    } else {
      TallySum(vs[..|vs| - 1], n);
      SumIncrement(TallyOf(vs[..|vs| - 1], n), vs[|vs| - 1].targetIdx);
    }
  }

  // ---------------------------------------------------------------------------
  // Outcome of the vote

  function MaxOf(s: seq<int>): (m: int)
    requires s != []
    ensures forall i :: 0 <= i < |s| ==> s[i] <= m
    ensures exists i :: 0 <= i < |s| && s[i] == m
  {
    if |s| == 1 then s[0]
    else
      var rest := MaxOf(s[1..]);
      assert forall i :: 1 <= i < |s| ==> s[i] == s[1..][i - 1];
      if s[0] >= rest then s[0] else rest
  }

  function FirstIndexOf(s: seq<int>, v: int): (k: int)
    ensures -1 <= k < |s|
    ensures k >= 0 ==> s[k] == v && forall i :: 0 <= i < k ==> s[i] != v
    ensures k == -1 ==> forall i :: 0 <= i < |s| ==> s[i] != v
  {
    if s == [] then -1
    else if s[0] == v then 0
    else
      var k := FirstIndexOf(s[1..], v);
      if k == -1 then -1 else k + 1
  }

  /** `voteTally.indexOf(Math.max(...voteTally))`: -1 for an empty tally,
      otherwise the first index holding the largest count. */
  function Accused(tally: seq<int>): (k: int)
    ensures k == -1 <==> tally == []
    ensures k >= 0 ==> k < |tally| && (forall i :: 0 <= i < |tally| ==> tally[i] <= tally[k])
    ensures k >= 0 ==> forall i :: 0 <= i < k ==> tally[i] < tally[k]
  {
    if tally == [] then -1 else FirstIndexOf(tally, MaxOf(tally))
  }

  /** `imposterIndices.includes(i)`. */
  predicate IsImposter(imps: seq<Option<nat>>, i: int)
  {
    i >= 0 && Some(i as nat) in imps
  }

  /** Every imposter index is the target of some vote (an `undefined` entry
      never is). */
  predicate AllCaught(imps: seq<Option<nat>>, vs: seq<OfflineVote>)
  {
    forall k :: 0 <= k < |imps| ==> imps[k].Some? && exists v :: v in vs && v.targetIdx == imps[k].value
  }

  /** A seat is the target of some vote exactly when its tally slot is
      positive. */
  lemma TargetedByTally(vs: seq<OfflineVote>, n: nat, j: nat)
    requires forall k :: 0 <= k < |vs| ==> vs[k].targetIdx < n
    ensures (exists v :: v in vs && v.targetIdx == j) <==> j < n && TallyOf(vs, n)[j] > 0
  {
    VotesForPositive(vs, j);
    if j < n {
      TallyCounts(vs, n, j);
    } else {
      forall v | v in vs ensures v.targetIdx != j {
        var i :| 0 <= i < |vs| && vs[i] == v;
      }
    }
  }

  /** With the tally in step with the votes, all imposters are caught exactly
      when each imposter index has at least one vote in the tally. */
  lemma AllCaughtByTally(imps: seq<Option<nat>>, vs: seq<OfflineVote>, n: nat)
    requires forall k :: 0 <= k < |vs| ==> vs[k].targetIdx < n
    ensures AllCaught(imps, vs) <==>
      forall k :: 0 <= k < |imps| ==> imps[k].Some? && imps[k].value < n && TallyOf(vs, n)[imps[k].value] > 0
  {
    if AllCaught(imps, vs) {
      forall k | 0 <= k < |imps|
        ensures imps[k].Some? && imps[k].value < n && TallyOf(vs, n)[imps[k].value] > 0
      {
        TargetedByTally(vs, n, imps[k].value);
      }
    }
    if forall k :: 0 <= k < |imps| ==> imps[k].Some? && imps[k].value < n && TallyOf(vs, n)[imps[k].value] > 0 {
      forall k | 0 <= k < |imps|
        ensures imps[k].Some? && exists v :: v in vs && v.targetIdx == imps[k].value
      {
        TargetedByTally(vs, n, imps[k].value);
      }
      assert AllCaught(imps, vs);
    }
  }

  lemma {:induction false} VotesForPositive(vs: seq<OfflineVote>, j: nat)
    ensures VotesFor(vs, j) > 0 <==> exists v :: v in vs && v.targetIdx == j
  {
    if vs != [] {
      var init := vs[..|vs| - 1];
      VotesForPositive(init, j);
      assert forall v :: v in vs <==> v in init || v == vs[|vs| - 1];
    }
  }

  /** The two `forEach` loops of `finishVote` that collect every vote's
      target and then look each imposter index up among them. */
  method AllImpostersCaught(imps: seq<Option<nat>>, vs: seq<OfflineVote>) returns (all: bool)
    ensures all <==> AllCaught(imps, vs)
  {
    var accused: set<nat> := {};
    var i := 0;
    while i < |vs|
      invariant 0 <= i <= |vs|
      invariant accused == set k | 0 <= k < i :: vs[k].targetIdx
    {
      accused := accused + {vs[i].targetIdx};
      i := i + 1;
    }
    assert forall j :: j in accused <==> exists v :: v in vs && v.targetIdx == j by {
      forall j ensures j in accused <==> exists v :: v in vs && v.targetIdx == j {
        if j in accused {
          var k :| 0 <= k < |vs| && vs[k].targetIdx == j;
          assert vs[k] in vs;
        }
        if exists v :: v in vs && v.targetIdx == j {
          var v :| v in vs && v.targetIdx == j;
          var k :| 0 <= k < |vs| && vs[k] == v;
        }
      }
    }
    all := true;
    var k := 0;
    while k < |imps|
      invariant 0 <= k <= |imps|
      invariant all <==> forall m :: 0 <= m < k ==> imps[m].Some? && imps[m].value in accused
    {
      if imps[k].None? || imps[k].value !in accused {
        all := false;
      }
      k := k + 1;
    }
  }

  // ---------------------------------------------------------------------------
  // Points

  /** With the imposter caught: +2 to every civilian, then +1 to everyone
      except the accused. */
  function CaughtScore(e: ScoreEntry, imps: seq<Option<nat>>, accused: int): (e': ScoreEntry)
    ensures e'.id == e.id && e'.name == e.name
    ensures e'.score >= e.score
    ensures !IsImposter(imps, e.id) && e.id != accused ==> e'.score == e.score + 3
    ensures !IsImposter(imps, e.id) && e.id == accused ==> e'.score == e.score + 2
    ensures IsImposter(imps, e.id) && e.id != accused ==> e'.score == e.score + 1
    ensures IsImposter(imps, e.id) && e.id == accused ==> e'.score == e.score
  {
    var civilian := if !IsImposter(imps, e.id) then 2 else 0;
    var survivor := if e.id != accused then 1 else 0;
    e.(score := e.score + civilian + survivor)
  }

  /** The position of the first entry with id `id` (`Array.find`). */
  function FindId(scores: seq<ScoreEntry>, id: nat): (k: Option<nat>)
    ensures k.Some? ==> k.value < |scores| && scores[k.value].id == id
    ensures k.Some? ==> forall i :: 0 <= i < k.value ==> scores[i].id != id
    ensures k.None? ==> forall i :: 0 <= i < |scores| ==> scores[i].id != id
  {
    if scores == [] then None
    else if scores[0].id == id then Some(0)
    else
      var k := FindId(scores[1..], id);
      if k.None? then None else Some(k.value + 1)
  }

  /** `votesReceived[idx] === 0`: an index past the end reads `undefined`. */
  predicate NoVotes(vs: seq<OfflineVote>, n: nat, idx: nat)
  {
    idx < n && VotesFor(vs, idx) == 0
  }

  /** With the imposter not caught: each imposter index in turn credits the
      first score entry with that id +3, and +1 more when nobody voted for it. */
  function ImposterScores(scores: seq<ScoreEntry>, imps: seq<Option<nat>>, vs: seq<OfflineVote>, n: nat): (r: seq<ScoreEntry>)
    ensures |r| == |scores|
    ensures forall i :: 0 <= i < |r| ==> r[i].id == scores[i].id && r[i].name == scores[i].name
  {
    if imps == [] then scores
    else
      var before := ImposterScores(scores, imps[..|imps| - 1], vs, n);
      var last := imps[|imps| - 1];
      if last.None? then before
      else
        var k := FindId(before, last.value);
        if k.None? then before
        else
          var bonus := if NoVotes(vs, n, last.value) then 1 else 0;
          before[k.value := before[k.value].(score := before[k.value].score + 3 + bonus)]
  }

  predicate DistinctScoreIds(scores: seq<ScoreEntry>)
  {
    forall i, j :: 0 <= i < j < |scores| ==> scores[i].id != scores[j].id
  }

  predicate DistinctPicks(imps: seq<Option<nat>>)
  {
    forall i, j :: 0 <= i < j < |imps| && imps[i].Some? ==> imps[i] != imps[j]
  }

  /** When the imposters win, each imposter's entry gains 3, or 4 if it drew no
      vote, and every civilian's score is unchanged. */
  lemma {:induction false} ImposterScoresRule(scores: seq<ScoreEntry>, imps: seq<Option<nat>>, vs: seq<OfflineVote>, n: nat, i: nat)
    requires DistinctScoreIds(scores) && DistinctPicks(imps)
    requires i < |scores|
    ensures !IsImposter(imps, scores[i].id) ==> ImposterScores(scores, imps, vs, n)[i] == scores[i]
    ensures IsImposter(imps, scores[i].id) ==>
              ImposterScores(scores, imps, vs, n)[i].score
                == scores[i].score + 3 + (if NoVotes(vs, n, scores[i].id) then 1 else 0)
  {
    if imps != [] {
      var init := imps[..|imps| - 1];
      var last := imps[|imps| - 1];
      assert DistinctPicks(init);
      ImposterScoresRule(scores, init, vs, n, i);
      var before := ImposterScores(scores, init, vs, n);
      assert forall x :: x in imps <==> x in init || x == last;
      if last.Some? {
        var k := FindId(before, last.value);
        if k.Some? {
          assert before[i].id == scores[i].id;
          if k.value == i {
            assert Some(last.value) !in init;
          }
        } else {
          assert before[i].id == scores[i].id;
        }
      }
    }
  }

  /** The XP recipients when the civilians win: every seat whose index is not
      an imposter index, in seat order. */
  function CivilianNames(seats: seq<Seat>, imps: seq<Option<nat>>, upTo: nat): seq<string>
    requires upTo <= |seats|
  {
    if upTo == 0 then []
    else CivilianNames(seats, imps, upTo - 1) + (if !IsImposter(imps, upTo - 1) then [seats[upTo - 1].name] else [])
  }

  /** The XP recipients when the imposters win: the seat of every imposter
      index that refers to one, in pick order. */
  function ImposterNames(seats: seq<Seat>, imps: seq<Option<nat>>, upTo: nat): seq<string>
    requires upTo <= |imps|
  {
    if upTo == 0 then []
    else
      var idx := imps[upTo - 1];
      ImposterNames(seats, imps, upTo - 1) + (if idx.Some? && idx.value < |seats| then [seats[idx.value].name] else [])
  }

  /** `imposterIndices.map(idx => players[idx].name)`, or `None` where that
      throws because an index is `undefined` or past the end. */
  function ResolvedImposters(seats: seq<Seat>, imps: seq<Option<nat>>): (r: Option<seq<string>>)
    ensures r.Some? <==> forall k :: 0 <= k < |imps| ==> imps[k].Some? && imps[k].value < |seats|
    ensures r.Some? ==> |r.value| == |imps| && forall k :: 0 <= k < |imps| ==> r.value[k] == seats[imps[k].value].name
  {
    if imps == [] then Some([])
    else
      var rest := ResolvedImposters(seats, imps[1..]);
      assert forall k :: 1 <= k < |imps| ==> imps[k] == imps[1..][k - 1];
      if imps[0].None? || imps[0].value >= |seats| || rest.None? then None
      else Some([seats[imps[0].value].name] + rest.value)
  }

  function SeatNames(seats: seq<Seat>): (names: seq<string>)
    ensures |names| == |seats| && forall i :: 0 <= i < |seats| ==> names[i] == seats[i].name
  {
    seq(|seats|, i requires 0 <= i < |seats| => seats[i].name)
  }

  /** The seat count `newGame` works with: the current players when asked
      to skip the setup and there are some, the clamped setup field otherwise. */
  function SeatCount(skipSetup: bool, players: seq<Seat>, countInput: Option<int>): (n: int)
    ensures skipSetup && players != [] ==> n == |players|
    ensures !(skipSetup && players != []) ==> MIN_PLAYERS <= n <= MAX_PLAYERS && n == PlayerCount(countInput)
  {
    if skipSetup && players != [] then |players| else PlayerCount(countInput)
  }

  /** Whether `newGame` builds a fresh score table: a full setup with no
      table yet. */
  predicate FreshTable(skipSetup: bool, scores: seq<ScoreEntry>)
  {
    !skipSetup && scores == []
  }

  datatype Table = Table(scores: seq<ScoreEntry>, seats: seq<Seat>, round: nat)

  /** The score table, the seats and the round number `newGame` sets up: a
      fresh table of `n` seats on a full setup without one, the seats copied
      from the table when there are none, and the round counted up. */
  function Seating(skipSetup: bool, scores: seq<ScoreEntry>, seats: seq<Seat>, round: nat,
                   n: int, names: seq<string>, currentUser: Option<string>): (t: Table)
    requires n >= 0
    ensures FreshTable(skipSetup, scores) ==> t.scores == FreshScores(names, currentUser, n) && |t.seats| == n && t.round == 1
    ensures FreshTable(skipSetup, scores) ==> forall i :: 0 <= i < n ==> t.seats[i].id == i
    ensures !FreshTable(skipSetup, scores) ==> t.scores == scores && t.round == round + 1
    ensures !FreshTable(skipSetup, scores) && seats != [] ==> t.seats == seats
    ensures seats == [] ==> t.seats == SeatsOf(t.scores)
  {
    if FreshTable(skipSetup, scores) then
      var table := FreshScores(names, currentUser, n);
      Table(table, SeatsOf(table), 1)
    else Table(scores, if seats == [] then SeatsOf(scores) else seats, round + 1)
  }

  // ---------------------------------------------------------------------------
  // The game state

  /** The global `state` record of the offline game together with the
      role-reveal and clue-turn counters, the client-side rate limiter and the
      account store it reports to. */
  class OfflineGame {
    var players: seq<Seat>
    var imposterIndices: seq<Option<nat>>
    var secretWord: string
    var secretHint: string
    var votes: seq<OfflineVote>
    var voteIdx: nat
    var voteTally: seq<int>
    var imposterCount: int
    var playerScores: seq<ScoreEntry>
    var roundNumber: nat
    var roleRevealIdx: nat
    var clueTurnIdx: nat
    const limiter: RateLimit.RateLimiter
    const accounts: Accounts.AccountStore

    constructor (limiter: RateLimit.RateLimiter, accounts: Accounts.AccountStore)
      ensures this.limiter == limiter && this.accounts == accounts
      ensures players == [] && imposterIndices == [] && votes == [] && voteTally == []
      ensures voteIdx == 0 && imposterCount == 1 && playerScores == [] && roundNumber == 0
      ensures roleRevealIdx == 0 && clueTurnIdx == 0
    {
      this.limiter := limiter;
      this.accounts := accounts;
      players := [];
      imposterIndices := [];
      secretWord := "";
      secretHint := "";
      votes := [];
      voteIdx := 0;
      voteTally := [];
      imposterCount := 1;
      playerScores := [];
      roundNumber := 0;
      roleRevealIdx := 0;
      clueTurnIdx := 0;
    }

    ghost predicate Valid()
      reads this, accounts
    {
      accounts.Valid()
    }

    /** Votes only name existing seats and the tally is the count of them. */
    ghost predicate TallyMatches()
      reads this
    {
      && (forall k :: 0 <= k < |votes| ==> votes[k].targetIdx < |players|)
      && voteTally == TallyOf(votes, |players|)
    }

    /** `newGame`. `countInput`, `imposterInput` and `names` are the setup
      fields (names already trimmed, `""` when absent), `draws` the random
      numbers for the imposter picks, `word` and `hint` the chosen word. */
    method NewGame(skipSetup: bool, countInput: Option<int>, imposterInput: Option<int>,
                   names: seq<string>, currentUser: Option<string>, word: string, hint: string,
                   draws: seq<nat>)
      requires ImposterNum(imposterInput, SeatCount(skipSetup, players, countInput)) <= |draws|
      modifies this
      ensures
        var t := Seating(skipSetup, old(playerScores), old(players), old(roundNumber), SeatCount(skipSetup, old(players), countInput), names, currentUser);
        playerScores == t.scores && players == t.seats && roundNumber == t.round
      ensures imposterCount == ImposterNum(imposterInput, SeatCount(skipSetup, old(players), countInput))
      ensures imposterIndices == Sample(Range(|players|), draws[..if imposterCount < 0 then 0 else imposterCount])
      ensures FreshTable(skipSetup, old(playerScores)) ==>
                && |imposterIndices| == (if imposterCount < 0 then 0 else imposterCount) < |players|
                && (forall i :: 0 <= i < |imposterIndices| ==> imposterIndices[i].Some? && imposterIndices[i].value < |players|)
                && DistinctPicks(imposterIndices)
      ensures secretWord == word && secretHint == hint && votes == []
      ensures roleRevealIdx == 0 && clueTurnIdx == 0
      ensures voteIdx == old(voteIdx) && voteTally == old(voteTally)
    {
      var n := SeatCount(skipSetup, players, countInput);
      var m := ImposterNum(imposterInput, n);
      var t := Seating(skipSetup, playerScores, players, roundNumber, n, names, currentUser);
      var picked := SampleImposters(|t.seats|, m, draws);
      playerScores, players, roundNumber := t.scores, t.seats, t.round;
      imposterIndices := picked;
      secretWord, secretHint := word, hint;
      votes := [];
      imposterCount := m;
      roleRevealIdx, clueTurnIdx := 0, 0;
    }

    /** `nextRole`: show the next role, or, after the last one, start the
      discussion. `durationInput` is the duration field (`None` when empty or
      not a number); the result is the discussion length in seconds. */
    method NextRole(durationInput: Option<int>) returns (discussion: Option<int>)
      modifies this
      ensures roleRevealIdx == old(roleRevealIdx) + 1
      ensures discussion.Some? <==> roleRevealIdx >= |players|
      ensures discussion.Some? ==> discussion.value >= MIN_DISCUSSION
      ensures discussion.Some? && durationInput.None? ==> discussion.value == DEFAULT_DISCUSSION
      ensures discussion.Some? && durationInput.Some? && durationInput.value >= MIN_DISCUSSION ==>
                discussion.value == durationInput.value
      ensures discussion.Some? && durationInput.Some? && durationInput.value < MIN_DISCUSSION ==>
                discussion.value == MIN_DISCUSSION
      ensures players == old(players) && imposterIndices == old(imposterIndices) && votes == old(votes)
      ensures voteTally == old(voteTally) && playerScores == old(playerScores) && clueTurnIdx == old(clueTurnIdx)
    {
      roleRevealIdx := roleRevealIdx + 1;
      if roleRevealIdx >= |players| {
        var raw := if durationInput.None? then DEFAULT_DISCUSSION else durationInput.value;
        discussion := Some(if raw < MIN_DISCUSSION then MIN_DISCUSSION else raw);
      } else {
        discussion := None;
      }
    }

    /** `nextClue`: move to the next player's clue; true once every player
      has had a turn. */
    method NextClue() returns (finished: bool)
      modifies this
      ensures clueTurnIdx == old(clueTurnIdx) + 1
      ensures finished <==> clueTurnIdx >= |players|
      ensures players == old(players) && votes == old(votes) && voteTally == old(voteTally)
      ensures roleRevealIdx == old(roleRevealIdx) && playerScores == old(playerScores)
    {
      clueTurnIdx := clueTurnIdx + 1;
      finished := clueTurnIdx >= |players|;
    }

    /** `toVoting`: an empty ballot and a zero tally, one slot per player. */
    method ToVoting()
      modifies this
      ensures votes == [] && voteIdx == 0 && voteTally == Zeros(|players|)
      ensures TallyMatches() && Sum(voteTally) == 0
      ensures players == old(players) && imposterIndices == old(imposterIndices)
      ensures playerScores == old(playerScores)
    {
      votes := [];
      voteIdx := 0;
      voteTally := Zeros(|players|);
      SumZeros(|players|);
    }

    /** `castVote`: the current voter votes for seat `targetIdx`, unless the
      limiter (3 votes a second) refuses. The vote screen only offers the
      existing seats, and only while a voter is left. */
    method CastVote(targetIdx: nat, now: int) returns (counted: bool)
      requires TallyMatches()
      requires voteIdx < |players| && targetIdx < |players|
      modifies this, limiter
      ensures TallyMatches() && Sum(voteTally) == |votes|
      ensures limiter.buckets == old(limiter.buckets)["vote" := RateLimit.AfterHit(
                if "vote" in old(limiter.buckets) then Some(old(limiter.buckets)["vote"]) else None, now, VOTE_WINDOW_MS)]
      ensures counted <==> limiter.buckets["vote"].count <= VOTE_LIMIT
      ensures counted ==>
                && votes == old(votes) + [OfflineVote(old(players)[old(voteIdx)].name, old(players)[targetIdx].name, targetIdx)]
                && voteTally == old(voteTally)[targetIdx := old(voteTally)[targetIdx] + 1]
                && voteIdx == old(voteIdx) + 1
      ensures !counted ==> votes == old(votes) && voteTally == old(voteTally) && voteIdx == old(voteIdx)
      ensures players == old(players) && imposterIndices == old(imposterIndices) && playerScores == old(playerScores)
    {
      counted := limiter.Hit("vote", now, VOTE_WINDOW_MS, VOTE_LIMIT);
      if !counted {
        TallySum(votes, |players|);
        return;
      }
      var v := OfflineVote(players[voteIdx].name, players[targetIdx].name, targetIdx);
      assert (votes + [v])[..|votes|] == votes;
      votes := votes + [v];
      voteTally := voteTally[targetIdx := voteTally[targetIdx] + 1];
      voteIdx := voteIdx + 1;
      TallySum(votes, |players|);
    }

    /** `awardPoints(accusedIdx, imposterCaught)`. */
    method AwardPoints(accused: int, caught: bool)
      requires forall k :: 0 <= k < |votes| ==> votes[k].targetIdx < |players|
      modifies this
      ensures caught ==> |playerScores| == |old(playerScores)|
      ensures caught ==> forall i :: 0 <= i < |playerScores| ==>
                playerScores[i] == CaughtScore(old(playerScores)[i], imposterIndices, accused)
      ensures !caught ==> playerScores == ImposterScores(old(playerScores), imposterIndices, votes, |players|)
      ensures players == old(players) && imposterIndices == old(imposterIndices) && votes == old(votes)
      ensures voteTally == old(voteTally) && voteIdx == old(voteIdx) && roundNumber == old(roundNumber)
      ensures secretWord == old(secretWord) && imposterCount == old(imposterCount)
    {
      var scores := playerScores;
      if caught {
        var i := 0;
        while i < |scores|
          invariant 0 <= i <= |scores| == |playerScores|
          invariant forall k :: 0 <= k < i ==>
                      scores[k] == playerScores[k].(score := playerScores[k].score + (if !IsImposter(imposterIndices, playerScores[k].id) then 2 else 0))
          invariant forall k :: i <= k < |scores| ==> scores[k] == playerScores[k]
        {
          if !IsImposter(imposterIndices, scores[i].id) {
            scores := scores[i := scores[i].(score := scores[i].score + 2)];
          }
          i := i + 1;
        }
        var civilians := scores;
        var j := 0;
        while j < |scores|
          invariant 0 <= j <= |scores| == |civilians|
          invariant forall k :: 0 <= k < j ==>
                      scores[k] == civilians[k].(score := civilians[k].score + (if civilians[k].id != accused then 1 else 0))
          invariant forall k :: j <= k < |scores| ==> scores[k] == civilians[k]
        {
          if scores[j].id != accused {
            scores := scores[j := scores[j].(score := scores[j].score + 1)];
          }
          j := j + 1;
        }
      } else {
        var k := 0;
        while k < |imposterIndices|
          invariant 0 <= k <= |imposterIndices|
          invariant scores == ImposterScores(playerScores, imposterIndices[..k], votes, |players|)
        {
          assert imposterIndices[..k + 1][..k] == imposterIndices[..k];
          var idx := imposterIndices[k];
          if idx.Some? {
            var found := FindId(scores, idx.value);
            if found.Some? {
              var bonus := if idx.value < |players| && VotesFor(votes, idx.value) == 0 then 1 else 0;
              scores := scores[found.value := scores[found.value].(score := scores[found.value].score + 3 + bonus)];
            }
          }
          k := k + 1;
        }
        assert imposterIndices[..k] == imposterIndices;
      }
      playerScores := scores;
    }

    /** `awardRoundXP(imposterCaught)`: +5 XP to the account of every
      civilian seat when the civilians win, +10 to every imposter's when the
      imposters win. */
    method AwardRoundXP(civiliansWon: bool)
      modifies accounts
      ensures accounts.history == old(accounts.history)
      ensures civiliansWon ==>
                accounts.accounts == Accounts.ApplyXP(old(accounts.accounts), CivilianNames(players, imposterIndices, |players|), CIVILIAN_XP)
      ensures !civiliansWon ==>
                accounts.accounts == Accounts.ApplyXP(old(accounts.accounts), ImposterNames(players, imposterIndices, |imposterIndices|), IMPOSTER_XP)
    {
      if civiliansWon {
        AwardCivilianXP();
      } else {
        AwardImposterXP();
      }
    }

    /** The civilians' branch of `awardRoundXP`: every seat whose index is
      not an imposter index, in seat order. */
    method AwardCivilianXP()
      modifies accounts
      ensures accounts.history == old(accounts.history)
      ensures accounts.accounts == Accounts.ApplyXP(old(accounts.accounts), CivilianNames(players, imposterIndices, |players|), CIVILIAN_XP)
    {
      var seats, imps := players, imposterIndices;
      var i := 0;
      while i < |seats|
        invariant 0 <= i <= |seats|
        invariant accounts.history == old(accounts.history)
        invariant accounts.accounts == Accounts.ApplyXP(old(accounts.accounts), CivilianNames(seats, imps, i), CIVILIAN_XP)
      {
        ghost var names := CivilianNames(seats, imps, i);
        if !IsImposter(imps, i) {
          Accounts.ApplyXPSnoc(old(accounts.accounts), names, seats[i].name, CIVILIAN_XP);
          var _ := accounts.AddXP(seats[i].name, CIVILIAN_XP);
          assert CivilianNames(seats, imps, i + 1) == names + [seats[i].name];
        } else {
          assert CivilianNames(seats, imps, i + 1) == names;
        }
        assert accounts.accounts == Accounts.ApplyXP(old(accounts.accounts), CivilianNames(seats, imps, i + 1), CIVILIAN_XP);
        i := i + 1;
      }
    }

    /** The imposters' branch of `awardRoundXP`: the seat of every imposter
      index that refers to one, in pick order. */
    method AwardImposterXP()
      modifies accounts
      ensures accounts.history == old(accounts.history)
      ensures accounts.accounts == Accounts.ApplyXP(old(accounts.accounts), ImposterNames(players, imposterIndices, |imposterIndices|), IMPOSTER_XP)
    {
      var seats, imps := players, imposterIndices;
      var k := 0;
      while k < |imps|
        invariant 0 <= k <= |imps|
        invariant accounts.history == old(accounts.history)
        invariant accounts.accounts == Accounts.ApplyXP(old(accounts.accounts), ImposterNames(seats, imps, k), IMPOSTER_XP)
      {
        ghost var names := ImposterNames(seats, imps, k);
        if imps[k].Some? && imps[k].value < |seats| {
          Accounts.ApplyXPSnoc(old(accounts.accounts), names, seats[imps[k].value].name, IMPOSTER_XP);
          var _ := accounts.AddXP(seats[imps[k].value].name, IMPOSTER_XP);
          assert ImposterNames(seats, imps, k + 1) == names + [seats[imps[k].value].name];
        } else {
          assert ImposterNames(seats, imps, k + 1) == names;
        }
        assert accounts.accounts == Accounts.ApplyXP(old(accounts.accounts), ImposterNames(seats, imps, k + 1), IMPOSTER_XP);
        k := k + 1;
      }
    }

    /** `finishVote` once every player has voted: picks the accused, scores
      the round, awards XP and logs the game (skipped when naming the
      imposters throws). Returns the accused seat, whether it is an imposter,
      and whether every imposter drew a vote. */
    method FinishVote(now: nat) returns (accused: int, correct: bool, allCaught: bool)
      requires Valid() && TallyMatches()
      modifies this, accounts
      ensures Valid()
      ensures accused == Accused(voteTally)
      ensures accused >= 0 ==> forall i :: 0 <= i < accused ==> VotesFor(votes, i) < VotesFor(votes, accused)
      ensures accused >= 0 ==> forall i :: 0 <= i < |players| ==> VotesFor(votes, i) <= VotesFor(votes, accused)
      ensures correct <==> IsImposter(imposterIndices, accused)
      ensures allCaught <==> AllCaught(imposterIndices, votes)
      ensures correct ==> |playerScores| == |old(playerScores)|
      ensures correct ==>
                forall i :: 0 <= i < |playerScores| ==> playerScores[i] == CaughtScore(old(playerScores)[i], imposterIndices, accused)
      ensures !correct ==> playerScores == ImposterScores(old(playerScores), imposterIndices, votes, |players|)
      ensures correct ==>
                accounts.accounts == Accounts.ApplyXP(old(accounts.accounts), CivilianNames(players, imposterIndices, |players|), CIVILIAN_XP)
      ensures !correct ==>
                accounts.accounts == Accounts.ApplyXP(old(accounts.accounts), ImposterNames(players, imposterIndices, |imposterIndices|), IMPOSTER_XP)
      ensures ResolvedImposters(players, imposterIndices).Some? ==>
                accounts.history == BoundedLog.Newest(old(accounts.history) + [Accounts.Entry(SeatNames(players),
                  ResolvedImposters(players, imposterIndices).value, secretWord, correct, !correct, now)], Accounts.HISTORY_CAP)
      ensures ResolvedImposters(players, imposterIndices).None? ==> accounts.history == old(accounts.history)
      ensures players == old(players) && imposterIndices == old(imposterIndices) && votes == old(votes)
      ensures voteTally == old(voteTally) && voteIdx == old(voteIdx)
    {
      accused := Accused(voteTally);
      if accused >= 0 {
        forall i | 0 <= i < |players| ensures voteTally[i] == VotesFor(votes, i) {
          TallyCounts(votes, |players|, i);
        }
      }
      correct := IsImposter(imposterIndices, accused);
      allCaught := AllImpostersCaught(imposterIndices, votes);
      AwardPoints(accused, correct);
      AwardRoundXP(correct);
      var imposters := ResolvedImposters(players, imposterIndices);
      if imposters.Some? {
        var _ := accounts.LogGame(SeatNames(players), imposters.value, secretWord, correct, !correct, now);
      }
    }

    /** `newRound`: back to setup with the score table cleared. */
    method NewRound()
      modifies this
      ensures playerScores == [] && roundNumber == 0 && roleRevealIdx == 0 && clueTurnIdx == 0
      ensures players == old(players) && imposterIndices == old(imposterIndices) && votes == old(votes)
      ensures voteTally == old(voteTally) && voteIdx == old(voteIdx)
    {
      playerScores := [];
      roundNumber := 0;
      roleRevealIdx := 0;
      clueTurnIdx := 0;
    }
  }
}

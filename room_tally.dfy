/** The host's vote tally of the online mode: counting votes, choosing the
    accused player and awarding points (`endVotingAndTally`). */
module Tally {
  import opened Wrappers
  import opened RoomModel

  /** The voters among `within` whose vote names `id`. */
  function VotersAmong(votes: map<string, Vote>, within: set<string>, id: string): set<string>
  {
    set v | v in within && v in votes && votes[v].targetId == id
  }

  /** The reference tally: every current player has an entry, and its value is
      the number of votes that name it. */
  function Tallies(players: seq<Player>, votes: map<string, Vote>): (t: map<string, int>)
    ensures t.Keys == PlayerIds(players)
  {
    map id | id in PlayerIds(players) :: |VotersAmong(votes, votes.Keys, id)|
  }

  lemma CountStep(votes: map<string, Vote>, counted: set<string>, voter: string, id: string)
    requires voter in votes && voter !in counted
    ensures |VotersAmong(votes, counted + {voter}, id)| ==
            |VotersAmong(votes, counted, id)| + (if votes[voter].targetId == id then 1 else 0)
  {
    if votes[voter].targetId == id {
      assert VotersAmong(votes, counted + {voter}, id) == VotersAmong(votes, counted, id) + {voter};
    } else {
      assert VotersAmong(votes, counted + {voter}, id) == VotersAmong(votes, counted, id);
    }
  }

  lemma PlayerIdsSnoc(players: seq<Player>, i: nat)
    requires i < |players|
    ensures PlayerIds(players[..i + 1]) == PlayerIds(players[..i]) + {players[i].id}
  {
    assert forall j :: 0 <= j < i ==> players[..i + 1][j] == players[..i][j];
    assert players[..i + 1][i] == players[i];
  }

  /** The two loops of the tally: a zero for every player, then one more for
      each vote whose target has an entry. */
  method TallyVotes(players: seq<Player>, votes: map<string, Vote>) returns (t: map<string, int>)
    ensures t == Tallies(players, votes)
  {
    t := map[];
    var i := 0;
    while i < |players|
      invariant 0 <= i <= |players|
      invariant t.Keys == PlayerIds(players[..i])
      invariant forall id :: id in t ==> t[id] == 0
    {
      PlayerIdsSnoc(players, i);
      t := t[players[i].id := 0];
      i := i + 1;
    }
    assert players[..i] == players;
    t := CountVotes(t, votes);
  }

  /** The second loop: each vote adds one to its target's entry, if the target has one. */
  method CountVotes(zeros: map<string, int>, votes: map<string, Vote>) returns (t: map<string, int>)
    requires forall id :: id in zeros ==> zeros[id] == 0
    ensures t.Keys == zeros.Keys
    ensures forall id :: id in t ==> t[id] == |VotersAmong(votes, votes.Keys, id)|
  {
    t := zeros;
    var remaining := votes.Keys;
    ghost var counted: set<string> := {};
    while remaining != {}
      invariant remaining + counted == votes.Keys && remaining !! counted
      invariant t.Keys == zeros.Keys
      invariant forall id :: id in t ==> t[id] == |VotersAmong(votes, counted, id)|
      decreases |remaining|
    {
      var voter :| voter in remaining;
      var target := votes[voter].targetId;
      forall id | id in t
        ensures |VotersAmong(votes, counted + {voter}, id)| ==
                |VotersAmong(votes, counted, id)| + (if target == id then 1 else 0)
      {
        CountStep(votes, counted, voter, id);
      }
      if target in t {
        t := t[target := t[target] + 1];
      }
      remaining := remaining - {voter};
      counted := counted + {voter};
    }
    assert counted == votes.Keys;
  }

  // ---------------------------------------------------------------------------
  // Sum of the tallies

  predicate Distinct(ids: seq<string>)
  {
    forall i, j :: 0 <= i < j < |ids| ==> ids[i] != ids[j]
  }

  function SumTallies(ids: seq<string>, votes: map<string, Vote>): nat
  {
    if ids == [] then 0
    else SumTallies(ids[..|ids| - 1], votes) + |VotersAmong(votes, votes.Keys, ids[|ids| - 1])|
  }

  function ValidVoters(ids: seq<string>, votes: map<string, Vote>): set<string>
  {
    set v | v in votes && votes[v].targetId in ids
  }

  /** Summed over distinct ids, the tallies count each vote naming one of them
      exactly once. */
  lemma {:induction false} SumIsValidVotes(ids: seq<string>, votes: map<string, Vote>)
    requires Distinct(ids)
    ensures SumTallies(ids, votes) == |ValidVoters(ids, votes)|
  {
    if ids != [] {
      var init := ids[..|ids| - 1];
      var last := ids[|ids| - 1];
      SumIsValidVotes(init, votes);
      var mine := VotersAmong(votes, votes.Keys, last);
      assert ValidVoters(ids, votes) == ValidVoters(init, votes) + mine by {
        forall v | v in ValidVoters(ids, votes) ensures v in ValidVoters(init, votes) + mine {
          var k :| 0 <= k < |ids| && ids[k] == votes[v].targetId;
          if k < |ids| - 1 { assert init[k] == ids[k]; }
        }
        forall v | v in ValidVoters(init, votes) ensures v in ValidVoters(ids, votes) {
          var k :| 0 <= k < |init| && init[k] == votes[v].targetId;
          assert ids[k] == init[k];
        }
      }
      assert ValidVoters(init, votes) !! mine by {
        forall v | v in mine ensures v !in ValidVoters(init, votes) {
          forall k | 0 <= k < |init| ensures init[k] != votes[v].targetId {
            assert init[k] == ids[k];
          }
        }
      }
    }
  }

  /** Only votes for current players are counted, and each at most once: over
      the distinct player ids, the tally table sums to the number of votes
      naming a current player, which is at most the number of votes. */
  lemma TallySum(players: seq<Player>, votes: map<string, Vote>, ids: seq<string>)
    requires Distinct(ids)
    requires forall k :: 0 <= k < |ids| ==> ids[k] in PlayerIds(players)
    ensures SumTallies(ids, votes) == |ValidVoters(ids, votes)| <= |votes|
    ensures forall k :: 0 <= k < |ids| ==> Tallies(players, votes)[ids[k]] == |VotersAmong(votes, votes.Keys, ids[k])|
  {
    SumIsValidVotes(ids, votes);
    SubsetSize(ValidVoters(ids, votes), votes.Keys);
  }

  lemma {:induction false} SubsetSize(a: set<string>, b: set<string>)
    requires a <= b
    ensures |a| <= |b|
  {
    assert b == a + (b - a);
    assert a !! (b - a);
  }

  // ---------------------------------------------------------------------------
  // The accused player

  predicate Tallied(players: seq<Player>, t: map<string, int>)
  {
    forall i :: 0 <= i < |players| ==> players[i].id in t
  }

  /** `Math.max(...Object.values(tallies))` for a non-empty table. */
  function MaxTally(players: seq<Player>, t: map<string, int>): (m: int)
    requires players != [] && Tallied(players, t)
    ensures forall i :: 0 <= i < |players| ==> t[players[i].id] <= m
    ensures exists i :: 0 <= i < |players| && t[players[i].id] == m
  {
    if |players| == 1 then t[players[0].id]
    else
      var rest := MaxTally(players[1..], t);
      assert forall i :: 1 <= i < |players| ==> players[i] == players[1..][i - 1];
      if t[players[0].id] >= rest then t[players[0].id] else rest
  }

  /** The first index, at or after `i`, whose tally is `m`. */
  function FirstWithTally(players: seq<Player>, t: map<string, int>, m: int, i: nat): (k: Option<nat>)
    requires i <= |players| && Tallied(players, t)
    ensures k.Some? ==> i <= k.value < |players| && t[players[k.value].id] == m
    ensures k.Some? ==> forall j :: i <= j < k.value ==> t[players[j].id] != m
    ensures k.None? ==> forall j :: i <= j < |players| ==> t[players[j].id] != m
    decreases |players| - i
  {
    if i == |players| then None
    else if t[players[i].id] == m then Some(i)
    else FirstWithTally(players, t, m, i + 1)
  }

  /** The accused player: the first key of the table, in the order players
      first joined, with the highest tally; `None` (the `undefined` of `find`)
      only when there are no players. */
  function Accused(players: seq<Player>, t: map<string, int>): (a: Option<string>)
    requires Tallied(players, t)
    ensures a.None? <==> players == []
    ensures a.Some? ==>
              exists k :: 0 <= k < |players| && players[k].id == a.value
                && (forall j :: 0 <= j < |players| ==> t[players[j].id] <= t[players[k].id])
                && (forall j :: 0 <= j < k ==> t[players[j].id] < t[players[k].id])
  {
    if players == [] then None
    else
      var m := MaxTally(players, t);
      match FirstWithTally(players, t, m, 0)
      case Some(k) => Some(players[k].id)
      case None => assert false; None
  }

  // ---------------------------------------------------------------------------
  // Points

  /** `roleAssignments[id] ? roleAssignments[id].role : null`, where a missing
      accused is looked up under the key "undefined". */
  function AccusedRole(ra: map<string, RoleAssignment>, accused: Option<string>): Option<string>
  {
    var key := if accused.Some? then accused.value else "undefined";
    if key in ra then ra[key].role else None
  }

  /** The role the points rule reads: the assignment's `role`, or 'civilian'
      for a player without an assignment. */
  function RoleOf(ra: map<string, RoleAssignment>, id: string): Option<string>
  {
    if id in ra then ra[id].role else Some("civilian")
  }

  /** The points rule for one player. */
  function PointsFor(wasImposter: bool, role: Option<string>, isAccused: bool): int
  {
    if wasImposter then (if role == Some("civilian") then 10 else -5)
    else if role == Some("imposter") then 15
    else if isAccused then -5
    else 2
  }

  /** The reference points table: one entry per current player. */
  function Points(players: seq<Player>, ra: map<string, RoleAssignment>,
                  accused: Option<string>, wasImposter: bool): (pts: map<string, int>)
    ensures pts.Keys == PlayerIds(players)
  {
    map id | id in PlayerIds(players) :: PointsFor(wasImposter, RoleOf(ra, id), accused == Some(id))
  }

  /** The points loop: one entry per player, following the rule of the
      round's outcome (civilians caught the imposter, or the imposter survived). */
  method ComputePoints(players: seq<Player>, ra: map<string, RoleAssignment>,
                       accused: Option<string>, wasImposter: bool) returns (pts: map<string, int>)
    ensures pts == Points(players, ra, accused, wasImposter)
    ensures pts.Keys == PlayerIds(players)
    ensures forall id :: id in pts && wasImposter ==>
              pts[id] == (if RoleOf(ra, id) == Some("civilian") then 10 else -5)
    ensures forall id :: id in pts && !wasImposter ==>
              pts[id] == (if RoleOf(ra, id) == Some("imposter") then 15
                          else if accused == Some(id) then -5 else 2)
  {
    pts := map[];
    var i := 0;
    while i < |players|
      invariant 0 <= i <= |players|
      invariant pts.Keys == PlayerIds(players[..i])
      invariant forall id :: id in pts ==> pts[id] == PointsFor(wasImposter, RoleOf(ra, id), accused == Some(id))
    {
      PlayerIdsSnoc(players, i);
      var p := players[i];
      var role := if p.id in ra then ra[p.id].role else Some("civilian");
      var points: int;
      if wasImposter {
        points := if role == Some("civilian") then 10 else -5;
      } else if role == Some("imposter") {
        points := 15;
      } else if accused == Some(p.id) {
        points := -5;
      } else {
        points := 2;
      }
      pts := pts[p.id := points];
      i := i + 1;
    }
    assert players[..i] == players;
  }

  /** What the tally stores at the end of the round, for a room whose `gameData` exists. */
  function Outcome(r: Room): (rev: RoundResult)
    requires r.gameData.Some?
    ensures rev.tallies == Tallies(r.players, r.gameData.value.votes)
    ensures rev.wasImposter <==> rev.accusedRole == Some("imposter")
    ensures rev.accusedPlayerId.None? <==> r.players == []
    ensures rev.secretWord == r.gameConfig.word
    ensures rev.pointsEarned.Keys == PlayerIds(r.players)
    ensures rev.accusedPlayerId == Accused(r.players, rev.tallies)
    ensures rev.accusedRole == AccusedRole(r.gameData.value.roleAssignments, rev.accusedPlayerId)
    ensures rev.pointsEarned == Points(r.players, r.gameData.value.roleAssignments, rev.accusedPlayerId, rev.wasImposter)
  {
    var gd := r.gameData.value;
    var t := Tallies(r.players, gd.votes);
    assert Tallied(r.players, t);
    var accused := Accused(r.players, t);
    var role := AccusedRole(gd.roleAssignments, accused);
    var was := role == Some("imposter");
    RoundResult(t, accused, role, was, Points(r.players, gd.roleAssignments, accused, was), r.gameConfig.word)
  }

  /** The document after the tally: the result is stored and the state is 'ended'. */
  function TalliedRoom(r: Room): (r': Room)
    requires r.gameData.Some?
    ensures r'.gameState == Ended && r'.gameData == Some(r.gameData.value.(result := Some(Outcome(r))))
    ensures r' == r.(gameState := Ended, gameData := r'.gameData)
    ensures WellFormed(r) ==> WellFormed(r')
  {
    r.(gameState := Ended, gameData := Some(r.gameData.value.(result := Some(Outcome(r)))))
  }

  /** The tally reads a `role` property that the start button of this client
      never writes. With such a role table the accused is never found to be
      the imposter: the imposter never scores 15, the accused player loses 5
      (even when it is the imposter) and everyone else scores 2. */
  lemma RoleTableWithoutRoles(r: Room)
    requires r.gameData.Some?
    requires forall pid :: pid in r.gameData.value.roleAssignments ==> r.gameData.value.roleAssignments[pid].role == None
    ensures !Outcome(r).wasImposter && Outcome(r).accusedRole == None
    ensures forall id :: id in PlayerIds(r.players) ==>
              Outcome(r).pointsEarned[id] == (if Outcome(r).accusedPlayerId == Some(id) then -5 else 2)
  {
  }

  /** The same for the table the start button writes. */
  lemma StartButtonTableNeverCatchesImposter(r: Room, ra: map<string, RoleAssignment>)
    requires StartButtonAssignments(r) == Some(ra)
    requires r.gameData.Some? && r.gameData.value.roleAssignments == FillUsernames(ra, r.players)
    ensures !Outcome(r).wasImposter
    ensures forall id :: id in PlayerIds(r.players) ==>
              Outcome(r).pointsEarned[id] == (if Outcome(r).accusedPlayerId == Some(id) then -5 else 2)
  {
    RoleTableWithoutRoles(r);
  }
}

/** The shared room document of the online mode and the pure rules that
    rewrite it. Every operation of the online client reads the document of its
    room, changes a copy and writes the copy back; each function here is that
    change, on values. The client class that reads and writes the store is in
    module OnlineClient. */
module RoomModel {
  import opened Wrappers
  import opened Text
  import BoundedLog

  /** A player counts as active when its last heartbeat is younger than this. */
  const ACTIVE_MS: int := 15000
  /** The chat log keeps at most this many messages. */
  const CHAT_CAP: nat := 100

  /** The document's `gameState` string: 'lobby', 'role', 'playing', 'clueing',
      'voting', 'ended', the 'voted' that `joinRoom` also tests for, and unset. */
  datatype GameState = Lobby | RoleReveal | Playing | Clueing | Voting | Ended | Voted | Unset

  datatype Player = Player(id: string, username: string, ready: bool, joinedAt: nat)

  datatype GameConfig = GameConfig(
    playerCount: int, imposterCount: int, difficulty: string,
    discussionDuration: int, word: string, hint: string)

  /** One entry of `gameData.roleAssignments`. `role` is the property the tally
      reads; the start button of this client never writes it. */
  datatype RoleAssignment = RoleAssignment(
    username: string, isImposter: bool, word: string, hint: string, role: Option<string>)

  datatype Clue = Clue(username: string, clue: string, submittedAt: nat)

  datatype Vote = Vote(username: string, targetId: string, votedAt: nat)

  datatype ChatMessage = ChatMessage(
    id: string, username: string, message: string, original: string, timestamp: nat)

  /** What `endVotingAndTally` stores for the end-of-round screen. */
  datatype RoundResult = RoundResult(
    tallies: map<string, int>, accusedPlayerId: Option<string>, accusedRole: Option<string>,
    wasImposter: bool, pointsEarned: map<string, int>, secretWord: string)

  /** `gameData`; a property the source has not written yet is `None`, an
      empty map, 0 or "" exactly where the source reads it with `|| {}`,
      `|| 0` or a truthiness test. */
  datatype GameData = GameData(
    word: string, hint: string, discussionDuration: int,
    roundStartedAt: Option<nat>, currentClueTurn: int, clues: map<string, Clue>,
    roleRevealStartedAt: Option<nat>, roleAssignments: map<string, RoleAssignment>,
    cluePhaseStartedAt: Option<nat>, cluePhaseComplete: bool,
    votes: map<string, Vote>, votingStartedAt: Option<nat>,
    result: Option<RoundResult>)

  /** The object literal `{}` that the skip button puts in place of a missing `gameData`. */
  const EmptyGameData: GameData :=
    GameData("", "", 0, None, 0, map[], None, map[], None, false, map[], None, None)

  datatype Room = Room(
    roomCode: string, host: string, hostUsername: string, gameConfig: GameConfig,
    players: seq<Player>, playersLastSeen: map<string, nat>, gameState: GameState,
    gameData: Option<GameData>, chatMessages: seq<ChatMessage>, createdAt: nat)

  // ---------------------------------------------------------------------------
  // Players

  predicate HasPlayer(players: seq<Player>, id: string)
  {
    exists i :: 0 <= i < |players| && players[i].id == id
  }

  function PlayerIds(players: seq<Player>): set<string>
  {
    set i | 0 <= i < |players| :: players[i].id
  }

  predicate DistinctIds(players: seq<Player>)
  {
    forall i, j :: 0 <= i < j < |players| ==> players[i].id != players[j].id
  }

  /** Distinct players have as many ids as entries. */
  lemma {:induction false} DistinctIdsCount(players: seq<Player>)
    requires DistinctIds(players)
    ensures |PlayerIds(players)| == |players|
  {
    if players != [] {
      var rest := players[..|players| - 1];
      var last := players[|players| - 1];
      DistinctIdsCount(rest);
      assert PlayerIds(players) == PlayerIds(rest) + {last.id} by {
        forall id | id in PlayerIds(players) ensures id in PlayerIds(rest) + {last.id} {
          var i :| 0 <= i < |players| && players[i].id == id;
          if i < |players| - 1 { assert rest[i] == players[i]; }
        }
        forall id | id in PlayerIds(rest) ensures id in PlayerIds(players) {
          var i :| 0 <= i < |rest| && rest[i].id == id;
          assert players[i] == rest[i];
        }
      }
      forall i | 0 <= i < |rest| ensures rest[i].id != last.id {
        assert rest[i] == players[i];
      }
    }
  }

  /** The first username recorded for `id`, or "". */
  function FirstUsername(players: seq<Player>, id: string): (name: string)
    ensures !HasPlayer(players, id) ==> name == ""
    ensures players != [] && players[0].id == id ==> name == players[0].username
    ensures forall k :: 0 <= k < |players| && players[k].id == id && (forall j :: 0 <= j < k ==> players[j].id != id) ==>
              name == players[k].username
  {
    if players == [] then ""
    else if players[0].id == id then players[0].username
    else FirstUsername(players[1..], id)
  }

  /** The username of the last entry with `id` (the one a `forEach` that
      writes a table keyed by id leaves behind), or "". */
  function LastUsername(players: seq<Player>, id: string): (name: string)
    ensures !HasPlayer(players, id) ==> name == ""
    ensures players != [] && players[|players| - 1].id == id ==> name == players[|players| - 1].username
    ensures forall k :: 0 <= k < |players| && players[k].id == id && (forall j :: k < j < |players| ==> players[j].id != id) ==>
              name == players[k].username
  {
    if players == [] then ""
    else if players[|players| - 1].id == id then players[|players| - 1].username
    else LastUsername(players[..|players| - 1], id)
  }

  /** `players.filter(p => p.id !== id)`. */
  function Without(players: seq<Player>, id: string): (rest: seq<Player>)
    ensures |rest| <= |players|
    ensures forall i :: 0 <= i < |rest| ==> rest[i].id != id
    ensures HasPlayer(players, id) ==> |rest| < |players|
    ensures forall q :: q in players && q.id != id ==> q in rest
    ensures forall q :: q in rest ==> q in players
  {
    if players == [] then []
    else if players[0].id == id then Without(players[1..], id)
    else [players[0]] + Without(players[1..], id)
  }

  /** The filter keeps order: filtering a concatenation filters each part and
      concatenates the results. */
  lemma {:induction false} WithoutAppend(a: seq<Player>, b: seq<Player>, id: string)
    ensures Without(a + b, id) == Without(a, id) + Without(b, id)
  {
    if a == [] {
      assert a + b == b;
    } else {
      assert (a + b)[1..] == a[1..] + b;
      WithoutAppend(a[1..], b, id);
    }
  }

  /** The first entry left by the filter is the first entry whose id differs,
      so a leaving host hands over to the earliest-joined remaining player. */
  lemma WithoutFirst(players: seq<Player>, id: string, k: nat)
    requires k < |players| && players[k].id != id
    requires forall j :: 0 <= j < k ==> players[j].id == id
    ensures Without(players, id) != [] && Without(players, id)[0] == players[k]
  {
    assert players == players[..k] + players[k..];
    WithoutAppend(players[..k], players[k..], id);
    WithoutNone(players[..k], id);
    assert players[k..][1..] == players[k+1..];
  }

  lemma {:induction false} WithoutNone(players: seq<Player>, id: string)
    requires forall j :: 0 <= j < |players| ==> players[j].id == id
    ensures Without(players, id) == []
  {
    if players != [] {
      WithoutNone(players[1..], id);
    }
  }

  // ---------------------------------------------------------------------------
  // The invariant that every write of this client keeps

  /** A document written only by the operations of this client: every player
      has a heartbeat entry, the chat log is within its cap, the state is one
      of the five this client writes, and `gameData` is absent exactly in the
      lobby. */
  ghost predicate WellFormed(r: Room)
  {
    && (forall i :: 0 <= i < |r.players| ==> r.players[i].id in r.playersLastSeen)
    && |r.chatMessages| <= CHAT_CAP
    && r.gameState in {Lobby, RoleReveal, Clueing, Voting, Ended}
    && (r.gameState == Lobby <==> r.gameData.None?)
  }

  // ---------------------------------------------------------------------------
  // Create and join

  /** The document `createRoom` writes. */
  function NewRoom(code: string, id: string, name: string, config: GameConfig, now: nat): (r: Room)
    ensures r.gameState == Lobby && r.gameData.None? && r.chatMessages == []
    ensures r.players == [Player(id, name, true, now)] && r.host == id && r.hostUsername == name
    ensures r.playersLastSeen == map[id := now]
    ensures r.roomCode == code && r.gameConfig == config
    ensures WellFormed(r)
  {
    Room(code, id, name, config, [Player(id, name, true, now)], map[id := now],
         Lobby, None, [], now)
  }

  /** Why `joinRoom` refuses a document that exists, if it does. */
  function JoinRefusal(r: Room): (e: Option<string>)
    ensures e.Some? <==> r.gameState in {Ended, Voted, Unset}
  {
    if r.gameState == Ended || r.gameState == Voted || r.gameState == Unset
    then Some("Game has already finished") else None
  }

  /** The document after `joinRoom` appends the caller (without looking for an
      entry it may already have) and stamps its heartbeat. */
  function Joined(r: Room, id: string, name: string, now: nat): (r': Room)
    ensures r'.players == r.players + [Player(id, name, true, now)]
    ensures r'.playersLastSeen == r.playersLastSeen[id := now]
    ensures r' == r.(players := r'.players, playersLastSeen := r'.playersLastSeen)
    ensures WellFormed(r) ==> WellFormed(r')
  {
    r.(players := r.players + [Player(id, name, true, now)],
       playersLastSeen := r.playersLastSeen[id := now])
  }

  /** Joining never looks for an earlier entry: a second join with the same id
      leaves two entries for it. */
  lemma JoinDoesNotDeduplicate(r: Room, id: string, name: string, now: nat, later: nat)
    ensures var twice := Joined(Joined(r, id, name, now), id, name, later);
      |twice.players| == |r.players| + 2
      && twice.players[|r.players|].id == id && twice.players[|r.players| + 1].id == id
  {
  }

  // ---------------------------------------------------------------------------
  // Presence

  /** The document after `heartbeat`: the caller's stamp is renewed and the
      caller is appended only if no entry has its id. */
  function Heartbeat(r: Room, id: string, name: string, now: nat): (r': Room)
    ensures r'.playersLastSeen == r.playersLastSeen[id := now]
    ensures HasPlayer(r.players, id) ==> r'.players == r.players
    ensures !HasPlayer(r.players, id) ==> r'.players == r.players + [Player(id, name, true, now)]
    ensures r' == r.(players := r'.players, playersLastSeen := r'.playersLastSeen)
    ensures WellFormed(r) ==> WellFormed(r')
  {
    var players := if HasPlayer(r.players, id) then r.players
                   else r.players + [Player(id, name, true, now)];
    r.(playersLastSeen := r.playersLastSeen[id := now], players := players)
  }

  /** After a heartbeat the caller appears exactly once more than nothing: it is
      present, and a caller that was present is not added again. */
  lemma HeartbeatKeepsOthers(r: Room, id: string, name: string, now: nat)
    ensures HasPlayer(Heartbeat(r, id, name, now).players, id)
    ensures forall other :: other != id && other in r.playersLastSeen ==>
              other in Heartbeat(r, id, name, now).playersLastSeen
              && Heartbeat(r, id, name, now).playersLastSeen[other] == r.playersLastSeen[other]
    ensures forall i :: 0 <= i < |r.players| ==> Heartbeat(r, id, name, now).players[i] == r.players[i]
  {
    var r' := Heartbeat(r, id, name, now);
    if !HasPlayer(r.players, id) {
      assert r'.players[|r.players|].id == id;
    }
  }

  /** `playersLastSeen[id] || 0`. */
  function LastSeen(seen: map<string, nat>, id: string): nat
  {
    if id in seen then seen[id] else 0
  }

  predicate IsActive(seen: map<string, nat>, p: Player, now: int)
  {
    now - LastSeen(seen, p.id) < ACTIVE_MS
  }

  /** The index of the first active player at or after `i`, in join order. */
  function FirstActiveFrom(players: seq<Player>, seen: map<string, nat>, now: int, i: nat): (k: Option<nat>)
    requires i <= |players|
    ensures k.Some? ==> i <= k.value < |players| && IsActive(seen, players[k.value], now)
    ensures k.Some? ==> forall j :: i <= j < k.value ==> !IsActive(seen, players[j], now)
    ensures k.None? ==> forall j :: i <= j < |players| ==> !IsActive(seen, players[j], now)
    decreases |players| - i
  {
    if i == |players| then None
    else if IsActive(seen, players[i], now) then Some(i)
    else FirstActiveFrom(players, seen, now, i + 1)
  }

  /** Whether the host has gone silent: it is set and its stamp is older than
      the window (strictly: an age of exactly 15000 ms is neither active nor stale). */
  predicate HostStale(r: Room, now: int)
  {
    r.host != "" && now - LastSeen(r.playersLastSeen, r.host) > ACTIVE_MS
  }

  /** The host check of `pollRoomState`: a stale host is replaced by the first
      active player in join order, if there is one. */
  function Failover(r: Room, now: int): (r': Room)
    ensures WellFormed(r) ==> WellFormed(r')
  {
    if HostStale(r, now) then
      match FirstActiveFrom(r.players, r.playersLastSeen, now, 0)
      case Some(k) => r.(host := r.players[k].id, hostUsername := r.players[k].username)
      case None => r
    else r
  }

  /** The failover policy: the host changes only when it is stale and some
      player is active; it then becomes the earliest-joined active player; only
      `host` and `hostUsername` ever change; and a stale host is never kept
      while an active player exists. */
  lemma FailoverPolicy(r: Room, now: int)
    ensures var r' := Failover(r, now);
      && r' == r.(host := r'.host, hostUsername := r'.hostUsername)
      && (r'.host != r.host || r'.hostUsername != r.hostUsername ==> HostStale(r, now))
      && (HostStale(r, now) && (exists j :: 0 <= j < |r.players| && IsActive(r.playersLastSeen, r.players[j], now)) ==>
            exists k :: 0 <= k < |r.players|
              && r'.host == r.players[k].id && r'.hostUsername == r.players[k].username
              && IsActive(r.playersLastSeen, r.players[k], now)
              && forall j :: 0 <= j < k ==> !IsActive(r.playersLastSeen, r.players[j], now))
      && (HostStale(r, now) && (forall j :: 0 <= j < |r.players| ==> !IsActive(r.playersLastSeen, r.players[j], now)) ==>
            r' == r)
  {
    var k := FirstActiveFrom(r.players, r.playersLastSeen, now, 0);
    if HostStale(r, now) && k.Some? {
      var r' := Failover(r, now);
      assert r'.host == r.players[k.value].id;
    }
  }

  /** An active player is never stale, so the player who takes over from a
      stale host is someone else. */
  lemma FailoverChangesHost(r: Room, now: int)
    requires HostStale(r, now)
    requires exists j :: 0 <= j < |r.players| && IsActive(r.playersLastSeen, r.players[j], now)
    ensures Failover(r, now).host != r.host
  {
    var k := FirstActiveFrom(r.players, r.playersLastSeen, now, 0);
    assert k.Some?;
  }

  // ---------------------------------------------------------------------------
  // Phase transitions (the host check is made by the caller)

  /** The document after `startGame` with the start button's payload. */
  function Started(r: Room, word: string, hint: string, duration: int, now: nat): (r': Room)
    ensures r'.gameState == RoleReveal && r'.gameData.Some?
    ensures r'.gameData.value.currentClueTurn == 0 && r'.gameData.value.clues == map[]
    ensures r'.gameData.value.roleRevealStartedAt == Some(now)
    ensures r'.gameData.value.word == word && r'.gameData.value.hint == hint
    ensures r'.gameData.value.discussionDuration == duration && r'.gameData.value.roundStartedAt == Some(now)
    ensures r'.gameData.value.roleAssignments == map[] && r'.gameData.value.votes == map[]
    ensures r'.gameData.value.cluePhaseStartedAt.None? && !r'.gameData.value.cluePhaseComplete
    ensures r'.gameData.value.votingStartedAt.None? && r'.gameData.value.result.None?
    ensures r' == r.(gameState := r'.gameState, gameData := r'.gameData)
    ensures WellFormed(r) ==> WellFormed(r')
  {
    r.(gameState := RoleReveal,
       gameData := Some(GameData(word, hint, duration, Some(now), 0, map[], Some(now), map[],
                                 None, false, map[], None, None)))
  }

  /** The role table `broadcastRoles` writes: an assignment without a username
      takes the username of the first player with its id, or "". */
  function FillUsernames(ra: map<string, RoleAssignment>, players: seq<Player>): (out: map<string, RoleAssignment>)
    ensures out.Keys == ra.Keys
    ensures forall pid :: pid in ra && ra[pid].username != "" ==> out[pid] == ra[pid]
    ensures forall pid :: pid in ra && ra[pid].username == "" ==>
              out[pid] == ra[pid].(username := FirstUsername(players, pid))
  {
    map pid | pid in ra ::
      if ra[pid].username != "" then ra[pid] else ra[pid].(username := FirstUsername(players, pid))
  }

  function WithRoles(r: Room, ra: map<string, RoleAssignment>): (r': Room)
    requires r.gameData.Some?
    ensures r'.gameData.Some? && r'.gameData.value.roleAssignments == FillUsernames(ra, r.players)
    ensures r'.gameData.value == r.gameData.value.(roleAssignments := r'.gameData.value.roleAssignments)
    ensures r' == r.(gameData := r'.gameData)
    ensures WellFormed(r) ==> WellFormed(r')
  {
    r.(gameData := Some(r.gameData.value.(roleAssignments := FillUsernames(ra, r.players))))
  }

  function InClueing(r: Room, now: nat): (r': Room)
    requires r.gameData.Some?
    ensures r'.gameState == Clueing && r'.gameData.Some? && r'.gameData.value.cluePhaseStartedAt == Some(now)
    ensures r'.gameData.value == r.gameData.value.(cluePhaseStartedAt := Some(now))
    ensures r' == r.(gameState := Clueing, gameData := r'.gameData)
    ensures WellFormed(r) ==> WellFormed(r')
  {
    r.(gameState := Clueing, gameData := Some(r.gameData.value.(cluePhaseStartedAt := Some(now))))
  }

  /** The document after `startVoting` (and the other ways into voting): the
      state is 'voting', earlier votes are dropped and the phase is stamped. */
  function InVoting(r: Room, now: nat): (r': Room)
    requires r.gameData.Some?
    ensures r'.gameState == Voting && r'.gameData.Some? && r'.gameData.value.votes == map[]
    ensures r'.gameData.value == r.gameData.value.(votes := map[], votingStartedAt := Some(now))
    ensures r' == r.(gameState := Voting, gameData := r'.gameData)
    ensures WellFormed(r) ==> WellFormed(r')
  {
    r.(gameState := Voting,
       gameData := Some(r.gameData.value.(votes := map[], votingStartedAt := Some(now))))
  }

  /** A clue is stored under its author: a later clue replaces the earlier one
      and every other clue and field stays as it was. */
  function WithClue(r: Room, id: string, name: string, text: string, now: nat): (r': Room)
    requires r.gameData.Some?
    ensures r'.gameData.Some? && r'.gameData.value.clues.Keys == r.gameData.value.clues.Keys + {id}
    ensures r'.gameData.value.clues[id] == Clue(name, text, now)
    ensures forall pid :: pid in r.gameData.value.clues && pid != id ==>
              r'.gameData.value.clues[pid] == r.gameData.value.clues[pid]
    ensures r'.gameData.value == r.gameData.value.(clues := r'.gameData.value.clues)
    ensures r' == r.(gameData := r'.gameData)
    ensures WellFormed(r) ==> WellFormed(r')
  {
    var gd := r.gameData.value;
    r.(gameData := Some(gd.(clues := gd.clues[id := Clue(name, text, now)])))
  }

  /** A vote is stored under its voter: a later vote replaces the earlier one. */
  function WithVote(r: Room, id: string, name: string, target: string, now: nat): (r': Room)
    requires r.gameData.Some?
    ensures r'.gameData.Some? && r'.gameData.value.votes.Keys == r.gameData.value.votes.Keys + {id}
    ensures r'.gameData.value.votes[id] == Vote(name, target, now)
    ensures forall pid :: pid in r.gameData.value.votes && pid != id ==>
              r'.gameData.value.votes[pid] == r.gameData.value.votes[pid]
    ensures r'.gameData.value == r.gameData.value.(votes := r'.gameData.value.votes)
    ensures r' == r.(gameData := r'.gameData)
    ensures WellFormed(r) ==> WellFormed(r')
  {
    var gd := r.gameData.value;
    r.(gameData := Some(gd.(votes := gd.votes[id := Vote(name, target, now)])))
  }

  /** `allVotesCast`: as many voters as entries in `players`; `None` where the
      source reads `votes` of a missing `gameData` and throws. */
  function AllVotesCast(r: Room): Option<bool>
  {
    if r.gameData.None? then None
    else Some(|r.gameData.value.votes.Keys| == |r.players|)
  }

  /** When ids are distinct and only players have voted, the count comparison
      of `allVotesCast` means exactly that every player has voted. */
  lemma AllVotesCastMeansEveryoneVoted(r: Room)
    requires r.gameData.Some? && DistinctIds(r.players)
    requires r.gameData.value.votes.Keys <= PlayerIds(r.players)
    ensures AllVotesCast(r) == Some(true) <==> r.gameData.value.votes.Keys == PlayerIds(r.players)
  {
    var voters := r.gameData.value.votes.Keys;
    var ids := PlayerIds(r.players);
    DistinctIdsCount(r.players);
    if |voters| == |ids| {
      assert ids == voters + (ids - voters);
      assert voters !! (ids - voters);
      assert |ids - voters| == 0;
      assert ids - voters == {};
    }
  }

  function WithChat(r: Room, m: ChatMessage): (r': Room)
    ensures r'.chatMessages == BoundedLog.Append(r.chatMessages, m, CHAT_CAP)
    ensures r' == r.(chatMessages := r'.chatMessages)
    ensures WellFormed(r) ==> WellFormed(r')
  {
    r.(chatMessages := BoundedLog.Append(r.chatMessages, m, CHAT_CAP))
  }

  /** The document after `leaveRoom`: every entry with the caller's id is
      removed and, when the caller was host and someone remains, the first
      remaining player becomes host. */
  function Left(r: Room, id: string): (r': Room)
    ensures r'.players == Without(r.players, id) && !HasPlayer(r'.players, id)
    ensures r.host == id && r'.players != [] ==>
              r'.host == r'.players[0].id && r'.hostUsername == r'.players[0].username && r'.host != id
    ensures r.host != id || r'.players == [] ==> r'.host == r.host && r'.hostUsername == r.hostUsername
    ensures r' == r.(players := r'.players, host := r'.host, hostUsername := r'.hostUsername)
    ensures r'.gameState == r.gameState
    ensures WellFormed(r) ==> WellFormed(r')
  {
    var rest := Without(r.players, id);
    if r.host == id && |rest| > 0 then
      r.(players := rest, host := rest[0].id, hostUsername := rest[0].username)
    else r.(players := rest)
  }

  /** A leaving host hands over to the earliest-joined player with another id. */
  lemma LeftHandsToEarliest(r: Room, id: string, k: nat)
    requires r.host == id && k < |r.players| && r.players[k].id != id
    requires forall j :: 0 <= j < k ==> r.players[j].id == id
    ensures Left(r, id).host == r.players[k].id && Left(r, id).hostUsername == r.players[k].username
  {
    WithoutFirst(r.players, id, k);
  }

  // ---------------------------------------------------------------------------
  // Rules lifted out of the click handlers

  /** The start button's role table: the first `imposterCount` players in join
      order are imposters; everyone, imposters included, gets the configured
      word (or 'PLACEHOLDER'); only imposters get the hint; no `role` property
      is written. `None` when `imposterCount` exceeds the number of players,
      where reading `room.players[i].id` throws. */
  function StartButtonAssignments(r: Room): (ra: Option<map<string, RoleAssignment>>)
    ensures ra.Some? <==> r.gameConfig.imposterCount <= |r.players|
    ensures ra.Some? ==> ra.value.Keys == PlayerIds(r.players)
  {
    var k := r.gameConfig.imposterCount;
    if k > |r.players| then None
    else
      var imposters := set i | 0 <= i < |r.players| && i < k :: r.players[i].id;
      var word := if r.gameConfig.word != "" then r.gameConfig.word else "PLACEHOLDER";
      Some(map pid | pid in PlayerIds(r.players) ::
             var isImp := pid in imposters;
             RoleAssignment(LastUsername(r.players, pid), isImp, word,
                            if isImp then r.gameConfig.hint else "", None))
  }

  /** The table marks exactly the ids of the first `imposterCount` players as
      imposters (so, with distinct ids, exactly that many), gives the hint to
      imposters only, and the same non-empty word to everyone. */
  lemma StartButtonRoles(r: Room, pid: string)
    requires StartButtonAssignments(r).Some?
    requires pid in StartButtonAssignments(r).value
    ensures var a := StartButtonAssignments(r).value[pid];
      && (a.isImposter <==> exists i :: 0 <= i < r.gameConfig.imposterCount && i < |r.players| && r.players[i].id == pid)
      && (a.isImposter ==> a.hint == r.gameConfig.hint)
      && (!a.isImposter ==> a.hint == "")
      && a.word == (if r.gameConfig.word != "" then r.gameConfig.word else "PLACEHOLDER")
      && a.word != ""
      && a.username == LastUsername(r.players, pid)
      && a.role == None
  {
  }

  /** `(room.gameData?.currentClueTurn || 0) + 1`. */
  function NextClueTurn(r: Room): int
  {
    (if r.gameData.Some? then r.gameData.value.currentClueTurn else 0) + 1
  }

  /** The host's clue-turn step after a submission: the turn index moves on,
      or, once it reaches the number of players, the clue phase is marked
      complete (and voting is scheduled). Requires `gameData`, whose absence
      makes the source throw. */
  function AdvancedClueTurn(r: Room): (r': Room)
    requires r.gameData.Some?
    ensures NextClueTurn(r) < |r.players| ==>
              r' == r.(gameData := Some(r.gameData.value.(currentClueTurn := NextClueTurn(r))))
    ensures NextClueTurn(r) >= |r.players| ==>
              r' == r.(gameState := Clueing, gameData := Some(r.gameData.value.(cluePhaseComplete := true)))
    ensures WellFormed(r) ==> WellFormed(r')
  {
    var next := NextClueTurn(r);
    if next >= |r.players| then
      r.(gameState := Clueing, gameData := Some(r.gameData.value.(cluePhaseComplete := true)))
    else
      r.(gameData := Some(r.gameData.value.(currentClueTurn := next)))
  }

  /** The new-round button: back to the lobby with no game data, an empty chat
      and every player not ready. */
  function ResetToLobby(r: Room): (r': Room)
    ensures r'.gameState == Lobby && r'.gameData == None && r'.chatMessages == []
    ensures |r'.players| == |r.players|
    ensures forall i :: 0 <= i < |r.players| ==> r'.players[i] == r.players[i].(ready := false)
    ensures r' == r.(gameState := Lobby, gameData := None, chatMessages := [], players := r'.players)
    ensures WellFormed(r) ==> WellFormed(r')
  {
    r.(gameState := Lobby, gameData := None, chatMessages := [],
       players := seq(|r.players|, i requires 0 <= i < |r.players| => r.players[i].(ready := false)))
  }

  /** `getMyRoleInfo`: the assignment under the caller's id, or else one whose
      username is the caller's (the order of `Object.values` that picks among
      several is not modelled). */
  ghost function MyRoleInfo(r: Room, peerId: string, username: string): (info: Option<RoleAssignment>)
    ensures r.gameData.None? ==> info == None
    ensures r.gameData.Some? && peerId in r.gameData.value.roleAssignments ==>
              info == Some(r.gameData.value.roleAssignments[peerId])
    ensures r.gameData.Some? && peerId !in r.gameData.value.roleAssignments ==>
              (info.Some? <==> exists pid :: pid in r.gameData.value.roleAssignments
                                 && r.gameData.value.roleAssignments[pid].username != ""
                                 && r.gameData.value.roleAssignments[pid].username == username)
    ensures r.gameData.Some? && peerId !in r.gameData.value.roleAssignments && info.Some? ==>
              info.value.username == username && username != ""
    ensures info.Some? ==> info.value in r.gameData.value.roleAssignments.Values
  {
    if r.gameData.None? then None
    else
      var ra := r.gameData.value.roleAssignments;
      if peerId in ra then Some(ra[peerId])
      else if exists pid :: pid in ra && ra[pid].username != "" && ra[pid].username == username then
        var pid :| pid in ra && ra[pid].username != "" && ra[pid].username == username;
        Some(ra[pid])
      else None
  }
}

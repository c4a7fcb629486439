/** The online client: the `OnlineGame` object with its cached fields, and the
    browser storage that every client in the same browser shares. Each method
    reads the document of the client's room, applies one rule of module
    RoomModel (or Tally) and writes the result back. A step that throws a
    `TypeError` before its write leaves the store as it was. */
module OnlineClient {
  import opened Wrappers
  import opened Text
  import opened RoomModel
  import Tally
  import ChatFilter
  import RoomCode

  /** `localStorage`: the room documents by room code. */
  class RoomStore {
    var rooms: map<string, Room>

    constructor ()
      ensures rooms == map[]
    {
      rooms := map[];
    }

    /** Every document was written by this client's operations. */
    ghost predicate Valid()
      reads this
    {
      forall c :: c in rooms ==> WellFormed(rooms[c])
    }
  }

  class OnlineGame {
    const storage: RoomStore
    var peerId: string
    var username: string
    var roomCode: Option<string>
    /** The client's cached belief that it hosts; refreshed by `Poll`. */
    var isHost: bool
    var myVote: Option<string>

    /** `init`: the identity of this client; `peerId` stands for the generated id. */
    constructor (storage: RoomStore, username: string, peerId: string)
      ensures this.storage == storage && this.username == username && this.peerId == peerId
      ensures roomCode == None && !isHost && myVote == None
    {
      this.storage := storage;
      this.username := username;
      this.peerId := peerId;
      roomCode := None;
      isHost := false;
      myVote := None;
    }

    /** The room code, unless it is missing or empty (both read as false). */
    function Code(): Option<string>
      reads this
    {
      if roomCode.Some? && roomCode.value != "" then roomCode else None
    }

    /** `getRoomState`: the document of the client's room, if it exists. */
    function CurrentRoom(): (r: Option<Room>)
      reads this, storage
      ensures r.Some? <==> Code().Some? && Code().value in storage.rooms
      ensures r.Some? ==> r == Some(storage.rooms[Code().value])
    {
      if Code().Some? && Code().value in storage.rooms then Some(storage.rooms[Code().value]) else None
    }

    /** Whether the document names this client as host. */
    predicate HostsRoom()
      reads this, storage
    {
      CurrentRoom().Some? && CurrentRoom().value.host == peerId
    }

    method Write(r: Room)
      requires Code().Some? && storage.Valid() && WellFormed(r)
      modifies storage
      ensures storage.rooms == old(storage.rooms)[Code().value := r]
      ensures storage.Valid()
    {
      storage.rooms := storage.rooms[Code().value := r];
    }

    /** `heartbeat`: renews the caller's stamp and adds the caller if missing. */
    method Heartbeat(now: nat)
      requires storage.Valid()
      modifies storage
      ensures storage.Valid()
      ensures old(CurrentRoom()).Some? && peerId != "" ==>
                storage.rooms == old(storage.rooms)[Code().value :=
                  RoomModel.Heartbeat(old(CurrentRoom()).value, peerId, username, now)]
      ensures old(CurrentRoom()).None? || peerId == "" ==> storage.rooms == old(storage.rooms)
    {
      var room := CurrentRoom();
      if room.None? || peerId == "" {
        return;
      }
      Write(RoomModel.Heartbeat(room.value, peerId, username, now));
    }

    /** `createRoom`: a fresh lobby, hosted by the caller, under a generated
      code; a document already stored under that code is replaced. */
    method CreateRoom(config: GameConfig, draws: seq<nat>, now: nat) returns (code: string)
      requires |draws| >= RoomCode.CODE_LENGTH && storage.Valid()
      modifies this, storage
      ensures |code| == RoomCode.CODE_LENGTH
      ensures forall i :: 0 <= i < |code| ==> code[i] == RoomCode.CodeChar(draws[i])
      ensures roomCode == Some(code) && isHost
      ensures storage.rooms == old(storage.rooms)[code := NewRoom(code, peerId, username, config, now)]
      ensures storage.Valid()
      ensures peerId == old(peerId) && username == old(username) && myVote == old(myVote)
    {
      code := RoomCode.GenerateRoomCode(draws);
      roomCode := Some(code);
      isHost := true;
      Write(NewRoom(code, peerId, username, config, now));
    }

    /** `joinRoom`: refuses a missing room and a finished game, otherwise
      appends the caller and adopts the code. */
    method JoinRoom(code: string, now: nat) returns (status: Status)
      requires storage.Valid()
      modifies this, storage
      ensures storage.Valid()
      ensures code !in old(storage.rooms) ==>
                status == Failed("Room not found") && storage.rooms == old(storage.rooms)
                && roomCode == old(roomCode) && isHost == old(isHost)
      ensures code in old(storage.rooms) && JoinRefusal(old(storage.rooms)[code]).Some? ==>
                status == Failed("Game has already finished") && storage.rooms == old(storage.rooms)
                && roomCode == old(roomCode) && isHost == old(isHost)
      ensures code in old(storage.rooms) && JoinRefusal(old(storage.rooms)[code]).None? ==>
                status == Done && roomCode == Some(code) && !isHost
                && storage.rooms == old(storage.rooms)[code := Joined(old(storage.rooms)[code], peerId, username, now)]
      ensures peerId == old(peerId) && username == old(username) && myVote == old(myVote)
    {
      if code !in storage.rooms {
        return Failed("Room not found");
      }
      var room := storage.rooms[code];
      var refusal := JoinRefusal(room);
      if refusal.Some? {
        return Failed(refusal.value);
      }
      storage.rooms := storage.rooms[code := Joined(room, peerId, username, now)];
      roomCode := Some(code);
      isHost := false;
      status := Done;
    }

    /** `pollRoomState` and its listener: the failover check, then the cached
      host flag follows the document. */
    method Poll(now: nat)
      requires storage.Valid()
      modifies this, storage
      ensures storage.Valid()
      ensures old(CurrentRoom()).None? ==> storage.rooms == old(storage.rooms) && isHost == old(isHost)
      ensures old(CurrentRoom()).Some? ==>
                storage.rooms == old(storage.rooms)[old(Code()).value := Failover(old(CurrentRoom()).value, now)]
                && isHost == (Failover(old(CurrentRoom()).value, now).host == peerId)
      ensures peerId == old(peerId) && username == old(username) && roomCode == old(roomCode) && myVote == old(myVote)
    {
      var room := CurrentRoom();
      if room.None? {
        return;
      }
      var r' := Failover(room.value, now);
      Write(r');
      isHost := r'.host == peerId;
    }

    /** `startGame`: only the host may start; the state becomes 'role' with a
      fresh clue turn. */
    method StartGame(word: string, hint: string, duration: int, now: nat) returns (status: Status)
      requires storage.Valid()
      modifies storage
      ensures storage.Valid()
      ensures !old(HostsRoom()) ==> status == Failed("Only host can start game") && storage.rooms == old(storage.rooms)
      ensures old(HostsRoom()) ==>
                status == Done
                && storage.rooms == old(storage.rooms)[Code().value := Started(old(CurrentRoom()).value, word, hint, duration, now)]
    {
      var room := CurrentRoom();
      if room.None? || room.value.host != peerId {
        return Failed("Only host can start game");
      }
      Write(Started(room.value, word, hint, duration, now));
      status := Done;
    }

    /** `broadcastRoles`: not host-gated; stores the role table with usernames
      filled in. Without `gameData` the write throws and nothing changes. */
    method BroadcastRoles(ra: map<string, RoleAssignment>)
      requires storage.Valid()
      modifies storage
      ensures storage.Valid()
      ensures old(CurrentRoom()).Some? && old(CurrentRoom()).value.gameData.Some? ==>
                storage.rooms == old(storage.rooms)[Code().value := WithRoles(old(CurrentRoom()).value, ra)]
      ensures old(CurrentRoom()).None? || old(CurrentRoom()).value.gameData.None? ==>
                storage.rooms == old(storage.rooms)
    {
      var room := CurrentRoom();
      if room.None? || room.value.gameData.None? {
        return;
      }
      Write(WithRoles(room.value, ra));
    }

    /** `submitClue` accepts clues only in the state 'playing', which no
      operation of this client writes: on a store written by this client it
      always fails and changes nothing. */
    method SubmitClue(text: string, now: nat) returns (status: Status)
      requires storage.Valid()
      modifies storage
      ensures storage.Valid()
      ensures status == Failed("") && storage.rooms == old(storage.rooms)
    {
      var room := CurrentRoom();
      if room.None? || room.value.gameState != Playing {
        return Failed("");
      }
      assert false;
    }

    /** `sendChatMessage`: appends the filtered message (keeping the original
      text) to the bounded chat log. */
    method SendChatMessage(text: string, now: nat) returns (sent: bool)
      requires storage.Valid()
      modifies storage
      ensures storage.Valid()
      ensures sent <==> old(CurrentRoom()).Some?
      ensures !sent ==> storage.rooms == old(storage.rooms)
      ensures sent ==> storage.rooms == old(storage.rooms)[Code().value :=
                WithChat(old(CurrentRoom()).value,
                         ChatMessage(peerId + "_" + DecimalString(now), username,
                                     ChatFilter.Filtered(text), text, now))]
    {
      var room := CurrentRoom();
      if room.None? {
        return false;
      }
      var filtered := ChatFilter.FilterBadWords(text);
      var message := ChatMessage(peerId + "_" + DecimalString(now), username, filtered, text, now);
      Write(WithChat(room.value, message));
      sent := true;
    }

    /** `advanceFromRoleReveal`: host only; the state becomes 'clueing' (from
      any state). */
    method AdvanceFromRoleReveal(now: nat) returns (status: Status)
      requires storage.Valid()
      modifies storage
      ensures storage.Valid()
      ensures !old(HostsRoom()) ==> status == Failed("") && storage.rooms == old(storage.rooms)
      ensures old(HostsRoom()) && old(CurrentRoom()).value.gameData.None? ==>
                status == Threw && storage.rooms == old(storage.rooms)
      ensures old(HostsRoom()) && old(CurrentRoom()).value.gameData.Some? ==>
                status == Done && storage.rooms == old(storage.rooms)[Code().value := InClueing(old(CurrentRoom()).value, now)]
    {
      var room := CurrentRoom();
      if room.None? || room.value.host != peerId {
        return Failed("");
      }
      if room.value.gameData.None? {
        return Threw;
      }
      Write(InClueing(room.value, now));
      status := Done;
    }

    /** `startVoting`: host only; the state becomes 'voting' and earlier votes are dropped. */
    method StartVoting(now: nat) returns (status: Status)
      requires storage.Valid()
      modifies storage
      ensures storage.Valid()
      ensures !old(HostsRoom()) ==> status == Failed("") && storage.rooms == old(storage.rooms)
      ensures old(HostsRoom()) && old(CurrentRoom()).value.gameData.None? ==>
                status == Threw && storage.rooms == old(storage.rooms)
      ensures old(HostsRoom()) && old(CurrentRoom()).value.gameData.Some? ==>
                status == Done && storage.rooms == old(storage.rooms)[Code().value := InVoting(old(CurrentRoom()).value, now)]
    {
      var room := CurrentRoom();
      if room.None? || room.value.host != peerId {
        return Failed("");
      }
      if room.value.gameData.None? {
        return Threw;
      }
      Write(InVoting(room.value, now));
      status := Done;
    }

    /** `skipDiscussion`: the host check, then `startVoting`. */
    method SkipDiscussion(now: nat) returns (status: Status)
      requires storage.Valid()
      modifies storage
      ensures storage.Valid()
      ensures !old(HostsRoom()) ==> status == Failed("") && storage.rooms == old(storage.rooms)
      ensures old(HostsRoom()) && old(CurrentRoom()).value.gameData.None? ==>
                status == Threw && storage.rooms == old(storage.rooms)
      ensures old(HostsRoom()) && old(CurrentRoom()).value.gameData.Some? ==>
                status == Done && storage.rooms == old(storage.rooms)[Code().value := InVoting(old(CurrentRoom()).value, now)]
    {
      var room := CurrentRoom();
      if room.None? || room.value.host != peerId {
        return Failed("");
      }
      status := StartVoting(now);
    }

    /** `submitVote`: accepted only in the state 'voting'; the caller's vote
      replaces any earlier one and is remembered locally. */
    method SubmitVote(target: string, now: nat) returns (status: Status)
      requires storage.Valid()
      modifies this, storage
      ensures storage.Valid()
      ensures old(CurrentRoom()).None? || old(CurrentRoom()).value.gameState != Voting ==>
                status == Failed("") && storage.rooms == old(storage.rooms) && myVote == old(myVote)
      ensures old(CurrentRoom()).Some? && old(CurrentRoom()).value.gameState == Voting ==>
                status == Done && myVote == Some(target)
                && storage.rooms == old(storage.rooms)[old(Code()).value := WithVote(old(CurrentRoom()).value, peerId, username, target, now)]
      ensures peerId == old(peerId) && username == old(username) && roomCode == old(roomCode) && isHost == old(isHost)
    {
      var room := CurrentRoom();
      if room.None? || room.value.gameState != Voting {
        return Failed("");
      }
      Write(WithVote(room.value, peerId, username, target, now));
      myVote := Some(target);
      status := Done;
    }

    /** `allVotesCast`: false without a room; throws (`None`) without `gameData`. */
    function AllVotesCast(): (r: Option<bool>)
      reads this, storage
      ensures CurrentRoom().None? ==> r == Some(false)
      ensures CurrentRoom().Some? ==> r == RoomModel.AllVotesCast(CurrentRoom().value)
    {
      if CurrentRoom().None? then Some(false) else RoomModel.AllVotesCast(CurrentRoom().value)
    }

    /** `endVotingAndTally`: host only; counts the votes, picks the accused,
      awards points and ends the round. */
    method EndVotingAndTally() returns (status: Status, outcome: Option<RoundResult>)
      requires storage.Valid()
      modifies storage
      ensures storage.Valid()
      ensures !old(HostsRoom()) ==> status == Failed("") && outcome == None && storage.rooms == old(storage.rooms)
      ensures old(HostsRoom()) && old(CurrentRoom()).value.gameData.None? ==>
                status == Threw && outcome == None && storage.rooms == old(storage.rooms)
      ensures old(HostsRoom()) && old(CurrentRoom()).value.gameData.Some? ==>
                status == Done && outcome == Some(Tally.Outcome(old(CurrentRoom()).value))
                && storage.rooms == old(storage.rooms)[Code().value := Tally.TalliedRoom(old(CurrentRoom()).value)]
    {
      var room := CurrentRoom();
      if room.None? || room.value.host != peerId {
        return Failed(""), None;
      }
      var r := room.value;
      if r.gameData.None? {
        return Threw, None;
      }
      var gd := r.gameData.value;
      var tallies := Tally.TallyVotes(r.players, gd.votes);
      assert Tally.Tallied(r.players, tallies);
      var accused := Tally.Accused(r.players, tallies);
      var accusedRole := Tally.AccusedRole(gd.roleAssignments, accused);
      var wasImposter := accusedRole == Some("imposter");
      var points := Tally.ComputePoints(r.players, gd.roleAssignments, accused, wasImposter);
      var res := RoundResult(tallies, accused, accusedRole, wasImposter, points, r.gameConfig.word);
      Write(r.(gameState := Ended, gameData := Some(gd.(result := Some(res)))));
      status, outcome := Done, Some(res);
    }

    /** `leaveRoom`: removes the caller, hands the host role to the first
      remaining player if the caller hosted, and forgets the room code. */
    method LeaveRoom()
      requires storage.Valid()
      modifies this, storage
      ensures storage.Valid()
      ensures old(CurrentRoom()).None? ==> storage.rooms == old(storage.rooms) && roomCode == old(roomCode)
      ensures old(CurrentRoom()).Some? ==>
                roomCode == None
                && storage.rooms == old(storage.rooms)[old(Code()).value := Left(old(CurrentRoom()).value, peerId)]
      ensures peerId == old(peerId) && username == old(username) && isHost == old(isHost) && myVote == old(myVote)
    {
      var room := CurrentRoom();
      if room.None? {
        return;
      }
      Write(Left(room.value, peerId));
      roomCode := None;
    }

    /** The start button: only a client that believes it hosts, in a room of at
      least three players. It builds the role table, asks `startGame` with the
      configured word, hint and duration (600 when unset) and then broadcasts
      the table whatever `startGame` answered. With more imposters configured
      than players the table cannot be built and nothing changes. */
    method StartButton(now: nat)
      requires storage.Valid()
      modifies storage
      ensures storage.Valid()
      ensures !isHost || old(CurrentRoom()).None? || |old(CurrentRoom()).value.players| < 3
              || StartButtonAssignments(old(CurrentRoom()).value).None? ==>
                storage.rooms == old(storage.rooms)
      ensures isHost && old(CurrentRoom()).Some? && |old(CurrentRoom()).value.players| >= 3
              && StartButtonAssignments(old(CurrentRoom()).value).Some? ==>
                var r := old(CurrentRoom()).value;
                var ra := StartButtonAssignments(r).value;
                var d := if r.gameConfig.discussionDuration != 0 then r.gameConfig.discussionDuration else 600;
                if r.host == peerId then
                  storage.rooms == old(storage.rooms)[Code().value :=
                    WithRoles(Started(r, r.gameConfig.word, r.gameConfig.hint, d, now), ra)]
                else if r.gameData.Some? then
                  storage.rooms == old(storage.rooms)[Code().value := WithRoles(r, ra)]
                else storage.rooms == old(storage.rooms)
    {
      if !isHost {
        return;
      }
      var room := CurrentRoom();
      if room.None? || |room.value.players| < 3 {
        return;
      }
      var ra := StartButtonAssignments(room.value);
      if ra.None? {
        return;
      }
      var config := room.value.gameConfig;
      var duration := if config.discussionDuration != 0 then config.discussionDuration else 600;
      var started := StartGame(config.word, config.hint, duration, now);
      BroadcastRoles(ra.value);
    }

    /** The host's clue-turn step, run after a submitted clue: the turn moves
      on, or the clue phase is marked complete and `votingScheduled` tells
      that `EnterVotingAfterClues` is to follow. Without `gameData` it throws
      and nothing changes. */
    method AdvanceClueTurn() returns (votingScheduled: bool)
      requires storage.Valid()
      modifies storage
      ensures storage.Valid()
      ensures !isHost || old(CurrentRoom()).None? || old(CurrentRoom()).value.gameData.None? ==>
                !votingScheduled && storage.rooms == old(storage.rooms)
      ensures isHost && old(CurrentRoom()).Some? && old(CurrentRoom()).value.gameData.Some? ==>
                votingScheduled == (NextClueTurn(old(CurrentRoom()).value) >= |old(CurrentRoom()).value.players|)
                && storage.rooms == old(storage.rooms)[Code().value := AdvancedClueTurn(old(CurrentRoom()).value)]
    {
      if !isHost {
        return false;
      }
      var room := CurrentRoom();
      if room.None? || room.value.gameData.None? {
        return false;
      }
      Write(AdvancedClueTurn(room.value));
      votingScheduled := NextClueTurn(room.value) >= |room.value.players|;
    }

    /** The delayed step after the last clue: the state becomes 'voting' with
      no votes, without a host check. */
    method EnterVotingAfterClues(now: nat)
      requires storage.Valid()
      modifies storage
      ensures storage.Valid()
      ensures old(CurrentRoom()).None? || old(CurrentRoom()).value.gameData.None? ==>
                storage.rooms == old(storage.rooms)
      ensures old(CurrentRoom()).Some? && old(CurrentRoom()).value.gameData.Some? ==>
                storage.rooms == old(storage.rooms)[Code().value := InVoting(old(CurrentRoom()).value, now)]
    {
      var room := CurrentRoom();
      if room.None? || room.value.gameData.None? {
        return;
      }
      Write(InVoting(room.value, now));
    }

    /** The skip-discussion button: for a client that believes it hosts, the
      state becomes 'voting', with an empty `gameData` supplied if there was none. */
    method SkipButton(now: nat)
      requires storage.Valid()
      modifies storage
      ensures storage.Valid()
      ensures !isHost || old(CurrentRoom()).None? ==> storage.rooms == old(storage.rooms)
      ensures isHost && old(CurrentRoom()).Some? ==>
                var r := old(CurrentRoom()).value;
                storage.rooms == old(storage.rooms)[Code().value :=
                  InVoting(if r.gameData.Some? then r else r.(gameData := Some(EmptyGameData)), now)]
    {
      if !isHost {
        return;
      }
      var room := CurrentRoom();
      if room.None? {
        return;
      }
      var r := room.value;
      if r.gameData.None? {
        r := r.(gameData := Some(EmptyGameData));
      }
      Write(InVoting(r, now));
    }

    /** The new-round button: for a client that believes it hosts, the room
      goes back to the lobby. */
    method NewRoundButton()
      requires storage.Valid()
      modifies storage
      ensures storage.Valid()
      ensures !isHost || old(CurrentRoom()).None? ==> storage.rooms == old(storage.rooms)
      ensures isHost && old(CurrentRoom()).Some? ==>
                storage.rooms == old(storage.rooms)[Code().value := ResetToLobby(old(CurrentRoom()).value)]
    {
      if !isHost {
        return;
      }
      var room := CurrentRoom();
      if room.None? {
        return;
      }
      Write(ResetToLobby(room.value));
    }
  }
}

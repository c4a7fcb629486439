# Imposter: a verified model of the game rules

Imposter is a party word game. Every player but the imposters learns a secret
word. Players then give clues, discuss and vote on who the imposter is. This
project models the rules of the game in Dafny and proves what those rules promise.
It covers four parts of the code base:

- **The online room** (`js/online.js`). Clients of one browser share a room
  document per room code through browser storage. The `OnlineGame` object
  reads that document, changes it and writes it back. It covers create, join,
  heartbeat, host failover, the host-gated phase changes, clues, votes, chat
  and leaving. It also covers the rules that sit in click handlers: role
  assignment, the clue-turn step, skip-discussion and the new-round reset.
  The chat filter is included too.
- **The offline round** (`js/game.js`). One device runs a round as a global
  mutable state. The model covers:
  - imposter sampling without replacement;
  - vote casting into a tally array behind a client-side rate limiter;
  - picking the accused;
  - the points rule and the per-account XP award.
- **Account progression** (`js/account.js`). It covers account-creation
  checks, XP with coin awards every 50 XP, levels, the 100-tier battle pass
  table and its lookups, the game-history log capped at 50 entries with its
  recent-games view, and per-user statistics.
- **Server rules** (`server/server.js`). It covers:
  - the fixed-window rate limiter;
  - `?` → `$n` placeholder rewriting;
  - room codes;
  - battle-pass level-up and the reward claim;
  - daily-challenge progress;
  - the balance checks for shop purchases and gem spending.

Stateful code is modelled as Dafny classes:

- `RoomStore` is browser storage.
- `OnlineGame` is the online client.
- `OfflineGame` is the offline round's state.
- `AccountStore` holds the accounts and the game history.
- `RateLimiter` holds the buckets.

Each method is proved against pure functions over datatypes, mostly in
modules `RoomModel`, `Tally`, `OfflineRound`, `Accounts`, `BattlePass` and
`ServerRules`. Lemmas then prove what the game promises about those functions.

How JavaScript behaviour is modelled:

- **Remainder.** JavaScript's `%` takes the sign of the dividend (`Accounts.JsRem`).
- **Floor.** `Math.floor` of a division by a positive constant is Dafny's `/`.
- **Defaults.** `x || d` defaults are written out.
- **`undefined`.** Values that can be `undefined` are `Option`s. This covers
  an imposter pick past the end of the list, `find` on an empty table, and
  role assignments without a `role`.
- **TypeErrors.** An operation that throws a `TypeError` before its write
  returns `Threw` and leaves the store unchanged.
- **Random and the clock.** These are parameters: a sequence of draws, and `now`.

Source quirks kept as written:

- **`submitClue`.** It only accepts the state `'playing'`, which no
  transition produces, so it always fails (`OnlineClient.OnlineGame.SubmitClue`).
- **The tally's role check.** The tally reads `roleAssignments[id].role`.
  Neither `broadcastRoles` nor the start button writes `role`. The start
  button writes `isImposter` instead. So the accused is never found to be the
  imposter (`Tally.RoleTableWithoutRoles`,
  `Tally.StartButtonTableNeverCatchesImposter`).
- **`joinRoom`.** It appends without looking for an existing entry
  (`RoomModel.JoinDoesNotDeduplicate`).
- **Ties in the online tally.** They go to the first player in join order. The
  peer ids are not integer-like, so `Object.keys` keeps insertion order.
- **The server's add-xp.** It moves up at most one tier per call, however
  large the gain (`ServerRules.AddPassXPConserves`).
- **Negative XP.** `account_getLevelFromXP` floors the level but truncates the
  remainder. For negative XP that is not a multiple of 100, level·100 + progress
  misses the XP by exactly 100 (`Accounts.LevelFromXP`).
- **Low totals.** Below 30 XP, `getBattlePassProgress` shows tier 1 but counts
  the missing XP to tier 2 (`BattlePass.GetBattlePassProgress`).
- **Battle-pass coins.** The coin payout drops at every tenth tier
  (`BattlePass.CoinsRange`).
- **A negative imposter count.** In the offline setup it is not raised to one,
  and then no imposter is picked (`OfflineRound.ImposterNum`).
- **Online start button.** It gates on the client's cached `isHost`. If that
  flag is stale, `startGame` refuses, but `broadcastRoles` still overwrites
  the role table (`OnlineClient.OnlineGame.StartButton`).

## Model

| member | source | states |
|---|---|---|
| Text.DecimalStringValue | js/account.js:661-662 | the decimal rendering of a tier number reads back to that number |
| Text.DecimalStringInjective | js/account.js:661-662 | different tier numbers render differently, so cosmetic ids and titles of different tiers differ |
| Text.LowerString | js/account.js:43 | ASCII lower-casing keeps the length and maps each character through `Lower` |
| Text.Utf16Length | js/account.js:35 | `password.length` counts UTF-16 code units: between one and two per character |
| Text.Reverse | js/account.js:481 | `reverse()` keeps the length and puts entry `i` at `|s|-1-i` |
| Text.IsWordChar | js/online.js:643 | reference definition: the class `\w` behind `\b` (ASCII letters, digits, `_`) |
| Text.IsJsSpace | js/account.js:37-38 | reference definition: the class `\S` excludes exactly these white-space and line-terminator characters |
| BoundedLog.Newest | js/account.js:470-471 | the last `cap` entries (all when fewer), in order |
| BoundedLog.Append | js/account.js:471-472 | below the cap the entry is pushed; at or above a positive cap the oldest entry is dropped as well |
| BoundedLog.AppendIsNewest | js/account.js:470-471 | a push followed by dropping the oldest beyond the cap keeps exactly the newest `cap` entries; the new entry is last |
| BoundedLog.NewestOfNewest | js/online.js:211-219 | trimming to the cap early or late gives the same log |
| BoundedLog.AppendAllIsNewest | js/online.js:211-219 | after any number of appends the bounded log holds exactly the newest `cap` of everything it received, in order |
| RateLimit.AfterHit | server/server.js:23-35 | reference definition of one counted request on a bucket (the same steps as js/game.js:24-31); its meaning is stated by `HitCounts`, `WithinWindow` and `OneWindow` |
| RateLimit.HitCounts | js/game.js:24-31 | a request inside an open window adds one to the count; a request for a new key or after `reset` starts a fresh window with count 1 |
| RateLimit.WithinWindow | js/game.js:24-31 | inside an open window the requests let through are `min(requests, max - count)` |
| RateLimit.OneWindow | server/server.js:19-38 | a window opened by a request lets through exactly `min(requests, max)` requests before it expires: never more than `max` per key and window |
| RateLimit.RateLimiter.constructor | js/game.js:23 | no buckets |
| RateLimit.RateLimiter.Hit | js/game.js:24-31 | only the key's bucket changes, to the counted bucket; the request is allowed iff the count is at most `max` |
| RoomCode.CodeChar | js/online.js:43-50 | each draw yields a character of `[A-Z0-9]` |
| RoomCode.IndexOf | js/online.js:44 | every code character has a position in the alphabet |
| RoomCode.AlphabetAt | server/server.js:1362 | the alphabet is the 26 capitals followed by the ten digits |
| RoomCode.GenerateRoomCode | server/server.js:1361-1368 | exactly 6 characters, each from `[A-Z0-9]` and each given by its draw |
| RoomCode.EveryCodeReachable | server/server.js:1361-1368 | every 6-character code over the alphabet is produced by some draws |
| RoomCode.DrawOfIndex | js/online.js:47 | drawing a character's position yields that character |
| ChatFilter.Boundary | js/online.js:643 | reference definition of `\b`: word character on exactly one side of the position |
| ChatFilter.MatchAt | js/online.js:643 | reference definition of a case-insensitive `\bw\b` match at a position |
| ChatFilter.MatchRun | js/online.js:643 | a `\bw\b` match is a maximal run of word characters |
| ChatFilter.NoOverlap | js/online.js:643 | overlapping whole-word matches start at the same place and are equally long |
| ChatFilter.SameMatch | js/online.js:643 | overlapping whole-word matches are the same word |
| ChatFilter.MaskFrom | js/online.js:644 | one `replace` pass keeps the text's length |
| ChatFilter.MaskWord | js/online.js:642-645 | one pass keeps the length of the text |
| ChatFilter.MaskFromAt | js/online.js:642-645 | the left-to-right scan stars exactly the positions inside whole-word matches from where it starts |
| ChatFilter.MaskWordAt | js/online.js:642-645 | one pass stars exactly the whole-word, any-case occurrences of the word and keeps every other character |
| ChatFilter.FilterWith | js/online.js:641-645 | the passes keep the length |
| ChatFilter.FilterWithStarsExactly | js/online.js:641-645 | after all passes, a position is `*` iff it lies in a whole-word match of some listed word in the original text; every other character is kept |
| ChatFilter.Filtered | js/online.js:638-647 | the filtered text has the message's length |
| ChatFilter.FilterBadWords | js/online.js:638-647 | an empty text is returned unchanged; the result equals the passes over `BAD_WORDS` and stars exactly the whole-word, any-case occurrences of the listed words |
| RoomModel.FirstUsername | js/online.js:170-172 | `""` for an absent id; for a present id, the username of its first entry (what `find` returns) |
| RoomModel.LastUsername | js/online.js:466-467 | `""` for an absent id; for a present id, the username of its last entry (what the last write of the `forEach` leaves) |
| RoomModel.Without | js/online.js:346 | the filter removes every entry with the id, keeps every other entry and adds none |
| RoomModel.WithoutAppend | js/online.js:346 | the filter keeps order: filtering a concatenation concatenates the filtered parts |
| RoomModel.WithoutFirst | js/online.js:346-351 | the first entry left is the first entry whose id differs from the leaver's |
| RoomModel.DistinctIdsCount | js/online.js:93 | with distinct ids, there are as many ids as entries |
| RoomModel.NewRoom | js/online.js:57-69 | state 'lobby' with no game data and no chat; the creator, ready, is the only player and the host; last-seen holds exactly the creator at `now`; the code and configuration are the given ones; the document is well formed |
| RoomModel.JoinRefusal | js/online.js:89-91 | a stored room is refused exactly when its state is 'ended', 'voted' or unset |
| RoomModel.Joined | js/online.js:93-97 | the caller, ready, is appended to the players and its heartbeat stamped; no other field changes; a well-formed document stays well formed |
| RoomModel.JoinDoesNotDeduplicate | js/online.js:93 | joining twice with one id leaves two more entries than before |
| RoomModel.Heartbeat | js/online.js:30-36 | only the caller's last-seen entry is set; the caller is appended only when its id is absent; no other field changes |
| RoomModel.HeartbeatKeepsOthers | js/online.js:30-36 | afterwards the caller is present, other last-seen entries are unchanged, and every earlier entry stays in place |
| RoomModel.LastSeen | js/online.js:127 | reference definition: `playersLastSeen[id] || 0` |
| RoomModel.IsActive | js/online.js:126-129 | reference definition: seen less than 15000 ms ago |
| RoomModel.HostStale | js/online.js:132-134 | reference definition: a host is set and was last seen more than 15000 ms ago |
| RoomModel.FirstActiveFrom | js/online.js:126-129 | the first index at or after `i` whose player was seen within 15000 ms, or none when no such player exists |
| RoomModel.Failover | js/online.js:126-142 | the host check keeps the document well formed |
| RoomModel.FailoverPolicy | js/online.js:126-142 | the host changes only when it is stale and some player is active; it then becomes the earliest-joined active player; only `host` and `hostUsername` change; a stale host is never kept while an active player exists |
| RoomModel.FailoverChangesHost | js/online.js:131-139 | when a stale host is replaced, the new host is a different player |
| RoomModel.Started | js/online.js:155-161 | state 'role'; the game data is the payload's word, hint and duration with round and reveal start stamped at `now`, clue turn 0, and no clues, roles, votes, clue phase, voting or result; nothing else changes |
| RoomModel.FillUsernames | js/online.js:166-177 | the same keys; a given username is kept; a missing one is taken from the first player with that id |
| RoomModel.WithRoles | js/online.js:166-177 | the stored role table is the given one with usernames filled in; nothing else changes; the document stays well formed |
| RoomModel.InClueing | js/online.js:225-233 | state 'clueing' with the clue phase stamped at `now`; nothing else changes; the document stays well formed |
| RoomModel.InVoting | js/online.js:239-242 | state 'voting' with no votes and the voting start stamped at `now`; nothing else changes |
| RoomModel.WithClue | js/online.js:193-201 | the clue is stored under its author (replacing an earlier one); every other clue and every other field is unchanged; the document stays well formed |
| RoomModel.WithVote | js/online.js:248-257 | the voters are the earlier ones plus the caller, whose vote is `Vote(name, target, now)` (replacing an earlier one); every other vote and every other field is unchanged |
| RoomModel.AllVotesCast | js/online.js:264 | reference definition: as many votes as players; none where a missing `gameData` throws |
| RoomModel.AllVotesCastMeansEveryoneVoted | js/online.js:260-265 | with distinct ids and only players voting, the count comparison holds iff every player has voted |
| RoomModel.WithChat | js/online.js:204-222 | the chat log is the bounded append of the new message; nothing else changes |
| RoomModel.Left | js/online.js:341-358 | the players are the in-order filter without the caller; a leaving host hands over, id and username, to the first remaining player; otherwise host and host name are unchanged; nothing else changes |
| RoomModel.LeftHandsToEarliest | js/online.js:346-351 | a leaving host is replaced by the earliest-joined player with another id |
| RoomModel.StartButtonAssignments | js/online.js:459-472 | a table exists iff `imposterCount` is at most the number of players; it then has exactly the players' ids as keys |
| RoomModel.StartButtonRoles | js/online.js:459-472 | a player is marked imposter iff its id is among the first `imposterCount` players; only imposters get the hint; everyone gets the configured word, or 'PLACEHOLDER' when it is empty; the username is that of the player's last entry |
| RoomModel.NextClueTurn | js/online.js:536 | reference definition: `(currentClueTurn || 0) + 1` |
| RoomModel.AdvancedClueTurn | js/online.js:535-552 | below the player count the turn index moves on; from the last turn only the state ('clueing') and the completion flag change |
| RoomModel.ResetToLobby | js/online.js:505-511 | state 'lobby', no game data, empty chat, every player kept in place with `ready` false; nothing else changes |
| RoomModel.MyRoleInfo | js/online.js:179-190 | the assignment under the caller's id; else, iff one exists, an assignment carrying the caller's non-empty username; none without game data |
| Tally.Tallies | js/online.js:276-283 | the reference tally has an entry for exactly the current players |
| Tally.CountStep | js/online.js:279-283 | counting one more vote adds one exactly when it names the player |
| Tally.PlayerIdsSnoc | js/online.js:276 | the first `i+1` players' ids are the first `i` plus player `i`'s |
| Tally.TallyVotes | js/online.js:276-283 | the two loops produce the reference tally |
| Tally.CountVotes | js/online.js:279-283 | each player's entry counts exactly the votes that name it |
| Tally.SumIsValidVotes | js/online.js:279-283 | summed over distinct ids, the entries count each vote for one of them exactly once |
| Tally.TallySum | js/online.js:276-283 | over distinct player ids, the tally sums to the number of votes naming a current player, which is at most the number of votes |
| Tally.MaxTally | js/online.js:285 | the largest entry of a non-empty table |
| Tally.FirstWithTally | js/online.js:286 | the first index at or after `i` holding `m`, if any |
| Tally.Accused | js/online.js:284-286 | none iff there are no players; otherwise the first player in join order holding the largest tally |
| Tally.AccusedRole | js/online.js:289 | reference definition: the accused's `role`, none when absent (an unset accused reads the key "undefined") |
| Tally.RoleOf | js/online.js:296 | reference definition: a player's `role`, or 'civilian' without an assignment |
| Tally.PointsFor | js/online.js:293-311 | reference definition of the points rule for one player; its meaning is stated by `ComputePoints` and `RoleTableWithoutRoles` |
| Tally.Points | js/online.js:293-311 | one entry per current player |
| Tally.ComputePoints | js/online.js:293-311 | when the imposter is caught, civilians get +10 and everyone else −5; otherwise imposters get +15, the accused −5, others +2 |
| Tally.Outcome | js/online.js:276-319 | the stored tally is the reference tally; the accused is the first player holding the largest tally (none only without players); the accused role is read from the table; `wasImposter` iff that role is 'imposter'; the points are the reference points table for that accused; the word is revealed |
| Tally.TalliedRoom | js/online.js:314-320 | state 'ended' with the outcome stored; nothing else changes |
| Tally.RoleTableWithoutRoles | js/online.js:289-296 | with no assignment carrying a `role`, the accused is never the imposter: the accused gets −5 and everyone else +2 |
| Tally.StartButtonTableNeverCatchesImposter | js/online.js:289-296 | the same for the table the start button writes |
| OnlineClient.RoomStore.constructor | js/online.js:19-22 | empty storage |
| OnlineClient.OnlineGame.constructor | js/online.js:19-22 | the client's identity, with no room, no host flag and no vote |
| OnlineClient.OnlineGame.CurrentRoom | js/online.js:108-115 | the stored document of the client's code, none without a code or a document |
| OnlineClient.OnlineGame.Heartbeat | js/online.js:25-37 | the stored room becomes its heartbeat; without a room nothing changes |
| OnlineClient.OnlineGame.CreateRoom | js/online.js:53-77 | a new lobby hosted by the caller is stored under the generated code, which the client adopts as host |
| OnlineClient.OnlineGame.JoinRoom | js/online.js:80-105 | "Room not found" and "Game has already finished" change nothing; otherwise the caller is appended and the code adopted |
| OnlineClient.OnlineGame.Poll | js/online.js:118-146 | the stored room goes through the failover check; the cached host flag then follows the document |
| OnlineClient.OnlineGame.StartGame | js/online.js:149-163 | a non-host changes nothing; the host's room becomes the started room |
| OnlineClient.OnlineGame.BroadcastRoles | js/online.js:166-177 | stores the role table with usernames filled in; without game data it throws and nothing changes |
| OnlineClient.OnlineGame.SubmitClue | js/online.js:193-201 | a clue is accepted only in state 'playing'; for a well-formed store that never happens; nothing changes |
| OnlineClient.OnlineGame.SendChatMessage | js/online.js:204-222 | appends the filtered message to the bounded chat log |
| OnlineClient.OnlineGame.AdvanceFromRoleReveal | js/online.js:225-233 | non-hosts change nothing; the host's room enters 'clueing' |
| OnlineClient.OnlineGame.StartVoting | js/online.js:236-245 | non-hosts change nothing; the host's room enters 'voting' with no votes |
| OnlineClient.OnlineGame.SkipDiscussion | js/online.js:326-331 | the host check, then the same as starting the vote |
| OnlineClient.OnlineGame.SubmitVote | js/online.js:248-257 | only in 'voting'; the caller's vote is stored and remembered |
| OnlineClient.OnlineGame.AllVotesCast | js/online.js:260-265 | false without a room, throws without game data, otherwise whether there are as many votes as players |
| OnlineClient.OnlineGame.EndVotingAndTally | js/online.js:268-323 | non-hosts change nothing; without game data it throws; otherwise the room becomes the tallied room |
| OnlineClient.OnlineGame.LeaveRoom | js/online.js:341-358 | the stored room becomes `Left` of the caller and the client forgets its room code; the cached host flag, identity and vote are kept (only `roomCode` is cleared); without a code or a stored room nothing changes |
| OnlineClient.OnlineGame.StartButton | js/online.js:448-478 | a client believing it hosts, in a room of at least 3 players, starts the game and stores the role table; a stale host flag stores the table without starting |
| OnlineClient.OnlineGame.AdvanceClueTurn | js/online.js:535-552 | for a believed host the room becomes the advanced clue turn; without game data nothing changes |
| OnlineClient.OnlineGame.EnterVotingAfterClues | js/online.js:541-549 | the room enters 'voting' with no votes, without a host check |
| OnlineClient.OnlineGame.SkipButton | js/online.js:602-614 | for a believed host the room enters 'voting' with no votes, with game data supplied if missing |
| OnlineClient.OnlineGame.NewRoundButton | js/online.js:502-514 | for a believed host the room goes back to the lobby |
| OfflineRound.PlayerCount | js/game.js:165-173 | the setup count (6 when blank) clamped to [3, 10] |
| OfflineRound.ImposterNum | js/game.js:175-176 | at most `max(1, n-1)`; a blank entry gives 1 |
| OfflineRound.SeatName | js/game.js:182-183 | the typed name, else the signed-in user for the first seat, else `Player i+1` |
| OfflineRound.FreshScores | js/game.js:180-185 | `n` entries with ids `0..n-1` and scores 0 |
| OfflineRound.SeatsOf | js/game.js:186 | one seat per score entry, with its id and name |
| OfflineRound.Range | js/game.js:197 | `[0, n)` in order |
| OfflineRound.Sample | js/game.js:196-203 | one pick per draw |
| OfflineRound.RemoveAt | js/game.js:201 | taking one position out of a list without repeats leaves exactly the other members, without repeats |
| OfflineRound.SampleDefined | js/game.js:196-203 | pick `i` is defined iff `i` is below the number of available indices |
| OfflineRound.SampleDistinct | js/game.js:196-203 | the defined picks are distinct members of the available indices |
| OfflineRound.SampleImposters | js/game.js:195-203 | the loop yields a pick per round of the loop, defined iff below the player count, each below the player count and all distinct |
| OfflineRound.Zeros | js/game.js:420 | `n` zeros |
| OfflineRound.VotesFor | js/game.js:645 | reference definition: the number of votes aimed at a seat; related to the tally by `TallyCounts` |
| OfflineRound.TallyOf | js/game.js:462 | the tally array keeps its length |
| OfflineRound.TallyCounts | js/game.js:462 | each slot counts exactly the votes aimed at it |
| OfflineRound.SumZeros | js/game.js:420 | the zero tally sums to 0 |
| OfflineRound.SumIncrement | js/game.js:462 | incrementing one slot raises the sum by one |
| OfflineRound.TallySum | js/game.js:458-465 | the tally always sums to the number of votes |
| OfflineRound.MaxOf | js/game.js:473 | the largest slot |
| OfflineRound.FirstIndexOf | js/game.js:473 | the first index holding the value, or −1 |
| OfflineRound.Accused | js/game.js:473 | −1 iff the tally is empty; otherwise the first index holding the largest count |
| OfflineRound.IsImposter | js/game.js:474 | reference definition: `imposterIndices.includes(i)` |
| OfflineRound.AllCaught | js/game.js:477-486 | reference definition: every pick is the target of some vote (an undefined pick never is) |
| OfflineRound.TargetedByTally | js/game.js:477-486 | a seat is the target of some vote iff its slot is positive |
| OfflineRound.AllCaughtByTally | js/game.js:477-486 | every imposter is caught iff each imposter index has a positive slot |
| OfflineRound.VotesForPositive | js/game.js:645 | a slot is zero iff no vote names it |
| OfflineRound.AllImpostersCaught | js/game.js:477-486 | holds iff every imposter index is the target of at least one vote |
| OfflineRound.CaughtScore | js/game.js:624-637 | a civilian other than the accused gains 3, the accused civilian 2, an imposter other than the accused 1, the accused imposter 0 |
| OfflineRound.FindId | js/game.js:641 | the position of the first entry with the id, none when absent |
| OfflineRound.ImposterScores | js/game.js:638-650 | the table keeps its length and ids |
| OfflineRound.ImposterScoresRule | js/game.js:638-650 | with distinct ids and picks: each imposter gains 3, or 4 with no votes; civilian scores are unchanged |
| OfflineRound.CivilianNames | js/game.js:576-584 | reference definition: the names of the seats that are not picks, in seat order; used by `AwardCivilianXP` |
| OfflineRound.ImposterNames | js/game.js:586-592 | reference definition: the names of the picked seats that exist, in pick order; used by `AwardImposterXP` |
| OfflineRound.ResolvedImposters | js/game.js:550 | the imposters' names, none when an index is undefined or past the end |
| OfflineRound.SeatNames | js/game.js:549 | one name per seat |
| OfflineRound.SeatCount | js/game.js:166-173 | the current players when skipping setup with players present, else the clamped setup field |
| OfflineRound.Seating | js/game.js:178-194 | a fresh table is built only on a full setup with no scores; seats follow the scores when there are none; the round is counted up |
| OfflineRound.OfflineGame.constructor | js/game.js:1-14 | the initial state: no players, picks, votes or scores, one imposter, round 0, reveal and clue indices 0 |
| OfflineRound.OfflineGame.NewGame | js/game.js:145-213 | seats, scores and round follow `Seating`; the picks are the sample over the seats; with a fresh table all picks are defined, distinct and in range; votes cleared, word and hint set, reveal and clue indices 0 |
| OfflineRound.OfflineGame.NextRole | js/game.js:329-362 | the reveal index moves on; after the last role the discussion length is `max(5, duration or 120)`: the default without input, the input when at least 5, and 5 for a smaller input |
| OfflineRound.OfflineGame.NextClue | js/game.js:401-409 | the clue index moves on; finished iff it reaches the player count |
| OfflineRound.OfflineGame.ToVoting | js/game.js:411-423 | no votes, voter 0, a zero tally with one slot per player |
| OfflineRound.OfflineGame.CastVote | js/game.js:451-466 | throttled by the rate limiter; a counted vote increments exactly its slot and the voter index and appends one vote; the tally still sums to the number of votes |
| OfflineRound.OfflineGame.AwardPoints | js/game.js:617-651 | caught: every entry follows `CaughtScore`; not caught: the table becomes `ImposterScores` |
| OfflineRound.OfflineGame.AwardRoundXP | js/game.js:571-594 | civilians win: +5 XP to every civilian seat; imposters win: +10 XP to every picked seat |
| OfflineRound.OfflineGame.AwardCivilianXP | js/game.js:576-584 | the accounts become the +5 award over the civilian names in seat order |
| OfflineRound.OfflineGame.AwardImposterXP | js/game.js:586-592 | the accounts become the +10 award over the picked seats' names |
| OfflineRound.OfflineGame.FinishVote | js/game.js:468-557 | the accused is the first largest slot; `correct` iff it is a pick; `allCaught` iff every pick drew a vote; points, XP and the history entry follow |
| OfflineRound.OfflineGame.NewRound | js/game.js:750-770 | empty scores, round 0, reveal and clue indices 0 |
| Accounts.AtAndDotSplit | js/account.js:37-38 | the pattern `^\S+@\S+\.\S+$` accepts a whitespace-free `a@b.c` with non-empty parts |
| Accounts.Rejection | js/account.js:33-44 | no rejection only when every field is present, the password has at least 6 UTF-16 units, the email matches the pattern, and neither the username nor the email is taken; a taken username or email is always rejected |
| Accounts.EmailCaseInsensitive | js/account.js:43-44 | an address that differs from a stored one only in letter case is refused |
| Accounts.ValidEmail | js/account.js:37-38 | reference definition of `^\S+@\S+\.\S+$`: no white space, and an `@` and a later `.` with characters before, between and after |
| Accounts.EmailInUse | js/account.js:43-44 | reference definition: some stored account has a non-empty email equal to this one up to ASCII case |
| Accounts.CoinAward | js/account.js:119-124 | a multiple of 10; positive iff the floor of XP/50 rises; none when XP does not grow |
| Accounts.FloorStep | js/account.js:119-120 | the floor of XP/50 rises by one per multiple of 50 passed |
| Accounts.CoinsCountThresholds | js/account.js:119-124 | a gain earns 10 coins for every multiple of 50 it passes or reaches |
| Accounts.CoinAwardAdds | js/account.js:119-124 | two gains in a row earn the same coins as one gain of their sum |
| Accounts.WithXP | js/account.js:110-125 | a refused award changes nothing; otherwise only the named account changes, with XP raised by the amount and coins per threshold |
| Accounts.ApplyXPSnoc | js/account.js:110-125 | awarding a list and then one more name is awarding the longer list |
| Accounts.ApplyXPGains | js/account.js:110-125 | each account gains `amount` per occurrence of its name, never loses coins, and is untouched when not named |
| Accounts.JsRem | js/account.js:137 | JavaScript's `%`: the remainder takes the dividend's sign and has smaller magnitude than the divisor |
| Accounts.LevelFromXP | js/account.js:135-139 | for non-negative XP, level·100 + progress = XP with progress in [0,100); for negative XP the sum misses by 100 unless XP is a multiple of 100 |
| Accounts.Entry | js/account.js:462-469 | reference definition: the history record `logGame` builds |
| Accounts.SliceStart | js/account.js:481 | where `slice(-limit)` starts, within the list |
| Accounts.Recent | js/account.js:477-482 | newest first: entry `i` is the `i`-th newest, for every limit; the last `limit` entries for a positive limit, all for limit 0; a negative limit drops from the front |
| Accounts.StatsStep | js/account.js:494-509 | reference definition of one game's effect on the counters |
| Accounts.StatsOf | js/account.js:494-509 | reference definition of the counters over a history, oldest first; stated by `StatsConsistent` and `PlayerStats` |
| Accounts.StatsConsistent | js/account.js:485-512 | wins = civilian wins + imposter wins ≤ games played, which are the games listing the user |
| Accounts.AccountStore.constructor | js/account.js:2-7 | no accounts and no history |
| Accounts.AccountStore.CreateAccount | js/account.js:33-59 | a refused or unencrypted request changes nothing; otherwise exactly one new account with zero XP and coins |
| Accounts.AccountStore.AddXP | js/account.js:110-133 | succeeds iff the name and amount are truthy and the account exists; the accounts become `WithXP` |
| Accounts.AccountStore.LogGame | js/account.js:459-475 | the history becomes the newest 50 of the old history plus the entry |
| Accounts.AccountStore.RecentGames | js/account.js:477-482 | the recent view of the stored history |
| Accounts.AccountStore.DefaultRecentGames | js/account.js:478 | with the default limit: the newest ten entries (all when fewer), newest first |
| Accounts.AccountStore.PlayerStats | js/account.js:485-512 | the counters equal the reference statistics over the whole history |
| BattlePass.TierAt | js/account.js:657-669 | reference definition of the table entry for index `i`; its meaning is stated by `Tiers` |
| BattlePass.Tiers | js/account.js:656-671 | 100 entries; entry i is tier i+1 with 30·tier XP and the coin formula; a cosmetic iff tier mod 5 = 0; a title iff tier mod 20 = 0 |
| BattlePass.ThresholdsIncrease | js/account.js:667 | thresholds rise strictly along the table |
| BattlePass.CoinsRange | js/account.js:658-659 | every tier pays 60 to 590 coins; the payout drops at every tenth tier |
| BattlePass.TierIndex | js/account.js:673-680 | the highest entry whose threshold is reached, entry 0 when none |
| BattlePass.GetBattlePassTier | js/account.js:673-680 | the highest tier reached, or tier 1; no reached tier is higher |
| BattlePass.GetBattlePassProgress | js/account.js:682-697 | XP to the next tier is `max(0, next threshold − XP)`, between 1 and 30 inside the table, 60 − XP below 30 XP, and 0 at the top |
| ServerRules.RateKey | server/server.js:21 | the player id, else the address, else "anon" |
| ServerRules.Admit | server/server.js:19-38 | counts the request in the key's bucket and admits it iff the window holds at most `max` requests |
| ServerRules.AdmitDefault | server/server.js:19 | `rateLimit()` without options: the same counting with a 60000 ms window and at most 60 requests |
| ServerRules.QCount | server/server.js:52 | reference definition: the number of `?` (the counter `idx`) |
| ServerRules.Piece | server/server.js:52 | reference definition: the k-th `?` becomes `$k`, every other character stays |
| ServerRules.Pieces | server/server.js:52 | reference definition: the rewrite of a prefix, piece by piece |
| ServerRules.ConvertPlaceholders | server/server.js:49-54 | with no parameters the text is unchanged; otherwise the k-th `?` becomes `$k`; the parameters pass through |
| ServerRules.NoPlaceholders | server/server.js:49-54 | text without `?` comes through unchanged |
| ServerRules.PiecesPrefix | server/server.js:52 | the rewrite of a prefix is a prefix of the rewrite |
| ServerRules.PlaceholderAt | server/server.js:52 | the `?` at a position becomes `$k`, where k counts the marks up to it |
| ServerRules.QCountGrows | server/server.js:52 | a later `?` has a larger count |
| ServerRules.DistinctPlaceholders | server/server.js:49-54 | different `?` get different numbers |
| ServerRules.AddPassXP | server/server.js:954-977 | at or above the requirement: one tier up, keeping the excess; otherwise only the XP grows |
| ServerRules.AddPassXPConserves | server/server.js:954-977 | tiers × requirement + XP grows by the amount; a gain of two tiers' worth still climbs only one tier |
| ServerRules.TierGems | server/server.js:1029-1032 | 5 gems iff the tier is positive and a multiple of 10 |
| ServerRules.ClaimReward | server/server.js:1019-1034 | refused without progress or above the current tier, and when already claimed; otherwise the tier is appended and its gems paid |
| ServerRules.ClaimOnce | server/server.js:1024-1028 | claiming keeps the claimed list free of repeats, and a second claim of the tier is refused |
| ServerRules.ChallengeIncrement | server/server.js:1297-1313 | the event's count when the role and the metric/event pair match, none otherwise |
| ServerRules.Advance | server/server.js:1320-1338 | new progress = min(previous + increment, target); complete iff it reaches the target |
| ServerRules.AdvanceAllCaps | server/server.js:1337-1338 | for non-negative increments, capping after each event equals capping the total once |
| ServerRules.Buy | server/server.js:654-677 | "Already owned", "Item not found", "Not enough gems" in order; otherwise the new balance is gems − price ≥ 0 |
| ServerRules.SpendGems | server/server.js:1166-1170 | refused without a row or when the balance is below the amount; otherwise the balance minus the amount |
| ServerRules.NegativeSpendMints | server/server.js:1166-1170 | a negative amount raises the balance: spending −100 from 0 leaves 100 |
| ServerRules.SpendGemsChecked | server/server.js:1166-1170 | also refuses a non-positive amount; an accepted spend lowers the balance and stays non-negative |
| ServerRules.SpendNeverMints | server/server.js:1166-1170 | with the check, spending never raises a balance |

## Left out

- Rendering, DOM event wiring, alerts and animations are not modelled. Only the rules inside click handlers are.
- Timers and polling intervals are not modelled. The single transitions they run are, as separate methods. Cross-tab races on one document are not modelled either: every operation is one atomic step.
- Browser storage is a map, and JSON encoding is not modelled. `fetch`, SQL, JWT, bcrypt and HTTPS are I/O, so they are left out. The handlers' database error paths are left out too ("Server error", "Failed to add XP").
- `Math.random`, `Date.now` and generated ids are parameters. This covers `generatePeerId`, session tokens and password encryption. `js/crypto-utils.js` is not part of this model. `CreateAccount` takes the encryption's result as a parameter.
- `js/api-client.js`, `js/service-worker.js`, `js/battle-pass.js`, `js/word-packs.js` and `data/words.js` are not part of this model. They are I/O wrappers, UI or static data.
- The word pick (`randChoice`) in `newGame` is not modelled. The chosen word and hint are parameters. An empty word pool is not modelled.
- Floating-point results are not modelled: the battle-pass progress percentage, the win rate, and the account XP progress bar.
- Case folding is ASCII only. JavaScript's `toLowerCase` and the regular expression `i` flag also fold non-ASCII letters.
- The order of `Object.values` is not modelled. `getMyRoleInfo` picks among several assignments with the caller's username; the model only says that the pick is one of them.
- JavaScript quirks are not modelled: prototype keys, non-numeric request bodies, and `Number(amount)` on non-numbers.
- The setup names are not trimmed by the model: setup names are taken as already trimmed.
- `awardGameXP`, `initAdminAccount`, login and logout, the account display refresh, the gift and admin endpoints, and the leaderboard are not part of this model.
- `revealRole` is not modelled: it only reads the state to draw a card. `startDiscussionTimer` is not modelled either: it is a timer.
- RoomModel.MyRoleInfo: is a ghost function, because the modelled `Object.values` order is not fixed.

## Findings

| source | as written | input that shows it | evidently intended | confidence | as-written member | corrected member |
|---|---|---|---|---|---|---|
| server/server.js:1166-1170 | `gems/spend` checks only `row.gems < amount`, so a negative amount passes and "spending" it adds gems | a balance of 0 and amount −100 gives a new balance of 100 | reject non-positive amounts, so that spending never raises a balance | not executed | ServerRules.NegativeSpendMints | ServerRules.SpendGemsChecked |

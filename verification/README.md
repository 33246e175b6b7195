# knot — a Dafny model of the game engine and the competitive server

knot is an online N×N "k in a row" game. Two players take turns placing X
and O on a square board of side 3 to 10. The first to line up `winLength`
symbols horizontally, vertically or diagonally wins. A full board without a
line is a draw. Every turn has a deadline; a player who misses it loses on
timeout. A player may also resign. Finished rounds of two-player matches
are rated with Elo, and a head-to-head record is kept for every pair of
players. Players are guests, or secured by a passkey.

This project models the parts of knot that decide outcomes:

- the rules engine (`lib/engine/index.ts` over `lib/types/game.ts`):
  - configuration validation;
  - construction of a new match;
  - `applyMove` and its ordered failure checks;
  - timeout resolution;
  - the win-line search through the last placed cell;
- the server mutations and queries (`convex/`):
  - room-code normalisation and seat resolution;
  - joining a room, moves, timeout ticks, rematches and resignation;
  - the competitive finalizer, which rates a round once and bumps the pair's head-to-head row;
  - the rating, history, passkey and player read and write rules;
- the display helpers of `lib/format.ts`.

Layout, one module per file:

| module | file | models |
|---|---|---|
| `Wrappers` | wrappers.dfy | `Option` (`undefined`/`null`, `??`) and `Result` (thrown errors, `{ ok: false }`) |
| `Text` | text.dfy | JavaScript `trim`, `length` in UTF-16 code units, `toUpperCase` for the characters whose upper case is ASCII (a–z, ı, ſ, ß and the ligatures U+FB00–U+FB06), string `<`, integer printing |
| `Lists` | lists.dfy | first-appearance de-duplication, the `limit` clamp |
| `GameTypes` | game_types.dfy | symbols, cells, statuses, `BoardSize`, `GameConfig`, `MatchState` |
| `WinLine` | win_line.dfy | `detectWinningLine` and `isInside` |
| `Engine` | engine.dfy | the rest of `lib/engine/index.ts` |
| `EngineExamples` | engine_examples.dfy | the engine's documented scenarios |
| `Schema` | schema.dfy | the stored documents and the database as one value |
| `Finalizer` | finalizer.dfy | Elo bookkeeping and head-to-head rows of `convex/matches.ts` |
| `Matches` | matches.dfy | room code, seat, and the six match mutations |
| `Ratings` | ratings.dfy | `convex/ratings.ts` |
| `History` | history.dfy | `convex/history.ts` |
| `Passkeys` | passkeys.dfy | `convex/passkeys.ts` |
| `Players` | players.dfy | `convex/players.ts` |
| `Format` | format.dfy | `lib/format.ts` |

How the model is built:

- The database is an immutable `Store` value. A mutation is a function
  from the store to an `Outcome`, which pairs the reply with the new store.
- A thrown error or a refusal returns the store unchanged. The platform
  rolls back a mutation that throws, so this matches the source.
- The clock (`Date.now()`) is a `now` parameter. The floating-point Elo
  update is an `EloRule` parameter: a function from the K-factor, the two
  ratings and the score to the rounded delta.
- The board is a `seq<Cell>`. Cell `(r, c)` sits at index `r * size + c`.
- A win line is described by a `Direction` and a start cell. It is the
  list of consecutive cells holding one symbol.
- `IsConsistent` is the invariant every engine state keeps:
  - the board fits the configuration;
  - the turn counter counts the placed symbols;
  - a won match names a real line of the winner;
  - a drawn match has a full board.
- `StoreInvariant` lifts that invariant to every stored match. It adds
  that no round of any match is scored twice.

## Model

| member | source | states |
|---|---|---|
| GameTypes.ParseSymbol | lib/engine/index.ts:150-152 | exactly "X" and "O" are symbols, and the wire spelling of the parsed symbol is the input |
| Engine.ValidateGameConfig | lib/engine/index.ts:71-107 | ok exactly for integer values with 3≤size≤10, 3≤winLength≤size, 5≤turnTimeSec≤180; each error code is reported exactly when all earlier checks pass and its own check fails |
| Engine.ToGameConfig | lib/types/game.ts:5-11 | a configuration that passed validation keeps its values as integers and satisfies the ranges the engine relies on |
| Engine.CreateEmptyBoard | lib/engine/index.ts:109-111 | size² cells, all empty, so no symbol is placed |
| Engine.CreateNewMatchState | lib/engine/index.ts:113-132 | fails exactly on an invalid configuration, with its message; otherwise an active match at turn 1 on an empty board, deadline creation time (default now) plus the turn time, X to move unless another first player is given, no seats unless given |
| Engine.NewMatchConsistent | lib/engine/index.ts:113-132 | a new match satisfies the consistency invariant |
| Engine.ExpiryAfterDeadline | lib/engine/index.ts:134-136 | the deadline instant itself is still in time, the next millisecond of an active match is expired, expiry lasts, and a match that is not active never expires |
| Engine.ResolveTimeout | lib/engine/index.ts:212-225 | a non-active match is returned unchanged; an active one ends in a timeout won by the player not due to move, with the deadline set to now, nothing else changed |
| Engine.ResolveTimeoutIdempotent | lib/engine/index.ts:212-215 | resolving a timeout twice, at any two instants, is resolving it once |
| Engine.ApplyMove | lib/engine/index.ts:138-210 | each failure reason holds exactly when the earlier checks pass and its own fails (not active, expired, symbol, turn, bounds, occupied); failures other than expiry return the state unchanged; expiry returns the timed-out state with the board kept; a legal move changes exactly one cell, from empty to the mover's symbol, and then wins, draws on a full board, or passes the turn with a new deadline |
| Engine.ApplyMovePreservesConsistency | lib/engine/index.ts:166-209 | every outcome of a move on a consistent match is consistent: a reported line is a run of the mover of at least winLength, a draw has a full board, the turn counter still counts the placed symbols |
| Engine.MarkCountPlace | lib/engine/index.ts:166-167 | placing on an empty cell adds exactly one placed symbol |
| Engine.SymbolCountPlace | lib/engine/index.ts:166-167 | placing t on an empty cell adds one t and leaves the other symbol's count alone |
| Engine.MarkCountFull | lib/engine/index.ts:185 | the board is full exactly when every cell counts as placed |
| Engine.WinNeedsEnoughSymbols | lib/engine/index.ts:227-272 | when a line is reported, the symbol at the index occurs at least winLength times on the board |
| Engine.NoEarlyWin | lib/engine/index.ts:169-183 | a move that leaves its player with fewer than winLength symbols cannot win |
| Engine.NoWinMeansNoLongRun | lib/engine/index.ts:185-209 | after a legal move reported as moved or draw, no run of the mover through the placed cell, in any direction, reaches winLength |
| Engine.WinBeatsFullBoard | lib/engine/index.ts:171-197 | a move that both completes a line and fills the board is a win, not a draw |
| Engine.TerminalIsFinal | lib/engine/index.ts:142-144 | a match that is no longer active refuses every move unchanged and ignores timeout resolution |
| WinLine.DetectWinningLine | lib/engine/index.ts:233-236 | an empty cell has no line; any line returned reaches winLength |
| WinLine.DetectWinningLineSpec | lib/engine/index.ts:227-272 | a non-empty result holds the index, reaches winLength, is strictly increasing, and is a maximal run of the symbol at the index along one direction; an empty result on an occupied cell means every run of any direction through the index is shorter than winLength |
| WinLine.FirstLongLineSpec | lib/engine/index.ts:247-269 | the directions are tried in order: a non-empty result is the line of the first direction whose line reaches winLength, and it does reach winLength; the result is empty only when no direction's line is long enough |
| WinLine.LineIsMaximalRun | lib/engine/index.ts:248-264 | the line built around an occupied index contains it and is a run that neither end can extend |
| WinLine.LineIsRun | lib/engine/index.ts:248-264 | the line starts as many steps before the index as the backward walk took, and is a run from there |
| WinLine.ForwardWalkIsRun | lib/engine/index.ts:258-264 | the forward walk lists consecutive cells of the symbol and stops at the first cell that is off the board or differs |
| WinLine.BackWalkIsRun | lib/engine/index.ts:250-256 | the backward walk does the same going backwards |
| WinLine.ForwardWalkCovers | lib/engine/index.ts:258-264 | the forward walk is at least as long as any stretch of matching cells ahead of it |
| WinLine.BackWalkCovers | lib/engine/index.ts:250-256 | the backward walk is at least as long as any stretch of matching cells behind it |
| WinLine.RunIncreasing | lib/engine/index.ts:248-264 | a run along any of the four directions lists strictly increasing indices |
| WinLine.IndexInside | lib/engine/index.ts:238-239 | an index of the board splits into an on-board row and column that index it again |
| WinLine.IdxInjective | lib/engine/index.ts:252 | two on-board coordinates with the same index are the same cell |
| WinLine.UnshiftBackward | lib/engine/index.ts:248-256 | the unshift loop yields the backward walk reversed, followed by the index |
| WinLine.PushForward | lib/engine/index.ts:258-264 | the push loop appends the forward walk |
| WinLine.DetectWinningLineLoop | lib/engine/index.ts:227-272 | the loop program, with its unshift and push, computes exactly the functional definition |
| EngineExamples.ConfigExamples | lib/engine/index.test.ts:12-26 | 10/5/30 is accepted; sizes, win lengths, timers and fractional values out of range get their own codes |
| EngineExamples.HorizontalWin | lib/engine/index.test.ts:28-56 | the seven-move game on 5×5 with winLength 4 is won by X with line [0, 1, 2, 3] |
| EngineExamples.OccupiedCellRefused | lib/engine/index.test.ts:58-71 | O on X's cell is refused as occupied |
| EngineExamples.LateMoveTimesOut | lib/engine/index.test.ts:73-86 | a move after the deadline times out, won by O |
| EngineExamples.AntiDiagonalWin | lib/engine/index.test.ts:88-99 | five O's on the anti-diagonal of 6×6 are found as [4, 9, 14, 19, 24] |
| EngineExamples.PassesTurn | lib/engine/index.ts:199-209 | a legal move that cannot yet win, on a board with another empty cell, passes the turn, keeps the match consistent and adds one symbol of the mover only |
| Matches.NormalizeRoomCode | convex/matches.ts:24-35 | no code exactly for an absent or empty input; an error exactly when the trimmed, upper-cased input breaks the 3–20 character A-Z/0-9/- pattern; otherwise that normalized code |
| Matches.NormalizeRoomCodeIdempotent | convex/matches.ts:24-35 | a normalized code normalizes to itself |
| Matches.EngineViewOfPatch | convex/matches.ts:254-270 | writing an engine state's fields into a match document and reading the document back with `toEngineState` returns that state |
| Matches.ResolvePlayerSymbol | convex/matches.ts:37-47 | the seat the player holds, X first; none exactly when they hold neither |
| Matches.JoinRoom | convex/matches.ts:328-373 | a malformed code throws the pattern message and an empty one "Invalid room code."; with a well-formed code, "Room not found." is thrown exactly when no match has it, and otherwise the found room decides as `JoinFoundRoom` states; a throw changes nothing |
| Matches.JoinFoundRoom | convex/matches.ts:348-372 | a player already seated gets their seat back and nothing changes; "Room is already full." exactly when a newcomer finds the O seat taken; a newcomer at an open O seat is seated as O; a successful join names the room's match and a seat the player holds, and only that match changes |
| Matches.SeatAsO | convex/matches.ts:359-368 | seating O changes only that match, and in it only the O seat (now the player), the status (active), the deadline (now plus the turn time), the rematch request (cleared) and the update time; the board, turn, round, result and archive stamp, and the moves, ratings, rating events and head-to-head rows, are kept |
| Matches.MakeMove | convex/matches.ts:409-501 | a missing match throws, a caller without a seat is refused; otherwise the engine decides: refusals change nothing, a late move stores the timed-out state, an accepted move is logged once and stored as the engine's new state; only that match changes; a late move and a winning or drawing move run the finalizer on the patched database, and any other accepted move leaves ratings, rating events and head-to-head rows untouched; a stored move or timeout stamps the match with now and keeps its archive stamp, and a late move keeps the last move index |
| Matches.TickTimeout | convex/matches.ts:503-550 | refuses a non-active match, and one whose deadline has not passed (with the time left); otherwise stores the engine's timeout, won by the player not due to move, stamped with now, with the rematch request cleared and the last move index and archive stamp kept, and finalizes it |
| Matches.RequestRematch | convex/matches.ts:552-607 | a missing match throws; in the source's order, each refusal happens exactly when the checks before it pass: not finished, then an empty seat, then a caller without a seat, then a pending request (naming who asked); otherwise the request is recorded as the caller's symbol; a refusal changes nothing |
| Matches.AcceptRematch | convex/matches.ts:609-682 | a missing match throws; in the source's order, each refusal happens exactly when the checks before it pass: not finished, then an empty seat, then no pending request, then a caller without a seat, then the requester accepting their own request; otherwise the next round starts on an empty board, X to move, turn 1, fresh deadline, round number + 1, seats and archive stamp kept, and only that match changes |
| Matches.Resign | convex/matches.ts:684-731 | a missing match throws; refused as not active exactly for a match that is not active, and as not joined exactly for a caller without a seat in an active one; otherwise the opponent wins and the round is finalized; a refusal changes nothing |
| Matches.JoinRoomKeepsInvariant | convex/matches.ts:328-373 | joining keeps every stored match consistent and every round scored at most once |
| Matches.MakeMoveKeepsInvariant | convex/matches.ts:409-501 | moving keeps the store invariant |
| Matches.TickTimeoutKeepsInvariant | convex/matches.ts:503-550 | a timeout tick keeps the store invariant |
| Matches.RequestRematchKeepsInvariant | convex/matches.ts:552-607 | a rematch request keeps the store invariant |
| Matches.AcceptRematchKeepsInvariant | convex/matches.ts:609-682 | starting the next round keeps the store invariant |
| Matches.ResignKeepsInvariant | convex/matches.ts:684-731 | resigning keeps the store invariant |
| Matches.LateMoveIsTick | convex/matches.ts:442-462 | a move after the deadline leaves the database exactly as a timeout tick at the same instant |
| Matches.SecondTickRefused | convex/matches.ts:503-550 | after a timeout, a second tick is refused as not active and changes nothing |
| Finalizer.ComputeScorePair | convex/matches.ts:53-67 | a draw is half a point each whatever the winner; otherwise the winner gets the point and no winner means no score; the two scores sum to 1 |
| Finalizer.ComputeKFactor | convex/matches.ts:69-71 | 32 exactly below 12 games, 24 exactly from 12 on |
| Finalizer.GetOrCreateRating | convex/matches.ts:81-107 | the stored rating, or a new one at 1200 Elo, 0 games, 12 provisional games |
| Finalizer.UpsertHeadToHead | convex/matches.ts:109-165 | without two seats nothing changes; otherwise the row under the pair's (low, high) key gains exactly one game, as a draw exactly when there is no winner and otherwise as a win for the winner's side; no other row changes |
| Finalizer.RateRound | convex/matches.ts:199-249 | each player's event is for this round, at now, starts from their prior rating and adds its delta; each delta is the Elo rule applied to the seat's own K-factor (from its prior games), its prior rating, the opponent's prior rating and its own score; each rating has one more game, the new Elo and the countdown of provisional games; nobody else's rating changes |
| Finalizer.FinalizeCompetitiveResult | convex/matches.ts:167-252 | nothing changes unless the status is terminal, both seats are filled, the round has no event yet and there is a score; otherwise two events are appended (X first, with X's share of the outcome's score pair; O second, with O's share) and both players rated by them, only ratings, events and head-to-head change, and a draw is credited as a draw |
| Finalizer.FinalizeIdempotent | convex/matches.ts:184-192 | finalizing the same outcome twice scores once |
| Finalizer.ScoredRoundIsFinal | convex/matches.ts:182-192 | once a round is scored, no later call for that match and round changes anything, whatever outcome it reports |
| Finalizer.FinalizeScoresOnce | convex/matches.ts:184-249 | when the match's two seats hold different players, every round of every match keeps either no event or exactly two, and no player has two events for the same round |
| Finalizer.CountdownMatchesKFactor | convex/matches.ts:214-229 | after a rated game the provisional countdown is positive exactly while the provisional K-factor still applies |
| Finalizer.PairKeyOrdered | convex/matches.ts:116-120 | the pair key holds the two ids, the smaller first |
| Finalizer.UpsertKeepsCanonical | convex/matches.ts:109-165 | every head-to-head row stays filed under its own ordered (low, high) key |
| Ratings.LeaderboardLimit | convex/ratings.ts:9 | the limit defaults to 25, a value within 1..100 is kept, smaller ones become 1 and larger ones 100 |
| Ratings.SortedPairIsPairKey | convex/ratings.ts:40 | the lookup sorts the two ids exactly as the finalizer files them, in either argument order |
| Ratings.GetHeadToHead | convex/ratings.ts:34-47 | the row filed under the sorted pair, if any |
| Ratings.HeadToHeadAfterFinalize | convex/ratings.ts:34-47 | after a scored round both argument orders find the same row, with one more game than before |
| Ratings.RoundEvents | convex/ratings.ts:56-60 | exactly the events of this match and round, as many as the round count |
| Ratings.SortByCreation | convex/ratings.ts:62-63 | the sort is a permutation of its input, of the same length |
| Ratings.SortSorted | convex/ratings.ts:62-63 | the sort's output is ordered by creation time |
| Ratings.SortStable | convex/ratings.ts:62-63 | events created at the same instant keep their stored order |
| Ratings.FirstDeltaFor | convex/ratings.ts:71-73 | the delta of the first event for the player; none exactly when no event is theirs |
| Ratings.GetRoundRatingEvents | convex/ratings.ts:49-81 | the round's events in creation order; no own delta without a player; a named caller's delta is that of their first event in that order, and there is none exactly when no event is theirs |
| Ratings.ScoredRoundCount | convex/matches.ts:231-249 | a scored round has exactly two events |
| Ratings.RoundEventFound | convex/ratings.ts:71-79 | any event of the round is found by the player it belongs to |
| Ratings.ScoredRoundShowsTwoEvents | convex/ratings.ts:49-81 | after a scored round the result screen shows two events and the X player's own delta |
| Lists.Dedup | convex/players.ts:80 | the same elements without repeats, no longer than the input |
| Lists.DedupOrder | convex/history.ts:31-38 | repeats are removed keeping the order of first appearance |
| Lists.UniqueUpTo | convex/history.ts:31-40 | the loop collects the first `max(limit, 1)` distinct keys in order of first appearance, without repeats |
| Lists.ClampLimit | convex/history.ts:23 | the limit lies in 1..100, a requested value in range is kept, smaller ones become 1 and larger ones 100 |
| Lists.ClampLimitIdempotent | convex/history.ts:23 | clamping a clamped limit changes nothing |
| Lists.KeepNoDups | convex/history.ts:57-90 | skipping the ids without an entry cannot make an id appear twice |
| History.ResolveResult | convex/history.ts:8-15 | a draw exactly for draw status, whatever the winner; a win exactly for the recorded winner of any other status |
| History.ResultsComplement | convex/history.ts:8-15 | for a decided game the two seats see opposite results |
| History.HistoryLimit | convex/history.ts:23 | the limit defaults to 50, a value within 1..100 is kept, smaller ones become 1 and larger ones 100 |
| History.EventsNewestFirst | convex/history.ts:25-29 | exactly the player's events |
| History.EventsNewestFirstOrder | convex/history.ts:25-29 | the events come newest first: the player's events in insertion order, reversed |
| History.EloDelta | convex/history.ts:72-85 | the delta of the first event for this match and player, 0 when there is none |
| History.HistorySymbol | convex/history.ts:62-67 | the seat the player holds, X first, an empty seat id counting as no one |
| History.EntryFor | convex/history.ts:57-89 | an entry exactly for a stored, finished match the player sat in, with its room code, board size, win length, status, result, Elo change, time played (last update), round and archived flag; the opponent is shown by the other seat's stored display name, or "Unknown" when that seat is empty or its player is missing |
| History.Entries | convex/history.ts:57-90 | each entry is the one its match id yields, and every id that yields an entry has it in the result |
| History.EntriesFollowIds | convex/history.ts:57-90 | the entries' match ids are exactly the ids that yield an entry, in the order of the ids |
| History.GetPlayerHistory | convex/history.ts:17-94 | the entries of the first `limit` distinct matches of the player's newest events, all finished, at most `limit`, and no match listed twice |
| History.ArchiveMatch | convex/history.ts:96-116 | a missing match and a caller without a seat are errors; otherwise only that match is stamped as archived |
| History.ArchiveKeepsEntry | convex/history.ts:88 | archiving keeps the match in every seated player's history, changed only in its archived flag |
| Passkeys.CreateChallenge | convex/passkeys.ts:6-25 | the challenge is stored unused and expires 300000 ms after now |
| Passkeys.FindChallenge | convex/passkeys.ts:34-37 | the first record for the challenge; none exactly when no record has it |
| Passkeys.ConsumeChallenge | convex/passkeys.ts:27-64 | refused as not found, already used, expired (strictly after the expiry) or for another player, each exactly when the earlier checks pass; a refusal changes nothing; success marks the record used and returns its player |
| Passkeys.ConsumeOnlyOnce | convex/passkeys.ts:43-57 | a consumed challenge is refused from then on |
| Passkeys.FreshChallengeAccepted | convex/passkeys.ts:6-64 | a new challenge is accepted within its lifetime, for its flow and player |
| Passkeys.FindCredential | convex/passkeys.ts:106-109 | the first credential with the id; none exactly when no credential has it |
| Passkeys.UpsertCredential | convex/passkeys.ts:95-150 | refused exactly when the credential is bound to another player; a missing player rolls back; otherwise the credential is updated or inserted for the player and the player becomes secured |
| Passkeys.BindingIsPermanent | convex/passkeys.ts:106-139 | a saved credential resolves to its player, and every other player's attempt to bind it is refused |
| Players.ChooseDisplayName | convex/players.ts:35 | a supplied name that is not blank is used trimmed; otherwise the generated one; a name other than the generated one is non-blank with nothing left to trim |
| Players.ChosenNameAccepted | convex/players.ts:35-97 | a chosen supplied name within 30 UTF-16 code units is accepted and stored unchanged by `updateDisplayName` |
| Players.UpdateDisplayName | convex/players.ts:86-97 | the name rule fails exactly for a trimmed name that is empty or longer than 30 UTF-16 code units; otherwise the trimmed name is stored on that player only and returned |
| Players.AstralNameLength | convex/players.ts:93 | sixteen characters beyond the Basic Multilingual Plane are 32 code units and are refused; fifteen are accepted |
| Players.UpdateDisplayNameIdempotent | convex/players.ts:86-97 | setting the returned name again changes nothing |
| Players.StoredNameIsFinal | convex/players.ts:92-94 | renaming to the stored valid name leaves the table as it was |
| Players.PlayersLimit | convex/players.ts:70 | the limit defaults to 20, a value within 1..100 is kept, smaller ones become 1 and larger ones 100 |
| Players.FoundIds | convex/players.ts:80-82 | the ids that were asked for and name a stored player, each once |
| Players.GetPlayersByIds | convex/players.ts:75-84 | one document per distinct stored id, and every requested stored player is there |
| Players.ValidateGuestSession | convex/players.ts:99-121 | rejected exactly when the player is missing, has no secret, or the secret differs; acceptance only moves the last-seen time and returns the updated player |
| Players.SessionStaysValid | convex/players.ts:99-121 | an accepted secret is accepted again later |
| Format.FormatDelta | lib/format.ts:28-31 | "-" exactly when there is no delta; a sign otherwise, "+" for zero and up |
| Format.ParseFormatDelta | lib/format.ts:28-31 | the text reads back as the delta it was made from |
| Format.FormatDeltaInjective | lib/format.ts:28-31 | two deltas with the same text are the same |
| Format.RelativeTime | lib/format.ts:1-11 | minute, hour and day counts stay under 60, 24 and 30 |
| Format.NestedFloors | lib/format.ts:3-8 | flooring minutes to hours and hours to days floors the elapsed milliseconds directly |
| Format.RelativeTimeByElapsed | lib/format.ts:1-11 | the bucket is chosen by elapsed time alone (under a minute, an hour, a day, thirty days, or later), with its count the elapsed time floored |
| Format.ElapsedLabel | lib/format.ts:4-9 | "just now" for under a minute, the count followed by the unit and " ago" for minutes, hours and days, the date label otherwise |
| Format.ElapsedLabelInjective | lib/format.ts:4-9 | different buckets show different labels |
| Text.Trim | convex/players.ts:92 | the result is a slice of the input, everything cut off either end is ECMAScript white space or a line terminator, and the result neither starts nor ends with one |
| Text.TrimIdempotent | convex/players.ts:92 | trimming a trimmed string changes nothing |
| Text.ToUpperIdempotent | convex/matches.ts:29 | upper-casing an upper-cased string changes nothing |
| Text.Utf16Length | convex/players.ts:93 | the length lies between the number of characters and twice that; it equals the number of characters exactly when none lies beyond the Basic Multilingual Plane, and twice it exactly when all do |
| Text.ParseNatToString | lib/format.ts:30 | printed digits read back as the number |
| Text.NatToStringInjective | lib/format.ts:30 | different numbers print differently |
| Text.LexLessTrichotomy | convex/matches.ts:118 | of two different ids exactly one is smaller |
| Schema.FindMatch | convex/history.ts:102 | the first document with the id; none exactly when there is no such document |
| Schema.FindRoom | convex/matches.ts:339-342 | the first match with the room code; none exactly when there is none |

## Left out

- `createRoom` (convex/matches.ts:272-326): it draws a random room code (convex/matches.ts:20-22) and retries on collision. Room creation is randomness plus database inserts. Every modelled mutation reads rooms as `createRoom` stores them.
- `getMatchByRoomCode`, `getPlayerById`, `getPlayerRating`, `listCredentialsForPlayer`, `getCredentialByCredentialId` and `recordAuthentication`: plain document reads, or a counter write after the external WebAuthn check.
- `getLeaderboard` and `listPlayers`: only the limit clamp is modelled. The index order and the `take` are database mechanics.
- `createGuestPlayer`: only the display-name choice is modelled. The guest id, secret and generated name are random.
- The expected-score formula and `Math.round` of the Elo delta (convex/matches.ts:49-51, 203-210): floating point. They become the `EloRule` parameter, so every property holds for any rounding rule.
- Database mechanics, concurrency and transactions: each mutation is one sequential step on an immutable `Store`. Matches, moves, rating events, challenges and credentials are sequences in insertion order, and an index lookup on them returns the first matching document. Ratings and players are maps from the player id, head-to-head rows a map from the ordered pair of ids.
- `Date.now()` is a parameter. `consumeChallenge` reads the clock twice (convex/passkeys.ts:47, 56), and the model uses one `now` for both reads. The finalizer reads its own `Date.now()` (convex/matches.ts:199); the model stamps its ratings and events with the calling mutation's `now`.
- `toLocaleDateString` (lib/format.ts:10-26): the calendar label is the `dateLabel` parameter of `Format.ElapsedLabel`.
- NaN and infinite configuration values: configuration numbers are finite reals.
- JavaScript strings compare by UTF-16 code units. The model compares code points, which agrees on the identifiers the server stores.
- Document ids are non-empty strings. So `!xId` in the finalizer and `players.X &&` in `resolvePlayerSymbol` become "the seat is empty".
- `getRoundNumber`'s default of 1 and history's `?? 3` and `updatedAt ?? createdAt` fallbacks: the model's documents always carry these fields.
- The `Player not found.` error of `updateDisplayName` stands for the exception that patching a missing document raises.
- `formatDelta` on a non-integer or NaN delta: deltas are integers in the model.
- Lists.ClampLimit: limits are integers, and so are those of `Ratings.LeaderboardLimit`, `History.HistoryLimit` and `Players.PlayersLimit`. The source clamps any JavaScript number: a limit of 2.5 stays 2.5, and history's `length >= limit` break then takes 3 entries; a NaN limit survives the clamp and never stops the loop, so the whole list is returned.
- Engine.ApplyMove: cell indices are finite reals. A NaN `cellIndex` passes the bounds check in the source and is refused as `CELL_OCCUPIED`.
- Finalizer.FinalizeCompetitiveResult: per-player rating facts are stated only when the two seats hold different players. With one player in both seats, the second patch overwrites the first, and only the second rating survives.
- Passkeys.ConsumeOnlyOnce: requires a consumption time other than 0. A `usedAt` of 0 reads as unused in the source.
- WinLine.Idx: `r * size + c` is computed as repeated addition (`Mul`). `MulIsProduct` proves it equals the product.

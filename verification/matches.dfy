/** Room management and the match mutations: each mutation reads the
    database, checks its guards in order, and either throws (leaving the
    database as it was), refuses with a reason, or writes its patch and,
    when a round ends, runs the finalizer. `now` stands for `Date.now()` and
    `elo` for the floating-point Elo rule. */
module Matches {
  import opened Wrappers
  import opened GameTypes
  import opened Text
  import opened Engine
  import opened Schema
  import opened Finalizer

  // ---------------------------------------------------------------------
  // Helpers

  predicate IsRoomCodeChar(c: char) {
    ('A' <= c <= 'Z') || ('0' <= c <= '9') || c == '-'
  }

  /** The room-code pattern: 3 to 20 characters from A-Z, 0-9 and `-`. */
  predicate IsRoomCode(s: string) {
    3 <= |s| <= 20 && forall i :: 0 <= i < |s| ==> IsRoomCodeChar(s[i])
  }

  const RoomCodeMessage := "Room code must be 3-20 chars using A-Z, 0-9, or -."

  /** `normalizeRoomCode`: an absent or empty code is no code; otherwise the
      trimmed, upper-cased code must match the pattern or it is an error. */
  function NormalizeRoomCode(roomCode: Option<string>): (r: Result<Option<string>, string>)
    ensures r == Success(None) <==> roomCode.None? || roomCode.value == ""
    ensures r.Failure? <==>
      roomCode.Some? && roomCode.value != "" && !IsRoomCode(ToUpper(Trim(roomCode.value)))
    ensures r.Failure? ==> r.error == RoomCodeMessage
    ensures r.Success? && r.value.Some? ==>
      IsRoomCode(r.value.value) && r.value.value == ToUpper(Trim(roomCode.value))
  {
    if roomCode.None? || roomCode.value == "" then Success(None)
    else
      var normalized := ToUpper(Trim(roomCode.value));
      if !IsRoomCode(normalized) then Failure(RoomCodeMessage)
      else Success(Some(normalized))
  }

  /** Trimming leaves a room code as it is. */
  lemma RoomCodeTrimmed(code: string)
    requires IsRoomCode(code)
    ensures Trim(code) == code
  {
    assert !IsTrimmable(code[0]) && !IsTrimmable(code[|code| - 1]);
    assert TrimStart(code) == code;
    assert TrimEnd(code) == code;
  }

  /** Upper-casing leaves a room code as it is. */
  lemma RoomCodeUpper(code: string)
    requires IsRoomCode(code)
    ensures ToUpper(code) == code
  {
    forall i | 0 <= i < |code|
      ensures UpperChar(code[i]) == [code[i]]
    {
      assert IsRoomCodeChar(code[i]);
    }
    ToUpperFixed(code);
  }

  /** A normalized room code normalizes to itself. */
  lemma NormalizeRoomCodeIdempotent(roomCode: Option<string>)
    requires NormalizeRoomCode(roomCode).Success? && NormalizeRoomCode(roomCode).value.Some?
    ensures var code := NormalizeRoomCode(roomCode).value.value;
      NormalizeRoomCode(Some(code)) == Success(Some(code))
  {
    var code := NormalizeRoomCode(roomCode).value.value;
    RoomCodeTrimmed(code);
    RoomCodeUpper(code);
  }

  /** `resolvePlayerSymbol`: the seat a player holds, X checked first. */
  function ResolvePlayerSymbol(players: Seats, playerId: string): (r: Option<Symbol>)
    ensures r.Some? ==> SeatOf(players, r.value) == Some(playerId)
    ensures r.None? <==> players.x != Some(playerId) && players.o != Some(playerId)
    ensures players.x == Some(playerId) ==> r == Some(X)
  {
    if players.x == Some(playerId) then Some(X)
    else if players.o == Some(playerId) then Some(O)
    else None
  }

  /** `toEngineState`: the engine's view of a stored match. */
  function ToEngineState(m: MatchRecord): MatchState {
    MatchState(m.id, m.config, m.board, m.nextPlayer, m.status, m.winner, m.winningLine,
               m.turnNumber, m.turnDeadlineAt, m.players)
  }

  /** Writing an engine state's fields into the match document and reading
      the document back gives that state, as long as the engine kept the
      match's id, rules and seats. */
  lemma EngineViewOfPatch(m: MatchRecord, s: MatchState)
    requires s.id == m.id && s.config == m.config && s.players == m.players
    ensures ToEngineState(m.(board := s.board, nextPlayer := s.nextPlayer, status := s.status, winner := s.winner,
                             winningLine := s.winningLine, turnNumber := s.turnNumber,
                             turnDeadlineAt := s.turnDeadlineAt)) == s
  {
  }

  /** The store with the match at position `i` replaced. */
  function PatchMatch(st: Store, i: nat, m: MatchRecord): Store
    requires i < |st.matches|
  {
    st.(matches := st.matches[i := m])
  }

  // ---------------------------------------------------------------------
  // Replies

  datatype Refusal =
    | PlayerNotJoined
    | MatchNotActive
    | TurnStillActive(remainingMs: int)
    | MatchNotTerminal
    | MissingOpponent
    | RematchAlreadyRequested(requestedBy: Symbol)
    | RematchNotRequested
    | CannotAcceptOwnRequest
    | MoveRefused(reason: MoveFailure)

  datatype Reply =
    | Thrown(message: string)
    | Refused(refusal: Refusal)
    | Joined(matchId: string, joinedAs: Option<Symbol>)
    | MoveAccepted(event: MoveEvent, status: Status)
    | TimedOut(status: Status, winner: Option<Symbol>)
    | RematchRequested(requestedBy: Symbol)
    | RematchAccepted(roundNumber: int)
    | ResignAccepted(victor: Symbol)

  /** A mutation's reply and the database after it. */
  datatype Outcome = Outcome(reply: Reply, store: Store)

  const MatchNotFound := "Match not found."

  /** Only the match at position `i` may differ between the two stores. */
  predicate OthersUnchanged(st: Store, st': Store, i: nat) {
    && |st'.matches| == |st.matches| && i < |st.matches|
    && forall j :: 0 <= j < |st.matches| && j != i ==> st'.matches[j] == st.matches[j]
  }

  /** A stored match keeps its identity, room, rules and creation time. */
  predicate SameMatch(m: MatchRecord, m': MatchRecord) {
    m'.id == m.id && m'.roomCode == m.roomCode && m'.config == m.config && m'.createdAt == m.createdAt
  }

  /** The round in play is untouched: board, turn, result and archive stamp. */
  predicate SameRound(m: MatchRecord, m': MatchRecord) {
    && m'.board == m.board && m'.nextPlayer == m.nextPlayer
    && m'.turnNumber == m.turnNumber && m'.roundNumber == m.roundNumber
    && m'.winner == m.winner && m'.winningLine == m.winningLine
    && m'.lastMoveIndex == m.lastMoveIndex && m'.deletedAt == m.deletedAt
  }

  // ---------------------------------------------------------------------
  // Mutations

  /** `joinRoom`: the code is normalized and the room looked up; a missing
      room is an error, and a found room is joined as `JoinFoundRoom` says. */
  function JoinRoom(st: Store, roomCode: string, playerId: string, now: int): (r: Outcome)
    ensures r.reply.Thrown? || r.reply.Joined?
    ensures r.reply.Thrown? ==> r.store == st
    ensures NormalizeRoomCode(Some(roomCode)).Failure? ==> r.reply == Thrown(RoomCodeMessage)
    ensures roomCode == "" ==> r.reply == Thrown("Invalid room code.")
    ensures r.reply.Joined? ==>
      && NormalizeRoomCode(Some(roomCode)).Success? && NormalizeRoomCode(Some(roomCode)).value.Some?
      && FindRoom(st.matches, NormalizeRoomCode(Some(roomCode)).value.value).Some?
    // With a well-formed code, the room decides.
    ensures NormalizeRoomCode(Some(roomCode)).Success? && NormalizeRoomCode(Some(roomCode)).value.Some? ==>
      var k := FindRoom(st.matches, NormalizeRoomCode(Some(roomCode)).value.value);
      && (r == Outcome(Thrown("Room not found."), st) <==> k.None?)
      && (k.Some? ==> r == JoinFoundRoom(st, k.value, playerId, now))
  {
    match NormalizeRoomCode(Some(roomCode))
    case Failure(message) => Outcome(Thrown(message), st)
    case Success(None) => Outcome(Thrown("Invalid room code."), st)
    case Success(Some(code)) =>
      match FindRoom(st.matches, code)
      case None => Outcome(Thrown("Room not found."), st)
      case Some(i) => JoinFoundRoom(st, i, playerId, now)
  }

  /** The match at position `i` with `playerId` taking the open O seat:
      the room becomes active and X's first deadline starts now. */
  function SeatAsO(st: Store, i: nat, playerId: string, now: int): (r: Store)
    requires i < |st.matches|
    ensures OthersUnchanged(st, r, i) && SameMatch(st.matches[i], r.matches[i])
    ensures r.matches[i].players == st.matches[i].players.(o := Some(playerId))
    ensures r.matches[i].status == Active
    ensures r.matches[i].turnDeadlineAt == now + st.matches[i].config.turnTimeSec * 1000
    ensures SameRound(st.matches[i], r.matches[i])
    ensures r.matches[i].rematchRequestedBy.None? && r.matches[i].updatedAt == now
    ensures r.ratingEvents == st.ratingEvents && r.moves == st.moves
    ensures r.ratings == st.ratings && r.h2hStats == st.h2hStats
  {
    var m := st.matches[i];
    PatchMatch(st, i, m.(players := m.players.(o := Some(playerId)), status := Active,
                         turnDeadlineAt := now + m.config.turnTimeSec * 1000,
                         rematchRequestedBy := None, updatedAt := now))
  }

  /** `joinRoom` once the room at position `i` is found: a seated player
      gets their seat back and nothing changes, a newcomer takes an open O
      seat, and a room whose O seat is held by someone else is full. */
  function JoinFoundRoom(st: Store, i: nat, playerId: string, now: int): (r: Outcome)
    requires i < |st.matches|
    ensures r.reply.Thrown? || r.reply.Joined?
    ensures var m := st.matches[i];
      var seat := ResolvePlayerSymbol(m.players, playerId);
      && (seat.Some? ==> r == Outcome(Joined(m.id, seat), st))
      && (r == Outcome(Thrown("Room is already full."), st) <==> seat.None? && m.players.o.Some?)
      && (seat.None? && m.players.o.None? ==> r == Outcome(Joined(m.id, Some(O)), SeatAsO(st, i, playerId, now)))
    // A successful join names the room's match and a seat the player now holds.
    ensures r.reply.Joined? ==>
      && r.reply.matchId == st.matches[i].id
      && r.reply.joinedAs.Some?
      && OthersUnchanged(st, r.store, i)
      && SeatOf(r.store.matches[i].players, r.reply.joinedAs.value) == Some(playerId)
      && SameMatch(st.matches[i], r.store.matches[i])
      && r.store.ratingEvents == st.ratingEvents && r.store.moves == st.moves
  {
    var m := st.matches[i];
    if m.players.x == Some(playerId) || m.players.o == Some(playerId) then
      Outcome(Joined(m.id, ResolvePlayerSymbol(m.players, playerId)), st)
    else if m.players.o.Some? then
      Outcome(Thrown("Room is already full."), st)
    else
      Outcome(Joined(m.id, Some(O)), SeatAsO(st, i, playerId, now))
  }

  /** `makeMove`: the caller must hold a seat; the engine decides the rest.
      A late move times the match out and finalizes it; an accepted move is
      logged and stored, and a finished round is finalized. */
  function MakeMove(st: Store, matchId: string, cellIndex: real, playerId: string, now: int, elo: EloRule)
    : (r: Outcome)
    ensures FindMatch(st.matches, matchId).None? ==> r == Outcome(Thrown(MatchNotFound), st)
    ensures FindMatch(st.matches, matchId).Some? ==>
      var i := FindMatch(st.matches, matchId).value;
      var m := st.matches[i];
      var sym := ResolvePlayerSymbol(m.players, playerId);
      && (sym.None? ==> r == Outcome(Refused(PlayerNotJoined), st))
      && (sym.Some? ==>
            var result := ApplyMove(ToEngineState(m), Move(cellIndex, SymbolName(sym.value), now));
            && OthersUnchanged(st, r.store, i)
            && SameMatch(m, r.store.matches[i])
            && r.store.matches[i].roundNumber == m.roundNumber
            && r.store.matches[i].players == m.players
            // Refusals other than a late move change nothing.
            && (result.MoveFailed? && result.reason != TurnExpired ==>
                  r == Outcome(Refused(MoveRefused(result.reason)), st))
            // A late move stores the timed-out state.
            && (result.MoveFailed? && result.reason == TurnExpired ==>
                  && r.reply == Refused(MoveRefused(TurnExpired))
                  && ToEngineState(r.store.matches[i]) == result.state
                  && r.store.matches[i].rematchRequestedBy == None
                  && r.store.matches[i].lastMoveIndex == m.lastMoveIndex
                  && r.store.matches[i].deletedAt == m.deletedAt && r.store.matches[i].updatedAt == now
                  && r.store.moves == st.moves
                  && r.store == FinalizeCompetitiveResult(PatchMatch(st, i, r.store.matches[i]), m,
                                                          result.state.status, result.state.winner, now, elo))
            // An accepted move is logged once and stored as the engine's state.
            && (result.MoveOk? ==>
                  && r.reply == MoveAccepted(result.event, result.state.status)
                  && ToEngineState(r.store.matches[i]) == result.state
                  && r.store.matches[i].lastMoveIndex == Some(cellIndex)
                  && r.store.matches[i].deletedAt == m.deletedAt && r.store.matches[i].updatedAt == now
                  && r.store.moves == st.moves + [MoveRecord(m.id, m.roundNumber, m.turnNumber, playerId, sym.value,
                                                              cellIndex, now, m.turnDeadlineAt)]
                  // A winning or drawing move finalizes the round's ratings ...
                  && (IsTerminal(result.state.status) ==>
                        && r.store.matches[i].rematchRequestedBy == None
                        && r.store == FinalizeCompetitiveResult(PatchMatch(st.(moves := r.store.moves), i,
                                                                           r.store.matches[i]), m,
                                                                result.state.status, result.state.winner, now, elo))
                  // ... any other move leaves the rating tables alone.
                  && (!IsTerminal(result.state.status) ==>
                        && r.store.matches[i].rematchRequestedBy == m.rematchRequestedBy
                        && r.store.ratings == st.ratings
                        && r.store.ratingEvents == st.ratingEvents
                        && r.store.h2hStats == st.h2hStats)))
  {
    match FindMatch(st.matches, matchId)
    case None => Outcome(Thrown(MatchNotFound), st)
    case Some(i) =>
      var m := st.matches[i];
      match ResolvePlayerSymbol(m.players, playerId)
      case None => Outcome(Refused(PlayerNotJoined), st)
      case Some(sym) =>
        var result := ApplyMove(ToEngineState(m), Move(cellIndex, SymbolName(sym), now));
        match result
        case MoveFailed(reason, s) =>
          if reason == TurnExpired then
            var m' := m.(status := s.status, winner := s.winner, turnDeadlineAt := s.turnDeadlineAt,
                         rematchRequestedBy := None, updatedAt := now);
            var patched := PatchMatch(st, i, m');
            Outcome(Refused(MoveRefused(reason)), FinalizeCompetitiveResult(patched, m, s.status, s.winner, now, elo))
          else
            Outcome(Refused(MoveRefused(reason)), st)
        case MoveOk(event, s) =>
          var logged := st.(moves := st.moves + [MoveRecord(m.id, m.roundNumber, m.turnNumber, playerId, sym,
                                                            cellIndex, now, m.turnDeadlineAt)]);
          var m' := m.(board := s.board, nextPlayer := s.nextPlayer, status := s.status, winner := s.winner,
                       winningLine := s.winningLine, lastMoveIndex := Some(cellIndex), turnNumber := s.turnNumber,
                       turnDeadlineAt := s.turnDeadlineAt,
                       rematchRequestedBy := if IsTerminal(s.status) then None else m.rematchRequestedBy,
                       updatedAt := now);
          var patched := PatchMatch(logged, i, m');
          var finalized := if IsTerminal(s.status) then FinalizeCompetitiveResult(patched, m, s.status, s.winner, now, elo)
                           else patched;
          Outcome(MoveAccepted(event, s.status), finalized)
  }

  /** `tickTimeout`: only an active match whose deadline has passed times
      out; otherwise the reply says why not, with the time left. */
  function TickTimeout(st: Store, matchId: string, now: int, elo: EloRule): (r: Outcome)
    ensures FindMatch(st.matches, matchId).None? ==> r == Outcome(Thrown(MatchNotFound), st)
    ensures FindMatch(st.matches, matchId).Some? ==>
      var i := FindMatch(st.matches, matchId).value;
      var m := st.matches[i];
      && (m.status != Active ==> r == Outcome(Refused(Refusal.MatchNotActive), st))
      && (m.status == Active && now <= m.turnDeadlineAt ==>
            r == Outcome(Refused(TurnStillActive(m.turnDeadlineAt - now)), st))
      && (IsTurnExpired(ToEngineState(m), now) ==>
            && r.reply == TimedOut(Timeout, Some(Opponent(m.nextPlayer)))
            && OthersUnchanged(st, r.store, i)
            && SameMatch(m, r.store.matches[i])
            && ToEngineState(r.store.matches[i]) == ResolveTimeout(ToEngineState(m), now)
            && r.store.matches[i].rematchRequestedBy == None
            && r.store.matches[i].lastMoveIndex == m.lastMoveIndex
            && r.store.matches[i].deletedAt == m.deletedAt && r.store.matches[i].updatedAt == now
            && r.store.moves == st.moves
            && r.store == FinalizeCompetitiveResult(PatchMatch(st, i, r.store.matches[i]), m, Timeout,
                                                    Some(Opponent(m.nextPlayer)), now, elo))
  {
    match FindMatch(st.matches, matchId)
    case None => Outcome(Thrown(MatchNotFound), st)
    case Some(i) =>
      var m := st.matches[i];
      if m.status != Active then Outcome(Refused(Refusal.MatchNotActive), st)
      else if now <= m.turnDeadlineAt then
        Outcome(Refused(TurnStillActive(if m.turnDeadlineAt - now > 0 then m.turnDeadlineAt - now else 0)), st)
      else
        var timedOut := ResolveTimeout(ToEngineState(m), now);
        var m' := m.(status := timedOut.status, winner := timedOut.winner, turnDeadlineAt := timedOut.turnDeadlineAt,
                     rematchRequestedBy := None, updatedAt := now);
        var patched := PatchMatch(st, i, m');
        Outcome(TimedOut(timedOut.status, timedOut.winner),
                FinalizeCompetitiveResult(patched, m, timedOut.status, timedOut.winner, now, elo))
  }

  /** `requestRematch`: a seated player of a finished two-player match may
      ask once; the request is recorded as their symbol. */
  function RequestRematch(st: Store, matchId: string, playerId: string, now: int): (r: Outcome)
    ensures FindMatch(st.matches, matchId).None? ==> r == Outcome(Thrown(MatchNotFound), st)
    ensures r.reply.Refused? || r.reply.Thrown? ==> r.store == st
    ensures FindMatch(st.matches, matchId).Some? ==>
      var i := FindMatch(st.matches, matchId).value;
      var m := st.matches[i];
      var seat := ResolvePlayerSymbol(m.players, playerId);
      && (r.reply == Refused(MatchNotTerminal) <==> !IsTerminal(m.status))
      && (r.reply == Refused(MissingOpponent) <==> IsTerminal(m.status) && (m.players.x.None? || m.players.o.None?))
      && (r.reply == Refused(PlayerNotJoined) <==>
            IsTerminal(m.status) && m.players.x.Some? && m.players.o.Some? && seat.None?)
      && (r.reply.Refused? && r.reply.refusal.RematchAlreadyRequested? <==>
            IsTerminal(m.status) && m.players.x.Some? && m.players.o.Some? && seat.Some? && m.rematchRequestedBy.Some?)
      && (r.reply.RematchRequested? <==>
            IsTerminal(m.status) && m.players.x.Some? && m.players.o.Some?
            && seat.Some? && m.rematchRequestedBy.None?)
      && (r.reply.RematchRequested? ==>
            && SeatOf(m.players, r.reply.requestedBy) == Some(playerId)
            && r.store == PatchMatch(st, i, m.(rematchRequestedBy := Some(r.reply.requestedBy), updatedAt := now)))
      && (r.reply.Refused? && r.reply.refusal.RematchAlreadyRequested? ==>
            m.rematchRequestedBy == Some(r.reply.refusal.requestedBy))
  {
    match FindMatch(st.matches, matchId)
    case None => Outcome(Thrown(MatchNotFound), st)
    case Some(i) =>
      var m := st.matches[i];
      if !IsTerminal(m.status) then Outcome(Refused(MatchNotTerminal), st)
      else if m.players.x.None? || m.players.o.None? then Outcome(Refused(MissingOpponent), st)
      else match ResolvePlayerSymbol(m.players, playerId)
        case None => Outcome(Refused(PlayerNotJoined), st)
        case Some(sym) =>
          if m.rematchRequestedBy.Some? then Outcome(Refused(RematchAlreadyRequested(m.rematchRequestedBy.value)), st)
          else Outcome(RematchRequested(sym), PatchMatch(st, i, m.(rematchRequestedBy := Some(sym), updatedAt := now)))
  }

  /** `acceptRematch`: the other seated player accepts a pending request,
      which starts the next round on an empty board with X to move. */
  function AcceptRematch(st: Store, matchId: string, playerId: string, now: int): (r: Outcome)
    ensures FindMatch(st.matches, matchId).None? ==> r == Outcome(Thrown(MatchNotFound), st)
    ensures !r.reply.RematchAccepted? ==> r.store == st
    ensures FindMatch(st.matches, matchId).Some? ==>
      var i := FindMatch(st.matches, matchId).value;
      var m := st.matches[i];
      var seat := ResolvePlayerSymbol(m.players, playerId);
      var ready := IsTerminal(m.status) && m.players.x.Some? && m.players.o.Some?;
      && (r.reply == Refused(MatchNotTerminal) <==> !IsTerminal(m.status))
      && (r.reply == Refused(MissingOpponent) <==> IsTerminal(m.status) && (m.players.x.None? || m.players.o.None?))
      && (r.reply == Refused(RematchNotRequested) <==> ready && m.rematchRequestedBy.None?)
      && (r.reply == Refused(PlayerNotJoined) <==> ready && m.rematchRequestedBy.Some? && seat.None?)
      && (r.reply == Refused(CannotAcceptOwnRequest) <==> ready && seat.Some? && m.rematchRequestedBy == seat)
      && (r.reply.RematchAccepted? <==>
            ready && m.rematchRequestedBy.Some? && seat.Some? && m.rematchRequestedBy != seat)
      && (r.reply.RematchAccepted? ==>
            && r.reply.roundNumber == m.roundNumber + 1
            && OthersUnchanged(st, r.store, i)
            && var m' := r.store.matches[i];
            && SameMatch(m, m')
            && |m'.board| == m.config.size * m.config.size
            && (forall k :: 0 <= k < |m'.board| ==> m'.board[k] == Empty)
            && m'.nextPlayer == X && m'.status == Active && m'.turnNumber == 1
            && m'.roundNumber == m.roundNumber + 1
            && m'.winner.None? && m'.winningLine.None? && m'.lastMoveIndex.None?
            && m'.rematchRequestedBy.None?
            && m'.turnDeadlineAt == now + m.config.turnTimeSec * 1000
            && m'.players == m.players
            && m'.deletedAt == m.deletedAt && m'.updatedAt == now
            && r.store.ratingEvents == st.ratingEvents && r.store.moves == st.moves
            && r.store.ratings == st.ratings && r.store.h2hStats == st.h2hStats)
  {
    match FindMatch(st.matches, matchId)
    case None => Outcome(Thrown(MatchNotFound), st)
    case Some(i) =>
      var m := st.matches[i];
      if !IsTerminal(m.status) then Outcome(Refused(MatchNotTerminal), st)
      else if m.players.x.None? || m.players.o.None? then Outcome(Refused(MissingOpponent), st)
      else if m.rematchRequestedBy.None? then Outcome(Refused(RematchNotRequested), st)
      else match ResolvePlayerSymbol(m.players, playerId)
        case None => Outcome(Refused(PlayerNotJoined), st)
        case Some(sym) =>
          if m.rematchRequestedBy == Some(sym) then Outcome(Refused(CannotAcceptOwnRequest), st)
          else
            var nextRound := m.roundNumber + 1;
            var m' := m.(board := CreateEmptyBoard(m.config.size), nextPlayer := X, status := Active,
                         winner := None, winningLine := None, lastMoveIndex := None, turnNumber := 1,
                         roundNumber := nextRound, turnDeadlineAt := now + m.config.turnTimeSec * 1000,
                         rematchRequestedBy := None, updatedAt := now);
            Outcome(RematchAccepted(nextRound), PatchMatch(st, i, m'))
  }

  /** `resign`: a seated player of an active match gives it to the
      opponent, and the round is finalized. */
  function Resign(st: Store, matchId: string, playerId: string, now: int, elo: EloRule): (r: Outcome)
    ensures FindMatch(st.matches, matchId).None? ==> r == Outcome(Thrown(MatchNotFound), st)
    ensures !r.reply.ResignAccepted? ==> r.store == st
    ensures FindMatch(st.matches, matchId).Some? ==>
      var i := FindMatch(st.matches, matchId).value;
      var m := st.matches[i];
      && (r.reply == Refused(Refusal.MatchNotActive) <==> m.status != Active)
      && (r.reply == Refused(PlayerNotJoined) <==> m.status == Active && ResolvePlayerSymbol(m.players, playerId).None?)
      && (r.reply.ResignAccepted? <==> m.status == Active && ResolvePlayerSymbol(m.players, playerId).Some?)
      && (r.reply.ResignAccepted? ==>
            var loser := ResolvePlayerSymbol(m.players, playerId).value;
            var m' := m.(status := Resigned, winner := Some(Opponent(loser)), rematchRequestedBy := None,
                         updatedAt := now);
            && r.reply.victor == Opponent(loser)
            && SeatOf(m.players, loser) == Some(playerId)
            && r.store == FinalizeCompetitiveResult(PatchMatch(st, i, m'), m, Resigned, Some(Opponent(loser)), now, elo))
  {
    match FindMatch(st.matches, matchId)
    case None => Outcome(Thrown(MatchNotFound), st)
    case Some(i) =>
      var m := st.matches[i];
      if m.status != Active then Outcome(Refused(Refusal.MatchNotActive), st)
      else match ResolvePlayerSymbol(m.players, playerId)
        case None => Outcome(Refused(PlayerNotJoined), st)
        case Some(sym) =>
          var winner := Opponent(sym);
          var m' := m.(status := Resigned, winner := Some(winner), rematchRequestedBy := None, updatedAt := now);
          Outcome(ResignAccepted(winner), FinalizeCompetitiveResult(PatchMatch(st, i, m'), m, Resigned, Some(winner), now, elo))
  }

  // ---------------------------------------------------------------------
  // Invariants of the stored matches

  /** What every stored match keeps: the engine's consistency, a room
      without an O seat is still waiting, and nobody holds both seats. */
  ghost predicate MatchInvariant(m: MatchRecord) {
    && IsConsistent(ToEngineState(m))
    && (m.players.o.None? ==> m.status == Waiting)
    && (m.players.x.Some? && m.players.o.Some? ==> m.players.x != m.players.o)
  }

  /** Every stored match keeps its invariant and every round is scored at
      most once. */
  ghost predicate StoreInvariant(st: Store) {
    && ScoredAtMostOnce(st.ratingEvents)
    && forall i :: 0 <= i < |st.matches| ==> MatchInvariant(st.matches[i])
  }

  /** Replacing one match by one that keeps the invariant keeps the store's
      matches invariant. */
  lemma PatchKeepsMatches(st: Store, i: nat, m': MatchRecord)
    requires i < |st.matches|
    requires forall j :: 0 <= j < |st.matches| ==> MatchInvariant(st.matches[j])
    requires MatchInvariant(m')
    ensures forall j :: 0 <= j < |PatchMatch(st, i, m').matches| ==> MatchInvariant(PatchMatch(st, i, m').matches[j])
  {
    var p := PatchMatch(st, i, m');
    forall j | 0 <= j < |p.matches|
      ensures MatchInvariant(p.matches[j])
    {
      if j != i {
        assert p.matches[j] == st.matches[j];
      }
    }
  }

  lemma JoinRoomKeepsInvariant(st: Store, roomCode: string, playerId: string, now: int)
    requires StoreInvariant(st)
    ensures StoreInvariant(JoinRoom(st, roomCode, playerId, now).store)
  {
    var r := JoinRoom(st, roomCode, playerId, now);
    if r.store != st {
      var code := NormalizeRoomCode(Some(roomCode)).value.value;
      var i := FindRoom(st.matches, code).value;
      var m := st.matches[i];
      var m' := m.(players := m.players.(o := Some(playerId)), status := Active,
                   turnDeadlineAt := now + m.config.turnTimeSec * 1000,
                   rematchRequestedBy := None, updatedAt := now);
      assert r.store == PatchMatch(st, i, m');
      assert m.status == Waiting;
      PatchKeepsMatches(st, i, m');
    }
  }

  lemma MakeMoveKeepsInvariant(st: Store, matchId: string, cellIndex: real, playerId: string, now: int, elo: EloRule)
    requires StoreInvariant(st)
    ensures StoreInvariant(MakeMove(st, matchId, cellIndex, playerId, now, elo).store)
  {
    var r := MakeMove(st, matchId, cellIndex, playerId, now, elo);
    if r.store != st {
      var i := FindMatch(st.matches, matchId).value;
      var m := st.matches[i];
      var sym := ResolvePlayerSymbol(m.players, playerId).value;
      var move := Move(cellIndex, SymbolName(sym), now);
      var result := ApplyMove(ToEngineState(m), move);
      ApplyMovePreservesConsistency(ToEngineState(m), move);
      var m' := r.store.matches[i];
      assert ToEngineState(m') == result.state;
      assert m.status == Active;
      assert MatchInvariant(m');
      var logged := if result.MoveOk? then st.(moves := r.store.moves) else st;
      PatchKeepsMatches(logged, i, m');
      var patched := PatchMatch(logged, i, m');
      FinalizeScoresOnce(patched, m, result.state.status, result.state.winner, now, elo);
    }
  }

  lemma TickTimeoutKeepsInvariant(st: Store, matchId: string, now: int, elo: EloRule)
    requires StoreInvariant(st)
    ensures StoreInvariant(TickTimeout(st, matchId, now, elo).store)
  {
    var r := TickTimeout(st, matchId, now, elo);
    if r.store != st {
      var i := FindMatch(st.matches, matchId).value;
      var m := st.matches[i];
      var m' := r.store.matches[i];
      assert ToEngineState(m') == ResolveTimeout(ToEngineState(m), now);
      assert MatchInvariant(m');
      PatchKeepsMatches(st, i, m');
      FinalizeScoresOnce(PatchMatch(st, i, m'), m, Timeout, Some(Opponent(m.nextPlayer)), now, elo);
    }
  }

  lemma RequestRematchKeepsInvariant(st: Store, matchId: string, playerId: string, now: int)
    requires StoreInvariant(st)
    ensures StoreInvariant(RequestRematch(st, matchId, playerId, now).store)
  {
    var r := RequestRematch(st, matchId, playerId, now);
    if r.store != st {
      var i := FindMatch(st.matches, matchId).value;
      var m := st.matches[i];
      var m' := m.(rematchRequestedBy := Some(r.reply.requestedBy), updatedAt := now);
      assert ToEngineState(m') == ToEngineState(m);
      PatchKeepsMatches(st, i, m');
    }
  }

  lemma AcceptRematchKeepsInvariant(st: Store, matchId: string, playerId: string, now: int)
    requires StoreInvariant(st)
    ensures StoreInvariant(AcceptRematch(st, matchId, playerId, now).store)
  {
    var r := AcceptRematch(st, matchId, playerId, now);
    if r.store != st {
      var i := FindMatch(st.matches, matchId).value;
      var m := st.matches[i];
      var m' := r.store.matches[i];
      NoMarksCountZero(m'.board);
      assert MatchInvariant(m');
      PatchKeepsMatches(st, i, m');
      assert r.store == PatchMatch(st, i, m');
    }
  }

  lemma ResignKeepsInvariant(st: Store, matchId: string, playerId: string, now: int, elo: EloRule)
    requires StoreInvariant(st)
    ensures StoreInvariant(Resign(st, matchId, playerId, now, elo).store)
  {
    var r := Resign(st, matchId, playerId, now, elo);
    if r.store != st {
      var i := FindMatch(st.matches, matchId).value;
      var m := st.matches[i];
      var loser := ResolvePlayerSymbol(m.players, playerId).value;
      var m' := m.(status := Resigned, winner := Some(Opponent(loser)), rematchRequestedBy := None, updatedAt := now);
      assert MatchInvariant(m');
      PatchKeepsMatches(st, i, m');
      FinalizeScoresOnce(PatchMatch(st, i, m'), m, Resigned, Some(Opponent(loser)), now, elo);
    }
  }

  /** The two routes to a timeout agree: a move that arrives after the
      deadline leaves the database exactly as a timeout tick at the same
      instant would. */
  lemma LateMoveIsTick(st: Store, matchId: string, cellIndex: real, playerId: string, now: int, elo: EloRule)
    requires FindMatch(st.matches, matchId).Some?
    requires var m := st.matches[FindMatch(st.matches, matchId).value];
      ResolvePlayerSymbol(m.players, playerId).Some? && IsTurnExpired(ToEngineState(m), now)
    ensures MakeMove(st, matchId, cellIndex, playerId, now, elo).store == TickTimeout(st, matchId, now, elo).store
  {
  }

  /** A timed-out round is scored once: a second tick is refused as not
      active and changes nothing. */
  lemma SecondTickRefused(st: Store, matchId: string, now: int, now': int, elo: EloRule, elo': EloRule)
    requires TickTimeout(st, matchId, now, elo).reply.TimedOut?
    ensures var once := TickTimeout(st, matchId, now, elo).store;
      TickTimeout(once, matchId, now', elo') == Outcome(Refused(Refusal.MatchNotActive), once)
  {
    var i := FindMatch(st.matches, matchId).value;
    var once := TickTimeout(st, matchId, now, elo).store;
    assert FindMatch(once.matches, matchId) == Some(i) by {
      assert once.matches[i].id == matchId;
      assert forall j :: 0 <= j < i ==> once.matches[j] == st.matches[j];
    }
  }
}

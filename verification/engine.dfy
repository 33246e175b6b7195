/** The rules engine: configuration validation, match construction, move
    application with its ordered failure checks, and timeout resolution. It
    is a pure function of its inputs; the clock is a parameter. */
module Engine {
  import opened Wrappers
  import opened GameTypes
  import opened WinLine

  // ---------------------------------------------------------------------
  // Configuration

  /** A configuration as it arrives: the three values are JavaScript numbers,
      modelled as reals so that non-integers can be told apart. */
  datatype ConfigInput = ConfigInput(
    size: real,
    winLength: real,
    turnTimeSec: real,
    presetId: Option<string>,
    symbolSkinId: Option<string>)

  datatype ConfigError = InvalidIntegerValue | InvalidSize | InvalidWinLength | InvalidTurnTime

  datatype ConfigValidation = ConfigOk | ConfigInvalid(code: ConfigError, message: string)

  /** `Number.isInteger` on a finite number. */
  predicate IsInteger(x: real) {
    x == x.Floor as real
  }

  /** All three values are integers and within their ranges. */
  predicate IsValidConfig(c: ConfigInput) {
    && IsInteger(c.size) && IsInteger(c.winLength) && IsInteger(c.turnTimeSec)
    && 3.0 <= c.size <= 10.0
    && 3.0 <= c.winLength <= c.size
    && 5.0 <= c.turnTimeSec <= 180.0
  }

  /** `validateGameConfig`: the checks run integer, size, win length, turn
      time, and the first that fails names the error. */
  function ValidateGameConfig(c: ConfigInput): (r: ConfigValidation)
    ensures r == ConfigOk <==> IsValidConfig(c)
    ensures r.ConfigInvalid? && r.code == InvalidIntegerValue <==>
      !(IsInteger(c.size) && IsInteger(c.winLength) && IsInteger(c.turnTimeSec))
    ensures r.ConfigInvalid? && r.code == InvalidSize <==>
      IsInteger(c.size) && IsInteger(c.winLength) && IsInteger(c.turnTimeSec)
      && !(3.0 <= c.size <= 10.0)
    ensures r.ConfigInvalid? && r.code == InvalidWinLength <==>
      IsInteger(c.size) && IsInteger(c.winLength) && IsInteger(c.turnTimeSec)
      && 3.0 <= c.size <= 10.0 && !(3.0 <= c.winLength <= c.size)
  {
    if !IsInteger(c.size) || !IsInteger(c.winLength) || !IsInteger(c.turnTimeSec) then
      ConfigInvalid(InvalidIntegerValue, "size, winLength, and turnTimeSec must be integers.")
    else if c.size < 3.0 || c.size > 10.0 then
      ConfigInvalid(InvalidSize, "Board size must be between 3 and 10.")
    else if c.winLength < 3.0 || c.winLength > c.size then
      ConfigInvalid(InvalidWinLength, "Win length must be between 3 and board size.")
    else if c.turnTimeSec < 5.0 || c.turnTimeSec > 180.0 then
      ConfigInvalid(InvalidTurnTime, "Turn timer must be between 5 and 180 seconds.")
    else
      ConfigOk
  }

  /** The ranges a validated configuration keeps. */
  predicate IsWellFormedConfig(g: GameConfig) {
    3 <= g.winLength <= g.size && 5 <= g.turnTimeSec <= 180
  }

  /** A configuration that passed validation, read as integers. */
  function ToGameConfig(c: ConfigInput): (g: GameConfig)
    requires ValidateGameConfig(c) == ConfigOk
    ensures g.size as real == c.size && g.winLength as real == c.winLength
    ensures g.turnTimeSec as real == c.turnTimeSec
    ensures g.presetId == c.presetId && g.symbolSkinId == c.symbolSkinId
    ensures IsWellFormedConfig(g)
  {
    GameConfig(c.size.Floor, c.winLength.Floor, c.turnTimeSec.Floor, c.presetId, c.symbolSkinId)
  }

  /** `createEmptyBoard`: `size * size` empty cells. */
  function CreateEmptyBoard(size: BoardSize): (board: seq<Cell>)
    ensures |board| == size * size
    ensures forall i :: 0 <= i < |board| ==> board[i] == Empty
    ensures MarkCount(board) == 0
  {
    var board := seq(size * size, _ => Empty);
    NoMarksCountZero(board);
    board
  }

  // ---------------------------------------------------------------------
  // Match construction

  datatype NewMatchStateInput = NewMatchStateInput(
    id: string,
    config: ConfigInput,
    createdAtMs: Option<int>,
    players: Option<Seats>,
    firstPlayer: Option<Symbol>)

  /** Milliseconds granted per turn. */
  function TurnMillis(g: GameConfig): int {
    g.turnTimeSec * 1000
  }

  /** `createNewMatchState`: an invalid configuration is a hard error
      carrying the validation message; otherwise a fresh active match on an
      empty board. `now` stands for `Date.now()`. */
  function CreateNewMatchState(input: NewMatchStateInput, now: int): (r: Result<MatchState, string>)
    ensures r.Failure? <==> ValidateGameConfig(input.config) != ConfigOk
    ensures r.Failure? ==> r.error == ValidateGameConfig(input.config).message
    ensures r.Success? ==>
      var s := r.value;
      && s.config == ToGameConfig(input.config)
      && |s.board| == s.config.size * s.config.size
      && (forall i :: 0 <= i < |s.board| ==> s.board[i] == Empty)
      && s.status == Active && s.turnNumber == 1
      && s.winner == None && s.winningLine == None
      && s.turnDeadlineAt == input.createdAtMs.GetOr(now) + s.config.turnTimeSec * 1000
      && s.nextPlayer == input.firstPlayer.GetOr(X)
      && s.players == input.players.GetOr(Seats(None, None))
      && s.id == input.id
  {
    var validated := ValidateGameConfig(input.config);
    if validated.ConfigInvalid? then
      Failure(validated.message)
    else
      var config := ToGameConfig(input.config);
      var createdAtMs := input.createdAtMs.GetOr(now);
      Success(MatchState(
        input.id,
        config,
        CreateEmptyBoard(config.size),
        input.firstPlayer.GetOr(X),
        Active,
        None,
        None,
        1,
        createdAtMs + TurnMillis(config),
        input.players.GetOr(Seats(None, None))))
  }

  // ---------------------------------------------------------------------
  // Moves and timeouts

  /** `isTurnExpired`: the match is active and `nowMs` is strictly past the
      deadline. */
  predicate IsTurnExpired(state: MatchState, nowMs: int) {
    state.status == Active && nowMs > state.turnDeadlineAt
  }

  /** The deadline instant itself is still in time, the next millisecond
      of an active match is not, and once expired a turn stays expired. */
  lemma ExpiryAfterDeadline(state: MatchState, t: int, t': int)
    ensures !IsTurnExpired(state, state.turnDeadlineAt)
    ensures state.status == Active ==> IsTurnExpired(state, state.turnDeadlineAt + 1)
    ensures IsTurnExpired(state, t) && t <= t' ==> IsTurnExpired(state, t')
    ensures state.status != Active ==> !IsTurnExpired(state, t)
  {
  }

  /** `resolveTimeout`: a non-active match is returned as it is; an active
      one ends in a timeout won by the player who was not due to move. */
  function ResolveTimeout(state: MatchState, nowMs: int): (r: MatchState)
    ensures state.status != Active ==> r == state
    ensures r.status != Active
    ensures state.status == Active ==>
      && r.status == Timeout
      && r.winner == Some(Opponent(state.nextPlayer))
      && r.turnDeadlineAt == nowMs
      && r == state.(status := r.status, winner := r.winner, turnDeadlineAt := nowMs)
  {
    if state.status != Active then state
    else state.(status := Timeout, winner := Some(Opponent(state.nextPlayer)), turnDeadlineAt := nowMs)
  }

  /** Applying `ResolveTimeout` a second time, at any time, changes nothing. */
  lemma ResolveTimeoutIdempotent(state: MatchState, t1: int, t2: int)
    ensures ResolveTimeout(ResolveTimeout(state, t1), t2) == ResolveTimeout(state, t1)
  {
  }

  /** A proposed move: the symbol arrives as a string and the cell index as a
      JavaScript number. */
  datatype Move = Move(cellIndex: real, symbol: string, nowMs: int)

  datatype MoveFailure = MatchNotActive | TurnExpired | InvalidSymbol | OutOfBounds | CellOccupied | NotYourTurn

  datatype MoveEvent = MovedEvent | WonEvent | DrawEvent

  datatype MoveResult =
    | MoveOk(event: MoveEvent, state: MatchState)
    | MoveFailed(reason: MoveFailure, state: MatchState)

  /** The move names an empty cell of the board: an integer index within the
      board whose cell is `null`. (A fractional index reads `undefined`,
      which the source treats as occupied.) */
  predicate TargetsEmptyCell(board: seq<Cell>, cellIndex: real) {
    IsInteger(cellIndex) && 0 <= cellIndex.Floor < |board| && board[cellIndex.Floor] == Empty
  }

  /** `applyMove`. Failures are checked in the order: not active, expired
      (which also times the match out), unrecognised symbol, not this
      symbol's turn, index outside the board, cell occupied. A legal move
      places the symbol and then reports a win, else a draw on a full
      board, else passes the turn. */
  function ApplyMove(state: MatchState, move: Move): (r: MoveResult)
    // The order of the failure checks.
    ensures r.MoveFailed? && r.reason == MatchNotActive <==> state.status != Active
    ensures r.MoveFailed? && r.reason == TurnExpired <==> IsTurnExpired(state, move.nowMs)
    ensures r.MoveFailed? && r.reason == InvalidSymbol <==>
      state.status == Active && !IsTurnExpired(state, move.nowMs) && ParseSymbol(move.symbol).None?
    ensures r.MoveFailed? && r.reason == NotYourTurn <==>
      state.status == Active && !IsTurnExpired(state, move.nowMs)
      && ParseSymbol(move.symbol).Some? && ParseSymbol(move.symbol) != Some(state.nextPlayer)
    ensures r.MoveFailed? && r.reason == OutOfBounds <==>
      state.status == Active && !IsTurnExpired(state, move.nowMs)
      && ParseSymbol(move.symbol) == Some(state.nextPlayer)
      && (move.cellIndex < 0.0 || move.cellIndex >= |state.board| as real)
    ensures r.MoveOk? <==>
      state.status == Active && !IsTurnExpired(state, move.nowMs)
      && ParseSymbol(move.symbol) == Some(state.nextPlayer)
      && TargetsEmptyCell(state.board, move.cellIndex)
    // What each failure returns.
    ensures r.MoveFailed? && r.reason != TurnExpired ==> r.state == state
    ensures r.MoveFailed? && r.reason == TurnExpired ==>
      && r.state == ResolveTimeout(state, move.nowMs)
      && r.state.status == Timeout
      && r.state.winner == Some(Opponent(state.nextPlayer))
      && r.state.turnDeadlineAt == move.nowMs
      && r.state.board == state.board
    // A legal move changes exactly one cell, from empty to the mover's symbol.
    ensures r.MoveOk? ==>
      var i := move.cellIndex.Floor;
      && 0 <= i < |state.board| && state.board[i] == Empty
      && r.state.board == state.board[i := Mark(state.nextPlayer)]
    // Win, then draw, then a passed turn.
    ensures r.MoveOk? && r.event == WonEvent ==>
      var line := DetectWinningLine(r.state.board, state.config.size, state.config.winLength, move.cellIndex.Floor);
      && line != []
      && r.state == state.(board := r.state.board, status := Won, winner := Some(state.nextPlayer),
                           winningLine := Some(line))
    ensures r.MoveOk? && r.event == DrawEvent ==>
      && DetectWinningLine(r.state.board, state.config.size, state.config.winLength, move.cellIndex.Floor) == []
      && IsFull(r.state.board)
      && r.state == state.(board := r.state.board, status := Draw, winner := None, winningLine := None)
    ensures r.MoveOk? && r.event == MovedEvent ==>
      && DetectWinningLine(r.state.board, state.config.size, state.config.winLength, move.cellIndex.Floor) == []
      && !IsFull(r.state.board)
      && r.state == state.(board := r.state.board, nextPlayer := Opponent(state.nextPlayer),
                           turnNumber := state.turnNumber + 1,
                           turnDeadlineAt := move.nowMs + state.config.turnTimeSec * 1000)
  {
    if state.status != Active then
      MoveFailed(MatchNotActive, state)
    else if IsTurnExpired(state, move.nowMs) then
      MoveFailed(TurnExpired, ResolveTimeout(state, move.nowMs))
    else if move.symbol != "X" && move.symbol != "O" then
      MoveFailed(InvalidSymbol, state)
    else if ParseSymbol(move.symbol) != Some(state.nextPlayer) then
      MoveFailed(NotYourTurn, state)
    else if move.cellIndex < 0.0 || move.cellIndex >= |state.board| as real then
      MoveFailed(OutOfBounds, state)
    else if !TargetsEmptyCell(state.board, move.cellIndex) then
      MoveFailed(CellOccupied, state)
    else
      var i := move.cellIndex.Floor;
      var board := state.board[i := Mark(state.nextPlayer)];
      var winningLine := DetectWinningLine(board, state.config.size, state.config.winLength, i);
      if |winningLine| > 0 then
        MoveOk(WonEvent, state.(board := board, status := Won, winner := Some(state.nextPlayer),
                                winningLine := Some(winningLine)))
      else if forall j :: 0 <= j < |board| ==> board[j] != Empty then
        MoveOk(DrawEvent, state.(board := board, status := Draw, winner := None, winningLine := None))
      else
        MoveOk(MovedEvent, state.(board := board, nextPlayer := Opponent(state.nextPlayer),
                                  turnNumber := state.turnNumber + 1,
                                  turnDeadlineAt := move.nowMs + TurnMillis(state.config)))
  }

  // ---------------------------------------------------------------------
  // The consistency a match keeps

  /** A symbol has a run of at least `winLength` cells, along one of the four
      directions, that `line` lists. */
  ghost predicate IsWinningLineFor(board: seq<Cell>, size: int, winLength: int, s: Symbol, line: seq<int>) {
    |line| >= winLength && exists d, r0, c0 :: IsRunFrom(board, size, s, d, r0, c0, line)
  }

  /** What every match state built by the engine satisfies: the board fits
      the configuration, the turn counter counts the placed symbols, a won
      match names a winner and a real line of theirs, and a drawn match has
      a full board and no winner. */
  ghost predicate IsConsistent(s: MatchState) {
    && IsWellFormedConfig(s.config)
    && |s.board| == s.config.size * s.config.size
    && MarkCount(s.board) == (if s.status == Won || s.status == Draw then s.turnNumber else s.turnNumber - 1)
    && (s.status == Won ==>
          s.winner.Some? && s.winningLine.Some?
          && IsWinningLineFor(s.board, s.config.size, s.config.winLength, s.winner.value, s.winningLine.value))
    && (s.status == Draw ==> IsFull(s.board) && s.winner == None)
  }

  lemma {:induction false} NoMarksCountZero(board: seq<Cell>)
    requires forall i :: 0 <= i < |board| ==> board[i] == Empty
    ensures MarkCount(board) == 0
  {
    if board != [] {
      NoMarksCountZero(board[..|board| - 1]);
    }
  }

  /** Filling one empty cell adds one to the count of placed symbols. */
  lemma {:induction false} MarkCountPlace(board: seq<Cell>, i: int, s: Symbol)
    requires 0 <= i < |board| && board[i] == Empty
    ensures MarkCount(board[i := Mark(s)]) == MarkCount(board) + 1
    decreases |board|
  {
    var b' := board[i := Mark(s)];
    var n := |board| - 1;
    if i < n {
      assert b'[..n] == board[..n][i := Mark(s)];
      MarkCountPlace(board[..n], i, s);
    } else {
      assert b'[..n] == board[..n];
    }
  }

  /** Placing `t` on an empty cell adds one to the count of `t` and leaves
      the count of the other symbol as it was. */
  lemma {:induction false} SymbolCountPlace(board: seq<Cell>, i: int, t: Symbol, s: Symbol)
    requires 0 <= i < |board| && board[i] == Empty
    ensures SymbolCount(board[i := Mark(t)], s) == SymbolCount(board, s) + (if s == t then 1 else 0)
    decreases |board|
  {
    var b' := board[i := Mark(t)];
    var n := |board| - 1;
    CountLast(board, s);
    CountLast(b', s);
    if i < n {
      PlaceBeforeLast(board, i, t);
      SymbolCountPlace(board[..n], i, t, s);
    } else {
      assert b'[..n] == board[..n];
    }
  }

  /** The count of a non-empty board is that of all but its last cell,
      plus one when the last cell holds `s`. */
  lemma CountLast(board: seq<Cell>, s: Symbol)
    requires board != []
    ensures SymbolCount(board, s) ==
      SymbolCount(board[..|board| - 1], s) + (if board[|board| - 1] == Mark(s) then 1 else 0)
  {
  }

  lemma PlaceBeforeLast(board: seq<Cell>, i: int, t: Symbol)
    requires 0 <= i < |board| - 1
    ensures board[i := Mark(t)][..|board| - 1] == board[..|board| - 1][i := Mark(t)]
    ensures board[i := Mark(t)][|board| - 1] == board[|board| - 1]
  {
  }

  lemma {:induction false} NoMarksNoSymbols(board: seq<Cell>, s: Symbol)
    requires forall i :: 0 <= i < |board| ==> board[i] == Empty
    ensures SymbolCount(board, s) == 0
  {
    if board != [] {
      NoMarksNoSymbols(board[..|board| - 1], s);
    }
  }

  /** Distinct cells holding `s`, listed in increasing order, are no more
      than the cells of the board holding `s`. */
  lemma {:induction false} IncreasingCellsBound(board: seq<Cell>, s: Symbol, cells: seq<int>)
    requires StrictlyIncreasing(cells)
    requires forall k :: 0 <= k < |cells| ==> 0 <= cells[k] < |board| && board[cells[k]] == Mark(s)
    ensures |cells| <= SymbolCount(board, s)
    decreases |board|
  {
    if cells != [] {
      assert 0 <= cells[0] < |board|;
      var n := |board| - 1;
      var m := |cells| - 1;
      if cells[m] == n {
        assert forall k :: 0 <= k < m ==> cells[..m][k] < cells[m];
        IncreasingCellsBound(board[..n], s, cells[..m]);
      } else {
        assert forall k :: 0 <= k < m ==> cells[k] < cells[m];
        IncreasingCellsBound(board[..n], s, cells);
      }
    }
  }

  /** Nobody wins before placing at least `winLength` symbols: the cells
      of a reported line all hold the symbol at `index`. */
  lemma WinNeedsEnoughSymbols(board: seq<Cell>, size: BoardSize, winLength: int, index: int)
    requires |board| == size * size
    requires DetectWinningLine(board, size, winLength, index) != []
    ensures CellAt(board, index).Mark?
    ensures SymbolCount(board, CellAt(board, index).symbol) >= winLength
  {
    var line := DetectWinningLine(board, size, winLength, index);
    DetectWinningLineSpec(board, size, winLength, index);
    var s := CellAt(board, index).symbol;
    var d, r0, c0 :| IsMaximalRunFrom(board, size, s, d, r0, c0, line);
    forall k | 0 <= k < |line|
      ensures 0 <= line[k] < |board| && board[line[k]] == Mark(s)
    {
      RunCellHolds(board, size, s, d, r0, c0, line, k);
    }
    IncreasingCellsBound(board, s, line);
  }

  /** A board is full exactly when every cell counts as placed. */
  lemma {:induction false} MarkCountFull(board: seq<Cell>)
    ensures IsFull(board) <==> MarkCount(board) == |board|
    decreases |board|
  {
    if board != [] {
      var n := |board| - 1;
      MarkCountFull(board[..n]);
      if IsFull(board) {
        assert IsFull(board[..n]);
      } else if MarkCount(board) == |board| {
        assert board[n].Mark?;
        assert MarkCount(board[..n]) == n;
        assert IsFull(board[..n]);
        assert IsFull(board);
      }
    }
  }

  /** A newly constructed match is consistent. */
  lemma NewMatchConsistent(input: NewMatchStateInput, now: int)
    requires CreateNewMatchState(input, now).Success?
    ensures IsConsistent(CreateNewMatchState(input, now).value)
  {
  }

  /** Every outcome of `ApplyMove` on a consistent match is consistent: the
      line reported with a win is a run of the mover's symbol of at least
      the winning length, a draw happens only on a full board, and the turn
      counter keeps counting the placed symbols. */
  lemma ApplyMovePreservesConsistency(state: MatchState, move: Move)
    requires IsConsistent(state)
    ensures IsConsistent(ApplyMove(state, move).state)
  {
    var r := ApplyMove(state, move);
    if r.MoveOk? {
      var i := move.cellIndex.Floor;
      var board := r.state.board;
      MarkCountPlace(state.board, i, state.nextPlayer);
      MarkCountFull(board);
      MarkCountFull(state.board);
      var line := DetectWinningLine(board, state.config.size, state.config.winLength, i);
      DetectWinningLineSpec(board, state.config.size, state.config.winLength, i);
      if r.event == WonEvent {
        assert CellAt(board, i) == Mark(state.nextPlayer);
        var d, r0, c0 :| IsMaximalRunFrom(board, state.config.size, state.nextPlayer, d, r0, c0, line);
        assert IsWinningLineFor(board, state.config.size, state.config.winLength, state.nextPlayer, line);
      }
    }
  }

  /** The outcome of a legal move that neither wins nor draws: no run of the
      mover's symbol through the placed cell reaches the winning length, in
      any direction. A reported draw says the same of the last move. */
  lemma NoWinMeansNoLongRun(state: MatchState, move: Move, d: Direction, r0: int, c0: int, run: seq<int>)
    requires IsConsistent(state)
    requires ApplyMove(state, move).MoveOk? && ApplyMove(state, move).event != WonEvent
    requires IsRunFrom(ApplyMove(state, move).state.board, state.config.size, state.nextPlayer, d, r0, c0, run)
    requires move.cellIndex.Floor in run
    ensures |run| < state.config.winLength
  {
    var i := move.cellIndex.Floor;
    var board := ApplyMove(state, move).state.board;
    DetectWinningLineSpec(board, state.config.size, state.config.winLength, i);
  }

  /** A move that leaves its player with fewer than `winLength` symbols on
      the board cannot win. */
  lemma NoEarlyWin(state: MatchState, move: Move)
    requires IsConsistent(state)
    requires ApplyMove(state, move).MoveOk?
    requires SymbolCount(state.board, state.nextPlayer) + 1 < state.config.winLength
    ensures ApplyMove(state, move).event != WonEvent
  {
    var r := ApplyMove(state, move);
    var i := move.cellIndex.Floor;
    SymbolCountPlace(state.board, i, state.nextPlayer, state.nextPlayer);
    if DetectWinningLine(r.state.board, state.config.size, state.config.winLength, i) != [] {
      WinNeedsEnoughSymbols(r.state.board, state.config.size, state.config.winLength, i);
      assert false;
    }
  }

  /** A win is reported even when the winning move also fills the board. */
  lemma WinBeatsFullBoard(state: MatchState, move: Move)
    requires ApplyMove(state, move).MoveOk?
    requires DetectWinningLine(ApplyMove(state, move).state.board, state.config.size,
                               state.config.winLength, move.cellIndex.Floor) != []
    ensures ApplyMove(state, move).event == WonEvent
    ensures ApplyMove(state, move).state.status == Won
  {
  }

  /** Once a match has left the active status no move or timeout changes it. */
  lemma TerminalIsFinal(state: MatchState, move: Move, nowMs: int)
    requires state.status != Active
    ensures ApplyMove(state, move) == MoveFailed(MatchNotActive, state)
    ensures ResolveTimeout(state, nowMs) == state
  {
  }
}

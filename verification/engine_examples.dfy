/** The engine's documented scenarios, stated as lemmas about the model. */
module EngineExamples {
  import opened Wrappers
  import opened GameTypes
  import opened Lists
  import opened WinLine
  import opened Engine

  function Config(size: real, winLength: real, turnTimeSec: real): ConfigInput {
    ConfigInput(size, winLength, turnTimeSec, None, None)
  }

  function NewMatch(id: string, config: ConfigInput, createdAtMs: int): Result<MatchState, string> {
    CreateNewMatchState(NewMatchStateInput(id, config, Some(createdAtMs), None, None), 0)
  }

  /** Valid and out-of-range configurations. */
  lemma ConfigExamples()
    ensures ValidateGameConfig(Config(10.0, 5.0, 30.0)) == ConfigOk
    ensures ValidateGameConfig(Config(2.0, 3.0, 30.0)).code == InvalidSize
    ensures ValidateGameConfig(Config(4.0, 5.0, 30.0)).code == InvalidWinLength
    ensures ValidateGameConfig(Config(4.0, 3.0, 1.0)).code == InvalidTurnTime
    ensures ValidateGameConfig(Config(4.5, 3.0, 30.0)).code == InvalidIntegerValue
  {
  }

  /** A move after the deadline times the match out in favour of O. */
  lemma LateMoveTimesOut()
    ensures NewMatch("m3", Config(3.0, 3.0, 15.0), 1000).Success?
    ensures var r := ApplyMove(NewMatch("m3", Config(3.0, 3.0, 15.0), 1000).value, Move(0.0, "X", 17000));
      r.MoveFailed? && r.reason == TurnExpired && r.state.status == Timeout && r.state.winner == Some(O)
  {
  }

  /** A legal move by a player who cannot yet have a line, on a board that
      keeps an empty cell, passes the turn and keeps the match consistent. */
  lemma PassesTurn(state: MatchState, move: Move, spare: int)
    requires IsConsistent(state)
    requires ApplyMove(state, move).MoveOk?
    requires SymbolCount(state.board, state.nextPlayer) + 1 < state.config.winLength
    requires 0 <= spare < |state.board| && spare != move.cellIndex.Floor && state.board[spare] == Empty
    ensures ApplyMove(state, move).event == MovedEvent
    ensures IsConsistent(ApplyMove(state, move).state)
    ensures SymbolCount(ApplyMove(state, move).state.board, state.nextPlayer)
            == SymbolCount(state.board, state.nextPlayer) + 1
    ensures SymbolCount(ApplyMove(state, move).state.board, Opponent(state.nextPlayer))
            == SymbolCount(state.board, Opponent(state.nextPlayer))
  {
    NoEarlyWin(state, move);
    ApplyMovePreservesConsistency(state, move);
    var i := move.cellIndex.Floor;
    SymbolCountPlace(state.board, i, state.nextPlayer, state.nextPlayer);
    SymbolCountPlace(state.board, i, state.nextPlayer, Opponent(state.nextPlayer));
    assert ApplyMove(state, move).state.board[spare] == Empty;
  }

  /** A second symbol on the same cell is refused. */
  lemma OccupiedCellRefused()
    ensures NewMatch("m2", Config(3.0, 3.0, 30.0), 20000).Success?
    ensures var first := ApplyMove(NewMatch("m2", Config(3.0, 3.0, 30.0), 20000).value, Move(0.0, "X", 20100));
      && first.MoveOk?
      && var second := ApplyMove(first.state, Move(0.0, "O", 20200));
         second.MoveFailed? && second.reason == CellOccupied
  {
    var s0 := NewMatch("m2", Config(3.0, 3.0, 30.0), 20000).value;
    NewMatchConsistent(NewMatchStateInput("m2", Config(3.0, 3.0, 30.0), Some(20000), None, None), 0);
    NoMarksNoSymbols(s0.board, X);
    PassesTurn(s0, Move(0.0, "X", 20100), 8);
  }

  // The opening of the horizontal-win scenario, one state per move.
  function Cfg(): GameConfig { GameConfig(5, 4, 30, None, None) }
  function B0(): seq<Cell> { seq(25, _ => Empty) }
  function H0(): MatchState { MatchState("m1", Cfg(), B0(), X, Active, None, None, 1, 40000, Seats(None, None)) }
  function H1(): MatchState { MatchState("m1", Cfg(), B0()[0 := Mark(X)], O, Active, None, None, 2, 40100, Seats(None, None)) }
  function H2(): MatchState { MatchState("m1", Cfg(), B0()[0 := Mark(X)][5 := Mark(O)], X, Active, None, None, 3, 40200, Seats(None, None)) }
  function H3(): MatchState { MatchState("m1", Cfg(), B0()[0 := Mark(X)][5 := Mark(O)][1 := Mark(X)], O, Active, None, None, 4, 40300, Seats(None, None)) }
  function H4(): MatchState { MatchState("m1", Cfg(), B0()[0 := Mark(X)][5 := Mark(O)][1 := Mark(X)][6 := Mark(O)], X, Active, None, None, 5, 40400, Seats(None, None)) }
  function H5(): MatchState { MatchState("m1", Cfg(), B0()[0 := Mark(X)][5 := Mark(O)][1 := Mark(X)][6 := Mark(O)][2 := Mark(X)], O, Active, None, None, 6, 40500, Seats(None, None)) }
  function H6(): MatchState { MatchState("m1", Cfg(), B0()[0 := Mark(X)][5 := Mark(O)][1 := Mark(X)][6 := Mark(O)][2 := Mark(X)][7 := Mark(O)], X, Active, None, None, 7, 40600, Seats(None, None)) }

  /** The facts each step of the opening keeps for the next one. */
  predicate OpeningStage(h: MatchState, xs: int, os: int) {
    && |h.board| == 25 && h.board[24] == Empty
    && SymbolCount(h.board, X) == xs && SymbolCount(h.board, O) == os
  }

  lemma HorizontalStart()
    ensures NewMatch("m1", Config(5.0, 4.0, 30.0), 10000) == Success(H0())
    ensures IsConsistent(H0()) && OpeningStage(H0(), 0, 0)
  {
    NewMatchConsistent(NewMatchStateInput("m1", Config(5.0, 4.0, 30.0), Some(10000), None, None), 0);
    NoMarksNoSymbols(H0().board, X);
    NoMarksNoSymbols(H0().board, O);
  }

  lemma HorizontalStep1()
    ensures ApplyMove(H0(), Move(0.0, "X", 10100)) == MoveOk(MovedEvent, H1())
    ensures IsConsistent(H1()) && OpeningStage(H1(), 1, 0)
  {
    HorizontalStart();
    PassesTurn(H0(), Move(0.0, "X", 10100), 24);
  }

  lemma HorizontalStep2()
    ensures ApplyMove(H1(), Move(5.0, "O", 10200)) == MoveOk(MovedEvent, H2())
    ensures IsConsistent(H2()) && OpeningStage(H2(), 1, 1)
  {
    HorizontalStep1();
    PassesTurn(H1(), Move(5.0, "O", 10200), 24);
  }

  lemma HorizontalStep3()
    ensures ApplyMove(H2(), Move(1.0, "X", 10300)) == MoveOk(MovedEvent, H3())
    ensures IsConsistent(H3()) && OpeningStage(H3(), 2, 1)
  {
    HorizontalStep2();
    PassesTurn(H2(), Move(1.0, "X", 10300), 24);
  }

  lemma HorizontalStep4()
    ensures ApplyMove(H3(), Move(6.0, "O", 10400)) == MoveOk(MovedEvent, H4())
    ensures IsConsistent(H4()) && OpeningStage(H4(), 2, 2)
  {
    HorizontalStep3();
    PassesTurn(H3(), Move(6.0, "O", 10400), 24);
  }

  lemma HorizontalStep5()
    ensures ApplyMove(H4(), Move(2.0, "X", 10500)) == MoveOk(MovedEvent, H5())
    ensures IsConsistent(H5()) && OpeningStage(H5(), 3, 2)
  {
    HorizontalStep4();
    PassesTurn(H4(), Move(2.0, "X", 10500), 24);
  }

  lemma HorizontalStep6()
    ensures ApplyMove(H5(), Move(7.0, "O", 10600)) == MoveOk(MovedEvent, H6())
    ensures IsConsistent(H6()) && OpeningStage(H6(), 3, 3)
  {
    HorizontalStep5();
    PassesTurn(H5(), Move(7.0, "O", 10600), 24);
  }

  /** The fourth X completes the top row. */
  lemma HorizontalFinalMove()
    ensures var r := ApplyMove(H6(), Move(3.0, "X", 10700));
      r.MoveOk? && r.state.status == Won && r.state.winner == Some(X)
      && r.state.winningLine == Some([0, 1, 2, 3])
  {
    var b := H6().board[3 := Mark(X)];
    assert b[0] == Mark(X) && b[1] == Mark(X) && b[2] == Mark(X) && b[3] == Mark(X) && b[4] == Empty;
    assert Line(b, 5, X, Horizontal, 3) == [0, 1, 2, 3] by {
      assert Walk(b, 5, X, Horizontal, 0, -1, -1) == [];
      assert Walk(b, 5, X, Horizontal, 0, 0, -1) == [0];
      assert Walk(b, 5, X, Horizontal, 0, 1, -1) == [1, 0];
      assert Walk(b, 5, X, Horizontal, 0, 2, -1) == [2, 1, 0];
      assert Walk(b, 5, X, Horizontal, 0, 4, 1) == [];
      ReverseIndex([2, 1, 0]);
      assert Reverse([2, 1, 0]) == [0, 1, 2];
    }
    assert CellAt(b, 3) == Mark(X);
    assert DetectWinningLine(b, 5, 4, 3) == [0, 1, 2, 3];
  }

  /** Four X's in the top row of a 5x5 board with winning length 4. */
  lemma HorizontalWin()
    ensures NewMatch("m1", Config(5.0, 4.0, 30.0), 10000).Success?
    ensures
      var s0 := NewMatch("m1", Config(5.0, 4.0, 30.0), 10000).value;
      var r1 := ApplyMove(s0, Move(0.0, "X", 10100));
      var r2 := ApplyMove(r1.state, Move(5.0, "O", 10200));
      var r3 := ApplyMove(r2.state, Move(1.0, "X", 10300));
      var r4 := ApplyMove(r3.state, Move(6.0, "O", 10400));
      var r5 := ApplyMove(r4.state, Move(2.0, "X", 10500));
      var r6 := ApplyMove(r5.state, Move(7.0, "O", 10600));
      var r7 := ApplyMove(r6.state, Move(3.0, "X", 10700));
      && r1.MoveOk? && r2.MoveOk? && r3.MoveOk? && r4.MoveOk? && r5.MoveOk? && r6.MoveOk?
      && r7.MoveOk? && r7.state.status == Won && r7.state.winner == Some(X)
      && r7.state.winningLine == Some([0, 1, 2, 3])
  {
    HorizontalStart();
    HorizontalStep1();
    HorizontalStep2();
    HorizontalStep3();
    HorizontalStep4();
    HorizontalStep5();
    HorizontalStep6();
    HorizontalFinalMove();
  }

  /** Five O's on the anti-diagonal of a 6x6 board. */
  lemma AntiDiagonalWin()
    ensures
      var board := seq(36, i => if i in {4, 9, 14, 19, 24} then Mark(O) else Empty);
      DetectWinningLine(board, 6, 5, 24) == [4, 9, 14, 19, 24]
  {
    var board := seq(36, i => if i in {4, 9, 14, 19, 24} then Mark(O) else Empty);
    assert Line(board, 6, O, Horizontal, 24) == [24] by {
      assert Walk(board, 6, O, Horizontal, 4, -1, -1) == [];
      assert board[25] == Empty;
      assert Walk(board, 6, O, Horizontal, 4, 1, 1) == [];
    }
    assert Line(board, 6, O, Vertical, 24) == [24] by {
      assert board[18] == Empty && board[30] == Empty;
      assert Walk(board, 6, O, Vertical, 3, 0, -1) == [];
      assert Walk(board, 6, O, Vertical, 5, 0, 1) == [];
    }
    assert Line(board, 6, O, Diagonal, 24) == [24] by {
      assert board[31] == Empty;
      assert Walk(board, 6, O, Diagonal, 3, -1, -1) == [];
      assert Walk(board, 6, O, Diagonal, 5, 1, 1) == [];
    }
    assert Line(board, 6, O, AntiDiagonal, 24) == [4, 9, 14, 19, 24] by {
      assert board[4] == Mark(O) && board[9] == Mark(O) && board[14] == Mark(O) && board[19] == Mark(O);
      assert Walk(board, 6, O, AntiDiagonal, -1, 5, -1) == [];
      assert Walk(board, 6, O, AntiDiagonal, 0, 4, -1) == [4];
      assert Walk(board, 6, O, AntiDiagonal, 1, 3, -1) == [9, 4];
      assert Walk(board, 6, O, AntiDiagonal, 2, 2, -1) == [14, 9, 4];
      assert Walk(board, 6, O, AntiDiagonal, 3, 1, -1) == [19, 14, 9, 4];
      assert Walk(board, 6, O, AntiDiagonal, 5, -1, 1) == [];
      ReverseIndex([19, 14, 9, 4]);
      assert Reverse([19, 14, 9, 4]) == [4, 9, 14, 19];
    }
    assert CellAt(board, 24) == Mark(O);
    assert Directions[3..] == [AntiDiagonal] && Directions[2..] == [Diagonal, AntiDiagonal];
    assert FirstLongLine(board, 6, 5, 24, O, Directions[3..]) == [4, 9, 14, 19, 24];
    assert FirstLongLine(board, 6, 5, 24, O, Directions[2..]) == [4, 9, 14, 19, 24];
    assert FirstLongLine(board, 6, 5, 24, O, Directions[1..]) == [4, 9, 14, 19, 24];
  }
}

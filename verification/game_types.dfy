/** The shared vocabulary of the game: symbols, cells, statuses, the per-match
    configuration and the engine's view of a match. */
module GameTypes {
  import opened Wrappers

  /** The two player tokens. */
  datatype Symbol = X | O

  /** The symbol that is not `s`. */
  function Opponent(s: Symbol): (r: Symbol)
    ensures r != s
  {
    if s == X then O else X
  }

  /** The wire spelling of a symbol. */
  function SymbolName(s: Symbol): string {
    match s
    case X => "X"
    case O => "O"
  }

  /** Reads a wire string back as a symbol; anything but "X" and "O" is
      unrecognised. */
  function ParseSymbol(t: string): (r: Option<Symbol>)
    ensures r.Some? <==> (t == "X" || t == "O")
    ensures r.Some? ==> SymbolName(r.value) == t
  {
    if t == "X" then Some(X) else if t == "O" then Some(O) else None
  }

  /** A board cell: empty (`null`) or holding a symbol. */
  datatype Cell = Empty | Mark(symbol: Symbol)

  /** Lifecycle of a match; `Waiting` belongs to room management, the others
      to the engine. */
  datatype Status = Waiting | Active | Won | Draw | Timeout | Resigned

  /** The statuses from which no further move is accepted. */
  predicate IsTerminal(s: Status) {
    s == Won || s == Draw || s == Timeout || s == Resigned
  }

  /** Permitted board side lengths. */
  type BoardSize = n: int | 3 <= n <= 10 witness 3

  /** A validated per-match ruleset. */
  datatype GameConfig = GameConfig(
    size: BoardSize,
    winLength: int,
    turnTimeSec: int,
    presetId: Option<string>,
    symbolSkinId: Option<string>)

  /** Player identities per seat; a seat may be open. */
  datatype Seats = Seats(x: Option<string>, o: Option<string>)

  /** The player seated as `s`, if any. */
  function SeatOf(p: Seats, s: Symbol): Option<string> {
    match s
    case X => p.x
    case O => p.o
  }

  /** The engine's working representation of one match. */
  datatype MatchState = MatchState(
    id: string,
    config: GameConfig,
    board: seq<Cell>,
    nextPlayer: Symbol,
    status: Status,
    winner: Option<Symbol>,
    winningLine: Option<seq<int>>,
    turnNumber: int,
    turnDeadlineAt: int,
    players: Seats)

  /** Number of cells of `board` that hold a symbol. */
  function MarkCount(board: seq<Cell>): (n: nat)
    ensures n <= |board|
  {
    if board == [] then 0
    else MarkCount(board[..|board| - 1]) + (if board[|board| - 1].Mark? then 1 else 0)
  }

  /** Number of cells of `board` that hold `s`. */
  function SymbolCount(board: seq<Cell>, s: Symbol): (n: nat)
    ensures n <= MarkCount(board)
  {
    if board == [] then 0
    else SymbolCount(board[..|board| - 1], s) + (if board[|board| - 1] == Mark(s) then 1 else 0)
  }

  /** Every cell of `board` holds a symbol. */
  predicate IsFull(board: seq<Cell>) {
    forall i :: 0 <= i < |board| ==> board[i].Mark?
  }
}

/** Win detection: the runs of equal symbols through the last placed cell,
    along the four line directions of a square board whose cell `(r, c)`
    sits at index `r * size + c`. */
module WinLine {
  import opened GameTypes
  import opened Lists

  /** The four line directions as (row step, column step): (0,1), (1,0),
      (1,1) and (1,-1). */
  datatype Direction = Horizontal | Vertical | Diagonal | AntiDiagonal

  /** The order in which detection tries the directions. */
  const Directions: seq<Direction> := [Horizontal, Vertical, Diagonal, AntiDiagonal]

  /** Row reached from row `r` after `k` steps along `d` (`k` may be negative). */
  function RowAt(r: int, d: Direction, k: int): int {
    if d == Horizontal then r else r + k
  }

  /** Column reached from column `c` after `k` steps along `d`. */
  function ColAt(c: int, d: Direction, k: int): int {
    match d
    case Horizontal => c + k
    case Vertical => c
    case Diagonal => c + k
    case AntiDiagonal => c - k
  }

  /** Row reached from row `r` after `k` steps backwards along `d`. */
  function RowBack(r: int, d: Direction, k: int): int {
    RowAt(r, d, -k)
  }

  /** Column reached from column `c` after `k` steps backwards along `d`. */
  function ColBack(c: int, d: Direction, k: int): int {
    ColAt(c, d, -k)
  }

  predicate IsInside(size: int, row: int, col: int) {
    0 <= row < size && 0 <= col < size
  }

  /** The index of cell `(row, col)`: `row * size + col`. */
  function Idx(size: int, row: int, col: int): int {
    Mul(row, size) + col
  }

  /** `a * n` for `n >= 0`, as `n` additions of `a`. Written recursively so
      that the index arithmetic stays linear unless `MulIsProduct` is
      invoked. */
  function Mul(a: int, n: int): int
    decreases n
  {
    if n <= 0 then 0 else Mul(a, n - 1) + a
  }

  lemma {:induction false} MulIsProduct(a: int, n: int)
    requires n >= 0
    ensures Mul(a, n) == a * n
    decreases n
  {
    if n > 0 {
      MulIsProduct(a, n - 1);
    }
  }

  /** Reading `board[i]`: an index past either end reads as no symbol. */
  function CellAt(board: seq<Cell>, i: int): (cell: Cell)
    ensures cell.Mark? ==> 0 <= i < |board|
  {
    if 0 <= i < |board| then board[i] else Empty
  }

  /** The walk may continue onto `(r, c)`: it is on the board and holds `s`. */
  predicate Continues(board: seq<Cell>, size: int, s: Symbol, r: int, c: int) {
    IsInside(size, r, c) && CellAt(board, Idx(size, r, c)) == Mark(s)
  }

  /** Distance to the board edge a walk along `d` in direction `step` heads for. */
  function WalkMeasure(size: int, d: Direction, r: int, c: int, step: int): int {
    if d == Horizontal then (if step > 0 then size - c else c + 1)
    else (if step > 0 then size - r else r + 1)
  }

  /** The indices visited by walking from `(r, c)` one step at a time along
      `d` (forwards when `step` is 1, backwards when it is -1) for as long as
      the cells hold `s`, in walking order. */
  function Walk(board: seq<Cell>, size: int, s: Symbol, d: Direction, r: int, c: int, step: int): seq<int>
    requires step == 1 || step == -1
    decreases WalkMeasure(size, d, r, c, step)
  {
    if Continues(board, size, s, r, c) then
      [Idx(size, r, c)] + Walk(board, size, s, d, RowAt(r, d, step), ColAt(c, d, step), step)
    else
      []
  }

  /** The cells walked backwards from the cell before `index` along `d`. */
  function BackWalk(board: seq<Cell>, size: BoardSize, s: Symbol, d: Direction, index: int): seq<int> {
    Walk(board, size, s, d, RowAt(index / size, d, -1), ColAt(index % size, d, -1), -1)
  }

  /** The cells walked forwards from the cell after `index` along `d`. */
  function ForwardWalk(board: seq<Cell>, size: BoardSize, s: Symbol, d: Direction, index: int): seq<int> {
    Walk(board, size, s, d, RowAt(index / size, d, 1), ColAt(index % size, d, 1), 1)
  }

  /** The line through `index` along `d`: the backward walk unshifted in
      front of `index`, then the forward walk pushed after it. */
  function Line(board: seq<Cell>, size: BoardSize, s: Symbol, d: Direction, index: int): seq<int> {
    Reverse(BackWalk(board, size, s, d, index)) + [index] + ForwardWalk(board, size, s, d, index)
  }

  /** The first line among `ds` that reaches `winLength`, or none. */
  function FirstLongLine(board: seq<Cell>, size: BoardSize, winLength: int, index: int, s: Symbol,
                         ds: seq<Direction>): (line: seq<int>)
    ensures line == [] || |line| >= winLength
  {
    if ds == [] then []
    else
      var line := Line(board, size, s, ds[0], index);
      if |line| >= winLength then line else FirstLongLine(board, size, winLength, index, s, ds[1..])
  }

  /** `detectWinningLine`: the cells of a line of at least `winLength`
      copies of the symbol at `index` passing through `index`, or empty. */
  function DetectWinningLine(board: seq<Cell>, size: BoardSize, winLength: int, index: int): (line: seq<int>)
    ensures CellAt(board, index) == Empty ==> line == []
    ensures line == [] || |line| >= winLength
  {
    match CellAt(board, index)
    case Empty => []
    case Mark(s) => FirstLongLine(board, size, winLength, index, s, Directions)
  }

  // ---------------------------------------------------------------------
  // What a line is

  /** `line` lists `|line|` consecutive cells along `d`, the k-th at
      `(RowAt(r0, d, k), ColAt(c0, d, k))`, all on the board and holding `s`. */
  predicate IsRunFrom(board: seq<Cell>, size: int, s: Symbol, d: Direction, r0: int, c0: int, line: seq<int>) {
    forall k {:trigger line[k]} :: 0 <= k < |line| ==>
      Continues(board, size, s, RowAt(r0, d, k), ColAt(c0, d, k))
      && line[k] == Idx(size, RowAt(r0, d, k), ColAt(c0, d, k))
  }

  /** `line` lists `|line|` consecutive cells walking backwards along `d`
      from `(r, c)`, all on the board and holding `s`. */
  predicate IsBackRunFrom(board: seq<Cell>, size: int, s: Symbol, d: Direction, r: int, c: int, line: seq<int>) {
    forall k {:trigger line[k]} :: 0 <= k < |line| ==>
      Continues(board, size, s, RowBack(r, d, k), ColBack(c, d, k))
      && line[k] == Idx(size, RowBack(r, d, k), ColBack(c, d, k))
  }

  /** A run that cannot be extended at either end. */
  predicate IsMaximalRunFrom(board: seq<Cell>, size: int, s: Symbol, d: Direction, r0: int, c0: int, line: seq<int>) {
    && IsRunFrom(board, size, s, d, r0, c0, line)
    && !Continues(board, size, s, RowAt(r0, d, -1), ColAt(c0, d, -1))
    && !Continues(board, size, s, RowAt(r0, d, |line|), ColAt(c0, d, |line|))
  }

  /** The k-th cell of a run. */
  lemma RunCell(board: seq<Cell>, size: int, s: Symbol, d: Direction, r0: int, c0: int, line: seq<int>, k: int)
    requires IsRunFrom(board, size, s, d, r0, c0, line)
    requires 0 <= k < |line|
    ensures Continues(board, size, s, RowAt(r0, d, k), ColAt(c0, d, k))
    ensures line[k] == Idx(size, RowAt(r0, d, k), ColAt(c0, d, k))
  {
  }

  /** Every cell a run lists is a board cell holding its symbol. */
  lemma RunCellHolds(board: seq<Cell>, size: int, s: Symbol, d: Direction, r0: int, c0: int, line: seq<int>, k: int)
    requires IsRunFrom(board, size, s, d, r0, c0, line)
    requires 0 <= k < |line|
    ensures 0 <= line[k] < |board| && board[line[k]] == Mark(s)
  {
    RunCell(board, size, s, d, r0, c0, line, k);
  }

  /** The k-th cell of a backward run. */
  lemma BackRunCell(board: seq<Cell>, size: int, s: Symbol, d: Direction, r: int, c: int, line: seq<int>, k: int)
    requires IsBackRunFrom(board, size, s, d, r, c, line)
    requires 0 <= k < |line|
    ensures Continues(board, size, s, RowBack(r, d, k), ColBack(c, d, k))
    ensures line[k] == Idx(size, RowBack(r, d, k), ColBack(c, d, k))
  {
  }

  predicate StrictlyIncreasing(line: seq<int>) {
    forall i, j :: 0 <= i < j < |line| ==> line[i] < line[j]
  }

  // ---------------------------------------------------------------------
  // Arithmetic on board coordinates

  lemma MulAtLeast(a: int, b: int)
    requires a >= 1 && b > 0
    ensures a * b >= b
  {
  }

  /** A cell index determines its row and column. */
  lemma IdxCoordinates(size: int, r: int, c: int)
    requires size > 0 && 0 <= c < size
    ensures Idx(size, r, c) / size == r && Idx(size, r, c) % size == c
  {
    var i := Idx(size, r, c);
    MulIsProduct(r, size);
    var q, m := i / size, i % size;
    assert q * size + m == r * size + c;
    assert (q - r) * size == c - m;
    if q - r >= 1 {
      MulAtLeast(q - r, size);
      assert false;
    }
    if r - q >= 1 {
      assert (r - q) * size == m - c;
      MulAtLeast(r - q, size);
      assert false;
    }
  }

  /** An index on a `size`-by-`size` board has an on-board row and column. */
  lemma IndexInside(size: int, index: int)
    requires size > 0 && 0 <= index < size * size
    ensures IsInside(size, index / size, index % size)
    ensures Idx(size, index / size, index % size) == index
  {
    RowBelow(size, index);
    MulIsProduct(index / size, size);
  }

  lemma RowBelow(size: int, index: int)
    requires size > 0 && 0 <= index < size * size
    ensures index / size < size
  {
    var q := index / size;
    if q >= size {
      MulLeft(size, q, size);
      assert false;
    }
  }

  lemma MulLeft(a: int, b: int, n: int)
    requires a <= b && n >= 0
    ensures a * n <= b * n
  {
  }

  /** Two on-board coordinates with the same index are the same coordinate. */
  lemma IdxInjective(size: int, r: int, c: int, r': int, c': int)
    requires size > 0 && 0 <= c < size && 0 <= c' < size
    requires Idx(size, r, c) == Idx(size, r', c')
    ensures r == r' && c == c'
  {
    IdxCoordinates(size, r, c);
    IdxCoordinates(size, r', c');
  }

  // ---------------------------------------------------------------------
  // Walks

  /** A forward walk is a run from its start that stops at the first cell
      that is off the board or does not hold `s`. */
  lemma {:induction false} ForwardWalkIsRun(board: seq<Cell>, size: int, s: Symbol, d: Direction, r: int, c: int)
    ensures IsRunFrom(board, size, s, d, r, c, Walk(board, size, s, d, r, c, 1))
    ensures !Continues(board, size, s, RowAt(r, d, |Walk(board, size, s, d, r, c, 1)|),
                       ColAt(c, d, |Walk(board, size, s, d, r, c, 1)|))
    decreases WalkMeasure(size, d, r, c, 1)
  {
    if Continues(board, size, s, r, c) {
      var r', c' := RowAt(r, d, 1), ColAt(c, d, 1);
      ForwardWalkIsRun(board, size, s, d, r', c');
      var w' := Walk(board, size, s, d, r', c', 1);
      assert Walk(board, size, s, d, r, c, 1) == [Idx(size, r, c)] + w';
      RunCons(board, size, s, d, r, c, w');
    }
  }

  /** A cell holding `s` followed by a run from the next cell is a run. */
  lemma RunCons(board: seq<Cell>, size: int, s: Symbol, d: Direction, r: int, c: int, w': seq<int>)
    requires Continues(board, size, s, r, c)
    requires IsRunFrom(board, size, s, d, RowAt(r, d, 1), ColAt(c, d, 1), w')
    ensures IsRunFrom(board, size, s, d, r, c, [Idx(size, r, c)] + w')
    ensures RowAt(RowAt(r, d, 1), d, |w'|) == RowAt(r, d, |w'| + 1)
    ensures ColAt(ColAt(c, d, 1), d, |w'|) == ColAt(c, d, |w'| + 1)
  {
    var r', c' := RowAt(r, d, 1), ColAt(c, d, 1);
    var w := [Idx(size, r, c)] + w';
    forall k | 1 <= k < |w|
      ensures Continues(board, size, s, RowAt(r, d, k), ColAt(c, d, k))
      ensures w[k] == Idx(size, RowAt(r, d, k), ColAt(c, d, k))
    {
      RunCell(board, size, s, d, r', c', w', k - 1);
      assert RowAt(r', d, k - 1) == RowAt(r, d, k) && ColAt(c', d, k - 1) == ColAt(c, d, k);
      assert w[k] == w'[k - 1];
    }
    assert RowAt(r, d, 0) == r && ColAt(c, d, 0) == c;
  }

  /** The k-th cell of a backward walk is `k` steps backwards from its start,
      and the walk stops at the first cell that is off the board or does not
      hold `s`. */
  lemma {:induction false} BackWalkIsRun(board: seq<Cell>, size: int, s: Symbol, d: Direction, r: int, c: int)
    ensures IsBackRunFrom(board, size, s, d, r, c, Walk(board, size, s, d, r, c, -1))
    ensures !Continues(board, size, s, RowBack(r, d, |Walk(board, size, s, d, r, c, -1)|),
                       ColBack(c, d, |Walk(board, size, s, d, r, c, -1)|))
    decreases WalkMeasure(size, d, r, c, -1)
  {
    if Continues(board, size, s, r, c) {
      var r', c' := RowAt(r, d, -1), ColAt(c, d, -1);
      BackWalkIsRun(board, size, s, d, r', c');
      var w' := Walk(board, size, s, d, r', c', -1);
      assert Walk(board, size, s, d, r, c, -1) == [Idx(size, r, c)] + w';
      BackRunCons(board, size, s, d, r, c, w');
    }
  }

  /** A cell holding `s` followed by a backward run from the cell before
      it is a backward run. */
  lemma BackRunCons(board: seq<Cell>, size: int, s: Symbol, d: Direction, r: int, c: int, w': seq<int>)
    requires Continues(board, size, s, r, c)
    requires IsBackRunFrom(board, size, s, d, RowAt(r, d, -1), ColAt(c, d, -1), w')
    ensures IsBackRunFrom(board, size, s, d, r, c, [Idx(size, r, c)] + w')
    ensures RowBack(RowAt(r, d, -1), d, |w'|) == RowBack(r, d, |w'| + 1)
    ensures ColBack(ColAt(c, d, -1), d, |w'|) == ColBack(c, d, |w'| + 1)
  {
    var r', c' := RowAt(r, d, -1), ColAt(c, d, -1);
    var w := [Idx(size, r, c)] + w';
    forall k | 1 <= k < |w|
      ensures Continues(board, size, s, RowBack(r, d, k), ColBack(c, d, k))
      ensures w[k] == Idx(size, RowBack(r, d, k), ColBack(c, d, k))
    {
      BackRunCell(board, size, s, d, r', c', w', k - 1);
      assert RowBack(r', d, k - 1) == RowBack(r, d, k) && ColBack(c', d, k - 1) == ColBack(c, d, k);
      assert w[k] == w'[k - 1];
    }
    assert RowBack(r, d, 0) == r && ColBack(c, d, 0) == c;
  }

  /** A forward walk is at least as long as any stretch of matching cells
      that starts where it starts. */
  lemma {:induction false} ForwardWalkCovers(board: seq<Cell>, size: int, s: Symbol, d: Direction, r: int, c: int, t: nat)
    requires forall j :: 0 <= j < t ==> Continues(board, size, s, RowAt(r, d, j), ColAt(c, d, j))
    ensures |Walk(board, size, s, d, r, c, 1)| >= t
    decreases t
  {
    if t > 0 {
      assert Continues(board, size, s, RowAt(r, d, 0), ColAt(c, d, 0));
      var r', c' := RowAt(r, d, 1), ColAt(c, d, 1);
      forall j | 0 <= j < t - 1
        ensures Continues(board, size, s, RowAt(r', d, j), ColAt(c', d, j))
      {
        assert RowAt(r', d, j) == RowAt(r, d, j + 1) && ColAt(c', d, j) == ColAt(c, d, j + 1);
      }
      ForwardWalkCovers(board, size, s, d, r', c', t - 1);
    }
  }

  /** The same for a backward walk. */
  lemma {:induction false} BackWalkCovers(board: seq<Cell>, size: int, s: Symbol, d: Direction, r: int, c: int, t: nat)
    requires forall j :: 0 <= j < t ==> Continues(board, size, s, RowBack(r, d, j), ColBack(c, d, j))
    ensures |Walk(board, size, s, d, r, c, -1)| >= t
    decreases t
  {
    if t > 0 {
      assert Continues(board, size, s, RowBack(r, d, 0), ColBack(c, d, 0));
      var r', c' := RowAt(r, d, -1), ColAt(c, d, -1);
      forall j | 0 <= j < t - 1
        ensures Continues(board, size, s, RowBack(r', d, j), ColBack(c', d, j))
      {
        assert RowBack(r', d, j) == RowBack(r, d, j + 1) && ColBack(c', d, j) == ColBack(c, d, j + 1);
      }
      BackWalkCovers(board, size, s, d, r', c', t - 1);
    }
  }

  // ---------------------------------------------------------------------
  // Lines

  /** The line through an occupied `index` along `d` is a maximal run of
      its symbol that contains `index`. */
  lemma LineIsMaximalRun(board: seq<Cell>, size: BoardSize, s: Symbol, d: Direction, index: int)
    requires |board| == size * size
    requires CellAt(board, index) == Mark(s)
    ensures index in Line(board, size, s, d, index)
    ensures exists r0, c0 :: IsMaximalRunFrom(board, size, s, d, r0, c0, Line(board, size, s, d, index))
  {
    var n := |BackWalk(board, size, s, d, index)|;
    var line := Line(board, size, s, d, index);
    var r0, c0 := RowAt(index / size, d, -n), ColAt(index % size, d, -n);
    LineIsRun(board, size, s, d, index);
    LineEnds(board, size, s, d, index);
    assert line[n] == index;
    assert IsMaximalRunFrom(board, size, s, d, r0, c0, line);
  }

  /** Neither the cell before the line nor the cell after it continues it. */
  lemma LineEnds(board: seq<Cell>, size: BoardSize, s: Symbol, d: Direction, index: int)
    ensures var n := |BackWalk(board, size, s, d, index)|;
      var r0, c0 := RowAt(index / size, d, -n), ColAt(index % size, d, -n);
      var len := |Line(board, size, s, d, index)|;
      && !Continues(board, size, s, RowAt(r0, d, -1), ColAt(c0, d, -1))
      && !Continues(board, size, s, RowAt(r0, d, len), ColAt(c0, d, len))
  {
    var row, col := index / size, index % size;
    var n := |BackWalk(board, size, s, d, index)|;
    var fwd := ForwardWalk(board, size, s, d, index);
    var len := |Line(board, size, s, d, index)|;
    var r0, c0 := RowAt(row, d, -n), ColAt(col, d, -n);
    assert !Continues(board, size, s, RowAt(r0, d, -1), ColAt(c0, d, -1)) by {
      BackWalkStops(board, size, s, d, RowAt(row, d, -1), ColAt(col, d, -1));
      StepsAdd(row, col, d, -1, -n);
      StepsAdd(row, col, d, -n, -1);
      assert RowBack(RowAt(row, d, -1), d, n) == RowAt(r0, d, -1);
      assert ColBack(ColAt(col, d, -1), d, n) == ColAt(c0, d, -1);
    }
    assert !Continues(board, size, s, RowAt(r0, d, len), ColAt(c0, d, len)) by {
      ForwardWalkStops(board, size, s, d, RowAt(row, d, 1), ColAt(col, d, 1));
      StepsAdd(row, col, d, 1, |fwd|);
      StepsAdd(row, col, d, -n, len);
      assert RowAt(RowAt(row, d, 1), d, |fwd|) == RowAt(r0, d, len);
      assert ColAt(ColAt(col, d, 1), d, |fwd|) == ColAt(c0, d, len);
    }
  }

  /** A forward walk stops at the first cell that does not continue it. */
  lemma ForwardWalkStops(board: seq<Cell>, size: int, s: Symbol, d: Direction, r: int, c: int)
    ensures !Continues(board, size, s, RowAt(r, d, |Walk(board, size, s, d, r, c, 1)|),
                       ColAt(c, d, |Walk(board, size, s, d, r, c, 1)|))
  {
    ForwardWalkIsRun(board, size, s, d, r, c);
  }

  /** A backward walk stops at the first cell that does not continue it. */
  lemma BackWalkStops(board: seq<Cell>, size: int, s: Symbol, d: Direction, r: int, c: int)
    ensures !Continues(board, size, s, RowBack(r, d, |Walk(board, size, s, d, r, c, -1)|),
                       ColBack(c, d, |Walk(board, size, s, d, r, c, -1)|))
  {
    BackWalkIsRun(board, size, s, d, r, c);
  }

  /** The line is a run that starts as many steps before `index` as the
      backward walk is long. */
  lemma LineIsRun(board: seq<Cell>, size: BoardSize, s: Symbol, d: Direction, index: int)
    requires |board| == size * size
    requires CellAt(board, index) == Mark(s)
    ensures var n := |BackWalk(board, size, s, d, index)|;
      IsRunFrom(board, size, s, d, RowAt(index / size, d, -n), ColAt(index % size, d, -n), Line(board, size, s, d, index))
  {
    var row, col := index / size, index % size;
    IndexInside(size, index);
    BackWalkIsRun(board, size, s, d, RowAt(row, d, -1), ColAt(col, d, -1));
    ForwardWalkIsRun(board, size, s, d, RowAt(row, d, 1), ColAt(col, d, 1));
    JoinRuns(board, size, s, d, row, col, BackWalk(board, size, s, d, index), ForwardWalk(board, size, s, d, index));
  }

  /** A backward run ending just before `(row, col)`, reversed, then
      `(row, col)`, then a forward run starting just after it, is one run. */
  lemma JoinRuns(board: seq<Cell>, size: int, s: Symbol, d: Direction, row: int, col: int, back: seq<int>, fwd: seq<int>)
    requires IsBackRunFrom(board, size, s, d, RowAt(row, d, -1), ColAt(col, d, -1), back)
    requires IsRunFrom(board, size, s, d, RowAt(row, d, 1), ColAt(col, d, 1), fwd)
    requires Continues(board, size, s, row, col)
    ensures IsRunFrom(board, size, s, d, RowAt(row, d, -|back|), ColAt(col, d, -|back|),
                      Reverse(back) + [Idx(size, row, col)] + fwd)
  {
    var line := Reverse(back) + [Idx(size, row, col)] + fwd;
    var n := |back|;
    var r0, c0 := RowAt(row, d, -|back|), ColAt(col, d, -|back|);
    forall k | 0 <= k < |line|
      ensures Continues(board, size, s, RowAt(r0, d, k), ColAt(c0, d, k))
      ensures line[k] == Idx(size, RowAt(r0, d, k), ColAt(c0, d, k))
    {
      if k < n {
        ReverseAt(back, k);
        assert line[k] == back[n - 1 - k];
        BackCell(board, size, s, d, row, col, back, k);
        assert line[k] == Idx(size, RowAt(r0, d, k), ColAt(c0, d, k));
      } else if k == n {
        StepsAdd(row, col, d, -n, n);
        assert RowAt(row, d, 0) == row && ColAt(col, d, 0) == col;
        assert RowAt(r0, d, k) == row && ColAt(c0, d, k) == col;
        assert line[k] == Idx(size, row, col);
        assert line[k] == Idx(size, RowAt(r0, d, k), ColAt(c0, d, k));
      } else {
        assert line[k] == fwd[k - n - 1];
        ForwardCell(board, size, s, d, row, col, fwd, n, k);
        assert line[k] == Idx(size, RowAt(r0, d, k), ColAt(c0, d, k));
      }
    }
    assert IsRunFrom(board, size, s, d, r0, c0, line);
  }

  /** The cells of a forward run starting just after `(row, col)`, counted
      from `n` steps before `(row, col)`. */
  lemma ForwardCell(board: seq<Cell>, size: int, s: Symbol, d: Direction, row: int, col: int, fwd: seq<int>,
                    n: int, k: int)
    requires IsRunFrom(board, size, s, d, RowAt(row, d, 1), ColAt(col, d, 1), fwd)
    requires 0 <= n < k <= n + |fwd|
    ensures var r0, c0 := RowAt(row, d, -n), ColAt(col, d, -n);
      && Continues(board, size, s, RowAt(r0, d, k), ColAt(c0, d, k))
      && fwd[k - n - 1] == Idx(size, RowAt(r0, d, k), ColAt(c0, d, k))
  {
    var j := k - n - 1;
    StepsAdd(row, col, d, 1, j);
    StepsAdd(row, col, d, -n, k);
    RunCell(board, size, s, d, RowAt(row, d, 1), ColAt(col, d, 1), fwd, j);
  }

  /** Steps along a direction add up. */
  lemma StepsAdd(r: int, c: int, d: Direction, a: int, b: int)
    ensures RowAt(RowAt(r, d, a), d, b) == RowAt(r, d, a + b)
    ensures ColAt(ColAt(c, d, a), d, b) == ColAt(c, d, a + b)
  {
  }

  /** Counted from the far end of a backward run ending just before
      `(row, col)`, its cells step forwards along `d`. */
  lemma BackCell(board: seq<Cell>, size: int, s: Symbol, d: Direction, row: int, col: int, back: seq<int>, k: int)
    requires IsBackRunFrom(board, size, s, d, RowAt(row, d, -1), ColAt(col, d, -1), back)
    requires 0 <= k < |back|
    ensures var r0, c0 := RowAt(row, d, -|back|), ColAt(col, d, -|back|);
      && Continues(board, size, s, RowAt(r0, d, k), ColAt(c0, d, k))
      && back[|back| - 1 - k] == Idx(size, RowAt(r0, d, k), ColAt(c0, d, k))
  {
    var n := |back|;
    var j := n - 1 - k;
    StepsAdd(row, col, d, -1, -j);
    StepsAdd(row, col, d, -n, k);
    BackRunCell(board, size, s, d, RowAt(row, d, -1), ColAt(col, d, -1), back, j);
  }

  lemma ReverseAt<T(!new)>(xs: seq<T>, k: int)
    requires 0 <= k < |xs|
    ensures Reverse(xs)[k] == xs[|xs| - 1 - k]
  {
    ReverseIndex(xs);
  }

  /** Consecutive cells of a run along any of the four directions have
      increasing indices. */
  lemma RunStepIncreases(board: seq<Cell>, size: int, s: Symbol, d: Direction, r0: int, c0: int, line: seq<int>, k: int)
    requires IsRunFrom(board, size, s, d, r0, c0, line)
    requires 0 <= k < |line| - 1
    ensures line[k] < line[k + 1]
  {
    RunCell(board, size, s, d, r0, c0, line, k);
    RunCell(board, size, s, d, r0, c0, line, k + 1);
    var r := RowAt(r0, d, k);
    if d != Horizontal {
      assert RowAt(r0, d, k + 1) == r + 1;
      assert Mul(r + 1, size) == Mul(r, size) + size by {
        MulIsProduct(r, size);
        MulIsProduct(r + 1, size);
      }
    }
  }

  /** Every run along the four directions lists its cells in increasing index
      order, so each cell appears once. */
  lemma {:induction false} RunIncreasing(board: seq<Cell>, size: int, s: Symbol, d: Direction, r0: int, c0: int, line: seq<int>)
    requires IsRunFrom(board, size, s, d, r0, c0, line)
    ensures StrictlyIncreasing(line)
    decreases |line|
  {
    if |line| > 1 {
      var init := line[..|line| - 1];
      forall k | 0 <= k < |init|
        ensures Continues(board, size, s, RowAt(r0, d, k), ColAt(c0, d, k))
        ensures init[k] == Idx(size, RowAt(r0, d, k), ColAt(c0, d, k))
      {
        RunCell(board, size, s, d, r0, c0, line, k);
      }
      RunIncreasing(board, size, s, d, r0, c0, init);
      RunStepIncreases(board, size, s, d, r0, c0, line, |line| - 2);
    }
  }

  /** Every run of `s` along `d` through `index` lies within the line the
      walks find, so it is no longer than that line. */
  lemma RunWithinLine(board: seq<Cell>, size: BoardSize, s: Symbol, d: Direction, index: int,
                      r0: int, c0: int, run: seq<int>)
    requires IsRunFrom(board, size, s, d, r0, c0, run)
    requires index in run
    ensures |run| <= |Line(board, size, s, d, index)|
  {
    var m :| 0 <= m < |run| && run[m] == index;
    var rm, cm := RowAt(r0, d, m), ColAt(c0, d, m);
    RunCell(board, size, s, d, r0, c0, run, m);
    IdxCoordinates(size, rm, cm);
    assert index / size == rm && index % size == cm;
    RunAheadCovered(board, size, s, d, r0, c0, run, m);
    RunBehindCovered(board, size, s, d, r0, c0, run, m);
  }

  /** The forward walk from just after the m-th cell of a run covers the
      rest of the run. */
  lemma RunAheadCovered(board: seq<Cell>, size: int, s: Symbol, d: Direction, r0: int, c0: int, run: seq<int>, m: int)
    requires IsRunFrom(board, size, s, d, r0, c0, run)
    requires 0 <= m < |run|
    ensures |Walk(board, size, s, d, RowAt(RowAt(r0, d, m), d, 1), ColAt(ColAt(c0, d, m), d, 1), 1)| >= |run| - m - 1
  {
    var row, col := RowAt(r0, d, m), ColAt(c0, d, m);
    var t := |run| - m - 1;
    forall j | 0 <= j < t
      ensures Continues(board, size, s, RowAt(RowAt(row, d, 1), d, j), ColAt(ColAt(col, d, 1), d, j))
    {
      RunCell(board, size, s, d, r0, c0, run, m + 1 + j);
      StepsAdd(row, col, d, 1, j);
      StepsAdd(r0, c0, d, m, 1 + j);
    }
    ForwardWalkCovers(board, size, s, d, RowAt(row, d, 1), ColAt(col, d, 1), t);
  }

  /** The backward walk from just before the m-th cell of a run covers the
      part of the run before it. */
  lemma RunBehindCovered(board: seq<Cell>, size: int, s: Symbol, d: Direction, r0: int, c0: int, run: seq<int>, m: int)
    requires IsRunFrom(board, size, s, d, r0, c0, run)
    requires 0 <= m < |run|
    ensures |Walk(board, size, s, d, RowAt(RowAt(r0, d, m), d, -1), ColAt(ColAt(c0, d, m), d, -1), -1)| >= m
  {
    var row, col := RowAt(r0, d, m), ColAt(c0, d, m);
    forall j | 0 <= j < m
      ensures Continues(board, size, s, RowBack(RowAt(row, d, -1), d, j), ColBack(ColAt(col, d, -1), d, j))
    {
      RunCell(board, size, s, d, r0, c0, run, m - 1 - j);
      StepsAdd(row, col, d, -1, -j);
      StepsAdd(r0, c0, d, m, -1 - j);
    }
    BackWalkCovers(board, size, s, d, RowAt(row, d, -1), ColAt(col, d, -1), m);
  }

  /** What `detectWinningLine` returns. A non-empty result is a maximal run
      of the symbol at `index`, along one of the four directions, through
      `index`, at least `winLength` long, in increasing index order. An empty
      result means the cell is empty or every run of its symbol through it,
      in every direction, is shorter than `winLength`. */
  lemma DetectWinningLineSpec(board: seq<Cell>, size: BoardSize, winLength: int, index: int)
    requires |board| == size * size
    ensures var line := DetectWinningLine(board, size, winLength, index);
      line != [] ==>
        && CellAt(board, index).Mark?
        && index in line
        && |line| >= winLength
        && StrictlyIncreasing(line)
        && exists d, r0, c0 :: IsMaximalRunFrom(board, size, CellAt(board, index).symbol, d, r0, c0, line)
    ensures var line := DetectWinningLine(board, size, winLength, index);
      line == [] && CellAt(board, index).Mark? ==>
        forall s, d, r0, c0, run ::
          IsRunFrom(board, size, s, d, r0, c0, run) && index in run ==> |run| < winLength
  {
    var line := DetectWinningLine(board, size, winLength, index);
    match CellAt(board, index)
    case Empty =>
    case Mark(s) =>
      FirstLongLineSpec(board, size, winLength, index, s, Directions);
      if line != [] {
        var d :| d in Directions && line == Line(board, size, s, d, index);
        LineIsMaximalRun(board, size, s, d, index);
        var r0, c0 :| IsMaximalRunFrom(board, size, s, d, r0, c0, line);
        RunIncreasing(board, size, s, d, r0, c0, line);
      } else {
        forall s', d, r0, c0, run | IsRunFrom(board, size, s', d, r0, c0, run) && index in run
          ensures |run| < winLength
        {
          var m :| 0 <= m < |run| && run[m] == index;
          assert Continues(board, size, s', RowAt(r0, d, m), ColAt(c0, d, m));
          assert s' == s;
          assert d in Directions;
          RunWithinLine(board, size, s, d, index, r0, c0, run);
        }
      }
  }

  /** `FirstLongLine` tries the directions in order and returns the line of
      the first one that is at least `winLength` long; it is empty only when
      none of them is. */
  lemma {:induction false} FirstLongLineSpec(board: seq<Cell>, size: BoardSize, winLength: int, index: int, s: Symbol,
                                             ds: seq<Direction>)
    ensures var line := FirstLongLine(board, size, winLength, index, s, ds);
      line != [] ==>
        exists k :: && 0 <= k < |ds| && line == Line(board, size, s, ds[k], index) && |line| >= winLength
                    && forall j :: 0 <= j < k ==> |Line(board, size, s, ds[j], index)| < winLength
    ensures var line := FirstLongLine(board, size, winLength, index, s, ds);
      line != [] ==> exists d :: d in ds && line == Line(board, size, s, d, index)
    ensures FirstLongLine(board, size, winLength, index, s, ds) == [] ==>
      forall d :: d in ds ==> |Line(board, size, s, d, index)| < winLength
    decreases |ds|
  {
    FirstLongLineIsFirst(board, size, winLength, index, s, ds);
    if ds != [] {
      FirstLongLineSpec(board, size, winLength, index, s, ds[1..]);
      assert forall d :: d in ds ==> d == ds[0] || d in ds[1..];
      assert |Line(board, size, s, ds[0], index)| >= 1;
    }
  }

  /** The first-in-order half of `FirstLongLineSpec`. */
  lemma {:induction false} FirstLongLineIsFirst(board: seq<Cell>, size: BoardSize, winLength: int, index: int, s: Symbol,
                                                ds: seq<Direction>)
    ensures var line := FirstLongLine(board, size, winLength, index, s, ds);
      line != [] ==>
        exists k :: && 0 <= k < |ds| && line == Line(board, size, s, ds[k], index) && |line| >= winLength
                    && forall j :: 0 <= j < k ==> |Line(board, size, s, ds[j], index)| < winLength
    decreases |ds|
  {
    if ds != [] {
      var line := FirstLongLine(board, size, winLength, index, s, ds);
      var first := Line(board, size, s, ds[0], index);
      if |first| >= winLength {
        assert line == Line(board, size, s, ds[0], index);
      } else {
        var rest := ds[1..];
        assert line == FirstLongLine(board, size, winLength, index, s, rest);
        FirstLongLineIsFirst(board, size, winLength, index, s, rest);
        if line != [] {
          var k :| && 0 <= k < |rest| && line == Line(board, size, s, rest[k], index) && |line| >= winLength
                   && forall j :: 0 <= j < k ==> |Line(board, size, s, rest[j], index)| < winLength;
          assert rest[k] == ds[k + 1];
          forall j | 0 <= j < k + 1
            ensures |Line(board, size, s, ds[j], index)| < winLength
          {
            if j > 0 {
              assert ds[j] == rest[j - 1];
            }
          }
        }
      }
    }
  }

  // ---------------------------------------------------------------------
  // The loops as written

  /** One turn of the backward loop: the cell at `(r, c)` moves from the
      walk still ahead to the walk done, and goes in front of the line. */
  lemma UnshiftStep(board: seq<Cell>, size: BoardSize, s: Symbol, d: Direction, index: int, back: seq<int>, r: int, c: int)
    requires BackWalk(board, size, s, d, index) == back + Walk(board, size, s, d, r, c, -1)
    requires Continues(board, size, s, r, c)
    ensures BackWalk(board, size, s, d, index)
         == (back + [Idx(size, r, c)]) + Walk(board, size, s, d, RowAt(r, d, -1), ColAt(c, d, -1), -1)
    ensures Reverse(back + [Idx(size, r, c)]) + [index] == [Idx(size, r, c)] + (Reverse(back) + [index])
  {
    var here := Idx(size, r, c);
    assert Walk(board, size, s, d, r, c, -1) == [here] + Walk(board, size, s, d, RowAt(r, d, -1), ColAt(c, d, -1), -1);
    ReverseSnoc(back, here);
  }

  /** The backward walk of `detectWinningLine`: starting from `[index]`,
      prepend (`unshift`) each matching cell met walking backwards along `d`. */
  method UnshiftBackward(board: seq<Cell>, size: BoardSize, s: Symbol, d: Direction, index: int)
    returns (line: seq<int>)
    ensures line == Reverse(BackWalk(board, size, s, d, index)) + [index]
  {
    line := [index];
    var r := RowAt(index / size, d, -1);
    var c := ColAt(index % size, d, -1);
    ghost var back: seq<int> := [];
    while IsInside(size, r, c) && CellAt(board, Idx(size, r, c)) == Mark(s)
      invariant BackWalk(board, size, s, d, index) == back + Walk(board, size, s, d, r, c, -1)
      invariant line == Reverse(back) + [index]
      decreases WalkMeasure(size, d, r, c, -1)
    {
      var here := Idx(size, r, c);
      UnshiftStep(board, size, s, d, index, back, r, c);
      line := [here] + line;
      back := back + [here];
      r := RowAt(r, d, -1);
      c := ColAt(c, d, -1);
    }
    assert !Continues(board, size, s, r, c);
    assert back == BackWalk(board, size, s, d, index);
  }

  /** One turn of the forward loop: the cell at `(r, c)` moves from the
      walk still ahead to the walk done. */
  lemma PushStep(board: seq<Cell>, size: BoardSize, s: Symbol, d: Direction, index: int, fwd: seq<int>, r: int, c: int)
    requires ForwardWalk(board, size, s, d, index) == fwd + Walk(board, size, s, d, r, c, 1)
    requires Continues(board, size, s, r, c)
    ensures ForwardWalk(board, size, s, d, index)
         == (fwd + [Idx(size, r, c)]) + Walk(board, size, s, d, RowAt(r, d, 1), ColAt(c, d, 1), 1)
  {
    assert Walk(board, size, s, d, r, c, 1) == [Idx(size, r, c)] + Walk(board, size, s, d, RowAt(r, d, 1), ColAt(c, d, 1), 1);
  }

  /** The forward walk of `detectWinningLine`: append (`push`) each matching
      cell met walking forwards along `d`. */
  method PushForward(board: seq<Cell>, size: BoardSize, s: Symbol, d: Direction, index: int, prefix: seq<int>)
    returns (line: seq<int>)
    ensures line == prefix + ForwardWalk(board, size, s, d, index)
  {
    line := prefix;
    var r := RowAt(index / size, d, 1);
    var c := ColAt(index % size, d, 1);
    ghost var fwd: seq<int> := [];
    while IsInside(size, r, c) && CellAt(board, Idx(size, r, c)) == Mark(s)
      invariant ForwardWalk(board, size, s, d, index) == fwd + Walk(board, size, s, d, r, c, 1)
      invariant line == prefix + fwd
      decreases WalkMeasure(size, d, r, c, 1)
    {
      PushStep(board, size, s, d, index, fwd, r, c);
      line := line + [Idx(size, r, c)];
      fwd := fwd + [Idx(size, r, c)];
      r := RowAt(r, d, 1);
      c := ColAt(c, d, 1);
    }
  }

  /** `detectWinningLine` with its loops: for each direction in turn, walk
      backwards then forwards, and return the first line that is long
      enough. It computes exactly `DetectWinningLine`. */
  method DetectWinningLineLoop(board: seq<Cell>, size: BoardSize, winLength: int, index: int)
    returns (line: seq<int>)
    ensures line == DetectWinningLine(board, size, winLength, index)
  {
    var cell := CellAt(board, index);
    if cell == Empty {
      return [];
    }
    var s := cell.symbol;
    var i := 0;
    while i < |Directions|
      invariant 0 <= i <= |Directions|
      invariant FirstLongLine(board, size, winLength, index, s, Directions)
             == FirstLongLine(board, size, winLength, index, s, Directions[i..])
    {
      var d := Directions[i];
      line := UnshiftBackward(board, size, s, d, index);
      line := PushForward(board, size, s, d, index, line);
      if |line| >= winLength {
        return line;
      }
      i := i + 1;
    }
    return [];
  }
}

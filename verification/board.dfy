/**
  The rules of four-field Kono as the board enforces them: the starting layout,
  bounds-checked cell reads, the single mutator `Move` (a step to an adjacent
  empty cell, or a capture that jumps over an own piece and lands on an
  opponent piece two cells away), the legality predicate and win detection.
 */
module Rules {
  import opened Wrappers
  import opened Grid

  /** The error kinds a board operation raises. */
  datatype BoardError = OutOfBoard | NotOrthogonalMove | IncorrectMove | GameOver(winner: Side)

  /** A board value: the grid plus the stored number of pieces of each side. */
  datatype Board = Board(grid: Grid, computerPieces: int, playerPieces: int)
  {
    /** The stored piece count of side `s`. */
    function Pieces(s: Side): int
    {
      if s == Computer then computerPieces else playerPieces
    }
  }

  /** The stored counts agree with the pieces actually on the grid. */
  predicate Consistent(b: Board)
  {
    PieceCount(b.grid, Computer) == b.computerPieces && PieceCount(b.grid, Player) == b.playerPieces
  }

  // ---------------------------------------------------------------------
  // Starting layout
  // ---------------------------------------------------------------------

  /**
    The starting layout. The rows are built `Columns / 2` times with `Rows`
    cells each, as `board.py` builds them (rows and columns swapped), which is a
    grid only because the board is square.
   */
  function StartGrid(): Grid
  {
    seq(Columns / 2, _ => seq(Rows, _ => Piece(Computer)))
      + seq(Columns - Columns / 2, _ => seq(Rows, _ => Piece(Player)))
  }

  /** The cell of the starting grid at `p`: computer pieces on the upper half, player pieces on the lower. */
  lemma StartCell(p: Position)
    requires InBounds(p)
    ensures At(StartGrid(), p) == if p.row < Rows / 2 then Piece(Computer) else Piece(Player)
  {
  }

  /** How many pieces of `s` the starting grid holds from index `k` on. */
  function StartCountFrom(s: Side, k: nat): int
  {
    if s == Computer then (if k < 8 then 8 - k else 0)
    else (if k < 8 then 8 else if k < CellCount then CellCount - k else 0)
  }

  lemma StartCounts(s: Side, k: nat)
    requires k <= CellCount
    ensures CountFrom(StartGrid(), Piece(s), k) == StartCountFrom(s, k)
  {
    forall j: nat | k <= j < CellCount
      ensures CountFrom(StartGrid(), Piece(s), j) - StartCountFrom(s, j)
           == CountFrom(StartGrid(), Piece(s), j + 1) - StartCountFrom(s, j + 1)
    {
      PosOfIndex(j);
      StartCell(PosOf(j));
    }
    Telescope((j: nat) => CountFrom(StartGrid(), Piece(s), j), (j: nat) => StartCountFrom(s, j), k, CellCount);
  }

  /** Resets the board to the starting layout, whatever it held before. */
  function LoadStartBoard(b: Board): (r: Board)
    ensures forall p | InBounds(p) ::
      At(r.grid, p) == if p.row < Rows / 2 then Piece(Computer) else Piece(Player)
    ensures r.computerPieces == MaximumNumberPieces && r.playerPieces == MaximumNumberPieces
    ensures Consistent(r)
  {
    StartCounts(Computer, 0);
    StartCounts(Player, 0);
    forall p | InBounds(p)
      ensures At(StartGrid(), p) == if p.row < Rows / 2 then Piece(Computer) else Piece(Player)
    {
      StartCell(p);
    }
    Board(StartGrid(), MaximumNumberPieces, MaximumNumberPieces)
  }

  // ---------------------------------------------------------------------
  // Reading a cell
  // ---------------------------------------------------------------------

  /** The cell at (row, column), or OutOfBoard when that is not on the grid. */
  function GetBoardSymbol(b: Board, row: int, column: int): (r: Result<Cell, BoardError>)
    ensures r.Err? <==> !InBounds(Position(row, column))
    ensures r.Err? ==> r.error == OutOfBoard
    ensures r.Ok? ==> r.value == At(b.grid, Position(row, column))
  {
    if !(0 <= row < Rows && 0 <= column < Columns) then Err(OutOfBoard)
    else Ok(b.grid[row][column])
  }

  // ---------------------------------------------------------------------
  // Moves: the rule, stated independently of how Move checks it
  // ---------------------------------------------------------------------

  /** A step: the target is orthogonally adjacent and empty. */
  predicate IsStep(g: Grid, piece: Position, target: Position)
    requires InBounds(piece) && InBounds(target)
  {
    Distance(piece, target) == 1 && At(g, target) == Empty
  }

  /** The cell halfway between two cells that lie two apart on one axis. */
  function Between(piece: Position, target: Position): Position
  {
    Position((piece.row + target.row) / 2, (piece.column + target.column) / 2)
  }

  /** Two cells apart along one axis, the other coordinate unchanged. */
  predicate TwoApart(piece: Position, target: Position)
  {
    (piece.row == target.row && Abs(piece.column - target.column) == 2)
    || (piece.column == target.column && Abs(piece.row - target.row) == 2)
  }

  lemma BetweenInBounds(piece: Position, target: Position)
    requires InBounds(piece) && InBounds(target) && TwoApart(piece, target)
    ensures InBounds(Between(piece, target))
    ensures Distance(piece, Between(piece, target)) == 1
  {
  }

  /**
    A capture by `s`: the target is two cells away along one axis, the cell in
    between holds an own piece, and the target holds an opponent piece.
   */
  predicate IsCapture(g: Grid, piece: Position, target: Position, s: Side)
    requires InBounds(piece) && InBounds(target)
  {
    TwoApart(piece, target)
    && (BetweenInBounds(piece, target); At(g, Between(piece, target)) == Piece(s))
    && At(g, target) == Piece(Opponent(s))
  }

  /** A move `Move` accepts. */
  predicate Legal(g: Grid, piece: Position, target: Position, s: Side)
  {
    InBounds(piece) && InBounds(target) && At(g, piece) == Piece(s)
    && (IsStep(g, piece, target) || IsCapture(g, piece, target, s))
  }

  lemma StepIsNotCapture(g: Grid, piece: Position, target: Position, s: Side)
    requires InBounds(piece) && InBounds(target)
    ensures !(IsStep(g, piece, target) && IsCapture(g, piece, target, s))
  {
  }

  // ---------------------------------------------------------------------
  // The mutator
  // ---------------------------------------------------------------------

  /** The grid after the piece of `s` leaves `piece` and stands on `target`. */
  function Relocate(g: Grid, piece: Position, target: Position, s: Side): (r: Grid)
    requires InBounds(piece) && InBounds(target)
    ensures piece != target ==> At(r, piece) == Empty
    ensures At(r, target) == Piece(s)
    ensures forall q | InBounds(q) && q != piece && q != target :: At(r, q) == At(g, q)
  {
    Set(Set(g, piece, Empty), target, Piece(s))
  }

  /** The board with side `s`'s stored count lowered by one. */
  function LosePiece(b: Board, s: Side): (r: Board)
    ensures r.grid == b.grid
    ensures r.Pieces(s) == b.Pieces(s) - 1 && r.Pieces(Opponent(s)) == b.Pieces(Opponent(s))
  {
    if s == Computer then b.(computerPieces := b.computerPieces - 1)
    else b.(playerPieces := b.playerPieces - 1)
  }

  /**
    Moves the piece of `s` at `piece` to `target`, or reports why it cannot.
    Every check happens before anything changes, so an error leaves nothing
    behind; a result carries the whole new board.
   */
  function Move(b: Board, piece: Position, target: Position, s: Side): (r: Result<Board, BoardError>)
    ensures r.Ok? <==> Legal(b.grid, piece, target, s)
    ensures r.Ok? ==> piece != target && r.value.grid == Relocate(b.grid, piece, target, s)
  {
    if !(0 <= piece.row < Rows && 0 <= piece.column < Columns && 0 <= target.row < Rows && 0 <= target.column < Columns) then
      Err(OutOfBoard)
    else if b.grid[piece.row][piece.column] == Empty then
      Err(IncorrectMove)
    else if b.grid[piece.row][piece.column] != Piece(s) then
      Err(IncorrectMove)
    else if piece.row == target.row then
      var middle := Position(piece.row, (piece.column + target.column) / 2);
      AxisLegal(b.grid, piece, target, s, Abs(piece.column - target.column), middle);
      AxisMove(b, piece, target, s, Abs(piece.column - target.column), middle)
    else if piece.column == target.column then
      var middle := Position((piece.row + target.row) / 2, piece.column);
      AxisLegal(b.grid, piece, target, s, Abs(piece.row - target.row), middle);
      AxisMove(b, piece, target, s, Abs(piece.row - target.row), middle)
    else
      Err(NotOrthogonalMove)
  }

  /**
    One axis of `Move`, for a piece and a target on a common row or column
    `distance` apart with `middle` halfway between them: a step onto an
    empty cell, else a capture over an own piece onto an opponent piece,
    else a rejection.
   */
  function AxisMove(b: Board, piece: Position, target: Position, s: Side, distance: int, middle: Position)
    : (r: Result<Board, BoardError>)
    requires InBounds(piece) && InBounds(target) && InBounds(middle)
    ensures r.Ok? <==> (distance == 1 && At(b.grid, target) == Empty)
                       || (distance == 2 && At(b.grid, middle) == Piece(s) && At(b.grid, target) == Piece(Opponent(s)))
    ensures r.Err? ==> r == Err(IncorrectMove)
    ensures r.Ok? ==> r.value.grid == Relocate(b.grid, piece, target, s)
  {
    if distance == 1 && b.grid[target.row][target.column] == Empty then
      Ok(b.(grid := Relocate(b.grid, piece, target, s)))
    else if distance == 2 && b.grid[middle.row][middle.column] == Piece(s)
            && b.grid[target.row][target.column] == Piece(Opponent(s)) then
      Ok(LosePiece(b.(grid := Relocate(b.grid, piece, target, s)), Opponent(s)))
    else
      Err(IncorrectMove)
  }

  /** On one axis, the rule's step and capture are the two shapes `AxisMove` accepts. */
  lemma AxisLegal(g: Grid, piece: Position, target: Position, s: Side, distance: int, middle: Position)
    requires InBounds(piece) && InBounds(target) && At(g, piece) == Piece(s)
    requires || (piece.row == target.row && distance == Abs(piece.column - target.column)
                 && middle == Position(piece.row, (piece.column + target.column) / 2))
             || (piece.column == target.column && distance == Abs(piece.row - target.row)
                 && middle == Position((piece.row + target.row) / 2, piece.column))
    ensures InBounds(middle)
    ensures Legal(g, piece, target, s)
            <==> (distance == 1 && At(g, target) == Empty)
                 || (distance == 2 && At(g, middle) == Piece(s) && At(g, target) == Piece(Opponent(s)))
    ensures distance == 1 || distance == 2 ==> piece != target
  {
    if distance == 2 {
      assert Between(piece, target) == middle;
    }
  }

  /**
    Why `Move` rejects a move, in the order it checks: a coordinate off the
    board, then a source cell that does not hold the mover's piece, then
    cells on neither a common row nor a common column, then a shape that is
    neither a step nor a capture.
   */
  lemma MoveErrors(b: Board, piece: Position, target: Position, s: Side)
    ensures !(InBounds(piece) && InBounds(target)) ==> Move(b, piece, target, s) == Err(OutOfBoard)
    ensures InBounds(piece) && InBounds(target) && At(b.grid, piece) != Piece(s)
            ==> Move(b, piece, target, s) == Err(IncorrectMove)
    ensures (InBounds(piece) && InBounds(target) && At(b.grid, piece) == Piece(s)
             && piece.row != target.row && piece.column != target.column)
            ==> Move(b, piece, target, s) == Err(NotOrthogonalMove)
    ensures (InBounds(piece) && InBounds(target) && At(b.grid, piece) == Piece(s)
             && (piece.row == target.row || piece.column == target.column)
             && !Legal(b.grid, piece, target, s))
            ==> Move(b, piece, target, s) == Err(IncorrectMove)
  {
  }

  /** A step keeps both stored counts; a capture lowers the opponent's by one and keeps the mover's. */
  lemma MoveCounts(b: Board, piece: Position, target: Position, s: Side)
    requires Legal(b.grid, piece, target, s)
    ensures IsStep(b.grid, piece, target) ==>
              Move(b, piece, target, s).value.computerPieces == b.computerPieces
              && Move(b, piece, target, s).value.playerPieces == b.playerPieces
    ensures IsCapture(b.grid, piece, target, s) ==>
              Move(b, piece, target, s).value.Pieces(s) == b.Pieces(s)
              && Move(b, piece, target, s).value.Pieces(Opponent(s)) == b.Pieces(Opponent(s)) - 1
  {
    StepIsNotCapture(b.grid, piece, target, s);
  }

  /** A successful move keeps the stored counts equal to the pieces on the grid. */
  lemma MovePreservesConsistency(b: Board, piece: Position, target: Position, s: Side)
    requires Consistent(b)
    requires Move(b, piece, target, s).Ok?
    ensures Consistent(Move(b, piece, target, s).value)
  {
    MoveCounts(b, piece, target, s);
    if IsStep(b.grid, piece, target) {
      StepConsistent(b, Move(b, piece, target, s).value, piece, target, s);
    } else {
      CaptureConsistent(b, Move(b, piece, target, s).value, piece, target, s);
    }
  }

  /** A board whose grid is a step of `b`'s and whose stored counts are `b`'s is consistent when `b` is. */
  lemma StepConsistent(b: Board, r: Board, piece: Position, target: Position, s: Side)
    requires Consistent(b) && InBounds(piece) && InBounds(target) && At(b.grid, piece) == Piece(s)
    requires IsStep(b.grid, piece, target) && r.grid == Relocate(b.grid, piece, target, s)
    requires r.computerPieces == b.computerPieces && r.playerPieces == b.playerPieces
    ensures Consistent(r)
  {
    StepKeepsCounts(b.grid, piece, target, s, Computer);
    StepKeepsCounts(b.grid, piece, target, s, Player);
  }

  /**
    A board whose grid is a capture of `b`'s, with the opponent's stored count
    one lower and the mover's as it was, is consistent when `b` is.
   */
  lemma CaptureConsistent(b: Board, r: Board, piece: Position, target: Position, s: Side)
    requires Consistent(b) && InBounds(piece) && InBounds(target) && At(b.grid, piece) == Piece(s)
    requires IsCapture(b.grid, piece, target, s) && r.grid == Relocate(b.grid, piece, target, s)
    requires r.Pieces(s) == b.Pieces(s) && r.Pieces(Opponent(s)) == b.Pieces(Opponent(s)) - 1
    ensures Consistent(r)
  {
    CaptureCounts(b.grid, piece, target, s);
    if s == Computer {
      assert Opponent(s) == Player;
    } else {
      assert Opponent(s) == Computer;
    }
  }

  // ---------------------------------------------------------------------
  // The legality predicate
  // ---------------------------------------------------------------------

  /** What `is_valid_move` in `board.py` can return: True, False, or None (falsy). */
  datatype PyValue = PyTrue | PyFalse | PyNone

  predicate Truthy(v: PyValue)
  {
    v == PyTrue
  }

  /**
    A read of the grid with Python's list indexing: a negative index
    counts from the end, an index past either end raises IndexError (None).
   */
  function PyAt(g: Grid, row: int, column: int): (r: Option<Cell>)
    ensures InBounds(Position(row, column)) ==> r == Some(At(g, Position(row, column)))
  {
    if -Rows <= row < Rows && -Columns <= column < Columns then
      Some(g[if row < 0 then row + Rows else row][if column < 0 then column + Columns else column])
    else
      None
  }

  /**
    The two shape tests of one axis, each a short-circuit `and`: a step to an
    empty cell at distance 1, or a jump at distance 2 over an own piece onto an
    opponent piece. When neither holds the test falls off its end (None).
   */
  function ShapeCheck(g: Grid, distance: int, target: Position, middle: Position, s: Side): Option<PyValue>
  {
    var stepOk: Option<bool> :=
      if distance != 1 then Some(false)
      else match PyAt(g, target.row, target.column)
        case None => None
        case Some(c) => Some(c == Empty);
    match stepOk
    case None => None
    case Some(true) => Some(PyTrue)
    case Some(false) =>
      if distance != 2 then Some(PyNone)
      else match PyAt(g, middle.row, middle.column)
        case None => None
        case Some(m) =>
          if m != Piece(s) then Some(PyNone)
          else match PyAt(g, target.row, target.column)
            case None => None
            case Some(t) => if t == Piece(Opponent(s)) then Some(PyTrue) else Some(PyNone)
  }

  /**
    The legality test as `board.py` writes it; None stands for the
    IndexError a read past the end of the grid raises. Its bounds test joins
    the four range checks with `or`, so it only rejects a move whose four
    coordinates are all out of range.
   */
  function CheckValidMove(b: Board, piece: Position, target: Position, s: Side): (r: Option<PyValue>)
    ensures InBounds(piece) && InBounds(target) ==>
              r.Some? && (Truthy(r.value) <==> Move(b, piece, target, s).Ok?)
    ensures (piece.row < 0 || piece.row >= Rows) && (piece.column < 0 || piece.column >= Columns)
            && (target.row < 0 || target.row >= Rows) && (target.column < 0 || target.column >= Columns)
            ==> r == Some(PyFalse)
  {
    var g := b.grid;
    if !(0 <= piece.row < Rows || 0 <= piece.column < Columns || 0 <= target.row < Rows || 0 <= target.column < Columns) then
      Some(PyFalse)
    else match PyAt(g, piece.row, piece.column)
      case None => None
      case Some(source) =>
        if source == Empty then Some(PyFalse)
        else if source != Piece(s) then Some(PyFalse)
        else if piece.row == target.row then
          var middle := Position(piece.row, (piece.column + target.column) / 2);
          ShapeCheckIsLegal(g, piece, target, s, Abs(piece.column - target.column), middle);
          ShapeCheck(g, Abs(piece.column - target.column), target, middle, s)
        else if piece.column == target.column then
          var middle := Position((piece.row + target.row) / 2, piece.column);
          ShapeCheckIsLegal(g, piece, target, s, Abs(piece.row - target.row), middle);
          ShapeCheck(g, Abs(piece.row - target.row), target, middle, s)
        else
          Some(PyFalse)
  }

  /** On the board, the shape tests of one axis accept exactly the legal moves, and never raise. */
  lemma ShapeCheckIsLegal(g: Grid, piece: Position, target: Position, s: Side, distance: int, middle: Position)
    requires || (piece.row == target.row && distance == Abs(piece.column - target.column)
                 && middle == Position(piece.row, (piece.column + target.column) / 2))
             || (piece.column == target.column && distance == Abs(piece.row - target.row)
                 && middle == Position((piece.row + target.row) / 2, piece.column))
    ensures InBounds(piece) && InBounds(target) && At(g, piece) == Piece(s) ==>
              ShapeCheck(g, distance, target, middle, s).Some?
              && (Truthy(ShapeCheck(g, distance, target, middle, s).value) <==> Legal(g, piece, target, s))
  {
    if InBounds(piece) && InBounds(target) && At(g, piece) == Piece(s) {
      AxisLegal(g, piece, target, s, distance, middle);
    }
  }

  /**
    The legality test with the bounds check `is_valid_move` evidently intends
    (all four coordinates in range, joined with `and`), followed by the
    shape tests `is_valid_move` writes.
   */
  function IsValidMove(b: Board, piece: Position, target: Position, s: Side): (ok: bool)
    ensures ok <==> Move(b, piece, target, s).Ok?
  {
    InBounds(piece) && InBounds(target) && CheckValidMove(b, piece, target, s) == Some(PyTrue)
  }

  /** A board on which the as-written test accepts a move whose source lies left of the grid. */
  function OffBoardWitness(): Board
  {
    Board([[Piece(Computer), Piece(Player), Empty, Piece(Computer)],
           [Empty, Empty, Empty, Empty],
           [Empty, Empty, Empty, Empty],
           [Empty, Empty, Empty, Empty]], 2, 1)
  }

  /**
    The as-written test accepts the move (0, -1) -> (0, 1): index -1 reads the
    last cell of row 0, the jumped cell (0, 0) is own, the target is the
    opponent's. `Move` rejects the same move as out of the board.
   */
  lemma CheckValidMoveAcceptsOffBoard()
    ensures CheckValidMove(OffBoardWitness(), Position(0, -1), Position(0, 1), Computer) == Some(PyTrue)
    ensures Move(OffBoardWitness(), Position(0, -1), Position(0, 1), Computer) == Err(OutOfBoard)
  {
    var b := OffBoardWitness();
    assert PyAt(b.grid, 0, -1) == Some(Piece(Computer));
    assert PyAt(b.grid, 0, 0) == Some(Piece(Computer));
    assert PyAt(b.grid, 0, 1) == Some(Piece(Player));
  }

  // ---------------------------------------------------------------------
  // Win detection
  // ---------------------------------------------------------------------

  /** Neighbours of `p` holding a piece of `s`, probed with the guards of `board.py`. */
  function BlockedSides(g: Grid, p: Position, s: Side): nat
    requires InBounds(p)
  {
    (if 0 <= p.row < Rows - 1 && g[p.row + 1][p.column] == Piece(s) then 1 else 0)
    + (if 0 < p.row <= Rows - 1 && g[p.row - 1][p.column] == Piece(s) then 1 else 0)
    + (if 0 <= p.column < Columns - 1 && g[p.row][p.column + 1] == Piece(s) then 1 else 0)
    + (if 0 < p.column <= Columns - 1 && g[p.row][p.column - 1] == Piece(s) then 1 else 0)
  }

  /**
    The immobilisation thresholds of `board.py`: 2 blocked sides in a corner, 3
    elsewhere on the top or bottom row, 4 everywhere else. A piece in the
    middle of the left or right column has only 3 neighbours, so it never
    counts.
   */
  predicate Immobilised(g: Grid, p: Position, s: Side)
    requires InBounds(p)
  {
    var blocked := BlockedSides(g, p, s);
    if p.row == 0 || p.row == Rows - 1 then
      ((p.column == 0 || p.column == Columns - 1) && blocked == 2) || blocked == 3
    else
      blocked == 4
  }

  /** Immobilised pieces of `s`'s opponent among the cells with index in [k, CellCount). */
  function ImmobilisedFrom(g: Grid, s: Side, k: nat): nat
    decreases CellCount - k
  {
    if k >= CellCount then 0
    else (if At(g, PosOf(k)) == Piece(Opponent(s)) && Immobilised(g, PosOf(k), s) then 1 else 0)
         + ImmobilisedFrom(g, s, k + 1)
  }

  /** Every piece of `s`'s opponent is immobilised. */
  ghost predicate AllImmobilised(g: Grid, s: Side)
  {
    forall p | InBounds(p) && At(g, p) == Piece(Opponent(s)) :: Immobilised(g, p, s)
  }

  /** The immobilised pieces are among the opponent's, and all of them exactly when the counts meet. */
  lemma ImmobilisedCount(g: Grid, s: Side, k: nat)
    requires k <= CellCount
    ensures ImmobilisedFrom(g, s, k) <= CountFrom(g, Piece(Opponent(s)), k)
    ensures ImmobilisedFrom(g, s, k) == CountFrom(g, Piece(Opponent(s)), k)
            <==> forall j | k <= j < CellCount :: StuckOrOther(g, s, PosOf(j))
  {
    var same := (i: nat) => StuckOrOther(g, s, PosOf(i));
    ImmobilisedDominated(g, s, k, (i: nat) => ImmobilisedFrom(g, s, i),
                         (i: nat) => CountFrom(g, Piece(Opponent(s)), i), same);
    if forall j: nat | k <= j < CellCount :: same(j) {
      forall j | k <= j < CellCount
        ensures StuckOrOther(g, s, PosOf(j))
      {
        assert same(j);
      }
    }
    if forall j | k <= j < CellCount :: StuckOrOther(g, s, PosOf(j)) {
      forall j: nat | k <= j < CellCount
        ensures same(j)
      {
        assert StuckOrOther(g, s, PosOf(j));
      }
    }
  }

  /** The scan of immobilised pieces is dominated by the scan of the opponent's pieces. */
  lemma ImmobilisedDominated(g: Grid, s: Side, k: nat, f: nat -> int, h: nat -> int, same: nat -> bool)
    requires k <= CellCount
    requires forall i: nat :: f(i) == ImmobilisedFrom(g, s, i)
    requires forall i: nat :: h(i) == CountFrom(g, Piece(Opponent(s)), i)
    requires forall i: nat :: same(i) == StuckOrOther(g, s, PosOf(i))
    ensures f(k) <= h(k)
    ensures f(k) == h(k) <==> forall j: nat | k <= j < CellCount :: same(j)
  {
    forall j: nat | k <= j < CellCount
      ensures DominatedStep(f, h, same, j)
    {
      ImmobilisedStep(g, s, j);
    }
    Dominated(f, h, same, k, CellCount);
  }

  /** The cell at `p` does not hold a piece of `s`'s opponent that can still move. */
  predicate StuckOrOther(g: Grid, s: Side, p: Position)
  {
    InBounds(p) && (At(g, p) == Piece(Opponent(s)) ==> Immobilised(g, p, s))
  }

  /** One cell of the scan: it adds to the immobilised count at most what it adds to the piece count, and as much exactly when it is not a mobile opponent piece. */
  lemma ImmobilisedStep(g: Grid, s: Side, j: nat)
    requires j < CellCount
    ensures InBounds(PosOf(j))
    ensures ImmobilisedFrom(g, s, j) - ImmobilisedFrom(g, s, j + 1)
         <= CountFrom(g, Piece(Opponent(s)), j) - CountFrom(g, Piece(Opponent(s)), j + 1)
    ensures ImmobilisedFrom(g, s, j) - ImmobilisedFrom(g, s, j + 1)
            == CountFrom(g, Piece(Opponent(s)), j) - CountFrom(g, Piece(Opponent(s)), j + 1)
            <==> StuckOrOther(g, s, PosOf(j))
  {
    PosOfIndex(j);
  }

  lemma AllImmobilisedByIndex(g: Grid, s: Side)
    ensures AllImmobilised(g, s) <==> forall j | 0 <= j < CellCount :: StuckOrOther(g, s, PosOf(j))
  {
    if forall j | 0 <= j < CellCount :: StuckOrOther(g, s, PosOf(j)) {
      forall p | InBounds(p) && At(g, p) == Piece(Opponent(s))
        ensures Immobilised(g, p, s)
      {
        IndexPosOf(p);
        assert StuckOrOther(g, s, PosOf(Index(p)));
      }
    }
    if AllImmobilised(g, s) {
      forall j | 0 <= j < CellCount
        ensures StuckOrOther(g, s, PosOf(j))
      {
        PosOfIndex(j);
      }
    }
  }

  /**
    The board is won for `s` (`board.py` raises GameOver(s)): the opponent
    has one piece left, or as many immobilised pieces as its stored count.
   */
  function IsBoardWon(b: Board, s: Side): (won: bool)
    ensures b.Pieces(Opponent(s)) == 1 ==> won
    ensures Consistent(b) ==> (won <==> b.Pieces(Opponent(s)) == 1 || AllImmobilised(b.grid, s))
  {
    ImmobilisedCount(b.grid, s, 0);
    AllImmobilisedByIndex(b.grid, s);
    assert Consistent(b) ==> b.Pieces(Opponent(s)) == PieceCount(b.grid, Opponent(s));
    b.Pieces(Opponent(s)) == 1 || ImmobilisedFrom(b.grid, s, 0) == b.Pieces(Opponent(s))
  }

  /** An immobilised piece has every in-bounds neighbour occupied by `s`. */
  lemma ImmobilisedNeighbours(g: Grid, p: Position, q: Position, s: Side)
    requires InBounds(p) && InBounds(q) && Distance(p, q) == 1
    requires Immobilised(g, p, s)
    ensures At(g, q) == Piece(s)
  {
    ImmobilisedBlocksAll(g, p, s);
    AdjacentCases(p, q);
  }

  /** The cells at distance one from `p` are the four beside it. */
  lemma AdjacentCases(p: Position, q: Position)
    requires Distance(p, q) == 1
    ensures q == Position(p.row + 1, p.column) || q == Position(p.row - 1, p.column)
            || q == Position(p.row, p.column + 1) || q == Position(p.row, p.column - 1)
  {
  }

  /** Each side of an immobilised piece that lies on the board is blocked by `s`. */
  lemma ImmobilisedBlocksAll(g: Grid, p: Position, s: Side)
    requires InBounds(p) && Immobilised(g, p, s)
    ensures InBounds(Position(p.row + 1, p.column)) ==> At(g, Position(p.row + 1, p.column)) == Piece(s)
    ensures InBounds(Position(p.row - 1, p.column)) ==> At(g, Position(p.row - 1, p.column)) == Piece(s)
    ensures InBounds(Position(p.row, p.column + 1)) ==> At(g, Position(p.row, p.column + 1)) == Piece(s)
    ensures InBounds(Position(p.row, p.column - 1)) ==> At(g, Position(p.row, p.column - 1)) == Piece(s)
  {
    var down := if 0 <= p.row < Rows - 1 && g[p.row + 1][p.column] == Piece(s) then 1 else 0;
    var up := if 0 < p.row <= Rows - 1 && g[p.row - 1][p.column] == Piece(s) then 1 else 0;
    var right := if 0 <= p.column < Columns - 1 && g[p.row][p.column + 1] == Piece(s) then 1 else 0;
    var left := if 0 < p.column <= Columns - 1 && g[p.row][p.column - 1] == Piece(s) then 1 else 0;
    assert BlockedSides(g, p, s) == down + up + right + left;
    Saturated(down, up, right, left, Indicator(p.row < Rows - 1), Indicator(0 < p.row),
              Indicator(p.column < Columns - 1), Indicator(0 < p.column));
  }

  /** Four counters, each at most its cap, whose sum reaches the caps' sum, are all at their caps. */
  lemma Saturated(x0: int, x1: int, x2: int, x3: int, c0: int, c1: int, c2: int, c3: int)
    requires 0 <= x0 <= c0 && 0 <= x1 <= c1 && 0 <= x2 <= c2 && 0 <= x3 <= c3
    requires x0 + x1 + x2 + x3 >= c0 + c1 + c2 + c3
    ensures x0 == c0 && x1 == c1 && x2 == c2 && x3 == c3
  {
  }

  /** An immobilised piece has no legal move, step or capture. */
  lemma ImmobilisedCannotMove(g: Grid, p: Position, q: Position, s: Side)
    requires InBounds(p) && Immobilised(g, p, s)
    ensures !Legal(g, p, q, Opponent(s))
  {
    if InBounds(q) && At(g, p) == Piece(Opponent(s)) {
      if Distance(p, q) == 1 {
        ImmobilisedNeighbours(g, p, q, s);
      }
      if TwoApart(p, q) {
        BetweenInBounds(p, q);
        ImmobilisedNeighbours(g, p, Between(p, q), s);
      }
    }
  }

  /**
    When the board is won for `s` on the immobilisation branch and the stored
    counts are consistent, the opponent has no move that `Move` accepts.
   */
  lemma WonByImmobilisationIsStuck(b: Board, s: Side, piece: Position, target: Position)
    requires Consistent(b)
    requires ImmobilisedFrom(b.grid, s, 0) == b.Pieces(Opponent(s))
    ensures Move(b, piece, target, Opponent(s)).Err?
  {
    ImmobilisedCount(b.grid, s, 0);
    AllImmobilisedByIndex(b.grid, s);
    if InBounds(piece) && At(b.grid, piece) == Piece(Opponent(s)) {
      ImmobilisedCannotMove(b.grid, piece, target, s);
    }
  }

  /** A piece in the middle of the left or right column never counts as immobilised. */
  lemma SideColumnNeverImmobilised(g: Grid, p: Position, s: Side)
    requires InBounds(p) && 0 < p.row < Rows - 1 && (p.column == 0 || p.column == Columns - 1)
    ensures !Immobilised(g, p, s)
  {
  }

  /** No piece of the starting grid is immobilised: each has at most one own neighbour blocking it from the other side. */
  lemma StartNothingImmobilised(s: Side, k: nat)
    requires k <= CellCount
    ensures ImmobilisedFrom(StartGrid(), s, k) == 0
  {
    forall j: nat | k <= j < CellCount
      ensures ImmobilisedFrom(StartGrid(), s, j) - 0 == ImmobilisedFrom(StartGrid(), s, j + 1) - 0
    {
      PosOfIndex(j);
      StartNotImmobilisedAt(s, PosOf(j));
    }
    Telescope((j: nat) => ImmobilisedFrom(StartGrid(), s, j), (j: nat) => 0, k, CellCount);
  }

  lemma StartNotImmobilisedAt(s: Side, p: Position)
    requires InBounds(p)
    ensures At(StartGrid(), p) == Piece(Opponent(s)) ==> !Immobilised(StartGrid(), p, s)
  {
    StartCell(p);
    if At(StartGrid(), p) == Piece(Opponent(s)) {
      if 0 <= p.row < Rows - 1 { StartCell(Position(p.row + 1, p.column)); }
      if 0 < p.row { StartCell(Position(p.row - 1, p.column)); }
      if 0 <= p.column < Columns - 1 { StartCell(Position(p.row, p.column + 1)); }
      if 0 < p.column { StartCell(Position(p.row, p.column - 1)); }
      assert BlockedSides(StartGrid(), p, s) <= 1;
    }
  }

  /** The starting board is won for neither side. */
  lemma StartBoardNotWon(b: Board, s: Side)
    ensures !IsBoardWon(LoadStartBoard(b), s)
  {
    StartNothingImmobilised(s, 0);
  }
}

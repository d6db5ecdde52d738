/**
  The playing field of four-field Kono: a 4 x 4 grid whose cells are empty or
  hold a piece of one of the two sides, addressed by (row, column) positions.
  Cells are scanned in row-major order through a flat index k in [0, 16).
 */
module Grid {

  /** Board dimensions and the starting number of pieces per side. */
  const Rows: int := 4
  const Columns: int := 4
  const MaximumNumberPieces: int := 8
  const CellCount: int := 16

  /** The two sides: the human ('O') and the computer ('X'). */
  datatype Side = Player | Computer

  /** A cell is empty (' ') or holds a piece of one side. */
  datatype Cell = Empty | Piece(side: Side)

  /** The side that is not `s`. */
  function Opponent(s: Side): (o: Side)
    ensures o != s
  {
    if s == Player then Computer else Player
  }

  /** A (row, column) coordinate; it may lie outside the grid. */
  datatype Position = Position(row: int, column: int)

  predicate InBounds(p: Position)
  {
    0 <= p.row < Rows && 0 <= p.column < Columns
  }

  /** The four orthogonal directions, in the order every neighbour scan visits them. */
  datatype Direction = Down | Up | Right | Left

  /** The cell `n` steps from `p` in direction `d`. */
  function Toward(p: Position, d: Direction, n: int): Position
  {
    match d
    case Down => Position(p.row + n, p.column)
    case Up => Position(p.row - n, p.column)
    case Right => Position(p.row, p.column + n)
    case Left => Position(p.row, p.column - n)
  }

  /** Rank of a direction in the scan order down, up, right, left. */
  function Rank(d: Direction): int
  {
    match d
    case Down => 0
    case Up => 1
    case Right => 2
    case Left => 3
  }

  function Abs(x: int): nat
  {
    if x < 0 then -x else x
  }

  /** Manhattan distance between two positions. */
  function Distance(p: Position, q: Position): nat
  {
    Abs(p.row - q.row) + Abs(p.column - q.column)
  }

  /** Row-major index of a position, and its inverse. */
  function Index(p: Position): int
  {
    p.row * Columns + p.column
  }

  function PosOf(k: int): Position
  {
    Position(k / Columns, k % Columns)
  }

  lemma PosOfIndex(k: int)
    requires 0 <= k < CellCount
    ensures InBounds(PosOf(k)) && Index(PosOf(k)) == k
  {
  }

  lemma IndexPosOf(p: Position)
    requires InBounds(p)
    ensures 0 <= Index(p) < CellCount && PosOf(Index(p)) == p
  {
  }

  /** A grid: `Rows` rows of `Columns` cells each. */
  type Grid = g: seq<seq<Cell>> | |g| == Rows && forall r | 0 <= r < |g| :: |g[r]| == Columns
    witness seq(Rows, _ => seq(Columns, _ => Empty))

  function At(g: Grid, p: Position): Cell
    requires InBounds(p)
  {
    g[p.row][p.column]
  }

  /** The grid with the cell at `p` replaced by `v`. */
  function Set(g: Grid, p: Position, v: Cell): (r: Grid)
    requires InBounds(p)
    ensures At(r, p) == v
    ensures forall q | InBounds(q) && q != p :: At(r, q) == At(g, q)
  {
    g[p.row := g[p.row][p.column := v]]
  }

  /** Number of cells with row-major index in [k, CellCount) holding `v`. */
  function CountFrom(g: Grid, v: Cell, k: nat): (n: nat)
    ensures k <= CellCount ==> n <= CellCount - k
    decreases CellCount - k
  {
    if k >= CellCount then 0
    else (if At(g, PosOf(k)) == v then 1 else 0) + CountFrom(g, v, k + 1)
  }

  /** Number of pieces side `s` has on the grid. */
  function PieceCount(g: Grid, s: Side): nat
  {
    CountFrom(g, Piece(s), 0)
  }

  function Indicator(b: bool): int
  {
    if b then 1 else 0
  }

  /**
    Two functions that agree at `n` and change by the same amount at every
    step from `k` to `n` agree at `k`. The index scans over the grid are all
    proved through this, which keeps their definitions out of the induction.
   */
  lemma {:induction false} Telescope(f: nat -> int, h: nat -> int, k: nat, n: nat)
    requires k <= n && f(n) == h(n)
    requires forall j: nat | k <= j < n :: f(j) - h(j) == f(j + 1) - h(j + 1)
    ensures f(k) == h(k)
    decreases n - k
  {
    if k < n {
      Telescope(f, h, k + 1, n);
    }
  }

  /** `f` drops by at most what `h` drops from `j` to `j + 1`, and by as much exactly when `same(j)`. */
  predicate DominatedStep(f: nat -> int, h: nat -> int, same: nat -> bool, j: nat)
  {
    f(j) - f(j + 1) <= h(j) - h(j + 1)
    && (f(j) - f(j + 1) == h(j) - h(j + 1) <==> same(j))
  }

  /**
    Two functions that agree at `n`, where `f` never drops by more than `h`
    in a step from `k` to `n`, and drops by as much exactly at the steps
    where `same` holds: `f` stays at or below `h` at `k`, and meets it
    exactly when `same` holds at every step.
   */
  lemma {:induction false} Dominated(f: nat -> int, h: nat -> int, same: nat -> bool, k: nat, n: nat)
    requires k <= n && f(n) == h(n)
    requires forall j: nat | k <= j < n :: DominatedStep(f, h, same, j)
    ensures f(k) <= h(k)
    ensures f(k) == h(k) <==> forall j: nat | k <= j < n :: same(j)
    decreases n - k
  {
    if k < n {
      Dominated(f, h, same, k + 1, n);
      assert DominatedStep(f, h, same, k);
    }
  }

  /** Overwriting one cell changes a count by what left the cell and what entered it. */
  lemma {:induction false} CountAfterSet(g: Grid, p: Position, v: Cell, x: Cell, k: nat)
    requires InBounds(p)
    ensures CountFrom(Set(g, p, v), x, k)
         == CountFrom(g, x, k)
            + (if k <= Index(p) then Indicator(v == x) - Indicator(At(g, p) == x) else 0)
    decreases CellCount - k
  {
    if k < CellCount {
      CountAfterSet(g, p, v, x, k + 1);
      SetCellAt(g, p, v, x, k);
    }
  }

  /** Overwriting the cell at `p` changes what the scan finds at index `k` only when `k` is `p`'s index. */
  lemma SetCellAt(g: Grid, p: Position, v: Cell, x: Cell, k: nat)
    requires InBounds(p) && k < CellCount
    ensures Indicator(At(Set(g, p, v), PosOf(k)) == x)
         == Indicator(At(g, PosOf(k)) == x) + (if k == Index(p) then Indicator(v == x) - Indicator(At(g, p) == x) else 0)
  {
    IndexPosOf(p);
    PosOfIndex(k);
    if k != Index(p) {
      assert PosOf(k) != p;
    }
  }

  /** Moving a piece of `s` from `p` to an empty `q`, leaving `p` empty, keeps both sides' counts. */
  lemma StepKeepsCounts(g: Grid, p: Position, q: Position, s: Side, t: Side)
    requires InBounds(p) && InBounds(q) && p != q
    requires At(g, p) == Piece(s) && At(g, q) == Empty
    ensures PieceCount(Set(Set(g, p, Empty), q, Piece(s)), t) == PieceCount(g, t)
  {
    var h := Set(g, p, Empty);
    assert At(h, q) == Empty;
    CountAfterSet(g, p, Empty, Piece(t), 0);
    CountAfterSet(h, q, Piece(s), Piece(t), 0);
    IndexPosOf(p);
    IndexPosOf(q);
  }

  /** Moving a piece of `s` from `p` onto an opponent piece at `q` removes exactly that opponent piece. */
  lemma CaptureCounts(g: Grid, p: Position, q: Position, s: Side)
    requires InBounds(p) && InBounds(q) && p != q
    requires At(g, p) == Piece(s) && At(g, q) == Piece(Opponent(s))
    ensures PieceCount(Set(Set(g, p, Empty), q, Piece(s)), s) == PieceCount(g, s)
    ensures PieceCount(Set(Set(g, p, Empty), q, Piece(s)), Opponent(s)) == PieceCount(g, Opponent(s)) - 1
  {
    var h := Set(g, p, Empty);
    assert At(h, q) == Piece(Opponent(s));
    CountAfterSet(g, p, Empty, Piece(s), 0);
    CountAfterSet(h, q, Piece(s), Piece(s), 0);
    CountAfterSet(g, p, Empty, Piece(Opponent(s)), 0);
    CountAfterSet(h, q, Piece(s), Piece(Opponent(s)), 0);
    IndexPosOf(p);
    IndexPosOf(q);
  }
}

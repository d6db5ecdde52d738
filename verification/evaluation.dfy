/**
  The static evaluation the minimax search applies at its leaves: ten points
  per piece of material advantage plus five points per capturing jump
  advantage, from the computer's point of view.
 */
module Evaluation {
  import opened Grid
  import opened Rules
  import opened Moves

  const NumberPiecesCost: int := 10
  const CaptureMoveCost: int := 5

  /** The piece of `s` at `p` can capture by jumping in direction `d`. */
  predicate CanCaptureToward(g: Grid, p: Position, d: Direction, s: Side)
    requires InBounds(p)
  {
    InBounds(Toward(p, d, 2)) && IsCapture(g, p, Toward(p, d, 2), s)
  }

  /** Number of directions in which the piece of `s` at `p` can capture: the reference count. */
  function CaptureDirections(g: Grid, p: Position, s: Side): int
    requires InBounds(p)
  {
    Indicator(CanCaptureToward(g, p, Down, s)) + Indicator(CanCaptureToward(g, p, Up, s))
    + Indicator(CanCaptureToward(g, p, Right, s)) + Indicator(CanCaptureToward(g, p, Left, s))
  }

  /** Number of `adjacent` cells the piece at `p` can jump over onto an `opponent` piece. */
  function JumpCount(b: Board, p: Position, adjacent: seq<Position>, opponent: Side): nat
  {
    if adjacent == [] then 0
    else (if CheckCanCapture(b, p, adjacent[0], opponent).Some? then 1 else 0) + JumpCount(b, p, adjacent[1..], opponent)
  }

  lemma {:induction false} JumpCountConcat(b: Board, p: Position, xs: seq<Position>, ys: seq<Position>, opponent: Side)
    ensures JumpCount(b, p, xs + ys, opponent) == JumpCount(b, p, xs, opponent) + JumpCount(b, p, ys, opponent)
    decreases |xs|
  {
    if xs != [] {
      assert (xs + ys)[0] == xs[0];
      assert (xs + ys)[1..] == xs[1..] + ys;
      JumpCountConcat(b, p, xs[1..], ys, opponent);
    } else {
      assert xs + ys == ys;
    }
  }

  /**
    The neighbour of `p` in direction `d`, kept exactly when it holds a piece
    of `s`, counts one jump exactly when a capture in that direction exists.
   */
  lemma JumpsOfNeighbour(b: Board, p: Position, d: Direction, keep: bool, s: Side)
    requires InBounds(p)
    requires keep <==> InBounds(Toward(p, d, 1)) && At(b.grid, Toward(p, d, 1)) == Piece(s)
    ensures JumpCount(b, p, Keep(Toward(p, d, 1), keep), Opponent(s)) == Indicator(CanCaptureToward(b.grid, p, d, s))
  {
    var q, t := Toward(p, d, 1), Toward(p, d, 2);
    assert Mirror(p, q) == t;
    if InBounds(t) {
      assert InBounds(q);
      assert Between(p, t) == q;
    }
    var kept := Keep(q, keep);
    if kept != [] {
      assert kept[1..] == [];
    }
  }

  /** The capturing jumps counted for the piece of `s` at `p`: one per adjacent own piece it can jump over. */
  function CaptureCount(b: Board, p: Position, s: Side): (n: nat)
    requires InBounds(p)
    ensures n == CaptureDirections(b.grid, p, s)
  {
    var adjacent := AdjacentSymbolCells(b, p, Piece(s));
    CaptureCountSpec(b, p, s, adjacent);
    JumpCount(b, p, adjacent, Opponent(s))
  }

  lemma CaptureCountSpec(b: Board, p: Position, s: Side, adjacent: seq<Position>)
    requires InBounds(p) && adjacent == AdjacentSymbolCells(b, p, Piece(s))
    ensures JumpCount(b, p, adjacent, Opponent(s)) == CaptureDirections(b.grid, p, s)
  {
    AdjacentIsProbes(b, p, Piece(s));
    CaptureCountOfProbes(b, p, s);
  }

  lemma AdjacentIsProbes(b: Board, p: Position, v: Cell)
    requires InBounds(p)
    ensures AdjacentSymbolCells(b, p, v) == NeighbourProbes(b, p, v)
  {
  }

  lemma CaptureCountOfProbes(b: Board, p: Position, s: Side)
    requires InBounds(p)
    ensures JumpCount(b, p, NeighbourProbes(b, p, Piece(s)), Opponent(s)) == CaptureDirections(b.grid, p, s)
  {
    ProbeFlags(b, p, Piece(s));
    JumpsOfFour(b, p, s, NeighbourProbes(b, p, Piece(s)),
                Probe(b, Position(p.row + 1, p.column), 0 <= p.row < Rows - 1, Piece(s)),
                Probe(b, Position(p.row - 1, p.column), 0 < p.row <= Rows - 1, Piece(s)),
                Probe(b, Position(p.row, p.column + 1), 0 <= p.column < Columns - 1, Piece(s)),
                Probe(b, Position(p.row, p.column - 1), 0 < p.column <= Columns - 1, Piece(s)));
  }

  /** With exact flags, the jumps over the kept neighbours are the capture directions. */
  lemma JumpsOfFour(b: Board, p: Position, s: Side, r: seq<Position>, down: bool, up: bool, right: bool, left: bool)
    requires InBounds(p)
    requires r == FourNeighbours(p, down, up, right, left)
    requires NeighbourFlags(b, p, Piece(s), down, up, right, left)
    ensures JumpCount(b, p, r, Opponent(s))
         == Indicator(CanCaptureToward(b.grid, p, Down, s)) + Indicator(CanCaptureToward(b.grid, p, Up, s))
            + Indicator(CanCaptureToward(b.grid, p, Right, s)) + Indicator(CanCaptureToward(b.grid, p, Left, s))
  {
    JumpsToward(b, p, s, down, up, right, left);
    assert r == Keep(Toward(p, Down, 1), down) + Keep(Toward(p, Up, 1), up)
                + Keep(Toward(p, Right, 1), right) + Keep(Toward(p, Left, 1), left);
  }

  /** The four kept neighbours, written out by direction, count one jump per capture direction. */
  lemma JumpsToward(b: Board, p: Position, s: Side, down: bool, up: bool, right: bool, left: bool)
    requires InBounds(p)
    requires down <==> InBounds(Toward(p, Down, 1)) && At(b.grid, Toward(p, Down, 1)) == Piece(s)
    requires up <==> InBounds(Toward(p, Up, 1)) && At(b.grid, Toward(p, Up, 1)) == Piece(s)
    requires right <==> InBounds(Toward(p, Right, 1)) && At(b.grid, Toward(p, Right, 1)) == Piece(s)
    requires left <==> InBounds(Toward(p, Left, 1)) && At(b.grid, Toward(p, Left, 1)) == Piece(s)
    ensures JumpCount(b, p, Keep(Toward(p, Down, 1), down) + Keep(Toward(p, Up, 1), up)
                            + Keep(Toward(p, Right, 1), right) + Keep(Toward(p, Left, 1), left), Opponent(s))
         == Indicator(CanCaptureToward(b.grid, p, Down, s)) + Indicator(CanCaptureToward(b.grid, p, Up, s))
            + Indicator(CanCaptureToward(b.grid, p, Right, s)) + Indicator(CanCaptureToward(b.grid, p, Left, s))
  {
    var x0 := Keep(Toward(p, Down, 1), down);
    JumpsOfNeighbour(b, p, Down, down, s);
    var x1 := x0 + Keep(Toward(p, Up, 1), up);
    JumpStep(b, p, s, x0, Up, up);
    var x2 := x1 + Keep(Toward(p, Right, 1), right);
    JumpStep(b, p, s, x1, Right, right);
    JumpStep(b, p, s, x2, Left, left);
  }

  /** Appending the neighbour in direction `d`, kept exactly when it holds a piece of `s`, adds that direction's capture. */
  lemma JumpStep(b: Board, p: Position, s: Side, xs: seq<Position>, d: Direction, keep: bool)
    requires InBounds(p)
    requires keep <==> InBounds(Toward(p, d, 1)) && At(b.grid, Toward(p, d, 1)) == Piece(s)
    ensures JumpCount(b, p, xs + Keep(Toward(p, d, 1), keep), Opponent(s))
         == JumpCount(b, p, xs, Opponent(s)) + Indicator(CanCaptureToward(b.grid, p, d, s))
  {
    JumpCountConcat(b, p, xs, Keep(Toward(p, d, 1), keep), Opponent(s));
    JumpsOfNeighbour(b, p, d, keep, s);
  }

  /** Every counted jump is one capturing move the move generator lists, and conversely. */
  lemma {:induction false} JumpCountIsCaptureMoves(b: Board, p: Position, adjacent: seq<Position>, opponent: Side)
    requires forall a | a in adjacent :: Distance(p, a) == 1
    ensures |CapturesVia(b, p, adjacent, opponent)| == JumpCount(b, p, adjacent, opponent)
    decreases |adjacent|
  {
    if adjacent != [] {
      assert forall a | a in adjacent[1..] :: a in adjacent;
      JumpCountIsCaptureMoves(b, p, adjacent[1..], opponent);
    }
  }

  /** The capture count of a piece is the number of its capturing moves. */
  lemma CaptureCountIsMoves(b: Board, p: Position, s: Side)
    requires InBounds(p)
    ensures CaptureCount(b, p, s) == |FindCapturingMoves(b, p, s)|
  {
    var adjacent := AdjacentSymbolCells(b, p, Piece(s));
    assert forall a | a in adjacent :: Distance(p, a) == 1;
    JumpCountIsCaptureMoves(b, p, adjacent, Opponent(s));
  }

  /** Pieces and capturing jumps of each side, counted over a scan of the board. */
  datatype Tally = Tally(computerPieces: int, playerPieces: int, computerCaptures: int, playerCaptures: int)
  {
    function Pieces(s: Side): int
    {
      if s == Computer then computerPieces else playerPieces
    }

    function Captures(s: Side): int
    {
      if s == Computer then computerCaptures else playerCaptures
    }

    /** One more piece of `s`, with `jumps` capturing jumps. */
    function Add(s: Side, jumps: int): Tally
    {
      if s == Computer then this.(computerPieces := computerPieces + 1, computerCaptures := computerCaptures + jumps)
      else this.(playerPieces := playerPieces + 1, playerCaptures := playerCaptures + jumps)
    }
  }

  /** The tally of the cells with row-major index in [k, CellCount). */
  function TallyFrom(b: Board, k: nat): Tally
    decreases CellCount - k
  {
    if k >= CellCount then Tally(0, 0, 0, 0)
    else
      var t := TallyFrom(b, k + 1);
      PosOfIndex(k);
      match At(b.grid, PosOf(k))
      case Empty => t
      case Piece(s) => t.Add(s, CaptureCount(b, PosOf(k), s))
  }

  /** Total capturing jumps of side `s` over the cells with index in [k, CellCount), by directions. */
  function CaptureTotalFrom(g: Grid, s: Side, k: nat): int
    decreases CellCount - k
  {
    if k >= CellCount then 0
    else
      PosOfIndex(k);
      (if At(g, PosOf(k)) == Piece(s) then CaptureDirections(g, PosOf(k), s) else 0) + CaptureTotalFrom(g, s, k + 1)
  }

  function CaptureTotal(g: Grid, s: Side): int
  {
    CaptureTotalFrom(g, s, 0)
  }

  /** The scan counts each side's pieces and capture directions. */
  lemma TallyCounts(b: Board, s: Side, k: nat)
    ensures TallyFrom(b, k).Pieces(s) == CountFrom(b.grid, Piece(s), k)
    ensures TallyFrom(b, k).Captures(s) == CaptureTotalFrom(b.grid, s, k)
  {
    TallyPieces(b, s, k);
    TallyCaptures(b, s, k);
  }

  lemma TallyPieces(b: Board, s: Side, k: nat)
    ensures TallyFrom(b, k).Pieces(s) == CountFrom(b.grid, Piece(s), k)
  {
    if k < CellCount {
      forall j: nat | k <= j < CellCount
        ensures TallyFrom(b, j).Pieces(s) - CountFrom(b.grid, Piece(s), j)
             == TallyFrom(b, j + 1).Pieces(s) - CountFrom(b.grid, Piece(s), j + 1)
      {
        TallyStep(b, s, j);
      }
      Telescope((j: nat) => TallyFrom(b, j).Pieces(s), (j: nat) => CountFrom(b.grid, Piece(s), j), k, CellCount);
    }
  }

  lemma TallyCaptures(b: Board, s: Side, k: nat)
    ensures TallyFrom(b, k).Captures(s) == CaptureTotalFrom(b.grid, s, k)
  {
    if k < CellCount {
      forall j: nat | k <= j < CellCount
        ensures TallyFrom(b, j).Captures(s) - CaptureTotalFrom(b.grid, s, j)
             == TallyFrom(b, j + 1).Captures(s) - CaptureTotalFrom(b.grid, s, j + 1)
      {
        TallyStep(b, s, j);
      }
      Telescope((j: nat) => TallyFrom(b, j).Captures(s), (j: nat) => CaptureTotalFrom(b.grid, s, j), k, CellCount);
    }
  }

  /** One cell of the scan adds to the tally what it adds to the reference counts. */
  lemma TallyStep(b: Board, s: Side, k: nat)
    requires k < CellCount
    ensures TallyFrom(b, k).Pieces(s) - CountFrom(b.grid, Piece(s), k)
         == TallyFrom(b, k + 1).Pieces(s) - CountFrom(b.grid, Piece(s), k + 1)
    ensures TallyFrom(b, k).Captures(s) - CaptureTotalFrom(b.grid, s, k)
         == TallyFrom(b, k + 1).Captures(s) - CaptureTotalFrom(b.grid, s, k + 1)
  {
    PosOfIndex(k);
  }

  /** The value of a board for the computer. */
  function EvaluationValue(b: Board): (v: int)
    ensures v == NumberPiecesCost * (PieceCount(b.grid, Computer) - PieceCount(b.grid, Player))
                 + CaptureMoveCost * (CaptureTotal(b.grid, Computer) - CaptureTotal(b.grid, Player))
  {
    var t := TallyFrom(b, 0);
    TallyCounts(b, Computer, 0);
    TallyCounts(b, Player, 0);
    NumberPiecesCost * (t.computerPieces - t.playerPieces) + CaptureMoveCost * (t.computerCaptures - t.playerCaptures)
  }

  /** On a consistent board the material term reads the stored piece counts. */
  lemma EvaluationOfConsistent(b: Board)
    requires Consistent(b)
    ensures EvaluationValue(b) == NumberPiecesCost * (b.computerPieces - b.playerPieces)
                                  + CaptureMoveCost * (CaptureTotal(b.grid, Computer) - CaptureTotal(b.grid, Player))
  {
  }

  /** The home-row piece of `s` on the starting grid: the only kind of start piece that can capture. */
  predicate HomeRow(p: Position, s: Side)
  {
    if s == Computer then p.row == 0 else p.row == Rows - 1
  }

  /** The starting layout: the computer fills the top half of the grid, the player the bottom half. */
  ghost predicate StartLayout(g: Grid)
  {
    forall p | InBounds(p) :: At(g, p) == if p.row < Rows / 2 then Piece(Computer) else Piece(Player)
  }

  /** On the starting layout each piece on its side's outer row can capture straight ahead, and no other piece can capture. */
  lemma StartCaptureDirections(g: Grid, p: Position, s: Side)
    requires StartLayout(g)
    requires InBounds(p) && At(g, p) == Piece(s)
    ensures CaptureDirections(g, p, s) == Indicator(HomeRow(p, s))
  {
    StartCaptureToward(g, p, s, Down);
    StartCaptureToward(g, p, s, Up);
    StartCaptureToward(g, p, s, Right);
    StartCaptureToward(g, p, s, Left);
  }

  /** On the starting layout a piece captures only straight ahead, from its side's outer row. */
  lemma StartCaptureToward(g: Grid, p: Position, s: Side, d: Direction)
    requires StartLayout(g)
    requires InBounds(p) && At(g, p) == Piece(s)
    ensures CanCaptureToward(g, p, d, s) <==> HomeRow(p, s) && d == (if s == Computer then Down else Up)
  {
    var t := Toward(p, d, 2);
    if InBounds(t) {
      BetweenInBounds(p, t);
      assert Between(p, t) == Toward(p, d, 1);
    }
  }

  /** The total capture count on the starting layout, from index `k` on. */
  lemma StartCaptureTotal(g: Grid, s: Side, k: nat)
    requires StartLayout(g)
    requires k <= CellCount
    ensures CaptureTotalFrom(g, s, k) == StartCapturesFrom(s, k)
  {
    forall j: nat | k <= j < CellCount
      ensures CaptureTotalFrom(g, s, j) - StartCapturesFrom(s, j)
           == CaptureTotalFrom(g, s, j + 1) - StartCapturesFrom(s, j + 1)
    {
      StartCaptureStep(g, s, j);
    }
    Telescope((j: nat) => CaptureTotalFrom(g, s, j), (j: nat) => StartCapturesFrom(s, j), k, CellCount);
  }

  /** The closed form of the starting capture total from index `k` on: one per home-row cell left. */
  function StartCapturesFrom(s: Side, k: nat): int
  {
    if s == Computer then (if k < Columns then Columns - k else 0)
    else (if k < CellCount - Columns then Columns else if k < CellCount then CellCount - k else 0)
  }

  lemma StartCaptureStep(g: Grid, s: Side, k: nat)
    requires StartLayout(g)
    requires k < CellCount
    ensures CaptureTotalFrom(g, s, k) - StartCapturesFrom(s, k)
         == CaptureTotalFrom(g, s, k + 1) - StartCapturesFrom(s, k + 1)
  {
    PosOfIndex(k);
    var p := PosOf(k);
    assert HomeRow(p, s) <==> if s == Computer then k < Columns else CellCount - Columns <= k;
    if At(g, p) == Piece(s) {
      StartCaptureDirections(g, p, s);
    } else {
      assert !HomeRow(p, s);
    }
  }

  /** The starting position is balanced: equal material and four capturing jumps for each side. */
  lemma StartEvaluation(b: Board)
    ensures EvaluationValue(LoadStartBoard(b)) == 0
  {
    var start := LoadStartBoard(b);
    assert StartLayout(start.grid);
    StartCaptureTotal(start.grid, Computer, 0);
    StartCaptureTotal(start.grid, Player, 0);
    assert StartCapturesFrom(Computer, 0) == StartCapturesFrom(Player, 0);
    EvaluationOfConsistent(start);
  }
}

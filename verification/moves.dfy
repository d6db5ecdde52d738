/**
  The scans both computer strategies run over a board: the neighbours of a
  cell holding a given symbol, capture detection by reflecting a piece over an
  adjacent own piece, and the generation of every move of one side, in
  row-major order of the pieces and, per piece, steps before captures, each
  in the neighbour order down, up, right, left.
 */
module Moves {
  import opened Wrappers
  import opened Grid
  import opened Rules

  /** A move proposal: the piece to move and the cell it goes to. */
  datatype MovePair = MovePair(piece: Position, target: Position)

  /**
    Where `q` stands in a piece's scan order: the four steps down, up, right,
    left take keys 0 to 3, the four captures in the same order 4 to 7.
   */
  function ScanKey(p: Position, q: Position): int
  {
    4 * (Distance(p, q) - 1)
    + (if q.row > p.row then 0 else if q.row < p.row then 1 else if q.column > p.column then 2 else 3)
  }

  /** Strictly increasing scan keys. */
  predicate InScanOrder(p: Position, qs: seq<Position>)
  {
    forall i, j | 0 <= i < j < |qs| :: ScanKey(p, qs[i]) < ScanKey(p, qs[j])
  }

  /** Two lists in scan order, every key of the first below every key of the second. */
  lemma ConcatInScanOrder(p: Position, xs: seq<Position>, ys: seq<Position>)
    requires InScanOrder(p, xs) && InScanOrder(p, ys)
    requires forall i, j | 0 <= i < |xs| && 0 <= j < |ys| :: ScanKey(p, xs[i]) < ScanKey(p, ys[j])
    ensures InScanOrder(p, xs + ys)
  {
    forall i, j | 0 <= i < j < |xs + ys|
      ensures ScanKey(p, (xs + ys)[i]) < ScanKey(p, (xs + ys)[j])
    {
      if j < |xs| {
      } else if i >= |xs| {
        assert (xs + ys)[i] == ys[i - |xs|] && (xs + ys)[j] == ys[j - |xs|];
      } else {
        assert (xs + ys)[i] == xs[i] && (xs + ys)[j] == ys[j - |xs|];
      }
    }
  }

  /** `[q]` when `keep` holds, else nothing. */
  function Keep(q: Position, keep: bool): seq<Position>
  {
    if keep then [q] else []
  }

  /** The Python program's test of one neighbour: the guard holds and the board reads `v` at `q`. */
  function Probe(b: Board, q: Position, guard: bool, v: Cell): (hit: bool)
    ensures hit <==> guard && InBounds(q) && At(b.grid, q) == v
  {
    guard && GetBoardSymbol(b, q.row, q.column) == Ok(v)
  }

  /** The neighbours of `p` below, above, to the right and to the left, each kept when its flag is set. */
  function FourNeighbours(p: Position, down: bool, up: bool, right: bool, left: bool): seq<Position>
  {
    Keep(Position(p.row + 1, p.column), down) + Keep(Position(p.row - 1, p.column), up)
    + Keep(Position(p.row, p.column + 1), right) + Keep(Position(p.row, p.column - 1), left)
  }

  /** The neighbours of `p` the four probes accept, in the order down, up, right, left. */
  function NeighbourProbes(b: Board, p: Position, v: Cell): seq<Position>
  {
    FourNeighbours(p, Probe(b, Position(p.row + 1, p.column), 0 <= p.row < Rows - 1, v),
                      Probe(b, Position(p.row - 1, p.column), 0 < p.row <= Rows - 1, v),
                      Probe(b, Position(p.row, p.column + 1), 0 <= p.column < Columns - 1, v),
                      Probe(b, Position(p.row, p.column - 1), 0 < p.column <= Columns - 1, v))
  }

  /** Each flag says whether its neighbour of `p` is a cell of the board holding `v`. */
  predicate NeighbourFlags(b: Board, p: Position, v: Cell, down: bool, up: bool, right: bool, left: bool)
  {
    && (down <==> InBounds(Position(p.row + 1, p.column)) && At(b.grid, Position(p.row + 1, p.column)) == v)
    && (up <==> InBounds(Position(p.row - 1, p.column)) && At(b.grid, Position(p.row - 1, p.column)) == v)
    && (right <==> InBounds(Position(p.row, p.column + 1)) && At(b.grid, Position(p.row, p.column + 1)) == v)
    && (left <==> InBounds(Position(p.row, p.column - 1)) && At(b.grid, Position(p.row, p.column - 1)) == v)
  }

  /** The four probes of an in-bounds cell report exactly its neighbours holding `v`. */
  lemma ProbeFlags(b: Board, p: Position, v: Cell)
    requires InBounds(p)
    ensures NeighbourFlags(b, p, v, Probe(b, Position(p.row + 1, p.column), 0 <= p.row < Rows - 1, v),
                                    Probe(b, Position(p.row - 1, p.column), 0 < p.row <= Rows - 1, v),
                                    Probe(b, Position(p.row, p.column + 1), 0 <= p.column < Columns - 1, v),
                                    Probe(b, Position(p.row, p.column - 1), 0 < p.column <= Columns - 1, v))
  {
  }

  /** With exact flags, every kept neighbour is an in-bounds neighbour holding `v`. */
  lemma FourNeighboursSound(b: Board, p: Position, v: Cell, r: seq<Position>,
                            down: bool, up: bool, right: bool, left: bool)
    requires r == FourNeighbours(p, down, up, right, left)
    requires NeighbourFlags(b, p, v, down, up, right, left)
    ensures forall i | 0 <= i < |r| :: InBounds(r[i]) && Distance(p, r[i]) == 1 && At(b.grid, r[i]) == v
  {
    FourNeighboursHold(b, p, v, down, up, right, left);
    assert r == Keep(Position(p.row + 1, p.column), down) + Keep(Position(p.row - 1, p.column), up)
                + Keep(Position(p.row, p.column + 1), right) + Keep(Position(p.row, p.column - 1), left);
  }

  /** The four kept neighbours, written out, all hold `v`. */
  lemma FourNeighboursHold(b: Board, p: Position, v: Cell, down: bool, up: bool, right: bool, left: bool)
    requires NeighbourFlags(b, p, v, down, up, right, left)
    ensures AllNeighboursHold(b, p, v, Keep(Position(p.row + 1, p.column), down) + Keep(Position(p.row - 1, p.column), up)
                                       + Keep(Position(p.row, p.column + 1), right) + Keep(Position(p.row, p.column - 1), left))
  {
    var k0, k1 := Keep(Position(p.row + 1, p.column), down), Keep(Position(p.row - 1, p.column), up);
    var k2, k3 := Keep(Position(p.row, p.column + 1), right), Keep(Position(p.row, p.column - 1), left);
    KeepHolds(b, p, v, Position(p.row + 1, p.column), down);
    KeepHolds(b, p, v, Position(p.row - 1, p.column), up);
    KeepHolds(b, p, v, Position(p.row, p.column + 1), right);
    KeepHolds(b, p, v, Position(p.row, p.column - 1), left);
    NeighboursConcat(b, p, v, k0, k1);
    NeighboursConcat(b, p, v, k0 + k1, k2);
    NeighboursConcat(b, p, v, k0 + k1 + k2, k3);
  }

  /** A neighbour kept only when it is on the board and holds `v`. */
  lemma KeepHolds(b: Board, p: Position, v: Cell, q: Position, keep: bool)
    requires Distance(p, q) == 1
    requires keep ==> InBounds(q) && At(b.grid, q) == v
    ensures AllNeighboursHold(b, p, v, Keep(q, keep))
  {
  }

  /** Every cell of `qs` is an in-bounds neighbour of `p` holding `v`. */
  predicate AllNeighboursHold(b: Board, p: Position, v: Cell, qs: seq<Position>)
  {
    forall i | 0 <= i < |qs| :: InBounds(qs[i]) && Distance(p, qs[i]) == 1 && At(b.grid, qs[i]) == v
  }

  /** Two runs of neighbours holding `v` concatenate to one. */
  lemma NeighboursConcat(b: Board, p: Position, v: Cell, xs: seq<Position>, ys: seq<Position>)
    requires AllNeighboursHold(b, p, v, xs) && AllNeighboursHold(b, p, v, ys)
    ensures AllNeighboursHold(b, p, v, xs + ys)
  {
    forall i | 0 <= i < |xs + ys|
      ensures InBounds((xs + ys)[i]) && Distance(p, (xs + ys)[i]) == 1 && At(b.grid, (xs + ys)[i]) == v
    {
      if i >= |xs| {
        assert (xs + ys)[i] == ys[i - |xs|];
      }
    }
  }

  /** With exact flags, every in-bounds neighbour holding `v` is kept. */
  lemma FourNeighboursComplete(b: Board, p: Position, v: Cell, q: Position, r: seq<Position>,
                               down: bool, up: bool, right: bool, left: bool)
    requires InBounds(q) && Distance(p, q) == 1 && At(b.grid, q) == v
    requires r == FourNeighbours(p, down, up, right, left)
    requires NeighbourFlags(b, p, v, down, up, right, left)
    ensures q in r
  {
    var k0, k1 := Keep(Position(p.row + 1, p.column), down), Keep(Position(p.row - 1, p.column), up);
    var k2, k3 := Keep(Position(p.row, p.column + 1), right), Keep(Position(p.row, p.column - 1), left);
    assert r == k0 + k1 + k2 + k3;
    if q.row == p.row + 1 {
      assert q == Position(p.row + 1, p.column) && q in k0;
    } else if q.row == p.row - 1 {
      assert q == Position(p.row - 1, p.column) && q in k1;
    } else if q.column == p.column + 1 {
      assert q == Position(p.row, p.column + 1) && q in k2;
    } else {
      assert q == Position(p.row, p.column - 1) && q in k3;
    }
  }

  /** The kept neighbours are in scan order. */
  lemma FourNeighboursSorted(p: Position, r: seq<Position>, down: bool, up: bool, right: bool, left: bool)
    requires r == FourNeighbours(p, down, up, right, left)
    ensures InScanOrder(p, r)
  {
    var three := Keep(Position(p.row + 1, p.column), down) + Keep(Position(p.row - 1, p.column), up)
                 + Keep(Position(p.row, p.column + 1), right);
    ThreeNeighboursSorted(p, down, up, right);
    NeighbourKeys(p);
    AppendInScanOrder(p, three, Position(p.row, p.column - 1), left);
    assert r == three + Keep(Position(p.row, p.column - 1), left);
  }

  /** The first three kept neighbours are in scan order, with keys at most 2. */
  lemma ThreeNeighboursSorted(p: Position, down: bool, up: bool, right: bool)
    ensures var r := Keep(Position(p.row + 1, p.column), down) + Keep(Position(p.row - 1, p.column), up)
                     + Keep(Position(p.row, p.column + 1), right);
      InScanOrder(p, r) && forall i | 0 <= i < |r| :: ScanKey(p, r[i]) <= 2
  {
    var two := Keep(Position(p.row + 1, p.column), down) + Keep(Position(p.row - 1, p.column), up);
    TwoNeighboursSorted(p, down, up);
    NeighbourKeys(p);
    AppendInScanOrder(p, two, Position(p.row, p.column + 1), right);
  }

  /** The first two kept neighbours are in scan order, with keys at most 1. */
  lemma TwoNeighboursSorted(p: Position, down: bool, up: bool)
    ensures var r := Keep(Position(p.row + 1, p.column), down) + Keep(Position(p.row - 1, p.column), up);
      InScanOrder(p, r) && forall i | 0 <= i < |r| :: ScanKey(p, r[i]) <= 1
  {
    var one := Keep(Position(p.row + 1, p.column), down);
    NeighbourKeys(p);
    assert forall i | 0 <= i < |one| :: ScanKey(p, one[i]) == 0;
    AppendInScanOrder(p, one, Position(p.row - 1, p.column), up);
  }

  /** Every cell a neighbour scan lists is an in-bounds neighbour holding `v`. */
  lemma NeighbourScanSound(b: Board, p: Position, v: Cell)
    requires InBounds(p)
    ensures var r := NeighbourProbes(b, p, v);
      forall i | 0 <= i < |r| :: InBounds(r[i]) && Distance(p, r[i]) == 1 && At(b.grid, r[i]) == v
  {
    ProbeFlags(b, p, v);
    FourNeighboursSound(b, p, v, NeighbourProbes(b, p, v),
                        Probe(b, Position(p.row + 1, p.column), 0 <= p.row < Rows - 1, v),
                        Probe(b, Position(p.row - 1, p.column), 0 < p.row <= Rows - 1, v),
                        Probe(b, Position(p.row, p.column + 1), 0 <= p.column < Columns - 1, v),
                        Probe(b, Position(p.row, p.column - 1), 0 < p.column <= Columns - 1, v));
  }

  /** Every in-bounds neighbour holding `v` is listed by the neighbour scan. */
  lemma NeighbourScanComplete(b: Board, p: Position, v: Cell, q: Position)
    requires InBounds(p) && InBounds(q) && Distance(p, q) == 1 && At(b.grid, q) == v
    ensures q in NeighbourProbes(b, p, v)
  {
    ProbeFlags(b, p, v);
    FourNeighboursComplete(b, p, v, q, NeighbourProbes(b, p, v),
                           Probe(b, Position(p.row + 1, p.column), 0 <= p.row < Rows - 1, v),
                           Probe(b, Position(p.row - 1, p.column), 0 < p.row <= Rows - 1, v),
                           Probe(b, Position(p.row, p.column + 1), 0 <= p.column < Columns - 1, v),
                           Probe(b, Position(p.row, p.column - 1), 0 < p.column <= Columns - 1, v));
  }

  /** A neighbour scan lists its cells in scan order. */
  lemma NeighbourScanSorted(b: Board, p: Position, v: Cell)
    ensures InScanOrder(p, NeighbourProbes(b, p, v))
  {
    FourNeighboursSorted(p, NeighbourProbes(b, p, v),
                         Probe(b, Position(p.row + 1, p.column), 0 <= p.row < Rows - 1, v),
                         Probe(b, Position(p.row - 1, p.column), 0 < p.row <= Rows - 1, v),
                         Probe(b, Position(p.row, p.column + 1), 0 <= p.column < Columns - 1, v),
                         Probe(b, Position(p.row, p.column - 1), 0 < p.column <= Columns - 1, v));
  }

  /** The four neighbours take the step keys 0 to 3. */
  lemma NeighbourKeys(p: Position)
    ensures ScanKey(p, Position(p.row + 1, p.column)) == 0
    ensures ScanKey(p, Position(p.row - 1, p.column)) == 1
    ensures ScanKey(p, Position(p.row, p.column + 1)) == 2
    ensures ScanKey(p, Position(p.row, p.column - 1)) == 3
  {
  }

  /** Keeping `y` or not after a list in scan order whose keys all lie below that of `y`. */
  lemma AppendInScanOrder(p: Position, xs: seq<Position>, y: Position, keep: bool)
    requires InScanOrder(p, xs)
    requires forall i | 0 <= i < |xs| :: ScanKey(p, xs[i]) < ScanKey(p, y)
    ensures InScanOrder(p, xs + Keep(y, keep))
    ensures forall i | 0 <= i < |xs + Keep(y, keep)| :: ScanKey(p, (xs + Keep(y, keep))[i]) <= ScanKey(p, y)
  {
    var r := xs + Keep(y, keep);
    forall i | 0 <= i < |r|
      ensures ScanKey(p, r[i]) <= ScanKey(p, y)
    {
      if i < |xs| {
        assert r[i] == xs[i];
      }
    }
    forall i, j | 0 <= i < j < |r|
      ensures ScanKey(p, r[i]) < ScanKey(p, r[j])
    {
      assert r[i] == xs[i];
      if j < |xs| {
        assert r[j] == xs[j];
      }
    }
  }

  /** The in-bounds neighbours of `p` holding `v`, in the order down, up, right, left. */
  function AdjacentSymbolCells(b: Board, p: Position, v: Cell): (r: seq<Position>)
    requires InBounds(p)
    ensures forall i | 0 <= i < |r| :: InBounds(r[i]) && Distance(p, r[i]) == 1 && At(b.grid, r[i]) == v
    ensures forall q | InBounds(q) && Distance(p, q) == 1 && At(b.grid, q) == v :: q in r
    ensures InScanOrder(p, r)
  {
    NeighbourScanSound(b, p, v);
    NeighbourScanSorted(b, p, v);
    forall q | InBounds(q) && Distance(p, q) == 1 && At(b.grid, q) == v
      ensures q in NeighbourProbes(b, p, v)
    {
      NeighbourScanComplete(b, p, v, q);
    }
    NeighbourProbes(b, p, v)
  }

  /** The reflection of `active` over `jumped`: one cell beyond `jumped`, seen from `active`. */
  function Mirror(active: Position, jumped: Position): Position
  {
    Position(2 * jumped.row - active.row, 2 * jumped.column - active.column)
  }

  /**
    The landing cell of a jump by `active` over `jumped`, when the two share a
    row or a column and the landing cell is on the board and holds
    `opponent`; None otherwise (a read off the board counts as no capture).
   */
  function CheckCanCapture(b: Board, active: Position, jumped: Position, opponent: Side): (r: Option<Position>)
    ensures r.Some? <==> (active.row == jumped.row || active.column == jumped.column)
                         && InBounds(Mirror(active, jumped)) && At(b.grid, Mirror(active, jumped)) == Piece(opponent)
    ensures r.Some? ==> r.value == Mirror(active, jumped)
  {
    if active.row == jumped.row then
      var step := active.column - jumped.column;
      var column := active.column - step * 2;
      match GetBoardSymbol(b, active.row, column)
      case Err(_) => None
      case Ok(c) => if c == Piece(opponent) then Some(Position(active.row, column)) else None
    else if active.column == jumped.column then
      var step := active.row - jumped.row;
      var row := active.row - step * 2;
      match GetBoardSymbol(b, row, active.column)
      case Err(_) => None
      case Ok(c) => if c == Piece(opponent) then Some(Position(row, active.column)) else None
    else
      None
  }

  /** Jumping over an adjacent cell lands two cells away, with that cell in between. */
  lemma MirrorOfNeighbour(p: Position, a: Position)
    requires Distance(p, a) == 1
    ensures TwoApart(p, Mirror(p, a)) && Between(p, Mirror(p, a)) == a
    ensures ScanKey(p, Mirror(p, a)) == 4 + ScanKey(p, a)
  {
  }

  /** The properties `CapturesVia` promises, for the landing cells `r` found among `adjacent`. */
  ghost predicate LandingsOf(b: Board, p: Position, adjacent: seq<Position>, opponent: Side, r: seq<Position>)
  {
    (forall x | x in r ::
       InBounds(x) && At(b.grid, x) == Piece(opponent) && TwoApart(p, x)
       && Between(p, x) in adjacent && ScanKey(p, x) == 4 + ScanKey(p, Between(p, x)))
    && (forall a | a in adjacent && InBounds(Mirror(p, a)) && At(b.grid, Mirror(p, a)) == Piece(opponent) ::
          Mirror(p, a) in r)
    && (InScanOrder(p, adjacent) ==> InScanOrder(p, r))
  }

  /** One step of `CapturesVia`: the landing of the first jump, if any, before those of the rest. */
  lemma CapturesViaStep(b: Board, p: Position, adjacent: seq<Position>, opponent: Side,
                        head: seq<Position>, rest: seq<Position>)
    requires adjacent != [] && forall a | a in adjacent :: Distance(p, a) == 1
    requires head == match CheckCanCapture(b, p, adjacent[0], opponent) case Some(q) => [q] case None => []
    requires LandingsOf(b, p, adjacent[1..], opponent, rest)
    ensures LandingsOf(b, p, adjacent, opponent, head + rest)
  {
    MirrorOfNeighbour(p, adjacent[0]);
    LandingsSound(b, p, adjacent, opponent, head, rest);
    LandingsComplete(b, p, adjacent, opponent, head, rest);
    LandingsOrdered(b, p, adjacent, opponent, head, rest);
  }

  lemma LandingsSound(b: Board, p: Position, adjacent: seq<Position>, opponent: Side,
                      head: seq<Position>, rest: seq<Position>)
    requires adjacent != [] && Distance(p, adjacent[0]) == 1
    requires TwoApart(p, Mirror(p, adjacent[0])) && Between(p, Mirror(p, adjacent[0])) == adjacent[0]
    requires ScanKey(p, Mirror(p, adjacent[0])) == 4 + ScanKey(p, adjacent[0])
    requires head == match CheckCanCapture(b, p, adjacent[0], opponent) case Some(q) => [q] case None => []
    requires forall x | x in rest ::
               InBounds(x) && At(b.grid, x) == Piece(opponent) && TwoApart(p, x)
               && Between(p, x) in adjacent[1..] && ScanKey(p, x) == 4 + ScanKey(p, Between(p, x))
    ensures forall x | x in head + rest ::
              InBounds(x) && At(b.grid, x) == Piece(opponent) && TwoApart(p, x)
              && Between(p, x) in adjacent && ScanKey(p, x) == 4 + ScanKey(p, Between(p, x))
  {
    assert forall a | a in adjacent[1..] :: a in adjacent;
  }

  lemma LandingsComplete(b: Board, p: Position, adjacent: seq<Position>, opponent: Side,
                         head: seq<Position>, rest: seq<Position>)
    requires adjacent != [] && Distance(p, adjacent[0]) == 1
    requires head == match CheckCanCapture(b, p, adjacent[0], opponent) case Some(q) => [q] case None => []
    requires forall a | a in adjacent[1..] && InBounds(Mirror(p, a)) && At(b.grid, Mirror(p, a)) == Piece(opponent) ::
               Mirror(p, a) in rest
    ensures forall a | a in adjacent && InBounds(Mirror(p, a)) && At(b.grid, Mirror(p, a)) == Piece(opponent) ::
              Mirror(p, a) in head + rest
  {
    forall a | a in adjacent && InBounds(Mirror(p, a)) && At(b.grid, Mirror(p, a)) == Piece(opponent)
      ensures Mirror(p, a) in head + rest
    {
      if a == adjacent[0] {
        assert CheckCanCapture(b, p, a, opponent) == Some(Mirror(p, a));
      } else {
        assert a in adjacent[1..];
      }
    }
  }

  lemma LandingsOrdered(b: Board, p: Position, adjacent: seq<Position>, opponent: Side,
                        head: seq<Position>, rest: seq<Position>)
    requires adjacent != [] && Distance(p, adjacent[0]) == 1
    requires ScanKey(p, Mirror(p, adjacent[0])) == 4 + ScanKey(p, adjacent[0])
    requires head == match CheckCanCapture(b, p, adjacent[0], opponent) case Some(q) => [q] case None => []
    requires forall x | x in rest :: Between(p, x) in adjacent[1..] && ScanKey(p, x) == 4 + ScanKey(p, Between(p, x))
    requires InScanOrder(p, adjacent[1..]) ==> InScanOrder(p, rest)
    ensures InScanOrder(p, adjacent) ==> InScanOrder(p, head + rest)
  {
    if InScanOrder(p, adjacent) {
      assert InScanOrder(p, adjacent[1..]);
      forall i, j | 0 <= i < |head| && 0 <= j < |rest|
        ensures ScanKey(p, head[i]) < ScanKey(p, rest[j])
      {
        var y := rest[j];
        assert y in rest;
        var k :| 0 <= k < |adjacent[1..]| && adjacent[1..][k] == Between(p, y);
        assert adjacent[1..][k] == adjacent[k + 1];
      }
      ConcatInScanOrder(p, head, rest);
    }
  }

  /** The landing cells of the jumps over each of `adjacent`, in order. */
  function CapturesVia(b: Board, p: Position, adjacent: seq<Position>, opponent: Side): (r: seq<Position>)
    requires forall a | a in adjacent :: Distance(p, a) == 1
    ensures LandingsOf(b, p, adjacent, opponent, r)
  {
    if adjacent == [] then []
    else
      assert forall a | a in adjacent[1..] :: a in adjacent;
      var rest := CapturesVia(b, p, adjacent[1..], opponent);
      var head := match CheckCanCapture(b, p, adjacent[0], opponent) case Some(q) => [q] case None => [];
      CapturesViaStep(b, p, adjacent, opponent, head, rest);
      head + rest
  }

  /** The landing cells of every capture the piece of `s` at `p` can make. */
  function FindCapturingMoves(b: Board, p: Position, s: Side): (r: seq<Position>)
    requires InBounds(p)
    ensures forall x | x in r :: InBounds(x) && IsCapture(b.grid, p, x, s) && 4 <= ScanKey(p, x)
    ensures forall q | InBounds(q) && IsCapture(b.grid, p, q, s) :: q in r
    ensures InScanOrder(p, r)
  {
    var adjacent := AdjacentSymbolCells(b, p, Piece(s));
    assert forall a | a in adjacent :: Distance(p, a) == 1 && At(b.grid, a) == Piece(s);
    var r := CapturesVia(b, p, adjacent, Opponent(s));
    FindCapturingMovesSpec(b, p, s, adjacent, r);
    r
  }

  lemma FindCapturingMovesSpec(b: Board, p: Position, s: Side, adjacent: seq<Position>, r: seq<Position>)
    requires InBounds(p)
    requires forall a | a in adjacent :: InBounds(a) && Distance(p, a) == 1 && At(b.grid, a) == Piece(s)
    requires forall q | InBounds(q) && Distance(p, q) == 1 && At(b.grid, q) == Piece(s) :: q in adjacent
    requires InScanOrder(p, adjacent)
    requires LandingsOf(b, p, adjacent, Opponent(s), r)
    ensures forall x | x in r :: InBounds(x) && IsCapture(b.grid, p, x, s) && 4 <= ScanKey(p, x)
    ensures forall q | InBounds(q) && IsCapture(b.grid, p, q, s) :: q in r
    ensures InScanOrder(p, r)
  {
    forall x | x in r
      ensures InBounds(x) && IsCapture(b.grid, p, x, s) && 4 <= ScanKey(p, x)
    {
      BetweenInBounds(p, x);
    }
    forall q | InBounds(q) && IsCapture(b.grid, p, q, s)
      ensures q in r
    {
      BetweenInBounds(p, q);
      var a := Between(p, q);
      assert Mirror(p, a) == q;
    }
  }

  /** Every move of the piece at `p`: its steps, then its captures. */
  function MovesOfPiece(b: Board, p: Position, s: Side): (r: seq<Position>)
    requires InBounds(p)
    ensures forall x | x in r :: InBounds(x) && (IsStep(b.grid, p, x) || IsCapture(b.grid, p, x, s))
    ensures forall q | InBounds(q) && (IsStep(b.grid, p, q) || IsCapture(b.grid, p, q, s)) :: q in r
    ensures InScanOrder(p, r)
  {
    var steps := AdjacentSymbolCells(b, p, Empty);
    var captures := FindCapturingMoves(b, p, s);
    MovesOfPieceSpec(b, p, s, steps, captures);
    steps + captures
  }

  lemma MovesOfPieceSpec(b: Board, p: Position, s: Side, steps: seq<Position>, captures: seq<Position>)
    requires InBounds(p)
    requires forall i | 0 <= i < |steps| :: InBounds(steps[i]) && Distance(p, steps[i]) == 1 && At(b.grid, steps[i]) == Empty
    requires forall q | InBounds(q) && Distance(p, q) == 1 && At(b.grid, q) == Empty :: q in steps
    requires InScanOrder(p, steps)
    requires forall x | x in captures :: InBounds(x) && IsCapture(b.grid, p, x, s) && 4 <= ScanKey(p, x)
    requires forall q | InBounds(q) && IsCapture(b.grid, p, q, s) :: q in captures
    requires InScanOrder(p, captures)
    ensures forall x | x in steps + captures :: InBounds(x) && (IsStep(b.grid, p, x) || IsCapture(b.grid, p, x, s))
    ensures forall q | InBounds(q) && (IsStep(b.grid, p, q) || IsCapture(b.grid, p, q, s)) :: q in steps + captures
    ensures InScanOrder(p, steps + captures)
  {
    assert forall x | x in steps :: ScanKey(p, x) < 4;
    ConcatInScanOrder(p, steps, captures);
  }

  /** `p` paired with each of `targets`. */
  function PairsFrom(p: Position, targets: seq<Position>): (r: seq<MovePair>)
    ensures |r| == |targets|
    ensures forall i | 0 <= i < |r| :: r[i] == MovePair(p, targets[i])
  {
    seq(|targets|, i requires 0 <= i < |targets| => MovePair(p, targets[i]))
  }

  /** Row-major order of moves: by the piece's index, then by scan key. */
  predicate MoveBefore(m: MovePair, n: MovePair)
  {
    Index(m.piece) < Index(n.piece)
    || (m.piece == n.piece && ScanKey(m.piece, m.target) < ScanKey(n.piece, n.target))
  }

  /** Moves in strictly increasing row-major order. */
  predicate InMoveOrder(r: seq<MovePair>)
  {
    forall i, j | 0 <= i < j < |r| :: MoveBefore(r[i], r[j])
  }

  /** The moves of the piece at `p`, each paired with `p`, are its legal moves in move order. */
  lemma PiecePairs(b: Board, s: Side, p: Position)
    requires InBounds(p) && At(b.grid, p) == Piece(s)
    ensures forall m | m in PairsFrom(p, MovesOfPiece(b, p, s)) ::
              m.piece == p && Legal(b.grid, m.piece, m.target, s)
    ensures forall target | Legal(b.grid, p, target, s) :: MovePair(p, target) in PairsFrom(p, MovesOfPiece(b, p, s))
    ensures InMoveOrder(PairsFrom(p, MovesOfPiece(b, p, s)))
  {
    var targets := MovesOfPiece(b, p, s);
    PairsSound(b, s, p, targets);
    PairsComplete(b, s, p, targets);
    PairsOrdered(p, targets);
  }

  lemma PairsSound(b: Board, s: Side, p: Position, targets: seq<Position>)
    requires InBounds(p) && At(b.grid, p) == Piece(s)
    requires forall x | x in targets :: InBounds(x) && (IsStep(b.grid, p, x) || IsCapture(b.grid, p, x, s))
    ensures forall m | m in PairsFrom(p, targets) :: m.piece == p && Legal(b.grid, m.piece, m.target, s)
  {
    var here := PairsFrom(p, targets);
    forall m | m in here
      ensures m.piece == p && Legal(b.grid, m.piece, m.target, s)
    {
      var i :| 0 <= i < |here| && here[i] == m;
      assert targets[i] in targets;
    }
  }

  lemma PairsComplete(b: Board, s: Side, p: Position, targets: seq<Position>)
    requires InBounds(p) && At(b.grid, p) == Piece(s)
    requires forall q | InBounds(q) && (IsStep(b.grid, p, q) || IsCapture(b.grid, p, q, s)) :: q in targets
    ensures forall target | Legal(b.grid, p, target, s) :: MovePair(p, target) in PairsFrom(p, targets)
  {
    var here := PairsFrom(p, targets);
    forall target | Legal(b.grid, p, target, s)
      ensures MovePair(p, target) in here
    {
      var i :| 0 <= i < |targets| && targets[i] == target;
      assert here[i] == MovePair(p, target);
    }
  }

  lemma PairsOrdered(p: Position, targets: seq<Position>)
    requires InScanOrder(p, targets)
    ensures InMoveOrder(PairsFrom(p, targets))
  {
  }

  /** One step of `MovesFrom`: the moves of the piece at index `k` before those of later pieces. */
  lemma MovesFromStep(b: Board, s: Side, k: nat, here: seq<MovePair>, rest: seq<MovePair>)
    requires k < CellCount && InBounds(PosOf(k)) && Index(PosOf(k)) == k
    requires here == if At(b.grid, PosOf(k)) == Piece(s) then PairsFrom(PosOf(k), MovesOfPiece(b, PosOf(k), s)) else []
    requires forall m | m in rest :: Legal(b.grid, m.piece, m.target, s) && k + 1 <= Index(m.piece)
    requires forall piece, target | Legal(b.grid, piece, target, s) && k + 1 <= Index(piece) ::
               MovePair(piece, target) in rest
    requires InMoveOrder(rest)
    ensures forall m | m in here + rest :: Legal(b.grid, m.piece, m.target, s) && k <= Index(m.piece)
    ensures forall piece, target | Legal(b.grid, piece, target, s) && k <= Index(piece) ::
              MovePair(piece, target) in here + rest
    ensures InMoveOrder(here + rest)
  {
    var p := PosOf(k);
    if At(b.grid, p) == Piece(s) {
      PiecePairs(b, s, p);
    }
    JoinSound(b, s, k, here, rest);
    JoinComplete(b, s, k, here, rest);
    JoinOrdered(k, here, rest);
  }

  lemma JoinSound(b: Board, s: Side, k: nat, here: seq<MovePair>, rest: seq<MovePair>)
    requires k < CellCount && Index(PosOf(k)) == k
    requires forall m | m in here :: m.piece == PosOf(k) && Legal(b.grid, m.piece, m.target, s)
    requires forall m | m in rest :: Legal(b.grid, m.piece, m.target, s) && k + 1 <= Index(m.piece)
    ensures forall m | m in here + rest :: Legal(b.grid, m.piece, m.target, s) && k <= Index(m.piece)
  {
  }

  lemma JoinComplete(b: Board, s: Side, k: nat, here: seq<MovePair>, rest: seq<MovePair>)
    requires k < CellCount && InBounds(PosOf(k)) && Index(PosOf(k)) == k
    requires forall target | Legal(b.grid, PosOf(k), target, s) :: MovePair(PosOf(k), target) in here
    requires forall piece, target | Legal(b.grid, piece, target, s) && k + 1 <= Index(piece) ::
               MovePair(piece, target) in rest
    ensures forall piece, target | Legal(b.grid, piece, target, s) && k <= Index(piece) ::
              MovePair(piece, target) in here + rest
  {
    forall piece, target | Legal(b.grid, piece, target, s) && k <= Index(piece)
      ensures MovePair(piece, target) in here + rest
    {
      IndexPosOf(piece);
      if Index(piece) == k {
        assert piece == PosOf(k);
      }
    }
  }

  lemma JoinOrdered(k: nat, here: seq<MovePair>, rest: seq<MovePair>)
    requires forall m | m in here :: Index(m.piece) == k
    requires forall m | m in rest :: k + 1 <= Index(m.piece)
    requires InMoveOrder(here) && InMoveOrder(rest)
    ensures InMoveOrder(here + rest)
  {
    var all := here + rest;
    forall i, j | 0 <= i < j < |all|
      ensures MoveBefore(all[i], all[j])
    {
      if j < |here| {
        assert all[i] == here[i] && all[j] == here[j];
      } else if i >= |here| {
        assert all[i] == rest[i - |here|] && all[j] == rest[j - |here|];
      } else {
        assert all[i] == here[i] && here[i] in here;
        assert all[j] == rest[j - |here|] && rest[j - |here|] in rest;
      }
    }
  }

  /** Every move of side `s` whose piece has row-major index at least `k`. */
  function MovesFrom(b: Board, s: Side, k: nat): (r: seq<MovePair>)
    ensures forall m | m in r :: Legal(b.grid, m.piece, m.target, s) && k <= Index(m.piece)
    ensures forall piece, target | Legal(b.grid, piece, target, s) && k <= Index(piece) ::
              MovePair(piece, target) in r
    ensures InMoveOrder(r)
    decreases CellCount - k
  {
    if k >= CellCount then
      forall piece, target | Legal(b.grid, piece, target, s) && k <= Index(piece)
        ensures false
      {
        IndexPosOf(piece);
      }
      []
    else
      PosOfIndex(k);
      var p := PosOf(k);
      var here := if At(b.grid, p) == Piece(s) then PairsFrom(p, MovesOfPiece(b, p, s)) else [];
      var rest := MovesFrom(b, s, k + 1);
      MovesFromStep(b, s, k, here, rest);
      here + rest
  }

  /**
    Every move of side `s`: for each piece in row-major order, its steps and
    then its captures, each in the order down, up, right, left.
   */
  function GetMovesOfPlayer(b: Board, s: Side): (r: seq<MovePair>)
    ensures forall m | m in r :: Legal(b.grid, m.piece, m.target, s)
    ensures forall piece, target | Legal(b.grid, piece, target, s) :: MovePair(piece, target) in r
    ensures InMoveOrder(r)
  {
    var r := MovesFrom(b, s, 0);
    forall piece, target | Legal(b.grid, piece, target, s)
      ensures MovePair(piece, target) in r
    {
      IndexPosOf(piece);
    }
    r
  }

  /** A generated move is one `Move` accepts, and `Move` accepts only generated moves. */
  lemma GeneratedMovesAreAccepted(b: Board, s: Side, piece: Position, target: Position)
    ensures MovePair(piece, target) in GetMovesOfPlayer(b, s) <==> Move(b, piece, target, s).Ok?
  {
  }

  /** Move generation comes back empty exactly when the side has no legal move. */
  lemma NoMoves(b: Board, s: Side)
    ensures GetMovesOfPlayer(b, s) == [] <==> forall p, q :: !Legal(b.grid, p, q, s)
  {
    var ms := GetMovesOfPlayer(b, s);
    if ms != [] {
      assert ms[0] in ms;
    }
  }

  /** The board after a generated move; the board itself if `Move` rejects it. */
  function Apply(b: Board, m: MovePair, s: Side): Board
  {
    match Move(b, m.piece, m.target, s)
    case Ok(next) => next
    case Err(_) => b
  }
}

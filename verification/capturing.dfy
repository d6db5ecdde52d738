/**
  The capturing computer strategy. Three row-major scans over the
  computer's pieces, each returning the first proposal it finds: a capture;
  else a step to an empty neighbour from which a capture would exist on the
  current board; else any step to an empty neighbour. When all three scans
  come back empty the strategy proposes nothing.
 */
module Capturing {
  import opened Wrappers
  import opened Grid
  import opened Rules
  import opened Moves

  // ---------------------------------------------------------------------
  // The first capture from one cell
  // ---------------------------------------------------------------------

  /** The landing cell of the first of the jumps over `adjacent` that captures a player piece. */
  function FirstLanding(b: Board, p: Position, adjacent: seq<Position>): Option<Position>
  {
    if adjacent == [] then None
    else
      match CheckCanCapture(b, p, adjacent[0], Player)
      case Some(q) => Some(q)
      case None => FirstLanding(b, p, adjacent[1..])
  }

  /** The first landing found is the head of the list of all landings. */
  lemma {:induction false} FirstLandingIsFirst(b: Board, p: Position, adjacent: seq<Position>)
    requires forall a | a in adjacent :: Distance(p, a) == 1
    ensures var all := CapturesVia(b, p, adjacent, Player);
            FirstLanding(b, p, adjacent) == if all == [] then None else Some(all[0])
  {
    if adjacent != [] {
      assert forall a | a in adjacent[1..] :: a in adjacent;
      FirstLandingIsFirst(b, p, adjacent[1..]);
    }
  }

  /**
    The landing cell of a capture a computer piece standing at `p` could
    make: the first in the order down, up, right, left; None exactly when
    there is none. `p` itself may be empty: the strategy also asks this of
    empty cells next to its pieces.
   */
  function FindCapturingMove(b: Board, p: Position): (r: Option<Position>)
    requires InBounds(p)
    ensures r.Some? ==> InBounds(r.value) && IsCapture(b.grid, p, r.value, Computer)
    ensures r.None? <==> forall q | InBounds(q) :: !IsCapture(b.grid, p, q, Computer)
    ensures r.Some? ==> forall q | InBounds(q) && IsCapture(b.grid, p, q, Computer) :: ScanKey(p, r.value) <= ScanKey(p, q)
  {
    var adjacent := AdjacentSymbolCells(b, p, Piece(Computer));
    FirstLandingIsFirst(b, p, adjacent);
    var all := FindCapturingMoves(b, p, Computer);
    FirstOfScan(p, all);
    FirstLanding(b, p, adjacent)
  }

  /** The head of a list in scan order has the least key of the list. */
  lemma FirstOfScan(p: Position, qs: seq<Position>)
    requires InScanOrder(p, qs)
    ensures forall q | q in qs :: ScanKey(p, qs[0]) <= ScanKey(p, q)
  {
    forall q | q in qs
      ensures ScanKey(p, qs[0]) <= ScanKey(p, q)
    {
      var i :| 0 <= i < |qs| && qs[i] == q;
    }
  }

  // ---------------------------------------------------------------------
  // First-match scans
  // ---------------------------------------------------------------------

  /** The position in `cells` of the first that is `good`, or `|cells|` if there is none. */
  function FirstGood(cells: seq<Position>, good: Position -> bool): (i: nat)
    ensures i <= |cells|
    ensures i < |cells| ==> good(cells[i])
    ensures forall j | 0 <= j < i :: !good(cells[j])
  {
    if cells == [] || good(cells[0]) then 0
    else
      var i := FirstGood(cells[1..], good);
      assert forall j | 1 <= j <= i :: cells[1..][j - 1] == cells[j];
      i + 1
  }

  /** Over cells in scan order, the first good one has the least key of all good ones. */
  lemma FirstGoodIsLeast(p: Position, cells: seq<Position>, good: Position -> bool, q: Position)
    requires InScanOrder(p, cells)
    requires q in cells && good(q)
    ensures FirstGood(cells, good) < |cells| && ScanKey(p, cells[FirstGood(cells, good)]) <= ScanKey(p, q)
  {
    var j :| 0 <= j < |cells| && cells[j] == q;
  }

  /** The first row-major index from `k` on at which `probe` makes a proposal, or `CellCount` if there is none. */
  function FirstIndex(probe: int -> Option<MovePair>, k: nat): (i: nat)
    requires k <= CellCount
    ensures k <= i <= CellCount
    ensures i < CellCount ==> probe(i).Some?
    ensures forall j | k <= j < i :: probe(j).None?
    decreases CellCount - k
  {
    if k == CellCount || probe(k).Some? then k else FirstIndex(probe, k + 1)
  }

  /** The first proposal `probe` makes in a row-major scan of the cells. */
  function Scan(probe: int -> Option<MovePair>): (r: Option<MovePair>)
    ensures r.Some? <==> FirstIndex(probe, 0) < CellCount
    ensures r.Some? ==> r == probe(FirstIndex(probe, 0))
  {
    var i := FirstIndex(probe, 0);
    if i < CellCount then probe(i) else None
  }

  /**
    A scan reaches the cell of `p` when the probe there proposes a move from
    `p` no later than `q`: it proposes a move from an earlier cell, or that one.
   */
  lemma ScanReaches(probe: int -> Option<MovePair>, p: Position, q: Position)
    requires 0 <= Index(p) < CellCount && probe(Index(p)).Some? && probe(Index(p)).value.piece == p
    requires ScanKey(p, probe(Index(p)).value.target) <= ScanKey(p, q)
    requires Scan(probe).Some? ==> Index(Scan(probe).value.piece) == FirstIndex(probe, 0)
    ensures Scan(probe).Some?
    ensures Index(Scan(probe).value.piece) < Index(p)
            || (p == Scan(probe).value.piece && ScanKey(p, Scan(probe).value.target) <= ScanKey(p, q))
  {
  }

  // ---------------------------------------------------------------------
  // What each scan proposes for one cell
  // ---------------------------------------------------------------------

  /** The cell at row-major index `k` holds a computer piece. */
  predicate ComputerAt(b: Board, k: int)
    ensures ComputerAt(b, k) ==> 0 <= k < CellCount && InBounds(PosOf(k)) && At(b.grid, PosOf(k)) == Piece(Computer)
  {
    GetBoardSymbol(b, PosOf(k).row, PosOf(k).column) == Ok(Piece(Computer))
  }

  /** A computer piece is found by the scans at its row-major index. */
  lemma ComputerAtIndex(b: Board, p: Position)
    requires InBounds(p) && At(b.grid, p) == Piece(Computer)
    ensures 0 <= Index(p) < CellCount && PosOf(Index(p)) == p && ComputerAt(b, Index(p))
  {
    IndexPosOf(p);
  }

  /** A computer piece standing at `q` could capture, on the board as it is. */
  ghost predicate CouldCaptureFrom(b: Board, q: Position)
  {
    InBounds(q) && exists t | InBounds(t) :: IsCapture(b.grid, q, t, Computer)
  }

  /** First scan, at index `k`: the computer piece there and the landing of its first capture. */
  function CaptureProbe(b: Board, k: int): (r: Option<MovePair>)
    ensures r.Some? ==> ComputerAt(b, k) && r.value.piece == PosOf(k)
                        && InBounds(r.value.target) && IsCapture(b.grid, r.value.piece, r.value.target, Computer)
    ensures r.Some? ==> forall q | InBounds(q) && IsCapture(b.grid, PosOf(k), q, Computer) ::
                          ScanKey(PosOf(k), r.value.target) <= ScanKey(PosOf(k), q)
    ensures r.None? <==> !ComputerAt(b, k) || forall q | InBounds(q) :: !IsCapture(b.grid, PosOf(k), q, Computer)
  {
    if ComputerAt(b, k) then
      match FindCapturingMove(b, PosOf(k))
      case Some(landing) => Some(MovePair(PosOf(k), landing))
      case None => None
    else None
  }

  /**
    Second scan, at index `k`: the computer piece there and the first of its
    empty neighbours from which, on the board as it is, a computer piece
    could capture.
   */
  function PrepareProbe(b: Board, k: int): (r: Option<MovePair>)
    ensures r.Some? ==> ComputerAt(b, k) && r.value.piece == PosOf(k)
                        && InBounds(r.value.target) && IsStep(b.grid, r.value.piece, r.value.target)
                        && CouldCaptureFrom(b, r.value.target)
    ensures r.Some? ==> forall q | InBounds(q) && IsStep(b.grid, PosOf(k), q) && CouldCaptureFrom(b, q) ::
                          ScanKey(PosOf(k), r.value.target) <= ScanKey(PosOf(k), q)
    ensures r.None? <==> !ComputerAt(b, k)
                         || forall q | InBounds(q) && IsStep(b.grid, PosOf(k), q) :: !CouldCaptureFrom(b, q)
  {
    if ComputerAt(b, k) then
      var p := PosOf(k);
      var empty := AdjacentSymbolCells(b, p, Empty);
      var promising := cell => InBounds(cell) && FindCapturingMove(b, cell).Some?;
      var i := FirstGood(empty, promising);
      PrepareProbeSpec(b, p, empty, promising, i);
      if i < |empty| then Some(MovePair(p, empty[i])) else None
    else None
  }

  lemma PrepareProbeSpec(b: Board, p: Position, empty: seq<Position>, promising: Position -> bool, i: nat)
    requires InBounds(p) && empty == AdjacentSymbolCells(b, p, Empty)
    requires forall cell :: promising(cell) == (InBounds(cell) && FindCapturingMove(b, cell).Some?)
    requires i == FirstGood(empty, promising)
    ensures i < |empty| ==> InBounds(empty[i]) && IsStep(b.grid, p, empty[i]) && CouldCaptureFrom(b, empty[i])
    ensures i < |empty| ==> forall q | InBounds(q) && IsStep(b.grid, p, q) && CouldCaptureFrom(b, q) ::
                              ScanKey(p, empty[i]) <= ScanKey(p, q)
    ensures i == |empty| <==> forall q | InBounds(q) && IsStep(b.grid, p, q) :: !CouldCaptureFrom(b, q)
  {
    if i < |empty| {
      Promising(b, empty[i]);
    }
    forall q | InBounds(q) && IsStep(b.grid, p, q) && CouldCaptureFrom(b, q)
      ensures i < |empty| && ScanKey(p, empty[i]) <= ScanKey(p, q)
    {
      PrepareProbeFirst(b, p, empty, promising, i, q);
    }
  }

  lemma PrepareProbeFirst(b: Board, p: Position, empty: seq<Position>, promising: Position -> bool, i: nat, q: Position)
    requires InBounds(p) && empty == AdjacentSymbolCells(b, p, Empty)
    requires forall cell :: promising(cell) == (InBounds(cell) && FindCapturingMove(b, cell).Some?)
    requires i == FirstGood(empty, promising)
    requires InBounds(q) && IsStep(b.grid, p, q) && CouldCaptureFrom(b, q)
    ensures i < |empty| && ScanKey(p, empty[i]) <= ScanKey(p, q)
  {
    Promising(b, q);
    assert q in empty;
    FirstGoodIsLeast(p, empty, promising, q);
  }

  /** The cells the second scan accepts are those from which a capture exists. */
  lemma Promising(b: Board, q: Position)
    requires InBounds(q)
    ensures FindCapturingMove(b, q).Some? <==> CouldCaptureFrom(b, q)
  {
  }

  /** Third scan, at index `k`: the computer piece there and its first empty neighbour. */
  function StepProbe(b: Board, k: int): (r: Option<MovePair>)
    ensures r.Some? ==> ComputerAt(b, k) && r.value.piece == PosOf(k)
                        && InBounds(r.value.target) && IsStep(b.grid, r.value.piece, r.value.target)
    ensures r.Some? ==> forall q | InBounds(q) && IsStep(b.grid, PosOf(k), q) ::
                          ScanKey(PosOf(k), r.value.target) <= ScanKey(PosOf(k), q)
    ensures r.None? <==> !ComputerAt(b, k) || forall q | InBounds(q) :: !IsStep(b.grid, PosOf(k), q)
  {
    if ComputerAt(b, k) then
      var p := PosOf(k);
      var empty := AdjacentSymbolCells(b, p, Empty);
      FirstOfScan(p, empty);
      if |empty| != 0 then Some(MovePair(p, empty[0]))
      else None
    else None
  }

  // ---------------------------------------------------------------------
  // The three scans
  // ---------------------------------------------------------------------

  /**
    First scan: a capture by the computer, from the first piece in row-major
    order that has one, to the first landing in the order down, up, right,
    left; None exactly when the computer has no capture.
   */
  function FirstCapture(b: Board): (r: Option<MovePair>)
    ensures r.Some? ==> Legal(b.grid, r.value.piece, r.value.target, Computer)
                        && IsCapture(b.grid, r.value.piece, r.value.target, Computer)
    ensures r.Some? ==> forall p, q | Legal(b.grid, p, q, Computer) && IsCapture(b.grid, p, q, Computer) ::
                          Index(r.value.piece) < Index(p)
                          || (p == r.value.piece && ScanKey(p, r.value.target) <= ScanKey(p, q))
    ensures r.None? <==> forall p, q | Legal(b.grid, p, q, Computer) :: !IsCapture(b.grid, p, q, Computer)
  {
    var probe := k => CaptureProbe(b, k);
    var r := Scan(probe);
    FirstCaptureSpec(b, probe, r);
    r
  }

  lemma FirstCaptureSpec(b: Board, probe: int -> Option<MovePair>, r: Option<MovePair>)
    requires forall k :: probe(k) == CaptureProbe(b, k)
    requires r == Scan(probe)
    ensures r.Some? ==> Legal(b.grid, r.value.piece, r.value.target, Computer)
                        && IsCapture(b.grid, r.value.piece, r.value.target, Computer)
    ensures r.Some? ==> forall p, q | Legal(b.grid, p, q, Computer) && IsCapture(b.grid, p, q, Computer) ::
                          Index(r.value.piece) < Index(p)
                          || (p == r.value.piece && ScanKey(p, r.value.target) <= ScanKey(p, q))
    ensures r.None? <==> forall p, q | Legal(b.grid, p, q, Computer) :: !(IsCapture(b.grid, p, q, Computer))
  {
    if r.Some? {
      CaptureScanFound(b, probe, r.value);
    }
    forall p, q | Legal(b.grid, p, q, Computer) && IsCapture(b.grid, p, q, Computer)
      ensures r.Some? && (Index(r.value.piece) < Index(p)
                          || (p == r.value.piece && ScanKey(p, r.value.target) <= ScanKey(p, q)))
    {
      CaptureScanFirst(b, probe, p, q);
    }
  }

  lemma CaptureScanFound(b: Board, probe: int -> Option<MovePair>, m: MovePair)
    requires forall k :: probe(k) == CaptureProbe(b, k)
    requires Scan(probe) == Some(m)
    ensures Legal(b.grid, m.piece, m.target, Computer) && IsCapture(b.grid, m.piece, m.target, Computer)
    ensures Index(m.piece) == FirstIndex(probe, 0)
  {
    PosOfIndex(FirstIndex(probe, 0));
  }

  lemma CaptureScanFirst(b: Board, probe: int -> Option<MovePair>, p: Position, q: Position)
    requires forall k :: probe(k) == CaptureProbe(b, k)
    requires Legal(b.grid, p, q, Computer) && IsCapture(b.grid, p, q, Computer)
    ensures Scan(probe).Some?
    ensures Index(Scan(probe).value.piece) < Index(p)
            || (p == Scan(probe).value.piece && ScanKey(p, Scan(probe).value.target) <= ScanKey(p, q))
  {
    CaptureProbeAt(b, p, q);
    if Scan(probe).Some? {
      CaptureScanFound(b, probe, Scan(probe).value);
    }
    ScanReaches(probe, p, q);
  }

  /** The probe at the cell of `p` proposes a move from `p` no later in scan order than the one to `q`. */
  lemma CaptureProbeAt(b: Board, p: Position, q: Position)
    requires Legal(b.grid, p, q, Computer) && IsCapture(b.grid, p, q, Computer)
    ensures 0 <= Index(p) < CellCount && CaptureProbe(b, Index(p)).Some? && CaptureProbe(b, Index(p)).value.piece == p
    ensures ScanKey(p, CaptureProbe(b, Index(p)).value.target) <= ScanKey(p, q)
  {
    ComputerAtIndex(b, p);
  }

  /**
    Second scan: a step by the computer to an empty neighbour from which,
    on the board as it is, a computer piece could capture; from the first
    piece in row-major order that has one, to the first such neighbour in
    the order down, up, right, left; None exactly when there is no such step.
   */
  function FirstPreparation(b: Board): (r: Option<MovePair>)
    ensures r.Some? ==> Legal(b.grid, r.value.piece, r.value.target, Computer)
                        && IsStep(b.grid, r.value.piece, r.value.target) && CouldCaptureFrom(b, r.value.target)
    ensures r.Some? ==> forall p, q | Legal(b.grid, p, q, Computer) && IsStep(b.grid, p, q) && CouldCaptureFrom(b, q) ::
                          Index(r.value.piece) < Index(p)
                          || (p == r.value.piece && ScanKey(p, r.value.target) <= ScanKey(p, q))
    ensures r.None? <==> forall p, q | Legal(b.grid, p, q, Computer) && IsStep(b.grid, p, q) :: !CouldCaptureFrom(b, q)
  {
    var probe := k => PrepareProbe(b, k);
    var r := Scan(probe);
    FirstPreparationSpec(b, probe, r);
    r
  }

  lemma FirstPreparationSpec(b: Board, probe: int -> Option<MovePair>, r: Option<MovePair>)
    requires forall k :: probe(k) == PrepareProbe(b, k)
    requires r == Scan(probe)
    ensures r.Some? ==> Legal(b.grid, r.value.piece, r.value.target, Computer)
                        && IsStep(b.grid, r.value.piece, r.value.target) && CouldCaptureFrom(b, r.value.target)
    ensures r.Some? ==> forall p, q | Legal(b.grid, p, q, Computer) && IsStep(b.grid, p, q) && CouldCaptureFrom(b, q) ::
                          Index(r.value.piece) < Index(p)
                          || (p == r.value.piece && ScanKey(p, r.value.target) <= ScanKey(p, q))
    ensures r.None? <==> forall p, q | Legal(b.grid, p, q, Computer) :: !(IsStep(b.grid, p, q) && CouldCaptureFrom(b, q))
  {
    if r.Some? {
      PrepareScanFound(b, probe, r.value);
    }
    forall p, q | Legal(b.grid, p, q, Computer) && IsStep(b.grid, p, q) && CouldCaptureFrom(b, q)
      ensures r.Some? && (Index(r.value.piece) < Index(p)
                          || (p == r.value.piece && ScanKey(p, r.value.target) <= ScanKey(p, q)))
    {
      PrepareScanFirst(b, probe, p, q);
    }
  }

  lemma PrepareScanFound(b: Board, probe: int -> Option<MovePair>, m: MovePair)
    requires forall k :: probe(k) == PrepareProbe(b, k)
    requires Scan(probe) == Some(m)
    ensures Legal(b.grid, m.piece, m.target, Computer) && IsStep(b.grid, m.piece, m.target) && CouldCaptureFrom(b, m.target)
    ensures Index(m.piece) == FirstIndex(probe, 0)
  {
    PosOfIndex(FirstIndex(probe, 0));
  }

  lemma PrepareScanFirst(b: Board, probe: int -> Option<MovePair>, p: Position, q: Position)
    requires forall k :: probe(k) == PrepareProbe(b, k)
    requires Legal(b.grid, p, q, Computer) && IsStep(b.grid, p, q) && CouldCaptureFrom(b, q)
    ensures Scan(probe).Some?
    ensures Index(Scan(probe).value.piece) < Index(p)
            || (p == Scan(probe).value.piece && ScanKey(p, Scan(probe).value.target) <= ScanKey(p, q))
  {
    PrepareProbeAt(b, p, q);
    if Scan(probe).Some? {
      PrepareScanFound(b, probe, Scan(probe).value);
    }
    ScanReaches(probe, p, q);
  }

  /** The probe at the cell of `p` proposes a move from `p` no later in scan order than the one to `q`. */
  lemma PrepareProbeAt(b: Board, p: Position, q: Position)
    requires Legal(b.grid, p, q, Computer) && IsStep(b.grid, p, q) && CouldCaptureFrom(b, q)
    ensures 0 <= Index(p) < CellCount && PrepareProbe(b, Index(p)).Some? && PrepareProbe(b, Index(p)).value.piece == p
    ensures ScanKey(p, PrepareProbe(b, Index(p)).value.target) <= ScanKey(p, q)
  {
    ComputerAtIndex(b, p);
  }

  /**
    Third scan: a step by the computer, from the first piece in row-major
    order that has an empty neighbour, to the first such neighbour in the
    order down, up, right, left; None exactly when the computer cannot step.
   */
  function FirstStep(b: Board): (r: Option<MovePair>)
    ensures r.Some? ==> Legal(b.grid, r.value.piece, r.value.target, Computer)
                        && IsStep(b.grid, r.value.piece, r.value.target)
    ensures r.Some? ==> forall p, q | Legal(b.grid, p, q, Computer) && IsStep(b.grid, p, q) ::
                          Index(r.value.piece) < Index(p)
                          || (p == r.value.piece && ScanKey(p, r.value.target) <= ScanKey(p, q))
    ensures r.None? <==> forall p, q | Legal(b.grid, p, q, Computer) :: !IsStep(b.grid, p, q)
  {
    var probe := k => StepProbe(b, k);
    var r := Scan(probe);
    FirstStepSpec(b, probe, r);
    r
  }

  lemma FirstStepSpec(b: Board, probe: int -> Option<MovePair>, r: Option<MovePair>)
    requires forall k :: probe(k) == StepProbe(b, k)
    requires r == Scan(probe)
    ensures r.Some? ==> Legal(b.grid, r.value.piece, r.value.target, Computer)
                        && IsStep(b.grid, r.value.piece, r.value.target)
    ensures r.Some? ==> forall p, q | Legal(b.grid, p, q, Computer) && IsStep(b.grid, p, q) ::
                          Index(r.value.piece) < Index(p)
                          || (p == r.value.piece && ScanKey(p, r.value.target) <= ScanKey(p, q))
    ensures r.None? <==> forall p, q | Legal(b.grid, p, q, Computer) :: !(IsStep(b.grid, p, q))
  {
    if r.Some? {
      StepScanFound(b, probe, r.value);
    }
    forall p, q | Legal(b.grid, p, q, Computer) && IsStep(b.grid, p, q)
      ensures r.Some? && (Index(r.value.piece) < Index(p)
                          || (p == r.value.piece && ScanKey(p, r.value.target) <= ScanKey(p, q)))
    {
      StepScanFirst(b, probe, p, q);
    }
  }

  lemma StepScanFound(b: Board, probe: int -> Option<MovePair>, m: MovePair)
    requires forall k :: probe(k) == StepProbe(b, k)
    requires Scan(probe) == Some(m)
    ensures Legal(b.grid, m.piece, m.target, Computer) && IsStep(b.grid, m.piece, m.target)
    ensures Index(m.piece) == FirstIndex(probe, 0)
  {
    PosOfIndex(FirstIndex(probe, 0));
  }

  lemma StepScanFirst(b: Board, probe: int -> Option<MovePair>, p: Position, q: Position)
    requires forall k :: probe(k) == StepProbe(b, k)
    requires Legal(b.grid, p, q, Computer) && IsStep(b.grid, p, q)
    ensures Scan(probe).Some?
    ensures Index(Scan(probe).value.piece) < Index(p)
            || (p == Scan(probe).value.piece && ScanKey(p, Scan(probe).value.target) <= ScanKey(p, q))
  {
    StepProbeAt(b, p, q);
    if Scan(probe).Some? {
      StepScanFound(b, probe, Scan(probe).value);
    }
    ScanReaches(probe, p, q);
  }

  /** The probe at the cell of `p` proposes a move from `p` no later in scan order than the one to `q`. */
  lemma StepProbeAt(b: Board, p: Position, q: Position)
    requires Legal(b.grid, p, q, Computer) && IsStep(b.grid, p, q)
    ensures 0 <= Index(p) < CellCount && StepProbe(b, Index(p)).Some? && StepProbe(b, Index(p)).value.piece == p
    ensures ScanKey(p, StepProbe(b, Index(p)).value.target) <= ScanKey(p, q)
  {
    ComputerAtIndex(b, p);
  }

  // ---------------------------------------------------------------------
  // The strategy
  // ---------------------------------------------------------------------

  /**
    The proposal of the capturing strategy: the first of the three scans
    that finds one decides. Every proposal is a legal computer move, there is
    one exactly when the computer has a legal move, it is a capture whenever
    a capture exists, and otherwise a preparing step whenever one exists;
    within each tier it is the row-major-first candidate.
   */
  function GetMove(b: Board): (r: Option<MovePair>)
    ensures r.Some? ==> Legal(b.grid, r.value.piece, r.value.target, Computer)
    ensures r.None? <==> forall p, q :: !Legal(b.grid, p, q, Computer)
    ensures (exists p, q :: Legal(b.grid, p, q, Computer) && IsCapture(b.grid, p, q, Computer)) ==>
              r.Some? && IsCapture(b.grid, r.value.piece, r.value.target, Computer)
    ensures (forall p, q | Legal(b.grid, p, q, Computer) :: !IsCapture(b.grid, p, q, Computer))
            && (exists p, q :: Legal(b.grid, p, q, Computer) && IsStep(b.grid, p, q) && CouldCaptureFrom(b, q)) ==>
              r.Some? && IsStep(b.grid, r.value.piece, r.value.target) && CouldCaptureFrom(b, r.value.target)
    ensures FirstCapture(b).Some? ==> r == FirstCapture(b)
    ensures FirstCapture(b).None? && FirstPreparation(b).Some? ==> r == FirstPreparation(b)
    ensures FirstCapture(b).None? && FirstPreparation(b).None? ==> r == FirstStep(b)
  {
    var capture := FirstCapture(b);
    if capture.Some? then capture
    else
      var preparation := FirstPreparation(b);
      if preparation.Some? then preparation
      else FirstStep(b)
  }

  /**
    The capturing strategy proposes a move exactly when move generation
    finds one for the computer, and its proposal is among those moves.
   */
  lemma GetMoveAgreesWithMoveGeneration(b: Board)
    ensures GetMove(b).None? <==> GetMovesOfPlayer(b, Computer) == []
    ensures GetMove(b).Some? ==> GetMove(b).value in GetMovesOfPlayer(b, Computer)
  {
    NoMoves(b, Computer);
  }

  /**
    A capture the first scan proposes is one `Move` accepts, and it removes
    one player piece while the computer keeps all of its own.
   */
  lemma FirstCaptureLowersPlayerCount(b: Board)
    requires FirstCapture(b).Some?
    ensures var m := FirstCapture(b).value;
            Move(b, m.piece, m.target, Computer).Ok?
            && Move(b, m.piece, m.target, Computer).value.Pieces(Player) == b.Pieces(Player) - 1
            && Move(b, m.piece, m.target, Computer).value.Pieces(Computer) == b.Pieces(Computer)
  {
    var m := FirstCapture(b).value;
    MoveCounts(b, m.piece, m.target, Computer);
  }

  /**
    The second scan judges a step on the board as it is, before the step:
    the moving piece itself may be the piece a later capture would jump
    over. Such a step is accepted, yet once it is made that capture is gone,
    since the cell it jumps over has been vacated.
   */
  lemma PreparationMayJumpTheMover(b: Board, p: Position, e: Position)
    requires InBounds(p) && InBounds(e) && At(b.grid, p) == Piece(Computer) && IsStep(b.grid, p, e)
    requires InBounds(Mirror(e, p)) && At(b.grid, Mirror(e, p)) == Piece(Player)
    ensures CouldCaptureFrom(b, e)
    ensures Move(b, p, e, Computer).Ok?
    ensures !IsCapture(Move(b, p, e, Computer).value.grid, e, Mirror(e, p), Computer)
  {
    MirrorOfNeighbour(e, p);
    assert IsCapture(b.grid, e, Mirror(e, p), Computer);
  }
}

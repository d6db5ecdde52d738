/**
  The game-tree search of the intelligent strategy over Kono positions. The
  computer maximises, the player minimises; a position won by the computer is
  worth plus infinity, one won by the player minus infinity, and a position at
  the depth limit is worth its static evaluation. Both searches are defined
  on the game tree of the position, whose nodes are the boards the Python
  search visits, in the order it visits them.
 */
module Search {
  import opened Grid
  import opened Rules
  import opened Moves
  import opened Evaluation
  import opened Values
  import Trees

  /** How many plies the search looks ahead after each candidate move. */
  const TargetDepth: nat := 5

  /** The side to move at a maximising or a minimising node. */
  function Mover(maximizing: bool): Side
  {
    if maximizing then Computer else Player
  }

  /** A position the search does not expand: won by either side, or at the depth limit. */
  predicate Terminal(b: Board, depth: nat)
  {
    depth == 0 || IsBoardWon(b, Computer) || IsBoardWon(b, Player)
  }

  /**
    The value of a position the search does not expand, checked in the order
    the search tests: won by the computer, won by the player, at the depth limit.
   */
  function LeafValue(b: Board, depth: nat): Value
    requires Terminal(b, depth)
  {
    if IsBoardWon(b, Computer) then PosInf
    else if IsBoardWon(b, Player) then NegInf
    else Finite(EvaluationValue(b))
  }

  // ---------------------------------------------------------------------
  // The game tree and its minimax value: the reference
  // ---------------------------------------------------------------------

  /**
    The game tree of `b` cut off `depth` plies deep: the terminal tests in the
    order the search makes them, then one subtree per move of the side to
    move, in move-generation order.
   */
  function GameTree(b: Board, depth: nat, maximizing: bool): Trees.Tree
    decreases depth, 1
  {
    if Terminal(b, depth) then Trees.Leaf(LeafValue(b, depth))
    else Trees.Node(maximizing, Subtrees(b, GetMovesOfPlayer(b, Mover(maximizing)), depth - 1, maximizing))
  }

  /** The game trees of the positions after each of `ms`, played by the side to move. */
  function Subtrees(b: Board, ms: seq<MovePair>, d: nat, maximizing: bool): (kids: seq<Trees.Tree>)
    ensures |kids| == |ms|
    ensures forall i | 0 <= i < |ms| :: kids[i] == GameTree(Apply(b, ms[i], Mover(maximizing)), d, !maximizing)
    decreases d, 2, |ms|
  {
    if ms == [] then []
    else [GameTree(Apply(b, ms[0], Mover(maximizing)), d, !maximizing)] + Subtrees(b, ms[1..], d, maximizing)
  }

  /** The minimax value of `b` searched `depth` plies deep. */
  function Minimax(b: Board, depth: nat, maximizing: bool): Value
  {
    Trees.Minimax(GameTree(b, depth, maximizing))
  }

  /** One level of the game tree. */
  lemma GameTreeUnfold(b: Board, depth: nat, maximizing: bool)
    ensures Terminal(b, depth) ==> GameTree(b, depth, maximizing) == Trees.Leaf(LeafValue(b, depth))
    ensures !Terminal(b, depth) ==>
      GameTree(b, depth, maximizing)
      == Trees.Node(maximizing, Subtrees(b, GetMovesOfPlayer(b, Mover(maximizing)), depth - 1, maximizing))
  {
  }

  /**
    The searches stop at a won position and at the depth limit, whatever the
    window: a computer win is worth plus infinity, then a player win minus
    infinity, then the static evaluation.
   */
  lemma LeafValues(b: Board, depth: nat, alpha: Value, beta: Value, maximizing: bool)
    requires Terminal(b, depth)
    ensures Minimax(b, depth, maximizing) == LeafValue(b, depth)
    ensures AlphaBeta(b, depth, alpha, beta, maximizing) == LeafValue(b, depth)
    ensures IsBoardWon(b, Computer) ==> Minimax(b, depth, maximizing) == PosInf
    ensures !IsBoardWon(b, Computer) && IsBoardWon(b, Player) ==> Minimax(b, depth, maximizing) == NegInf
    ensures !IsBoardWon(b, Computer) && !IsBoardWon(b, Player) ==> Minimax(b, depth, maximizing) == Finite(EvaluationValue(b))
  {
    GameTreeUnfold(b, depth, maximizing);
  }

  /**
    At a position the search expands, the minimax value of a computer node
    is at least that of each child and that of a player node at most that of
    each child.
   */
  lemma MinimaxBoundsChildren(b: Board, depth: nat, maximizing: bool, i: nat)
    requires !Terminal(b, depth)
    requires i < |GetMovesOfPlayer(b, Mover(maximizing))|
    ensures
      var child := Minimax(Apply(b, GetMovesOfPlayer(b, Mover(maximizing))[i], Mover(maximizing)), depth - 1, !maximizing);
      if maximizing then Le(child, Minimax(b, depth, maximizing)) else Le(Minimax(b, depth, maximizing), child)
  {
    GameTreeUnfold(b, depth, maximizing);
    Trees.NodeIsBest(GameTree(b, depth, maximizing));
  }

  /**
    A side to move without any move is worth minus infinity to the computer
    and plus infinity to the player, at a position the search expands.
   */
  lemma MinimaxWithoutMoves(b: Board, depth: nat, maximizing: bool)
    requires !Terminal(b, depth) && GetMovesOfPlayer(b, Mover(maximizing)) == []
    ensures Minimax(b, depth, maximizing) == if maximizing then NegInf else PosInf
  {
    GameTreeUnfold(b, depth, maximizing);
    Trees.NodeIsBest(GameTree(b, depth, maximizing));
  }

  // ---------------------------------------------------------------------
  // Alpha-beta pruning, as `minimax` in the Python program searches
  // ---------------------------------------------------------------------

  /**
    The alpha-beta value of `b` searched `depth` plies deep in the window
    (`alpha`, `beta`): the search of the game tree that makes the same
    terminal tests as minimax, then scans the mover's moves in generation
    order and stops as soon as the window closes. Only the subtrees the scan
    reaches contribute to the value.
   */
  function AlphaBeta(b: Board, depth: nat, alpha: Value, beta: Value, maximizing: bool): Value
  {
    Trees.AlphaBeta(GameTree(b, depth, maximizing), alpha, beta)
  }

  // ---------------------------------------------------------------------
  // Alpha-beta agrees with minimax
  // ---------------------------------------------------------------------

  /** Alpha-beta in a non-empty window is a fail-soft answer for the minimax value of the position. */
  lemma AlphaBetaFailSoft(b: Board, depth: nat, alpha: Value, beta: Value, maximizing: bool)
    requires Lt(alpha, beta)
    ensures Trees.FailSoft(alpha, beta, AlphaBeta(b, depth, alpha, beta, maximizing), Minimax(b, depth, maximizing))
  {
    Trees.AlphaBetaFailSoft(GameTree(b, depth, maximizing), alpha, beta);
  }

  /** With the full window, as the intelligent strategy calls it, alpha-beta computes the minimax value. */
  lemma AlphaBetaIsMinimax(b: Board, depth: nat, maximizing: bool)
    ensures AlphaBeta(b, depth, NegInf, PosInf, maximizing) == Minimax(b, depth, maximizing)
  {
    Trees.AlphaBetaIsMinimax(GameTree(b, depth, maximizing));
  }
}

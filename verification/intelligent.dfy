/**
  The intelligent computer strategy: every move of the computer is tried on
  a copy of the board; a move that wins at once is played, otherwise the
  move whose position has the best alpha-beta value for the computer is
  chosen, equal values being decided by the larger static evaluation and
  then by generation order.
 */
module Intelligent {
  import opened Wrappers
  import opened Grid
  import opened Rules
  import opened Moves
  import opened Evaluation
  import opened Values
  import opened Search

  /** The position after the computer plays `m`. */
  function After(b: Board, m: MovePair): Board
  {
    Apply(b, m, Computer)
  }

  /** The computer wins as soon as it plays `m`. */
  predicate Wins(b: Board, m: MovePair)
  {
    IsBoardWon(After(b, m), Computer)
  }

  /** What the search says `m` is worth: the minimax value of the position after it, with the player to move. */
  function Score(b: Board, m: MovePair): Value
  {
    Minimax(After(b, m), TargetDepth, false)
  }

  /** The static evaluation of the position after `m`, which breaks ties between equal scores. */
  function Tiebreak(b: Board, m: MovePair): int
  {
    EvaluationValue(After(b, m))
  }

  // ---------------------------------------------------------------------
  // The selection loop, over what it reads from each trial position
  // ---------------------------------------------------------------------

  /**
    `ms[k]` is the best of `ms[..n]` by `value`, ties decided by `evaluation`:
    no value above its value, no equal value with a larger evaluation, and
    every earlier move with its value has a strictly smaller evaluation.
   */
  predicate BestAmong(ms: seq<MovePair>, value: MovePair -> Value, evaluation: MovePair -> int, n: nat, k: nat)
    requires k < n <= |ms|
  {
    forall j | 0 <= j < n ::
      && Le(value(ms[j]), value(ms[k]))
      && (value(ms[j]) == value(ms[k]) ==> evaluation(ms[j]) <= evaluation(ms[k]))
      && (j < k && value(ms[j]) == value(ms[k]) ==> evaluation(ms[j]) < evaluation(ms[k]))
  }

  /** None of `ms[..n]` wins at once. */
  predicate NoWinAmong(ms: seq<MovePair>, wins: MovePair -> bool, n: nat)
    requires n <= |ms|
  {
    forall j | 0 <= j < n :: !wins(ms[j])
  }

  /** The choice the strategy makes among `ms`: the first winning move, else the best move. */
  predicate Chosen(ms: seq<MovePair>, wins: MovePair -> bool, value: MovePair -> Value, evaluation: MovePair -> int, k: nat)
    requires k < |ms|
  {
    if NoWinAmong(ms, wins, |ms|) then BestAmong(ms, value, evaluation, |ms|, k)
    else wins(ms[k]) && NoWinAmong(ms, wins, k)
  }

  /**
    The loop of the intelligent strategy over the computer's moves `ms`:
    a move after which the computer has won is returned at once; otherwise
    the best value so far is kept, replaced by a strictly larger value, or by
    an equal value whose position evaluates strictly higher than that of the
    best move so far.
   */
  method SelectMove(ms: seq<MovePair>, wins: MovePair -> bool, value: MovePair -> Value, evaluation: MovePair -> int)
    returns (best: Option<MovePair>)
    ensures best.None? <==> ms == []
    ensures best.Some? ==> exists k | 0 <= k < |ms| :: best.value == ms[k] && Chosen(ms, wins, value, evaluation, k)
  {
    var bestValue := NegInf;
    best := None;
    ghost var k := 0;
    var i := 0;
    while i < |ms|
      invariant 0 <= i <= |ms|
      invariant NoWinAmong(ms, wins, i)
      invariant best.None? <==> i == 0
      invariant i == 0 ==> bestValue == NegInf
      invariant i > 0 ==> k < i && best == Some(ms[k]) && bestValue == value(ms[k]) && BestAmong(ms, value, evaluation, i, k)
    {
      if wins(ms[i]) {
        return Some(ms[i]);
      }
      var current := value(ms[i]);
      if current == bestValue && best.Some? {
        var currentEvaluation := evaluation(ms[i]);
        var bestEvaluation := evaluation(best.value);
        if currentEvaluation > bestEvaluation {
          bestValue := current;
          best := Some(ms[i]);
          k := i;
        }
      } else if Le(bestValue, current) {
        bestValue := current;
        best := Some(ms[i]);
        k := i;
      }
      i := i + 1;
    }
    assert i > 0 ==> Chosen(ms, wins, value, evaluation, k);
  }

  /** `Chosen` only looks at the values of the moves in `ms`. */
  lemma ChosenRespectsValues(ms: seq<MovePair>, wins: MovePair -> bool, value: MovePair -> Value,
                             value': MovePair -> Value, evaluation: MovePair -> int, k: nat)
    requires k < |ms|
    requires forall j | 0 <= j < |ms| :: value(ms[j]) == value'(ms[j])
    ensures Chosen(ms, wins, value, evaluation, k) == Chosen(ms, wins, value', evaluation, k)
  {
  }

  /** At most one move is chosen: the choice the strategy makes is determined by what it reads. */
  lemma ChosenIsUnique(ms: seq<MovePair>, wins: MovePair -> bool, value: MovePair -> Value,
                       evaluation: MovePair -> int, k: nat, k': nat)
    requires k < |ms| && k' < |ms|
    requires Chosen(ms, wins, value, evaluation, k) && Chosen(ms, wins, value, evaluation, k')
    ensures k == k'
  {
    if NoWinAmong(ms, wins, |ms|) {
      LeOrder(value(ms[k]), value(ms[k']), value(ms[k]));
      assert value(ms[k]) == value(ms[k']);
    }
  }

  // ---------------------------------------------------------------------
  // The strategy
  // ---------------------------------------------------------------------

  /**
    `best` is the strategy's answer on `b`: None exactly when the computer has
    no move, otherwise the generated move the choice rule picks, judged by
    immediate win, then minimax score, then static evaluation.
   */
  ghost predicate IsBestMove(b: Board, best: Option<MovePair>)
  {
    && (best.None? <==> GetMovesOfPlayer(b, Computer) == [])
    && (best.Some? ==>
          exists k | 0 <= k < |GetMovesOfPlayer(b, Computer)| ::
            && best.value == GetMovesOfPlayer(b, Computer)[k]
            && Chosen(GetMovesOfPlayer(b, Computer), m => Wins(b, m), m => Score(b, m), m => Tiebreak(b, m), k))
  }

  /** The answer is determined by the board: two answers meeting the description are the same. */
  lemma BestMoveIsUnique(b: Board, best: Option<MovePair>, other: Option<MovePair>)
    requires IsBestMove(b, best) && IsBestMove(b, other)
    ensures best == other
  {
    if best.Some? {
      var ms := GetMovesOfPlayer(b, Computer);
      var k :| 0 <= k < |ms| && best.value == ms[k] && Chosen(ms, m => Wins(b, m), m => Score(b, m), m => Tiebreak(b, m), k);
      var k' :| 0 <= k' < |ms| && other.value == ms[k'] && Chosen(ms, m => Wins(b, m), m => Score(b, m), m => Tiebreak(b, m), k');
      ChosenIsUnique(ms, m => Wins(b, m), m => Score(b, m), m => Tiebreak(b, m), k, k');
    }
  }

  /**
    The move the strategy plays: None exactly when the computer has no move,
    otherwise the first move that wins at once or, when none does, the first
    move of best minimax score and, among those, of best static evaluation.
   */
  method FindBestMove(b: Board) returns (best: Option<MovePair>)
    ensures IsBestMove(b, best)
  {
    var ms := GetMovesOfPlayer(b, Computer);
    var search := m => AlphaBeta(After(b, m), TargetDepth, NegInf, PosInf, false);
    best := SelectMove(ms, m => Wins(b, m), search, m => Tiebreak(b, m));
    if best.Some? {
      var k :| 0 <= k < |ms| && best.value == ms[k] && Chosen(ms, m => Wins(b, m), search, m => Tiebreak(b, m), k);
      forall j | 0 <= j < |ms|
        ensures search(ms[j]) == Score(b, ms[j])
      {
        AlphaBetaIsMinimax(After(b, ms[j]), TargetDepth, false);
      }
      ChosenRespectsValues(ms, m => Wins(b, m), search, m => Score(b, m), m => Tiebreak(b, m), k);
    }
  }
}

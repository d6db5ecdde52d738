/**
  The random computer strategy: draw a source cell and a destination cell,
  every coordinate uniformly in range, until the legality test accepts the
  pair. The draws are a parameter here: a finite prefix of the generator's
  output. The strategy returns the first accepted draw of the prefix, and
  None when the prefix holds no accepted draw, which is where `get_move`
  keeps drawing.
 */
module RandomStrategy {
  import opened Wrappers
  import opened Grid
  import opened Rules
  import opened Moves

  /** A pair the generator can produce: all four coordinates lie in range. */
  predicate Drawable(d: MovePair)
  {
    InBounds(d.piece) && InBounds(d.target)
  }

  /** The draw passes the legality test as `board.py` writes it. */
  predicate Accepted(b: Board, d: MovePair)
  {
    match CheckValidMove(b, d.piece, d.target, Computer)
    case Some(v) => Truthy(v)
    case None => false
  }

  /** The position in `draws` of the first accepted draw, or `|draws|` if there is none. */
  function FirstAccepted(b: Board, draws: seq<MovePair>): (i: nat)
    ensures i <= |draws|
    ensures i < |draws| ==> Accepted(b, draws[i])
    ensures forall j | 0 <= j < i :: !Accepted(b, draws[j])
  {
    if draws == [] || Accepted(b, draws[0]) then 0
    else
      var i := FirstAccepted(b, draws[1..]);
      assert forall j | 1 <= j <= i :: draws[1..][j - 1] == draws[j];
      i + 1
  }

  /**
    The strategy's answer on the draws `draws`: the first one the legality
    test accepts. Every answer is a legal computer move, and when the
    computer has no legal move no sequence of draws ever produces one.
   */
  function GetMove(b: Board, draws: seq<MovePair>): (r: Option<MovePair>)
    requires forall i | 0 <= i < |draws| :: Drawable(draws[i])
    ensures r.Some? ==> Drawable(r.value) && Accepted(b, r.value)
    ensures r.Some? ==> Move(b, r.value.piece, r.value.target, Computer).Ok?
    ensures r.Some? ==> exists i | 0 <= i < |draws| :: r.value == draws[i]
                                                      && forall j | 0 <= j < i :: !Legal(b.grid, draws[j].piece, draws[j].target, Computer)
    ensures r.None? <==> forall i | 0 <= i < |draws| :: !Legal(b.grid, draws[i].piece, draws[i].target, Computer)
  {
    var i := FirstAccepted(b, draws);
    forall j | 0 <= j < |draws|
      ensures Accepted(b, draws[j]) <==> Legal(b.grid, draws[j].piece, draws[j].target, Computer)
    {
      AcceptedIsLegal(b, draws[j]);
    }
    if i < |draws| then Some(draws[i]) else None
  }

  /**
    `rest` is what is left of `draws` once `m` has been drawn as the first
    legal pair: `m` is the draw just before `rest`, and every draw before
    `m` was rejected.
   */
  predicate DrawnUpTo(b: Board, draws: seq<MovePair>, m: MovePair, rest: seq<MovePair>)
  {
    |rest| < |draws| && rest == draws[|draws| - |rest|..] && draws[|draws| - |rest| - 1] == m
    && Legal(b.grid, m.piece, m.target, Computer)
    && forall j | 0 <= j < |draws| - |rest| - 1 :: !Legal(b.grid, draws[j].piece, draws[j].target, Computer)
  }

  /**
    The draws left for the next call: the generator moves on past every
    draw `get_move` made, so after an answer only the draws behind it remain,
    and a prefix without an answer is used up.
   */
  function Unused(b: Board, draws: seq<MovePair>): (rest: seq<MovePair>)
    requires forall i | 0 <= i < |draws| :: Drawable(draws[i])
    ensures GetMove(b, draws).Some? ==> DrawnUpTo(b, draws, GetMove(b, draws).value, rest)
    ensures GetMove(b, draws).None? ==> rest == []
  {
    var i := FirstAccepted(b, draws);
    forall j | 0 <= j < |draws|
      ensures Accepted(b, draws[j]) <==> Legal(b.grid, draws[j].piece, draws[j].target, Computer)
    {
      AcceptedIsLegal(b, draws[j]);
    }
    if i < |draws| then draws[i + 1..] else []
  }

  /** The draws that remain after an answer are determined by the draws and the board. */
  lemma DrawnUpToIsUnique(b: Board, draws: seq<MovePair>, m: MovePair, rest: seq<MovePair>, m': MovePair, rest': seq<MovePair>)
    requires DrawnUpTo(b, draws, m, rest) && DrawnUpTo(b, draws, m', rest')
    ensures m == m' && rest == rest'
  {
  }

  /**
    On drawable pairs the as-written legality test agrees with `Move` and
    with the corrected test: the draws never reach the faulty bounds check.
   */
  lemma AcceptedIsLegal(b: Board, d: MovePair)
    requires Drawable(d)
    ensures Accepted(b, d) <==> Legal(b.grid, d.piece, d.target, Computer)
    ensures Accepted(b, d) <==> IsValidMove(b, d.piece, d.target, Computer)
  {
  }

  /**
    Without a legal computer move the strategy never answers, whatever the
    draws: `get_move` loops for ever.
   */
  lemma NoLegalMoveNoAnswer(b: Board, draws: seq<MovePair>)
    requires forall i | 0 <= i < |draws| :: Drawable(draws[i])
    requires GetMovesOfPlayer(b, Computer) == []
    ensures GetMove(b, draws) == None
  {
    NoMoves(b, Computer);
  }

  /**
    Every legal computer move is an answer of the strategy for some draws:
    the choice is constrained by legality only. Illegal draws before it are
    passed over.
   */
  lemma EveryLegalMoveReachable(b: Board, rejected: seq<MovePair>, m: MovePair)
    requires forall i | 0 <= i < |rejected| :: Drawable(rejected[i])
                                                && !Legal(b.grid, rejected[i].piece, rejected[i].target, Computer)
    requires Legal(b.grid, m.piece, m.target, Computer)
    ensures GetMove(b, rejected + [m]) == Some(m)
  {
    var draws := rejected + [m];
    assert draws[|rejected|] == m;
    assert forall i | 0 <= i < |rejected| :: draws[i] == rejected[i];
  }
}

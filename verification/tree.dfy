/**
  Game-tree search over an explicit tree of positions: plain minimax, the
  reference, and minimax with alpha-beta pruning in the fail-soft form the
  intelligent strategy runs. Leaves carry their value; an inner node is a
  maximising (computer) or minimising (player) node whose children are the
  positions after each move, in move-generation order.
 */
module Trees {
  import opened Values

  datatype Tree = Leaf(value: Value) | Node(maximizing: bool, kids: seq<Tree>)

  /** Every tree in `kids` is a proper part of `parent`: the measure the loops over children recurse on. */
  ghost predicate Below(kids: seq<Tree>, parent: Tree)
  {
    forall k | k in kids :: k < parent
  }

  lemma BelowTail(kids: seq<Tree>, parent: Tree)
    requires kids != [] && Below(kids, parent)
    ensures kids[0] < parent && Below(kids[1..], parent)
  {
    assert kids[0] in kids;
    assert forall k | k in kids[1..] :: k in kids;
  }

  // ---------------------------------------------------------------------
  // Plain minimax: the reference
  // ---------------------------------------------------------------------

  function Minimax(t: Tree): Value
    decreases t, 1
  {
    match t
    case Leaf(v) => v
    case Node(maximizing, kids) => if maximizing then MaxOf(kids, t) else MinOf(kids, t)
  }

  /** The largest minimax value among `kids`; minus infinity when there is none. */
  function MaxOf(kids: seq<Tree>, ghost parent: Tree): Value
    requires Below(kids, parent)
    decreases parent, 0, |kids|
  {
    if kids == [] then NegInf
    else
      BelowTail(kids, parent);
      Max(Minimax(kids[0]), MaxOf(kids[1..], parent))
  }

  /** The least minimax value among `kids`; plus infinity when there is none. */
  function MinOf(kids: seq<Tree>, ghost parent: Tree): Value
    requires Below(kids, parent)
    decreases parent, 0, |kids|
  {
    if kids == [] then PosInf
    else
      BelowTail(kids, parent);
      Min(Minimax(kids[0]), MinOf(kids[1..], parent))
  }

  /** A maximising node's value bounds every child's value from above and is one of them. */
  lemma {:induction false} MaxOfIsBest(kids: seq<Tree>, parent: Tree)
    requires Below(kids, parent)
    ensures forall i | 0 <= i < |kids| :: Le(Minimax(kids[i]), MaxOf(kids, parent))
    ensures kids == [] ==> MaxOf(kids, parent) == NegInf
    ensures kids != [] ==> exists i | 0 <= i < |kids| :: MaxOf(kids, parent) == Minimax(kids[i])
    decreases |kids|
  {
    if kids != [] {
      BelowTail(kids, parent);
      MaxOfIsBest(kids[1..], parent);
      var rest := MaxOf(kids[1..], parent);
      forall i | 0 <= i < |kids|
        ensures Le(Minimax(kids[i]), MaxOf(kids, parent))
      {
        if i > 0 {
          assert kids[i] == kids[1..][i - 1];
          LeOrder(Minimax(kids[i]), rest, MaxOf(kids, parent));
        }
      }
      if MaxOf(kids, parent) != Minimax(kids[0]) {
        var i :| 0 <= i < |kids[1..]| && rest == Minimax(kids[1..][i]);
        assert kids[1..][i] == kids[i + 1];
      }
    }
  }

  /** A minimising node's value bounds every child's value from below and is one of them. */
  lemma {:induction false} MinOfIsBest(kids: seq<Tree>, parent: Tree)
    requires Below(kids, parent)
    ensures forall i | 0 <= i < |kids| :: Le(MinOf(kids, parent), Minimax(kids[i]))
    ensures kids == [] ==> MinOf(kids, parent) == PosInf
    ensures kids != [] ==> exists i | 0 <= i < |kids| :: MinOf(kids, parent) == Minimax(kids[i])
    decreases |kids|
  {
    if kids != [] {
      BelowTail(kids, parent);
      MinOfIsBest(kids[1..], parent);
      var rest := MinOf(kids[1..], parent);
      forall i | 0 <= i < |kids|
        ensures Le(MinOf(kids, parent), Minimax(kids[i]))
      {
        if i > 0 {
          assert kids[i] == kids[1..][i - 1];
          LeOrder(MinOf(kids, parent), rest, Minimax(kids[i]));
        }
      }
      if MinOf(kids, parent) != Minimax(kids[0]) {
        var i :| 0 <= i < |kids[1..]| && rest == Minimax(kids[1..][i]);
        assert kids[1..][i] == kids[i + 1];
      }
    }
  }

  /**
    The minimax value of an inner node is the best of its children's values
    for the side to move there, and that of a node without children is the
    worst value for that side.
   */
  lemma NodeIsBest(t: Tree)
    requires t.Node?
    ensures forall i | 0 <= i < |t.kids| ::
              if t.maximizing then Le(Minimax(t.kids[i]), Minimax(t)) else Le(Minimax(t), Minimax(t.kids[i]))
    ensures t.kids == [] ==> Minimax(t) == if t.maximizing then NegInf else PosInf
    ensures t.kids != [] ==> exists i | 0 <= i < |t.kids| :: Minimax(t) == Minimax(t.kids[i])
  {
    if t.maximizing {
      MaxOfIsBest(t.kids, t);
    } else {
      MinOfIsBest(t.kids, t);
    }
  }

  // ---------------------------------------------------------------------
  // Alpha-beta pruning
  // ---------------------------------------------------------------------

  /**
    The alpha-beta value of `t` in the window (`alpha`, `beta`): a leaf gives
    its value, an inner node scans its children in order and stops as soon as
    the window closes.
   */
  function AlphaBeta(t: Tree, alpha: Value, beta: Value): Value
    decreases t, 1
  {
    match t
    case Leaf(v) => v
    case Node(maximizing, kids) =>
      if maximizing then MaxLoop(kids, t, alpha, beta, NegInf) else MinLoop(kids, t, alpha, beta, PosInf)
  }

  /** The maximiser's loop: keep the best value so far, raise alpha to it, stop once alpha reaches beta. */
  function MaxLoop(kids: seq<Tree>, ghost parent: Tree, alpha: Value, beta: Value, value: Value): Value
    requires Below(kids, parent)
    decreases parent, 0, |kids|
  {
    if kids == [] then value
    else
      BelowTail(kids, parent);
      var next := AlphaBeta(kids[0], alpha, beta);
      var value' := if Lt(value, next) then next else value;
      var alpha' := Max(alpha, value');
      if Le(beta, alpha') then value' else MaxLoop(kids[1..], parent, alpha', beta, value')
  }

  /** The minimiser's loop: keep the least value so far, lower beta to it, stop once beta reaches alpha. */
  function MinLoop(kids: seq<Tree>, ghost parent: Tree, alpha: Value, beta: Value, value: Value): Value
    requires Below(kids, parent)
    decreases parent, 0, |kids|
  {
    if kids == [] then value
    else
      BelowTail(kids, parent);
      var next := AlphaBeta(kids[0], alpha, beta);
      var value' := if Lt(next, value) then next else value;
      var beta' := Min(beta, value');
      if Le(beta', alpha) then value' else MinLoop(kids[1..], parent, alpha, beta', value')
  }

  // ---------------------------------------------------------------------
  // Alpha-beta agrees with minimax
  // ---------------------------------------------------------------------

  /**
    `r` is a fail-soft alpha-beta answer for the true value `m` in the window
    (`alpha`, `beta`): exact inside the window, an upper bound of `m` at or
    below alpha, a lower bound of `m` at or above beta.
   */
  predicate FailSoft(alpha: Value, beta: Value, r: Value, m: Value)
  {
    (Lt(alpha, r) && Lt(r, beta) ==> r == m)
    && (Le(r, alpha) ==> Le(m, r))
    && (Le(beta, r) ==> Le(r, m))
  }

  /** A computer-loop iteration whose window closes. */
  lemma MaxCut(alpha: Value, beta: Value, v: Value, c: Value, cm: Value, rest: Value, v': Value, alpha': Value)
    requires Lt(alpha, beta) && Le(v, alpha) && FailSoft(alpha, beta, c, cm)
    requires v' == (if Lt(v, c) then c else v) && alpha' == Max(alpha, v')
    requires Le(beta, alpha')
    ensures FailSoft(alpha, beta, v', Max(v, Max(cm, rest))) && Le(v, v')
  {
    LeOrder(v, alpha, beta);
    LeOrder(c, cm, Max(v, Max(cm, rest)));
  }

  /** A computer-loop iteration that goes on with the narrowed window. */
  lemma MaxContinue(alpha: Value, beta: Value, v: Value, c: Value, cm: Value, rest: Value, v': Value, alpha': Value, r: Value)
    requires Lt(alpha, beta) && Le(v, alpha) && FailSoft(alpha, beta, c, cm)
    requires v' == (if Lt(v, c) then c else v) && alpha' == Max(alpha, v')
    requires !Le(beta, alpha')
    requires FailSoft(alpha', beta, r, Max(v', rest)) && Le(v', r)
    ensures FailSoft(alpha, beta, r, Max(v, Max(cm, rest))) && Le(v, r)
  {
    LeOrder(v, alpha, beta);
    LeOrder(v, v', r);
    if Lt(alpha, c) {
      LeOrder(alpha, c, beta);
    } else {
      LeOrder(cm, c, alpha);
    }
  }

  /** A player-loop iteration whose window closes. */
  lemma MinCut(alpha: Value, beta: Value, v: Value, c: Value, cm: Value, rest: Value, v': Value, beta': Value)
    requires Lt(alpha, beta) && Le(beta, v) && FailSoft(alpha, beta, c, cm)
    requires v' == (if Lt(c, v) then c else v) && beta' == Min(beta, v')
    requires Le(beta', alpha)
    ensures FailSoft(alpha, beta, v', Min(v, Min(cm, rest))) && Le(v', v)
  {
    LeOrder(alpha, beta, v);
    LeOrder(Min(v, Min(cm, rest)), cm, c);
  }

  /** A player-loop iteration that goes on with the narrowed window. */
  lemma MinContinue(alpha: Value, beta: Value, v: Value, c: Value, cm: Value, rest: Value, v': Value, beta': Value, r: Value)
    requires Lt(alpha, beta) && Le(beta, v) && FailSoft(alpha, beta, c, cm)
    requires v' == (if Lt(c, v) then c else v) && beta' == Min(beta, v')
    requires !Le(beta', alpha)
    requires FailSoft(alpha, beta', r, Min(v', rest)) && Le(r, v')
    ensures FailSoft(alpha, beta, r, Min(v, Min(cm, rest))) && Le(r, v)
  {
    LeOrder(alpha, beta, v);
    LeOrder(r, v', v);
    if Lt(c, beta) {
      LeOrder(alpha, c, beta);
    } else {
      LeOrder(beta, c, cm);
    }
  }

  /** Alpha-beta in a non-empty window is a fail-soft answer for minimax. */
  lemma {:induction false} AlphaBetaFailSoft(t: Tree, alpha: Value, beta: Value)
    requires Lt(alpha, beta)
    ensures FailSoft(alpha, beta, AlphaBeta(t, alpha, beta), Minimax(t))
    decreases t, 1
  {
    match t
    case Leaf(v) =>
      LeOrder(v, v, v);
    case Node(maximizing, kids) =>
      if maximizing {
        MaxLoopFailSoft(kids, t, alpha, beta, NegInf);
        Units(MaxOf(kids, t));
      } else {
        MinLoopFailSoft(kids, t, alpha, beta, PosInf);
        Units(MinOf(kids, t));
      }
  }

  lemma {:induction false} MaxLoopFailSoft(kids: seq<Tree>, parent: Tree, alpha: Value, beta: Value, v: Value)
    requires Below(kids, parent)
    requires Lt(alpha, beta) && Le(v, alpha)
    ensures FailSoft(alpha, beta, MaxLoop(kids, parent, alpha, beta, v), Max(v, MaxOf(kids, parent)))
    ensures Le(v, MaxLoop(kids, parent, alpha, beta, v))
    decreases parent, 0, |kids|
  {
    if kids == [] {
      LeOrder(v, v, v);
    } else {
      BelowTail(kids, parent);
      var c := AlphaBeta(kids[0], alpha, beta);
      var cm := Minimax(kids[0]);
      var rest := MaxOf(kids[1..], parent);
      AlphaBetaFailSoft(kids[0], alpha, beta);
      var v' := if Lt(v, c) then c else v;
      var alpha' := Max(alpha, v');
      if Le(beta, alpha') {
        MaxCut(alpha, beta, v, c, cm, rest, v', alpha');
      } else {
        LeOrder(v', alpha', beta);
        MaxLoopFailSoft(kids[1..], parent, alpha', beta, v');
        MaxContinue(alpha, beta, v, c, cm, rest, v', alpha', MaxLoop(kids[1..], parent, alpha', beta, v'));
      }
    }
  }

  lemma {:induction false} MinLoopFailSoft(kids: seq<Tree>, parent: Tree, alpha: Value, beta: Value, v: Value)
    requires Below(kids, parent)
    requires Lt(alpha, beta) && Le(beta, v)
    ensures FailSoft(alpha, beta, MinLoop(kids, parent, alpha, beta, v), Min(v, MinOf(kids, parent)))
    ensures Le(MinLoop(kids, parent, alpha, beta, v), v)
    decreases parent, 0, |kids|
  {
    if kids == [] {
      LeOrder(v, v, v);
    } else {
      BelowTail(kids, parent);
      var c := AlphaBeta(kids[0], alpha, beta);
      var cm := Minimax(kids[0]);
      var rest := MinOf(kids[1..], parent);
      AlphaBetaFailSoft(kids[0], alpha, beta);
      var v' := if Lt(c, v) then c else v;
      var beta' := Min(beta, v');
      if Le(beta', alpha) {
        MinCut(alpha, beta, v, c, cm, rest, v', beta');
      } else {
        LeOrder(alpha, beta', v');
        MinLoopFailSoft(kids[1..], parent, alpha, beta', v');
        MinContinue(alpha, beta, v, c, cm, rest, v', beta', MinLoop(kids[1..], parent, alpha, beta', v'));
      }
    }
  }

  /** With the full window, alpha-beta computes the minimax value. */
  lemma AlphaBetaIsMinimax(t: Tree)
    ensures AlphaBeta(t, NegInf, PosInf) == Minimax(t)
  {
    AlphaBetaFailSoft(t, NegInf, PosInf);
    LeOrder(AlphaBeta(t, NegInf, PosInf), Minimax(t), PosInf);
  }
}

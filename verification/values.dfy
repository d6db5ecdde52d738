/**
  Search values: the integers extended with the two infinities the search
  uses for won and lost positions and as the initial alpha-beta window.
 */
module Values {

  datatype Value = NegInf | Finite(n: int) | PosInf

  /** `a <= b` in the extended order: minus infinity below every integer, plus infinity above. */
  predicate Le(a: Value, b: Value)
  {
    a == NegInf || b == PosInf || (a.Finite? && b.Finite? && a.n <= b.n)
  }

  predicate Lt(a: Value, b: Value)
  {
    !Le(b, a)
  }

  /** The larger of two values. */
  function Max(a: Value, b: Value): (m: Value)
    ensures Le(a, m) && Le(b, m)
    ensures m == a || m == b
  {
    if Le(a, b) then b else a
  }

  /** The smaller of two values. */
  function Min(a: Value, b: Value): (m: Value)
    ensures Le(m, a) && Le(m, b)
    ensures m == a || m == b
  {
    if Le(a, b) then a else b
  }

  /** The infinities are the units of `Max` and `Min`. */
  lemma Units(a: Value)
    ensures Max(NegInf, a) == a && Min(PosInf, a) == a
  {
  }

  /** `Le` is a total order. */
  lemma LeOrder(a: Value, b: Value, c: Value)
    ensures Le(a, a)
    ensures Le(a, b) || Le(b, a)
    ensures Le(a, b) && Le(b, a) ==> a == b
    ensures Le(a, b) && Le(b, c) ==> Le(a, c)
  {
  }
}

/** Values shared by both searches: an optional value, and the scores of the
    searches, which are integers extended with the two infinities that the
    Python code writes as float("-inf") and float("inf"). */
module Basics {

  datatype Option<T> = None | Some(value: T)

  /** An integer, or one of the two infinities. */
  datatype ExtInt = NegInf | Fin(n: int) | PosInf

  /** a <= b in the extended order. */
  predicate Le(a: ExtInt, b: ExtInt) {
    a.NegInf? || b.PosInf? || (a.Fin? && b.Fin? && a.n <= b.n)
  }

  /** a < b in the extended order. */
  predicate Lt(a: ExtInt, b: ExtInt) {
    !Le(b, a)
  }

  /** Python's max(a, b) on these scores: the least upper bound. */
  function Max(a: ExtInt, b: ExtInt): (r: ExtInt)
    ensures Le(a, r) && Le(b, r)
    ensures r == a || r == b
  {
    if Le(a, b) then b else a
  }

  /** Python's min(a, b) on these scores: the greatest lower bound. */
  function Min(a: ExtInt, b: ExtInt): (r: ExtInt)
    ensures Le(r, a) && Le(r, b)
    ensures r == a || r == b
  {
    if Le(a, b) then a else b
  }
}

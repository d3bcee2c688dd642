/** The part of IEEE-754 double arithmetic the two pipelines depend on:
    NaN produced by pandas reductions and by 0/0, the infinities produced by
    dividing by a zero time step, and the comparisons that treat NaN as
    unordered. Finite values are exact reals. */
module Floats {

  datatype Float = Fin(r: real) | PosInf | NegInf | NaN

  /** What a pandas reduction over a numeric column can return: a finite
      number, or NaN (the mean or max of no samples). */
  type Scalar = f: Float | f.Fin? || f.NaN? witness Fin(0.0)

  /** IEEE `<`: false as soon as either side is NaN. */
  predicate Lt(a: Float, b: Float) {
    if a.NaN? || b.NaN? then false
    else if a.Fin? && b.Fin? then a.r < b.r
    else if a.NegInf? then !b.NegInf?
    else b.PosInf? && !a.PosInf?
  }

  /** Python's two-argument `min(a, b)`: keeps `a` unless `b < a`. */
  function PyMin(a: Float, b: Float): (m: Float)
    ensures m == a || m == b
    ensures !Lt(a, m)
    ensures Lt(b, a) <==> m == b && m != a
  {
    if Lt(b, a) then b else a
  }

  /** IEEE quotient of two finite doubles; a zero divisor here is always +0.0. */
  function Quotient(n: real, d: real): (q: Float)
    ensures d != 0.0 ==> q == Fin(n / d)
    ensures d == 0.0 ==> (q.NaN? <==> n == 0.0)
    ensures d == 0.0 && n > 0.0 ==> q == PosInf
    ensures d == 0.0 && n < 0.0 ==> q == NegInf
  {
    if d != 0.0 then Fin(n / d)
    else if n > 0.0 then PosInf
    else if n < 0.0 then NegInf
    else NaN
  }
}

/** Double-precision values as seen by the modelled code: a finite number, an
    infinity, or NaN. Rounding is not modelled; finite values are reals. */
module Floats {

  datatype V = Fin(r: real) | Inf(negative: bool) | NaN

  /** `np.isfinite` */
  predicate IsFinite(v: V) {
    v.Fin?
  }

  /** What `x[~np.isfinite(x)] = 0.` leaves in one entry. */
  function Zeroed(v: V): (z: V)
    ensures IsFinite(z)
    ensures IsFinite(v) ==> z == v
    ensures !IsFinite(v) ==> z == Fin(0.0)
  {
    if v.Fin? then v else Fin(0.0)
  }

  /** The real an entry adds to a sum once non-finite entries are zeroed. */
  function FiniteOrZero(v: V): real {
    if v.Fin? then v.r else 0.0
  }

  /** IEEE multiplication: NaN absorbs, 0 * inf is NaN, otherwise signs multiply. */
  function Mul(a: V, b: V): (p: V)
    ensures IsFinite(p) <==> IsFinite(a) && IsFinite(b)
    ensures IsFinite(p) ==> p.r == a.r * b.r
  {
    match (a, b)
    case (Fin(x), Fin(y)) => Fin(x * y)
    case (NaN, _) => NaN
    case (_, NaN) => NaN
    case (Inf(n1), Inf(n2)) => Inf(n1 != n2)
    case (Inf(n), Fin(y)) => if y == 0.0 then NaN else Inf(n != (y < 0.0))
    case (Fin(x), Inf(n)) => if x == 0.0 then NaN else Inf(n != (x < 0.0))
  }
}

/** Values shared by every part of the dashboard model: an optional value and the
    JavaScript number as the browser code sees it. */
module Common {

  /** A value that may be absent (`undefined`/`null` in JavaScript, `None` in Python). */
  datatype Option<+T> = None | Some(value: T) {
    function GetOr(default: T): T {
      match this
      case Some(v) => v
      case None => default
    }
  }

  /** A number after JavaScript's `Number(...)` (or a Python float): a finite value, NaN,
      or an infinity. Rounding is not modelled and -0 is not told apart from 0. */
  datatype Num = Finite(r: real) | NaN | Inf(pos: bool)

  /** `Number.isFinite`. */
  predicate IsFinite(n: Num) {
    n.Finite?
  }

  /** `Number(x) || 0`: NaN and 0 are the falsy numbers, so only NaN changes. */
  function OrZero(n: Num): (r: Num)
    ensures !r.NaN?
    ensures n.NaN? ==> r == Finite(0.0)
    ensures !n.NaN? ==> r == n
  {
    if n.NaN? then Finite(0.0) else n
  }

  /** A finite value, or 0 for anything else (the `Number.isFinite(x) ? x : 0` idiom). */
  function FiniteOr0(n: Num): real {
    if n.Finite? then n.r else 0.0
  }

  /** JavaScript `a < b` on numbers; every comparison with NaN is false. */
  predicate Less(a: Num, b: Num) {
    match (a, b)
    case (Finite(x), Finite(y)) => x < y
    case (Inf(false), Finite(_)) => true
    case (Inf(false), Inf(true)) => true
    case (Finite(_), Inf(true)) => true
    case _ => false
  }

  /** `<` on numbers is transitive. */
  lemma LessTransitive(x: Num, y: Num, z: Num)
    requires Less(x, y) && Less(y, z)
    ensures Less(x, z)
  {
  }

  /** JavaScript `a > b`. */
  predicate Greater(a: Num, b: Num) {
    Less(b, a)
  }

  /** JavaScript `a === b` on numbers (NaN is not equal to itself). */
  predicate StrictEq(a: Num, b: Num) {
    !a.NaN? && !b.NaN? && a == b
  }

  /** `Math.max(a, b)`: NaN if either is NaN. */
  function Max(a: Num, b: Num): (r: Num)
    ensures r.NaN? <==> a.NaN? || b.NaN?
    ensures !r.NaN? ==> (r == a || r == b) && !Less(r, a) && !Less(r, b)
  {
    if a.NaN? || b.NaN? then NaN
    else if Less(a, b) then b
    else a
  }

  function MaxInt(a: int, b: int): int {
    if a < b then b else a
  }

  function MinInt(a: int, b: int): int {
    if a < b then a else b
  }
}

/** The few JavaScript number operations the model needs, on finite values and NaN. */
module JsNumbers {

  /** A JavaScript number: NaN or a finite value (the infinities are not modelled). */
  datatype Num = NaN | Finite(value: real)

  /** A number is truthy unless it is NaN or zero. */
  predicate Truthy(n: Num) {
    n.Finite? && n.value != 0.0
  }

  /** `Math.floor(n)`: the greatest integer not above `n`; NaN stays NaN. */
  function Floor(n: Num): (r: Num)
    ensures n.NaN? <==> r.NaN?
    ensures n.Finite? ==> r.value <= n.value < r.value + 1.0 && r.value == r.value.Floor as real
  {
    match n
    case NaN => NaN
    case Finite(v) => Finite(v.Floor as real)
  }

  /** `a || b` on numbers: `a` when it is truthy, otherwise `b`. */
  function Or(a: Num, b: Num): (r: Num)
    ensures Truthy(a) ==> r == a
    ensures !Truthy(a) ==> r == b
  {
    if Truthy(a) then a else b
  }

  /** `Math.max(a, b)`: NaN if either is NaN. */
  function Max(a: Num, b: Num): (r: Num)
    ensures r.NaN? <==> a.NaN? || b.NaN?
    ensures r.Finite? ==> r.value >= a.value && r.value >= b.value && (r.value == a.value || r.value == b.value)
  {
    if a.NaN? || b.NaN? then NaN
    else if a.value >= b.value then a
    else b
  }
}

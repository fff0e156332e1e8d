/**
 * JavaScript numbers as the calculator uses them. A finite double is modelled
 * by the exact real it approximates; the non-finite values are kept as their
 * own constructors so that `Infinity` health factors and the results of a
 * division by zero stay visible in the model.
 */
module Numbers {

  /** A parsed input field: `None` stands for the NaN that `parseFloat` yields. */
  datatype Option<+T> = None | Some(value: T)

  datatype Num = Finite(value: real) | PosInf | NegInf | NaN

  /** Position on the extended real line, for the comparisons below. */
  function Rank(x: Num): int
  {
    match x
    case NegInf => 0
    case Finite(_) => 1
    case PosInf => 2
    case NaN => 3
  }

  /** JavaScript `a < b`: false whenever either side is NaN. */
  predicate Less(a: Num, b: Num)
    ensures a.Finite? && b.Finite? ==> (Less(a, b) <==> a.value < b.value)
    ensures a.NaN? || b.NaN? ==> !Less(a, b)
    ensures !a.NaN? && !b.NaN? && !a.PosInf? && b.PosInf? ==> Less(a, b)
    ensures b.NegInf? || a.PosInf? ==> !Less(a, b)
  {
    !a.NaN? && !b.NaN? &&
    (Rank(a) < Rank(b) || (a.Finite? && b.Finite? && a.value < b.value))
  }

  /** JavaScript `a <= b`: false whenever either side is NaN. */
  predicate LessEq(a: Num, b: Num)
    ensures a.Finite? && b.Finite? ==> (LessEq(a, b) <==> a.value <= b.value)
    ensures a.NaN? || b.NaN? ==> !LessEq(a, b)
    ensures !a.NaN? && b.PosInf? ==> LessEq(a, b)
    ensures a.PosInf? && b.Finite? ==> !LessEq(a, b)
  {
    !a.NaN? && !b.NaN? && !Less(b, a)
  }

  /** JavaScript `a / b` for finite operands. */
  function Divide(a: real, b: real): (q: Num)
    ensures b != 0.0 ==> q == Finite(a / b)
    ensures b == 0.0 ==> !q.Finite?
  {
    if b != 0.0 then Finite(a / b)
    else if a > 0.0 then PosInf
    else if a < 0.0 then NegInf
    else NaN
  }

  /** `Math.abs(x - c)` for a finite constant `c`. */
  function Distance(x: Num, c: real): (d: Num)
    ensures x.Finite? ==> d.Finite? && d.value >= 0.0 && (d.value == x.value - c || d.value == c - x.value)
    ensures !x.Finite? && !x.NaN? ==> d == PosInf
    ensures d.NaN? <==> x.NaN?
  {
    match x
    case Finite(v) => Finite(if v >= c then v - c else c - v)
    case PosInf => PosInf
    case NegInf => PosInf
    case NaN => NaN
  }

  lemma LessTransitive(a: Num, b: Num, c: Num)
    requires Less(a, b) && Less(b, c)
    ensures Less(a, c)
  {
  }

  /** Away from NaN, `<` is a strict total order: what is not below `s` is at or above it. */
  lemma NotLessThenAbove(x: Num, s: Num, d: Num)
    requires !x.NaN? && !s.NaN?
    requires !Less(x, s) && Less(d, s)
    ensures Less(d, x)
  {
  }
}

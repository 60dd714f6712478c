// Values shared by every part of the model: optional values (Java's `null` and
// `Optional`) and Java `double` values with their NaN and infinities.

module Common {

  datatype Option<T> = None | Some(value: T)

  /** A Java `double`: NaN, one of the two infinities, or a finite value. */
  datatype Double = NaN | NegInf | Fin(r: real) | PosInf

  /** Java's `a > b` on doubles: false as soon as one side is NaN. */
  predicate Greater(a: Double, b: Double)
  {
    match (a, b)
    case (NaN, _) => false
    case (_, NaN) => false
    case (PosInf, PosInf) => false
    case (PosInf, _) => true
    case (NegInf, _) => false
    case (Fin(_), NegInf) => true
    case (Fin(x), Fin(y)) => x > y
    case (Fin(_), PosInf) => false
  }

  /** Java's `a == b` on doubles: false as soon as one side is NaN. */
  predicate Same(a: Double, b: Double)
  {
    a != NaN && a == b
  }

  /** On non-NaN doubles `>` is a strict total order. */
  lemma GreaterTotal(a: Double, b: Double)
    requires a != NaN && b != NaN
    ensures Greater(a, b) || Same(a, b) || Greater(b, a)
    ensures !(Greater(a, b) && Greater(b, a))
    ensures Greater(a, b) ==> !Same(a, b)
  {
  }

  lemma GreaterTransitive(a: Double, b: Double, c: Double)
    requires Greater(a, b) && Greater(b, c)
    ensures Greater(a, c)
  {
  }

  /** Java's `x / y` on doubles, with the IEEE results for a zero divisor (signed zeros are not modelled). */
  function Div(x: real, y: real): (r: Double)
    ensures y != 0.0 ==> r == Fin(x / y)
    ensures y == 0.0 ==> (r == NaN <==> x == 0.0)
    ensures y == 0.0 && x > 0.0 ==> r == PosInf
    ensures y == 0.0 && x < 0.0 ==> r == NegInf
  {
    if y != 0.0 then Fin(x / y)
    else if x == 0.0 then NaN
    else if x > 0.0 then PosInf
    else NegInf
  }

  /** Sum of a list of ratings. */
  function RealSum(s: seq<real>): real
  {
    if s == [] then 0.0 else RealSum(s[..|s| - 1]) + s[|s| - 1]
  }

  /** The mean of a list of ratings, 0 for none. */
  function Mean(s: seq<real>): real
  {
    if s == [] then 0.0 else RealSum(s) / (|s| as real)
  }

  /**
   * The running mean the average strategy keeps: the first rating replaces the mean,
   * each later one moves it by (rating - mean) / (count + 1).
   */
  lemma MeanAppend(s: seq<real>, v: real)
    ensures Mean(s + [v]) == if s == [] then v else Mean(s) + (v - Mean(s)) / (|s| as real + 1.0)
  {
    var t := s + [v];
    assert t[..|t| - 1] == s;
    if s != [] {
      var n := |s| as real;
      var m := Mean(s);
      assert RealSum(s) == m * n;
      calc {
        m + (v - m) / (n + 1.0);
        (m * (n + 1.0) + (v - m)) / (n + 1.0);
        (m * n + v) / (n + 1.0);
        (RealSum(s) + v) / (n + 1.0);
        Mean(t);
      }
    }
  }

  /** Java's unary minus on doubles. */
  function Neg(a: Double): (r: Double)
    ensures a.Fin? <==> r.Fin?
    ensures a.Fin? ==> r.r == -a.r
  {
    match a
    case NaN => NaN
    case NegInf => PosInf
    case PosInf => NegInf
    case Fin(x) => Fin(-x)
  }

  /** Java's `a + b` on doubles: infinities absorb finite values, opposite infinities give NaN. */
  function Add(a: Double, b: Double): (r: Double)
    ensures a.Fin? && b.Fin? ==> r == Fin(a.r + b.r)
    ensures r.Fin? ==> a.Fin? && b.Fin?
  {
    match (a, b)
    case (NaN, _) => NaN
    case (_, NaN) => NaN
    case (PosInf, NegInf) => NaN
    case (NegInf, PosInf) => NaN
    case (PosInf, _) => PosInf
    case (_, PosInf) => PosInf
    case (NegInf, _) => NegInf
    case (_, NegInf) => NegInf
    case (Fin(x), Fin(y)) => Fin(x + y)
  }

  /** Java's `a - b` on doubles. */
  function Sub(a: Double, b: Double): (r: Double)
    ensures a.Fin? && b.Fin? ==> r == Fin(a.r - b.r)
    ensures r.Fin? ==> a.Fin? && b.Fin?
  {
    Add(a, Neg(b))
  }

  /** Java's `a * b` on doubles: zero times an infinity is NaN. */
  function Mul(a: Double, b: Double): (r: Double)
    ensures a.Fin? && b.Fin? ==> r == Fin(a.r * b.r)
    ensures r.Fin? ==> a.Fin? && b.Fin?
  {
    if a == NaN || b == NaN then NaN
    else if a.Fin? && b.Fin? then Fin(a.r * b.r)
    else if a.Fin? then (if a.r == 0.0 then NaN else if (a.r > 0.0) == (b == PosInf) then PosInf else NegInf)
    else if b.Fin? then (if b.r == 0.0 then NaN else if (b.r > 0.0) == (a == PosInf) then PosInf else NegInf)
    else if a == b then PosInf
    else NegInf
  }

  /** Java's `a / b` on doubles (a zero divisor counts as +0). */
  function Quot(a: Double, b: Double): (r: Double)
    ensures a.Fin? && b.Fin? ==> r == Div(a.r, b.r)
    ensures a.Fin? && (b == PosInf || b == NegInf) ==> r == Fin(0.0)
  {
    match (a, b)
    case (NaN, _) => NaN
    case (_, NaN) => NaN
    case (Fin(x), Fin(y)) => Div(x, y)
    case (Fin(_), _) => Fin(0.0)
    case (_, Fin(y)) => if (y >= 0.0) == (a == PosInf) then PosInf else NegInf
    case (_, _) => NaN
  }
}

/** The part of JavaScript's number semantics the cryptanalysis relies on.
    Finite values are exact reals (IEEE-754 rounding is not modelled); the two
    infinities and NaN are kept because the code meets them: `Infinity` is the
    initial best distance, and 0/0 turns the Index of Coincidence of a short
    column, and the frequencies of an empty column, into NaN. */
module JsNumber {

  datatype Number = Finite(value: real) | PosInf | NegInf | NaN

  /** `a / b` on two integers. */
  function Ratio(a: int, b: int): Number
  {
    if b != 0 then Finite(a as real / b as real)
    else if a > 0 then PosInf
    else if a < 0 then NegInf
    else NaN
  }

  /** `x + y` */
  function Add(x: Number, y: Number): Number
  {
    if x.NaN? || y.NaN? then NaN
    else if x.Finite? && y.Finite? then Finite(x.value + y.value)
    else if (x.PosInf? && y.NegInf?) || (x.NegInf? && y.PosInf?) then NaN
    else if x.PosInf? || y.PosInf? then PosInf
    else NegInf
  }

  /** `x - r` for a finite constant `r`. */
  function Sub(x: Number, r: real): Number
  {
    Add(x, Finite(-r))
  }

  /** `x * k` for an integer `k`. */
  function Mul(x: Number, k: int): Number
  {
    match x
    case Finite(v) => Finite(v * k as real)
    case NaN => NaN
    case PosInf => if k > 0 then PosInf else if k < 0 then NegInf else NaN
    case NegInf => if k > 0 then NegInf else if k < 0 then PosInf else NaN
  }

  /** `x / k` for a positive integer `k`. */
  function Div(x: Number, k: int): Number
    requires k > 0
  {
    if x.Finite? then Finite(x.value / k as real) else x
  }

  /** `Math.abs(x)` */
  function Abs(x: Number): Number
  {
    match x
    case Finite(v) => Finite(if v < 0.0 then -v else v)
    case NaN => NaN
    case _ => PosInf
  }

  /** `x < y`: false whenever NaN is involved. */
  predicate Less(x: Number, y: Number)
  {
    if x.NaN? || y.NaN? || x == y then false
    else x.NegInf? || y.PosInf? || (x.Finite? && y.Finite? && x.value < y.value)
  }

  /** `<` never holds with NaN on either side, is asymmetric, and every
      number other than NaN and `Infinity` is below `Infinity`. */
  lemma LessSemantics(x: Number, y: Number)
    ensures !Less(NaN, y) && !Less(x, NaN)
    ensures Less(x, y) ==> !Less(y, x)
    ensures !x.NaN? && !x.PosInf? ==> Less(x, PosInf)
  {
  }

  /** `x === y`: NaN equals nothing, not even itself. */
  predicate StrictEquals(x: Number, y: Number)
  {
    !x.NaN? && x == y
  }

  /** `Math.max(...xs)`: `-Infinity` for no arguments, NaN if any argument is NaN. */
  function Max(xs: seq<Number>): Number
  {
    if xs == [] then NegInf
    else
      var rest := Max(xs[1..]);
      if xs[0].NaN? || rest.NaN? then NaN
      else if Less(xs[0], rest) then rest
      else xs[0]
  }

  /** `xs.indexOf(v)`: the first position holding a value `===` to `v`, or -1. */
  function IndexOf(xs: seq<Number>, v: Number): int
  {
    if xs == [] then -1
    else if StrictEquals(xs[0], v) then 0
    else
      var k := IndexOf(xs[1..], v);
      if k < 0 then -1 else k + 1
  }

  predicate AllFinite(xs: seq<Number>)
  {
    forall i :: 0 <= i < |xs| ==> xs[i].Finite?
  }

  /** On finite values `Math.max` returns a value that occurs and bounds all. */
  lemma {:induction false} MaxOfFinite(xs: seq<Number>)
    requires xs != [] && AllFinite(xs)
    ensures Max(xs).Finite?
    ensures exists i :: 0 <= i < |xs| && xs[i] == Max(xs)
    ensures forall i :: 0 <= i < |xs| ==> xs[i].value <= Max(xs).value
  {
    if |xs| == 1 {
      assert xs[0] == Max(xs);
    } else {
      var tail := xs[1..];
      assert AllFinite(tail) by {
        forall i | 0 <= i < |tail| ensures tail[i].Finite? { assert tail[i] == xs[i + 1]; }
      }
      MaxOfFinite(tail);
      var j :| 0 <= j < |tail| && tail[j] == Max(tail);
      if Less(xs[0], Max(tail)) {
        assert xs[j + 1] == Max(xs);
      } else {
        assert xs[0] == Max(xs);
      }
      forall i | 0 <= i < |xs| ensures xs[i].value <= Max(xs).value {
        if i > 0 { assert xs[i] == tail[i - 1]; }
      }
    }
  }

  /** `indexOf` of a value that occurs finds its first occurrence. */
  lemma {:induction false} IndexOfFirst(xs: seq<Number>, v: Number, i: int)
    requires 0 <= i < |xs| && xs[i] == v && !v.NaN?
    ensures 0 <= IndexOf(xs, v) <= i
    ensures xs[IndexOf(xs, v)] == v
    ensures forall t :: 0 <= t < IndexOf(xs, v) ==> xs[t] != v
  {
    if xs[0] != v {
      IndexOfFirst(xs[1..], v, i - 1);
    }
  }

  /** A NaN argument makes `Math.max` NaN. */
  lemma {:induction false} MaxWithNaN(xs: seq<Number>, i: int)
    requires 0 <= i < |xs| && xs[i].NaN?
    ensures Max(xs).NaN?
  {
    if i > 0 {
      MaxWithNaN(xs[1..], i - 1);
    }
  }

  /** NaN is found by no `indexOf`. */
  lemma {:induction false} IndexOfNaN(xs: seq<Number>)
    ensures IndexOf(xs, NaN) == -1
  {
    if xs != [] {
      IndexOfNaN(xs[1..]);
    }
  }

  /** `xs.indexOf(Math.max(...xs))` on finite values is the first position of a
      largest value: every value is at most it, every earlier one is smaller. */
  lemma FirstMaxIndex(xs: seq<Number>)
    requires xs != [] && AllFinite(xs)
    ensures 0 <= IndexOf(xs, Max(xs)) < |xs|
    ensures forall t :: 0 <= t < |xs| ==> xs[t].value <= xs[IndexOf(xs, Max(xs))].value
    ensures forall t :: 0 <= t < IndexOf(xs, Max(xs)) ==> xs[t].value < xs[IndexOf(xs, Max(xs))].value
  {
    MaxOfFinite(xs);
    var m := Max(xs);
    var i :| 0 <= i < |xs| && xs[i] == m;
    IndexOfFirst(xs, m, i);
    var k := IndexOf(xs, m);
    forall t | 0 <= t < k ensures xs[t].value < xs[k].value {
      assert xs[t] != m;
    }
  }

  /** If any value is NaN, `xs.indexOf(Math.max(...xs))` is -1. */
  lemma MaxIndexWithNaN(xs: seq<Number>, i: int)
    requires 0 <= i < |xs| && xs[i].NaN?
    ensures IndexOf(xs, Max(xs)) == -1
  {
    MaxWithNaN(xs, i);
    IndexOfNaN(xs);
  }
}

/** Floating-point values up to rounding: reals, the infinities and not-a-number. */
module Numbers {

  datatype Number = Fin(value: real) | PosInf | NegInf | NaN

  /** The language's `<`, false whenever an operand is not a number. */
  predicate Less(a: Number, b: Number) {
    match (a, b)
    case (Fin(x), Fin(y)) => x < y
    case (NegInf, Fin(_)) => true
    case (NegInf, PosInf) => true
    case (Fin(_), PosInf) => true
    case _ => false
  }

  function Abs(x: real): real {
    if x < 0.0 then -x else x
  }

  /** The language's `min`: the first leaf, replaced by every later one that is less. */
  function Least(ns: seq<Number>): Number
    requires ns != []
  {
    if |ns| == 1 then ns[0]
    else
      var best := Least(ns[..|ns| - 1]);
      if Less(ns[|ns| - 1], best) then ns[|ns| - 1] else best
  }

  function Greatest(ns: seq<Number>): Number
    requires ns != []
  {
    if |ns| == 1 then ns[0]
    else
      var best := Greatest(ns[..|ns| - 1]);
      if Less(best, ns[|ns| - 1]) then ns[|ns| - 1] else best
  }

  lemma {:induction false} ExtremesOfFirst(ns: seq<Number>)
    requires ns != []
    ensures ns[0].NaN? ==> Least(ns).NaN? && Greatest(ns).NaN?
    ensures !ns[0].NaN? ==>
              && !Least(ns).NaN? && !Greatest(ns).NaN?
              && !Less(ns[0], Least(ns)) && !Less(Greatest(ns), ns[0])
  {
    if |ns| <= 1 {
    } else {
      ExtremesOfFirst(ns[..|ns| - 1]);
    }
  }

  lemma {:induction false} GreatestBounds(ns: seq<Number>)
    requires ns != [] && !ns[0].NaN?
    ensures Greatest(ns) in ns && forall i :: 0 <= i < |ns| ==> !Less(Greatest(ns), ns[i])
  {
    if |ns| == 1 {
    } else {
      var init := ns[..|ns| - 1];
      GreatestBounds(init);
      ExtremesOfFirst(init);
      assert forall i :: 0 <= i < |init| ==> ns[i] == init[i];
    }
  }

  lemma {:induction false} LeastBounds(ns: seq<Number>)
    requires ns != [] && !ns[0].NaN?
    ensures Least(ns) in ns && forall i :: 0 <= i < |ns| ==> !Less(ns[i], Least(ns))
  {
    if |ns| == 1 {
    } else {
      var init := ns[..|ns| - 1];
      LeastBounds(init);
      ExtremesOfFirst(init);
      assert forall i :: 0 <= i < |init| ==> ns[i] == init[i];
    }
  }
}

/** `generateSequentialData` of the Number schema, in exact real arithmetic: evenly
    spaced values starting from the lower end of a window around zero that holds
    `maxAmount` steps, clipped to the schema's bounds.  The lazy generator is
    materialised as the finite sequence of the values it yields, in order. */
module NumberSequence {
  import opened JsValues
  import opened NumberSchema

  /** Fields the generator can work with: numbers, and a finite divisor. */
  predicate Generable(c: Constraints)
  {
    Numeric(c) && c.divisibleBy.n.Fin?
  }

  /** The step: the divisor, or 0.1 when there is no divisibility constraint. */
  function Step(c: Constraints): (r: real)
    requires Generable(c)
    ensures r != 0.0
    ensures c.divisibleBy.n.x != 0.0 ==> r == c.divisibleBy.n.x
  {
    if c.divisibleBy.n.x == 0.0 then 0.1 else c.divisibleBy.n.x
  }

  /** The window's ends: symmetric around zero, `maxAmount` steps apart. */
  function BaseStart(c: Constraints, maxAmount: nat): (r: real)
    requires Generable(c)
    ensures r == -BaseEnd(c, maxAmount)
    ensures BaseEnd(c, maxAmount) - r == maxAmount as real * Step(c)
  {
    -(maxAmount as real) * Step(c) / 2.0
  }

  function BaseEnd(c: Constraints, maxAmount: nat): (r: real)
    requires Generable(c)
    ensures r > 0.0 <==> maxAmount > 0 && Step(c) > 0.0
  {
    (maxAmount as real) * Step(c) / 2.0
  }

  /** The first value: the window's lower end, raised to the minimum when there is one. */
  function StartingPoint(c: Constraints, maxAmount: nat): (r: Num)
    requires Generable(c)
    ensures r != NegInf && LessEq(c.min.n, r)
    ensures r.Fin? ==> BaseStart(c, maxAmount) <= r.x
  {
    if c.min.n == NegInf then Fin(BaseStart(c, maxAmount)) else NumMax(c.min.n, Fin(BaseStart(c, maxAmount)))
  }

  /** The stopping point: the window's upper end, lowered to the maximum when there is one. */
  function EndingPoint(c: Constraints, maxAmount: nat): (r: Num)
    requires Generable(c)
    ensures r != PosInf && LessEq(r, c.max.n)
    ensures r.Fin? ==> r.x <= BaseEnd(c, maxAmount)
  {
    if c.max.n == PosInf then Fin(BaseEnd(c, maxAmount)) else NumMin(c.max.n, Fin(BaseEnd(c, maxAmount)))
  }

  /** The `k`-th value the generator computes. */
  function Nth(c: Constraints, maxAmount: nat, k: nat): Num
    requires Generable(c)
  {
    Offset(StartingPoint(c, maxAmount), k as real * Step(c))
  }

  /** What the generator yields: the values `startingPoint + i * step` for i = 0, 1, ...,
      each but the last below the ending point and the last at or above it; nothing at
      all when the window's lower end is not below the ending point. */
  predicate SequentialOutput(c: Constraints, maxAmount: nat, values: seq<Num>)
    requires Generable(c)
  {
    var end := EndingPoint(c, maxAmount);
    && (values == [] <==> !Less(Fin(BaseStart(c, maxAmount)), end))
    && (forall k: nat :: k < |values| ==> values[k] == Nth(c, maxAmount, k))
    && (forall k: nat :: k + 1 < |values| ==> Less(values[k], end))
    && (values != [] ==> !Less(values[|values| - 1], end))
  }

  /** The loop runs at all only when the step is positive. */
  lemma StartBelowEndMeansPositiveStep(c: Constraints, maxAmount: nat)
    requires Generable(c)
    requires Less(Fin(BaseStart(c, maxAmount)), EndingPoint(c, maxAmount))
    ensures Step(c) > 0.0 && maxAmount > 0
  {
    var s, m := Step(c), maxAmount as real;
    assert BaseStart(c, maxAmount) < BaseEnd(c, maxAmount);
    assert -m * s < m * s;
  }

  /** A computed value below the ending point has an index below `maxAmount`. */
  lemma BelowEndBoundsIndex(c: Constraints, maxAmount: nat, k: nat)
    requires Generable(c) && Step(c) > 0.0
    requires Less(Nth(c, maxAmount, k), EndingPoint(c, maxAmount))
    ensures k < maxAmount
  {
    var s, m := Step(c), maxAmount as real;
    var x, e := StartingPoint(c, maxAmount).x, EndingPoint(c, maxAmount).x;
    assert x + (k as real) * s < e;
    assert -m * s / 2.0 <= x && e <= m * s / 2.0;
    assert (k as real) * s < m * s;
  }

  /** Consecutive values differ by exactly the step (while they are finite). */
  lemma SequentialStep(c: Constraints, maxAmount: nat, values: seq<Num>, k: nat)
    requires Generable(c) && SequentialOutput(c, maxAmount, values)
    requires k + 1 < |values| && values[k].Fin?
    ensures values[k + 1].Fin? && values[k + 1].x - values[k].x == Step(c)
  {
    var s := Step(c);
    assert values[k] == Nth(c, maxAmount, k) && values[k + 1] == Nth(c, maxAmount, k + 1);
    assert (k + 1) as real * s == k as real * s + s;
  }

  /** `generateSequentialData(options)` as the source writes it: the loop tests the value
      yielded last (initially the window's lower end), so the first value at or above the
      ending point is still yielded. */
  method GenerateSequentialData(c: Constraints, maxAmount: nat) returns (values: seq<Num>)
    requires Generable(c)
    ensures SequentialOutput(c, maxAmount, values)
    ensures |values| <= maxAmount + 1
  {
    var step := Step(c);
    var baseStart := BaseStart(c, maxAmount);
    var startingPoint := StartingPoint(c, maxAmount);
    var endingPoint := EndingPoint(c, maxAmount);

    var value := Fin(baseStart);
    values := [];
    var i: nat := 0;
    while Less(value, endingPoint)
      invariant i == |values| <= maxAmount + 1
      invariant forall k: nat :: k < i ==> values[k] == Nth(c, maxAmount, k)
      invariant forall k: nat :: k + 1 < i ==> Less(values[k], endingPoint)
      invariant value == if i == 0 then Fin(baseStart) else values[i - 1]
      invariant i > 0 ==> Less(Fin(baseStart), endingPoint) && step > 0.0
      decreases maxAmount + 1 - i
    {
      if i == 0 {
        StartBelowEndMeansPositiveStep(c, maxAmount);
      } else {
        BelowEndBoundsIndex(c, maxAmount, i - 1);
      }
      value := Offset(startingPoint, i as real * step);
      assert value == Nth(c, maxAmount, i);
      values := values + [value];
      i := i + 1;
    }
  }

  /** `number.divisibleBy(2).max(3)` with `maxAmount` 10: the values run -10, -8, ..., 2
      and then 4, which is above the maximum, so the schema itself rejects it. */
  lemma SequentialDataOvershootsMax(values: seq<Num>)
    requires Generable(Max(DivisibleBy(Unconstrained, JsNumber(Fin(2.0))), JsNumber(Fin(3.0))))
    requires SequentialOutput(Max(DivisibleBy(Unconstrained, JsNumber(Fin(2.0))), JsNumber(Fin(3.0))), 10, values)
    ensures |values| == 8 && values[7] == Fin(4.0)
    ensures !AdmitsNumber(Max(DivisibleBy(Unconstrained, JsNumber(Fin(2.0))), JsNumber(Fin(3.0))), values[7])
  {
    var c := Max(DivisibleBy(Unconstrained, JsNumber(Fin(2.0))), JsNumber(Fin(3.0)));
    assert Step(c) == 2.0 && BaseStart(c, 10) == -10.0;
    assert StartingPoint(c, 10) == Fin(-10.0) && EndingPoint(c, 10) == Fin(3.0);
    var n := |values|;
    assert n > 0;
    assert values[n - 1] == Fin(-10.0 + (n - 1) as real * 2.0);
    assert n - 1 >= 7;
    assert values[7] == Fin(-10.0 + 7.0 * 2.0);
  }

  /** `number.integer()` with `maxAmount` 10 yields -5, -4, ..., 5: eleven values. */
  lemma SequentialDataYieldsOneExtra(values: seq<Num>)
    requires Generable(Integer(Unconstrained))
    requires SequentialOutput(Integer(Unconstrained), 10, values)
    ensures |values| == 11
  {
    var c := Integer(Unconstrained);
    assert Step(c) == 1.0 && BaseStart(c, 10) == -5.0;
    assert StartingPoint(c, 10) == Fin(-5.0) && EndingPoint(c, 10) == Fin(5.0);
    var n := |values|;
    assert n > 0;
    assert values[n - 1] == Fin(-5.0 + (n - 1) as real * 1.0);
    assert n - 1 >= 10;
    assert values[10] == Fin(-5.0 + 10.0 * 1.0);
    assert !Less(values[10], EndingPoint(c, 10));
  }

  /** A value between the starting point and the stopping point lies within the schema's bounds. */
  lemma WindowWithinBounds(c: Constraints, maxAmount: nat, v: Num)
    requires Generable(c)
    requires LessEq(StartingPoint(c, maxAmount), v) && Less(v, EndingPoint(c, maxAmount))
    ensures LessEq(c.min.n, v) && LessEq(v, c.max.n)
  {
    LessIsStrictTotalOrder(c.min.n, StartingPoint(c, maxAmount), v);
    LessIsStrictTotalOrder(v, EndingPoint(c, maxAmount), c.max.n);
  }

  /** The generator with the loop test moved before the yield: each candidate is yielded
      only while it is below the ending point.  Every value then lies within the schema's
      bounds and at most `maxAmount` values are produced. */
  method GenerateSequentialDataWithinBounds(c: Constraints, maxAmount: nat) returns (values: seq<Num>)
    requires Generable(c)
    ensures forall k: nat :: k < |values| ==> values[k] == Nth(c, maxAmount, k)
    ensures forall k: nat :: k < |values| ==> Less(values[k], EndingPoint(c, maxAmount))
    ensures forall k: nat :: k < |values| ==> LessEq(c.min.n, values[k]) && LessEq(values[k], c.max.n)
    ensures |values| <= maxAmount
    ensures !Less(Fin(BaseStart(c, maxAmount)), EndingPoint(c, maxAmount)) ==> values == []
    ensures Less(Fin(BaseStart(c, maxAmount)), EndingPoint(c, maxAmount)) ==>
      !Less(Nth(c, maxAmount, |values|), EndingPoint(c, maxAmount))
  {
    var step := Step(c);
    var startingPoint := StartingPoint(c, maxAmount);
    var endingPoint := EndingPoint(c, maxAmount);
    values := [];
    if Less(Fin(BaseStart(c, maxAmount)), endingPoint) {
      StartBelowEndMeansPositiveStep(c, maxAmount);
      var i: nat := 0;
      while Less(Offset(startingPoint, i as real * step), endingPoint)
        invariant i == |values| <= maxAmount
        invariant forall k: nat :: k < i ==> values[k] == Nth(c, maxAmount, k)
        invariant forall k: nat :: k < i ==> Less(values[k], endingPoint)
        invariant forall k: nat :: k < i ==> LessEq(c.min.n, values[k]) && LessEq(values[k], c.max.n)
        decreases maxAmount - i
      {
        BelowEndBoundsIndex(c, maxAmount, i);
        var value := Offset(startingPoint, i as real * step);
        assert value == Nth(c, maxAmount, i);
        assert LessEq(startingPoint, value) by {
          assert i as real * step >= 0.0;
        }
        WindowWithinBounds(c, maxAmount, value);
        values := values + [value];
        i := i + 1;
      }
    }
  }
}

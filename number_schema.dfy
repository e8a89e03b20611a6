/** The Number schema of lib/schemas/number.js: its constraint record, the fluent
    mutators, value validation, and the Number-specific half of `checkSubsetOf`. */
module NumberSchema {
  import opened JsValues
  import opened SubsetResults

  /** The three constraint fields that `buildSchema` copies into a new schema.
      They hold arbitrary JavaScript values: the mutators accept anything. */
  datatype Constraints = Constraints(max: JsValue, min: JsValue, divisibleBy: JsValue)

  /** A Number schema: its constraints and the flag kept by the optional-value feature. */
  datatype Schema = Schema(constraints: Constraints, optional: bool)

  /** The initial values: no maximum, no minimum, divisor 0 (no divisibility constraint). */
  const Unconstrained: Constraints := Constraints(JsNumber(PosInf), JsNumber(NegInf), JsNumber(Fin(0.0)))

  /** All three constraint fields are JavaScript numbers (what `errors` checks field by field). */
  predicate Numeric(c: Constraints)
  {
    c.max.JsNumber? && c.min.JsNumber? && c.divisibleBy.JsNumber?
  }

  // ---------------------------------------------------------------------------
  // Fluent mutators: copy the constraints, then overwrite exactly one of them.

  function Max(c: Constraints, maximum: JsValue): (r: Constraints)
    ensures r.max == maximum && r.min == c.min && r.divisibleBy == c.divisibleBy
  {
    c.(max := maximum)
  }

  function Min(c: Constraints, minimum: JsValue): (r: Constraints)
    ensures r.min == minimum && r.max == c.max && r.divisibleBy == c.divisibleBy
  {
    c.(min := minimum)
  }

  function DivisibleBy(c: Constraints, num: JsValue): (r: Constraints)
    ensures r.divisibleBy == num && r.max == c.max && r.min == c.min
  {
    c.(divisibleBy := num)
  }

  function Integer(c: Constraints): (r: Constraints)
    ensures r == DivisibleBy(c, JsNumber(Fin(1.0)))
  {
    c.(divisibleBy := JsNumber(Fin(1.0)))
  }

  function Positive(c: Constraints): (r: Constraints)
    ensures r == Min(c, JsNumber(Fin(0.0)))
  {
    c.(min := JsNumber(Fin(0.0)))
  }

  /** Setting a field twice keeps the last value; in particular applying a mutator
      twice with the same argument is the same as applying it once. */
  lemma LastWriteWins(c: Constraints, a: JsValue, b: JsValue)
    ensures Max(Max(c, a), b) == Max(c, b)
    ensures Min(Min(c, a), b) == Min(c, b)
    ensures DivisibleBy(DivisibleBy(c, a), b) == DivisibleBy(c, b)
    ensures Max(Max(c, a), a) == Max(c, a)
  {
  }

  /** Mutators of different fields can be applied in either order. */
  lemma DisjointMutatorsCommute(c: Constraints, a: JsValue, b: JsValue)
    ensures Max(Min(c, a), b) == Min(Max(c, b), a)
    ensures Max(DivisibleBy(c, a), b) == DivisibleBy(Max(c, b), a)
    ensures Min(DivisibleBy(c, a), b) == DivisibleBy(Min(c, b), a)
  {
  }

  // ---------------------------------------------------------------------------
  // Value validation.

  datatype ValidationError =
    | NullIsNotANumber
    | UndefinedIsNotANumber
    | NotANumber(typeName: string)
    | BiggerThanMaximum(value: Num, bound: Num)
    | SmallerThanMinimum(value: Num, bound: Num)
    | NotDivisible(value: Num, divisor: Num)
  {
    /** The `error` string; `render` stands for JavaScript's number-to-string conversion. */
    function Text(render: Num -> string): string
    {
      match this
      case NullIsNotANumber => "value = null is not a number"
      case UndefinedIsNotANumber => "value = undefined is not a number"
      case NotANumber(t) => "value of type " + t + " is not a number"
      case BiggerThanMaximum(v, m) => "number = " + render(v) + " is bigger than required maximum = " + render(m)
      case SmallerThanMinimum(v, m) => "number = " + render(v) + " is smaller than required minimum = " + render(m)
      case NotDivisible(v, d) => "number = " + render(v) + " is not divisible by = " + render(d)
    }
  }

  /** An error's text names what it is about: a non-number by its `typeof`; a rejected
      number opens the message and the bound or divisor it breaks closes it. */
  lemma ErrorTextNamesItsValues(e: ValidationError, render: Num -> string)
    ensures e.NotANumber? ==> StartsWith(e.Text(render), "value of type " + e.typeName)
    ensures e.BiggerThanMaximum? || e.SmallerThanMinimum? ==>
      StartsWith(e.Text(render), "number = " + render(e.value)) && EndsWith(e.Text(render), render(e.bound))
    ensures e.NotDivisible? ==>
      StartsWith(e.Text(render), "number = " + render(e.value)) && EndsWith(e.Text(render), render(e.divisor))
  {
    match e
    case NotANumber(t) =>
      Affixes("value of type " + t, " is not a number");
    case BiggerThanMaximum(v, b) =>
      Affixes("number = " + render(v), " is bigger than required maximum = ");
      Affixes("number = " + render(v) + " is bigger than required maximum = ", render(b));
    case SmallerThanMinimum(v, b) =>
      Affixes("number = " + render(v), " is smaller than required minimum = ");
      Affixes("number = " + render(v) + " is smaller than required minimum = ", render(b));
    case NotDivisible(v, d) =>
      Affixes("number = " + render(v), " is not divisible by = ");
      Affixes("number = " + render(v) + " is not divisible by = ", render(d));
    case _ =>
  }

  /** `{}` on success, `{error}` on failure. */
  datatype ValidationResult = Valid | Invalid(error: ValidationError)

  /** The numbers a schema admits: within both bounds and, when the divisor is
      positive, a multiple of it in the sense of JavaScript's `%`. */
  predicate AdmitsNumber(c: Constraints, n: Num)
    requires Numeric(c)
  {
    && LessEq(n, c.max.n)
    && LessEq(c.min.n, n)
    && (LessEq(c.divisibleBy.n, Fin(0.0)) || RemIsZero(n, c.divisibleBy.n))
  }

  /** The values a schema admits: `null` and `undefined` exactly when it is optional,
      otherwise the numbers it admits, and nothing else. */
  predicate Accepts(s: Schema, v: JsValue)
    requires v.JsNumber? ==> Numeric(s.constraints)
  {
    match v
    case JsNull => s.optional
    case JsUndefined => s.optional
    case JsNumber(n) => AdmitsNumber(s.constraints, n)
    case _ => false
  }

  /** `validate(value)`: the checks run in a fixed order and the first one that fails
      decides the single error reported. */
  function Validate(s: Schema, v: JsValue): (r: ValidationResult)
    requires v.JsNumber? ==> Numeric(s.constraints)
    ensures r.Valid? <==> Accepts(s, v)
  {
    var c := s.constraints;
    match v
    case JsNull => if s.optional then Valid else Invalid(NullIsNotANumber)
    case JsUndefined => if s.optional then Valid else Invalid(UndefinedIsNotANumber)
    case JsNumber(n) =>
      if Less(c.max.n, n) then Invalid(BiggerThanMaximum(n, c.max.n))
      else if Less(n, c.min.n) then Invalid(SmallerThanMinimum(n, c.min.n))
      else if Less(Fin(0.0), c.divisibleBy.n) && !RemIsZero(n, c.divisibleBy.n) then Invalid(NotDivisible(n, c.divisibleBy.n))
      else Valid
    case _ => Invalid(NotANumber(TypeOf(v)))
  }

  /** `null` and `undefined` pass exactly when the schema is optional; any other
      non-number fails with its `typeof`, whether or not the schema is optional. */
  lemma ValidateNonNumbers(s: Schema, v: JsValue)
    requires !v.JsNumber?
    ensures v.JsNull? ==> Validate(s, v) == (if s.optional then Valid else Invalid(NullIsNotANumber))
    ensures v.JsUndefined? ==> Validate(s, v) == (if s.optional then Valid else Invalid(UndefinedIsNotANumber))
    ensures !v.JsNull? && !v.JsUndefined? ==> Validate(s, v) == Invalid(NotANumber(TypeOf(v)))
    ensures Validate(s, v) == Validate(s.(optional := !s.optional), v) <==> !v.JsNull? && !v.JsUndefined?
  {
  }

  /** On a number the maximum is checked first, then the minimum, then divisibility:
      a value breaking several constraints is reported for the first of them only. */
  lemma ValidateReportsFirstFailure(s: Schema, n: Num)
    requires Numeric(s.constraints)
    ensures var c := s.constraints; var r := Validate(s, JsNumber(n));
      && (Less(c.max.n, n) ==> r == Invalid(BiggerThanMaximum(n, c.max.n)))
      && (LessEq(n, c.max.n) && Less(n, c.min.n) ==> r == Invalid(SmallerThanMinimum(n, c.min.n)))
      && (LessEq(n, c.max.n) && LessEq(c.min.n, n) && !AdmitsNumber(c, n) ==> r == Invalid(NotDivisible(n, c.divisibleBy.n)))
  {
  }

  /** `number.max(10).validate(11)` reports that 11 is bigger than the required maximum 10. */
  lemma MaxTenRejectsEleven()
    ensures Validate(Schema(Max(Unconstrained, JsNumber(Fin(10.0))), false), JsNumber(Fin(11.0)))
         == Invalid(BiggerThanMaximum(Fin(11.0), Fin(10.0)))
  {
  }

  // ---------------------------------------------------------------------------
  // The Number-specific containment check.

  /** `isDivisibleSubset`: a source divisor of 0 (no constraint) is contained only in a
      target without one; a target divisor of 0 contains any other source; otherwise the
      source divisor must be an exact multiple of the target divisor. */
  function IsDivisibleSubset(source: Num, target: Num): (r: bool)
    ensures source == Fin(0.0) ==> (r <==> target == Fin(0.0))
    ensures source != Fin(0.0) && target == Fin(0.0) ==> r
    ensures source != Fin(0.0) && target != Fin(0.0) && !(source.Fin? && target.Fin?) ==> !r
  {
    if source == Fin(0.0) then target == Fin(0.0)
    else if target == Fin(0.0) then true
    else RemIsZero(source, target)
  }

  /** For finite nonzero divisors, the rule is "the source divisor is a whole multiple
      of the target divisor" (any sign). */
  lemma DivisibleSubsetIffMultiple(source: real, target: real)
    requires source != 0.0 && target != 0.0
    ensures IsDivisibleSubset(Fin(source), Fin(target)) <==> exists k: int :: source == Multiple(k, target)
  {
    RemIsZeroIffMultiple(source, target);
  }

  /** The Number half of `checkSubsetOf`: divisibility, then the maximum, then the
      minimum; the first failing comparison gives the reason. */
  function CheckConstraintsSubsetOf(c: Constraints, t: Constraints): (r: SubsetResult)
    requires Numeric(c) && Numeric(t)
    ensures r.IsSubset? <==>
      IsDivisibleSubset(c.divisibleBy.n, t.divisibleBy.n) && LessEq(c.max.n, t.max.n) && LessEq(t.min.n, c.min.n)
    ensures !IsDivisibleSubset(c.divisibleBy.n, t.divisibleBy.n) ==>
      r == NotSubset(DivisorMismatch(c.divisibleBy.n, t.divisibleBy.n))
    ensures IsDivisibleSubset(c.divisibleBy.n, t.divisibleBy.n) && Less(t.max.n, c.max.n) ==>
      r == NotSubset(TargetMaxSmaller(t.max.n, c.max.n))
    ensures IsDivisibleSubset(c.divisibleBy.n, t.divisibleBy.n) && LessEq(c.max.n, t.max.n) && Less(c.min.n, t.min.n) ==>
      r == NotSubset(TargetMinBigger(t.min.n, c.min.n))
  {
    if !IsDivisibleSubset(c.divisibleBy.n, t.divisibleBy.n) then NotSubset(DivisorMismatch(c.divisibleBy.n, t.divisibleBy.n))
    else if Less(t.max.n, c.max.n) then NotSubset(TargetMaxSmaller(t.max.n, c.max.n))
    else if Less(c.min.n, t.min.n) then NotSubset(TargetMinBigger(t.min.n, c.min.n))
    else IsSubset
  }

  /** The initial schema admits every number, and every schema with numeric fields
      is a subset of it. */
  lemma UnconstrainedAdmitsEverything(c: Constraints, n: Num)
    requires Numeric(c)
    ensures Numeric(Unconstrained)
    ensures AdmitsNumber(Unconstrained, n)
    ensures CheckConstraintsSubsetOf(c, Unconstrained) == IsSubset
  {
  }

  /** Soundness: when the check answers "subset" and the source divisor is not negative,
      every number the source admits, the target admits. */
  lemma ConstraintsSubsetIsSound(c: Constraints, t: Constraints, n: Num)
    requires Numeric(c) && Numeric(t)
    requires CheckConstraintsSubsetOf(c, t) == IsSubset
    requires LessEq(Fin(0.0), c.divisibleBy.n)
    requires AdmitsNumber(c, n)
    ensures AdmitsNumber(t, n)
  {
    var sd, td := c.divisibleBy.n, t.divisibleBy.n;
    if Less(Fin(0.0), td) {
      assert sd != Fin(0.0) && td != Fin(0.0) && RemIsZero(sd, td);
      assert RemIsZero(n, sd);
      if td.Fin? {
        RemIsZeroTransitive(n.x, sd.x, td.x);
      }
    }
  }

  /** The divisor precondition of soundness cannot be dropped: `divisibleBy(-2)` is
      reported a subset of `divisibleBy(2)`, since -2 % 2 === 0, yet it admits 3
      (a divisor that is not positive is ignored by `validate`) and the target does not. */
  lemma NegativeSourceDivisorIsUnsound()
    ensures CheckConstraintsSubsetOf(DivisibleBy(Unconstrained, JsNumber(Fin(-2.0))), DivisibleBy(Unconstrained, JsNumber(Fin(2.0)))) == IsSubset
    ensures AdmitsNumber(DivisibleBy(Unconstrained, JsNumber(Fin(-2.0))), Fin(3.0))
    ensures !AdmitsNumber(DivisibleBy(Unconstrained, JsNumber(Fin(2.0))), Fin(3.0))
  {
    assert (-2.0 / 2.0).Floor == -1;
    assert (3.0 / 2.0).Floor == 1;
  }

  /** Reflexivity: a schema with a finite divisor is a subset of itself, because all
      three comparisons are non-strict. */
  lemma CheckConstraintsSubsetReflexive(c: Constraints)
    requires Numeric(c) && c.divisibleBy.n.Fin?
    ensures CheckConstraintsSubsetOf(c, c) == IsSubset
  {
    var d := c.divisibleBy.n.x;
    if d != 0.0 {
      RemIsZeroSelf(d);
    }
  }

  /** With an infinite divisor reflexivity fails: `Infinity % Infinity` is NaN. */
  lemma InfiniteDivisorIsNotReflexive()
    ensures var c := DivisibleBy(Unconstrained, JsNumber(PosInf));
      CheckConstraintsSubsetOf(c, c) == NotSubset(DivisorMismatch(PosInf, PosInf))
  {
  }

  /** Tightening the maximum gives a subset of the schema it came from. */
  lemma MaxNarrows(c: Constraints, m: Num)
    requires Numeric(c) && c.divisibleBy.n.Fin?
    requires LessEq(m, c.max.n)
    ensures CheckConstraintsSubsetOf(Max(c, JsNumber(m)), c) == IsSubset
  {
    CheckConstraintsSubsetReflexive(c);
  }

  /** Raising the minimum gives a subset of the schema it came from. */
  lemma MinNarrows(c: Constraints, m: Num)
    requires Numeric(c) && c.divisibleBy.n.Fin?
    requires LessEq(c.min.n, m)
    ensures CheckConstraintsSubsetOf(Min(c, JsNumber(m)), c) == IsSubset
  {
    CheckConstraintsSubsetReflexive(c);
  }

  /** Replacing a finite nonzero divisor by a nonzero whole multiple of it gives a subset. */
  lemma MultipleDivisorNarrows(c: Constraints, k: int)
    requires Numeric(c) && c.divisibleBy.n.Fin? && c.divisibleBy.n.x != 0.0 && k != 0
    ensures CheckConstraintsSubsetOf(DivisibleBy(c, JsNumber(Fin(Multiple(k, c.divisibleBy.n.x)))), c) == IsSubset
  {
    var d := c.divisibleBy.n.x;
    assert Multiple(k, d) != 0.0;
    DivisibleSubsetIffMultiple(Multiple(k, d), d);
  }
}

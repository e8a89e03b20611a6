/** The answer of `checkSubsetOf`, shared by the generic subset envelope and the
    Number schema's own containment check.  A failure carries a tagged reason
    with the values it mentions; `Text` renders the message, given how numbers print. */
module SubsetResults {
  import opened JsValues

  predicate StartsWith(m: string, prefix: string)
  {
    |prefix| <= |m| && m[..|prefix|] == prefix
  }

  predicate EndsWith(m: string, suffix: string)
  {
    |suffix| <= |m| && m[|m| - |suffix|..] == suffix
  }

  /** A concatenation starts with its first part and ends with its second. */
  lemma Affixes(a: string, b: string)
    ensures StartsWith(a + b, a) && EndsWith(a + b, b)
  {
  }

  datatype NotSubsetReason =
    | TargetIsNull
    | TargetIsUndefined
    | TargetNotAnObject(typeName: string)
    | TargetNotASchema
    | KindMismatch(sourceKind: string, targetKind: string)
    | AllowsNullWhileTargetDoesNot
    | DivisorMismatch(sourceDivisor: Num, targetDivisor: Num)
    | TargetMaxSmaller(targetMax: Num, sourceMax: Num)
    | TargetMinBigger(targetMin: Num, sourceMin: Num)
  {
    /** The `reason` string; `render` stands for JavaScript's number-to-string conversion. */
    function Text(render: Num -> string): string
    {
      match this
      case TargetIsNull => "target schema is null"
      case TargetIsUndefined => "target schema is undefined"
      case TargetNotAnObject(t) => "target of type " + t + " is not a schema"
      case TargetNotASchema => "target object is not a schema"
      case KindMismatch(s, t) => s + " cannot be a subset of " + t
      case AllowsNullWhileTargetDoesNot => "source schema allows null values while target does not"
      case DivisorMismatch(s, t) =>
        "source division check value = " + render(s) + " is not divisible by target value = " + render(t)
      case TargetMaxSmaller(t, s) =>
        "target maximum value = " + render(t) + " is smaller than source value = " + render(s)
      case TargetMinBigger(t, s) =>
        "target minimum value = " + render(t) + " is bigger than source value = " + render(s)
    }
  }

  /** A reason's text names what it is about: a non-object target by its `typeof`, a kind
      mismatch by the source kind first and the target kind last, a divisor mismatch by
      the target's divisor last, and a bound failure by the source's bound last. */
  lemma ReasonTextNamesItsValues(r: NotSubsetReason, render: Num -> string)
    ensures r.TargetNotAnObject? ==> StartsWith(r.Text(render), "target of type " + r.typeName)
    ensures r.KindMismatch? ==> StartsWith(r.Text(render), r.sourceKind) && EndsWith(r.Text(render), r.targetKind)
    ensures r.DivisorMismatch? ==> EndsWith(r.Text(render), render(r.targetDivisor))
    ensures r.TargetMaxSmaller? ==> EndsWith(r.Text(render), render(r.sourceMax))
    ensures r.TargetMinBigger? ==> EndsWith(r.Text(render), render(r.sourceMin))
  {
    match r
    case TargetNotAnObject(t) =>
      Affixes("target of type " + t, " is not a schema");
    case KindMismatch(s, t) =>
      Affixes(s, " cannot be a subset of ");
      Affixes(s + " cannot be a subset of ", t);
    case DivisorMismatch(s, t) =>
      Affixes("source division check value = " + render(s) + " is not divisible by target value = ", render(t));
    case TargetMaxSmaller(t, s) =>
      Affixes("target maximum value = " + render(t) + " is smaller than source value = ", render(s));
    case TargetMinBigger(t, s) =>
      Affixes("target minimum value = " + render(t) + " is bigger than source value = ", render(s));
    case _ =>
  }

  /** `{isSubset: true}` or `{isSubset: false, reason}`. */
  datatype SubsetResult = IsSubset | NotSubset(reason: NotSubsetReason)
}

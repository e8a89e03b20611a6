/** The generic envelope around a kind's own `checkSubsetOf`: pre-checks on the target,
    in a fixed order, that reject anything that is not a schema of the same kind with a
    compatible optional flag before the kind-specific comparison runs.  Here the source
    is a Number schema; a target schema of another kind is known only by its kind name
    and optional flag. */
module SubsetEnvelope {
  import opened JsValues
  import opened SubsetResults
  import opened NumberSchema

  /** A schema of some kind: a Number schema, or a schema of another kind (e.g. BooleanSchema).
      The kind name of `OtherKind` is meant to differ from "NumberSchema"; the model does
      not enforce this, and an `OtherKind` named "NumberSchema" stands for no real schema. */
  datatype AnySchema = NumberKind(schema: Schema) | OtherKind(kindName: string, optional: bool)
  {
    function KindName(): string
    {
      match this
      case NumberKind(_) => "NumberSchema"
      case OtherKind(name, _) => name
    }

    predicate IsOptional()
    {
      match this
      case NumberKind(s) => s.optional
      case OtherKind(_, o) => o
    }
  }

  /** What `checkSubsetOf` can be handed. */
  datatype Target =
    | TargetNull
    | TargetUndefined
    | Primitive(typeName: string)  // a non-object value, with its `typeof`
    | PlainObject                  // an object without a schema's internals
    | SchemaTarget(schema: AnySchema)

  /** Both Number schemas have numeric fields whenever the pre-checks let the Number
      comparison run. */
  predicate Comparable(source: Schema, target: Target)
  {
    target.SchemaTarget? && target.schema.NumberKind? && (source.optional ==> target.schema.schema.optional) ==>
      Numeric(source.constraints) && Numeric(target.schema.schema.constraints)
  }

  /** `checkSubsetOf(target)` on a Number schema: null, undefined, a non-object, a
      non-schema object, a different kind, an optional source against a required target;
      the first that applies gives the reason, otherwise the Number comparison decides. */
  function CheckSubsetOf(source: Schema, target: Target): (r: SubsetResult)
    requires Comparable(source, target)
    ensures r.IsSubset? <==>
      && target.SchemaTarget? && target.schema.NumberKind?
      && (source.optional ==> target.schema.schema.optional)
      && CheckConstraintsSubsetOf(source.constraints, target.schema.schema.constraints).IsSubset?
    ensures target == TargetNull ==> r == NotSubset(TargetIsNull)
    ensures target == TargetUndefined ==> r == NotSubset(TargetIsUndefined)
    ensures target.Primitive? ==> r == NotSubset(TargetNotAnObject(target.typeName))
    ensures target == PlainObject ==> r == NotSubset(TargetNotASchema)
    ensures target.SchemaTarget? && !target.schema.NumberKind? ==>
      r == NotSubset(KindMismatch("NumberSchema", target.schema.KindName()))
    ensures target.SchemaTarget? && target.schema.NumberKind? && source.optional && !target.schema.schema.optional ==>
      r == NotSubset(AllowsNullWhileTargetDoesNot)
    ensures target.SchemaTarget? && target.schema.NumberKind? && (source.optional ==> target.schema.schema.optional) ==>
      r == CheckConstraintsSubsetOf(source.constraints, target.schema.schema.constraints)
  {
    match target
    case TargetNull => NotSubset(TargetIsNull)
    case TargetUndefined => NotSubset(TargetIsUndefined)
    case Primitive(t) => NotSubset(TargetNotAnObject(t))
    case PlainObject => NotSubset(TargetNotASchema)
    case SchemaTarget(t) =>
      if !t.NumberKind? then NotSubset(KindMismatch("NumberSchema", t.KindName()))
      else if source.optional && !t.IsOptional() then NotSubset(AllowsNullWhileTargetDoesNot)
      else CheckConstraintsSubsetOf(source.constraints, t.schema.constraints)
  }

  /** Soundness of the whole check: when a Number schema with a non-negative divisor is
      reported a subset of another, every value it accepts (null and undefined included)
      the other accepts, and `validate` agrees. */
  lemma SubsetIsSound(s: Schema, t: Schema, v: JsValue)
    requires Numeric(s.constraints) && Numeric(t.constraints)
    requires CheckSubsetOf(s, SchemaTarget(NumberKind(t))) == IsSubset
    requires LessEq(Fin(0.0), s.constraints.divisibleBy.n)
    ensures Accepts(s, v) ==> Accepts(t, v)
    ensures Validate(s, v).Valid? ==> Validate(t, v).Valid?
  {
    if v.JsNumber? && AdmitsNumber(s.constraints, v.n) {
      ConstraintsSubsetIsSound(s.constraints, t.constraints, v.n);
    }
  }

  /** Reflexivity: a Number schema with numeric fields and a finite divisor is a subset of itself. */
  lemma SubsetReflexive(s: Schema)
    requires Numeric(s.constraints) && s.constraints.divisibleBy.n.Fin?
    ensures CheckSubsetOf(s, SchemaTarget(NumberKind(s))) == IsSubset
  {
    CheckConstraintsSubsetReflexive(s.constraints);
  }

  /** Making a required schema optional never yields a subset of the original, whatever
      its constraint fields hold. */
  lemma OptionalIsNotSubsetOfRequired(s: Schema)
    requires !s.optional
    ensures CheckSubsetOf(s.(optional := true), SchemaTarget(NumberKind(s))) == NotSubset(AllowsNullWhileTargetDoesNot)
  {
  }

  /** A target that is not a Number schema is never a superset, whatever the source; each
      kind of non-schema target gets its fixed reason. */
  lemma OnlyNumberSchemasContain(s: Schema, target: Target)
    requires !(target.SchemaTarget? && target.schema.NumberKind?)
    ensures CheckSubsetOf(s, target).NotSubset?
    ensures target == TargetNull ==> CheckSubsetOf(s, target).reason == TargetIsNull
    ensures target == TargetUndefined ==> CheckSubsetOf(s, target).reason == TargetIsUndefined
    ensures target.Primitive? ==> CheckSubsetOf(s, target).reason == TargetNotAnObject(target.typeName)
    ensures target == PlainObject ==> CheckSubsetOf(s, target).reason == TargetNotASchema
  {
  }
}

# Number schema of xema-js, modelled in Dafny

xema-js builds immutable value schemas with fluent calls (`number.max(10).min(0)`),
validates values against them, checks whether one schema's values are contained in
another's, lints a schema's own fields, and generates sample data. This project models
the Number schema of `lib/schemas/number.js` and the generic subset envelope that
wraps its `checkSubsetOf`. It proves the properties those operations promise.

Modules:

- `JsValues` (`js_values.dfy`) holds JavaScript values, reduced to what `typeof` and the
  checks need. Numbers are `Num = NegInf | Fin(real) | PosInf`, so `Infinity` is kept.
  The file also defines JavaScript `<`, `Math.max`/`Math.min`, and the test
  `a % b === 0` (`RemIsZero`), with the lemma that it means "whole multiple".
- `SubsetResults` (`subset_results.dfy`) holds the `checkSubsetOf` answer: `IsSubset`,
  or `NotSubset` with a tagged reason.
- `NumberSchema` (`number_schema.dfy`) holds the constraint record, the mutators,
  `validate`, `isDivisibleSubset` and the Number half of `checkSubsetOf`. It also holds
  soundness, reflexivity and narrowing lemmas.
- `NumberErrors` (`number_errors.dfy`) holds the `errors` lint. It is a method that
  pushes the candidate messages and then filters them in a loop.
- `NumberSequence` (`number_sequence.dfy`) holds `generateSequentialData` as a loop. It
  also holds the corrected loop from the findings below.
- `SubsetEnvelope` (`subset_envelope.dfy`) holds the pre-checks that run before the
  Number comparison. Their order and reasons are the ones test/schemas/boolean.test.js
  pins.

Representation choices:

- `buildSchema` copies the three constraint fields. The model keeps them in
  `Constraints(max, min, divisibleBy)`, whose fields are arbitrary `JsValue`s, because
  the mutators accept anything and `errors` inspects what they stored.
  `Unconstrained` stands for the initial values (lines 7-11).
- `Schema(constraints, optional)` adds the optional flag, which `validate` and the
  envelope read. The mutators map `Constraints` to `Constraints`, so the model says
  nothing about whether a derived schema keeps `optional`. That is decided outside
  number.js.
- Messages are tagged values. `Text(render)` spells them out, where `render: Num -> string`
  stands for JavaScript's number printing.
- `validate` checks `null` and `undefined` against the optional flag before it checks
  the type (lines 54-57), so an optional schema accepts both and a required one rejects
  them with their own messages rather than with a `typeof` message. The model keeps
  that order.
- The lazy generator becomes a method that returns the finite sequence of yielded values.

Where the intended behaviour and the code part ways, this model follows the code:

- Generated values are meant to stay within `[min, max]`, and a request for `maxAmount`
  values is meant to yield at most that many. The sequential generator can break both
  (see Findings).
- One would expect every schema to be a subset of itself. With `divisibleBy(Infinity)`
  the code says otherwise, because `Infinity % Infinity` is NaN (see
  `InfiniteDivisorIsNotReflexive`).

## Model

| member | source | states |
|---|---|---|
| JsValues.TypeOf | lib/schemas/number.js:58-59 | `typeof` gives "number" exactly for numbers and "undefined" exactly for `undefined`; `typeof null` is "object" |
| JsValues.Less | lib/schemas/number.js:62-64 | JavaScript `<` on numbers: -Infinity lies below every other number, Infinity above every other number, and nothing is below itself |
| JsValues.LessEq | lib/schemas/number.js:76-79 | the negated test `!(b < a)` means "below or equal" |
| JsValues.LessIsStrictTotalOrder | lib/schemas/number.js:62-64 | `<` is irreflexive, asymmetric, transitive and total, so "first failing bound" is well defined |
| JsValues.NumMax | lib/schemas/number.js:90 | `Math.max` returns one of its arguments, and that argument is at least as large as both |
| JsValues.NumMin | lib/schemas/number.js:91 | `Math.min` returns one of its arguments, and that argument is no larger than either |
| JsValues.Offset | lib/schemas/number.js:95 | adding a finite amount keeps a number finite, moves it by exactly that amount, and leaves an infinity unchanged |
| JsValues.RemIsZero | lib/schemas/number.js:66 | `a % b === 0` is false when the dividend is infinite or the divisor is 0 (NaN); with an infinite divisor it holds exactly for a zero dividend; 0 passes for every nonzero divisor |
| JsValues.RemIsZeroIffMultiple | lib/schemas/number.js:66 | for a finite nonzero divisor, `x % y === 0` holds exactly when x is a whole multiple of y |
| JsValues.RemIsZeroTransitive | lib/schemas/number.js:138 | a multiple of a multiple of z is a multiple of z |
| JsValues.RemIsZeroSelf | lib/schemas/number.js:138 | every finite nonzero number divides itself |
| NumberSchema.Max | lib/schemas/number.js:32 | `max(m)` sets the maximum to m and keeps the minimum and the divisor |
| NumberSchema.Min | lib/schemas/number.js:33 | `min(m)` sets the minimum to m and keeps the maximum and the divisor |
| NumberSchema.DivisibleBy | lib/schemas/number.js:34 | `divisibleBy(d)` sets the divisor to d and keeps both bounds |
| NumberSchema.Integer | lib/schemas/number.js:35 | `integer()` is `divisibleBy(1)` |
| NumberSchema.Positive | lib/schemas/number.js:36 | `positive()` is `min(0)` |
| NumberSchema.LastWriteWins | lib/schemas/number.js:14-19 | setting a field twice keeps the last value, so `max(5).max(5)` equals `max(5)` |
| NumberSchema.DisjointMutatorsCommute | lib/schemas/number.js:32-34 | mutators of different fields give the same schema in either order |
| NumberSchema.UnconstrainedAdmitsEverything | lib/schemas/number.js:7-11 | the initial values (no bounds, divisor 0) have numeric fields, admit every number, and every schema with numeric fields is a subset of them |
| NumberSchema.ErrorTextNamesItsValues | lib/schemas/number.js:55-67 | a non-number's `error` text opens by naming its `typeof`; a rejected number's text opens with that number and closes with the bound or divisor it breaks |
| NumberSchema.Validate | lib/schemas/number.js:52-70 | a value passes exactly when it is admitted: `null`/`undefined` iff optional, or a number within both bounds and, when the divisor is positive, a multiple of it |
| NumberSchema.ValidateNonNumbers | lib/schemas/number.js:54-59 | `null` and `undefined` pass iff the schema is optional; any other non-number fails with its `typeof` whatever the flag; only null and undefined depend on the flag |
| NumberSchema.ValidateReportsFirstFailure | lib/schemas/number.js:62-67 | on a number the error comes from the first failing check: maximum, then minimum, then divisibility |
| NumberSchema.MaxTenRejectsEleven | lib/schemas/number.js:62-63 | `number.max(10).validate(11)` fails as "bigger than required maximum", carrying 11 and 10 |
| NumberSchema.IsDivisibleSubset | lib/schemas/number.js:134-140 | a source without a divisor (0) is contained only in a target without one; a target without a divisor contains any source; when both divisors are nonzero, an infinite one on either side is never contained |
| NumberSchema.DivisibleSubsetIffMultiple | lib/schemas/number.js:134-140 | for nonzero finite divisors, `isDivisibleSubset` holds exactly when the source divisor is a whole multiple of the target divisor |
| NumberSchema.CheckConstraintsSubsetOf | lib/schemas/number.js:72-83 | subset iff the divisor rule holds, source max is at most target max, and source min is at least target min; otherwise the reason names the first failure, in the order divisor, max, min |
| NumberSchema.ConstraintsSubsetIsSound | lib/schemas/number.js:72-83 | if the check says subset and the source divisor is not negative, every number the source admits, the target admits |
| NumberSchema.NegativeSourceDivisorIsUnsound | lib/schemas/number.js:134-140 | the divisor condition is needed: `divisibleBy(-2)` counts as a subset of `divisibleBy(2)`, yet it admits 3 and the target does not |
| NumberSchema.CheckConstraintsSubsetReflexive | lib/schemas/number.js:72-83 | a schema with numeric fields and a finite divisor is a subset of itself |
| NumberSchema.InfiniteDivisorIsNotReflexive | lib/schemas/number.js:138 | `divisibleBy(Infinity)` is not a subset of itself, because `Infinity % Infinity` is NaN |
| NumberSchema.MaxNarrows | lib/schemas/number.js:32 | for a finite divisor, lowering the maximum gives a subset of the original schema |
| NumberSchema.MinNarrows | lib/schemas/number.js:33 | for a finite divisor, raising the minimum gives a subset of the original schema |
| NumberSchema.MultipleDivisorNarrows | lib/schemas/number.js:34 | for a finite nonzero divisor, replacing it by a nonzero whole multiple of it gives a subset |
| NumberErrors.PropertyValueMessage | lib/schemas/number.js:121-132 | the message is empty exactly when the value is a number; otherwise it begins with the property's description |
| NumberErrors.RangeMessage | lib/schemas/number.js:45-46 | the range message is never empty, so the filter keeps it, and it never equals any field message |
| NumberErrors.Pushed | lib/schemas/number.js:42-46 | three field messages in the order max, min, divisor, plus a fourth exactly when both bounds are numbers and max < min |
| NumberErrors.NonEmpty | lib/schemas/number.js:48 | the filter keeps exactly the non-empty messages and never adds any |
| NumberErrors.NonEmptyAppend | lib/schemas/number.js:48 | filtering a concatenation is the same as concatenating the filtered parts |
| NumberErrors.FilterOfPushed | lib/schemas/number.js:42-48 | the lint's list is exactly the non-empty field messages in the order max, min, divisor, followed by the range message when the bounds are inverted |
| NumberErrors.LintReport | lib/schemas/number.js:38-50 | one message per non-number field; the range message iff both bounds are numbers and max < min; empty iff all fields are numbers and min <= max; never more than 4 |
| NumberErrors.Errors | lib/schemas/number.js:38-50 | the pushed messages filtered to the non-empty ones, with the lint properties above about the actual result |
| NumberSequence.StartingPoint | lib/schemas/number.js:90 | the first value is never -Infinity, is at least the minimum and, when finite, is at least the window's lower end |
| NumberSequence.EndingPoint | lib/schemas/number.js:91 | the stopping point is never +Infinity, is at most the maximum and, when finite, is at most the window's upper end |
| NumberSequence.Step | lib/schemas/number.js:87 | the step is never 0, and it is the divisor whenever the divisor is not 0 |
| NumberSequence.BaseStart | lib/schemas/number.js:88 | the window's lower end is the negated upper end, and the window spans exactly `maxAmount` steps |
| NumberSequence.BaseEnd | lib/schemas/number.js:89 | the window's upper end is positive exactly when `maxAmount` and the step are positive |
| NumberSequence.StartBelowEndMeansPositiveStep | lib/schemas/number.js:88-94 | the loop runs at all only when the step and `maxAmount` are positive |
| NumberSequence.BelowEndBoundsIndex | lib/schemas/number.js:88-95 | a computed value below the stopping point has an index below `maxAmount` |
| NumberSequence.SequentialStep | lib/schemas/number.js:94-96 | consecutive generated values differ by exactly the step |
| NumberSequence.GenerateSequentialData | lib/schemas/number.js:85-98 | yields startingPoint + i*step for i = 0, 1, …; every value but the last is below the stopping point and the last is not; nothing when the window's lower end is not below the stopping point; at most maxAmount + 1 values |
| NumberSequence.SequentialDataOvershootsMax | lib/schemas/number.js:93-97 | for `divisibleBy(2).max(3)` and maxAmount 10, the eighth value is 4, which the schema rejects |
| NumberSequence.SequentialDataYieldsOneExtra | lib/schemas/number.js:93-97 | for `integer()` and maxAmount 10, eleven values are yielded |
| NumberSequence.WindowWithinBounds | lib/schemas/number.js:90-91 | a value from the starting point up to (not including) the stopping point lies within the schema's [min, max] |
| NumberSequence.GenerateSequentialDataWithinBounds | lib/schemas/number.js:93-97 | corrected loop: the same evenly spaced values, each below the stopping point and within [min, max], at most maxAmount of them, stopping at the first value not below the stopping point |
| SubsetResults.ReasonTextNamesItsValues | lib/schemas/number.js:74-81 | a divisor mismatch's `reason` text closes with the target's divisor, and a maximum or minimum failure's closes with the source's bound; a kind mismatch opens with the source kind and closes with the target kind; a non-object target's reason names its `typeof` (the pre-check texts are the ones test/schemas/boolean.test.js:27-63 asserts) |
| SubsetEnvelope.CheckSubsetOf | test/schemas/boolean.test.js:24-71 | the pre-checks run in order, each with its fixed reason: null, undefined, a non-object (named by its `typeof`), a non-schema object, another kind ("NumberSchema cannot be a subset of <kind>"), an optional source against a required Number target; past them the answer, reason included, is the Number comparison's; subset iff all pass and that comparison says subset |
| SubsetEnvelope.SubsetIsSound | lib/schemas/number.js:143 | when the whole check says subset and the source divisor is not negative, every value the source accepts (null and undefined included) the target accepts, and `validate` agrees |
| SubsetEnvelope.SubsetReflexive | test/schemas/boolean.test.js:67-71 | a Number schema with numeric fields and a finite divisor is a subset of itself |
| SubsetEnvelope.OptionalIsNotSubsetOfRequired | test/schemas/boolean.test.js:60-65 | an optional copy of a required schema is not a subset of it, whatever its constraint fields hold, with the reason "source schema allows null values while target does not" |
| SubsetEnvelope.OnlyNumberSchemasContain | test/schemas/boolean.test.js:24-50 | null, undefined, primitives and non-schema objects are never supersets, each with the fixed reason the tests assert |

## Left out

- `generateRandomData` (lib/schemas/number.js:100-117) is not modelled. It draws from unseeded `Math.random`, so its output cannot be determined.
- NaN is not a value of the model, so the `isNaN` branch of `validate` (line 60) cannot be taken. Arithmetic is exact: there is no IEEE rounding and no -0. The default step 0.1 is exactly 1/10.
- The `info` getter (lines 23-30) is a plain snapshot and is not modelled.
- Parts of the feature modules are not part of this model: the result cache, generator-option cleaning, the mixin mechanism (lines 142-143), and the `optional()` mutator. Only the behaviour of the subset envelope is modelled, as the tests pin it. `maxAmount` is taken as an already-cleaned natural number.
- Symbol-keyed fields, `Object.create`/`Object.assign` and the module export (lines 1-5, 15, 144) become datatype fields and update expressions.
- How numbers print inside messages is the `render` parameter of `Text`.
- The boolean schema is not modelled. A schema of another kind appears only as its kind name and optional flag. Which values count as "not an object" is decided in the envelope's own code; the model takes the value's `typeof` as given.
- NumberSchema.Validate: requires all three constraint fields to be numbers only when the value is a number. `null`, `undefined` and other non-numbers are answered before any comparison (lines 54-59) and are modelled on every schema. A number checked against ill-typed fields is not modelled: JavaScript's `<` and `%` would coerce them (null to 0, strings parsed, symbols throw). The `errors` lint reports exactly these schemas.
- NumberSchema.CheckConstraintsSubsetOf: requires numeric fields on both schemas, for the same reason as `Validate`.
- SubsetEnvelope.CheckSubsetOf: requires numeric fields on both schemas only when every pre-check passes and the Number comparison runs, for the same reason as `Validate`. All pre-check answers, including an optional source against a required target, are modelled on any fields.
- NumberSchema.CheckConstraintsSubsetReflexive: requires a finite divisor, because with `divisibleBy(Infinity)` the code does not treat a schema as a subset of itself.
- SubsetEnvelope.SubsetReflexive: requires a finite divisor, for the same reason.
- NumberSequence.GenerateSequentialData: requires numeric fields and a finite divisor. With an infinite step the code computes NaN, which the model cannot represent.

## Findings

| source | as written | input that shows it | evidently intended | confidence | as-written member | corrected member |
|---|---|---|---|---|---|---|
| lib/schemas/number.js:93-97 | the loop tests the value yielded last, so the first value at or above `endingPoint` is still yielded, even when it exceeds the maximum | `number.divisibleBy(2).max(3)`, maxAmount 10: yields -10, -8, …, 2, 4; 4 > max 3, so `validate` rejects it | every generated value lies within [min, max] | medium, not executed | NumberSequence.SequentialDataOvershootsMax | NumberSequence.GenerateSequentialDataWithinBounds |
| lib/schemas/number.js:93-97 | for the same reason, a window of maxAmount steps yields maxAmount + 1 values | `number.integer()`, maxAmount 10: yields -5, -4, …, 5, eleven values | at most maxAmount values | low, not executed | NumberSequence.SequentialDataYieldsOneExtra | NumberSequence.GenerateSequentialDataWithinBounds |

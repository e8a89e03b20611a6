/** The `errors` lint of a Number schema: diagnostics about the schema's own
    constraint fields.  Unlike `validate`, it does not stop at the first problem:
    every applicable message is collected. */
module NumberErrors {
  import opened JsValues
  import opened NumberSchema

  const MaxDescription: string := "maximum required value"
  const MinDescription: string := "minimum required value"
  const DivisorDescription: string := "divisor value"

  /** `checkPropertyValueIsANumber`: a message naming the property when its value is not
      a number, and the empty string when it is. */
  function PropertyValueMessage(value: JsValue, description: string): (m: string)
    ensures m == "" <==> value.JsNumber?
    ensures m != "" ==> |description| <= |m| && m[..|description|] == description
  {
    match value
    case JsNull => description + " is null"
    case JsUndefined => description + " is undefined"
    case JsNumber(_) => ""
    case _ => description + " of type \"" + TypeOf(value) + "\" is not a number"
  }

  /** The message for a minimum above the maximum: never empty, so the filter keeps it,
      and never equal to a field message. */
  function RangeMessage(min: Num, max: Num, render: Num -> string): (m: string)
    ensures m != "" && m[0] == 'r'
    ensures forall v: JsValue :: m != PropertyValueMessage(v, MaxDescription)
    ensures forall v: JsValue :: m != PropertyValueMessage(v, MinDescription)
    ensures forall v: JsValue :: m != PropertyValueMessage(v, DivisorDescription)
  {
    "required minimum value = " + render(min) + " is greater than required maximum = " + render(max)
  }

  /** Both bounds are numbers and the maximum lies below the minimum. */
  predicate BoundsInverted(c: Constraints)
  {
    c.max.JsNumber? && c.min.JsNumber? && Less(c.max.n, c.min.n)
  }

  /** The messages pushed, in order, before empty ones are filtered out. */
  function Pushed(c: Constraints, render: Num -> string): (p: seq<string>)
    ensures |p| == 3 || |p| == 4
    ensures |p| == 4 <==> BoundsInverted(c)
    ensures p[..3] == [PropertyValueMessage(c.max, MaxDescription),
                       PropertyValueMessage(c.min, MinDescription),
                       PropertyValueMessage(c.divisibleBy, DivisorDescription)]
  {
    [PropertyValueMessage(c.max, MaxDescription),
     PropertyValueMessage(c.min, MinDescription),
     PropertyValueMessage(c.divisibleBy, DivisorDescription)]
    + (if BoundsInverted(c) then [RangeMessage(c.min.n, c.max.n, render)] else [])
  }

  /** `messages.filter(m => m.length > 0)`. */
  function NonEmpty(s: seq<string>): (r: seq<string>)
    ensures |r| <= |s|
    ensures forall m :: m in r <==> m in s && m != ""
  {
    if s == [] then []
    else NonEmpty(s[..|s| - 1]) + (if s[|s| - 1] == "" then [] else [s[|s| - 1]])
  }

  function Kept(m: string): seq<string>
  {
    if m == "" then [] else [m]
  }

  lemma {:induction false} NonEmptyAppend(a: seq<string>, b: seq<string>)
    ensures NonEmpty(a + b) == NonEmpty(a) + NonEmpty(b)
    decreases |b|
  {
    if b == [] {
      assert a + b == a;
    } else {
      var b' := b[..|b| - 1];
      assert (a + b)[..|a + b| - 1] == a + b';
      NonEmptyAppend(a, b');
    }
  }

  lemma KeptSingleton(m: string)
    ensures NonEmpty([m]) == Kept(m)
  {
    var one: seq<string> := [m];
    assert one[..0] == [];
  }

  /** How many of the three constraint fields are not numbers. */
  function NonNumberCount(c: Constraints): nat
  {
    (if c.max.JsNumber? then 0 else 1)
    + (if c.min.JsNumber? then 0 else 1)
    + (if c.divisibleBy.JsNumber? then 0 else 1)
  }

  /** Filtering the pushed messages keeps each non-empty one, in the order pushed. */
  lemma FilterOfPushed(c: Constraints, render: Num -> string)
    ensures NonEmpty(Pushed(c, render))
         == Kept(PropertyValueMessage(c.max, MaxDescription))
          + Kept(PropertyValueMessage(c.min, MinDescription))
          + Kept(PropertyValueMessage(c.divisibleBy, DivisorDescription))
          + (if BoundsInverted(c) then [RangeMessage(c.min.n, c.max.n, render)] else [])
  {
    var m1 := PropertyValueMessage(c.max, MaxDescription);
    var m2 := PropertyValueMessage(c.min, MinDescription);
    var m3 := PropertyValueMessage(c.divisibleBy, DivisorDescription);
    var tail := if BoundsInverted(c) then [RangeMessage(c.min.n, c.max.n, render)] else [];
    assert Pushed(c, render) == [m1] + [m2] + [m3] + tail;
    NonEmptyAppend([m1] + [m2] + [m3], tail);
    NonEmptyAppend([m1] + [m2], [m3]);
    NonEmptyAppend([m1], [m2]);
    KeptSingleton(m1);
    KeptSingleton(m2);
    KeptSingleton(m3);
    if BoundsInverted(c) {
      KeptSingleton(RangeMessage(c.min.n, c.max.n, render));
    }
  }

  /** What the lint reports: one message per field that is not a number, in the order
      maximum, minimum, divisor; then the range message, present exactly when both bounds
      are numbers and the maximum is below the minimum; nothing exactly when the schema
      is well formed; never more than four messages. */
  lemma LintReport(c: Constraints, render: Num -> string)
    ensures var e := NonEmpty(Pushed(c, render));
      && |e| == NonNumberCount(c) + (if BoundsInverted(c) then 1 else 0)
      && |e| <= 4
      && (e == [] <==> Numeric(c) && LessEq(c.min.n, c.max.n))
      && (PropertyValueMessage(c.max, MaxDescription) in e <==> !c.max.JsNumber?)
      && (PropertyValueMessage(c.min, MinDescription) in e <==> !c.min.JsNumber?)
      && (PropertyValueMessage(c.divisibleBy, DivisorDescription) in e <==> !c.divisibleBy.JsNumber?)
      && (c.max.JsNumber? && c.min.JsNumber? ==>
            (RangeMessage(c.min.n, c.max.n, render) in e <==> Less(c.max.n, c.min.n)))
  {
    FilterOfPushed(c, render);
    var e := NonEmpty(Pushed(c, render));
    var k1 := Kept(PropertyValueMessage(c.max, MaxDescription));
    var k2 := Kept(PropertyValueMessage(c.min, MinDescription));
    var k3 := Kept(PropertyValueMessage(c.divisibleBy, DivisorDescription));
    assert |k1| + |k2| + |k3| == NonNumberCount(c);
    if c.max.JsNumber? && c.min.JsNumber? && !Less(c.max.n, c.min.n) {
      assert e == Kept(PropertyValueMessage(c.divisibleBy, DivisorDescription));
    }
  }

  /** The `errors` getter: push the three field messages and, when the bounds are numbers
      in the wrong order, the range message; then keep the non-empty ones. */
  method Errors(c: Constraints, render: Num -> string) returns (errors: seq<string>)
    ensures errors == NonEmpty(Pushed(c, render))
    ensures |errors| == NonNumberCount(c) + (if BoundsInverted(c) then 1 else 0) && |errors| <= 4
    ensures errors == [] <==> Numeric(c) && LessEq(c.min.n, c.max.n)
    ensures PropertyValueMessage(c.max, MaxDescription) in errors <==> !c.max.JsNumber?
    ensures PropertyValueMessage(c.min, MinDescription) in errors <==> !c.min.JsNumber?
    ensures PropertyValueMessage(c.divisibleBy, DivisorDescription) in errors <==> !c.divisibleBy.JsNumber?
    ensures c.max.JsNumber? && c.min.JsNumber? ==>
      (RangeMessage(c.min.n, c.max.n, render) in errors <==> Less(c.max.n, c.min.n))
  {
    var pushed: seq<string> := [];
    pushed := pushed + [PropertyValueMessage(c.max, MaxDescription)];
    pushed := pushed + [PropertyValueMessage(c.min, MinDescription)];
    pushed := pushed + [PropertyValueMessage(c.divisibleBy, DivisorDescription)];
    if c.max.JsNumber? && c.min.JsNumber? && Less(c.max.n, c.min.n) {
      pushed := pushed + [RangeMessage(c.min.n, c.max.n, render)];
    }
    assert pushed == Pushed(c, render);

    errors := [];
    var i := 0;
    while i < |pushed|
      invariant 0 <= i <= |pushed|
      invariant errors == NonEmpty(pushed[..i])
    {
      assert pushed[..i + 1][..i] == pushed[..i];
      if |pushed[i]| > 0 {
        errors := errors + [pushed[i]];
      }
      i := i + 1;
    }
    assert pushed[..i] == pushed;
    LintReport(c, render);
  }
}

/** JavaScript values as the Number schema sees them, and the parts of JavaScript
    number arithmetic its checks rely on: ordering with the two infinities and
    the test `a % b === 0`.  Arithmetic is exact: IEEE rounding, NaN and -0 are
    not represented. */
module JsValues {

  /** A JavaScript number other than NaN: -Infinity, a finite value, or Infinity. */
  datatype Num = NegInf | Fin(x: real) | PosInf

  /** A JavaScript value, with just enough detail for `typeof` and the number checks. */
  datatype JsValue =
    | JsNull
    | JsUndefined
    | JsBoolean(b: bool)
    | JsNumber(n: Num)
    | JsBigInt(i: int)
    | JsString(s: string)
    | JsSymbol(description: string)
    | JsObject
    | JsFunction

  /** What the `typeof` operator answers for a value (`typeof null` is "object"). */
  function TypeOf(v: JsValue): (t: string)
    ensures t == "number" <==> v.JsNumber?
    ensures t == "undefined" <==> v.JsUndefined?
    ensures v.JsNull? ==> t == "object"
  {
    match v
    case JsNull => "object"
    case JsUndefined => "undefined"
    case JsBoolean(_) => "boolean"
    case JsNumber(_) => "number"
    case JsBigInt(_) => "bigint"
    case JsString(_) => "string"
    case JsSymbol(_) => "symbol"
    case JsObject => "object"
    case JsFunction => "function"
  }

  function Rank(a: Num): int
  {
    match a
    case NegInf => 0
    case Fin(_) => 1
    case PosInf => 2
  }

  /** JavaScript `a < b` on numbers: -Infinity lies below every other number and
      Infinity above every other number. */
  function Less(a: Num, b: Num): (r: bool)
    ensures a == NegInf ==> (r <==> b != NegInf)
    ensures b == PosInf ==> (r <==> a != PosInf)
    ensures a == PosInf || b == NegInf ==> !r
    ensures r ==> a != b
  {
    if a.Fin? && b.Fin? then a.x < b.x else Rank(a) < Rank(b)
  }

  /** JavaScript `a <= b` on numbers, written `!(b < a)` as the source's negated tests
      are; without NaN it is "below or equal". */
  function LessEq(a: Num, b: Num): (r: bool)
    ensures r <==> Less(a, b) || a == b
  {
    !Less(b, a)
  }

  /** `<` is a strict total order on the numbers other than NaN. */
  lemma LessIsStrictTotalOrder(a: Num, b: Num, c: Num)
    ensures !Less(a, a)
    ensures Less(a, b) ==> !Less(b, a)
    ensures Less(a, b) && Less(b, c) ==> Less(a, c)
    ensures Less(a, b) || a == b || Less(b, a)
  {
  }

  /** `Math.max(a, b)` and `Math.min(a, b)`. */
  function NumMax(a: Num, b: Num): (r: Num)
    ensures LessEq(a, r) && LessEq(b, r) && (r == a || r == b)
  {
    if Less(a, b) then b else a
  }

  function NumMin(a: Num, b: Num): (r: Num)
    ensures LessEq(r, a) && LessEq(r, b) && (r == a || r == b)
  {
    if Less(b, a) then b else a
  }

  /** `a + d` for a finite `d`: an infinity absorbs any finite summand. */
  function Offset(a: Num, d: real): (r: Num)
    ensures r.Fin? <==> a.Fin?
    ensures a.Fin? ==> r.x - a.x == d
    ensures !a.Fin? ==> r == a
  {
    match a
    case Fin(x) => Fin(x + d)
    case _ => a
  }

  predicate IsInteger(r: real)
  {
    r.Floor as real == r
  }

  /** JavaScript `a % b === 0`.  For finite operands the remainder is zero exactly
      when the quotient is a whole number; `x % ±Infinity` is `x`; an infinite
      dividend or a zero divisor gives NaN, which is never `=== 0`. */
  function RemIsZero(a: Num, b: Num): (r: bool)
    ensures !a.Fin? || b == Fin(0.0) ==> !r
    ensures a.Fin? && !b.Fin? ==> (r <==> a.x == 0.0)
    ensures a == Fin(0.0) && b != Fin(0.0) ==> r
  {
    match a
    case Fin(x) =>
      (match b
       case Fin(y) => y != 0.0 && IsInteger(x / y)
       case _ => x == 0.0)
    case _ => false
  }

  /** The `k`-th multiple of `y`. */
  function Multiple(k: int, y: real): real
  {
    k as real * y
  }

  /** For a finite nonzero divisor, `x % y === 0` holds exactly when `x` is a
      whole multiple of `y`. */
  lemma RemIsZeroIffMultiple(x: real, y: real)
    requires y != 0.0
    ensures RemIsZero(Fin(x), Fin(y)) <==> exists k: int :: x == Multiple(k, y)
  {
    if RemIsZero(Fin(x), Fin(y)) {
      var k := (x / y).Floor;
      assert x / y == k as real;
      assert x == Multiple(k, y);
    }
    if k: int :| x == Multiple(k, y) {
      assert x / y == k as real;
    }
  }

  /** Being a whole multiple is transitive: a multiple of a multiple of `z` is a multiple of `z`. */
  lemma RemIsZeroTransitive(x: real, y: real, z: real)
    requires RemIsZero(Fin(x), Fin(y)) && RemIsZero(Fin(y), Fin(z))
    ensures RemIsZero(Fin(x), Fin(z))
  {
    RemIsZeroIffMultiple(x, y);
    RemIsZeroIffMultiple(y, z);
    var k: int :| x == Multiple(k, y);
    var m: int :| y == Multiple(m, z);
    assert x == (k as real) * ((m as real) * z);
    assert x == Multiple(k * m, z);
    RemIsZeroIffMultiple(x, z);
  }

  /** Every finite nonzero number divides itself. */
  lemma RemIsZeroSelf(y: real)
    requires y != 0.0
    ensures RemIsZero(Fin(y), Fin(y))
  {
    assert y / y == 1.0;
  }
}

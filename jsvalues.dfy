/** The JavaScript values the ray tracer relies on besides finite reals:
    the numbers Infinity, -Infinity and NaN with the ordering `<`, the value
    `null`, and the integer conversion performed by `| 0`. */
module JsValues {

  /** A JavaScript number as the tracer uses it: a finite (exact) real,
      one of the two infinities, or NaN. */
  datatype Num = Fin(v: real) | PosInf | NegInf | NaN

  /** JavaScript's `<` on these numbers: every comparison with NaN is false,
      and each infinity is only strictly beyond the numbers other than itself. */
  predicate Less(a: Num, b: Num) {
    match (a, b)
    case (Fin(x), Fin(y)) => x < y
    case (Fin(_), PosInf) => true
    case (NegInf, Fin(_)) => true
    case (NegInf, PosInf) => true
    case _ => false
  }

  /** `<` is a strict order: irreflexive and transitive, NaN included. */
  lemma LessStrictOrder(a: Num, b: Num, c: Num)
    ensures !Less(a, a)
    ensures Less(a, b) && Less(b, c) ==> Less(a, c)
    ensures Less(a, b) ==> !Less(b, a)
    ensures Less(a, b) ==> a != NaN && b != NaN
  {
  }

  /** `null` or an object. */
  datatype Option<T> = None | Some(value: T)

  /** Rounding toward zero, the first step of ToInt32. */
  function Truncate(v: real): (r: int)
    ensures 0.0 <= v ==> 0 <= r && r as real <= v < r as real + 1.0
    ensures v <= 0.0 ==> r <= 0 && r as real - 1.0 < v <= r as real
  {
    if 0.0 <= v then v.Floor else -((-v).Floor)
  }

  const TwoTo31: int := 0x8000_0000
  const TwoTo32: int := 0x1_0000_0000

  /** ToInt32, the conversion `n | 0` applies: NaN and the infinities become 0;
      a finite number is truncated toward zero and then wrapped around into the
      signed 32-bit range. */
  function ToInt32(n: Num): (r: int)
    ensures -TwoTo31 <= r < TwoTo31
    ensures n.Fin? ==> (r - Truncate(n.v)) % TwoTo32 == 0
    ensures n.Fin? && -TwoTo31 <= Truncate(n.v) < TwoTo31 ==> r == Truncate(n.v)
    ensures !n.Fin? ==> r == 0
  {
    if n.Fin? then
      var m := Truncate(n.v) % TwoTo32;
      if m >= TwoTo31 then m - TwoTo32 else m
    else 0
  }

  lemma ToInt32Examples()
    ensures ToInt32(Fin(3.7)) == 3
    ensures ToInt32(Fin(-3.7)) == -3
    ensures ToInt32(Fin(4294967298.0)) == 2
    ensures ToInt32(Fin(2147483648.0)) == -2147483648
    ensures ToInt32(NaN) == 0 && ToInt32(PosInf) == 0
  {
  }
}

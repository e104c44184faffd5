/** `add`, `multiply` and `abs`: the built-ins bound to "+", "*" and "abs". */
module Numeric {
  import opened Results
  import opened Values

  /** The boxed Java number types `add`, `multiply` and `abs` test for. */
  datatype NumKind = DoubleK | FloatK | IntegerK | LongK | ShortK | ByteK

  /** The type of the value `add` and `multiply` return for operands of the
      given types.  The branches test Double, Float, Integer, Long, Short; a
      short or byte sum or product is computed in `int`, so it is boxed as
      an Integer. */
  function WidenKind(a: NumKind, b: NumKind): (r: NumKind)
    ensures r == a || r == b || r == IntegerK
    ensures r != ShortK && r != ByteK
  {
    if a == DoubleK || b == DoubleK then DoubleK
    else if a == FloatK || b == FloatK then FloatK
    else if a == IntegerK || b == IntegerK then IntegerK
    else if a == LongK || b == LongK then LongK
    else IntegerK
  }

  /** The type of the value `abs` returns: `Math.abs` of the double, float,
      long or (for everything else) int value. */
  function AbsKind(a: NumKind): (r: NumKind)
    ensures r != ShortK && r != ByteK
    ensures a != ShortK && a != ByteK ==> r == a
  {
    match a
    case DoubleK => DoubleK
    case FloatK => FloatK
    case LongK => LongK
    case IntegerK | ShortK | ByteK => IntegerK
  }

  /** The number type of a value, if it is a number at all.  `atom` produces
      only Integer, Float and Double. */
  function KindOf(v: Value): Option<NumKind> {
    match v
    case Data(Int(_)) => Some(IntegerK)
    case Data(Flt) => Some(FloatK)
    case Data(Dbl) => Some(DoubleK)
    case _ => None
  }

  /** A number of the given kind, with an Integer's value given by `n`. */
  function OfKind(k: NumKind, n: Int32): Value
    requires k in {DoubleK, FloatK, IntegerK}
  {
    if k == DoubleK then Data(Dbl) else if k == FloatK then Data(Flt) else Data(Int(n))
  }

  /** `add`.  A non-number operand fails the cast to Number (null fails on
      the first method call). */
  function Add(a: Value, b: Value): (r: Result<Value>)
    ensures r.Ok? <==> KindOf(a).Some? && KindOf(b).Some?
    ensures r.Err? ==> r.error == TypeError
    ensures r.Ok? ==> KindOf(r.value) == Some(WidenKind(KindOf(a).value, KindOf(b).value))
    ensures a.Data? && a.d.Int? && b.Data? && b.d.Int? ==>
              r.Ok? && r.value.d.Int? && (r.value.d.i - (a.d.i + b.d.i)) % 0x1_0000_0000 == 0
  {
    if KindOf(a).None? || KindOf(b).None? then Err(TypeError)
    else
      var k := WidenKind(KindOf(a).value, KindOf(b).value);
      Ok(OfKind(k, if k == IntegerK then Wrap(a.d.i + b.d.i) else 0))
  }

  /** `multiply`: the same type table as `add`. */
  function Multiply(a: Value, b: Value): (r: Result<Value>)
    ensures r.Ok? <==> KindOf(a).Some? && KindOf(b).Some?
    ensures r.Err? ==> r.error == TypeError
    ensures r.Ok? ==> KindOf(r.value) == Some(WidenKind(KindOf(a).value, KindOf(b).value))
    ensures a.Data? && a.d.Int? && b.Data? && b.d.Int? ==>
              r.Ok? && r.value.d.Int? && (r.value.d.i - a.d.i * b.d.i) % 0x1_0000_0000 == 0
  {
    if KindOf(a).None? || KindOf(b).None? then Err(TypeError)
    else
      var k := WidenKind(KindOf(a).value, KindOf(b).value);
      Ok(OfKind(k, if k == IntegerK then Wrap(a.d.i * b.d.i) else 0))
  }

  /** `abs`.  `Math.abs(int)` of the smallest int overflows back to itself. */
  function Abs(a: Value): (r: Result<Value>)
    ensures r.Ok? <==> KindOf(a).Some?
    ensures r.Err? ==> r.error == TypeError
    ensures r.Ok? ==> KindOf(r.value) == Some(AbsKind(KindOf(a).value))
    ensures a.Data? && a.d.Int? ==>
              && r.Ok? && r.value.d.Int?
              && (if a.d.i == MinInt then r.value.d.i == MinInt
                  else r.value.d.i >= 0 && (r.value.d.i == a.d.i || r.value.d.i == -a.d.i))
  {
    if KindOf(a).None? then Err(TypeError)
    else
      var k := AbsKind(KindOf(a).value);
      Ok(OfKind(k, if k == IntegerK then Wrap(if a.d.i < 0 then 0 - a.d.i as int else a.d.i) else 0))
  }

  /** The widening table is symmetric, picks the wider operand type, and never
      yields a Short or a Byte. */
  lemma {:induction false} WidenKindTable(a: NumKind, b: NumKind)
    ensures WidenKind(a, b) == WidenKind(b, a)
    ensures WidenKind(a, b) in {DoubleK, FloatK, IntegerK, LongK}
    ensures (a == DoubleK || b == DoubleK) <==> WidenKind(a, b) == DoubleK
    ensures WidenKind(a, b) == FloatK <==> DoubleK !in {a, b} && FloatK in {a, b}
    ensures WidenKind(a, b) == LongK <==> (a == LongK || b == LongK) && {a, b} <= {LongK, ShortK, ByteK}
    ensures WidenKind(a, b) in {a, b} || {a, b} <= {ShortK, ByteK}
  {
  }

  /** Both binary operators are commutative on everything they accept. */
  lemma {:induction false} OperatorsCommute(a: Value, b: Value)
    ensures Add(a, b) == Add(b, a) && Multiply(a, b) == Multiply(b, a)
  {
  }

  /** On two Integers with an in-range exact result, no wrap-around occurs. */
  lemma {:induction false} IntegerExact(x: Int32, y: Int32)
    ensures MinInt <= x + y <= MaxInt ==> Add(Data(Int(x)), Data(Int(y))) == Ok(Data(Int(x + y)))
    ensures MinInt <= x * y <= MaxInt ==> Multiply(Data(Int(x)), Data(Int(y))) == Ok(Data(Int(x * y)))
  {
  }

  /** An Integer sum that leaves the range wraps to the other end. */
  lemma {:induction false} IntegerOverflow()
    ensures Add(Data(Int(MaxInt)), Data(Int(1))) == Ok(Data(Int(MinInt)))
    ensures Abs(Data(Int(MinInt))) == Ok(Data(Int(MinInt)))
  {
  }
}

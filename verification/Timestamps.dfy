/** Scaling a timestamp to nanoseconds without overflow: models/time.go and
    GetPrecisionMultiplier of models/points.go. */
module Timestamps {
  import opened Int64

  const MIN_NANO_TIME: int64 := MIN + 2
  const MAX_NANO_TIME: int64 := MAX - 1

  datatype Time = Time(nanos: int64) | OutOfRange

  /** GetPrecisionMultiplier */
  function Multiplier(precision: string): (m: int64)
    ensures 1 <= m <= 3_600_000_000_000
  {
    match precision
    case "u" => 1_000
    case "ms" => 1_000_000
    case "s" => 1_000_000_000
    case "m" => 60_000_000_000
    case "h" => 3_600_000_000_000
    case _ => 1
  }

  /** Go's c / b for either sign of b, before it wraps. */
  function Divided(c: int, b: int): (q: int)
    requires b != 0
  {
    if b > 0 then Quotient(c, b) else -Quotient(c, -b)
  }

  /** safeSignedMult: the product in 64 bits, and whether it is believed. */
  function SafeSignedMult(a: int64, b: int64): (r: (int64, bool)) {
    if a == 0 || b == 0 || a == 1 || b == 1 then (Wrap(a * b), true)
    else if a == MIN_NANO_TIME || b == MAX_NANO_TIME then (0, false)
    else
      var c := Wrap(a * b);
      (c, Wrap(Divided(c, b)) == a)
  }

  predicate CheckTime(t: int64) {
    !(t < MIN_NANO_TIME || t > MAX_NANO_TIME)
  }

  function SafeCalcTime(timestamp: int64, precision: string): (t: Time) {
    var (t, ok) := SafeSignedMult(timestamp, Multiplier(precision));
    if ok && CheckTime(t) then Time(t) else OutOfRange
  }

  lemma WrapShifts(x: int)
    ensures exists k: int :: Wrap(x) == x - k * RANGE
  {
    var k := (x - MIN) / RANGE;
    assert x - MIN == k * RANGE + (x - MIN) % RANGE;
  }

  lemma QuotientIsNear(c: int, b: int)
    requires b > 0
    ensures -b < c - Quotient(c, b) * b < b
  {
    if c >= 0 {
      assert c == c / b * b + c % b;
    } else {
      assert -c == -c / b * b + -c % b;
      assert Quotient(c, b) * b == -(-c / b * b);
    }
  }

  /** Dividing misses by less than the divisor. */
  lemma DividedIsNear(c: int, b: int, size: int)
    requires b != 0 && size == if b > 0 then b else -b
    ensures -size < c - Divided(c, b) * b < size
  {
    QuotientIsNear(c, size);
    if b < 0 { assert Divided(c, b) * b == Quotient(c, size) * size; }
  }

  lemma DividedOfProduct(a: int, b: int)
    requires b != 0
    ensures Divided(a * b, b) == a
  {
    var size := if b > 0 then b else -b;
    DividedIsNear(a * b, b, size);
    var d := a - Divided(a * b, b);
    assert d * b == a * b - Divided(a * b, b) * b;
    assert d * size == if b > 0 then d * b else -(d * b);
    MultipleIsFar(d, size);
  }

  lemma QuotientShrinks(n: int, size: int)
    requires n >= 0 && size >= 1
    ensures 0 <= n / size && (if size == 1 then n / size == n else n / size * 2 <= n)
  {
    var q := n / size;
    assert n == q * size + n % size;
    if q < 0 { MultipleIsFar(q, size); }
    if size > 1 && q > 0 {
      MultipleIsFar(size - 1, q);
      assert q * size == (size - 1) * q + q;
    }
  }

  /** The quotient stays within 64 bits unless the lowest integer is divided by -1. */
  lemma DividedFits(c: int64, b: int64)
    requires b != 0 && !(c == MIN && b == -1)
    ensures Fits(Divided(c, b))
  {
    QuotientShrinks(if c >= 0 then c else -(c as int), if b > 0 then b else -(b as int));
  }

  /** Multiplying, wrapping and dividing back detects every overflow and nothing else, except
      that the lowest integer times -1 is not detected. */
  lemma DividingBackIsExact(a: int64, b: int64)
    requires b != 0
    ensures Wrap(Divided(Wrap(a * b), b)) == a <==> Fits(a * b) || (a == MIN && b == -1)
  {
    var c := Wrap(a * b);
    if c == MIN && b == -1 {
      assert a * b == -(a as int);
      assert Quotient(MIN, 1) == MIN;
    } else {
      DividedFits(c, b);
      WrapShifts(a * b);
      var k :| c == a * b - k * RANGE;
      var size: int := if b > 0 then b else -(b as int);
      DividedIsNear(c, b, size);
      DividedOfProduct(a, b);
      if Divided(c, b) == a { MultipleIsFar(k, RANGE); }
    }
  }

  /** Which products are believed, for all factors: those that fit 64 bits but for two, and one
      that does not fit. What is believed is exact otherwise. */
  lemma MultIsExact(a: int64, b: int64)
    ensures var (c, ok) := SafeSignedMult(a, b);
            && (ok <==> (Fits(a * b) && !(a == -1 && b == MAX_NANO_TIME) && !(a == MIN_NANO_TIME && b == -1))
                        || (a == MIN && b == -1))
            && (ok && !(a == MIN && b == -1) ==> c == a * b)
  {
    hide Divided;
    if b != 0 { DividingBackIsExact(a, b); }
    if a != 0 && a != 1 && b != 0 && b != 1 {
      if a == MIN_NANO_TIME && b != -1 {
        assert b > 1 ==> a * b <= a * 2;
        assert b < -1 ==> a * b >= a * -2;
      } else if b == MAX_NANO_TIME && a > 1 {
        assert a * b >= 2 * b;
      } else if b == MAX_NANO_TIME && a < -1 {
        assert a * b <= -2 * b;
      }
    }
  }

  /** Nanoseconds in a unit of time. */
  function NanosIn(precision: string): (n: int)
    decreases if precision == "h" then 5 else if precision == "m" then 4 else if precision == "s" then 3
              else if precision == "ms" then 2 else if precision == "u" then 1 else 0
  {
    match precision
    case "h" => 60 * NanosIn("m")
    case "m" => 60 * NanosIn("s")
    case "s" => 1000 * NanosIn("ms")
    case "ms" => 1000 * NanosIn("u")
    case "u" => 1000 * NanosIn("n")
    case _ => 1
  }

  lemma MultiplierIsNanos(precision: string)
    ensures Multiplier(precision) == NanosIn(precision)
  {
    assert NanosIn("u") == 1_000 && NanosIn("ms") == 1000 * NanosIn("u") && NanosIn("s") == 1000 * NanosIn("ms");
    assert NanosIn("m") == 60 * NanosIn("s") && NanosIn("h") == 60 * NanosIn("m");
  }

  /** The scaled time is accepted exactly when that many units of time are a time that can be
      stored, and then it is that time in nanoseconds. */
  lemma CalcTimeIsExact(timestamp: int64, precision: string)
    ensures var t := timestamp * NanosIn(precision);
            SafeCalcTime(timestamp, precision) ==
              if MIN_NANO_TIME <= t <= MAX_NANO_TIME then Time(t) else OutOfRange
  {
    MultiplierIsNanos(precision);
    MultIsExact(timestamp, Multiplier(precision));
  }

  /** The exceptions are real: two products that can be stored are refused, and one that does not
      fit is believed. */
  lemma UnbelievedProducts()
    ensures MIN_NANO_TIME <= -1 * MAX_NANO_TIME && SafeSignedMult(-1, MAX_NANO_TIME) == (0, false)
    ensures MIN_NANO_TIME * -1 <= MAX_NANO_TIME && SafeSignedMult(MIN_NANO_TIME, -1) == (0, false)
    ensures !Fits(MIN * -1) && SafeSignedMult(MIN, -1) == (MIN, true)
  {
    assert Quotient(MIN, 1) == MIN;
  }
}

/** Go's signed 64-bit integers: wrap-around, and division and remainder that truncate. */
module Int64 {
  const MIN: int := -0x8000_0000_0000_0000
  const MAX: int := 0x7fff_ffff_ffff_ffff
  const RANGE: int := 0x1_0000_0000_0000_0000

  type int64 = x: int | MIN <= x <= MAX

  predicate Fits(x: int) {
    MIN <= x <= MAX
  }

  /** The value that 64 bits keep of x. */
  function Wrap(x: int): (r: int64)
    ensures Fits(x) ==> r == x
  {
    (x - MIN) % RANGE + MIN
  }

  /** Go's a / b */
  function Quotient(a: int, b: int): (q: int)
    requires b > 0
  {
    if a >= 0 then a / b else -(-a / b)
  }

  /** Go's a % b */
  function Remainder(a: int, b: int): (r: int)
    requires b > 0
    ensures -b < r < b && (a >= 0 ==> r >= 0) && (a < 0 ==> r <= 0)
  {
    if a >= 0 then a % b else -(-a % b)
  }

  // ---------- multiples ----------

  lemma {:induction false} MultipleIsFar(d: int, b: int)
    requires b > 0
    ensures d >= 1 ==> d * b >= b
    ensures d <= -1 ==> d * b <= -b
    decreases if d > 0 then d else -d
  {
    if d > 1 {
      MultipleIsFar(d - 1, b);
      assert d * b == (d - 1) * b + b;
    } else if d < -1 {
      MultipleIsFar(d + 1, b);
      assert d * b == (d + 1) * b - b;
    }
  }

  lemma FactorsDiffer(n: int, m: int, d: int)
    requires d > 0 && n < m
    ensures n * d + d <= m * d
  {
    MultipleIsFar(m - n, d);
    assert (m - n) * d == m * d - n * d;
  }

  lemma RemainderIsUnique(x: int, d: int, m: int, s: int)
    requires d > 0 && x == m * d + s && 0 <= s < d
    ensures x / d == m && x % d == s
  {
    var q := x / d;
    assert x == q * d + x % d;
    if q < m { FactorsDiffer(q, m, d); }
    if m < q { FactorsDiffer(m, q, d); }
  }

  lemma ModuloShift(x: int, k: int, m: int)
    requires m > 0
    ensures (x - k * m) % m == x % m
  {
    assert x - k * m == (x / m - k) * m + x % m;
    RemainderIsUnique(x - k * m, m, x / m - k, x % m);
  }

  lemma ModuloAdds(a: int, b: int, m: int)
    requires m > 0
    ensures (a % m + b) % m == (a + b) % m
  {
    ModuloShift(a + b, a / m, m);
    assert a == a / m * m + a % m;
  }

  lemma ModuloAgreesIff(n: int, v: int, m: int)
    requires m > 0
    ensures (n + v) % m == n % m <==> v % m == 0
  {
    if (n + v) % m == n % m {
      var q := (n + v) / m - n / m;
      assert v == q * m + 0;
      RemainderIsUnique(v, m, q, 0);
    }
    if v % m == 0 { ModuloAdds(v, n, m); }
  }

  lemma WrapAdds(a: int, b: int)
    ensures Wrap(Wrap(a) + b) == Wrap(a + b)
  {
    ModuloAdds(a - MIN, b, RANGE);
  }
}

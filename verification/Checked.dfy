/** Arithmetic that gives the exact result or none at all. */
module Checked {
  import opened Wrappers
  import opened Bytes

  /** C++ division truncates towards zero. */
  function TruncatedQuotient(a: int, b: int): (q: int)
    requires b != 0
    ensures a == q * b + TruncatedRemainder(a, b)
  {
    assert (-a) == ((-a) / b) * b + (-a) % b;
    if a >= 0 then a / b else -((-a) / b)
  }

  function TruncatedRemainder(a: int, b: int): (r: int)
    requires b != 0
    ensures (b > 0 ==> -b < r < b) && (b < 0 ==> b < r < -b)
    ensures a >= 0 ==> r >= 0
    ensures a <= 0 ==> r <= 0
  {
    if a >= 0 then a % b else -((-a) % b)
  }

  /** The low 64 bits of a product, read as a signed number. */
  function Wrapped64(v: int): i64 {
    ToI64(v % U64_LIMIT)
  }

  function AddU64(a: u64, b: u64): (r: Option<u64>)
    ensures r == if a + b <= U64_MAX then Some(a + b) else None
  {
    if a > U64_MAX - b then None else Some(a + b)
  }

  lemma QuotientBounds(a: nat, b: nat, m: nat)
    requires b > 0
    ensures a > m / b <==> a * b > m
  {
    if a > m / b {
      assert a * b >= (m / b + 1) * b;
    } else {
      assert a * b <= (m / b) * b;
    }
  }

  function MulU64(a: u64, b: u64): (r: Option<u64>)
    ensures r == if a * b <= U64_MAX then Some(a * b) else None
  {
    if a == 0 || b == 0 then Some(0)
    else
      QuotientBounds(a, b, U64_MAX);
      if a > U64_MAX / b then None else Some(a * b)
  }

  lemma CeilingUnique(a: nat, b: nat, q: nat)
    requires b > 0
    ensures a <= q * b && (q > 0 ==> (q - 1) * b < a) <==> q == if a % b == 0 then a / b else a / b + 1
  {
    var k := a / b;
    assert a == k * b + a % b;
    if q < k {
      assert (q + 1) * b <= k * b;
    } else if q > k + 1 {
      assert (q - 1) * b >= (k + 1) * b;
    }
  }

  /** The least q with a <= q * b. */
  function DivCeilU64(a: u64, b: u64): (r: Option<u64>)
    ensures r.None? <==> b == 0
    ensures r.Some? ==> a <= r.value * b && (r.value > 0 ==> (r.value - 1) * b < a)
  {
    if b == 0 then None
    else
      CeilingUnique(a, b, if a % b == 0 then a / b else a / b + 1);
      if a % b == 0 then Some(a / b) else AddU64(a / b, 1)
  }

  function AddI64(a: i64, b: i64): (r: Option<i64>)
    ensures r == if I64_MIN <= a + b <= I64_MAX then Some(a + b) else None
  {
    if b > 0 && a > I64_MAX - b then None
    else if b < 0 && a < I64_MIN - b then None
    else Some(a + b)
  }

  /** A product that left the range cannot be divided back into its factor. */
  lemma WrapIsSeen(a: i64, b: i64)
    requires a != 0 && b != 0 && !(b == -1 && a == I64_MIN) && !(a == -1 && b == I64_MIN)
    ensures TruncatedQuotient(Wrapped64(a * b), b) == a <==> Wrapped64(a * b) == a * b
  {
    var p, w := a * b, Wrapped64(a * b);
    assert (p - w) % U64_LIMIT == 0;
    var q := TruncatedQuotient(w, b);
    var r := TruncatedRemainder(w, b);
    if q == a {
      assert w == a * b + r;
    }
    if w == p {
      ExactQuotient(a, b);
    }
  }

  lemma ExactQuotient(a: int, b: int)
    requires b != 0
    ensures TruncatedQuotient(a * b, b) == a
  {
    var q, r := TruncatedQuotient(a * b, b), TruncatedRemainder(a * b, b);
    assert (a - q) * b == r;
    SmallMultiple(a - q, b, r);
  }

  /** The only multiple of b strictly between -|b| and |b| is zero. */
  lemma SmallMultiple(d: int, b: int, r: int)
    requires d * b == r && (if b > 0 then -b < r < b else b < r < -b)
    ensures d == 0
  {
    Grows(d, b);
  }

  lemma Grows(d: int, b: int)
    ensures d >= 1 && b > 0 ==> d * b >= b
    ensures d >= 1 && b < 0 ==> d * b <= b
    ensures d <= -1 && b > 0 ==> d * b <= -b
    ensures d <= -1 && b < 0 ==> d * b >= -b
  {}

  /** Adding multiples of m changes no remainder by m. */
  lemma Cancel(x: int, q: int, m: nat)
    requires m > 0
    ensures (x + q * m) % m == x % m
  {
    var k, r := x / m, x % m;
    assert x + q * m == (k + q) * m + r;
    var y := x + q * m;
    assert y == (y / m) * m + y % m;
    assert (y / m - (k + q)) * m == r - y % m;
    SmallMultiple(y / m - (k + q), m, r - y % m);
  }

  lemma WrapInRange(v: int)
    ensures Wrapped64(v) == v <==> I64_MIN <= v <= I64_MAX
  {}

  function MulI64(a: i64, b: i64): (r: Option<i64>)
    ensures r == if I64_MIN <= a * b <= I64_MAX then Some(a * b) else None
  {
    if a == 0 || b == 0 then Some(0)
    else if a == -1 && b == I64_MIN then None
    else if b == -1 && a == I64_MIN then None
    else
      var result := Wrapped64(a * b);
      WrapIsSeen(a, b);
      WrapInRange(a * b);
      if TruncatedQuotient(result, b) != a then None else Some(result)
  }
}

/** Powers of two and the two ways the simulator takes a logarithm of an integer. */
module PowersOfTwo {

  function Min(a: int, b: int): int {
    if a < b then a else b
  }

  function Max(a: int, b: int): int {
    if a > b then a else b
  }

  function Pow2(k: nat): (p: nat)
    ensures p >= 1
  {
    if k == 0 then 1 else 2 * Pow2(k - 1)
  }

  ghost predicate IsPow2(x: int) {
    exists k: nat :: x == Pow2(k)
  }

  lemma {:induction false} Pow2Add(a: nat, b: nat)
    ensures Pow2(a + b) == Pow2(a) * Pow2(b)
  {
    if a > 0 {
      Pow2Add(a - 1, b);
      assert Pow2(a) * Pow2(b) == 2 * (Pow2(a - 1) * Pow2(b));
    }
  }

  lemma {:induction false} Pow2Increasing(a: nat, b: nat)
    requires a < b
    ensures Pow2(a) < Pow2(b)
  {
    if a + 1 < b {
      Pow2Increasing(a, b - 1);
    }
  }

  lemma Pow2Injective(a: nat, b: nat)
    requires Pow2(a) == Pow2(b)
    ensures a == b
  {
    if a < b {
      Pow2Increasing(a, b);
    } else if b < a {
      Pow2Increasing(b, a);
    }
  }

  lemma Pow2LessOrEqual(a: nat, b: nat)
    ensures Pow2(a) <= Pow2(b) <==> a <= b
  {
    if a < b {
      Pow2Increasing(a, b);
    } else if b < a {
      Pow2Increasing(b, a);
    }
  }

  // ---- division ----

  lemma ProductAtLeast(n: int, d: int)
    requires n >= 1 && d >= 1
    ensures n * d >= d
  {
  }

  lemma DivisionIsUnique(x: int, d: int, q: int, r: int)
    requires 0 <= r < d
    requires x == q * d + r
    ensures x / d == q && x % d == r
  {
    RemainderIsUnique(d, q, r, x / d, x % d);
  }

  lemma RemainderIsUnique(d: int, q: int, r: int, q': int, r': int)
    requires 0 <= r < d && 0 <= r' < d
    requires q * d + r == q' * d + r'
    ensures q == q' && r == r'
  {
    assert (q - q') * d == r' - r && (q' - q) * d == r - r';
    if q > q' {
      ProductAtLeast(q - q', d);
    } else if q < q' {
      ProductAtLeast(q' - q, d);
    }
  }

  lemma ExactDivision(q: int, d: int)
    requires d > 0
    ensures q * d / d == q && q * d % d == 0
    ensures d * q / d == q && d * q % d == 0
  {
    DivisionIsUnique(q * d, d, q, 0);
  }

  lemma DivideTwice(x: nat, a: nat, b: nat)
    requires a > 0 && b > 0
    ensures a * b > 0
    ensures x / a / b == x / (a * b)
  {
    var q, r := x / a, x % a;
    var q', r' := q / b, q % b;
    ProductAtLeast(a, b);
    NestedRemainder(a, b, r, r');
    assert x == q' * (a * b) + (r' * a + r) by {
      RegroupQuotients(x, a, b, q, r, q', r');
    }
    DivisionIsUnique(x, a * b, q', r' * a + r);
  }

  lemma ProductMonotoneLeft(x: int, y: int, a: int)
    requires x <= y && a >= 0
    ensures x * a <= y * a
  {
  }

  lemma Distribute(x: int, y: int, a: int)
    ensures (x + y) * a == x * a + y * a
  {
  }

  lemma NestedRemainder(a: int, b: int, r: int, r': int)
    requires 0 <= r < a && 0 <= r' < b
    ensures 0 <= r' * a + r < a * b
  {
    ProductMonotoneLeft(0, r', a);
    ProductMonotoneLeft(r' + 1, b, a);
    Distribute(r', 1, a);
  }

  lemma RegroupQuotients(x: int, a: int, b: int, q: int, r: int, q': int, r': int)
    requires x == q * a + r && q == q' * b + r'
    ensures x == q' * (a * b) + (r' * a + r)
  {
    assert q * a == (q' * b + r') * a;
    assert (q' * b + r') * a == q' * (a * b) + r' * a;
  }

  /** Integer halving, k times over. */
  function ShiftRight(x: nat, k: nat): nat {
    QuotientNonNegative(x, Pow2(k));
    x / Pow2(k)
  }

  /** Shifting to the left, whatever the bits. */
  function ShiftLeft(x: int, k: nat): int {
    x * Pow2(k)
  }

  lemma QuotientNonNegative(x: nat, p: nat)
    requires p >= 1
    ensures x / p >= 0
    ensures x / p == 0 <==> x < p
  {
  }

  lemma ShiftRightByZero(x: nat)
    ensures ShiftRight(x, 0) == x
  {
  }

  lemma ShiftRightStaysZero(x: nat, j: nat, k: nat)
    requires j <= k && ShiftRight(x, j) == 0
    ensures ShiftRight(x, k) == 0
  {
    QuotientNonNegative(x, Pow2(j));
    QuotientNonNegative(x, Pow2(k));
    Pow2LessOrEqual(j, k);
  }

  lemma HalveQuotient(x: nat, k: nat)
    ensures ShiftRight(x, k) / 2 == ShiftRight(x, k + 1)
  {
    DivideTwice(x, Pow2(k), 2);
    assert Pow2(k) * 2 == Pow2(k + 1);
  }

  lemma Pow2Quotient(a: nat, b: nat)
    requires b <= a
    ensures Pow2(a) / Pow2(b) == Pow2(a - b)
    ensures Pow2(a) % Pow2(b) == 0
  {
    Pow2Add(a - b, b);
    ExactDivision(Pow2(a - b), Pow2(b));
  }

  lemma Pow2QuotientIsZero(a: nat, b: nat)
    ensures Pow2(a) / Pow2(b) == 0 <==> a < b
  {
    if a < b {
      Pow2Increasing(a, b);
      DivisionIsUnique(Pow2(a), Pow2(b), 0, Pow2(a));
    } else {
      Pow2Quotient(a, b);
    }
  }

  // ---- logarithms ----

  /** The number of times x can be halved while it is above one. */
  function FloorLog2(x: nat): (l: nat)
    requires x >= 1
    ensures Pow2(l) <= x < Pow2(l + 1)
  {
    if x == 1 then 0 else 1 + FloorLog2(x / 2)
  }

  /** The logarithm is the only exponent with this bracket. */
  lemma FloorLog2IsUnique(x: nat, k: nat)
    requires Pow2(k) <= x < Pow2(k + 1)
    ensures FloorLog2(x) == k
  {
    var l := FloorLog2(x);
    if l < k {
      Pow2LessOrEqual(l + 1, k);
    } else if k < l {
      Pow2LessOrEqual(k + 1, l);
    }
  }

  lemma FloorLog2OfPow2(k: nat)
    ensures FloorLog2(Pow2(k)) == k
  {
    FloorLog2IsUnique(Pow2(k), k);
  }

  lemma FloorLog2Monotone(x: nat, y: nat)
    requires 1 <= x <= y
    ensures FloorLog2(x) <= FloorLog2(y)
  {
    var l, m := FloorLog2(x), FloorLog2(y);
    if m < l {
      Pow2LessOrEqual(m + 1, l);
    }
  }

  /** A quotient is above one exactly while the divisor's exponent is below the logarithm. */
  lemma QuotientAboveOne(x: nat, a: nat)
    requires x >= 1
    ensures ShiftRight(x, a) > 1 <==> a < FloorLog2(x)
  {
    var l, p := FloorLog2(x), Pow2(a);
    if a < l {
      Pow2LessOrEqual(a + 1, l);
    } else {
      Pow2LessOrEqual(l + 1, a + 1);
    }
    assert 2 * p <= x <==> a < l;
    QuotientAtLeastTwo(x, p);
  }

  lemma QuotientAtLeastTwo(x: nat, p: nat)
    requires p >= 1
    ensures x / p > 1 <==> 2 * p <= x
  {
    var q, r := x / p, x % p;
    assert x == q * p + r;
    if q >= 2 {
      ProductAtLeast(q - 1, p);
      assert (q - 1) * p == q * p - p;
    } else if q <= 0 {
      assert q == 0;
    }
  }

  function Power(x: real, n: nat): real {
    if n == 0 then 1.0 else x * Power(x, n - 1)
  }

  function Tenth(x: real): real {
    Power(x, 10)
  }

  lemma TenthMonotone(x: real, y: real)
    requires 0.0 <= x <= y
    ensures 0.0 <= Tenth(x) <= Tenth(y)
  {
    PowerMonotone(x, y, 10);
  }

  lemma {:induction false} PowerMonotone(x: real, y: real, n: nat)
    requires 0.0 <= x <= y
    ensures 0.0 <= Power(x, n) <= Power(y, n)
  {
    if n > 0 {
      PowerMonotone(x, y, n - 1);
      ProductMonotone(x, Power(x, n - 1), y, Power(y, n - 1));
    }
  }

  lemma ProductMonotone(a: real, b: real, c: real, d: real)
    requires 0.0 <= a <= c && 0.0 <= b <= d
    ensures 0.0 <= a * b <= c * d
  {
    assert a * b <= c * b;
    assert c * b <= c * d;
  }

  /**
   * The conversion (int)(log2(x) + 0.1) on exact reals. Below one the sum is negative or
   * small and the conversion truncates toward zero; above one it takes the floor. The
   * comparison 2^k <= x * 2^0.1 is made on tenth powers, where it needs no root.
   */
  function LogRound(x: real): int
    requires x > 0.0
  {
    if x >= 1.0 then RoundUpLog(x) else 0 - RoundDownLog(Reciprocal(x))
  }

  /** Largest k with 2^k <= x * 2^0.1. */
  function RoundUpLog(x: real): nat
    requires x > 0.0
    decreases x.Floor
  {
    if x < 1.5 || Tenth(x) < 512.0 then 0
    else (HalfFloor(x); 1 + RoundUpLog(x / 2.0))
  }

  /** Largest k with 2^k * 2^0.1 <= x, or zero if there is none. */
  function RoundDownLog(x: real): nat
    requires x > 0.0
    decreases x.Floor
  {
    if x < 2.0 || Tenth(x) < 2048.0 then 0
    else (HalfFloor(x); 1 + RoundDownLog(x / 2.0))
  }

  function Reciprocal(x: real): (y: real)
    requires x > 0.0
    ensures y > 0.0
  {
    1.0 / x
  }

  lemma HalfFloor(x: real)
    requires x >= 1.5
    ensures 0 <= (x / 2.0).Floor < x.Floor
  {
    if x < 2.0 {
      assert (x / 2.0).Floor == 0;
    } else {
      assert x / 2.0 <= x - 1.0;
    }
  }

  lemma {:induction false} PowerOfDouble(x: real, n: nat)
    ensures Power(2.0 * x, n) == Power(2.0, n) * Power(x, n)
  {
    if n > 0 {
      PowerOfDouble(x, n - 1);
      RegroupPair(x, Power(2.0, n - 1), Power(x, n - 1));
    }
  }

  lemma RegroupPair(x: real, p: real, q: real)
    ensures 2.0 * x * (p * q) == 2.0 * p * (x * q)
  {
  }

  lemma TenthOfDouble(x: real)
    ensures Tenth(2.0 * x) == 1024.0 * Tenth(x)
  {
    PowerOfDouble(x, 10);
    assert Power(2.0, 10) == 1024.0;
  }

  lemma TenthOfNextPower(k: nat)
    ensures Tenth(Pow2(k + 1) as real) == 1024.0 * Tenth(Pow2(k) as real)
    ensures Tenth(Pow2(0) as real) == 1.0
  {
    assert Pow2(k + 1) as real == 2.0 * Pow2(k) as real;
    TenthOfDouble(Pow2(k) as real);
  }

  /** The result k of a conversion above one: 2^k is at most x * 2^0.1, and 2^(k + 1) is above it. */
  lemma LogRoundAboveOne(x: real)
    requires x >= 1.0
    ensures LogRound(x) >= 0
    ensures Tenth(Pow2(LogRound(x)) as real) <= 2.0 * Tenth(x) < Tenth(Pow2(LogRound(x) + 1) as real)
  {
    TenthMonotone(1.0, x);
    assert Tenth(1.0) == 1.0;
    RoundUpBracket(x);
  }

  lemma {:induction false} RoundUpBracket(x: real)
    requires x > 0.0 && 2.0 * Tenth(x) >= 1.0
    ensures Tenth(Pow2(RoundUpLog(x)) as real) <= 2.0 * Tenth(x) < Tenth(Pow2(RoundUpLog(x) + 1) as real)
    decreases x.Floor
  {
    hide Tenth, Pow2;
    var k := RoundUpLog(x);
    TenthOfNextPower(k);
    if x < 1.5 || Tenth(x) < 512.0 {
      SmallTenth(x);
    } else {
      HalfFloor(x);
      TenthOfDouble(x / 2.0);
      TenthOfNextPower(k - 1);
      RoundUpBracket(x / 2.0);
    }
  }

  lemma SmallTenth(x: real)
    requires x > 0.0
    ensures x < 1.5 ==> Tenth(x) < 512.0
    ensures x < 2.0 ==> Tenth(x) < 2048.0
  {
    if x < 1.5 {
      TenthMonotone(x, 1.5);
      assert Tenth(1.5) < 512.0;
    }
    if x < 2.0 {
      TenthMonotone(x, 2.0);
      assert Tenth(2.0) == 1024.0;
    }
  }

  /**
   * The result -k of a conversion below one: unless it is zero, 1 / x is at least 2^k * 2^0.1;
   * it is always below 2^(k + 1) * 2^0.1.
   */
  lemma LogRoundBelowOne(x: real)
    requires 0.0 < x < 1.0
    ensures LogRound(x) <= 0
    ensures LogRound(x) == 0 || 2.0 * Tenth(Pow2(-LogRound(x)) as real) <= Tenth(Reciprocal(x))
    ensures Tenth(Reciprocal(x)) < 2.0 * Tenth(Pow2(-LogRound(x) + 1) as real)
  {
    RoundDownBracket(Reciprocal(x));
  }

  lemma {:induction false} RoundDownBracket(x: real)
    requires x > 0.0
    ensures RoundDownLog(x) == 0 || 2.0 * Tenth(Pow2(RoundDownLog(x)) as real) <= Tenth(x)
    ensures Tenth(x) < 2.0 * Tenth(Pow2(RoundDownLog(x) + 1) as real)
    decreases x.Floor
  {
    hide Tenth, Pow2;
    var k := RoundDownLog(x);
    TenthOfNextPower(k);
    if x < 2.0 || Tenth(x) < 2048.0 {
      SmallTenth(x);
    } else {
      HalfFloor(x);
      TenthOfDouble(x / 2.0);
      TenthOfNextPower(k - 1);
      RoundDownBracket(x / 2.0);
    }
  }

  lemma {:induction false} LogRoundOfPow2(k: nat)
    ensures LogRound(Pow2(k) as real) == k
  {
    var x := Pow2(k) as real;
    if k == 0 {
    } else {
      LogRoundOfPow2(k - 1);
      assert x / 2.0 == Pow2(k - 1) as real;
      TenthMonotone(2.0, x);
      assert Tenth(2.0) == 1024.0;
    }
  }

  /** The address width of a capacity that is an exact power-of-two multiple of a set. */
  lemma LogRoundOfRatio(capacity: int, a: int, b: int, k: nat)
    requires a > 0 && b > 0 && capacity == Pow2(k) * a * b
    ensures capacity as real / a as real / b as real == Pow2(k) as real
    ensures LogRound(Pow2(k) as real) == k
  {
    var p := Pow2(k);
    var ra, rb, rp := a as real, b as real, p as real;
    assert capacity as real == rp * ra * rb by {
      CastProduct(p, a);
      CastProduct(p * a, b);
    }
    CancelTwice(rp, ra, rb);
    LogRoundOfPow2(k);
  }

  lemma CastProduct(a: int, b: int)
    ensures (a * b) as real == a as real * b as real
  {
  }

  lemma CancelTwice(p: real, a: real, b: real)
    requires a > 0.0 && b > 0.0
    ensures p * a * b / a / b == p
  {
    assert p * a * b == (p * b) * a;
    Cancel(p * b, a);
    assert p * a * b / a == p * b;
    Cancel(p, b);
  }

  lemma Cancel(p: real, a: real)
    requires a != 0.0
    ensures p * a / a == p
  {
  }

  /** Rounding never takes a logarithm below its floor. */
  lemma LogRoundAtLeastFloor(x: nat)
    requires x >= 1
    ensures LogRound(x as real) >= FloorLog2(x)
  {
    RoundUpAtLeastFloor(x, x as real);
  }

  lemma {:induction false} RoundUpAtLeastFloor(n: nat, x: real)
    requires n >= 1 && x >= n as real
    ensures RoundUpLog(x) >= FloorLog2(n)
    decreases n
  {
    if n > 1 {
      TenthMonotone(2.0, x);
      assert Tenth(2.0) == 1024.0;
      assert n / 2 * 2 <= n;
      assert (n / 2) as real <= n as real / 2.0;
      HalfFloor(x);
      RoundUpAtLeastFloor(n / 2, x / 2.0);
    }
  }
}

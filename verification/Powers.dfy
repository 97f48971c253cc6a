/** Powers of two and the two base-2 logarithms the source takes: the plain
    truncation `(int)log2(x)` and the tolerant `(int)(log2(x) + 0.1)`. */
module Powers {

  function Min(x: nat, y: nat): (m: nat)
    ensures m <= x && m <= y && (m == x || m == y)
  {
    if x > y then y else x
  }

  function Pow2(e: nat): (p: nat)
    ensures p >= 1
  {
    if e == 0 then 1 else 2 * Pow2(e - 1)
  }

  /** `(int)log2(x)`. */
  function FloorLog2(x: nat): nat
    requires x >= 1
  {
    if x == 1 then 0 else 1 + FloorLog2(x / 2)
  }

  predicate IsPow2(x: nat) {
    x == 1 || (x > 1 && x % 2 == 0 && IsPow2(x / 2))
  }

  /** A power of two is 2 to its logarithm. */
  lemma {:induction false} LogExact(x: nat)
    requires IsPow2(x)
    ensures x >= 1 && x == Pow2(FloorLog2(x))
  {
    if x > 1 {
      LogExact(x / 2);
    }
  }

  function Power(x: nat, e: nat): nat
    decreases e
  {
    if e == 0 then 1 else x * Power(x, e - 1)
  }

  /** The tolerance of 0.1 is one part in ten of an exponent, so comparisons are exact in
      tenth powers. */
  const TENTH: nat := 10

  function Tenth(x: nat): nat {
    Power(x, TENTH)
  }

  /** `(int)(log2((double)num / den) + 0.1)`, exactly: the result rounds up to e + 1
      when the ratio is within a factor 2^0.1 of 2^(e+1), that is when
      2^(10(e+1)) <= 2 * ratio^10.  Below one set the source gets a count of at most 0,
      which every caller refuses; the model gives 0 there. */
  function NearLog2(num: nat, den: nat): nat
    requires den >= 1
  {
    if num < den then 0
    else
      DivAtLeastOne(num, den);
      var e := FloorLog2(num / den);
      if Tenth(Pow2(e + 1) * den) <= 2 * Tenth(num) then e + 1 else e
  }

  function Product(x: nat, y: nat): nat {
    x * y
  }

  /** Integer division of counts. */
  function Quotient(n: nat, d: nat): nat
    requires d >= 1
  {
    n / d
  }

  lemma DivAtLeastOne(num: nat, den: nat)
    requires 1 <= den <= num
    ensures num / den >= 1
  {}

  lemma {:induction false} FloorLog2Bounds(x: nat)
    requires x >= 1
    ensures Pow2(FloorLog2(x)) <= x < Pow2(FloorLog2(x) + 1)
  {
    if x > 1 {
      FloorLog2Bounds(x / 2);
    }
  }

  lemma {:induction false} FloorLog2OfPow2(e: nat)
    ensures FloorLog2(Pow2(e)) == e
    ensures IsPow2(Pow2(e))
  {
    if e > 0 {
      FloorLog2OfPow2(e - 1);
      assert Pow2(e) / 2 == Pow2(e - 1);
    }
  }

  lemma {:induction false} Pow2Add(a: nat, b: nat)
    ensures Pow2(a + b) == Pow2(a) * Pow2(b)
  {
    if a > 0 {
      Pow2Add(a - 1, b);
      assert Pow2(a + b) == 2 * Pow2(a - 1 + b);
      assert Pow2(a) * Pow2(b) == 2 * (Pow2(a - 1) * Pow2(b));
    }
  }

  lemma Pow2Monotone(a: nat, b: nat)
    requires a <= b
    ensures Pow2(a) <= Pow2(b)
  {}

  lemma Pow2StrictlyMonotone(a: nat, b: nat)
    requires a < b
    ensures Pow2(a) < Pow2(b)
  {}

  lemma MulAtLeast(x: nat, y: nat)
    requires y >= 1
    ensures x <= x * y
  {}

  /** Dividing one power of two by another subtracts exponents. */
  lemma Pow2Quotient(a: nat, b: nat)
    requires b <= a
    ensures Quotient(Pow2(a), Pow2(b)) == Pow2(a - b)
  {
    Pow2Add(a - b, b);
    DivExact(Pow2(a - b), Pow2(b));
  }

  lemma DivExact(q: int, d: nat)
    requires d >= 1
    ensures (q * d) / d == q
    ensures (q * d) % d == 0
  {
    var n := q * d;
    DivUnique(n, d, q, 0);
  }

  lemma MulOrder(k: int, d: nat)
    requires d >= 1
    ensures k >= 1 ==> k * d >= d
    ensures k <= -1 ==> k * d <= 0 - d
  {}

  lemma Distribute(a: int, b: int, d: int)
    ensures (a - b) * d == a * d - b * d
    ensures (a + b) * d == a * d + b * d
  {}

  lemma DivUnique(n: int, d: nat, q: int, r: int)
    requires d >= 1 && n == q * d + r && 0 <= r < d
    ensures n / d == q && n % d == r
  {
    var q', r' := n / d, n % d;
    DivModLaw(n, d);
    Distribute(q, q', d);
    MulOrder(q - q', d);
  }

  lemma DivModLaw(n: int, d: nat)
    requires d >= 1
    ensures n == (n / d) * d + n % d
    ensures 0 <= n % d < d
  {}

  /** Two floor divisions in a row are one. */
  lemma DivDiv(n: nat, a: nat, b: nat)
    requires a >= 1 && b >= 1
    ensures a * b >= 1
    ensures Quotient(Quotient(n, a), b) == Quotient(n, a * b)
  {
    MulAtLeast(a, b);
    var q, r := n / a, n % a;
    var t, u := q / b, q % b;
    DivModLaw(n, a);
    DivModLaw(q, b);
    Regroup(t, u, a, b);
    MulMonotone(u, a, b - 1, a);
    Distribute(b, 1, a);
    assert b * a == a * b;
    DivUnique(n, a * b, t, u * a + r);
  }

  lemma Regroup(t: int, u: int, a: int, b: int)
    ensures (t * b + u) * a == t * (a * b) + u * a
  {}

  /** What `IsPow2` gives of a product: it is a power of two and logarithms add. */
  lemma Pow2Product(x: nat, y: nat)
    requires IsPow2(x) && IsPow2(y)
    ensures IsPow2(x * y)
    ensures FloorLog2(x * y) == FloorLog2(x) + FloorLog2(y)
  {
    LogExact(x);
    LogExact(y);
    ProductOfExponents(x, FloorLog2(x), y, FloorLog2(y));
  }

  lemma ProductOfExponents(x: nat, a: nat, y: nat, b: nat)
    requires x == Pow2(a) && y == Pow2(b)
    ensures IsPow2(x * y) && FloorLog2(x * y) == a + b
  {
    Pow2Add(a, b);
    FloorLog2OfPow2(a + b);
  }

  lemma LogMonotone(x: nat, y: nat)
    requires IsPow2(x) && IsPow2(y)
    ensures x >= 1 && y >= 1
    ensures x <= y <==> FloorLog2(x) <= FloorLog2(y)
  {}

  lemma MulMonotone(a: nat, b: nat, c: nat, d: nat)
    requires a <= c && b <= d
    ensures a * b <= c * d
  {}

  lemma {:induction false} PowerMonotone(x: nat, y: nat, e: nat)
    requires x <= y
    ensures Power(x, e) <= Power(y, e)
    ensures x >= 1 ==> Power(x, e) >= 1
    decreases e
  {
    if e > 0 {
      PowerMonotone(x, y, e - 1);
      MulMonotone(x, Power(x, e - 1), y, Power(y, e - 1));
      if x >= 1 {
        MulMonotone(1, 1, x, Power(x, e - 1));
      }
    }
  }

  lemma {:induction false} PowerOfDouble(x: nat, e: nat)
    ensures Power(2 * x, e) == Pow2(e) * Power(x, e)
    decreases e
  {
    if e > 0 {
      PowerOfDouble(x, e - 1);
      Interchange(2, x, Pow2(e - 1), Power(x, e - 1));
    }
  }

  lemma Interchange(a: int, b: int, c: int, d: int)
    ensures a * b * (c * d) == a * c * (b * d)
  {}

  /** Doubling multiplies the tenth power by 2^10, far more than the tolerance allows. */
  lemma TenthOfDouble(x: nat)
    requires x >= 1
    ensures 2 * Tenth(x) < Tenth(2 * x)
  {
    PowerOfDouble(x, TENTH);
    Pow2Monotone(2, TENTH);
    PowerMonotone(1, x, TENTH);
    PowerMonotone(1, 1, TENTH);
    MulMonotone(4, Tenth(x), Pow2(TENTH), Tenth(x));
  }

  /** The tolerant logarithm k satisfies 2^k <= ratio * 2^0.1 < 2^(k+1), in tenth powers. */
  lemma NearLog2Rounds(num: nat, den: nat)
    requires 1 <= den <= num
    ensures var k := NearLog2(num, den);
            Tenth(Pow2(k) * den) <= 2 * Tenth(num) < Tenth(Pow2(k + 1) * den)
  {
    DivAtLeastOne(num, den);
    var e := FloorLog2(num / den);
    RatioBetween(num, den);
    PowerMonotone(Pow2(e) * den, num, TENTH);
    PowerMonotone(num, Pow2(e + 1) * den, TENTH);
    PowerMonotone(1, num, TENTH);
    TenthOfDouble(Pow2(e + 1) * den);
    assert Pow2(e + 2) * den == 2 * (Pow2(e + 1) * den) by { Associate(2, Pow2(e + 1), den); }
  }

  lemma Associate(x: int, y: int, z: int)
    ensures x * (y * z) == x * y * z
  {}

  lemma RatioBetween(num: nat, den: nat)
    requires 1 <= den <= num && num / den >= 1
    ensures var e := FloorLog2(num / den);
            Pow2(e) * den <= num < Pow2(e + 1) * den
  {
    var q := num / den;
    var e := FloorLog2(q);
    FloorLog2Bounds(q);
    DivModLaw(num, den);
    MulMonotone(Pow2(e), den, q, den);
    MulMonotone(q + 1, den, Pow2(e + 1), den);
    Distribute(q, -1, den);
  }

  /** On an exact power of two the tolerance changes nothing. */
  lemma NearLog2Exact(e: nat, den: nat)
    requires den >= 1
    ensures NearLog2(Pow2(e) * den, den) == e
  {
    var num := Pow2(e) * den;
    MulMonotone(1, den, Pow2(e), den);
    DivExact(Pow2(e), den);
    FloorLog2OfPow2(e);
    TenthOfDouble(num);
    PowerMonotone(1, num, TENTH);
    assert Pow2(e + 1) * den == 2 * num by { Associate(2, Pow2(e), den); }
  }

  lemma NearLog2OfPow2(x: nat)
    requires IsPow2(x)
    ensures NearLog2(x, 1) == FloorLog2(x)
  {
    hide NearLog2, Pow2;
    LogExact(x);
    NearLog2Exact(FloorLog2(x), 1);
  }

  lemma {:induction false} PowerOfProduct(x: nat, y: nat, e: nat)
    ensures Power(x * y, e) == Power(x, e) * Power(y, e)
    decreases e
  {
    if e > 0 {
      PowerOfProduct(x, y, e - 1);
      Interchange(x, y, Power(x, e - 1), Power(y, e - 1));
    }
  }

  /** A common factor does not matter to a comparison within the tolerance. */
  lemma TenthScales(s: nat, x: nat, y: nat)
    requires s >= 1
    ensures Tenth(s * x) <= 2 * Tenth(s * y) <==> Tenth(x) <= 2 * Tenth(y)
  {
    hide Power;
    PowerOfProduct(s, x, TENTH);
    PowerOfProduct(s, y, TENTH);
    PowerMonotone(1, s, TENTH);
    PowerMonotone(s, s, TENTH);
    ScaledOrder(Tenth(s), Tenth(x), 2 * Tenth(y));
    assert Tenth(s) * (2 * Tenth(y)) == 2 * (Tenth(s) * Tenth(y)) by { Associate(Tenth(s), 2, Tenth(y)); }
  }

  lemma ScaledOrder(s: int, x: int, y: int)
    requires s >= 1
    ensures s * x <= s * y <==> x <= y
  {}

  /** A number just below 2^k times the denominator has logarithm k exactly when it is within
      the tolerance. */
  lemma NearLog2Iff(num: nat, den: nat, k: nat)
    requires 1 <= den <= num <= Pow2(k) * den
    ensures NearLog2(num, den) == k <==> Tenth(Pow2(k) * den) <= 2 * Tenth(num)
  {
    hide NearLog2, Pow2, Power;
    NearLog2Rounds(num, den);
    var n := NearLog2(num, den);
    if Tenth(Pow2(k) * den) <= 2 * Tenth(num) {
      if n < k {
        PowersOf(n + 1, k, den);
      } else if k < n {
        PowersOf(k + 1, n, den);
        PowerMonotone(num, Pow2(k) * den, TENTH);
        TenthOfDouble(Pow2(k) * den);
        DoublePow2(k, den);
      }
    }
  }

  lemma DoublePow2(k: nat, den: nat)
    ensures Pow2(k + 1) * den == 2 * (Pow2(k) * den)
    ensures den >= 1 ==> Pow2(k) * den >= 1
  {}

  lemma PowersOf(a: nat, b: nat, den: nat)
    requires a <= b
    ensures Tenth(Pow2(a) * den) <= Tenth(Pow2(b) * den)
  {
    Pow2Monotone(a, b);
    MulMonotone(Pow2(a), den, Pow2(b), den);
    PowerMonotone(Pow2(a) * den, Pow2(b) * den, TENTH);
  }

  // ---------------------------------------------------------------- odd and even parts

  /** How often two divides n. */
  function TwoExponent(n: nat): nat
    requires n >= 1
  {
    if n % 2 == 0 then 1 + TwoExponent(n / 2) else 0
  }

  /** n without its factors of two. */
  function OddPart(n: nat): (p: nat)
    requires n >= 1
    ensures p >= 1 && p % 2 == 1
  {
    if n % 2 == 0 then OddPart(n / 2) else n
  }

  lemma {:induction false} Parts(n: nat)
    requires n >= 1
    ensures n == Pow2(TwoExponent(n)) * OddPart(n)
    ensures TwoExponent(n) <= FloorLog2(n)
  {
    if n % 2 == 0 {
      Parts(n / 2);
      Associate(2, Pow2(TwoExponent(n / 2)), OddPart(n / 2));
    }
  }

  lemma Multiple(n: nat, d: nat) returns (q: nat)
    requires d >= 1 && n % d == 0
    ensures n == q * d
  {
    q := n / d;
    DivModLaw(n, d);
  }

  /** An odd divisor of a double divides the number doubled. */
  lemma OddDividesHalf(x: nat, p: nat)
    requires p % 2 == 1 && (2 * x) % p == 0
    ensures x % p == 0
  {
    var q := Multiple(2 * x, p);
    EvenFactor(q, p, x);
    DivExact(q / 2, p);
  }

  lemma EvenFactor(q: nat, p: nat, x: nat)
    requires p % 2 == 1 && q * p == 2 * x
    ensures x == q / 2 * p
  {
    OddProduct(q / 2, p / 2);
    Associate(2, q / 2, p);
  }

  lemma OddProduct(h: nat, r: nat)
    ensures (2 * h + 1) * (2 * r + 1) == 2 * (2 * h * r + h + r) + 1
  {}

  lemma {:induction false} OddDivides(e: nat, a: nat, p: nat)
    requires p % 2 == 1 && (Pow2(e) * a) % p == 0
    ensures a % p == 0
  {
    if e > 0 {
      Associate(2, Pow2(e - 1), a);
      OddDividesHalf(Pow2(e - 1) * a, p);
      OddDivides(e - 1, a, p);
    }
  }

  /** A number with no more factors of two than 2^e divides 2^e * a exactly if its odd part
      divides a. */
  lemma DividesIffOddPart(n: nat, e: nat, a: nat)
    requires n >= 1 && TwoExponent(n) <= e
    ensures Product(Pow2(e), a) % n == 0 <==> a % OddPart(n) == 0
  {
    hide Pow2, OddPart, TwoExponent;
    var k, p := TwoExponent(n), OddPart(n);
    Parts(n);
    if Product(Pow2(e), a) % n == 0 {
      var q := Multiple(Pow2(e) * a, n);
      Associate(q, Pow2(k), p);
      DivExact(q * Pow2(k), p);
      OddDivides(e, a, p);
    }
    if a % p == 0 {
      var q := Multiple(a, p);
      Pow2Add(e - k, k);
      assert Pow2(e - k) * Pow2(k) * (q * p) == Pow2(e - k) * q * (Pow2(k) * p) by {
        Interchange(Pow2(e - k), Pow2(k), q, p);
      }
      DivExact(Pow2(e - k) * q, n);
    }
  }

  /** The tolerant logarithm never falls below the plain one. */
  lemma LogAtLeast(n: nat)
    requires n >= 1
    ensures FloorLog2(n) <= NearLog2(n, 1)
  {
    hide Power;
  }
}

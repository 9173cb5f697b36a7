/** The integer arithmetic of the bucket mapping: Java's `%` and
    BigInteger.gcd, and the number theory behind the SMB redistribution. */
module Arith {

  function Abs(x: int): nat
  {
    if x < 0 then -x else x
  }

  /** Java's `%` on int: truncating division, so the remainder takes the sign
      of the dividend (Dafny's own `%` is Euclidean). */
  function JavaRem(a: int, b: int): (r: int)
    requires b != 0
    ensures a >= 0 ==> 0 <= r < Abs(b)
    ensures a < 0 ==> 0 <= -r < Abs(b)
  {
    if a >= 0 then a % b else -((-a) % b)
  }

  /** BigInteger.gcd on non-negative arguments, by Euclid's algorithm. */
  function Gcd(a: nat, b: nat): nat
    decreases b
  {
    if b == 0 then a else Gcd(b, a % b)
  }

  /** Coefficients x, y with x * a + y * b == Gcd(a, b) (extended Euclid). */
  function Bezout(a: nat, b: nat): (xy: (int, int))
    decreases b
    ensures xy.0 * a + xy.1 * b == Gcd(a, b)
  {
    if b == 0 then (1, 0)
    else
      var (x, y) := Bezout(b, a % b);
      BezoutStep(a, b, x, y, a / b, Gcd(a, b));
      (y, x - (a / b) * y)
  }

  /** One step of extended Euclid: coefficients for (b, a % b) give
      coefficients for (a, b). */
  lemma BezoutStep(a: int, b: int, x: int, y: int, q: int, g: int)
    requires b > 0 && q == a / b && x * b + y * (a % b) == g
    ensures y * a + (x - q * y) * b == g
  {
    var r := a % b;
    assert a == q * b + r;
    assert y * a == (y * q) * b + y * r;
    assert (x - q * y) * b == x * b - (q * y) * b;
    assert (y * q) * b == (q * y) * b;
  }

  lemma MulBound(d: int, m: int)
    requires m > 0
    ensures d >= 1 ==> d * m >= m
    ensures d <= -1 ==> d * m <= -m
  {
    if d >= 1 {
      assert d * m == (d - 1) * m + m;
    } else if d <= -1 {
      assert d * m == -((-d - 1) * m) - m;
    }
  }

  /** Euclidean division is unique: a quotient and a remainder in [0, m)
      that recombine to a are a / m and a % m. */
  lemma ModUnique(a: int, m: int, q: int, r: int)
    requires m > 0 && 0 <= r < m && a == q * m + r
    ensures a % m == r && a / m == q
  {
    var d := q - a / m;
    assert a == (a / m) * m + a % m;
    assert d * m == q * m - (a / m) * m;
    assert d * m == a % m - r;
    MulBound(d, m);
  }

  lemma MultipleMod(q: int, g: int)
    requires g > 0
    ensures (q * g) % g == 0
  {
    ModUnique(q * g, g, q, 0);
  }

  /** A combination of two multiples of g is a multiple of g. */
  lemma CombinationMod(p: int, x: int, y: int, g: int)
    requires g > 0 && x % g == 0 && y % g == 0
    ensures (p * x + y) % g == 0
  {
    var qx, qy := x / g, y / g;
    assert x == qx * g && y == qy * g;
    assert p * x + y == (p * qx + qy) * g;
    MultipleMod(p * qx + qy, g);
  }

  /** The gcd divides both arguments. */
  lemma {:induction false} GcdDivides(a: nat, b: nat)
    requires a > 0 || b > 0
    ensures Gcd(a, b) > 0 && a % Gcd(a, b) == 0 && b % Gcd(a, b) == 0
    decreases b
  {
    if b > 0 {
      var q, r := DivRem(a, b);
      GcdDivides(b, r);
      var g := Gcd(b, r);
      assert Gcd(a, b) == g;
      CombinationMod(q, b, r, g);
    }
  }

  /** The Euclidean quotient and remainder, named. */
  lemma DivRem(a: nat, b: nat) returns (q: int, r: nat)
    requires b > 0
    ensures r == a % b && q == a / b && a == q * b + r && r < b
  {
    q, r := a / b, a % b;
  }

  /** Adding a multiple of m does not change the Euclidean residue mod m. */
  lemma ShiftMod(a: int, q: int, m: int)
    requires m > 0
    ensures (a + q * m) % m == a % m
  {
    assert a == (a / m) * m + a % m;
    assert (a / m + q) * m == (a / m) * m + q * m;
    ModUnique(a + q * m, m, a / m + q, a % m);
  }

  /** The residue mod g of a residue mod m, for g dividing m. */
  lemma ModMod(a: int, m: int, g: int)
    requires g > 0 && m > 0 && m % g == 0
    ensures (a % m) % g == a % g
  {
    var q := m / g;
    assert m == q * g;
    assert a == (a / m) * m + a % m;
    assert a % m == a + (-(a / m) * q) * g;
    ShiftMod(a, -(a / m) * q, g);
  }

  /** The redistribution rule of the SMB join. With a big table of n buckets
      and a small table of k buckets, the row of small bucket s (0 <= s < k)
      is found in big bucket b (0 <= b < n) for some row whose hash is
      s + j * k; such a j exists exactly when s and b agree modulo
      gcd(n, k). */
  ghost predicate Reaches(s: int, k: int, n: int, b: int)
    requires n > 0
  {
    exists j: nat :: HashLandsIn(s + j * k, n, b)
  }

  ghost predicate HashLandsIn(h: int, n: int, b: int)
    requires n > 0
  {
    h % n == b
  }

  /** Every hash s + j * k lands in a big bucket with the residue of s
      modulo gcd(n, k). */
  lemma ReachesOnlySameRemainder(s: nat, k: nat, n: nat, b: nat, j: nat)
    requires 0 < k && 0 < n && HashLandsIn(s + j * k, n, b)
    ensures Gcd(n, k) > 0 && s % Gcd(n, k) == b % Gcd(n, k)
  {
    GcdDivides(n, k);
    var g := Gcd(n, k);
    ModMod(s + j * k, n, g);
    var c := MultipleOf(k, g);
    MulAssoc(j, c, g);
    ShiftMod(s, j * c, g);
  }

  /** A multiple of g, with its factor named. */
  lemma MultipleOf(k: int, g: int) returns (c: int)
    requires g > 0 && k % g == 0
    ensures k == c * g
  {
    c := k / g;
  }

  lemma MulAssoc(j: int, c: int, g: int)
    ensures j * (c * g) == (j * c) * g
  {
  }

  /** Two numbers with the same residue mod g differ by a multiple of g. */
  lemma SameRemainderDiff(s: int, b: int, g: int) returns (t: int)
    requires g > 0 && s % g == b % g
    ensures b - s == t * g
  {
    assert s == (s / g) * g + s % g && b == (b / g) * g + b % g;
    t := b / g - s / g;
    assert t * g == (b / g) * g - (s / g) * g;
  }

  /** When s and b agree modulo gcd(n, k), some hash s + j * k lands in b. */
  lemma SameRemainderReaches(s: nat, k: nat, n: nat, b: nat) returns (j: nat)
    requires 0 < k && 0 < n && b < n
    requires Gcd(n, k) > 0 && s % Gcd(n, k) == b % Gcd(n, k)
    ensures HashLandsIn(s + j * k, n, b)
  {
    var g := Gcd(n, k);
    var xy := Bezout(n, k);
    var t := SameRemainderDiff(s, b, g);
    var c := t * xy.0;
    var j0 := t * xy.1;
    ScaleBezout(t, xy.0, xy.1, n, k, g);
    assert j0 * k == b - s - c * n;
    var p, r := DivRemInt(j0, n);
    j := r;
    ReduceMultiplier(j0, p, j, n, k);
    assert s + j * k == b - c * n - (p * k) * n;
    assert (-c - p * k) * n == -(c * n) - (p * k) * n;
    ShiftMod(b, -c - p * k, n);
    ModUnique(b, n, 0, b);
  }

  lemma DivRemInt(a: int, m: int) returns (q: int, r: nat)
    requires m > 0
    ensures a == q * m + r && r < m
  {
    q, r := a / m, a % m;
  }

  lemma ScaleBezout(t: int, x: int, y: int, n: int, k: int, g: int)
    requires x * n + y * k == g
    ensures (t * y) * k == t * g - (t * x) * n
  {
    assert t * (x * n + y * k) == (t * x) * n + (t * y) * k;
  }

  lemma ReduceMultiplier(j0: int, p: int, j: int, n: int, k: int)
    requires j0 == p * n + j
    ensures j * k == j0 * k - (p * k) * n
  {
    assert j0 * k == (p * n) * k + j * k;
    assert (p * n) * k == (p * k) * n;
  }

  lemma ReachesIffSameRemainder(s: nat, k: nat, n: nat, b: nat)
    requires 0 < k && 0 < n && b < n
    ensures Gcd(n, k) > 0
    ensures Reaches(s, k, n, b) <==> s % Gcd(n, k) == b % Gcd(n, k)
  {
    GcdDivides(n, k);
    if Reaches(s, k, n, b) {
      var j: nat :| HashLandsIn(s + j * k, n, b);
      ReachesOnlySameRemainder(s, k, n, b, j);
    }
    if s % Gcd(n, k) == b % Gcd(n, k) {
      var j := SameRemainderReaches(s, k, n, b);
    }
  }
}

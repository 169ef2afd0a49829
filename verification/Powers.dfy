/** Powers of two and the modular arithmetic the width repairs rest on. */
module Powers {

  function Pow2(n: nat): (r: nat)
    ensures r >= 1
  {
    if n == 0 then 1 else 2 * Pow2(n - 1)
  }

  /** `base` to a non-negative exponent, over the integers. */
  function Power(base: int, exponent: nat): int {
    if exponent == 0 then 1 else base * Power(base, exponent - 1)
  }

  lemma {:induction false} Pow2Add(a: nat, b: nat)
    ensures Pow2(a + b) == Pow2(a) * Pow2(b)
  {
    if a == 0 {
    } else {
      Pow2Add(a - 1, b);
      assert Pow2(a + b) == 2 * Pow2(a - 1 + b);
    }
  }

  lemma Pow2Split(a: nat, b: nat)
    requires a <= b
    ensures Pow2(b) == Pow2(a) * Pow2(b - a)
    ensures Pow2(a) <= Pow2(b)
  {
    Pow2Add(a, b - a);
    MulAtLeast(Pow2(a), Pow2(b - a));
  }

  lemma Pow2Strict(a: nat, b: nat)
    requires a < b
    ensures 2 * Pow2(a) <= Pow2(b)
  {
    Pow2Split(a + 1, b);
  }

  lemma MulAtLeast(a: nat, b: nat)
    requires b >= 1
    ensures a <= a * b
  {
    assert a * b == a + a * (b - 1);
  }

  /** The quotient and remainder are the only pair that fits. */
  lemma DivModUnique(x: int, m: int, q: int, r: int)
    requires m > 0 && 0 <= r < m && x == m * q + r
    ensures x / m == q && x % m == r
  {
    var q', r' := x / m, x % m;
    assert m * (q' - q) == r - r';
    if q' > q {
      MulAtLeast(m, q' - q);
      assert false;
    } else if q' < q {
      MulAtLeast(m, q - q');
      assert false;
    }
  }

  /** Adding a multiple of the modulus changes no remainder. */
  lemma ModShift(x: int, k: int, m: int)
    requires m > 0
    ensures (x + k * m) % m == x % m
  {
    var q, r := x / m, x % m;
    assert x + k * m == m * (q + k) + r by {
      assert m * (q + k) == m * q + m * k;
    }
    DivModUnique(x + k * m, m, q + k, r);
  }

  /** Congruent integers differ by a multiple of the modulus. */
  lemma CongruentGap(x: int, y: int, m: int) returns (k: int)
    requires m > 0 && x % m == y % m
    ensures x == y + k * m
  {
    k := x / m - y / m;
    assert k * m == m * (x / m) - m * (y / m);
  }

  lemma CongruentAdd(a: int, b: int, c: int, d: int, m: int)
    requires m > 0 && a % m == b % m && c % m == d % m
    ensures (a + c) % m == (b + d) % m
    ensures (a - c) % m == (b - d) % m
  {
    var j := CongruentGap(a, b, m);
    var k := CongruentGap(c, d, m);
    assert a + c == b + d + (j + k) * m;
    assert a - c == b - d + (j - k) * m;
    ModShift(b + d, j + k, m);
    ModShift(b - d, j - k, m);
  }

  lemma CongruentScale(a: int, b: int, c: int, m: int)
    requires m > 0 && a % m == b % m
    ensures (a * c) % m == (b * c) % m
    ensures (c * a) % m == (c * b) % m
  {
    var j := CongruentGap(a, b, m);
    assert a * c == b * c + (j * c) * m by {
      Distribute(b, j, m, c);
    }
    ModShift(b * c, j * c, m);
    assert c * a == a * c && c * b == b * c;
  }

  lemma Distribute(b: int, j: int, m: int, c: int)
    ensures (b + j * m) * c == b * c + (j * c) * m
  {
    assert (b + j * m) * c == b * c + (j * m) * c;
    assert (j * m) * c == (j * c) * m;
  }

  lemma CongruentMul(a: int, b: int, c: int, d: int, m: int)
    requires m > 0 && a % m == b % m && c % m == d % m
    ensures (a * c) % m == (b * d) % m
  {
    CongruentScale(a, b, c, m);
    CongruentScale(c, d, b, m);
  }

  lemma {:induction false} CongruentPower(a: int, b: int, e: nat, m: int)
    requires m > 0 && a % m == b % m
    ensures Power(a, e) % m == Power(b, e) % m
  {
    if e == 0 {
    } else {
      CongruentPower(a, b, e - 1, m);
      CongruentMul(a, b, Power(a, e - 1), Power(b, e - 1), m);
    }
  }

  /** Congruence for a modulus descends to its divisors. */
  lemma CongruentDivisor(x: int, y: int, m: int, k: int)
    requires m > 0 && k > 0 && m * k > 0 && x % (m * k) == y % (m * k)
    ensures x % m == y % m
  {
    var j := CongruentGap(x, y, m * k);
    assert j * (m * k) == (j * k) * m;
    ModShift(y, j * k, m);
  }

  /** Congruence modulo `2^b` descends to every narrower width. */
  lemma CongruentNarrow(x: int, y: int, a: nat, b: nat)
    requires a <= b && x % Pow2(b) == y % Pow2(b)
    ensures x % Pow2(a) == y % Pow2(a)
  {
    Pow2Split(a, b);
    CongruentDivisor(x, y, Pow2(a), Pow2(b - a));
  }

  lemma ModTwice(x: int, m: int)
    requires m > 0
    ensures x % m % m == x % m
  {
    DivModUnique(x % m, m, 0, x % m);
  }

  lemma ModSmall(x: int, m: int)
    requires 0 <= x < m
    ensures x % m == x && x / m == 0
  {
    DivModUnique(x, m, 0, x);
  }

  /** Dividing in two stages is dividing by the product. */
  lemma DivDiv(x: nat, a: nat, b: nat)
    requires a > 0 && b > 0 && a * b > 0
    ensures x / (a * b) == x / a / b
  {
    Nested(x, a, b, x / a, x % a, x / a / b, x / a % b);
  }

  lemma Nested(x: nat, a: nat, b: nat, q: nat, r: nat, q': nat, r': nat)
    requires a * b > 0 && x == a * q + r && q == b * q' + r' && r < a && r' < b
    ensures x / (a * b) == q'
  {
    Regroup(a, b, q', r');
    BelowProduct(a, b, r, r');
    DivModUnique(x, a * b, q', a * r' + r);
  }

  lemma Regroup(a: nat, b: nat, q: nat, r: nat)
    ensures a * (b * q + r) == (a * b) * q + a * r
  {
  }

  lemma BelowProduct(a: nat, b: nat, r: nat, s: nat)
    requires r < a && s < b
    ensures 0 <= a * s + r < a * b
  {
    MulMono(s + 1, b, a);
  }

  lemma MulMono(a: nat, b: nat, m: nat)
    requires a <= b
    ensures a * m <= b * m && m * a <= m * b
  {
    assert b * m == a * m + (b - a) * m;
  }

  lemma DivAtMost(x: nat, m: nat)
    requires m > 0
    ensures 0 <= x / m <= x
  {
    MulAtLeast(x / m, m);
  }

  lemma ModLap(x: int, m: int)
    requires m > 0
    ensures (x - m) % m == x % m && (x + m) % m == x % m
  {
    ModShift(x, -1, m);
    ModShift(x, 1, m);
  }

  /** The representative of a residue class in the window that ends at `limit`. */
  lemma Window(z: int, m: int, limit: int)
    requires 0 < limit <= m
    ensures var r := if z % m < limit then z % m else z % m - m;
            limit - m <= r < limit && r % m == z % m
  {
    ModTwice(z, m);
    ModLap(z % m, m);
  }

  lemma WindowUnique(y: int, z: int, m: int, limit: int)
    requires 0 < limit <= m && limit - m <= y < limit && y % m == z % m
    ensures y == if z % m < limit then z % m else z % m - m
  {
    if y >= 0 {
      ModSmall(y, m);
    } else {
      DivModUnique(y, m, -1, y + m);
    }
  }

  /** Integers closer than the modulus and congruent are equal. */
  lemma CongruentClose(x: int, y: int, m: int)
    requires m > 0 && x % m == y % m && -m < x - y < m
    ensures x == y
  {
    var k := CongruentGap(x, y, m);
    if k > 0 {
      MulAtLeast(m, k);
    } else if k < 0 {
      MulAtLeast(m, -k);
    }
  }

  lemma MulBelow(a: nat, b: nat, m: nat)
    requires a < b && m > 0
    ensures a * m < b * m
  {
    MulMono(a + 1, b, m);
  }

  /** Scaling commutes with reduction when the modulus is scaled too. */
  lemma ScaledMod(x: nat, m: nat, p: nat)
    requires m > 0 && p > 0 && m * p > 0
    ensures x * p % (m * p) == x % m * p
  {
    var q, r := x / m, x % m;
    MulBelow(r, m, p);
    assert x * p == (m * p) * q + r * p by {
      assert (m * q + r) * p == (m * q) * p + r * p;
      assert (m * q) * p == (m * p) * q;
    }
    DivModUnique(x * p, m * p, q, r * p);
  }

  /** Scaling keeps the side of `half` a number is on. */
  lemma ScaledSide(a: nat, half: nat, p: nat)
    requires p > 0
    ensures a < half <==> a * p < half * p
    ensures (a - 2 * half) * p == a * p - 2 * (half * p)
  {
    if a < half {
      MulBelow(a, half, p);
    } else {
      MulMono(half, a, p);
    }
  }

  lemma MulMinusOne(a: int, b: int)
    ensures a * b - a == (b - 1) * a
  {
  }

  lemma ExactQuotient(q: int, m: int)
    requires m > 0
    ensures q * m / m == q
  {
    DivModUnique(q * m, m, q, 0);
  }
}

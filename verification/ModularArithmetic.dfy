/**
 Arithmetic modulo a prime: Euclid's lemma, cancellation, Fermat's little theorem and Euler's
 criterion. The delay function of `Unicorn` rests on these.
 */
module ModularArithmetic {
  import opened Collections

  predicate Divides(d: int, n: int)
    requires d != 0
  {
    n % d == 0
  }

  ghost predicate IsPrime(p: int) {
    2 <= p && forall d :: 2 <= d < p ==> !Divides(d, p)
  }

  function Pow(b: int, e: nat): int {
    if e == 0 then 1 else b * Pow(b, e - 1)
  }

  /* ---- Remainders ---- */

  lemma MulAtLeast(p: int, k: int)
    requires 0 < p && 1 <= k
    ensures p <= p * k
  {
  }

  /** A remainder is determined by any quotient that leaves it in range. */
  lemma ModUnique(a: int, p: int, q: int, r: int)
    requires 0 < p && 0 <= r < p
    requires a == p * q + r
    ensures a % p == r
  {
    var q', r' := a / p, a % p;
    assert a == p * q' + r';
    assert p * (q - q') == r' - r;
    if q > q' {
      MulAtLeast(p, q - q');
    } else if q < q' {
      assert p * (q' - q) == r - r';
      MulAtLeast(p, q' - q);
    }
  }

  lemma ModShift(a: int, p: int, k: int)
    requires 0 < p
    ensures (a + p * k) % p == a % p
  {
    assert a == p * (a / p) + a % p;
    assert a + p * k == p * (a / p + k) + a % p;
    ModUnique(a + p * k, p, a / p + k, a % p);
  }

  lemma ModMul(a: int, b: int, p: int)
    requires 0 < p
    ensures (a * b) % p == ((a % p) * (b % p)) % p
  {
    var qa, ra, qb, rb := a / p, a % p, b / p, b % p;
    assert a == p * qa + ra && b == p * qb + rb;
    var k := qa * b + ra * qb;
    calc {
      a * b;
      (p * qa + ra) * b;
      p * (qa * b) + ra * b;
      p * (qa * b) + ra * (p * qb + rb);
      { assert ra * (p * qb + rb) == p * (ra * qb) + ra * rb; }
      p * (qa * b) + p * (ra * qb) + ra * rb;
      { assert p * k == p * (qa * b) + p * (ra * qb); }
      ra * rb + p * k;
    }
    ModShift(ra * rb, p, k);
  }

  /** Congruent factors have congruent products. */
  lemma ModMulCong(a: int, a': int, b: int, b': int, p: int)
    requires 0 < p && a % p == a' % p && b % p == b' % p
    ensures (a * b) % p == (a' * b') % p
  {
    ModMul(a, b, p);
    ModMul(a', b', p);
  }

  lemma ModSmall(a: int, p: int)
    requires 0 <= a < p
    ensures a % p == a
  {
    ModUnique(a, p, 0, a);
  }

  lemma ModTwice(a: int, p: int)
    requires 0 < p
    ensures (a % p) % p == a % p
  {
    ModSmall(a % p, p);
  }

  lemma ModMulLeft(a: int, b: int, p: int)
    requires 0 < p
    ensures ((a % p) * b) % p == (a * b) % p
  {
    ModMul(a, b, p);
    ModMul(a % p, b, p);
    ModUnique(a % p, p, 0, a % p);
  }

  lemma ModSub(a: int, b: int, p: int)
    requires 0 < p
    ensures a % p == b % p <==> (a - b) % p == 0
  {
    var qa, qb := a / p, b / p;
    assert a == p * qa + a % p && b == p * qb + b % p;
    var d := a % p - b % p;
    assert p * (qa - qb) == p * qa - p * qb;
    assert a - b == d + p * (qa - qb);
    ModShift(d, p, qa - qb);
    if d < 0 {
      ModUnique(d, p, -1, d + p);
    } else {
      ModUnique(d, p, 0, d);
    }
  }

  lemma ModNeg(a: int, p: int)
    requires 0 < p
    ensures (-a) % p == if a % p == 0 then 0 else p - a % p
  {
    var q, r := a / p, a % p;
    assert a == p * q + r;
    if r == 0 {
      assert -a == p * (-q) + 0;
      ModUnique(-a, p, -q, 0);
    } else {
      assert -a == p * (-q - 1) + (p - r);
      ModUnique(-a, p, -q - 1, p - r);
    }
  }

  /* ---- Primes ---- */

  lemma {:induction false} EuclidReduced(a: int, b: int, p: int)
    requires IsPrime(p) && 0 < a < p && (a * b) % p == 0
    ensures b % p == 0
    decreases a
  {
    if a > 1 {
      var q, r := p / a, p % a;
      assert p == a * q + r;
      assert !Divides(a, p);
      assert r * b == p * b - q * (a * b) by {
        assert r == p - a * q;
        assert (p - a * q) * b == p * b - (a * q) * b;
        assert (a * q) * b == q * (a * b);
      }
      var k := (a * b) / p;
      assert a * b == p * k;
      assert q * (a * b) == p * (q * k);
      assert r * b == p * (b - q * k);
      ModUnique(r * b, p, b - q * k, 0);
      EuclidReduced(r, b, p);
    }
  }

  /** Euclid's lemma. */
  lemma Euclid(a: int, b: int, p: int)
    requires IsPrime(p) && (a * b) % p == 0
    ensures a % p == 0 || b % p == 0
  {
    if a % p != 0 {
      ModMulLeft(a, b, p);
      EuclidReduced(a % p, b, p);
    }
  }

  lemma Cancel(a: int, x: int, y: int, p: int)
    requires IsPrime(p) && a % p != 0
    requires (a * x) % p == (a * y) % p
    ensures x % p == y % p
  {
    ModSub(a * x, a * y, p);
    assert a * x - a * y == a * (x - y);
    Euclid(a, x - y, p);
    ModSub(x, y, p);
  }

  /** Equal squares have roots that agree up to sign. */
  lemma SquaresAgree(a: int, b: int, p: int)
    requires IsPrime(p)
    requires (a * a) % p == (b * b) % p
    ensures a % p == b % p || a % p == (-b) % p
  {
    ModSub(a * a, b * b, p);
    assert a * a - b * b == (a - b) * (a + b);
    Euclid(a - b, a + b, p);
    ModSub(a, b, p);
    ModSub(a, -b, p);
  }

  /* ---- Powers ---- */

  lemma {:induction false} PowAdd(b: int, m: nat, n: nat)
    ensures Pow(b, m + n) == Pow(b, m) * Pow(b, n)
  {
    if m > 0 {
      PowAdd(b, m - 1, n);
      assert b * (Pow(b, m - 1) * Pow(b, n)) == (b * Pow(b, m - 1)) * Pow(b, n);
    }
  }

  lemma {:induction false} PowTimes(b: int, m: nat, n: nat)
    ensures Pow(Pow(b, m), n) == Pow(b, m * n)
  {
    if n == 0 {
      assert m * n == 0;
    } else {
      PowTimes(b, m, n - 1);
      assert m * n == m + m * (n - 1);
      PowAdd(b, m, m * (n - 1));
    }
  }

  lemma {:induction false} PowMod(b: int, e: nat, p: int)
    requires 0 < p
    ensures Pow(b % p, e) % p == Pow(b, e) % p
  {
    if e > 0 {
      PowMod(b, e - 1, p);
      ModMul(b, Pow(b, e - 1), p);
      ModMul(b % p, Pow(b % p, e - 1), p);
      ModUnique(b % p, p, 0, b % p);
    }
  }

  lemma {:induction false} PowOne(e: nat)
    ensures Pow(1, e) == 1
  {
    if e > 0 {
      PowOne(e - 1);
    }
  }

  lemma {:induction false} PowNonZero(a: int, e: nat, p: int)
    requires IsPrime(p) && a % p != 0
    ensures Pow(a, e) % p != 0
  {
    if e == 0 {
      ModUnique(1, p, 0, 1);
    } else {
      PowNonZero(a, e - 1, p);
      if Pow(a, e) % p == 0 {
        Euclid(a, Pow(a, e - 1), p);
      }
    }
  }

  /* ---- Fermat's little theorem ---- */

  /** The product of the members of `s` among 1..n. */
  ghost function Product(s: set<int>, n: nat): int {
    if n == 0 then 1 else (if n in s then n else 1) * Product(s, n - 1)
  }

  lemma {:induction false} ProductInsert(s: set<int>, e: int, n: nat)
    requires e !in s && 1 <= e
    ensures Product(s + {e}, n) == (if e <= n then e else 1) * Product(s, n)
  {
    if n > 0 {
      ProductInsert(s, e, n - 1);
      var rest := Product(s, n - 1);
      if n == e {
        assert Product(s + {e}, n) == e * rest;
      } else if n in s {
        MulExchange(n, if e <= n then e else 1, rest);
      }
    }
  }

  lemma MulExchange(a: int, b: int, c: int)
    ensures a * (b * c) == b * (a * c)
  {
  }

  lemma {:induction false} ProductNonZero(s: set<int>, n: nat, p: int)
    requires IsPrime(p) && n < p
    ensures Product(s, n) % p != 0
  {
    if n == 0 {
      ModUnique(1, p, 0, 1);
    } else {
      ProductNonZero(s, n - 1, p);
      ModUnique(n, p, 0, n);
      if Product(s, n) % p == 0 {
        Euclid(if n in s then n else 1, Product(s, n - 1), p);
        ModUnique(1, p, 0, 1);
      }
    }
  }

  /** The residues of a, 2a, ..., ka. */
  ghost function Multiples(a: int, k: nat, p: int): set<int>
    requires 0 < p
  {
    if k == 0 then {} else Multiples(a, k - 1, p) + {(a * k) % p}
  }

  lemma {:induction false} MultiplesMember(a: int, k: nat, p: int, x: int) returns (j: int)
    requires 0 < p && x in Multiples(a, k, p)
    ensures 1 <= j <= k && x == (a * j) % p
  {
    if x == (a * k) % p {
      j := k;
    } else {
      j := MultiplesMember(a, k - 1, p, x);
    }
  }

  ghost function Interval(n: nat): set<int> {
    if n == 0 then {} else Interval(n - 1) + {n}
  }

  lemma {:induction false} IntervalMember(n: nat, i: int)
    ensures i in Interval(n) <==> 1 <= i <= n
  {
    if n > 0 {
      IntervalMember(n - 1, i);
    }
  }

  lemma {:induction false} IntervalSize(n: nat)
    ensures |Interval(n)| == n
  {
    if n > 0 {
      IntervalSize(n - 1);
      IntervalMember(n - 1, n);
    }
  }

  /** The residue of a k is nonzero and differs from those of a, 2a, ..., (k-1)a. */
  lemma MultipleIsNew(a: int, k: nat, p: int)
    requires IsPrime(p) && a % p != 0 && 1 <= k < p
    ensures 1 <= (a * k) % p < p
    ensures (a * k) % p !in Multiples(a, k - 1, p)
  {
    var e := (a * k) % p;
    ModSmall(k, p);
    if e == 0 {
      Euclid(a, k, p);
    }
    if e in Multiples(a, k - 1, p) {
      var j := MultiplesMember(a, k - 1, p, e);
      Cancel(a, j, k, p);
      ModSmall(j, p);
    }
  }

  lemma {:induction false} MultiplesSize(a: int, k: nat, p: int)
    requires IsPrime(p) && a % p != 0 && k < p
    ensures Multiples(a, k, p) <= Interval(p - 1)
    ensures |Multiples(a, k, p)| == k
  {
    if k > 0 {
      MultiplesSize(a, k - 1, p);
      MultipleIsNew(a, k, p);
      IntervalMember(p - 1, (a * k) % p);
    }
  }

  ghost function Factorial(n: nat): int {
    if n == 0 then 1 else n * Factorial(n - 1)
  }

  lemma {:induction false} ProductInterval(m: nat, n: nat)
    requires n <= m
    ensures Product(Interval(m), n) == Factorial(n)
  {
    if n > 0 {
      ProductInterval(m, n - 1);
      IntervalMember(m, n);
    }
  }

  /** The k residues multiply to a^k k! modulo p. */
  lemma {:induction false} MultiplesProduct(a: int, k: nat, p: int)
    requires IsPrime(p) && a % p != 0 && k < p
    ensures Product(Multiples(a, k, p), p - 1) % p == (Pow(a, k) * Factorial(k)) % p
  {
    if k == 0 {
      ProductEmpty({}, p - 1);
    } else {
      MultiplesProduct(a, k - 1, p);
      MultipleIsNew(a, k, p);
      var s, e := Multiples(a, k - 1, p), (a * k) % p;
      ProductInsert(s, e, p - 1);
      MultiplesProductStep(a, k, e, Product(s, p - 1), Pow(a, k - 1), Factorial(k - 1), p);
    }
  }

  lemma MultiplesProductStep(a: int, k: int, e: int, P: int, A: int, F: int, p: int)
    requires 0 < p && e == (a * k) % p && P % p == (A * F) % p
    ensures (e * P) % p == ((a * A) * (k * F)) % p
  {
    ModTwice(a * k, p);
    ModMulCong(e, a * k, P, A * F, p);
    assert (a * k) * (A * F) == (a * A) * (k * F);
  }

  lemma {:induction false} ProductEmpty(s: set<int>, n: nat)
    requires s == {}
    ensures Product(s, n) == 1
  {
    if n > 0 {
      ProductEmpty(s, n - 1);
    }
  }

  /** Fermat: a^(p-1) is 1 modulo the prime p when p does not divide a. */
  lemma Fermat(a: int, p: int)
    requires IsPrime(p) && a % p != 0
    ensures Pow(a, p - 1) % p == 1
  {
    MultiplesProduct(a, p - 1, p);
    MultiplesSize(a, p - 1, p);
    IntervalSize(p - 1);
    SubsetSize(Multiples(a, p - 1, p), Interval(p - 1));
    ProductInterval(p - 1, p - 1);
    ProductNonZero(Interval(p - 1), p - 1, p);
    FermatCancel(Factorial(p - 1), Pow(a, p - 1), p);
  }

  lemma FermatCancel(F: int, A: int, p: int)
    requires IsPrime(p) && F % p != 0 && F % p == (A * F) % p
    ensures A % p == 1
  {
    assert F * 1 == F && A * F == F * A;
    Cancel(F, 1, A, p);
    ModSmall(1, p);
  }

  /* ---- Quadratic residues ---- */

  ghost predicate IsRootOf(r: int, x: int, p: int)
    requires 0 < p
  {
    (r * r) % p == x % p
  }

  ghost predicate IsResidue(x: int, p: int)
    requires 0 < p
  {
    exists r: int :: IsRootOf(r, x, p)
  }

  /** The Euler symbol is 1 or -1. */
  lemma EulerSign(x: int, p: int)
    requires IsPrime(p) && p % 2 == 1 && x % p != 0
    ensures var s := Pow(x, (p - 1) / 2) % p; s == 1 || s == p - 1
  {
    var h := Pow(x, (p - 1) / 2);
    PowAdd(x, (p - 1) / 2, (p - 1) / 2);
    Fermat(x, p);
    ModUnique(1, p, 0, 1);
    assert (h * h) % p == (1 * 1) % p;
    SquaresAgree(h, 1, p);
    ModNeg(1, p);
  }

  /** For p = 3 (mod 4), raising to (p+1)/4 and squaring gives x times the Euler symbol. */
  lemma RootSquared(x: int, p: int)
    requires IsPrime(p) && p % 4 == 3 && x % p != 0
    ensures var y := Pow(x, (p + 1) / 4);
            (y * y) % p == (x * Pow(x, (p - 1) / 2)) % p
  {
    var e := (p + 1) / 4;
    PowAdd(x, e, e);
    assert e + e == 1 + (p - 1) / 2;
    PowAdd(x, 1, (p - 1) / 2);
    assert Pow(x, 1) == x * Pow(x, 0) == x;
  }

  lemma CongPow(a: int, b: int, n: nat, p: int)
    requires 0 < p && a % p == b % p
    ensures Pow(a, n) % p == Pow(b, n) % p
  {
    PowMod(a, n, p);
    PowMod(b, n, p);
  }

  lemma SquareNonZero(a: int, p: int)
    requires IsPrime(p)
    ensures (a * a) % p == 0 <==> a % p == 0
  {
    if a % p == 0 {
      ModMulLeft(a, a, p);
    } else if (a * a) % p == 0 {
      Euclid(a, a, p);
    }
  }

  lemma ResidueSymbol(r: int, x: int, p: int)
    requires IsPrime(p) && p % 4 == 3 && x % p != 0 && IsRootOf(r, x, p)
    ensures Pow(x, (p - 1) / 2) % p == 1
  {
    SquareNonZero(r, p);
    EvenPower(r, p);
    CongPow(r * r, x, (p - 1) / 2, p);
  }

  lemma SymbolResidue(x: int, p: int)
    requires IsPrime(p) && p % 4 == 3 && x % p != 0
    requires Pow(x, (p - 1) / 2) % p == 1
    ensures IsRootOf(Pow(x, (p + 1) / 4), x, p)
  {
    RootSquared(x, p);
    ModSmall(1, p);
    ModMulCong(x, x, Pow(x, (p - 1) / 2), 1, p);
  }

  /** Euler's criterion, for p = 3 (mod 4). */
  lemma EulerCriterion(x: int, p: int)
    requires IsPrime(p) && p % 4 == 3 && x % p != 0
    ensures IsResidue(x, p) <==> Pow(x, (p - 1) / 2) % p == 1
  {
    if IsResidue(x, p) {
      var r: int :| IsRootOf(r, x, p);
      ResidueSymbol(r, x, p);
    }
    if Pow(x, (p - 1) / 2) % p == 1 {
      SymbolResidue(x, p);
    }
  }

  /** -1 is not a square modulo p = 3 (mod 4): a^2 + b^2 = 0 only for a = b = 0. */
  lemma NoSquareIsNegative(a: int, b: int, p: int)
    requires IsPrime(p) && p % 4 == 3 && a % p != 0
    ensures (a * a) % p != (-(b * b)) % p
  {
    if (a * a) % p == (-(b * b)) % p {
      SquareNonZero(a, p);
      SquareNonZero(b, p);
      ModNeg(b * b, p);
      // Raise both sides to the odd power (p-1)/2: a^(p-1) = -(b^(p-1)).
      EvenPower(a, p);
      EvenPower(b, p);
      CongPow(a * a, -(b * b), (p - 1) / 2, p);
      NegativePower(b * b, p);
    }
  }

  lemma NegativePower(c: int, p: int)
    requires 2 < p && p % 4 == 3 && Pow(c, (p - 1) / 2) % p == 1
    ensures Pow(-c, (p - 1) / 2) % p == p - 1
  {
    PowNegOdd(c, (p - 1) / 2);
    ModNeg(Pow(c, (p - 1) / 2), p);
  }

  lemma EvenPower(a: int, p: int)
    requires IsPrime(p) && p % 2 == 1 && a % p != 0
    ensures Pow(a * a, (p - 1) / 2) % p == 1
  {
    Fermat(a, p);
    PowSquare(a, (p - 1) / 2);
    assert 2 * ((p - 1) / 2) == p - 1;
  }

  lemma PowSquare(a: int, n: nat)
    ensures Pow(a * a, n) == Pow(a, 2 * n)
  {
    assert Pow(a, 1) == a * Pow(a, 0) == a;
    assert Pow(a, 2) == a * a;
    PowTimes(a, 2, n);
  }

  lemma {:induction false} PowNegOdd(b: int, n: nat)
    ensures Pow(-b, n) == if n % 2 == 1 then -Pow(b, n) else Pow(b, n)
  {
    if n > 0 {
      PowNegOdd(b, n - 1);
      var c := Pow(b, n - 1);
      assert (-b) * (-c) == b * c && (-b) * c == -(b * c);
    }
  }
}

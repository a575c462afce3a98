/**
 The sloth delay function of src/unicorn.rs: a slow evaluation by iterated modular square roots
 and a quick verification by iterated squarings.
 */
module Unicorn {
  import opened Wrappers
  import opened MachineIntegers
  import opened ModularArithmetic

  datatype Unicorn = Unicorn(iterations: nat, securityLevel: nat, seed: int, modulus: int)

  /* ---- Specification ---- */

  /** `w ^ 1` on a non-negative integer. */
  function FlipLowBit(w: nat): nat {
    if w % 2 == 0 then w + 1 else w - 1
  }

  /** The neighbour of `w`, or `w` itself when the neighbour falls outside 1..p-1. */
  function Neighbour(w: nat, p: int): nat {
    if 0 < FlipLowBit(w) < p then FlipLowBit(w) else w
  }

  function EvalStep(w: nat, p: int): nat
    requires 2 <= p
  {
    Pow(Neighbour(w, p), (p + 1) / 4) % p
  }

  function EvalIter(w: nat, l: nat, p: int): nat
    requires 2 <= p
  {
    if l == 0 then w else EvalStep(EvalIter(w, l - 1, p), p)
  }

  function VerifyStep(w: int, p: int): int
    requires 2 <= p
  {
    Neighbour((-((w * w) % p)) % p, p)
  }

  function VerifyIter(w: int, l: nat, p: int): int
    requires 2 <= p
  {
    if l == 0 then w else VerifyStep(VerifyIter(w, l - 1, p), p)
  }

  /** The guard of `eval`; both powers wrap at the width the code computes them in. */
  predicate ValidModulus(u: Unicorn, probablyPrime: bool) {
    u.modulus >= Pow(2, (2 * u.securityLevel) % U32_SIZE) % U64_SIZE && probablyPrime
  }

  /**
   Exactly the (seed, wit) pairs that verification accepts after l rounds, when p is a prime
   with p = 3 (mod 4): for nonzero residues, those where the swapped seed is no square and the
   witness is plus or minus the evaluated one; a zero witness is accepted for one fixed seed.
   */
  ghost predicate Accepts(p: int, l: nat, seed: int, wit: int)
    requires 2 <= p
  {
    if l == 0 then wit == seed % p else AcceptsResidues(p, l, seed % p, wit % p)
  }

  ghost predicate AcceptsResidues(p: int, l: nat, s: nat, w: nat)
    requires 2 <= p
  {
    if w == 0 then
      s == if l == 1 then 1 else p - 1
    else
      && s != 0
      && !IsResidue(Neighbour(s, p), p)
      && (w == EvalIter(s, l, p) || w == p - EvalIter(s, l, p))
  }

  ghost predicate SlothPrime(p: int) {
    IsPrime(p) && p % 4 == 3
  }

  /** An odd prime of the other residue class. */
  ghost predicate OtherPrime(p: int) {
    IsPrime(p) && p % 4 == 1
  }

  /* ---- The code ---- */

  method XorForOverflow(w: nat, p: int) returns (r: nat)
    requires 2 <= p && w < p
    ensures r == Neighbour(w, p)
    ensures 0 < r < p
    ensures forall o: nat :: o != w && o / 2 == w / 2 ==> r == if 0 < o < p then o else w
  {
    r := FlipLowBit(w);
    while r >= p || r == 0
      invariant r == FlipLowBit(w) || (r == w && !(0 < FlipLowBit(w) < p))
      decreases r != w
    {
      r := FlipLowBit(r);
    }
  }

  /** The primality test is a parameter: it is taken to answer correctly. */
  method Eval(u: Unicorn, probablyPrime: bool) returns (r: Option<nat>)
    requires probablyPrime <==> IsPrime(u.modulus)
    ensures r.Some? <==> ValidModulus(u, probablyPrime)
    ensures r.Some? ==> r.value == EvalIter(u.seed % u.modulus, u.iterations, u.modulus) < u.modulus
    ensures r.Some? && SlothPrime(u.modulus) && 0 < u.iterations && u.seed % u.modulus != 0 ==>
              forall wit :: Accepts(u.modulus, u.iterations, u.seed, wit) && wit % u.modulus != 0 ==>
                wit % u.modulus in {r.value, u.modulus - r.value}
  {
    if !ValidModulus(u, probablyPrime) {
      return None;
    }
    var p := u.modulus;
    var w: nat := u.seed % p;
    var exponent := (p + 1) / 4;
    for i := 0 to u.iterations
      invariant w == EvalIter(u.seed % p, i, p) < p
    {
      w := XorForOverflow(w, p);
      w := Pow(w, exponent) % p;
    }
    r := Some(w);
  }

  method Verify(u: Unicorn, seed: int, wit: int) returns (ok: bool)
    requires 2 <= u.modulus
    ensures ok <==> VerifyIter(wit, u.iterations, u.modulus) == seed % u.modulus
    ensures SlothPrime(u.modulus) ==> (ok <==> Accepts(u.modulus, u.iterations, seed, wit))
  {
    var p := u.modulus;
    var w := wit;
    for i := 0 to u.iterations
      invariant w == VerifyIter(wit, i, p)
    {
      PowTwo(w);
      w := Pow(w, 2) % p;
      w := (-w) % p;
      w := XorForOverflow(w, p);
    }
    ok := w == seed % p;
    if SlothPrime(p) {
      VerifyExact(p, u.iterations, seed, wit);
    }
  }

  lemma PowTwo(w: int)
    ensures Pow(w, 2) == w * w
  {
    assert Pow(w, 1) == w * Pow(w, 0) == w;
  }

  /* ---- The neighbour swap ---- */

  /** On 1..p-1 the swap is an involution, and commutes with negation modulo an odd p. */
  lemma NeighbourLaws(w: nat, p: int)
    requires 2 <= p && p % 2 == 1 && 0 < w < p
    ensures 0 < Neighbour(w, p) < p
    ensures Neighbour(Neighbour(w, p), p) == w
    ensures Neighbour(p - w, p) == p - Neighbour(w, p)
  {
    if w == 1 || w == p - 1 {
    } else if w % 2 == 0 {
      assert (p - w) % 2 == 1;
    } else {
      assert (p - w) % 2 == 0;
    }
  }

  /** The swap is with the other number of the same half; 1 and, for odd p, p - 1 have none within 1..p-1. */
  lemma NeighbourPairs(w: nat, p: int)
    requires 2 <= p && w < p
    ensures forall o: nat :: o != w && o / 2 == w / 2 ==> Neighbour(w, p) == if 0 < o < p then o else w
    ensures w <= 1 ==> Neighbour(w, p) == 1
    ensures 1 < w < p - 1 ==> Neighbour(w, p) != w && Neighbour(w, p) / 2 == w / 2
    ensures p % 2 == 1 && w == p - 1 ==> Neighbour(w, p) == w
  {
  }

  /* ---- One step ---- */

  lemma VerifyStepRange(w: int, p: int)
    requires 2 <= p
    ensures 0 < VerifyStep(w, p) < p
  {
  }

  /** A verification step only sees its argument modulo p, and not its sign. */
  lemma VerifyStepEven(a: int, b: int, p: int)
    requires 2 <= p
    requires a % p == b % p || a % p == (-b) % p
    ensures VerifyStep(a, p) == VerifyStep(b, p)
  {
    if a % p == b % p {
      ModMulCong(a, b, a, b, p);
    } else {
      ModMulCong(a, -b, a, -b, p);
      assert (-b) * (-b) == b * b;
    }
  }

  /** Squaring an evaluation step gives the swapped value back, up to the sign of its residuosity. */
  lemma EvalStepSquared(x: nat, p: int)
    requires SlothPrime(p) && 0 < x < p
    ensures var n := Neighbour(x, p);
            var y := EvalStep(x, p);
            && 0 < y < p
            && (y * y) % p == if IsResidue(n, p) then n else p - n
  {
    var n := Neighbour(x, p);
    NeighbourLaws(x, p);
    ModSmall(n, p);
    RootSquared(n, p);
    EulerSign(n, p);
    EulerCriterion(n, p);
    PowNonZero(n, (p + 1) / 4, p);
    var root, sign := Pow(n, (p + 1) / 4), Pow(n, (p - 1) / 2);
    ModMul(root, root, p);
    SignedProduct(n, sign, p);
  }

  lemma SignedProduct(n: int, sign: int, p: int)
    requires 2 < p && 0 < n < p && (sign % p == 1 || sign % p == p - 1)
    ensures (n * sign) % p == if sign % p == 1 then n else p - n
  {
    ModSmall(n, p);
    if sign % p == 1 {
      ModSmall(1, p);
      ModMulCong(n, n, sign, 1, p);
    } else {
      ModSmall(1, p);
      ModNeg(1, p);
      ModMulCong(n, n, sign, -1, p);
      ModNeg(n, p);
    }
  }

  lemma NegatedPower(y: int, h: nat, p: int)
    requires 0 < y < p && h % 2 == 1
    ensures Pow(p - y, h) % p == (-Pow(y, h)) % p
  {
    hide Pow;
    ModNeg(y, p);
    ModSmall(y, p);
    ModSmall(p - y, p);
    CongPow(p - y, -y, h, p);
    PowNegOdd(y, h);
  }

  lemma HalfIsOdd(p: int)
    requires SlothPrime(p)
    ensures 2 < p && (p - 1) / 2 >= 0 && (p - 1) / 2 % 2 == 1
  {
  }

  /** A value and its negation have opposite Euler symbols. */
  lemma SymbolNegated(y: int, p: int)
    requires SlothPrime(p) && 0 < y < p
    ensures IsResidue(p - y, p) <==> !IsResidue(y, p)
  {
    hide IsPrime, IsResidue, Pow, SlothPrime;
    HalfIsOdd(p);
    SymbolExact(y, p);
    SymbolExact(p - y, p);
    NegatedPower(y, (p - 1) / 2, p);
    ModNeg(Pow(y, (p - 1) / 2), p);
    SignOf(y, p);
    SignOf(p - y, p);
  }

  lemma PowerSign(s: int, e: nat, p: int)
    requires 2 < p && (s == 1 || s == p - 1)
    ensures Pow(s, e) % p == if s == 1 || e % 2 == 0 then 1 else p - 1
  {
    hide Pow;
    ModSmall(1, p);
    PowOne(e);
    if s == p - 1 {
      ModNeg(1, p);
      ModSmall(p - 1, p);
      CongPow(s, -1, e, p);
      MinusOnePower(e);
    }
  }

  lemma {:induction false} MinusOnePower(e: nat)
    ensures Pow(-1, e) == if e % 2 == 0 then 1 else -1
  {
    if e > 0 {
      MinusOnePower(e - 1);
    }
  }

  /** Which of the two roots one evaluation step takes: its own residuosity tells. */
  lemma EvalStepRoot(x: nat, p: int)
    requires SlothPrime(p) && 0 < x < p
    ensures IsResidue(EvalStep(x, p), p) <==> IsResidue(Neighbour(x, p), p) || (p + 1) / 4 % 2 == 0
  {
    hide IsPrime, IsResidue, Pow, Neighbour;
    var n, e, h := Neighbour(x, p), (p + 1) / 4, (p - 1) / 2;
    SlothPrimeOdd(p);
    NeighbourLaws(x, p);
    EvalStepSquared(x, p);
    var y := EvalStep(x, p);
    PowMod(Pow(n, e), h, p);
    PowTimes(n, e, h);
    PowTimes(n, h, e);
    assert e * h == h * e;
    assert Pow(y, h) % p == Pow(Pow(n, h), e) % p;
    PowMod(Pow(n, h), e, p);
    SymbolExact(n, p);
    SymbolExact(y, p);
    SignOf(n, p);
    PowerSign(Pow(n, h) % p, e, p);
  }

  lemma SignOf(n: nat, p: int)
    requires SlothPrime(p) && 0 < n < p
    ensures var s := Pow(n, (p - 1) / 2) % p; s == 1 || s == p - 1
  {
    hide IsPrime, Pow;
    ModSmall(n, p);
    EulerSign(n, p);
  }

  /** The root is pinned: no other value has its square and its residuosity. */
  lemma EvalStepOnly(x: nat, z: nat, p: int)
    requires SlothPrime(p) && 0 < x < p && 0 < z < p
    ensures var n := Neighbour(x, p);
            z == EvalStep(x, p) <==>
              && (z * z) % p == (if IsResidue(n, p) then n else p - n)
              && (IsResidue(z, p) <==> IsResidue(n, p) || (p + 1) / 4 % 2 == 0)
  {
    hide IsPrime, IsResidue, Pow, Neighbour, EvalStep;
    var y := EvalStep(x, p);
    EvalStepSquared(x, p);
    EvalStepRoot(x, p);
    EqualSquares(z, y, p);
    SymbolNegated(y, p);
  }

  /** A verification step undoes an evaluation step up to sign. */
  lemma StepUndone(x: nat, p: int)
    requires SlothPrime(p) && 0 < x < p
    ensures VerifyStep(EvalStep(x, p), p) == if IsResidue(Neighbour(x, p), p) then p - x else x
  {
    var n := Neighbour(x, p);
    NeighbourLaws(x, p);
    NeighbourLaws(n, p);
    EvalStepSquared(x, p);
    var sq := (EvalStep(x, p) * EvalStep(x, p)) % p;
    ModNeg(sq, p);
    ModSmall(sq, p);
  }

  lemma NeighbourInjective(x: nat, y: nat, p: int)
    requires 2 <= p && p % 2 == 1 && 0 < x < p && 0 < y < p
    ensures Neighbour(x, p) == Neighbour(y, p) ==> x == y
    ensures Neighbour(x, p) == p - Neighbour(y, p) ==> x == p - y
  {
    hide Neighbour;
    NeighbourLaws(x, p);
    NeighbourLaws(y, p);
    NeighbourLaws(p - y, p);
  }

  lemma VerifyStepIs(a: int, p: int)
    requires IsPrime(p) && p % 2 == 1 && 0 < a < p
    ensures 0 < (a * a) % p < p
    ensures VerifyStep(a, p) == Neighbour(p - (a * a) % p, p)
  {
    ModSmall(a, p);
    SquareNonZero(a, p);
    hide Neighbour, IsPrime;
    var sq := (a * a) % p;
    ModTwice(a * a, p);
    ModNeg(sq, p);
  }

  lemma VerifyStepSquares(a: int, b: int, p: int)
    requires SlothPrime(p) && 0 < a < p && 0 < b < p
    ensures VerifyStep(a, p) == VerifyStep(b, p) || VerifyStep(a, p) == p - VerifyStep(b, p) ==>
              (a * a) % p == (b * b) % p || (a * a) % p == p - (b * b) % p
  {
    hide VerifyStep, Neighbour, IsPrime;
    VerifyStepIs(a, p);
    VerifyStepIs(b, p);
    NeighbourInjective(p - (a * a) % p, p - (b * b) % p, p);
  }

  lemma EqualSquares(a: int, b: int, p: int)
    requires IsPrime(p) && 0 < a < p && 0 < b < p
    ensures (a * a) % p == (b * b) % p ==> a == b || a == p - b
  {
    hide IsPrime;
    if (a * a) % p == (b * b) % p {
      SquaresAgree(a, b, p);
    }
    ModSmall(a, p);
    ModSmall(b, p);
    ModNeg(b, p);
  }

  /** Verification steps agree up to sign exactly when they started from values that do. */
  lemma VerifyStepInjective(a: int, b: int, p: int)
    requires SlothPrime(p) && 0 < a < p && 0 < b < p
    ensures VerifyStep(a, p) == VerifyStep(b, p) || VerifyStep(a, p) == p - VerifyStep(b, p) <==> a == b || a == p - b
  {
    hide VerifyStep, IsPrime;
    VerifyStepSquares(a, b, p);
    NegatedSquares(a, b, p);
    EqualSquares(a, b, p);
    VerifyStepNegated(b, p);
  }

  lemma VerifyStepNegated(b: int, p: int)
    requires 2 <= p && 0 < b < p
    ensures VerifyStep(p - b, p) == VerifyStep(b, p)
  {
    hide VerifyStep;
    ModNeg(b, p);
    ModSmall(b, p);
    ModSmall(p - b, p);
    VerifyStepEven(p - b, b, p);
  }

  /** Two nonzero squares are no negatives of each other. */
  lemma NegatedSquares(a: int, b: int, p: int)
    requires SlothPrime(p) && 0 < a < p && 0 < b < p
    ensures (a * a) % p != p - (b * b) % p
  {
    hide IsPrime;
    ModSmall(a, p);
    ModSmall(b, p);
    ModNeg(b * b, p);
    SquareNonZero(b, p);
    if (a * a) % p == p - (b * b) % p {
      NoSquareIsNegative(a, b, p);
    }
  }

  /* ---- All iterations ---- */

  lemma {:induction false} VerifyIterRange(w: int, l: nat, p: int)
    requires 2 <= p
    ensures 0 < l || 0 < w < p ==> 0 < VerifyIter(w, l, p) < p
  {
    if l > 0 {
      VerifyStepRange(VerifyIter(w, l - 1, p), p);
    }
  }

  lemma {:induction false} VerifyIterShift(w: int, l: nat, p: int)
    requires 2 <= p && 0 < l
    ensures VerifyIter(w, l, p) == VerifyIter(VerifyStep(w, p), l - 1, p)
  {
    if l > 1 {
      VerifyIterShift(w, l - 1, p);
    }
  }

  lemma VerifyIterEven(a: int, b: int, l: nat, p: int)
    requires 2 <= p && 0 < l
    requires a % p == b % p || a % p == (-b) % p
    ensures VerifyIter(a, l, p) == VerifyIter(b, l, p)
  {
    VerifyIterShift(a, l, p);
    VerifyIterShift(b, l, p);
    VerifyStepEven(a, b, p);
  }

  lemma {:induction false} EvalIterRange(x: nat, l: nat, p: int)
    requires SlothPrime(p) && 0 < x < p
    ensures 0 < EvalIter(x, l, p) < p
  {
    if l > 0 {
      EvalIterRange(x, l - 1, p);
      EvalStepSquared(EvalIter(x, l - 1, p), p);
    }
  }

  /** The sign errors of all steps but the first cancel. */
  lemma {:induction false} RoundTrip(x: nat, l: nat, p: int)
    requires SlothPrime(p) && 0 < x < p && 0 < l
    ensures VerifyIter(EvalIter(x, l, p), l, p) == if IsResidue(Neighbour(x, p), p) then p - x else x
  {
    var z := EvalIter(x, l - 1, p);
    EvalIterRange(x, l - 1, p);
    StepUndone(z, p);
    VerifyIterShift(EvalIter(x, l, p), l, p);
    if l > 1 {
      ModSmall(z, p);
      ModSmall(p - z, p);
      ModNeg(z, p);
      VerifyIterEven(VerifyStep(EvalStep(z, p), p), z, l - 1, p);
      RoundTrip(x, l - 1, p);
    }
  }

  /** Soundness up to sign, for every iteration count. */
  lemma {:induction false} VerifyInjective(a: int, b: int, l: nat, p: int)
    requires SlothPrime(p) && 0 < a < p && 0 < b < p
    ensures VerifyIter(a, l, p) == VerifyIter(b, l, p) || VerifyIter(a, l, p) == p - VerifyIter(b, l, p)
            <==> a == b || a == p - b
    decreases l
  {
    hide VerifyStep, IsPrime;
    if l > 0 {
      VerifyIterRange(a, l - 1, p);
      VerifyIterRange(b, l - 1, p);
      VerifyStepInjective(VerifyIter(a, l - 1, p), VerifyIter(b, l - 1, p), p);
      VerifyInjective(a, b, l - 1, p);
    }
  }

  lemma VerifyStepEnds(p: int)
    requires 2 < p && p % 2 == 1
    ensures VerifyStep(0, p) == 1
    ensures VerifyStep(1, p) == VerifyStep(p - 1, p) == p - 1
  {
    ModSmall(0, p);
    ModSmall(1, p);
    ModNeg(1, p);
    ModTwice(-1, p);
    VerifyStepEven(p - 1, 1, p);
    assert 0 * 0 == 0 && 1 * 1 == 1;
  }

  lemma {:induction false} VerifyZero(l: nat, p: int)
    requires 2 < p && p % 2 == 1 && 0 < l
    ensures VerifyIter(0, l, p) == if l == 1 then 1 else p - 1
  {
    hide VerifyStep;
    VerifyStepEnds(p);
    if l == 1 {
      assert VerifyIter(0, 0, p) == 0;
    } else {
      VerifyZero(l - 1, p);
    }
  }

  lemma VerifyIterNegated(w: nat, l: nat, p: int)
    requires 0 < w < p && 0 < l
    ensures VerifyIter(p - w, l, p) == VerifyIter(w, l, p)
  {
    hide VerifyIter;
    ModNeg(w, p);
    ModSmall(w, p);
    ModSmall(p - w, p);
    VerifyIterEven(p - w, w, l, p);
  }

  lemma VerifyIterReduced(wit: int, l: nat, p: int)
    requires 2 <= p && 0 < l
    ensures VerifyIter(wit, l, p) == VerifyIter(wit % p, l, p)
  {
    hide VerifyIter;
    ModTwice(wit, p);
    VerifyIterEven(wit, wit % p, l, p);
  }

  lemma SlothPrimeOdd(p: int)
    requires SlothPrime(p)
    ensures 2 < p && p % 2 == 1
    ensures p == 2 * (p / 2) + 1
  {
  }

  /** Up to sign, one witness verifies a seed, when the seed has one. */
  lemma WitnessExact(p: int, l: nat, s: nat, w: nat)
    requires SlothPrime(p) && 0 < l && 0 < s < p && 0 < w < p
    ensures VerifyIter(w, l, p) == s <==> AcceptsResidues(p, l, s, w)
  {
    hide VerifyIter, EvalIter, Neighbour, IsResidue, IsPrime, SlothPrime;
    var e := EvalIter(s, l, p);
    SlothPrimeOdd(p);
    EvalIterRange(s, l, p);
    RoundTrip(s, l, p);
    VerifyIterNegated(e, l, p);
    if VerifyIter(w, l, p) == s {
      VerifyInjective(w, e, l, p);
    }
  }

  lemma ResiduesExact(p: int, l: nat, s: nat, w: nat)
    requires SlothPrime(p) && 0 < l && s < p && w < p
    ensures VerifyIter(w, l, p) == s <==> AcceptsResidues(p, l, s, w)
  {
    hide VerifyIter, EvalIter, Neighbour, IsResidue, IsPrime, SlothPrime;
    SlothPrimeOdd(p);
    if w == 0 {
      VerifyZero(l, p);
    } else if s == 0 {
      VerifyIterRange(w, l, p);
    } else {
      WitnessExact(p, l, s, w);
    }
  }

  /** The complete characterisation of verification. */
  lemma VerifyExact(p: int, l: nat, seed: int, wit: int)
    requires SlothPrime(p)
    ensures VerifyIter(wit, l, p) == seed % p <==> Accepts(p, l, seed, wit)
  {
    hide AcceptsResidues, SlothPrime;
    SlothPrimeOdd(p);
    if l > 0 {
      VerifyIterReduced(wit, l, p);
      ResiduesExact(p, l, seed % p, wit % p);
    }
  }

  /** The witness of a seed residue verifies exactly when the swapped residue is not a square. */
  lemma HonestWitness(p: int, l: nat, s: nat)
    requires SlothPrime(p) && 0 < l && s < p
    ensures VerifyIter(EvalIter(s, l, p), l, p) == s <==> s != 0 && !IsResidue(Neighbour(s, p), p)
  {
    hide VerifyIter, EvalIter, Neighbour, IsResidue, IsPrime, SlothPrime;
    SlothPrimeOdd(p);
    if s == 0 {
      VerifyIterRange(EvalIter(s, l, p), l, p);
    } else {
      RoundTrip(s, l, p);
    }
  }

  lemma SymbolExact(n: nat, p: int)
    requires SlothPrime(p) && 0 < n < p
    ensures !IsResidue(n, p) <==> Pow(n, (p - 1) / 2) % p == p - 1
  {
    hide IsPrime, IsResidue, Pow;
    ModSmall(n, p);
    EulerCriterion(n, p);
    EulerSign(n, p);
  }

  /** The test a caller can run on the seed before evaluating: Euler's criterion. */
  lemma HonestWitnessTest(p: int, l: nat, s: nat)
    requires SlothPrime(p) && 0 < l && 0 < s < p
    ensures VerifyIter(EvalIter(s, l, p), l, p) == s <==> Pow(Neighbour(s, p), (p - 1) / 2) % p == p - 1
  {
    hide IsPrime, IsResidue, SlothPrime, VerifyIter, EvalIter, Neighbour, Pow;
    SlothPrimeOdd(p);
    HonestWitness(p, l, s);
    NeighbourLaws(s, p);
    SymbolExact(Neighbour(s, p), p);
  }

  /* ---- The guard ---- */

  lemma {:induction false} PowPositive(b: nat, e: nat)
    requires 0 < b
    ensures 0 < Pow(b, e)
  {
    if e > 0 {
      PowPositive(b, e - 1);
    }
  }

  lemma TwoTo64()
    ensures Pow(2, 64) == U64_SIZE
  {
    assert Pow(2, 8) == 256;
    PowTimes(2, 8, 8);
    assert Pow(256, 2) == 0x1_0000;
    PowTimes(256, 2, 4);
    assert Pow(0x1_0000, 2) == 0x1_0000_0000;
    PowTimes(0x1_0000, 2, 2);
    assert Pow(0x1_0000_0000, 2) == 0x1_0000_0000 * Pow(0x1_0000_0000, 1) == U64_SIZE;
  }

  lemma WrappedPower(k: nat)
    ensures Pow(2, k) % U64_SIZE == if k < 64 then Pow(2, k) else 0
  {
    hide Pow;
    TwoTo64();
    if k < 64 {
      PowAdd(2, k, 64 - k);
      PowPositive(2, k);
      PowPositive(2, 63 - k);
      PowAdd(2, 1, 63 - k);
      PowTwoOnce();
      ModSmall(Pow(2, k), U64_SIZE);
    } else {
      PowAdd(2, 64, k - 64);
      ModUnique(Pow(2, k), U64_SIZE, Pow(2, k - 64), 0);
    }
  }

  lemma PowTwoOnce()
    ensures Pow(2, 1) == 2
  {
  }

  /**
   The guard asks for p >= 4^k at security level k below 32 only: from level 32 on the bound wraps to
   zero and any prime passes, up to level 2^31, where the levels start over.
   */
  lemma GuardExact(u: Unicorn, prime: bool)
    requires u.securityLevel < U32_SIZE && 0 <= u.modulus
    ensures var k := u.securityLevel % (U32_SIZE / 2);
            ValidModulus(u, prime) <==> prime && (k < 32 ==> Pow(4, k) <= u.modulus)
  {
    hide Pow;
    var k := u.securityLevel % (U32_SIZE / 2);
    assert (2 * u.securityLevel) % U32_SIZE == 2 * k;
    WrappedPower(2 * k);
    PowTimes(2, 2, k);
    PowTwo(2);
  }

  /* ---- The primes that the guard lets through besides ---- */

  lemma OtherPrimeOdd(p: int)
    requires OtherPrime(p)
    ensures 2 < p && p % 2 == 1
  {
  }

  lemma OtherRootSquared(n: nat, p: int)
    requires OtherPrime(p) && 0 < n < p
    ensures var y := Pow(n, (p + 1) / 4) % p;
            0 < y < p && (y * y) % p == Pow(n, (p - 1) / 2) % p
  {
    hide IsPrime, Pow;
    var h := (p - 1) / 4;
    ModSmall(n, p);
    PowNonZero(n, h, p);
    PowAdd(n, h, h);
    var root := Pow(n, h);
    ModMul(root, root, p);
    assert (p + 1) / 4 == h && h + h == (p - 1) / 2;
  }

  lemma OtherSign(n: nat, p: int)
    requires OtherPrime(p) && 0 < n < p
    ensures 2 < p && p % 2 == 1 && IsPrime(p)
    ensures var sign := Pow(n, (p - 1) / 2) % p; sign == 1 || sign == p - 1
  {
    hide IsPrime, Pow;
    ModSmall(n, p);
    EulerSign(n, p);
  }

  lemma NeighbourEnds(p: int)
    requires 2 < p && p % 2 == 1
    ensures Neighbour(1, p) == 1 && Neighbour(p - 1, p) == p - 1
  {
  }

  /** The Euler symbol of the swapped value is all that one evaluation step keeps. */
  lemma OtherStep(x: nat, p: int)
    requires OtherPrime(p) && 0 < x < p
    ensures var y := EvalStep(x, p);
            && 0 < y < p
            && VerifyStep(y, p) == if Pow(Neighbour(x, p), (p - 1) / 2) % p == 1 then p - 1 else 1
  {
    hide IsPrime, OtherPrime, Pow, Neighbour, VerifyStep;
    OtherSign(x, p);
    NeighbourLaws(x, p);
    var n := Neighbour(x, p);
    OtherSign(n, p);
    OtherRootSquared(n, p);
    VerifyStepIs(EvalStep(x, p), p);
    NeighbourEnds(p);
  }

  lemma OtherEnds(p: int)
    requires OtherPrime(p)
    ensures 2 < p && p % 2 == 1
    ensures Neighbour(1, p) == 1 && Pow(1, (p - 1) / 2) % p == 1
    ensures Neighbour(p - 1, p) == p - 1 && Pow(p - 1, (p - 1) / 2) % p == 1
  {
    hide IsPrime, Pow, Neighbour;
    OtherPrimeOdd(p);
    NeighbourEnds(p);
    var h := (p - 1) / 4;
    assert (p - 1) / 2 == 2 * h;
    PowOne(2 * h);
    ModSmall(1, p);
    ModNeg(1, p);
    ModTwice(-1, p);
    CongPow(p - 1, -1, 2 * h, p);
    PowTimes(-1, 2, h);
    PowTwo(-1);
    PowOne(h);
  }

  lemma {:induction false} OtherIterRange(x: nat, l: nat, p: int)
    requires OtherPrime(p) && 0 < x < p
    ensures 0 < EvalIter(x, l, p) < p
  {
    hide EvalStep, OtherPrime;
    if l > 0 {
      OtherIterRange(x, l - 1, p);
      OtherStep(EvalIter(x, l - 1, p), p);
    }
  }

  lemma VerifyIterOnce(w: int, p: int)
    requires 2 <= p
    ensures VerifyIter(w, 1, p) == VerifyStep(w, p)
  {
    assert VerifyIter(w, 0, p) == w;
  }

  /** From the second round on, verification of any evaluated witness ends in -1. */
  lemma {:induction false} OtherVerified(z: nat, l: nat, p: int)
    requires OtherPrime(p) && 0 < z < p && 1 < l
    ensures VerifyIter(EvalStep(z, p), l, p) == p - 1
  {
    hide EvalStep, VerifyStep, OtherPrime, Pow, Neighbour;
    OtherStep(z, p);
    OtherEnds(p);
    VerifyStepEnds(p);
    var y := EvalStep(z, p);
    if l == 2 {
      VerifyIterOnce(y, p);
    } else {
      OtherVerified(z, l - 1, p);
    }
    assert VerifyIter(y, l, p) == VerifyStep(VerifyIter(y, l - 1, p), p);
  }

  lemma OtherAccepted(p: int, l: nat, s: nat)
    requires OtherPrime(p) && 0 < s < p && 0 < l
    ensures VerifyIter(EvalIter(s, l, p), l, p) == s <==> s == p - 1
  {
    hide EvalStep, VerifyStep, Neighbour, OtherPrime, Pow;
    OtherIterRange(s, l - 1, p);
    OtherEnds(p);
    var z := EvalIter(s, l - 1, p);
    OtherStep(z, p);
    if l == 1 {
      VerifyIterOnce(EvalStep(s, p), p);
    } else {
      OtherVerified(z, l, p);
    }
  }

  lemma PrimeClasses(p: int)
    requires IsPrime(p)
    ensures 2 <= p && (p == 2 || SlothPrime(p) || OtherPrime(p))
  {
    hide IsPrime;
    OddPrime(p);
  }

  lemma OddPrime(p: int)
    requires IsPrime(p)
    ensures 2 <= p && (p > 2 ==> p % 2 == 1)
  {
    if p > 2 {
      assert !Divides(2, p);
    }
  }

  /**
   The guard never checks p = 3 (mod 4). For every other prime, the evaluated witness verifies for
   the seed residue -1 and for none besides.
   */
  lemma OtherResidueClass(p: int, l: nat, s: nat)
    requires IsPrime(p) && !SlothPrime(p) && 0 < l && s < p
    ensures VerifyIter(EvalIter(s, l, p), l, p) == s <==> s == p - 1
  {
    hide VerifyIter, EvalIter, IsPrime, OtherPrime, SlothPrime;
    PrimeClasses(p);
    VerifyIterRange(EvalIter(s, l, p), l, p);
    if p > 2 && s > 0 {
      OtherAccepted(p, l, s);
    }
  }

  lemma ThreeIsNoSquareModFive(r: int)
    ensures !IsRootOf(r, 3, 5)
  {
    var d := r % 5;
    ModMul(r, r, 5);
    assert d == 0 || d == 1 || d == 2 || d == 3 || d == 4;
  }

  lemma FiveIsPrime()
    ensures IsPrime(5)
  {
    assert !Divides(2, 5) && !Divides(3, 5) && !Divides(4, 5);
  }

  /**
   With the valid modulus 5, the seed 2 has a swapped residue that is no square, and yet its
   evaluated witness does not verify.
   */
  lemma UncheckedResidueClass()
    ensures IsPrime(5) && ValidModulus(Unicorn(1, 1, 2, 5), true)
    ensures !IsResidue(Neighbour(2, 5), 5)
    ensures VerifyIter(EvalIter(2, 1, 5), 1, 5) != 2
  {
    FiveIsPrime();
    forall r: int ensures !IsRootOf(r, 3, 5) {
      ThreeIsNoSquareModFive(r);
    }
    PowTwo(2);
    assert Neighbour(2, 5) == 3;
    assert Pow(3, 1) == 3 * Pow(3, 0) == 3;
    assert EvalIter(2, 1, 5) == EvalStep(2, 5) == 3;
    assert VerifyIter(3, 1, 5) == VerifyStep(3, 5) == Neighbour(1, 5);
  }
}

/** Ed25519 point decompression, as ops/scripts/_status.ts uses it to find a program-derived address. */
module Ed25519 {
  import opened Bytes
  import opened PrimeFields
  import opened Residues

  /** 2^255 - 19, and 2^255. */
  const P: int := 57896044618658097711785492504343953926634992332820282019728792003956564819949
  const HALF_RANGE: int := 57896044618658097711785492504343953926634992332820282019728792003956564819968

  lemma ModulusIs()
    ensures HALF_RANGE == 0x80000000_00000000_00000000_00000000_00000000_00000000_00000000_00000000
    ensures P == HALF_RANGE - 19
  {
  }

  // ---------- what decoding means (section 5.1.3 of RFC 8032) ----------

  ghost predicate OnCurve(x: int, y: int, d: int, p: int)
    requires p > 0
  {
    Cong(y * y - x * x, 1 + d * (x * x * (y * y)), p)
  }

  /** x is a reduced coordinate with the encoded sign, completing the encoded y to a point. */
  ghost predicate Completes(x: int, y: int, sign: int, d: int, p: int)
    requires p > 0
  {
    0 <= x < p && 0 <= y < p && x % 2 == sign && OnCurve(x, y, d, p)
  }

  // ---------- algebra for any modulus ----------

  lemma RootIsPoint(u: int, v: int, x: int, y: int, d: int, p: int)
    requires p > 0
    requires Cong(u, y * y - 1, p) && Cong(v, d * (y * y) + 1, p)
    ensures Cong(v * (x * x), u, p) <==> OnCurve(x, y, d, p)
  {
    var s, t := x * x, y * y;
    CongScale(v, d * t + 1, s, p);
    assert (d * t + 1) * s == d * (s * t) + s;
    if Cong(v * s, u, p) {
      CongAdd(t - 1, d * (s * t) + s, 1 - s, 1 - s, p);
    } else if OnCurve(x, y, d, p) {
      CongAdd(t - s, 1 + d * (s * t), s - 1, s - 1, p);
      assert false;
    }
  }

  lemma NegateRoot(x: int, y: int, d: int, p: int)
    requires p > 0 && OnCurve(x, y, d, p)
    ensures OnCurve(p - x, y, d, p)
  {
    var s, t := x * x, y * y;
    var n := (p - x) * (p - x);
    assert n == s + (p - 2 * x) * p;
    MultipleCong(n, s, p - 2 * x, p);
    CongAdd(t, t, n, s, p);
    CongScale(n, s, t, p);
    CongScale(n * t, s * t, d, p);
    CongAdd(1, 1, d * (n * t), d * (s * t), p);
  }

  /** A square root of -1 turns a root of -u into a root of u. */
  lemma TwistRoot(u: int, v: int, c: int, i: int, p: int)
    requires p > 0 && Cong(v * (c * c), -u, p) && Cong(i * i, -1, p)
    ensures Cong(v * ((c * i) * (c * i)), u, p)
  {
    CongMul(v * (c * c), -u, i * i, -1, p);
    assert (v * (c * c)) * (i * i) == v * ((c * i) * (c * i));
  }

  lemma SquareRootOfOne(h: int, p: int)
    requires p > 0 && PrimeField(p) && Cong(h * h, 1, p)
    ensures Cong(h, 1, p) || Cong(h, -1, p)
  {
    CongAdd(h * h, 1, 1, 1, p);
    assert (h - 1) * (h + 1) == h * h - 1;
    assert NoZeroDivisor(h - 1, h + 1, p);
    if Cong(h - 1, 0, p) {
      CongAdd(h - 1, 0, 1, 1, p);
    } else {
      CongAdd(h + 1, 0, 1, 1, p);
    }
  }

  lemma SmallPowers(x: int)
    ensures Pow(x, 2) == x * x && Pow(x, 4) == Pow(x, 3) * x && Pow(x, 8) == Pow(x, 7) * x
  {
    assert Pow(x, 1) == x by { assert Pow(x, 0) == 1; }
  }

  /** w^e is v^(8e) x^(2e), when w is v^8 x^2. */
  lemma CandidateTail(w: int, v: int, x: int, e: nat, p: int)
    requires p > 0 && Cong(w, Pow(v, 8) * Pow(x, 2), p)
    ensures Cong(Pow(w, e), Pow(v, 8 * e) * Pow(x, 2 * e), p)
  {
    hide Cong, Pow;
    CongPow(w, Pow(v, 8) * Pow(x, 2), e, p);
    PowProduct(Pow(v, 8), Pow(x, 2), e);
    PowPow(v, 8, e);
    PowPow(x, 2, e);
  }

  /** u v^7 is v^8 x^2, when u is v x^2. */
  lemma CandidateBase(u: int, v: int, x: int, p: int)
    requires p > 0 && Cong(u, v * (x * x), p)
    ensures Cong(u * Pow(v, 7), Pow(v, 8) * Pow(x, 2), p)
  {
    hide Cong, Pow;
    var s, v7 := x * x, Pow(v, 7);
    SmallPowers(x);
    SmallPowers(v);
    CongScale(u, v * s, v7, p);
    assert (v * s) * v7 == (v7 * v) * s;
  }

  /** The candidate u v^3 (u v^7)^e is x^(2e+2), when u is v x^2 and v is not zero. */
  lemma CandidateValue(u: int, v: int, x: int, e: nat, p: int)
    requires 8 * e + 5 == p && Cong(Pow(v, p - 1), 1, p)
    requires Cong(u, v * (x * x), p)
    ensures Cong((u * Pow(v, 3)) * Pow(u * Pow(v, 7), e), Pow(x, 2 * e + 2), p)
  {
    hide Cong, Pow;
    var s, v3 := x * x, Pow(v, 3);
    var a, b, w := Pow(v, 8 * e), Pow(x, 2 * e), Pow(u * Pow(v, 7), e);
    CandidateBase(u, v, x, p);
    CandidateTail(u * Pow(v, 7), v, x, e, p);
    SmallPowers(x);
    SmallPowers(v);
    CongScale(u, v * s, v3, p);
    CongMul(u * v3, (v * s) * v3, w, a * b, p);
    Regroup(v, s, v3, a, b);
    PowAdd(v, 4, 8 * e);
    PowAdd(x, 2, 2 * e);
    CongScale(Pow(v, p - 1), 1, s * b, p);
    CongTrans((u * v3) * w, Pow(v, p - 1) * (s * b), 1 * (s * b), p);
  }

  lemma Regroup(v: int, s: int, v3: int, a: int, b: int)
    ensures ((v * s) * v3) * (a * b) == ((v3 * v) * a) * (s * b)
  {
  }

  /** x^((p-1)/2) is 1 or -1. */
  lemma HalfPower(x: int, e: nat, p: int)
    requires 8 * e + 5 == p && PrimeField(p) && !Cong(x, 0, p)
    ensures Cong(Pow(x, 4 * e + 2), 1, p) || Cong(Pow(x, 4 * e + 2), -1, p)
  {
    PowAdd(x, 4 * e + 2, 4 * e + 2);
    assert Fermat(x, p);
    SquareRootOfOne(Pow(x, 4 * e + 2), p);
  }

  lemma Associate(a: int, b: int, c: int)
    ensures a * (b * c) == (a * b) * c
  {
  }

  lemma CandidateSquare(v: int, x: int, c: int, e: nat, p: int)
    requires p > 0 && Cong(c, Pow(x, 2 * e + 2), p)
    ensures Cong(v * (c * c), (v * (x * x)) * Pow(x, 4 * e + 2), p)
  {
    hide Cong, Pow;
    var k, h := Pow(x, 2 * e + 2), Pow(x, 4 * e + 2);
    SmallPowers(x);
    PowAdd(x, 2 * e + 2, 2 * e + 2);
    PowAdd(x, 2, 4 * e + 2);
    CongMul(c, k, c, k, p);
    CongScale(c * c, (x * x) * h, v, p);
    Associate(v, x * x, h);
  }

  lemma CandidateIsRoot(u: int, v: int, x: int, c: int, e: nat, p: int)
    requires 8 * e + 5 == p && PrimeField(p)
    requires Cong(u, v * (x * x), p) && !Cong(x, 0, p)
    requires Cong(c, Pow(x, 2 * e + 2), p)
    ensures Cong(v * (c * c), u, p) || Cong(v * (c * c), -u, p)
  {
    hide Cong, Pow;
    var h, t := Pow(x, 4 * e + 2), v * (x * x);
    HalfPower(x, e, p);
    CandidateSquare(v, x, c, e, p);
    CongSym(u, t, p);
    var sign := if Cong(h, 1, p) then 1 else -1;
    CongMul(t, u, h, sign, p);
    CongTrans(v * (c * c), t * h, u * sign, p);
  }

  // ---------- soundness and completeness of the candidate test ----------

  /** What the code accepts: the candidate, twisted if it is a root of -u, and not a negative zero. */
  ghost predicate Accepts(u: int, v: int, c: int, i: int, sign: int, p: int)
    requires p > 0
  {
    || (Cong(v * (c * c), u, p) && !(Cong(c, 0, p) && sign == 1))
    || (!Cong(v * (c * c), u, p) && Cong(v * (c * c), -u, p) && !(Cong(c * i, 0, p) && sign == 1))
  }

  lemma ReducedRoot(u: int, v: int, r: int, p: int) returns (x: int)
    requires p > 0 && Cong(v * (r * r), u, p)
    ensures 0 <= x < p && (x == 0 ==> Cong(r, 0, p)) && Cong(v * (x * x), u, p)
  {
    x := r % p;
    assert x == 0 ==> Cong(r, 0, p);
    hide Cong;
    CongMod(r, p);
    CongMul(x, r, x, r, p);
    CongScale(x * x, r * r, v, p);
    CongTrans(v * (x * x), v * (r * r), u, p);
  }

  lemma RootCompletes(u: int, v: int, r: int, y: int, sign: int, d: int, p: int) returns (x: int)
    requires p > 0 && p % 2 == 1 && 0 <= y < p && 0 <= sign < 2
    requires Cong(u, y * y - 1, p) && Cong(v, d * (y * y) + 1, p)
    requires Cong(v * (r * r), u, p) && !(Cong(r, 0, p) && sign == 1)
    ensures Completes(x, y, sign, d, p)
  {
    hide Cong, OnCurve;
    x := ReducedRoot(u, v, r, p);
    RootIsPoint(u, v, x, y, d, p);
    if x % 2 != sign {
      NegateRoot(x, y, d, p);
      x := p - x;
    }
  }

  lemma Sound(u: int, v: int, c: int, i: int, y: int, sign: int, d: int, p: int) returns (x: int)
    requires p > 0 && p % 2 == 1 && 0 <= y < p && 0 <= sign < 2
    requires Cong(u, y * y - 1, p) && Cong(v, d * (y * y) + 1, p)
    requires Cong(i * i, -1, p) && Accepts(u, v, c, i, sign, p)
    ensures Completes(x, y, sign, d, p)
  {
    if Cong(v * (c * c), u, p) {
      x := RootCompletes(u, v, c, y, sign, d, p);
    } else {
      TwistRoot(u, v, c, i, p);
      x := RootCompletes(u, v, c * i, y, sign, d, p);
    }
  }

  lemma DenominatorNotZero(u: int, v: int, x: int, y: int, d: int, p: int)
    requires p > 0 && !Cong(d + 1, 0, p)
    requires Cong(u, y * y - 1, p) && Cong(v, d * (y * y) + 1, p)
    requires Cong(u, v * (x * x), p)
    ensures !Cong(v, 0, p)
  {
    if Cong(v, 0, p) {
      CongScale(v, 0, x * x, p);
      CongAdd(y * y - 1, 0, 1, 1, p);
      CongScale(y * y, 1, d, p);
      CongAdd(d * (y * y), d, 1, 1, p);
    }
  }

  lemma ZeroRoot(v: int, r: int, x: int, p: int)
    requires p > 0 && PrimeField(p) && !Cong(v, 0, p) && Cong(r, 0, p) && Cong(v * (r * r), v * (x * x), p)
    ensures Cong(x, 0, p)
  {
    CongMul(r, 0, r, 0, p);
    CongScale(r * r, 0, v, p);
    assert NoZeroDivisor(v, x * x, p);
    assert NoZeroDivisor(x, x, p);
  }

  lemma ZeroCandidate(u: int, v: int, c: int, e: nat, p: int)
    requires p > 0 && Cong(u, 0, p)
    requires Cong(c, (u * Pow(v, 3)) * Pow(u * Pow(v, 7), e), p)
    ensures Cong(v * (c * c), u, p)
  {
    CongScale(u, 0, Pow(v, 3), p);
    CongScale(u * Pow(v, 3), 0, Pow(u * Pow(v, 7), e), p);
    CongMul(c, 0, c, 0, p);
    CongScale(c * c, 0, v, p);
  }

  lemma RootAccepted(u: int, v: int, x: int, c: int, i: int, sign: int, p: int)
    requires p > 0 && PrimeField(p) && Cong(i * i, -1, p)
    requires Cong(u, v * (x * x), p) && !Cong(v, 0, p) && !Cong(x, 0, p)
    requires Cong(v * (c * c), u, p) || Cong(v * (c * c), -u, p)
    ensures Accepts(u, v, c, i, sign, p)
  {
    if Cong(v * (c * c), u, p) {
      if Cong(c, 0, p) {
        ZeroRoot(v, c, x, p);
      }
    } else {
      TwistRoot(u, v, c, i, p);
      if Cong(c * i, 0, p) {
        ZeroRoot(v, c * i, x, p);
      }
    }
  }

  lemma NonzeroRootAccepted(u: int, v: int, x: int, c: int, i: int, e: nat, sign: int, p: int)
    requires 8 * e + 5 == p && PrimeField(p) && Cong(i * i, -1, p)
    requires Cong(u, v * (x * x), p) && !Cong(v, 0, p) && !Cong(x, 0, p)
    requires Cong(c, (u * Pow(v, 3)) * Pow(u * Pow(v, 7), e), p)
    ensures Accepts(u, v, c, i, sign, p)
  {
    assert Fermat(v, p);
    hide Cong, Pow, PrimeField, Accepts;
    CandidateValue(u, v, x, e, p);
    CongTrans(c, (u * Pow(v, 3)) * Pow(u * Pow(v, 7), e), Pow(x, 2 * e + 2), p);
    CandidateIsRoot(u, v, x, c, e, p);
    RootAccepted(u, v, x, c, i, sign, p);
  }

  lemma ZeroRootAccepted(u: int, v: int, c: int, i: int, e: nat, p: int)
    requires p > 0 && Cong(u, v * (0 * 0), p)
    requires Cong(c, (u * Pow(v, 3)) * Pow(u * Pow(v, 7), e), p)
    ensures Accepts(u, v, c, i, 0, p)
  {
    ZeroCandidate(u, v, c, e, p);
  }

  lemma PointGivesRoot(u: int, v: int, x: int, y: int, sign: int, d: int, p: int)
    requires p > 0 && !Cong(d + 1, 0, p)
    requires Cong(u, y * y - 1, p) && Cong(v, d * (y * y) + 1, p)
    requires Completes(x, y, sign, d, p)
    ensures Cong(u, v * (x * x), p) && !Cong(v, 0, p)
  {
    RootIsPoint(u, v, x, y, d, p);
    DenominatorNotZero(u, v, x, y, d, p);
  }

  lemma Complete(u: int, v: int, c: int, i: int, e: nat, x: int, y: int, sign: int, d: int, p: int)
    requires 8 * e + 5 == p && PrimeField(p) && !Cong(d + 1, 0, p) && Cong(i * i, -1, p)
    requires Cong(u, y * y - 1, p) && Cong(v, d * (y * y) + 1, p)
    requires Cong(c, (u * Pow(v, 3)) * Pow(u * Pow(v, 7), e), p)
    requires Completes(x, y, sign, d, p)
    ensures Accepts(u, v, c, i, sign, p)
  {
    hide Cong, OnCurve, Pow, PrimeField, Accepts;
    PointGivesRoot(u, v, x, y, sign, d, p);
    if x == 0 {
      ZeroRootAccepted(u, v, c, i, e, p);
    } else {
      assert !Cong(x, 0, p) by { SmallNotZero(x, p); }
      NonzeroRootAccepted(u, v, x, c, i, e, sign, p);
    }
  }

  // ---------- the code ----------

  /** The remainder operator on bigints, which truncates toward zero. */
  function JsRem(a: int, m: int): int
    requires m > 0
  {
    if a >= 0 then a % m else -((-a) % m)
  }

  function ModP(a: int): (r: int)
    ensures 0 <= r < P && Cong(r, a, P)
  {
    var t := JsRem(a, P);
    assert Cong(t + P, a, P) by {
      MultipleCong(t + P, a, if a >= 0 then 1 - a / P else 1 + (-a) / P, P);
    }
    CongMod(t + P, P);
    JsRem(t + P, P)
  }

  /** Replacing r * b^k by the loop's next r * b^k. */
  lemma SquareAndMultiply(r: int, b: int, k: nat, r': int, b': int, p: int)
    requires p > 0 && k > 0 && Cong(b', b * b, p)
    requires r' == if k % 2 == 1 then (r * b) % p else r
    ensures Cong(r' * Pow(b', k / 2), r * Pow(b, k), p)
  {
    hide Cong, Pow;
    var h := k / 2;
    CongPow(b', b * b, h, p);
    SmallPowers(b);
    PowPow(b, 2, h);
    CongScale(Pow(b', h), Pow(b, 2 * h), r', p);
    if k % 2 == 1 {
      CongMod(r * b, p);
      CongScale(r', r * b, Pow(b, 2 * h), p);
      CongTrans(r' * Pow(b', h), r' * Pow(b, 2 * h), (r * b) * Pow(b, 2 * h), p);
      LastFactor(b, k);
      Associate(r, b, Pow(b, 2 * h));
    }
  }

  lemma LastFactor(b: int, e: nat)
    requires e > 0
    ensures Pow(b, e) == b * Pow(b, e - 1)
  {
  }

  method PowP(b: int, e: int) returns (r: int)
    ensures 0 <= r < P
    ensures e >= 0 ==> r == Pow(b, e) % P
    ensures e < 0 ==> r == 1
  {
    hide Cong, Pow, ModP;
    var base, k := ModP(b), e;
    r := 1;
    if e >= 0 {
      OneTimes(base, b, e, P);
    }
    while k > 0
      invariant k <= e
      invariant 0 <= r < P && 0 <= base < P
      invariant e >= 0 ==> k >= 0 && Cong(r * Pow(base, k), Pow(b, e), P)
      invariant e < 0 ==> r == 1
    {
      ghost var r0, base0, k0 := r, base, k;
      if k % 2 == 1 {
        r := (r * base) % P;
      }
      base := (base * base) % P;
      k := k / 2;
      CongMod(base0 * base0, P);
      SquareAndMultiply(r0, base0, k0, r, base, P);
      CongTrans(r * Pow(base, k), r0 * Pow(base0, k0), Pow(b, e), P);
    }
    if e >= 0 {
      FinishPow(r, base, Pow(b, e));
    }
  }

  lemma OneTimes(base: int, b: int, e: nat, p: int)
    requires p > 0 && Cong(base, b, p)
    ensures Cong(1 * Pow(base, e), Pow(b, e), p)
  {
    CongPow(base, b, e, p);
  }

  lemma FinishPow(r: int, base: int, m: int)
    requires 0 <= r < P && Cong(r * Pow(base, 0), m, P)
    ensures r == m % P
  {
  }

  /** The curve constant -121665/121666. */
  function D(): int
  {
    ModP(-121665 * (Pow(121666, P - 2) % P))
  }

  method CurveD() returns (d: int)
    ensures d == D()
  {
    hide Pow, ModP;
    var inverse := PowP(121666, P - 2);
    d := ModP(-121665 * inverse);
  }

  lemma FermatHolds(a: int)
    requires PrimeField(P) && 0 < a < P
    ensures Cong(Pow(a, P - 1), 1, P)
  {
    hide Pow;
    assert Fermat(a, P);
  }

  /** In a prime field D() is the RFC's -121665/121666, and it is not -1. */
  lemma DIsTheRatio()
    requires PrimeField(P)
    ensures Cong(121666 * D(), -121665, P) && !Cong(D() + 1, 0, P)
  {
    FermatHolds(121666);
    hide Cong, Pow, ModP, PrimeField;
    var inverse := Pow(121666, P - 2) % P;
    LastFactor(121666, P - 1);
    CongMod(Pow(121666, P - 2), P);
    CongScale(inverse, Pow(121666, P - 2), 121666, P);
    CongTrans(121666 * inverse, Pow(121666, P - 1), 1, P);
    CongScale(121666 * inverse, 1, -121665, P);
    CongScale(D(), -121665 * inverse, 121666, P);
    CongTrans(121666 * D(), 121666 * (-121665 * inverse), -121665, P);
    if Cong(D() + 1, 0, P) {
      CongScale(D() + 1, 0, 121666, P);
      NotMinusOne(D());
    }
  }

  lemma NotMinusOne(d: int)
    requires Cong(121666 * d, -121665, P)
    ensures !Cong(121666 * (d + 1), 121666 * 0, P)
  {
  }

  const E: nat := (P - 5) / 8

  /** The fact RFC 8032 relies on: 2^((P-1)/4) is a square root of -1. */
  ghost predicate SqrtMinusOne()
  {
    var i := Pow(2, (P - 1) / 4) % P;
    Cong(i * i, -1, P)
  }

  /** It follows from primality of P, as 2 is no square modulo such a prime. */
  lemma PrimeGivesRoot()
    requires IsPrime(P)
    ensures SqrtMinusOne()
  {
    hide Cong, Pow, IsPrime;
    var q := (P - 1) / 4;
    assert q == 2 * E + 1;
    var i, r := Pow(2, q) % P, Pow(2, q);
    TwoIsNoSquare(E, P);
    PowAdd(2, q, q);
    CongMod(r, P);
    CongMul(i, r, i, r, P);
    CongTrans(i * i, r * r, -1, P);
  }

  ghost function EncodedY(bytes: seq<Byte>): int { LittleEndian(bytes) % HALF_RANGE }

  ghost function EncodedSign(bytes: seq<Byte>): int { (LittleEndian(bytes) / HALF_RANGE) % 2 }

  lemma ReducedCoefficients(y: int, y2: int, d: int, u: int, v: int)
    requires y2 == (y * y) % P && Cong(u, y2 - 1, P) && Cong(v, d * y2 + 1, P)
    ensures Cong(u, y * y - 1, P) && Cong(v, d * (y * y) + 1, P)
  {
    hide Cong;
    CongMod(y * y, P);
    CongAdd(y2, y * y, 1, 1, P) by { CongRefl(1, P); }
    CongTrans(u, y2 - 1, y * y - 1, P);
    CongScale(y2, y * y, d, P);
    CongAdd(d * y2, d * (y * y), 1, 1, P) by { CongRefl(1, P); }
    CongTrans(v, d * y2 + 1, d * (y * y) + 1, P);
  }

  lemma ReducedCandidate(u: int, v: int, v3: int, t: int, w: int, c: int)
    requires v3 == Pow(v, 3) % P && t == (u * (Pow(v, 7) % P)) % P && w == Pow(t, E) % P
    requires c == (((u * v3) % P) * w) % P
    ensures Cong(c, (u * Pow(v, 3)) * Pow(u * Pow(v, 7), E), P)
  {
    hide Cong, Pow;
    var p3, p7 := Pow(v, 3), Pow(v, 7);
    CongMod(p3, P);
    CongMod(p7, P);
    CongScale(p7 % P, p7, u, P);
    ReduceTrans(u * (p7 % P), u * p7);
    CongPow(t, u * p7, E, P);
    ReduceTrans(Pow(t, E), Pow(u * p7, E));
    CongScale(v3, p3, u, P);
    ReduceTrans(u * v3, u * p3);
    CongMul((u * v3) % P, u * p3, w, Pow(u * p7, E), P);
    ReduceTrans(((u * v3) % P) * w, (u * p3) * Pow(u * p7, E));
  }

  lemma ReduceTrans(a: int, b: int)
    requires Cong(a, b, P)
    ensures Cong(a % P, b, P)
  {
  }

  lemma ReducedSquare(v: int, c: int, vxx: int)
    requires vxx == (((v * c) % P) * c) % P
    ensures 0 <= vxx < P && Cong(vxx, v * (c * c), P)
  {
    hide Cong;
    CongMod(v * c, P);
    CongScale((v * c) % P, v * c, c, P);
    ReduceTrans(((v * c) % P) * c, (v * c) * c);
    Associate(v, c, c);
  }

  /** Reduced numbers are equal when the numbers they reduce are congruent. */
  lemma EqualReduced(a: int, b: int, m: int, n: int)
    requires 0 <= a < P && 0 <= b < P && Cong(a, m, P) && Cong(b, n, P)
    ensures a == b <==> Cong(m, n, P)
  {
  }

  /** Accepting is having a completing coordinate. */
  lemma Verdict(u: int, v: int, c: int, i: int, y: int, sign: int)
    requires 0 <= y < P && 0 <= sign < 2 && i == Pow(2, (P - 1) / 4) % P
    requires Cong(u, y * y - 1, P) && Cong(v, D() * (y * y) + 1, P)
    requires Cong(c, (u * Pow(v, 3)) * Pow(u * Pow(v, 7), E), P)
    ensures SqrtMinusOne() && Accepts(u, v, c, i, sign, P) ==> exists x :: Completes(x, y, sign, D(), P)
    ensures SqrtMinusOne() && PrimeField(P) && (exists x :: Completes(x, y, sign, D(), P)) ==>
              Accepts(u, v, c, i, sign, P)
  {
    hide Cong, Pow, D, Completes, PrimeField, Accepts;
    if SqrtMinusOne() && Accepts(u, v, c, i, sign, P) {
      var x := Sound(u, v, c, i, y, sign, D(), P);
    }
    if SqrtMinusOne() && PrimeField(P) && exists x :: Completes(x, y, sign, D(), P) {
      var x :| Completes(x, y, sign, D(), P);
      DIsTheRatio();
      Complete(u, v, c, i, E, x, y, sign, D(), P);
    }
  }

  lemma ZeroTests(c: int, i: int)
    requires 0 <= c < P
    ensures c == 0 <==> Cong(c, 0, P)
    ensures (c * i) % P == 0 <==> Cong(c * i, 0, P)
  {
  }

  /** The comparisons of reduced values that the code makes are the congruences of Accepts. */
  lemma ComparisonsDecide(u: int, v: int, c: int, i: int, sign: int, vxx: int)
    requires 0 <= u < P && 0 <= c < P && vxx == (((v * c) % P) * c) % P
    ensures Accepts(u, v, c, i, sign, P) <==>
              if vxx == u then !(c == 0 && sign == 1)
              else vxx == ModP(-u) && !((c * i) % P == 0 && sign == 1)
  {
    hide Cong, ModP;
    ReducedSquare(v, c, vxx);
    CongRefl(u, P);
    EqualReduced(vxx, u, v * (c * c), u);
    EqualReduced(vxx, ModP(-u), v * (c * c), -u);
    ZeroTests(c, i);
  }

  method Candidate(u: int, v: int) returns (x: int)
    ensures 0 <= x < P
    ensures Cong(x, (u * Pow(v, 3)) * Pow(u * Pow(v, 7), E), P)
  {
    hide Cong, Pow;
    var v3 := PowP(v, 3);
    var v7 := PowP(v, 7);
    var t := (u * v7) % P;
    var w := PowP(t, (P - 5) / 8);
    x := (((u * v3) % P) * w) % P;
    ReducedCandidate(u, v, v3, t, w, x);
  }

  /** The test once the bytes are split into y and the sign bit. */
  method HasRoot(y: int, sign: int) returns (found: bool)
    requires 0 <= y < P && 0 <= sign < 2
    ensures SqrtMinusOne() && found ==> exists x :: Completes(x, y, sign, D(), P)
    ensures IsPrime(P) ==> (found <==> exists x :: Completes(x, y, sign, D(), P))
  {
    hide Cong, Pow, ModP, D, Completes, PrimeField, IsPrime, SqrtMinusOne, Accepts;
    if IsPrime(P) {
      PrimeGivesField(P);
      PrimeGivesRoot();
    }
    var d := CurveD();
    var y2 := (y * y) % P;
    var u, v := ModP(y2 - 1), ModP(d * y2 + 1);
    ReducedCoefficients(y, y2, d, u, v);
    var x := Candidate(u, v);
    var vxx := (((v * x) % P) * x) % P;
    ghost var i := Pow(2, (P - 1) / 4) % P;
    Verdict(u, v, x, i, y, sign);
    ComparisonsDecide(u, v, x, i, sign, vxx);
    if vxx != u {
      if vxx != ModP(-u) {
        return false;
      }
      var root := PowP(2, (P - 1) / 4);
      x := (x * root) % P;
    }
    found := !(x == 0 && sign == 1);
  }

  /** The byte loop, most significant byte first. */
  method FromLittleEndian(bytes: seq<Byte>) returns (n: nat)
    requires |bytes| == 32
    ensures n == LittleEndian(bytes)
  {
    hide LittleEndian;
    n := 0;
    EmptyLittleEndian(bytes[32..]);
    for i := 32 downto 0
      invariant n == LittleEndian(bytes[i..])
    {
      LittleEndianStep(bytes, i);
      n := n * 256 + bytes[i];
    }
    assert bytes[0..] == bytes;
  }

  lemma EmptyLittleEndian(bytes: seq<Byte>)
    requires |bytes| == 0
    ensures LittleEndian(bytes) == 0
  {
  }

  lemma LittleEndianStep(bytes: seq<Byte>, j: nat)
    requires j < |bytes|
    ensures LittleEndian(bytes[j..]) == bytes[j] + 256 * LittleEndian(bytes[j + 1..])
  {
    assert bytes[j..][1..] == bytes[j + 1..];
  }

  lemma YTooLarge(y: int, sign: int)
    requires y >= P
    ensures !exists x :: Completes(x, y, sign, D(), P)
  {
    hide D, OnCurve;
  }

  method IsOnCurve(bytes: seq<Byte>) returns (onCurve: bool)
    requires |bytes| == 32
    ensures SqrtMinusOne() && onCurve ==> exists x :: Completes(x, EncodedY(bytes), EncodedSign(bytes), D(), P)
    ensures IsPrime(P) ==>
              (onCurve <==> exists x :: Completes(x, EncodedY(bytes), EncodedSign(bytes), D(), P))
  {
    hide Completes, Pow, D, IsPrime, SqrtMinusOne, LittleEndian;
    var n := FromLittleEndian(bytes);
    var sign, y := (n / HALF_RANGE) % 2, n % HALF_RANGE;
    assert y == EncodedY(bytes) && sign == EncodedSign(bytes);
    hide EncodedY, EncodedSign;
    if y >= P {
      YTooLarge(y, sign);
      return false;
    }
    onCurve := HasRoot(y, sign);
  }
}

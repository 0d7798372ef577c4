/** What primality of a modulus gives: no zero divisors, Fermat's little theorem, and when 2 is no square. */
module PrimeFields {
  import opened Residues

  ghost predicate IsPrime(p: int) { p > 1 && forall a: nat, b: nat :: a * b == p ==> a == 1 || b == 1 }

  ghost predicate NoZeroDivisor(a: int, b: int, p: int)
    requires p > 0
  {
    Cong(a * b, 0, p) ==> Cong(a, 0, p) || Cong(b, 0, p)
  }

  ghost predicate Fermat(a: int, p: int)
    requires p > 0
  {
    Cong(a, 0, p) || Cong(Pow(a, p - 1), 1, p)
  }

  /** No zero divisors, and Fermat's little theorem. */
  ghost predicate PrimeField(p: int)
    requires p > 0
  {
    && (forall a, b :: NoZeroDivisor(a, b, p))
    && (forall a :: Fermat(a, p))
  }

  // ---------- Euclid's lemma ----------

  lemma Division(p: int, a: int)
    requires a > 0
    ensures p == a * (p / a) + p % a && 0 <= p % a < a
  {
  }

  lemma NotDivided(a: nat, p: int)
    requires IsPrime(p) && 1 < a < p
    ensures p % a != 0
  {
    var q: nat := p / a;
    Division(p, a);
    assert a * q == p ==> a == 1 || q == 1;
  }

  /** A prime that divides a product of a smaller number divides the other factor. */
  lemma {:induction false} SmallFactor(a: nat, b: int, p: int)
    requires IsPrime(p) && 0 < a < p && Cong(a * b, 0, p)
    ensures Cong(b, 0, p)
    decreases a
  {
    hide Cong;
    if a == 1 {
      assert a * b == b;
    } else {
      var q, r := p / a, p % a;
      Division(p, a);
      NotDivided(a, p);
      CongScale(a * b, 0, -q, p);
      MultipleCong(r * b, -q * (a * b), b, p) by { Remainder(a, b, p, q, r); }
      CongTrans(r * b, -q * (a * b), -q * 0, p);
      SmallFactor(r, b, p);
    }
  }

  lemma Remainder(a: int, b: int, p: int, q: int, r: int)
    requires p == a * q + r
    ensures r * b == -q * (a * b) + b * p
  {
  }

  lemma EuclidLemma(a: int, b: int, p: int)
    requires IsPrime(p)
    ensures NoZeroDivisor(a, b, p)
  {
    if Cong(a * b, 0, p) && !Cong(a, 0, p) {
      CongMod(a, p);
      CongScale(a % p, a, b, p);
      SmallFactor(a % p, b, p);
    }
  }

  // ---------- Fermat's little theorem ----------

  function Fact(n: nat): int { if n == 0 then 1 else Fact(n - 1) * n }

  function Product(s: seq<int>): int { if s == [] then 1 else Product(s[..|s| - 1]) * s[|s| - 1] }

  ghost predicate Distinct(s: seq<int>) { forall i, j :: 0 <= i < j < |s| ==> s[i] != s[j] }

  ghost predicate Within(s: seq<int>, n: nat) { forall i :: 0 <= i < |s| ==> 1 <= s[i] <= n }

  lemma {:induction false} ProductOfTwo(s: seq<int>, t: seq<int>)
    ensures Product(s + t) == Product(s) * Product(t)
  {
    if t == [] {
      assert s + t == s;
    } else {
      var u, last := t[..|t| - 1], t[|t| - 1];
      assert (s + t)[..|s + t| - 1] == s + u;
      ProductOfTwo(s, u);
      assert (Product(s) * Product(u)) * last == Product(s) * (Product(u) * last);
    }
  }

  lemma {:induction false} Pigeonhole(s: seq<int>, n: nat)
    requires Distinct(s) && Within(s, n)
    ensures |s| <= n
  {
    assert s == [] || 1 <= s[0] <= n;
    if n == 0 {
    } else if i :| 0 <= i < |s| && s[i] == n {
      Pigeonhole(s[..i] + s[i + 1..], n - 1);
    } else {
      Pigeonhole(s, n - 1);
    }
  }

  /** As many distinct numbers from 1 to n as there are multiply to n!. */
  lemma {:induction false} DistinctProduct(s: seq<int>)
    requires Distinct(s) && Within(s, |s|)
    ensures Product(s) == Fact(|s|)
    decreases |s|
  {
    if s != [] {
      var n := |s|;
      if forall i :: 0 <= i < n ==> s[i] != n {
        Pigeonhole(s, n - 1);
      } else {
        var i :| 0 <= i < n && s[i] == n;
        var t := s[..i] + s[i + 1..];
        DistinctProduct(t);
        ProductWithout(s, i);
      }
    }
  }

  lemma ProductWithout(s: seq<int>, i: nat)
    requires i < |s|
    ensures Product(s) == Product(s[..i] + s[i + 1..]) * s[i]
  {
    hide Product;
    var a, b := Product(s[..i]), Product(s[i + 1..]);
    assert s == (s[..i] + [s[i]]) + s[i + 1..];
    ProductOfTwo(s[..i] + [s[i]], s[i + 1..]);
    ProductOfTwo(s[..i], [s[i]]);
    ProductOfTwo(s[..i], s[i + 1..]);
    ProductOfOne(s[i]);
    assert (a * s[i]) * b == (a * b) * s[i];
  }

  lemma ProductOfOne(x: int)
    ensures Product([x]) == x
  {
    assert [x][..0] == [] && Product([]) == 1;
  }

  /** The first n multiples of a, reduced. */
  function Multiples(a: int, n: nat, p: int): (s: seq<int>)
    requires p > 0
    ensures |s| == n && forall i :: 0 <= i < n ==> s[i] == (a * (i + 1)) % p
  {
    seq(n, i requires 0 <= i < n => (a * (i + 1)) % p)
  }

  lemma Swap(a: int, b: int, c: int, d: int)
    ensures (a * b) * (c * d) == (a * c) * (b * d)
  {
  }

  lemma {:induction false} MultiplesProduct(a: int, n: nat, p: int)
    requires p > 0
    ensures Cong(Product(Multiples(a, n, p)), Pow(a, n) * Fact(n), p)
  {
    hide Cong;
    if n == 0 {
      CongRefl(1, p);
    } else {
      MultiplesProduct(a, n - 1, p);
      assert Multiples(a, n, p)[..n - 1] == Multiples(a, n - 1, p);
      CongMod(a * n, p);
      CongMul(Product(Multiples(a, n - 1, p)), Pow(a, n - 1) * Fact(n - 1), (a * n) % p, a * n, p);
      Swap(Pow(a, n - 1), Fact(n - 1), a, n);
    }
  }

  lemma SmallNotZero(x: int, p: int)
    requires 0 < x < p
    ensures !Cong(x, 0, p)
  {
  }

  lemma MultipleNotZero(a: int, k: int, p: int)
    requires IsPrime(p) && !Cong(a, 0, p) && 0 < k < p
    ensures !Cong(a * k, 0, p)
  {
    hide Cong;
    EuclidLemma(a, k, p);
    SmallNotZero(k, p);
  }

  lemma MultiplesDiffer(a: int, j: int, k: int, p: int)
    requires IsPrime(p) && !Cong(a, 0, p) && 0 < j < k < p
    ensures !Cong(a * j, a * k, p)
  {
    hide Cong;
    if Cong(a * j, a * k, p) {
      CongAdd(a * k, a * j, a * j, a * j, p) by {
        CongSym(a * j, a * k, p);
        CongRefl(a * j, p);
      }
      assert a * k - a * j == a * (k - j) && a * j - a * j == 0;
      MultipleNotZero(a, k - j, p);
    }
  }

  lemma MultiplesPermute(a: int, p: int)
    requires IsPrime(p) && !Cong(a, 0, p)
    ensures Distinct(Multiples(a, p - 1, p)) && Within(Multiples(a, p - 1, p), p - 1)
  {
    var s := Multiples(a, p - 1, p);
    forall i | 0 <= i < |s|
      ensures 1 <= s[i] <= p - 1
    {
      MultipleNotZero(a, i + 1, p);
    }
    forall i, j | 0 <= i < j < |s|
      ensures s[i] != s[j]
    {
      MultiplesDiffer(a, i + 1, j + 1, p);
    }
  }

  lemma {:induction false} FactNotZero(n: nat, p: int)
    requires IsPrime(p) && n < p
    ensures !Cong(Fact(n), 0, p)
  {
    if n == 0 {
      SmallNotZero(1, p);
    } else {
      FactNotZero(n - 1, p);
      MultipleNotZero(Fact(n - 1), n, p);
    }
  }

  lemma Cancel(a: int, b: int, f: int, p: int)
    requires IsPrime(p) && !Cong(f, 0, p) && Cong(a * f, b * f, p)
    ensures Cong(a, b, p)
  {
    hide Cong;
    CongRefl(b * f, p);
    CongAdd(a * f, b * f, b * f, b * f, p);
    assert (a - b) * f == a * f - b * f;
    EuclidLemma(a - b, f, p);
    CongRefl(b, p);
    CongAdd(a - b, 0, b, b, p);
  }

  lemma FermatLittle(a: int, p: int)
    requires IsPrime(p)
    ensures Fermat(a, p)
  {
    hide Cong, Pow;
    if !Cong(a, 0, p) {
      var n := p - 1;
      MultiplesPermute(a, p);
      DistinctProduct(Multiples(a, n, p));
      MultiplesProduct(a, n, p);
      CongSym(Fact(n), Pow(a, n) * Fact(n), p);
      FactNotZero(n, p);
      Cancel(Pow(a, n), 1, Fact(n), p);
    }
  }

  lemma PrimeGivesField(p: int)
    requires IsPrime(p)
    ensures PrimeField(p)
  {
    hide Cong, Pow, NoZeroDivisor, Fermat;
    forall a, b
      ensures NoZeroDivisor(a, b, p)
    {
      EuclidLemma(a, b, p);
    }
    forall a
      ensures Fermat(a, p)
    {
      FermatLittle(a, p);
    }
  }

  // ---------- 2 is no square modulo 8e + 5 ----------

  /** The product of the first m odd numbers. */
  function OddProduct(m: nat): int { if m == 0 then 1 else OddProduct(m - 1) * (2 * m - 1) }

  lemma {:induction false} EvensAndOdds(m: nat)
    ensures (Pow(2, m) * Fact(m)) * OddProduct(m) == Fact(2 * m)
  {
    if m > 0 {
      EvensAndOdds(m - 1);
      var a, f, o := Pow(2, m - 1), Fact(m - 1), OddProduct(m - 1);
      FactTwice(m);
      EvenOddStep(a, f, o, m);
    }
  }

  lemma FactTwice(m: nat)
    requires m > 0
    ensures Fact(2 * m) == (Fact(2 * (m - 1)) * (2 * m - 1)) * (2 * m)
  {
    assert Fact(2 * m - 1) == Fact(2 * m - 2) * (2 * m - 1);
  }

  lemma EvenOddStep(a: int, f: int, o: int, m: int)
    ensures ((a * 2) * (f * m)) * (o * (2 * m - 1)) == (((a * f) * o) * (2 * m - 1)) * (2 * m)
  {
    Swap(a, 2, f, m);
    Swap(a * f, 2 * m, o, 2 * m - 1);
    var x, y, z := (a * f) * o, 2 * m, 2 * m - 1;
    assert x * (y * z) == (x * z) * y;
  }

  /** Modulo 4m + 1 the even numbers above 2m are the odd numbers below, negated. */
  lemma {:induction false} UpperEvens(m: nat, j: nat, p: int)
    requires p == 4 * m + 1 && j <= m
    ensures Cong((Pow(2, m + j) * Fact(m + j)) * OddProduct(m - j),
                 ((Pow(2, m) * Fact(m)) * OddProduct(m)) * Pow(-1, j), p)
  {
    hide Cong;
    if j == 0 {
      assert Pow(-1, 0) == 1;
      CongRefl((Pow(2, m) * Fact(m)) * OddProduct(m), p);
    } else {
      UpperEvens(m, j - 1, p);
      var a, f, o := Pow(2, m + j - 1), Fact(m + j - 1), OddProduct(m - j);
      var odd, all, sign := 2 * (m - j) + 1, (Pow(2, m) * Fact(m)) * OddProduct(m), Pow(-1, j - 1);
      UpperStep(a, f, o, m, j, p);
      CongScale((a * f) * (o * odd), all * sign, -1, p);
      CongTrans(((a * 2) * (f * (m + j))) * o, ((a * f) * (o * odd)) * -1, (all * sign) * -1, p);
      assert (all * sign) * -1 == all * (sign * -1);
    }
  }

  lemma UpperStep(a: int, f: int, o: int, m: int, j: int, p: int)
    requires p == 4 * m + 1 && p > 0
    ensures Cong(((a * 2) * (f * (m + j))) * o, ((a * f) * (o * (2 * (m - j) + 1))) * -1, p)
  {
    var c := (a * f) * o;
    assert ((a * 2) * (f * (m + j))) * o == c * (2 * (m + j));
    assert (a * f) * (o * (2 * (m - j) + 1)) == c * (2 * (m - j) + 1);
    assert c * (2 * (m + j)) == c * (2 * (m - j) + 1) * -1 + c * p;
    MultipleCong(c * (2 * (m + j)), (c * (2 * (m - j) + 1)) * -1, c, p);
  }

  lemma {:induction false} OddSign(e: nat)
    ensures Pow(-1, 2 * e + 1) == -1
  {
    if e == 0 {
      assert Pow(-1, 0) == 1;
    } else {
      OddSign(e - 1);
      assert Pow(-1, 2 * e + 1) == (Pow(-1, 2 * (e - 1) + 1) * -1) * -1;
    }
  }

  /** So 2 raised to (p - 1) / 2 is -1. */
  lemma TwoIsNoSquare(e: nat, p: int)
    requires 8 * e + 5 == p && IsPrime(p)
    ensures Cong(Pow(2, 4 * e + 2), -1, p)
  {
    hide Cong, Pow, IsPrime, Fact, OddProduct;
    var m := 2 * e + 1;
    UpperEvens(m, m, p);
    EvensAndOdds(m);
    OddSign(e);
    assert OddProduct(0) == 1 by { EmptyOddProduct(); }
    FactNotZero(2 * m, p);
    Cancel(Pow(2, 2 * m), -1, Fact(2 * m), p);
  }

  lemma EmptyOddProduct()
    ensures OddProduct(0) == 1
  {
  }
}

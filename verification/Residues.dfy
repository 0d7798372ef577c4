/** Powers and congruences, for any positive modulus. */
module Residues {

  function Pow(b: int, e: nat): (r: int)
    ensures b >= 1 ==> r >= 1
  {
    if e == 0 then 1 else Pow(b, e - 1) * b
  }

  ghost predicate Cong(a: int, b: int, m: int)
    requires m > 0
  {
    a % m == b % m
  }

  lemma MultipleCong(a: int, b: int, k: int, m: int)
    requires m > 0 && a == b + k * m
    ensures Cong(a, b, m)
  {
    var q := b / m + k;
    assert a == m * q + b % m;
    var t := a / m - q;
    assert m * t == b % m - a % m;
    assert t >= 1 ==> m * t >= m;
    assert t <= -1 ==> m * t <= -m;
  }

  lemma CongMultiple(a: int, b: int, m: int) returns (k: int)
    requires m > 0 && Cong(a, b, m)
    ensures a == b + k * m
  {
    k := a / m - b / m;
  }

  lemma CongMod(a: int, m: int)
    requires m > 0
    ensures Cong(a % m, a, m)
  {
    MultipleCong(a % m, a, -(a / m), m);
  }

  lemma CongAdd(a: int, a': int, b: int, b': int, m: int)
    requires m > 0 && Cong(a, a', m) && Cong(b, b', m)
    ensures Cong(a + b, a' + b', m)
    ensures Cong(a - b, a' - b', m)
  {
    var j := CongMultiple(a, a', m);
    var k := CongMultiple(b, b', m);
    MultipleCong(a + b, a' + b', j + k, m);
    MultipleCong(a - b, a' - b', j - k, m);
  }

  lemma CongMul(a: int, a': int, b: int, b': int, m: int)
    requires m > 0 && Cong(a, a', m) && Cong(b, b', m)
    ensures Cong(a * b, a' * b', m)
  {
    var j := CongMultiple(a, a', m);
    var k := CongMultiple(b, b', m);
    assert (a' + j * m) * (b' + k * m) == a' * b' + (j * b' + a' * k + j * m * k) * m;
    MultipleCong(a * b, a' * b', j * b' + a' * k + j * m * k, m);
  }

  lemma {:induction false} CongPow(a: int, b: int, e: nat, m: int)
    requires m > 0 && Cong(a, b, m)
    ensures Cong(Pow(a, e), Pow(b, e), m)
  {
    if e != 0 {
      CongPow(a, b, e - 1, m);
      CongMul(Pow(a, e - 1), Pow(b, e - 1), a, b, m);
    }
  }

  lemma {:induction false} PowAdd(b: int, d: nat, e: nat)
    ensures Pow(b, d + e) == Pow(b, d) * Pow(b, e)
  {
    if e == 0 {
      assert Pow(b, 0) == 1;
    } else {
      PowAdd(b, d, e - 1);
      var x, y := Pow(b, d), Pow(b, e - 1);
      assert Pow(b, d + e) == Pow(b, d + (e - 1)) * b;
      assert (x * y) * b == x * (y * b);
    }
  }

  lemma {:induction false} PowProduct(a: int, b: int, e: nat)
    ensures Pow(a * b, e) == Pow(a, e) * Pow(b, e)
  {
    if e != 0 {
      PowProduct(a, b, e - 1);
      var x, y := Pow(a, e - 1), Pow(b, e - 1);
      assert (x * y) * (a * b) == (x * a) * (y * b);
    }
  }

  lemma {:induction false} PowPow(b: int, d: nat, e: nat)
    ensures Pow(Pow(b, d), e) == Pow(b, d * e)
  {
    if e == 0 {
      assert d * e == 0;
    } else {
      PowPow(b, d, e - 1);
      PowAdd(b, d * (e - 1), d);
      assert d * (e - 1) + d == d * e;
    }
  }

  lemma {:induction false} OnePow(e: nat)
    ensures Pow(1, e) == 1
  {
    if e != 0 {
      OnePow(e - 1);
    }
  }

  lemma CongTrans(a: int, b: int, c: int, m: int)
    requires m > 0 && Cong(a, b, m) && Cong(b, c, m)
    ensures Cong(a, c, m)
  {
  }

  lemma CongRefl(a: int, m: int)
    requires m > 0
    ensures Cong(a, a, m)
  {
  }

  lemma CongSym(a: int, b: int, m: int)
    requires m > 0 && Cong(a, b, m)
    ensures Cong(b, a, m)
  {
  }

  /** Multiplying congruent numbers by the same factor. */
  lemma CongScale(a: int, b: int, k: int, m: int)
    requires m > 0 && Cong(a, b, m)
    ensures Cong(a * k, b * k, m) && Cong(k * a, k * b, m)
  {
    CongMul(a, b, k, k, m);
  }
}

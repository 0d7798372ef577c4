/** Big-endian numerals in any base, and rewriting them in another. */
module Numerals {
  import opened Residues

  ghost predicate InBase(ds: seq<nat>, base: nat) { forall k :: 0 <= k < |ds| ==> ds[k] < base }

  function Value(ds: seq<nat>, base: nat): nat
  {
    if ds == [] then 0 else Value(ds[..|ds| - 1], base) * base + ds[|ds| - 1]
  }

  lemma ValueAppend(ds: seq<nat>, d: nat, base: nat)
    ensures Value(ds + [d], base) == Value(ds, base) * base + d
  {
    assert (ds + [d])[..|ds|] == ds;
  }

  function Digits(n: nat, base: nat): (ds: seq<nat>)
    requires base > 1
    ensures InBase(ds, base)
    ensures n > 0 ==> ds != [] && ds[0] != 0
  {
    if n == 0 then [] else
      QuotientSmaller(n, base);
      Digits(n / base, base) + [n % base]
  }

  lemma QuotientSmaller(n: nat, base: nat)
    requires n > 0 && base > 1
    ensures 0 <= n / base < n
  {
    QuotientBound(n, base, n / base, n % base);
  }

  lemma QuotientBound(n: int, base: int, q: int, r: int)
    requires n > 0 && base > 1 && n == base * q + r && 0 <= r < base
    ensures 0 <= q < n
  {
    assert q < 0 ==> base * q <= -base;
    assert q < 0 || base * q >= 2 * q;
  }

  function LeadingZeros(ds: seq<nat>): (z: nat)
    ensures z <= |ds| && (forall k :: 0 <= k < z ==> ds[k] == 0) && (z < |ds| ==> ds[z] != 0)
  {
    if ds == [] || ds[0] != 0 then 0 else 1 + LeadingZeros(ds[1..])
  }

  function Zeros(z: nat): (zs: seq<nat>)
    ensures |zs| == z && forall k :: 0 <= k < z ==> zs[k] == 0
  {
    seq(z, _ => 0)
  }

  /** Keep the leading zeros, rewrite the number they precede. */
  function Recode(ds: seq<nat>, from: nat, to: nat): seq<nat>
    requires to > 1
  {
    Zeros(LeadingZeros(ds)) + Digits(Value(ds, from), to)
  }

  lemma QuotientRemainder(n: nat, base: nat)
    requires base > 0
    ensures (n / base) * base + n % base == n
  {
  }

  lemma {:induction false} DigitsValue(n: nat, base: nat)
    requires base > 1
    ensures Value(Digits(n, base), base) == n
  {
    if n > 0 {
      QuotientSmaller(n, base);
      var high := Digits(n / base, base);
      DigitsValue(n / base, base);
      assert Digits(n, base) == high + [n % base];
      assert Digits(n, base)[..|high|] == high;
      QuotientRemainder(n, base);
    }
  }

  lemma {:induction false} ValueDigits(ds: seq<nat>, base: nat)
    requires base > 1 && InBase(ds, base) && (ds != [] ==> ds[0] != 0)
    ensures Digits(Value(ds, base), base) == ds
    ensures ds != [] ==> Value(ds, base) > 0
  {
    if ds != [] {
      var high, low := ds[..|ds| - 1], ds[|ds| - 1];
      ValueDigits(high, base);
      SplitLast(Value(high, base), low, base);
    }
  }

  lemma SplitLast(high: nat, low: nat, base: nat)
    requires low < base
    ensures (high * base + low) / base == high && (high * base + low) % base == low
  {
    var n := high * base + low;
    var t := n / base - high;
    assert base * t == low - n % base;
    assert t >= 1 ==> base * t >= base;
    assert t <= -1 ==> base * t + base <= 0;
  }

  lemma {:induction false} ZerosAddNothing(z: nat, ds: seq<nat>, base: nat)
    ensures Value(Zeros(z) + ds, base) == Value(ds, base)
  {
    var whole := Zeros(z) + ds;
    if ds != [] {
      assert whole[..|whole| - 1] == Zeros(z) + ds[..|ds| - 1];
      ZerosAddNothing(z, ds[..|ds| - 1], base);
    } else if z > 0 {
      assert whole[..|whole| - 1] == Zeros(z - 1) + ds;
      ZerosAddNothing(z - 1, ds, base);
    }
  }

  lemma {:induction false} CountsZeros(z: nat, ds: seq<nat>)
    requires ds != [] ==> ds[0] != 0
    ensures LeadingZeros(Zeros(z) + ds) == z
  {
    var whole := Zeros(z) + ds;
    assert ds != [] ==> whole[z] == ds[0];
    assert forall k :: 0 <= k < z ==> whole[k] == 0;
  }

  /** Recoding back gives the same digits. */
  lemma RecodeRoundTrip(ds: seq<nat>, a: nat, b: nat)
    requires a > 1 && b > 1 && InBase(ds, a)
    ensures InBase(Recode(ds, a, b), b) && Recode(Recode(ds, a, b), b, a) == ds
  {
    var z := LeadingZeros(ds);
    var tail := ds[z..];
    assert ds == Zeros(z) + tail;
    ZerosAddNothing(z, tail, a);
    ValueDigits(tail, a);
    var n := Value(tail, a);
    CountsZeros(z, Digits(n, b));
    ZerosAddNothing(z, Digits(n, b), b);
    DigitsValue(n, b);
  }

  /** The first digit is worth the most. */
  lemma {:induction false} ValueCons(d: nat, ds: seq<nat>, base: nat)
    ensures Value([d] + ds, base) == d * Pow(base, |ds|) + Value(ds, base)
  {
    hide Value, Pow;
    if ds == [] {
      OneDigit(d, base);
      assert [d] + ds == [d];
    } else {
      var high, low := ds[..|ds| - 1], ds[|ds| - 1];
      ValueCons(d, high, base);
      assert ds == high + [low] && [d] + ds == ([d] + high) + [low];
      ValueAppend([d] + high, low, base);
      ValueAppend(high, low, base);
      NextPower(base, |high|);
      TimesBase(d, Pow(base, |high|), Value(high, base), base);
    }
  }

  lemma OneDigit(d: nat, base: nat)
    ensures Value([d], base) == d && Value([], base) == 0 && Pow(base, 0) == 1
  {
    ValueAppend([], d, base);
    assert [] + [d] == [d];
  }

  lemma NextPower(base: nat, e: nat)
    ensures Pow(base, e + 1) == Pow(base, e) * base
  {
  }

  lemma TimesBase(d: int, p: int, v: int, base: int)
    ensures (d * p + v) * base == d * (p * base) + v * base
  {
  }
}

/** Base58 in both directions, leading zero bytes included. */
module Base58 {
  import opened Bytes
  import opened Numerals
  import opened Outcomes

  /** The ascending runs of the alphabet: 0, O, I and l are missing. */
  const B58: string :=
    "123456789" + "ABCDEFGH" + "JKLMN" + "PQRSTUVWXYZ" + "abcdefghijk" + "mnopqrstuvwxyz"

  // ---------- the alphabet ----------

  function IndexOf(c: char, s: string): (i: int)
    ensures -1 <= i < |s|
    ensures i >= 0 ==> s[i] == c
    ensures i < 0 ==> c !in s
  {
    if s == "" then -1
    else if s[0] == c then 0
    else var i := IndexOf(c, s[1..]); if i < 0 then -1 else i + 1
  }

  lemma AlphabetAscends(i: nat)
    requires i < 57
    ensures |B58| == 58 && B58[i] < B58[i + 1]
  {
  }

  lemma {:induction false} AlphabetSorted(i: nat, j: nat)
    requires i < j < 58
    ensures |B58| == 58 && B58[i] < B58[j]
    decreases j
  {
    AlphabetAscends(j - 1);
    if i < j - 1 {
      AlphabetSorted(i, j - 1);
    }
  }

  /** The digits and letters but for 0, O, I and l. */
  lemma AlphabetIs(c: char)
    ensures c in B58 <==> ('1' <= c <= '9' || 'A' <= c <= 'Z' || 'a' <= c <= 'z') && c != 'O' && c != 'I' && c != 'l'
  {
  }

  lemma IndexOfLetter(i: nat)
    requires i < 58
    ensures |B58| == 58 && IndexOf(B58[i], B58) == i
  {
    AlphabetAscends(0);
    var k := IndexOf(B58[i], B58);
    if k < i && k >= 0 {
      AlphabetSorted(k, i);
    } else if k > i {
      AlphabetSorted(i, k);
    }
  }

  function Letters(ds: seq<nat>): (s: string)
    requires InBase(ds, 58)
    ensures |s| == |ds|
  {
    AlphabetAscends(0);
    seq(|ds|, k requires 0 <= k < |ds| => B58[ds[k]])
  }

  ghost predicate OverAlphabet(s: string) { forall k :: 0 <= k < |s| ==> s[k] in B58 }

  function Indices(s: string): (ds: seq<nat>)
    requires OverAlphabet(s)
    ensures |ds| == |s| && InBase(ds, 58)
  {
    AlphabetAscends(0);
    seq(|s|, k requires 0 <= k < |s| => IndexOf(s[k], B58))
  }

  lemma LettersIndices(ds: seq<nat>)
    requires InBase(ds, 58)
    ensures OverAlphabet(Letters(ds)) && Indices(Letters(ds)) == ds
  {
    AlphabetAscends(0);
    forall k | 0 <= k < |ds|
      ensures Letters(ds)[k] in B58 && IndexOf(Letters(ds)[k], B58) == ds[k]
    {
      IndexOfLetter(ds[k]);
    }
  }

  // ---------- the code's two functions, and that they are inverse ----------

  function Encoded(buf: seq<Byte>): string
  {
    Letters(RecodeDown(buf))
  }

  function RecodeDown(buf: seq<Byte>): (ds: seq<nat>)
    ensures InBase(ds, 58)
  {
    Recode(buf, 256, 58)
  }

  function Decoded(s: string): seq<nat>
    requires OverAlphabet(s)
  {
    Recode(Indices(s), 58, 256)
  }

  lemma DecodeEncode(buf: seq<Byte>)
    ensures OverAlphabet(Encoded(buf)) && Decoded(Encoded(buf)) == buf
  {
    LettersIndices(Recode(buf, 256, 58));
    RecodeRoundTrip(buf, 256, 58);
  }

  lemma EncodeDecode(s: string)
    requires OverAlphabet(s)
    ensures InBase(Decoded(s), 256) && Encoded(Decoded(s)) == s
  {
    RecodeRoundTrip(Indices(s), 58, 256);
    assert Letters(Indices(s)) == s;
  }

  lemma DigitsStep(n: nat, base: nat)
    requires n > 0 && base > 1
    ensures 0 <= n / base < n && 0 <= n % base < base
    ensures Digits(n, base) == Digits(n / base, base) + [n % base]
  {
    QuotientSmaller(n, base);
  }

  lemma PrependLetter(d: nat, ds: seq<nat>)
    requires d < 58 && InBase(ds, 58)
    ensures |B58| == 58 && Letters([d] + ds) == [B58[d]] + Letters(ds)
  {
    AlphabetAscends(0);
  }

  lemma ZerosBefore(ds: seq<nat>, z: nat)
    requires z <= |ds| && (forall k :: 0 <= k < z ==> ds[k] == 0) && (z < |ds| ==> ds[z] != 0)
    ensures LeadingZeros(ds) == z
  {
  }

  method BytesValue(buf: seq<Byte>) returns (n: nat)
    ensures n == Value(buf, 256)
  {
    n := 0;
    for k := 0 to |buf|
      invariant n == Value(buf[..k], 256)
    {
      assert buf[..k + 1][..k] == buf[..k];
      n := n * 256 + buf[k];
    }
    assert buf[..|buf|] == buf;
  }

  method ToLetters(total: nat) returns (out: string)
    ensures out == Letters(Digits(total, 58))
  {
    hide Digits, Value, Letters;
    AlphabetAscends(0);
    var n := total;
    ghost var low: seq<nat> := [];
    out := "";
    assert Letters([]) == "";
    while n > 0
      invariant InBase(low, 58) && out == Letters(low)
      invariant Digits(total, 58) == Digits(n, 58) + low
    {
      DigitsStep(n, 58);
      PrependLetter(n % 58, low);
      low := [n % 58] + low;
      out := [B58[n % 58]] + out;
      n := n / 58;
    }
    EmptyDigits(58);
    assert low == Digits(total, 58);
  }

  method Encode(buf: seq<Byte>) returns (out: string)
    ensures out == Encoded(buf)
  {
    hide Digits, Value, Letters, LeadingZeros;
    var n := BytesValue(buf);
    out := ToLetters(n);
    ghost var low := Digits(n, 58);
    assert Zeros(0) + low == low;
    var k := 0;
    while k < |buf| && buf[k] == 0
      invariant k <= |buf| && (forall m :: 0 <= m < k ==> buf[m] == 0)
      invariant out == Letters(Zeros(k) + low)
    {
      PrependLetter(0, Zeros(k) + low);
      assert Zeros(k + 1) + low == [0] + (Zeros(k) + low);
      out := "1" + out;
      k := k + 1;
    }
    ZerosBefore(buf, k);
  }

  lemma EmptyDigits(base: nat)
    requires base > 1
    ensures Digits(0, base) == []
  {
  }

  /** The first loop: the number the letters spell. */
  method Accumulate(s: string) returns (r: Result<nat, string>)
    ensures r.Ok? <==> OverAlphabet(s)
    ensures r.Err? ==> r.error == s
    ensures r.Ok? ==> r.value == Value(Indices(s), 58)
  {
    hide Indices;
    AlphabetAscends(0);
    var n: nat := 0;
    for k := 0 to |s|
      invariant OverAlphabet(s[..k]) && n == Value(Indices(s[..k]), 58)
    {
      var i := IndexOf(s[k], B58);
      if i < 0 {
        return Err(s);
      }
      IndicesAppend(s, k);
      n := n * 58 + i;
    }
    assert s[..|s|] == s;
    r := Ok(n);
  }

  lemma IndicesAppend(s: string, k: nat)
    requires k < |s| && OverAlphabet(s[..k]) && s[k] in B58
    ensures OverAlphabet(s[..k + 1])
    ensures Value(Indices(s[..k + 1]), 58) == Value(Indices(s[..k]), 58) * 58 + IndexOf(s[k], B58)
  {
    hide Value, B58;
    assert s[..k + 1] == s[..k] + [s[k]];
    var digit: nat := IndexOf(s[k], B58);
    assert Indices(s[..k + 1]) == Indices(s[..k]) + [digit];
    ValueAppend(Indices(s[..k]), digit, 58);
  }

  method ToBytes(total: nat) returns (bytes: seq<Byte>)
    ensures bytes == Digits(total, 256)
  {
    hide *;
    var n := total;
    bytes := [];
    while n > 0
      invariant Digits(total, 256) == Digits(n, 256) + bytes
    {
      DigitsStep(n, 256);
      bytes := [n % 256] + bytes;
      n := n / 256;
    }
    EmptyDigits(256);
  }

  method Decode(s: string) returns (r: Result<seq<Byte>, string>)
    ensures r.Ok? <==> OverAlphabet(s)
    ensures r.Err? ==> r.error == s
    ensures r.Ok? ==> r.value == Decoded(s)
  {
    hide Value, Digits, Indices, OverAlphabet, LeadingZeros, Zeros;
    var total := Accumulate(s);
    if total.Err? {
      return Err(s);
    }
    var bytes := ToBytes(total.value);
    var zeros := LeadingOnes(s);
    r := Ok(Zeros(zeros) + bytes);
  }

  method LeadingOnes(s: string) returns (zeros: nat)
    requires OverAlphabet(s)
    ensures zeros == LeadingZeros(Indices(s))
  {
    hide LeadingZeros, Indices, OverAlphabet;
    zeros := 0;
    while zeros < |s| && s[zeros] == '1'
      invariant zeros <= |s| && (forall m :: 0 <= m < zeros ==> s[m] == '1')
    {
      zeros := zeros + 1;
    }
    OnesAreZeros(s, zeros);
  }

  lemma OnesAreZeros(s: string, z: nat)
    requires OverAlphabet(s) && z <= |s|
    requires (forall k :: 0 <= k < z ==> s[k] == '1') && (z < |s| ==> s[z] != '1')
    ensures LeadingZeros(Indices(s)) == z
  {
    AlphabetAscends(0);
    IndexOfLetter(0);
    ZerosBefore(Indices(s), z);
  }
}

/** Numbers as text: how they are written, and what BigInt reads. */
module NumberText {
  import Hex
  import opened Numerals
  import opened Outcomes
  import opened Texts

  // ---------- decimal numbers ----------

  function Digit(d: nat): char
    requires d < 10
  {
    '0' + d as char
  }

  /** BigInt.toString of a number that is not negative. */
  function ToString(n: nat): (s: string)
    ensures s != "" && AllDigits(s)
  {
    if n < 10 then [Digit(n)] else ToString(n / 10) + [Digit(n % 10)]
  }

  // ---------- digits in any base up to sixteen ----------

  predicate AllIn(s: string, base: nat) {
    forall i :: 0 <= i < |s| ==> Hex.HexValue(s[i]).Some? && Hex.HexValue(s[i]).value < base
  }

  function DigitValues(s: string, base: nat): (ds: seq<nat>)
    requires AllIn(s, base)
    ensures |ds| == |s| && forall i :: 0 <= i < |s| ==> ds[i] == Hex.HexValue(s[i]).value
  {
    seq(|s|, i requires 0 <= i < |s| => Hex.HexValue(s[i]).value)
  }

  /** The number that decimal digits spell; no digits, zero. */
  function ToNumber(s: string): nat
    requires AllDigits(s)
  {
    assert AllIn(s, 10);
    Value(DigitValues(s, 10), 10)
  }

  lemma ToNumberAppend(s: string, c: char)
    requires AllDigits(s) && IsDigit(c)
    ensures AllDigits(s + [c]) && ToNumber(s + [c]) == ToNumber(s) * 10 + (c - '0') as nat
  {
    assert DigitValues(s + [c], 10) == DigitValues(s, 10) + [(c - '0') as nat];
    ValueAppend(DigitValues(s, 10), (c - '0') as nat, 10);
  }

  lemma {:induction false} NumberOfString(n: nat)
    ensures ToNumber(ToString(n)) == n
  {
    hide ToNumber;
    if n >= 10 {
      NumberOfString(n / 10);
      ToNumberAppend(ToString(n / 10), Digit(n % 10));
    } else {
      NoDigits();
      ToNumberAppend("", Digit(n));
      assert "" + [Digit(n)] == [Digit(n)];
    }
  }

  lemma NoDigits()
    ensures ToNumber("") == 0
  {
  }

  lemma ZeroInFront(s: string)
    requires AllDigits(s)
    ensures AllDigits("0" + s) && ToNumber("0" + s) == ToNumber(s)
  {
    assert DigitValues("0" + s, 10) == Zeros(1) + DigitValues(s, 10);
    ZerosAddNothing(1, DigitValues(s, 10), 10);
  }

  lemma {:induction false} PaddedNumber(s: string, width: nat)
    requires AllDigits(s)
    ensures ToNumber(PadStart(s, width)) == ToNumber(s)
  {
    if |s| < width {
      PaddedNumber(s, width - 1);
      ZeroInFront(PadStart(s, width - 1));
    }
  }

  lemma {:induction false} ZeroIsZeros(s: string)
    requires AllDigits(s)
    ensures ToNumber(s) == 0 <==> AllZeros(s)
  {
    hide ToNumber;
    if s != "" {
      var high, low := s[..|s| - 1], s[|s| - 1];
      ZeroIsZeros(high);
      assert s == high + [low];
      ToNumberAppend(high, low);
    } else {
      NoDigits();
    }
  }

  // ---------- what BigInt reads ----------

  function Unsigned(s: string, base: nat): Option<int>
  {
    if s != "" && AllIn(s, base) then Some(Value(DigitValues(s, base), base)) else None
  }

  /** BigInt of text: decimal digits with a sign, or others after a prefix, within white space; nothing is zero. */
  function ReadBigInt(text: string): Option<int>
  {
    var s := Trim(text);
    if s == "" then Some(0)
    else if |s| >= 2 && s[0] == '0' && s[1] in "xX" then Unsigned(s[2..], 16)
    else if |s| >= 2 && s[0] == '0' && s[1] in "oO" then Unsigned(s[2..], 8)
    else if |s| >= 2 && s[0] == '0' && s[1] in "bB" then Unsigned(s[2..], 2)
    else if s[0] == '+' then Unsigned(s[1..], 10)
    else if s[0] == '-' then
      var n := Unsigned(s[1..], 10);
      if n == None then None else Some(Minus(n.value))
    else Unsigned(s, 10)
  }

  function Minus(n: int): int { -n }

  /** Digits are read as what they spell. */
  lemma DigitsRead(s: string)
    requires AllDigits(s)
    ensures ReadBigInt(s) == Some(ToNumber(s))
  {
    hide Value;
    DigitsTrimmed(s);
    if s == "" {
      NoDigits();
    } else {
      assert |s| >= 2 ==> IsDigit(s[1]);
      assert AllIn(s, 10);
    }
  }

  lemma DigitsTrimmed(s: string)
    requires AllDigits(s)
    ensures Trim(s) == s
  {
  }

  lemma SignedRead(s: string)
    requires AllDigits(s) && s != ""
    ensures ReadBigInt("-" + s) == Some(Minus(ToNumber(s)))
  {
    hide Value;
    var text := "-" + s;
    assert IsDigit(s[|s| - 1]) && text[|text| - 1] == s[|s| - 1] && text[1..] == s;
    assert Trim(text) == text;
    assert AllIn(s, 10);
  }

  /** Digits after a prefix are read in its base, and after a plus as they are. */
  lemma PrefixRead(s: string, base: nat, prefix: char)
    requires s != "" && AllIn(s, base)
    requires (base == 16 && prefix in "xX") || (base == 8 && prefix in "oO") || (base == 2 && prefix in "bB")
    ensures ReadBigInt(['0', prefix] + s) == Some(Value(DigitValues(s, base), base))
  {
    hide Value;
    var text := ['0', prefix] + s;
    assert Hex.HexValue(s[|s| - 1]).Some?;
    assert text[|text| - 1] == s[|s| - 1] && text[2..] == s;
    assert Trim(text) == text;
  }

  lemma PlusRead(s: string)
    requires AllDigits(s) && s != ""
    ensures ReadBigInt("+" + s) == Some(ToNumber(s))
  {
    hide Value;
    var text := "+" + s;
    assert IsDigit(s[|s| - 1]) && text[|text| - 1] == s[|s| - 1] && text[1..] == s;
    assert Trim(text) == text;
    assert AllIn(s, 10);
  }

  lemma TensAreDigits(s: string)
    requires AllIn(s, 10)
    ensures AllDigits(s)
  {
    forall i | 0 <= i < |s|
      ensures IsDigit(s[i])
    {
      assert Hex.HexValue(s[i]).Some?;
    }
  }

  /** Within white space, nothing else is read. */
  lemma OnlyTheseRead(text: string)
    requires ReadBigInt(text).Some?
    ensures var t := Trim(text);
            || AllDigits(t)
            || (|t| > 1 && t[0] in "+-" && AllDigits(t[1..]))
            || (|t| > 2 && t[0] == '0'
                && ((t[1] in "xX" && AllIn(t[2..], 16)) || (t[1] in "oO" && AllIn(t[2..], 8))
                    || (t[1] in "bB" && AllIn(t[2..], 2))))
  {
    assert AllDigits("");
    hide Value, Trim, AllIn, AllDigits;
    var t := Trim(text);
    if AllIn(t, 10) {
      TensAreDigits(t);
    } else if t != "" && AllIn(t[1..], 10) {
      TensAreDigits(t[1..]);
    }
  }

  /** White space around it is passed over. */
  lemma SpaceRead(s: string, c: char)
    requires IsSpace(c)
    ensures ReadBigInt([c] + s) == ReadBigInt(s) && ReadBigInt(s + [c]) == ReadBigInt(s)
  {
    hide Trim, Unsigned;
    SpaceTrimmed(s, c);
  }
}

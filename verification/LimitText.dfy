/** Limits as text: an amount in base units, written with as many decimals as its token has. */
module LimitText {
  import opened NumberText
  import opened Outcomes
  import opened Texts

  // ---------- limits ----------

  function FormatNumber(n: nat, decimals: nat): string
  {
    var str := ToString(n);
    if decimals == 0 then str + "."
    else
      var padded := PadStart(str, decimals + 1);
      var splitIndex := |padded| - decimals;
      padded[..splitIndex] + "." + padded[splitIndex..]
  }

  predicate CheckNumberFormatting(formatted: string, decimals: nat) {
    var parts := Split(formatted);
    |parts| == 2 && |parts[1]| == decimals
  }

  function GetDecimalsFromLimit(limit: string): Option<nat>
  {
    var parts := Split(limit);
    if |parts| != 2 then None else Some(|parts[1]|)
  }

  predicate IsZeroLimit(value: string) { RemoveDots(value) != "" && AllZeros(RemoveDots(value)) }

  predicate IsValidLimit(value: string, decimals: nat) {
    if decimals == 0 then
      || (value != "" && AllDigits(value))
      || (|value| >= 2 && AllDigits(value[..|value| - 1]) && value[|value| - 1] == '.')
    else
      var parts := Split(value);
      && |parts| == 2 && |parts[1]| == decimals && parts[0] != "" && parts[1] != ""
      && AllDigits(parts[0]) && AllDigits(parts[1])
  }

  /** How a limit is read back: without its dots, as a number. */
  function BaseUnits(text: string): Option<int> { ReadBigInt(RemoveDots(text)) }

  lemma DigitsHaveNoDot(s: string)
    requires AllDigits(s)
    ensures '.' !in s
  {
  }

  /** The two parts of a formatted number. */
  lemma FormatParts(n: nat, decimals: nat) returns (whole: string, fraction: string)
    ensures FormatNumber(n, decimals) == whole + "." + fraction
    ensures whole != "" && |fraction| == decimals && AllDigits(whole) && AllDigits(fraction)
    ensures AllDigits(whole + fraction) && ToNumber(whole + fraction) == n
  {
    hide ToNumber;
    NumberOfString(n);
    var str := ToString(n);
    if decimals == 0 {
      whole, fraction := str, "";
      assert str + "." + "" == str + "." && str + "" == str;
    } else {
      var padded := PadStart(str, decimals + 1);
      PaddedNumber(str, decimals + 1);
      whole, fraction := padded[..|padded| - decimals], padded[|padded| - decimals..];
      assert whole + fraction == padded;
    }
  }

  /**
   * Every amount is written in a form both checks accept, with its decimals; it reads as zero
   * exactly when it is zero, and without its dot it reads back as the same amount.
   */
  lemma FormatReadsBack(n: nat, decimals: nat)
    ensures var f := FormatNumber(n, decimals);
            && CheckNumberFormatting(f, decimals) && IsValidLimit(f, decimals)
            && GetDecimalsFromLimit(f) == Some(decimals)
            && (IsZeroLimit(f) <==> n == 0)
            && BaseUnits(f) == Some(n)
  {
    hide ToNumber, ReadBigInt;
    var whole, fraction := FormatParts(n, decimals);
    DigitsHaveNoDot(whole);
    DigitsHaveNoDot(fraction);
    SplitTwo(whole, fraction);
    RemoveOneDot(whole, fraction);
    ZeroIsZeros(whole + fraction);
    DigitsRead(whole + fraction);
    if decimals == 0 {
      var f := FormatNumber(n, 0);
      assert f[..|f| - 1] == whole;
    }
  }

  /** With a sign in front it still passes the structural check, not the other, and reads as the negative. */
  lemma SignedReadsBack(n: nat, decimals: nat)
    ensures var f := "-" + FormatNumber(n, decimals);
            CheckNumberFormatting(f, decimals) && !IsValidLimit(f, decimals) && BaseUnits(f) == Some(Minus(n))
  {
    hide ToNumber, ReadBigInt;
    var whole, fraction := FormatParts(n, decimals);
    DigitsHaveNoDot(whole);
    DigitsHaveNoDot(fraction);
    var f := "-" + FormatNumber(n, decimals);
    assert f == ("-" + whole) + "." + fraction;
    assert ("-" + whole)[0] == '-' && f[0] == '-';
    SplitTwo("-" + whole, fraction);
    RemoveOneDot("-" + whole, fraction);
    assert ("-" + whole) + fraction == "-" + (whole + fraction);
    SignedRead(whole + fraction);
  }

  /** What a valid limit reads as: the digits of its two parts. */
  lemma ValidReads(value: string, decimals: nat)
    requires IsValidLimit(value, decimals)
    ensures BaseUnits(value).Some? && (IsZeroLimit(value) <==> BaseUnits(value) == Some(0))
  {
    hide ToNumber, ReadBigInt;
    if decimals == 0 {
      if value[|value| - 1] == '.' {
        var whole := value[..|value| - 1];
        assert value == whole + "." + "" && whole + "" == whole;
        DigitsHaveNoDot(whole);
        RemoveOneDot(whole, "");
      } else {
        DigitsHaveNoDot(value);
        NoDotRemoved(value);
      }
    } else {
      var parts := Split(value);
      SplitJoins(value);
      DigitsHaveNoDot(parts[0]);
      DigitsHaveNoDot(parts[1]);
      RemoveOneDot(parts[0], parts[1]);
    }
    ZeroIsZeros(RemoveDots(value));
    DigitsRead(RemoveDots(value));
  }

  // ---------- amounts to send ----------

  /** One more than the largest number of 256 bits, and of 512 with a sign, in which parseUnits computes. */
  const WORD: int := 0x1_00000000_00000000_00000000_00000000_00000000_00000000_00000000_00000000
  const FIXED_LIMIT: int := WORD / 2 * WORD

  /**
   * parseUnits of ethers: digits around at most one dot, after a sign or not; decimals beyond the
   * token's must be zeros, and of those there may be eighty.
   */
  function ParseUnits(text: string, decimals: nat): Option<int>
  {
    var negative := text != "" && text[0] == '-';
    match ParseDigits(if negative then text[1..] else text, decimals)
    case None => None
    case Some(units) =>
      var value := if negative then Minus(units) else units;
      if decimals <= 80 && -FIXED_LIMIT <= value < FIXED_LIMIT then Some(value) else None
  }

  function ParseDigits(text: string, decimals: nat): Option<nat>
  {
    var parts := Split(text);
    if |parts| > 2 then None
    else
      var whole, fraction := parts[0], if |parts| == 2 then parts[1] else "";
      if !AllDigits(whole) || !AllDigits(fraction) || whole + fraction == "" then None
      else if |fraction| > decimals then
        if AllZeros(fraction[decimals..]) then Some(ToNumber(whole + fraction[..decimals])) else None
      else Some(ToNumber(whole + PadEnd(fraction, decimals)))
  }

  lemma FormatHasDigits(n: nat, decimals: nat)
    ensures ParseDigits(FormatNumber(n, decimals), decimals) == Some(n)
    ensures FormatNumber(n, decimals) != "" && IsDigit(FormatNumber(n, decimals)[0])
  {
    hide ToNumber, FormatNumber, Split;
    var whole, fraction := FormatParts(n, decimals);
    DigitsHaveNoDot(whole);
    DigitsHaveNoDot(fraction);
    SplitTwo(whole, fraction);
    assert (whole + "." + fraction)[0] == whole[0];
  }

  /** A formatted number is parsed as the number it was made from, and one with a sign as the negative. */
  lemma FormatParses(n: nat, decimals: nat)
    requires decimals <= 80
    ensures ParseUnits(FormatNumber(n, decimals), decimals) == if n < FIXED_LIMIT then Some(n) else None
    ensures ParseUnits("-" + FormatNumber(n, decimals), decimals) == if n <= FIXED_LIMIT then Some(Minus(n)) else None
  {
    assert FIXED_LIMIT > 0;
    hide FIXED_LIMIT, FormatNumber, ParseDigits;
    FormatHasDigits(n, decimals);
    assert ("-" + FormatNumber(n, decimals))[1..] == FormatNumber(n, decimals);
  }

  // ---------- exactly which texts ----------

  /** A valid limit is digits, a dot and as many digits as there are decimals; without any the dot may be missing. */
  lemma ValidLimitIs(value: string, decimals: nat)
    ensures IsValidLimit(value, decimals) <==>
              exists whole, fraction :: whole != "" && AllDigits(whole) && AllDigits(fraction) && |fraction| == decimals
                && (value == whole + "." + fraction || (decimals == 0 && value == whole))
  {
    if IsValidLimit(value, decimals) {
      ValidLimitParts(value, decimals);
    }
    forall whole, fraction | whole != "" && AllDigits(whole) && AllDigits(fraction) && |fraction| == decimals
                             && (value == whole + "." + fraction || (decimals == 0 && value == whole))
      ensures IsValidLimit(value, decimals)
    {
      if decimals == 0 && value != whole {
        assert value[..|value| - 1] == whole;
      } else if decimals > 0 {
        DigitsHaveNoDot(whole);
        DigitsHaveNoDot(fraction);
        SplitTwo(whole, fraction);
      }
    }
  }

  lemma ValidLimitParts(value: string, decimals: nat)
    requires IsValidLimit(value, decimals)
    ensures exists whole, fraction :: whole != "" && AllDigits(whole) && AllDigits(fraction) && |fraction| == decimals
              && (value == whole + "." + fraction || (decimals == 0 && value == whole))
  {
    if decimals > 0 {
      var parts := Split(value);
      SplitJoins(value);
      assert value == parts[0] + "." + parts[1];
    } else if value[|value| - 1] == '.' {
      var whole := value[..|value| - 1];
      assert value == whole + "." + "";
    } else {
      assert AllDigits("") && |""| == 0;
    }
  }

  function Power10(n: nat): nat { if n == 0 then 1 else Power10(n - 1) * 10 }

  lemma {:induction false} ZerosBehind(s: string, width: nat)
    requires AllDigits(s) && |s| <= width
    ensures AllDigits(PadEnd(s, width)) && ToNumber(PadEnd(s, width)) == ToNumber(s) * Power10(width - |s|)
    decreases width
  {
    hide ToNumber;
    if |s| < width {
      ZerosBehind(s, width - 1);
      ToNumberAppend(PadEnd(s, width - 1), '0');
      var n, p := ToNumber(s), Power10(width - 1 - |s|);
      assert (n * p) * 10 == n * (p * 10);
    }
  }

  /** Digits before and after at most one dot, on one side of it at least. */
  predicate WrittenAs(text: string, whole: string, fraction: string) {
    && AllDigits(whole) && AllDigits(fraction) && whole + fraction != ""
    && (text == whole + "." + fraction || (fraction == "" && text == whole))
  }

  /** Digits are scaled up by the decimals that they leave out, and what goes beyond them must be zeros. */
  lemma ParsesWith(whole: string, fraction: string, text: string, decimals: nat)
    requires WrittenAs(text, whole, fraction)
    ensures |fraction| <= decimals ==>
              ParseDigits(text, decimals) == Some(ToNumber(whole + fraction) * Power10(decimals - |fraction|))
    ensures |fraction| > decimals ==>
              ParseDigits(text, decimals) ==
                if AllZeros(fraction[decimals..]) then Some(ToNumber(whole + fraction[..decimals])) else None
  {
    hide ToNumber, Split;
    DigitsHaveNoDot(whole);
    DigitsHaveNoDot(fraction);
    if text == whole + "." + fraction {
      SplitTwo(whole, fraction);
    }
    if |fraction| <= decimals {
      PadBehind(whole, fraction, decimals);
      ZerosBehind(whole + fraction, |whole| + decimals);
    }
  }

  lemma {:induction false} PadBehind(whole: string, fraction: string, width: nat)
    requires |fraction| <= width
    ensures whole + PadEnd(fraction, width) == PadEnd(whole + fraction, |whole| + width)
    decreases width
  {
    if |fraction| < width {
      PadBehind(whole, fraction, width - 1);
      assert whole + (PadEnd(fraction, width - 1) + "0") == (whole + PadEnd(fraction, width - 1)) + "0";
    }
  }

  /** Nothing else is parsed. */
  lemma OnlyWrittenParses(text: string, decimals: nat)
    requires ParseDigits(text, decimals).Some?
    ensures exists whole, fraction :: WrittenAs(text, whole, fraction)
  {
    hide ToNumber, Split;
    var parts := Split(text);
    SplitJoins(text);
    if |parts| == 2 {
      assert WrittenAs(text, parts[0], parts[1]);
    } else {
      assert WrittenAs(text, parts[0], "");
    }
  }
}

/** Hex text: how buffers are shown, how text is read back into a buffer, and padded numbers. */
module Hex {
  import opened Bytes
  import opened Outcomes
  import opened Texts
  import opened Wire

  function Nibble(n: nat): (c: char)
    requires n < 16
    ensures HexValue(c) == Some(n)
  {
    if n < 10 then '0' + n as char else 'a' + (n - 10) as char
  }

  function HexValue(c: char): (v: Option<nat>)
    ensures v.Some? ==> v.value < 16
  {
    if '0' <= c <= '9' then Some((c - '0') as nat)
    else if 'a' <= c <= 'f' then Some((c - 'a') as nat + 10)
    else if 'A' <= c <= 'F' then Some((c - 'A') as nat + 10)
    else None
  }

  predicate IsHex(s: string) { forall i :: 0 <= i < |s| ==> HexValue(s[i]).Some? }

  /** Buffer.toString("hex"). */
  function ToHex(b: seq<Byte>): (s: string)
    ensures |s| == 2 * |b| && IsHex(s)
  {
    if b == [] then "" else [Nibble(b[0] / 16), Nibble(b[0] % 16)] + ToHex(b[1..])
  }

  /** Buffer.from(s, "hex"): it stops at the first pair that is not hex. */
  function FromHex(s: string): seq<Byte>
  {
    if |s| < 2 || HexValue(s[0]) == None || HexValue(s[1]) == None then []
    else [HexValue(s[0]).value * 16 + HexValue(s[1]).value] + FromHex(s[2..])
  }

  lemma ReadPair(hi: char, lo: char, t: string)
    requires HexValue(hi).Some? && HexValue(lo).Some?
    ensures FromHex([hi, lo] + t) == [HexValue(hi).value * 16 + HexValue(lo).value] + FromHex(t)
  {
    hide HexValue;
    assert ([hi, lo] + t)[2..] == t;
  }

  lemma {:induction false} ShownIsRead(b: seq<Byte>, t: string)
    ensures FromHex(ToHex(b) + t) == b + FromHex(t)
  {
    hide HexValue, FromHex, Nibble;
    if b == [] {
      assert ToHex(b) + t == t && b + FromHex(t) == FromHex(t);
    } else {
      ShownIsRead(b[1..], t);
      ReadShownByte(b[0], b[1..], t);
      assert b == [b[0]] + b[1..];
    }
  }

  lemma ReadShownByte(first: Byte, b: seq<Byte>, t: string)
    ensures FromHex(ToHex([first] + b) + t) == [first] + FromHex(ToHex(b) + t)
  {
    hide HexValue, ToHex, FromHex, Nibble;
    var hi, lo := first / 16, first % 16;
    ShowPair(hi, lo, b);
    ReadPair(Nibble(hi), Nibble(lo), ToHex(b) + t);
    assert ([Nibble(hi), Nibble(lo)] + ToHex(b)) + t == [Nibble(hi), Nibble(lo)] + (ToHex(b) + t);
  }

  lemma ReadBack(b: seq<Byte>)
    ensures FromHex(ToHex(b)) == b
  {
    ShownIsRead(b, "");
    assert ToHex(b) + "" == ToHex(b) && b + [] == b;
  }

  lemma {:induction false} ReadAppend(s: string, t: string)
    requires IsHex(s) && |s| % 2 == 0
    ensures FromHex(s + t) == FromHex(s) + FromHex(t) && |FromHex(s)| == |s| / 2
  {
    if s == "" {
      assert s + t == t;
    } else {
      assert (s + t)[2..] == s[2..] + t;
      ReadAppend(s[2..], t);
    }
  }

  /** The byte that the k-th pair of digits spells. */
  function PairValue(s: string, k: nat): Byte
    requires 2 * k + 1 < |s| && IsHex(s)
  {
    HexValue(s[2 * k]).value * 16 + HexValue(s[2 * k + 1]).value
  }

  lemma {:induction false} PairsRead(s: string)
    requires IsHex(s) && |s| % 2 == 0
    ensures |FromHex(s)| == |s| / 2
    ensures forall k: nat :: k < |s| / 2 ==> FromHex(s)[k] == PairValue(s, k)
  {
    if s != "" {
      PairsRead(s[2..]);
      forall k: nat | k < |s| / 2
        ensures FromHex(s)[k] == PairValue(s, k)
      {
        assert k > 0 ==> s[2..][2 * (k - 1)] == s[2 * k] && s[2..][2 * (k - 1) + 1] == s[2 * k + 1];
        assert k > 0 ==> FromHex(s)[k] == FromHex(s[2..])[k - 1] == PairValue(s[2..], k - 1);
      }
    }
  }

  // ---------- letter case ----------

  /** Case makes no difference to what hex text reads as. */
  lemma {:induction false} CaseIgnored(s: string, t: string)
    requires |s| == |t| && forall i :: 0 <= i < |s| ==> HexValue(s[i]) == HexValue(t[i])
    ensures FromHex(s) == FromHex(t)
  {
    if |s| >= 2 {
      CaseIgnored(s[2..], t[2..]);
    }
  }

  lemma UpperReads(s: string)
    ensures FromHex(Upper(s)) == FromHex(s)
  {
    CaseIgnored(s, Upper(s));
  }

  lemma {:induction false} LowerShows(s: string)
    requires IsHex(s) && |s| % 2 == 0
    ensures Lower(s) == ToHex(FromHex(s))
  {
    hide HexValue, FromHex, ToHex, Lower, LowerChar, Nibble;
    if s == "" {
      NothingShown();
    } else {
      LowerShows(s[2..]);
      LowerNibble(s[0]);
      LowerNibble(s[1]);
      assert s == [s[0], s[1]] + s[2..];
      LowerPair(s[0], s[1], s[2..]);
      ReadPair(s[0], s[1], s[2..]);
      ShowPair(HexValue(s[0]).value, HexValue(s[1]).value, FromHex(s[2..]));
    }
  }

  /** Hex of the same bytes differs in letter case only. */
  lemma CaseOnly(s: string, t: string)
    requires IsHex(s) && IsHex(t) && |s| % 2 == 0 && |t| % 2 == 0
    ensures FromHex(s) == FromHex(t) <==> Lower(s) == Lower(t)
  {
    LowerShows(s);
    LowerShows(t);
    ReadBack(FromHex(s));
    ReadBack(FromHex(t));
  }

  lemma NothingShown()
    ensures FromHex("") == [] && ToHex([]) == "" && Lower("") == ""
  {
  }

  lemma LowerPair(hi: char, lo: char, t: string)
    ensures Lower([hi, lo] + t) == [LowerChar(hi), LowerChar(lo)] + Lower(t)
  {
    hide LowerChar;
  }

  lemma ShowPair(hi: nat, lo: nat, b: seq<Byte>)
    requires hi < 16 && lo < 16
    ensures ToHex([hi * 16 + lo] + b) == [Nibble(hi), Nibble(lo)] + ToHex(b)
  {
    hide Nibble;
    var v: Byte := hi * 16 + lo;
    assert v / 16 == hi && v % 16 == lo;
    assert ([v] + b)[1..] == b;
  }

  lemma LowerNibble(c: char)
    requires HexValue(c).Some?
    ensures LowerChar(c) == Nibble(HexValue(c).value)
  {
  }

  // ---------- numbers ----------

  /** Number.toString(16). */
  function Digits(v: nat): (s: string)
    ensures s != ""
  {
    if v < 16 then [Nibble(v)] else Digits(v / 16) + [Nibble(v % 16)]
  }

  function Fixed(v: nat, width: nat): (s: string)
    ensures |s| == width
  {
    if width == 0 then "" else Fixed(v / 16, width - 1) + [Nibble(v % 16)]
  }

  lemma {:induction false} PadStartAppend(s: string, c: char, width: nat)
    requires width > 0
    ensures PadStart(s + [c], width) == PadStart(s, width - 1) + [c]
  {
    if |s| < width - 1 {
      PadStartAppend(s, c, width - 1);
    }
  }

  lemma {:induction false} FixedZero(width: nat)
    ensures Fixed(0, width + 1) == "0" + Fixed(0, width)
  {
    if width > 0 {
      FixedZero(width - 1);
    }
  }

  function Power16(n: nat): (m: nat)
    ensures m >= 1
  {
    if n == 0 then 1 else Power16(n - 1) * 16
  }

  lemma {:induction false} ZerosArePadding(width: nat)
    ensures PadStart("", width) == Fixed(0, width)
  {
    if width > 0 {
      ZerosArePadding(width - 1);
      FixedZero(width - 1);
    }
  }

  lemma {:induction false} PaddedIsFixed(v: nat, width: nat)
    requires width > 0 && v < Power16(width)
    ensures PadStart(Digits(v), width) == Fixed(v, width)
  {
    if v < 16 {
      ZerosArePadding(width - 1);
      PadStartAppend("", Nibble(v), width);
      assert "" + [Nibble(v)] == [Nibble(v)];
    } else {
      assert width > 1;
      PaddedIsFixed(v / 16, width - 1);
      PadStartAppend(Digits(v / 16), Nibble(v % 16), width);
    }
  }

  lemma {:induction false} FixedShows(v: nat, n: nat)
    ensures Fixed(v, 2 * n) == ToHex(BigEndian(v, n))
  {
    hide Nibble, ToHex;
    if n == 0 {
      NothingShown();
    } else {
      FixedShows(v / 256, n - 1);
      var b: Byte := v % 256;
      FixedTwo(v, 2 * n);
      ShownAppend(BigEndian(v / 256, n - 1), b);
    }
  }

  lemma FixedTwo(v: nat, width: nat)
    requires width >= 2
    ensures var b := v % 256;
            Fixed(v, width) == Fixed(v / 256, width - 2) + [Nibble(b / 16), Nibble(b % 16)]
  {
    hide Nibble;
    assert v / 16 / 16 == v / 256 && (v / 16) % 16 == (v % 256) / 16 && v % 16 == (v % 256) % 16;
    assert Fixed(v, width) == (Fixed(v / 16 / 16, width - 2) + [Nibble((v / 16) % 16)]) + [Nibble(v % 16)];
  }

  lemma {:induction false} ShownAppend(s: seq<Byte>, b: Byte)
    ensures ToHex(s + [b]) == ToHex(s) + [Nibble(b / 16), Nibble(b % 16)]
  {
    if s == [] {
      assert s + [b] == [b] && [b][1..] == [];
      assert ToHex([b]) == [Nibble(b / 16), Nibble(b % 16)] + ToHex([]);
    } else {
      assert (s + [b])[1..] == s[1..] + [b];
      ShownAppend(s[1..], b);
    }
  }

  lemma {:induction false} LimitIsPower(n: nat)
    ensures Limit(n) == Power16(2 * n)
  {
    if n > 0 {
      LimitIsPower(n - 1);
    }
  }

  /** A number padded to n bytes of hex shows its big-endian bytes. */
  lemma PaddedShows(v: nat, n: nat)
    requires n > 0 && v < Limit(n)
    ensures PadStart(Digits(v), 2 * n) == ToHex(BigEndian(v, n))
  {
    LimitIsPower(n);
    PaddedIsFixed(v, 2 * n);
    FixedShows(v, n);
  }

  /** Text padded with zeros in front, for the hex of a shorter buffer. */
  lemma {:induction false} PaddedFront(b: seq<Byte>, n: nat)
    requires |b| <= n
    ensures PadStart(ToHex(b), 2 * n) == ToHex(seq(n - |b|, _ => 0) + b)
    decreases n - |b|
  {
    hide ToHex, PadStart, Nibble;
    if |b| < n {
      PaddedFront(b, n - 1);
      var shorter := seq(n - 1 - |b|, _ => 0) + b;
      assert seq(n - |b|, _ => 0) + b == [0 * 16 + 0] + shorter;
      PadTwo(ToHex(b), 2 * n);
      ShowPair(0, 0, shorter);
    } else {
      assert seq(0, _ => 0) + b == b;
      LongEnough(ToHex(b), 2 * n);
    }
  }

  lemma LongEnough(s: string, width: nat)
    requires |s| >= width
    ensures PadStart(s, width) == s
  {
  }

  lemma PadTwo(s: string, width: nat)
    requires |s| + 2 <= width
    ensures PadStart(s, width) == [Nibble(0), Nibble(0)] + PadStart(s, width - 2)
  {
    assert PadStart(s, width) == "0" + ("0" + PadStart(s, width - 2));
  }

  /** Text padded with zeros behind. */
  lemma {:induction false} PadEndReads(s: string, n: nat)
    requires IsHex(s) && |s| % 2 == 0 && |s| <= 2 * n
    ensures FromHex(PadEnd(s, 2 * n)) == FromHex(s) + seq(n - |s| / 2, _ => 0)
    decreases n
  {
    hide FromHex;
    if |s| == 2 * n {
      assert FromHex(s) + seq(0, _ => 0) == FromHex(s);
    } else {
      PadEndReads(s, n - 1);
      var shorter := PadEnd(s, 2 * n - 2);
      assert PadEnd(s, 2 * n) == shorter + "0" + "0" == shorter + "00";
      PaddedIsHex(s, 2 * n - 2);
      ReadAppend(shorter, "00");
      ReadPair('0', '0', "");
      NothingShown();
      assert "00" == ['0', '0'] + "";
    }
  }

  lemma PaddedIsHex(s: string, width: nat)
    requires IsHex(s)
    ensures IsHex(PadEnd(s, width))
  {
    var r := PadEnd(s, width);
    assert r == r[..|s|] + r[|s|..];
    forall i | 0 <= i < |r|
      ensures HexValue(r[i]).Some?
    {
      assert i < |s| ==> r[i] == r[..|s|][i];
      assert i >= |s| ==> r[i] == r[|s|..][i - |s|];
    }
  }

  /** The digits, in either case. */
  lemma DigitIs(c: char, k: nat)
    requires k < 16
    ensures HexValue(c) == Some(k) <==> c == "0123456789abcdef"[k] || c == "0123456789ABCDEF"[k]
  {
  }
}

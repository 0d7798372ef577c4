/** Text: letter case, digits, padding, and splitting at dots. */
module Texts {
  // ---------- letter case ----------

  function LowerChar(c: char): char { if 'A' <= c <= 'Z' then c - 'A' + 'a' else c }

  function UpperChar(c: char): char { if 'a' <= c <= 'z' then c - 'a' + 'A' else c }

  /** String.toLowerCase, on ASCII letters. */
  function Lower(s: string): (r: string)
    ensures |r| == |s| && forall i :: 0 <= i < |s| ==> r[i] == LowerChar(s[i])
  {
    seq(|s|, i requires 0 <= i < |s| => LowerChar(s[i]))
  }

  function Upper(s: string): (r: string)
    ensures |r| == |s| && forall i :: 0 <= i < |s| ==> r[i] == UpperChar(s[i])
  {
    seq(|s|, i requires 0 <= i < |s| => UpperChar(s[i]))
  }

  // ---------- digits and padding ----------

  predicate IsDigit(c: char) { '0' <= c <= '9' }

  predicate AllDigits(s: string) { forall i :: 0 <= i < |s| ==> IsDigit(s[i]) }

  predicate AllZeros(s: string) { forall i :: 0 <= i < |s| ==> s[i] == '0' }

  /** String.padStart with "0". */
  function PadStart(s: string, width: nat): (r: string)
    ensures |r| == if |s| >= width then |s| else width
    ensures AllDigits(s) ==> AllDigits(r)
  {
    if |s| >= width then s else "0" + PadStart(s, width - 1)
  }

  /** String.padEnd with "0". */
  function PadEnd(s: string, width: nat): (r: string)
    ensures |r| == if |s| >= width then |s| else width
    ensures r[..|s|] == s && AllZeros(r[|s|..])
  {
    if |s| >= width then s else PadEnd(s, width - 1) + "0"
  }

  // ---------- white space ----------

  predicate IsSpace(c: char) {
    '\t' <= c <= '\r' || c == ' ' || c == '\U{00A0}' || c == '\U{1680}' || '\U{2000}' <= c <= '\U{200A}'
    || c == '\U{2028}' || c == '\U{2029}' || c == '\U{202F}' || c == '\U{205F}' || c == '\U{3000}' || c == '\U{FEFF}'
  }

  /** String.trim. */
  function Trim(s: string): string
  {
    if s == "" then ""
    else if IsSpace(s[0]) then Trim(s[1..])
    else if IsSpace(s[|s| - 1]) then Trim(s[..|s| - 1])
    else s
  }

  // ---------- dots ----------

  /** String.split("."). */
  function Split(s: string): (parts: seq<string>)
    ensures parts != []
    ensures '.' !in s ==> parts == [s]
  {
    if s == "" then [""]
    else
      var rest := Split(s[1..]);
      assert s == [s[0]] + s[1..];
      if s[0] == '.' then [""] + rest else [[s[0]] + rest[0]] + rest[1..]
  }

  /** Every part with a dot in front. */
  function DotJoin(parts: seq<string>): string
  {
    if parts == [] then "" else "." + (parts[0] + DotJoin(parts[1..]))
  }

  lemma DotJoinStep(first: string, rest: seq<string>)
    ensures DotJoin([first] + rest) == "." + (first + DotJoin(rest))
  {
    assert ([first] + rest)[1..] == rest;
  }

  lemma {:induction false} SplitAll(s: string)
    ensures DotJoin(Split(s)) == "." + s
  {
    if s == "" {
      assert [""] + [] == [""];
      DotJoinStep("", []);
    } else {
      var c, rest := s[0], Split(s[1..]);
      SplitAll(s[1..]);
      hide DotJoin;
      assert s == [c] + s[1..];
      if c == '.' {
        DotJoinStep("", rest);
        assert "" + DotJoin(rest) == DotJoin(rest);
      } else {
        assert rest == [rest[0]] + rest[1..];
        LetterInFront(c, rest[0], rest[1..], s[1..]);
      }
    }
  }

  lemma LetterInFront(c: char, first: string, rest: seq<string>, s: string)
    requires DotJoin([first] + rest) == "." + s
    ensures DotJoin([[c] + first] + rest) == "." + ([c] + s)
  {
    hide DotJoin;
    DotJoinStep([c] + first, rest);
    DotJoinStep(first, rest);
    AfterDot(first + DotJoin(rest), s);
    assert ([c] + first) + DotJoin(rest) == [c] + (first + DotJoin(rest));
  }

  lemma AfterDot(s: string, t: string)
    requires "." + s == "." + t
    ensures s == t
  {
    assert s == ("." + s)[1..] && t == ("." + t)[1..];
  }

  /** String.replace(/\./g, ""). */
  function RemoveDots(s: string): string
  {
    if s == "" then "" else (if s[0] == '.' then "" else [s[0]]) + RemoveDots(s[1..])
  }

  lemma {:induction false} SplitTwo(a: string, b: string)
    requires '.' !in a && '.' !in b
    ensures Split(a + "." + b) == [a, b]
  {
    var s := a + "." + b;
    if a == "" {
      assert s == "." + b && s[1..] == b;
      assert [""] + [b] == ["", b];
    } else {
      assert s[1..] == a[1..] + "." + b && s[0] == a[0];
      SplitTwo(a[1..], b);
      assert [a[0]] + a[1..] == a;
      assert [[s[0]] + a[1..]] + [b] == [a, b];
    }
  }

  /** Text of exactly two parts is the parts around its only dot. */
  lemma {:induction false} SplitJoins(s: string)
    ensures forall k :: 0 <= k < |Split(s)| ==> '.' !in Split(s)[k]
    ensures |Split(s)| == 1 ==> s == Split(s)[0]
    ensures |Split(s)| == 2 ==> s == Split(s)[0] + "." + Split(s)[1]
  {
    if s != "" {
      var rest := Split(s[1..]);
      SplitJoins(s[1..]);
      assert s == [s[0]] + s[1..];
      if s[0] == '.' {
        assert Split(s) == [""] + rest;
        assert |rest| == 1 ==> "" + "." + rest[0] == s;
      } else {
        assert Split(s) == [[s[0]] + rest[0]] + rest[1..];
        assert |rest| == 2 ==> [s[0]] + (rest[0] + "." + rest[1]) == ([s[0]] + rest[0]) + "." + rest[1];
      }
    }
  }

  lemma {:induction false} NoDotRemoved(s: string)
    requires '.' !in s
    ensures RemoveDots(s) == s
  {
    if s != "" {
      NoDotRemoved(s[1..]);
    }
  }

  lemma {:induction false} RemoveOneDot(a: string, b: string)
    requires '.' !in a && '.' !in b
    ensures RemoveDots(a + "." + b) == a + b
  {
    var s := a + "." + b;
    if a == "" {
      assert s == "." + b && s[1..] == b && a + b == b;
      NoDotRemoved(b);
    } else {
      assert s[1..] == a[1..] + "." + b && s[0] == a[0];
      RemoveOneDot(a[1..], b);
      assert a + b == [a[0]] + (a[1..] + b);
    }
  }

  /** Nothing else is taken out. */
  lemma {:induction false} DotsRemoved(s: string, t: string)
    ensures RemoveDots(s + t) == RemoveDots(s) + RemoveDots(t) && '.' !in RemoveDots(s)
  {
    if s == "" {
      assert s + t == t;
    } else {
      assert (s + t)[1..] == s[1..] + t;
      DotsRemoved(s[1..], t);
    }
  }

  /** White space at either end makes no difference to what is trimmed. */
  lemma {:induction false} SpaceTrimmed(s: string, c: char)
    requires IsSpace(c)
    ensures Trim([c] + s) == Trim(s) && Trim(s + [c]) == Trim(s)
    decreases |s|
  {
    assert ([c] + s)[1..] == s;
    if s == "" {
      assert "" + [c] == [c] + "" == [c];
    } else if IsSpace(s[0]) {
      assert (s + [c])[1..] == s[1..] + [c];
      SpaceTrimmed(s[1..], c);
    } else {
      assert (s + [c])[..|s|] == s;
    }
  }
}

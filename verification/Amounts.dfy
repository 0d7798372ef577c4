/**
 * Amounts of one token on chains with different decimals: scaling, removing dust, the wire format,
 * and the balance check between what is in custody and what has been minted.
 */
module Amounts {
  import opened Outcomes

  function Pow10(n: nat): (p: nat)
    ensures p >= 1
  {
    if n == 0 then 1 else 10 * Pow10(n - 1)
  }

  /** Integer division as bigints divide: towards zero. */
  function Quotient(a: int, b: nat): int
    requires b > 0
  {
    if a >= 0 then a / b else -((-a) / b)
  }

  function Scale(amount: int, fromDecimals: nat, toDecimals: nat): int
  {
    if fromDecimals == toDecimals then amount
    else if fromDecimals > toDecimals then Quotient(amount, Pow10(fromDecimals - toDecimals))
    else amount * Pow10(toDecimals - fromDecimals)
  }

  datatype Amount = Amount(units: nat, decimals: nat)

  datatype Trimmed = Trimmed(amount: int, decimals: int)

  function Min(a: nat, b: nat): nat { if a <= b then a else b }

  function Max(a: nat, b: nat): nat { if a >= b then a else b }

  const TRIMMED_DECIMALS: nat := 8

  /** The decimals a transfer between two tokens can carry. */
  function WireDecimals(source: nat, destination: nat): nat { Min(Min(source, destination), TRIMMED_DECIMALS) }

  /** The amount without dust: same decimals, the digits the wire cannot carry are zero. */
  function TrimAmount(amt: Amount, destination: nat): Amount
  {
    var keep := WireDecimals(amt.decimals, destination);
    Amount(amt.units - amt.units % Pow10(amt.decimals - keep), amt.decimals)
  }

  function Untrim(trimmed: Trimmed, toDecimals: nat): int
    requires trimmed.decimals >= 0
  {
    Scale(trimmed.amount, trimmed.decimals, toDecimals)
  }

  // ---------- the wire format ----------

  datatype RangeError = DecimalsOutOfRange | AmountOutOfRange

  function Encode(t: Trimmed): Result<nat, RangeError>
  {
    if t.decimals < 0 || t.decimals > 255 then Err(DecimalsOutOfRange)
    else if t.amount < 0 || t.amount >= 0x1_0000_0000_0000_0000 then Err(AmountOutOfRange)
    else Ok(t.amount * 256 + t.decimals)
  }

  function Decode(encoded: nat): (t: Trimmed)
    ensures 0 <= t.decimals <= 255 && t.amount >= 0
  {
    Trimmed(encoded / 256, encoded % 256)
  }

  /** Encoding and decoding are inverse: on all amounts in range, and on all uint72. */
  lemma WireRoundTrip(t: Trimmed, encoded: nat)
    ensures Encode(t).Ok? ==> Decode(Encode(t).value) == t && Encode(t).value < 0x100_0000_0000_0000_0000
    ensures encoded < 0x100_0000_0000_0000_0000 ==> Encode(Decode(encoded)) == Ok(encoded)
  {
    if Encode(t).Ok? {
      var e := t.amount * 256 + t.decimals;
      assert e / 256 == t.amount && e % 256 == t.decimals;
    }
    assert encoded / 256 * 256 + encoded % 256 == encoded;
  }

  // ---------- scaling ----------

  lemma {:induction false} Pow10Add(a: nat, b: nat)
    ensures Pow10(a + b) == Pow10(a) * Pow10(b) && Pow10(1) == 10
  {
    assert Pow10(1) == 10 * Pow10(0);
    if a > 0 {
      Pow10Add(a - 1, b);
      assert Pow10(a + b) == 10 * Pow10(a - 1 + b);
    }
  }

  lemma ExactDivision(u: int, m: nat)
    requires m > 0 && u >= 0
    ensures Quotient(u, m) * m == u - u % m
    ensures Quotient(u, m) * m == u <==> u % m == 0
  {
  }

  lemma Associate(a: int, b: int, c: int)
    ensures a * b * c == a * (b * c)
  {
  }

  /** The same value in a scale both can be brought to. */
  predicate SameValue(a: int, aDecimals: nat, b: int, bDecimals: nat, scale: nat)
    requires aDecimals <= scale && bDecimals <= scale
  {
    a * Pow10(scale - aDecimals) == b * Pow10(scale - bDecimals)
  }

  /** Scaling up keeps the value. */
  lemma ScaleUpExact(a: int, lo: nat, hi: nat, scale: nat)
    requires lo <= hi <= scale
    ensures SameValue(Scale(a, lo, hi), hi, a, lo, scale)
  {
    Pow10Add(hi - lo, scale - hi);
    Associate(a, Pow10(hi - lo), Pow10(scale - hi));
  }

  /** Division of two integers goes towards zero, from either side. */
  lemma TowardsZero(a: nat, m: nat)
    requires m > 0
    ensures 0 <= Quotient(a, m) && Quotient(a, m) * m <= a < Quotient(a, m) * m + m
    ensures Quotient(0 - a, m) == 0 - Quotient(a, m)
  {
    assert a == m * (a / m) + a % m;
    if a == 0 {
      assert 0 / m == 0;
    }
  }

  /** So does scaling down. */
  lemma ScaleTruncates(a: nat, hi: nat, lo: nat)
    requires lo < hi
    ensures var q, m := Scale(a, hi, lo), Pow10(hi - lo);
            0 <= q && q * m <= a < q * m + m && Scale(0 - a, hi, lo) == 0 - q
  {
    TowardsZero(a, Pow10(hi - lo));
    hide Pow10, Quotient;
  }

  /** Scaling down keeps the value exactly when there is no dust. */
  lemma ScaleDownExact(a: nat, hi: nat, lo: nat, scale: nat)
    requires lo <= hi <= scale
    ensures SameValue(Scale(a, hi, lo), lo, a, hi, scale) <==> a % Pow10(hi - lo) == 0
  {
    var m, n := Pow10(hi - lo), Pow10(scale - hi);
    var q := Quotient(a, m);
    ExactDivision(a, m);
    Pow10Add(hi - lo, scale - hi);
    Associate(q, m, n);
    if lo == hi {
      assert Pow10(0) == 1;
    } else {
      Cancel(q * m, a, n);
    }
  }

  lemma Cancel(a: int, b: int, n: int)
    requires n > 0
    ensures a * n == b * n <==> a == b
  {
    if a * n == b * n {
      assert (a - b) * n == 0;
    }
  }

  lemma TrimmedHasNoDust(amt: Amount, destination: nat)
    ensures var keep := WireDecimals(amt.decimals, destination);
            TrimAmount(amt, destination).units % Pow10(amt.decimals - keep) == 0
  {
    var m := Pow10(amt.decimals - WireDecimals(amt.decimals, destination));
    assert amt.units - amt.units % m == m * (amt.units / m);
    MultipleMod(amt.units / m, m);
  }

  lemma MultipleMod(q: int, m: nat)
    requires m > 0
    ensures (m * q) % m == 0
  {
    var d := q - (m * q) / m;
    assert d >= 1 ==> m * d >= m;
    assert d <= -1 ==> m * d + m <= 0;
    assert (m * q) % m == m * d;
  }

  /**
   * What is trimmed at the source arrives whole: scaled to the wire and on to the destination it
   * keeps its value, and it is the largest such amount not above the one asked for, which is that
   * amount itself exactly when it has no dust.
   */
  lemma TransferIsExact(amt: Amount, destination: nat, scale: nat)
    requires amt.decimals <= scale && destination <= scale
    ensures var sent := TrimAmount(amt, destination);
            var t := WireDecimals(amt.decimals, destination);
            var wire := Scale(sent.units, amt.decimals, t);
            && wire >= 0 && SameValue(wire, t, sent.units, amt.decimals, scale)
            && SameValue(Scale(wire, t, destination), destination, sent.units, amt.decimals, scale)
            && Scale(wire, t, amt.decimals) == sent.units
            && sent.units <= amt.units < sent.units + Pow10(amt.decimals - t)
            && (sent == amt <==> amt.units % Pow10(amt.decimals - t) == 0)
  {
    var t := WireDecimals(amt.decimals, destination);
    var sent := TrimAmount(amt, destination);
    TrimmedHasNoDust(amt, destination);
    ScaleDownExact(sent.units, amt.decimals, t, scale);
    var wire := Scale(sent.units, amt.decimals, t);
    ScaleUpExact(wire, t, destination, scale);
    ExactDivision(sent.units, Pow10(amt.decimals - t));
    assert Pow10(0) == 1;
    QuotientPositive(sent.units, Pow10(amt.decimals - t));
  }

  lemma QuotientPositive(a: nat, m: nat)
    requires m > 0
    ensures Quotient(a, m) >= 0
  {
  }

  lemma MultipleOfProduct(a: int, m: nat, n: nat)
    requires m > 0 && n > 0 && a % (m * n) == 0
    ensures a % m == 0
  {
    var q := a / (m * n);
    assert a == (m * n) * q;
    Associate(m, n, q);
    MultipleMod(n * q, m);
  }

  /** A whole number of units, in so many decimals. */
  predicate Whole(units: nat, decimals: nat, other: nat) {
    other >= decimals || units % Pow10(decimals - other) == 0
  }

  lemma WholeInFewer(units: nat, decimals: nat, few: nat, other: nat)
    requires few <= other && Whole(units, decimals, few)
    ensures Whole(units, decimals, other)
  {
    if other < decimals {
      Pow10Add(decimals - other, other - few);
      MultipleOfProduct(units, Pow10(decimals - other), Pow10(other - few));
    }
  }

  lemma NoMultipleBetween(u: nat, x: nat, m: nat)
    requires m > 0 && u - u % m < x <= u
    ensures x % m != 0
  {
    if x % m == 0 {
      NextMultiple(m, u / m, x / m);
    }
  }

  lemma NextMultiple(m: int, a: int, b: int)
    requires m > 0
    ensures b <= a ==> m * b <= m * a
    ensures b > a ==> m * b >= m * a + m
  {
    var d := b - a;
    assert m * b == m * a + m * d;
    assert d <= 0 ==> m * d <= 0;
    assert d >= 1 ==> m * d >= m;
  }

  /** Trimming gives the largest amount, up to the one asked for, that is whole in eight decimals and at both ends. */
  lemma LargestWhole(amt: Amount, destination: nat)
    ensures var sent := TrimAmount(amt, destination);
            && sent.decimals == amt.decimals && sent.units <= amt.units
            && Whole(sent.units, amt.decimals, 8) && Whole(sent.units, amt.decimals, destination)
            && forall x: nat :: sent.units < x <= amt.units ==>
                 !(Whole(x, amt.decimals, 8) && Whole(x, amt.decimals, destination))
    ensures var t := WireDecimals(amt.decimals, destination);
            t <= amt.decimals && t <= destination && t <= 8 && (t == amt.decimals || t == destination || t == 8)
  {
    var keep := WireDecimals(amt.decimals, destination);
    var sent := TrimAmount(amt, destination);
    TrimmedHasNoDust(amt, destination);
    WholeInFewer(sent.units, amt.decimals, keep, 8);
    WholeInFewer(sent.units, amt.decimals, keep, destination);
    assert Pow10(0) == 1;
    forall x: nat | sent.units < x <= amt.units
      ensures !(Whole(x, amt.decimals, 8) && Whole(x, amt.decimals, destination))
    {
      NoMultipleBetween(amt.units, x, Pow10(amt.decimals - keep));
    }
  }

  /** The quoted destination amount is the one that arrives. */
  lemma QuoteIsWhatArrives(amt: Amount, destination: nat)
    ensures var sent := TrimAmount(amt, destination);
            var t := WireDecimals(amt.decimals, destination);
            Scale(sent.units, amt.decimals, destination) == Scale(Scale(sent.units, amt.decimals, t), t, destination)
  {
    var sent := TrimAmount(amt, destination);
    var t := WireDecimals(amt.decimals, destination);
    var d := Max(amt.decimals, destination);
    TransferIsExact(amt, destination, d);
    if amt.decimals <= destination {
      ScaleUpExact(sent.units, amt.decimals, destination, d);
    } else {
      TrimmedHasNoDust(amt, destination);
      Pow10Add(amt.decimals - destination, destination - t);
      MultipleOfProduct(sent.units, Pow10(amt.decimals - destination), Pow10(destination - t));
      ScaleDownExact(sent.units, amt.decimals, destination, d);
    }
    Cancel(Scale(sent.units, amt.decimals, destination), Scale(Scale(sent.units, amt.decimals, t), t, destination),
           Pow10(d - destination));
  }

  // ---------- the balance check ----------

  // What the check is made of.

  /** A leg's raw balance, in its own decimals. */
  datatype Part = Part(raw: int, decimals: nat)

  function MaxDecimals(parts: seq<Part>): nat
    requires parts != []
  {
    if |parts| == 1 then parts[0].decimals else Max(parts[0].decimals, MaxDecimals(parts[1..]))
  }

  lemma {:induction false} MaxBounds(parts: seq<Part>)
    requires parts != []
    ensures forall i :: 0 <= i < |parts| ==> parts[i].decimals <= MaxDecimals(parts)
    ensures exists i :: 0 <= i < |parts| && parts[i].decimals == MaxDecimals(parts)
  {
    if |parts| > 1 {
      MaxBounds(parts[1..]);
      assert forall i :: 1 <= i < |parts| ==> parts[i] == parts[1..][i - 1];
      var i :| 0 <= i < |parts| - 1 && parts[1..][i].decimals == MaxDecimals(parts[1..]);
      assert parts[i + 1].decimals == MaxDecimals(parts[1..]);
    } else {
      assert parts[0].decimals == MaxDecimals(parts);
    }
  }

  ghost predicate Within(parts: seq<Part>, decimals: nat) {
    forall i :: 0 <= i < |parts| ==> parts[i].decimals <= decimals
  }

  /** The sum in a given scale. */
  function SumAt(parts: seq<Part>, decimals: nat): int
    requires Within(parts, decimals)
  {
    if parts == [] then 0 else
      var n := |parts| - 1;
      SumAt(parts[..n], decimals) + parts[n].raw * Pow10(decimals - parts[n].decimals)
  }

  /** Nothing sums to nothing; with SumUpdated, which changes one part, this is what the sum is. */
  lemma {:induction false} SumOfNothing(parts: seq<Part>, decimals: nat)
    requires Within(parts, decimals) && forall i :: 0 <= i < |parts| ==> parts[i].raw == 0
    ensures SumAt(parts, decimals) == 0
  {
    if parts != [] {
      SumOfNothing(parts[..|parts| - 1], decimals);
    }
  }

  function SumScaled(parts: seq<Part>): Part
    requires parts != []
  {
    MaxBounds(parts);
    Part(SumAt(parts, MaxDecimals(parts)), MaxDecimals(parts))
  }

  function Delta(a: Part, b: Part): Part
  {
    var decimals := Max(a.decimals, b.decimals);
    Part(a.raw * Pow10(decimals - a.decimals) - b.raw * Pow10(decimals - b.decimals), decimals)
  }

  lemma {:induction false} SumRescaled(parts: seq<Part>, lo: nat, hi: nat)
    requires Within(parts, lo) && lo <= hi
    ensures SumAt(parts, lo) * Pow10(hi - lo) == SumAt(parts, hi)
  {
    if parts != [] {
      var n := |parts| - 1;
      SumRescaled(parts[..n], lo, hi);
      Pow10Add(lo - parts[n].decimals, hi - lo);
      Associate(parts[n].raw, Pow10(lo - parts[n].decimals), Pow10(hi - lo));
      Distribute(SumAt(parts[..n], lo), parts[n].raw * Pow10(lo - parts[n].decimals), Pow10(hi - lo));
    }
  }

  lemma Distribute(a: int, b: int, c: int)
    ensures (a + b) * c == a * c + b * c
  {
  }

  /** The reported difference is the difference of the two sums in the finest scale of all legs. */
  lemma DeltaOfSums(custody: seq<Part>, supply: seq<Part>)
    requires custody != [] && supply != []
    ensures var d := Max(MaxDecimals(custody), MaxDecimals(supply));
            && Within(custody, d) && Within(supply, d)
            && Delta(SumScaled(custody), SumScaled(supply)) == Part(SumAt(custody, d) - SumAt(supply, d), d)
  {
    MaxBounds(custody);
    MaxBounds(supply);
    var d := Max(MaxDecimals(custody), MaxDecimals(supply));
    SumRescaled(custody, MaxDecimals(custody), d);
    SumRescaled(supply, MaxDecimals(supply), d);
  }

  // ---------- runs of transfers ----------

  /** A locking leg, by its custody, or a burning leg, by its supply. */
  datatype Leg = Custody(i: nat) | Supply(i: nat)

  /** A transfer on its way: the encoded amount, and the leg it goes to. */
  datatype Message = Message(encoded: nat, destination: Leg)

  datatype Bridge = Bridge(custody: seq<Part>, supply: seq<Part>, flying: seq<Message>)

  datatype Step = Send(source: Leg, destination: Leg, units: nat) | Deliver(k: nat)

  predicate IsLeg(b: Bridge, leg: Leg) {
    match leg case Custody(i) => i < |b.custody| case Supply(i) => i < |b.supply|
  }

  function PartOf(b: Bridge, leg: Leg): Part
    requires IsLeg(b, leg)
  {
    match leg case Custody(i) => b.custody[i] case Supply(i) => b.supply[i]
  }

  function SetRaw(b: Bridge, leg: Leg, raw: int): Bridge
    requires IsLeg(b, leg)
  {
    match leg
    case Custody(i) => b.(custody := b.custody[i := b.custody[i].(raw := raw)])
    case Supply(i) => b.(supply := b.supply[i := b.supply[i].(raw := raw)])
  }

  /** Locking adds to custody, burning takes from supply; a burn beyond the supply is refused. */
  function Leave(b: Bridge, leg: Leg, units: nat): Option<Bridge>
    requires IsLeg(b, leg)
  {
    var part := PartOf(b, leg);
    if leg.Custody? then Some(SetRaw(b, leg, part.raw + units))
    else if part.raw < units then None
    else Some(SetRaw(b, leg, part.raw - units))
  }

  /** Unlocking takes from custody, minting adds to supply; an unlock beyond custody is refused. */
  function Arrive(b: Bridge, leg: Leg, units: int): Option<Bridge>
    requires IsLeg(b, leg)
  {
    var part := PartOf(b, leg);
    if leg.Supply? then Some(SetRaw(b, leg, part.raw + units))
    else if part.raw < units then None
    else Some(SetRaw(b, leg, part.raw - units))
  }

  /** An amount leaves a leg and is put on the wire; both may be refused. */
  function Depart(b: Bridge, source: Leg, destination: Leg, sent: nat, encoded: Result<nat, RangeError>): Bridge
    requires IsLeg(b, source)
  {
    if encoded.Err? then b
    else
      match Leave(b, source, sent)
      case None => b
      case Some(b') => b'.(flying := b'.flying + [Message(encoded.value, destination)])
  }

  /** What a transfer of so many units between two tokens sends, and how it is written on the wire. */
  function Sending(units: nat, from: nat, to: nat): (nat, Result<nat, RangeError>)
  {
    var sent := TrimAmount(Amount(units, from), to).units;
    var t := WireDecimals(from, to);
    (sent, Encode(Trimmed(Scale(sent, from, t), t)))
  }

  /** One step; a step that cannot be taken, or is refused, changes nothing. */
  function Take(b: Bridge, step: Step): Bridge
  {
    match step
    case Send(source, destination, units) =>
      if !IsLeg(b, source) || !IsLeg(b, destination) then b
      else
        var (sent, encoded) := Sending(units, PartOf(b, source).decimals, PartOf(b, destination).decimals);
        Depart(b, source, destination, sent, encoded)
    case Deliver(k) =>
      if k >= |b.flying| || !IsLeg(b, b.flying[k].destination) then b
      else
        var m := b.flying[k];
        (match Arrive(b, m.destination, Untrim(Decode(m.encoded), PartOf(b, m.destination).decimals))
         case None => b
         case Some(b') => b'.(flying := b'.flying[..k] + b'.flying[k + 1..]))
  }

  function Run(b: Bridge, steps: seq<Step>): Bridge
  {
    if steps == [] then b else Take(Run(b, steps[..|steps| - 1]), steps[|steps| - 1])
  }

  /** The leg's balance once so much has been added to it or taken from it; all else is as before. */
  ghost predicate OnlyMoves(b: Bridge, b': Bridge, leg: Leg, change: int)
    requires IsLeg(b, leg)
  {
    && |b'.custody| == |b.custody| && |b'.supply| == |b.supply|
    && forall other :: IsLeg(b, other) ==>
         && PartOf(b', other).decimals == PartOf(b, other).decimals
         && PartOf(b', other).raw == PartOf(b, other).raw + if other == leg then change else 0
  }

  /**
   * A transfer between two legs that fits the wire, and the supply it burns from, moves exactly the trimmed
   * amount and puts its wire form in flight; any other changes nothing.
   */
  lemma SendMoves(b: Bridge, source: Leg, destination: Leg, units: nat)
    requires IsLeg(b, source) && IsLeg(b, destination)
    ensures var from, to := PartOf(b, source).decimals, PartOf(b, destination).decimals;
            var sent: int := TrimAmount(Amount(units, from), to).units;
            var wire := Scale(sent, from, WireDecimals(from, to));
            var b' := Take(b, Send(source, destination, units));
            if WireDecimals(from, to) <= 255 && 0 <= wire < 0x1_0000_0000_0000_0000
               && (source.Supply? ==> sent <= PartOf(b, source).raw) then
              && OnlyMoves(b, b', source, if source.Custody? then sent else -sent)
              && b'.flying == b.flying + [Message(wire * 256 + WireDecimals(from, to), destination)]
            else b' == b
  {
    hide Scale, TrimAmount, Pow10;
  }

  /** A message arrives at its leg, scaled to it; unlocking more than is in custody changes nothing. */
  lemma DeliverMoves(b: Bridge, k: nat)
    requires k < |b.flying| && IsLeg(b, b.flying[k].destination)
    ensures var leg, t := b.flying[k].destination, Decode(b.flying[k].encoded);
            var units := Scale(t.amount, t.decimals, PartOf(b, leg).decimals);
            var b' := Take(b, Deliver(k));
            if leg.Custody? && PartOf(b, leg).raw < units then b' == b
            else
              && OnlyMoves(b, b', leg, if leg.Custody? then -units else units)
              && b'.flying == b.flying[..k] + b.flying[k + 1..]
  {
    hide Scale, Pow10;
  }

  // ---------- conservation ----------

  /** The value of what is in flight, in a given scale. */
  function Flying(messages: seq<Message>, decimals: nat): int
    requires forall k :: 0 <= k < |messages| ==> Decode(messages[k].encoded).decimals <= decimals
  {
    if messages == [] then 0 else
      var n := |messages| - 1;
      var t := Decode(messages[n].encoded);
      Flying(messages[..n], decimals) + t.amount * Pow10(decimals - t.decimals)
  }

  function Scales(b: Bridge): nat
    requires b.custody != [] && b.supply != []
  {
    Max(MaxDecimals(b.custody), MaxDecimals(b.supply))
  }

  /** Messages fit the legs they go to. */
  ghost predicate Valid(b: Bridge) {
    && b.custody != [] && b.supply != []
    && Within(b.custody, Scales(b)) && Within(b.supply, Scales(b))
    && (forall k :: 0 <= k < |b.flying| ==>
          && IsLeg(b, b.flying[k].destination)
          && Decode(b.flying[k].encoded).decimals <= PartOf(b, b.flying[k].destination).decimals
          && Decode(b.flying[k].encoded).decimals <= Scales(b))
  }

  function Balance(b: Bridge): int
    requires Valid(b)
  {
    SumAt(b.custody, Scales(b)) - SumAt(b.supply, Scales(b))
  }

  lemma {:induction false} SumUpdated(parts: seq<Part>, i: nat, raw: int, decimals: nat)
    requires Within(parts, decimals) && i < |parts|
    ensures var updated := parts[i := parts[i].(raw := raw)];
            && Within(updated, decimals)
            && SumAt(updated, decimals) ==
              SumAt(parts, decimals) + (raw - parts[i].raw) * Pow10(decimals - parts[i].decimals)
  {
    var n := |parts| - 1;
    var updated := parts[i := parts[i].(raw := raw)];
    if i == n {
      assert updated[..n] == parts[..n];
      Distribute(raw - parts[i].raw, parts[i].raw, Pow10(decimals - parts[i].decimals));
    } else {
      SumUpdated(parts[..n], i, raw, decimals);
      assert updated[..n] == parts[..n][i := parts[..n][i].(raw := raw)];
    }
  }

  lemma {:induction false} MaxUpdated(parts: seq<Part>, i: nat, raw: int)
    requires i < |parts|
    ensures MaxDecimals(parts[i := parts[i].(raw := raw)]) == MaxDecimals(parts)
  {
    var updated := parts[i := parts[i].(raw := raw)];
    if |parts| > 1 {
      if i == 0 {
        assert updated[1..] == parts[1..];
      } else {
        assert updated[1..] == parts[1..][i - 1 := parts[1..][i - 1].(raw := raw)];
        MaxUpdated(parts[1..], i - 1, raw);
      }
    }
  }

  /** Setting one leg's balance moves the difference by its change in value. */
  lemma SetRawBalance(b: Bridge, leg: Leg, raw: int)
    requires Valid(b) && IsLeg(b, leg)
    ensures var b' := SetRaw(b, leg, raw);
            var change := (raw - PartOf(b, leg).raw) * Pow10(Scales(b) - PartOf(b, leg).decimals);
            && Valid(b') && b'.flying == b.flying && Scales(b') == Scales(b)
            && (forall other :: IsLeg(b, other) <==> IsLeg(b', other))
            && (forall other :: IsLeg(b, other) ==> PartOf(b', other).decimals == PartOf(b, other).decimals)
            && Balance(b') == Balance(b) + (if leg.Custody? then change else -change)
  {
    match leg
    case Custody(i) =>
      SumUpdated(b.custody, i, raw, Scales(b));
      MaxUpdated(b.custody, i, raw);
    case Supply(i) =>
      SumUpdated(b.supply, i, raw, Scales(b));
      MaxUpdated(b.supply, i, raw);
  }

  lemma {:induction false} FlyingRemoved(messages: seq<Message>, k: nat, decimals: nat)
    requires forall j :: 0 <= j < |messages| ==> Decode(messages[j].encoded).decimals <= decimals
    requires k < |messages|
    ensures var t := Decode(messages[k].encoded);
            Flying(messages[..k] + messages[k + 1..], decimals)
            == Flying(messages, decimals) - t.amount * Pow10(decimals - t.decimals)
  {
    var n := |messages| - 1;
    if k == n {
      assert messages[..k] + messages[k + 1..] == messages[..n];
    } else {
      var rest := messages[..k] + messages[k + 1..];
      assert rest[..n - 1] == messages[..n][..k] + messages[..n][k + 1..];
      assert rest[n - 1] == messages[n];
      FlyingRemoved(messages[..n], k, decimals);
    }
  }

  lemma FlyingAdded(messages: seq<Message>, m: Message, decimals: nat)
    requires forall j :: 0 <= j < |messages| ==> Decode(messages[j].encoded).decimals <= decimals
    requires Decode(m.encoded).decimals <= decimals
    ensures var t := Decode(m.encoded);
            Flying(messages + [m], decimals) == Flying(messages, decimals) + t.amount * Pow10(decimals - t.decimals)
  {
    assert (messages + [m])[..|messages|] == messages;
  }

  lemma HasLegs(b: Bridge)
    requires Valid(b)
    ensures b.custody != [] && b.supply != []
  {
  }

  lemma LegWithin(b: Bridge, leg: Leg)
    requires Valid(b) && IsLeg(b, leg)
    ensures PartOf(b, leg).decimals <= Scales(b)
  {
  }

  /** The two conserved quantities: the balance, and what is in flight. */
  ghost predicate Conserved(b: Bridge, b': Bridge)
    requires Valid(b)
  {
    && Valid(b') && Scales(b') == Scales(b)
    && Balance(b') - Flying(b'.flying, Scales(b)) == Balance(b) - Flying(b.flying, Scales(b))
  }

  /** Balances moved, everything else as before. */
  ghost predicate Moved(b: Bridge, b': Bridge, change: int)
    requires Valid(b)
  {
    && Valid(b') && b'.flying == b.flying && Scales(b') == Scales(b)
    && (forall other :: IsLeg(b, other) ==> IsLeg(b', other) && PartOf(b', other).decimals == PartOf(b, other).decimals)
    && Balance(b') == Balance(b) + change
  }

  lemma LeaveMoves(b: Bridge, leg: Leg, units: nat)
    requires Valid(b) && IsLeg(b, leg) && Leave(b, leg, units).Some?
    ensures PartOf(b, leg).decimals <= Scales(b)
    ensures Moved(b, Leave(b, leg, units).value, units * Pow10(Scales(b) - PartOf(b, leg).decimals))
  {
    hide MaxDecimals, SumAt, Flying, Pow10, SetRaw, Decode, Valid, Balance, Scales;
    HasLegs(b);
    LegWithin(b, leg);
    var part := PartOf(b, leg);
    SetRawBalance(b, leg, if leg.Custody? then part.raw + units else part.raw - units);
    Negated(units, Pow10(Scales(b) - part.decimals));
  }

  lemma ArriveMoves(b: Bridge, leg: Leg, units: int)
    requires Valid(b) && IsLeg(b, leg) && Arrive(b, leg, units).Some?
    ensures PartOf(b, leg).decimals <= Scales(b)
    ensures Moved(b, Arrive(b, leg, units).value, -(units * Pow10(Scales(b) - PartOf(b, leg).decimals)))
  {
    hide MaxDecimals, SumAt, Flying, Pow10, SetRaw, Decode, Valid, Balance, Scales;
    HasLegs(b);
    LegWithin(b, leg);
    var part := PartOf(b, leg);
    SetRawBalance(b, leg, if leg.Supply? then part.raw + units else part.raw - units);
    Negated(units, Pow10(Scales(b) - part.decimals));
  }

  /** What is put on the wire decodes to an amount worth exactly what is sent. */
  lemma WireCarriesSent(units: nat, from: nat, to: nat, scale: nat)
    requires from <= scale && to <= scale
    ensures var (sent, encoded) := Sending(units, from, to);
            encoded.Ok? ==>
              var d := Decode(encoded.value);
              && d.decimals <= to && d.decimals <= scale
              && d.amount * Pow10(scale - d.decimals) == sent * Pow10(scale - from)
  {
    var sent := TrimAmount(Amount(units, from), to).units;
    var t := WireDecimals(from, to);
    TransferIsExact(Amount(units, from), to, scale);
    hide Scale, TrimAmount, Pow10;
    WireRoundTrip(Trimmed(Scale(sent, from, t), t), 0);
  }

  lemma DepartConserves(b: Bridge, source: Leg, destination: Leg, sent: nat, encoded: Result<nat, RangeError>)
    requires Valid(b) && IsLeg(b, source) && IsLeg(b, destination) && PartOf(b, source).decimals <= Scales(b)
    requires encoded.Ok? ==>
               var d := Decode(encoded.value);
               && d.decimals <= PartOf(b, destination).decimals && d.decimals <= Scales(b)
               && d.amount * Pow10(Scales(b) - d.decimals) == sent * Pow10(Scales(b) - PartOf(b, source).decimals)
    ensures Conserved(b, Depart(b, source, destination, sent, encoded))
  {
    hide MaxDecimals, SumAt, Flying, Pow10, SetRaw, Decode, Valid, Balance, Scales, Leave;
    HasLegs(b);
    if encoded.Ok? && Leave(b, source, sent).Some? {
      LeaveMoves(b, source, sent);
      Sent(b, Leave(b, source, sent).value, Message(encoded.value, destination));
    }
  }

  lemma Negated(a: int, b: int)
    ensures (-a) * b == -(a * b)
  {
  }

  lemma Sent(b: Bridge, b1: Bridge, m: Message)
    requires Valid(b) && Valid(b1) && b1.flying == b.flying && Scales(b1) == Scales(b) && IsLeg(b1, m.destination)
    requires Decode(m.encoded).decimals <= PartOf(b1, m.destination).decimals && Decode(m.encoded).decimals <= Scales(b)
    ensures var b2 := b1.(flying := b1.flying + [m]);
            var t := Decode(m.encoded);
            && Valid(b2) && Scales(b2) == Scales(b) && Balance(b2) == Balance(b1)
            && Flying(b2.flying, Scales(b)) == Flying(b.flying, Scales(b)) + t.amount * Pow10(Scales(b) - t.decimals)
  {
    FlyingAdded(b.flying, m, Scales(b));
  }

  lemma Delivered(b: Bridge, b1: Bridge, k: nat)
    requires Valid(b) && Valid(b1) && b1.flying == b.flying && Scales(b1) == Scales(b) && k < |b.flying|
    ensures var b2 := b1.(flying := b1.flying[..k] + b1.flying[k + 1..]);
            var t := Decode(b.flying[k].encoded);
            && Valid(b2) && Scales(b2) == Scales(b) && Balance(b2) == Balance(b1)
            && t.decimals <= Scales(b)
            && Flying(b2.flying, Scales(b)) == Flying(b.flying, Scales(b)) - t.amount * Pow10(Scales(b) - t.decimals)
  {
    FlyingRemoved(b.flying, k, Scales(b));
  }

  lemma DeliverConserves(b: Bridge, k: nat)
    requires Valid(b)
    ensures Conserved(b, Take(b, Deliver(k)))
  {
    hide Scale, MaxDecimals, SumAt, Flying, Pow10, SetRaw, Decode, Valid, Balance, Scales, Arrive;
    HasLegs(b);
    if k < |b.flying| && IsLeg(b, b.flying[k].destination) {
      var m := b.flying[k];
      var t := Decode(m.encoded);
      LegWithin(b, m.destination);
      var part := PartOf(b, m.destination);
      MessageFits(b, k);
      ScaleUpExact(t.amount, t.decimals, part.decimals, Scales(b));
      var units := Untrim(t, part.decimals);
      if Arrive(b, m.destination, units).Some? {
        ArriveMoves(b, m.destination, units);
        Delivered(b, Arrive(b, m.destination, units).value, k);
      }
    }
  }

  lemma MessageFits(b: Bridge, k: nat)
    requires Valid(b) && k < |b.flying|
    ensures IsLeg(b, b.flying[k].destination)
    ensures Decode(b.flying[k].encoded).decimals <= PartOf(b, b.flying[k].destination).decimals
  {
  }

  /** Over any run of transfers, the reported difference is its start value plus what is in flight. */
  lemma {:induction false} RunConserves(b: Bridge, steps: seq<Step>)
    requires Valid(b)
    ensures Conserved(b, Run(b, steps))
  {
    hide Valid, Balance, Flying, Scales, Sending, Depart, Decode, Pow10;
    if steps != [] {
      var n := |steps| - 1;
      RunConserves(b, steps[..n]);
      match steps[n]
      case Send(source, destination, units) =>
        var now := Run(b, steps[..n]);
        if IsLeg(now, source) && IsLeg(now, destination) {
          HasLegs(now);
          LegWithin(now, source);
          LegWithin(now, destination);
          var from, to := PartOf(now, source).decimals, PartOf(now, destination).decimals;
          var (sent, encoded) := Sending(units, from, to);
          WireCarriesSent(units, from, to, Scales(now));
          DepartConserves(now, source, destination, sent, encoded);
        }
      case Deliver(k) => DeliverConserves(Run(b, steps[..n]), k);
    }
  }

  /** What the check reports: starting with nothing in flight, it moves by exactly what is in flight. */
  lemma CheckReportsInFlight(b: Bridge, steps: seq<Step>)
    requires Valid(b) && b.flying == []
    ensures var b' := Run(b, steps);
            && Valid(b')
            && Delta(SumScaled(b'.custody), SumScaled(b'.supply)).raw ==
                 Delta(SumScaled(b.custody), SumScaled(b.supply)).raw + Flying(b'.flying, Scales(b'))
            && Delta(SumScaled(b'.custody), SumScaled(b'.supply)).decimals == Scales(b)
  {
    hide Run, Delta, SumScaled, MaxDecimals;
    RunConserves(b, steps);
    DeltaOfSums(b.custody, b.supply);
    DeltaOfSums(Run(b, steps).custody, Run(b, steps).supply);
  }
}

/** Where the fields of each payload stand, byte by byte. */
module PayloadOffsets {
  import opened Bytes
  import opened Outcomes
  import opened Wire
  import opened XrplPayloads
  import Vaa
  import Xrel

  lemma Slices(s: seq<Byte>, a: nat, n: nat)
    requires a + n <= |s|
    ensures Drop(s, a) == s[a..] && Take(s[a..], n) == s[a..a + n] && Drop(s[a..], n) == s[a + n..]
    ensures Uint(s[a..], n) == Ok((Number(s[a..a + n]), s[a + n..]))
  {
    assert s[a..][..n] == s[a..a + n] && s[a..][n..] == s[a + n..];
  }

  lemma OneByte(s: seq<Byte>, a: nat)
    requires a < |s|
    ensures Number(s[a..a + 1]) == s[a]
  {
    assert s[a..a + 1] == [s[a]];
    Xrel.KindByte(s[a], []);
    assert [s[a]] + [] == [s[a]];
  }

  /** A release: ticket, custody, recipient, amount, decimals, chain, emitter and sequence. */
  lemma ReleaseHead(b: seq<Byte>)
    requires Xrel.Parse(b).Ok?
    ensures |b| >= 106
    ensures var r := Xrel.Parse(b).value.0;
            && r.ticket == Number(b[4..12]) && r.custody == b[12..32] && r.recipient == b[32..52]
            && r.amount == Number(b[52..60]) && r.decimals == b[60] && r.chain == Number(b[61..63])
            && r.emitter == b[63..95] && r.sequence == Number(b[95..103])
  {
    HeadOffsets(b);
    hide Xrel.ParseHead;
  }

  lemma HeadOffsets(b: seq<Byte>)
    requires |b| >= 106
    ensures var z := b[103..];
            Xrel.ParseHead(b[4..]) ==
              Ok((Xrel.Release(Number(b[4..12]), b[12..32], b[32..52], Number(b[52..60]), b[60], Number(b[61..63]),
                               b[63..95], Number(b[95..103]), Xrel.Xrp, []), z))
  {
    Slices(b, 4, 8);
    Slices(b, 12, 20);
    Slices(b, 32, 20);
    Slices(b, 52, 8);
    Slices(b, 60, 1);
    OneByte(b, 60);
    Slices(b, 61, 2);
    Slices(b, 63, 32);
    Slices(b, 95, 8);
    hide Uint, Take, Drop, Number;
  }

  /** Its token, by the kind at byte 103. */
  lemma ReleaseToken(b: seq<Byte>)
    requires Xrel.Parse(b).Ok?
    ensures |b| >= 106 && b[103] <= 2
    ensures var t := Xrel.Parse(b).value.0.token;
            && (b[103] == 0 ==> t == Xrel.Xrp)
            && (b[103] == 1 ==> |b| >= 144 && t == Xrel.Iou(b[104..124], b[124..144]))
            && (b[103] == 2 ==> |b| >= 128 && t == Xrel.Mpt(b[104..128]))
  {
    HeadOffsets(b);
    hide Xrel.ParseHead, Xrel.ParseToken;
    TokenAt(b);
  }

  lemma TokenAt(b: seq<Byte>)
    requires |b| > 103 && Xrel.ParseToken(b[103..]).Ok?
    ensures b[103] <= 2
    ensures var t := Xrel.ParseToken(b[103..]).value.0;
            && (b[103] == 0 ==> t == Xrel.Xrp)
            && (b[103] == 1 ==> |b| >= 144 && t == Xrel.Iou(b[104..124], b[124..144]))
            && (b[103] == 2 ==> |b| >= 128 && t == Xrel.Mpt(b[104..128]))
  {
    Slices(b, 103, 1);
    OneByte(b, 103);
    hide Uint, Number;
    var s := b[104..];
    assert |s| >= 40 ==> s[..20] == b[104..124] && s[20..40] == b[124..144];
    assert |s| >= 24 ==> s[..24] == b[104..128];
  }

  /** Where a block after its length of two bytes ends; only the length has to be there. */
  function BlockEnd(b: seq<Byte>, at: nat): (end: Option<nat>)
    requires at <= |b|
    ensures end.Some? ==> end.value <= |b|
  {
    if at + 2 > |b| then None
    else
      var end := at + 2 + Number(b[at..at + 2]);
      Some(if end <= |b| then end else |b|)
  }

  function BlocksEnd(b: seq<Byte>, at: nat, blocks: nat): (end: Option<nat>)
    requires at <= |b|
    ensures end.Some? ==> end.value <= |b|
    decreases blocks
  {
    if blocks == 0 then Some(at)
    else
      match BlockEnd(b, at) case None => None case Some(next) => BlocksEnd(b, next, blocks - 1)
  }

  function TokenEnd(kind: Byte): nat { if kind == 1 then 144 else if kind == 2 then 128 else 104 }

  /** The memos can be read: as many as the two bytes after the token say. */
  predicate MemosThere(b: seq<Byte>, at: nat) {
    at + 2 <= |b| && BlocksEnd(b, at + 2, 3 * Number(b[at..at + 2])).Some?
  }

  /** Exactly which buffers are refused, and why. */
  lemma ReleaseRefused(b: seq<Byte>)
    ensures Xrel.Parse(b) == Err(TooShort) <==>
              |b| < 106 || (HasPrefix(b, "XREL") && b[103] <= 2 && |b| < TokenEnd(b[103]))
    ensures Xrel.Parse(b) == Err(BadPrefix) <==> |b| >= 106 && !HasPrefix(b, "XREL")
    ensures Xrel.Parse(b) == Err(BadTokenType) <==> |b| >= 106 && HasPrefix(b, "XREL") && b[103] > 2
    ensures Xrel.Parse(b).Ok? <==>
              && |b| >= 106 && HasPrefix(b, "XREL") && b[103] <= 2
              && TokenEnd(b[103]) <= |b| && MemosThere(b, TokenEnd(b[103]))
  {
    if |b| >= 106 && HasPrefix(b, "XREL") {
      HeadOffsets(b);
      hide Xrel.ParseHead, Xrel.ParseToken, Xrel.ParseMemos, BlocksEnd, Number, TokenEnd;
      TokenRefused(b);
      if b[103] <= 2 && TokenEnd(b[103]) <= |b| {
        var at := TokenEnd(b[103]);
        if at + 2 <= |b| {
          Slices(b, at, 2);
          MemosRead(b, at + 2, Number(b[at..at + 2]));
        }
      }
    }
  }

  lemma TokenRefused(b: seq<Byte>)
    requires |b| > 103
    ensures Xrel.ParseToken(b[103..]) == Err(BadTokenType) <==> b[103] > 2
    ensures Xrel.ParseToken(b[103..]) == Err(TooShort) <==> b[103] <= 2 && |b| < TokenEnd(b[103])
    ensures Xrel.ParseToken(b[103..]).Ok? <==> b[103] <= 2 && TokenEnd(b[103]) <= |b|
    ensures Xrel.ParseToken(b[103..]).Ok? ==> Xrel.ParseToken(b[103..]).value.1 == b[TokenEnd(b[103])..]
  {
    Slices(b, 103, 1);
    OneByte(b, 103);
    hide Uint, Number;
    var s := b[104..];
    assert |s| >= 40 ==> s[40..] == b[144..];
    assert |s| >= 24 ==> s[24..] == b[128..];
  }

  lemma BlockRead(b: seq<Byte>, at: nat)
    requires at <= |b|
    ensures Uint(b[at..], 2).Ok? <==> BlockEnd(b, at).Some?
    ensures var size := Uint(b[at..], 2);
            size.Ok? ==> Drop(size.value.1, size.value.0) == b[BlockEnd(b, at).value..]
  {
    if at + 2 <= |b| {
      Slices(b, at, 2);
      hide Number;
      var size := Number(b[at..at + 2]);
      assert at + 2 + size <= |b| ==> b[at + 2..][size..] == b[at + 2 + size..];
    }
  }

  lemma {:induction false} BlocksSplit(b: seq<Byte>, at: nat, first: nat, others: nat)
    requires at <= |b|
    ensures BlocksEnd(b, at, first + others) ==
              match BlocksEnd(b, at, first) case None => None case Some(end) => BlocksEnd(b, end, others)
    decreases first
  {
    hide BlockEnd;
    if first > 0 && BlockEnd(b, at).Some? {
      BlocksSplit(b, BlockEnd(b, at).value, first - 1, others);
    }
  }

  lemma MemoRead(b: seq<Byte>, at: nat, others: nat)
    requires at <= |b|
    ensures var end := BlocksEnd(b, at, 3);
            && (Xrel.ParseMemo(b[at..]).Ok? <==> end.Some?)
            && (end.Some? ==>
                  && Xrel.ParseMemo(b[at..]).value.1 == b[end.value..]
                  && BlocksEnd(b, at, others + 3) == BlocksEnd(b, end.value, others))
            && (end == None ==>
                  Xrel.ParseMemo(b[at..]) == Err(OutOfRange) && BlocksEnd(b, at, others + 3) == None)
  {
    BlocksSplit(b, at, 3, others);
    BlockRead(b, at);
    hide Uint, Drop, Take, BlockEnd;
    if BlockEnd(b, at).Some? {
      var second := BlockEnd(b, at).value;
      BlockRead(b, second);
      if BlockEnd(b, second).Some? {
        BlockRead(b, BlockEnd(b, second).value);
      }
    }
  }

  lemma {:induction false} MemosRead(b: seq<Byte>, at: nat, count: nat)
    requires at <= |b|
    ensures Xrel.ParseMemos(b[at..], count).Ok? <==> BlocksEnd(b, at, 3 * count).Some?
    ensures Xrel.ParseMemos(b[at..], count).Err? ==> Xrel.ParseMemos(b[at..], count).error == OutOfRange
    decreases count
  {
    hide Xrel.ParseMemo, BlockEnd;
    if count > 0 {
      var others := count - 1;
      MemoRead(b, at, 3 * others);
      assert 3 * others + 3 == 3 * count;
      var end := BlocksEnd(b, at, 3);
      hide BlocksEnd;
      if end.Some? {
        MemosRead(b, end.value, others);
      }
    }
  }

  /** A memo: its data, its format and its type, each after its length. */
  lemma MemoFields(data: seq<Byte>, format: seq<Byte>, kind: seq<Byte>, z: seq<Byte>)
    requires |data| < 65536 && |format| < 65536 && |kind| < 65536
    ensures Xrel.ParseMemo(BigEndian(|data|, 2) + (data + (BigEndian(|format|, 2) + (format
                           + (BigEndian(|kind|, 2) + (kind + z)))))) == Ok((Xrel.Memo(data, format, kind), z))
  {
    assert Limit(2) == Limit(1) * 256 && Limit(1) == Limit(0) * 256;
    Xrel.MemoReads(Xrel.Memo(data, format, kind), z);
    hide Xrel.ParseMemo, BigEndian;
  }

  /** The other payloads of fixed layout. */
  lemma RefillFields(b: seq<Byte>)
    ensures ParseRefill(b).Ok? <==> |b| >= 40 && HasPrefix(b, "XRFL")
    ensures ParseRefill(b) == Err(TooShort) <==> |b| < 40
    ensures ParseRefill(b) == Err(BadPrefix) <==> |b| >= 40 && !HasPrefix(b, "XRFL")
    ensures ParseRefill(b).Ok? ==>
              ParsePayload(b) == RefillPayload(Refill(b[4..24], Number(b[24..32]), Number(b[32..40])))
  {
    DispatchIsExact(b);
    hide ParsePayload;
  }

  lemma AdminFields(b: seq<Byte>)
    ensures ParseAdmin(b).Ok? <==>
              && |b| >= 25 && HasPrefix(b, "XADM") && (b[4] == 1 ==> |b| >= 59) && (b[4] == 2 ==> |b| >= 45)
    ensures ParseAdmin(b) == Err(TooShort) <==>
              || |b| < 25
              || (HasPrefix(b, "XADM") && ((b[4] == 1 && |b| < 59) || (b[4] == 2 && |b| < 45)))
    ensures ParseAdmin(b) == Err(BadPrefix) <==> |b| >= 25 && !HasPrefix(b, "XADM")
    ensures ParseAdmin(b).Ok? ==>
              ParsePayload(b) ==
                AdminPayload(if b[4] == 1 then RegisterPeer(b[5..25], Number(b[25..27]), b[27..59])
                             else if b[4] == 2 then RotateAdmin(b[5..25], b[25..45])
                             else OtherAction(b[5..25], b[4]))
  {
    DispatchIsExact(b);
    hide ParsePayload;
  }

  /** The application's name is the padded field from its first byte that is not zero. */
  lemma OnboardingFields(b: seq<Byte>)
    ensures ParseOnboarding(b).Ok? <==> |b| >= 72 && HasPrefix(b, "XRPL")
    ensures ParseOnboarding(b) == Err(TooShort) <==> |b| < 72
    ensures ParseOnboarding(b) == Err(BadPrefix) <==> |b| >= 72 && !HasPrefix(b, "XRPL")
    ensures ParseOnboarding(b).Ok? ==>
              exists k :: 24 <= k <= 56 && (forall i :: 24 <= i < k ==> b[i] == 0) && (k < 56 ==> b[k] != 0)
                && ParsePayload(b) ==
                     OnboardingPayload(Onboarding(b[4..24], b[k..56], Number(b[56..64]), Number(b[64..72]), b[72..]))
  {
    DispatchIsExact(b);
    if ParseOnboarding(b).Ok? {
      var n := StrippedFrom(b[24..56]);
      assert b[24..56][n..] == b[24 + n..56];
      forall i | 24 <= i < 24 + n
        ensures b[i] == 0
      {
        assert b[24..56][i - 24] == b[i];
      }
      hide ParsePayload;
    }
  }

  lemma {:induction false} StrippedFrom(s: seq<Byte>) returns (n: nat)
    ensures n <= |s| && (forall i :: 0 <= i < n ==> s[i] == 0) && (n < |s| ==> s[n] != 0)
    ensures StripZeros(s) == s[n..]
  {
    if s != [] && s[0] == 0 {
      var m := StrippedFrom(s[1..]);
      n := m + 1;
      assert forall i :: 1 <= i < n ==> s[i] == s[1..][i - 1];
    } else {
      n := 0;
    }
  }

  /** A transfer message. */
  lemma TransferFields(b: seq<Byte>)
    requires ParseTransfer(b).Ok?
    ensures |b| >= 215 && b[..4] == [0x99, 0x45, 0xFF, 0x10] && b[136..140] == [0x99, 0x4E, 0x54, 0x54]
    ensures ParsePayload(b) ==
              NttPayload(NttTransfer(b[4..36], b[36..68], Number(b[68..70]), b[70..102], b[102..134], b[140],
                                     Number(b[141..149]), b[149..181], b[181..213], Number(b[213..215])))
  {
    DispatchIsExact(b);
    TransferRefused(b);
    hide ParsePayload;
    TransferOffsets(b);
  }

  /** Exactly which messages are refused, and why. */
  lemma TransferRefused(b: seq<Byte>)
    ensures ParseTransfer(b).Ok? <==>
              |b| >= 215 && b[..4] == [0x99, 0x45, 0xFF, 0x10] && b[136..140] == [0x99, 0x4E, 0x54, 0x54]
    ensures ParseTransfer(b) == Err(BadPrefix) <==>
              || |b| < 4 || b[..4] != [0x99, 0x45, 0xFF, 0x10]
              || (|b| >= 70 && (|b| < 140 || b[136..140] != [0x99, 0x4E, 0x54, 0x54]))
  {
    if |b| >= 140 {
      assert b[0..] == b;
      Slices(b, 4, 32);
      Slices(b, 36, 32);
      Slices(b, 68, 2);
      Slices(b, 70, 32);
      Slices(b, 102, 32);
      Slices(b, 134, 2);
      Slices(b, 136, 4);
      BodyRefused(NttTransfer(b[4..36], b[36..68], Number(b[68..70]), b[70..102], b[102..134], 0, 0, [], [], 0),
                  b[140..]);
      hide Uint, Number, ParseTransferBody;
    }
  }

  lemma BodyRefused(x: NttTransfer, s: seq<Byte>)
    ensures ParseTransferBody(x, s).Ok? <==> |s| >= 75
    ensures ParseTransferBody(x, s).Err? ==> ParseTransferBody(x, s).error == OutOfRange
  {
  }

  lemma TransferOffsets(b: seq<Byte>)
    requires ParseTransfer(b).Ok? && |b| >= 215
    ensures b[..4] == TRANSCEIVER_PREFIX && b[136..140] == TRANSFER_PREFIX
    ensures ParseTransfer(b).value.0 ==
              NttTransfer(b[4..36], b[36..68], Number(b[68..70]), b[70..102], b[102..134], b[140],
                          Number(b[141..149]), b[149..181], b[181..213], Number(b[213..215]))
  {
    assert b[0..] == b;
    Slices(b, 0, 4);
    Slices(b, 4, 32);
    Slices(b, 36, 32);
    Slices(b, 68, 2);
    Slices(b, 70, 32);
    Slices(b, 102, 32);
    Slices(b, 134, 2);
    Slices(b, 136, 4);
    Slices(b, 140, 1);
    OneByte(b, 140);
    Slices(b, 141, 8);
    Slices(b, 149, 32);
    Slices(b, 181, 32);
    Slices(b, 213, 2);
    hide Uint, Take, Drop, Number;
  }

  function SignatureAt(b: seq<Byte>, at: nat): Vaa.Signature
    requires at + 66 <= |b|
  {
    Vaa.Signature(b[at], b[at + 1..at + 66])
  }

  /** Signatures one after the other, 66 bytes each. */
  ghost predicate SignaturesFrom(b: seq<Byte>, at: nat, sigs: seq<Vaa.Signature>) {
    && at + 66 * |sigs| <= |b|
    && forall i: nat :: i < |sigs| ==> sigs[i] == SignatureAt(b, at + 66 * i)
  }

  lemma OneMoreSignature(b: seq<Byte>, at: nat, first: Vaa.Signature, others: seq<Vaa.Signature>)
    requires at + 66 <= |b| && first == SignatureAt(b, at) && SignaturesFrom(b, at + 66, others)
    ensures SignaturesFrom(b, at, [first] + others)
  {
    hide SignatureAt;
    var sigs := [first] + others;
    forall i: nat | i < |sigs|
      ensures sigs[i] == SignatureAt(b, at + 66 * i)
    {
      if i > 0 {
        assert sigs[i] == others[i - 1] && at + 66 + 66 * (i - 1) == at + 66 * i;
      }
    }
  }

  lemma {:induction false} SignaturesAt(b: seq<Byte>, at: nat, count: nat)
    requires at <= |b| && Vaa.ParseSignatures(b[at..], count).Ok?
    requires Vaa.ParseSignatures(b[at..], count).value.1 != []
    ensures |b| > at + 66 * count
    ensures var (sigs, rest) := Vaa.ParseSignatures(b[at..], count).value;
            rest == b[at + 66 * count..] && |sigs| == count && SignaturesFrom(b, at, sigs)
    decreases count
  {
    if count > 0 {
      var s := b[at..];
      var (first, s1) := Vaa.ParseSignature(s).value;
      var (others, rest) := Vaa.ParseSignatures(s1, count - 1).value;
      SomethingLeft(s1, count - 1);
      FirstSignature(b, at);
      hide Vaa.ParseSignature, SignaturesFrom;
      SignaturesAt(b, at + 66, count - 1);
      OneMoreSignature(b, at, first, others);
      assert Vaa.ParseSignatures(s, count).value == ([first] + others, rest);
      assert at + 66 + 66 * (count - 1) == at + 66 * count;
    }
  }

  lemma SomethingLeft(s: seq<Byte>, count: nat)
    requires Vaa.ParseSignatures(s, count).Ok? && Vaa.ParseSignatures(s, count).value.1 != []
    ensures s != []
  {
  }

  lemma FirstSignature(b: seq<Byte>, at: nat)
    requires at <= |b| && Vaa.ParseSignature(b[at..]).Ok? && Vaa.ParseSignature(b[at..]).value.1 != []
    ensures |b| > at + 66
    ensures Vaa.ParseSignature(b[at..]).value == (Vaa.Signature(b[at], b[at + 1..at + 66]), b[at + 66..])
  {
    Slices(b, at, 1);
    OneByte(b, at);
    assert Drop(b[at + 1..], 65) != [] ==> |b| > at + 66;
    Slices(b, at + 1, 65);
  }

  /** The six fields after the signatures, and the payload. */
  lemma BodyAt(b: seq<Byte>, n: nat, version: nat, guardianSet: nat, signatures: seq<Vaa.Signature>)
    requires n <= |b| && Vaa.ParseBody(version, guardianSet, signatures, b[n..]).Ok?
    ensures |b| >= n + 51
    ensures Vaa.ParseBody(version, guardianSet, signatures, b[n..]) ==
              Ok(Vaa.Vaa(version, guardianSet, signatures, Number(b[n..n + 4]), Number(b[n + 4..n + 8]),
                         Number(b[n + 8..n + 10]), b[n + 10..n + 42], Number(b[n + 42..n + 50]), b[n + 50],
                         b[n + 51..]))
  {
    BodyNeeds(b[n..], version, guardianSet, signatures);
    Slices(b, n, 4);
    Slices(b, n + 4, 4);
    Slices(b, n + 8, 2);
    Slices(b, n + 10, 32);
    Slices(b, n + 42, 8);
    Slices(b, n + 50, 1);
    OneByte(b, n + 50);
    hide Uint, Take, Drop, Number;
  }

  lemma BodyNeeds(s: seq<Byte>, version: nat, guardianSet: nat, signatures: seq<Vaa.Signature>)
    requires Vaa.ParseBody(version, guardianSet, signatures, s).Ok?
    ensures |s| >= 51
  {
  }

  /** An envelope: three fields before the signatures, and six and the payload after them. */
  lemma EnvelopeFields(b: seq<Byte>)
    requires Vaa.Parse(b).Ok?
    ensures |b| >= 6 && var count: nat := b[5]; |b| >= 57 + 66 * count
    ensures var count: nat := b[5];
            var sigs, n := Vaa.Parse(b).value.signatures, 6 + 66 * count;
            && |sigs| == count && SignaturesFrom(b, 6, sigs)
            && Vaa.Parse(b) ==
                 Ok(Vaa.Vaa(b[0], Number(b[1..5]), sigs, Number(b[n..n + 4]), Number(b[n + 4..n + 8]),
                            Number(b[n + 8..n + 10]), b[n + 10..n + 42], Number(b[n + 42..n + 50]), b[n + 50],
                            b[n + 51..]))
  {
    EnvelopeHead(b);
    var count: nat := b[5];
    var (sigs, rest) := Vaa.ParseSignatures(b[6..], count).value;
    hide Uint, Take, Drop, Number, Vaa.ParseSignatures, Vaa.Parse, Vaa.ParseBody, SignaturesFrom;
    BodyNeeds(rest, b[0], Number(b[1..5]), sigs);
    SignaturesAt(b, 6, count);
    BodyAt(b, 6 + 66 * count, b[0], Number(b[1..5]), sigs);
  }

  lemma EnvelopeHead(b: seq<Byte>)
    requires Vaa.Parse(b).Ok?
    ensures |b| >= 6
    ensures var count: nat := b[5];
            && Vaa.ParseSignatures(b[6..], count).Ok?
            && var (sigs, rest) := Vaa.ParseSignatures(b[6..], count).value;
            Vaa.Parse(b) == Vaa.ParseBody(b[0], Number(b[1..5]), sigs, rest)
  {
    hide Vaa.ParseBody, Vaa.ParseSignatures;
    assert b[0..] == b;
    Slices(b, 0, 1);
    OneByte(b, 0);
    Slices(b, 1, 4);
    Slices(b, 5, 1);
    OneByte(b, 5);
  }
}

/** The other payloads seen on XRPL, their parsers, and the dispatch on the prefix. */
module XrplPayloads {
  import opened Bytes
  import opened Outcomes
  import opened Wire
  import Xrel

  datatype Admin =
    | RegisterPeer(target: seq<Byte>, chainId: nat, peerAddress: seq<Byte>)
    | RotateAdmin(target: seq<Byte>, newAdmin: seq<Byte>)
    | OtherAction(target: seq<Byte>, action: nat)

  datatype Refill = Refill(account: seq<Byte>, useTicket: nat, requestCount: nat)

  datatype Onboarding = Onboarding(admin: seq<Byte>, appType: seq<Byte>, initialTicket: nat, ticketCount: nat,
                                   initData: seq<Byte>)

  datatype NttTransfer = NttTransfer(sourceManager: seq<Byte>, recipientManager: seq<Byte>, managerPayloadLength: nat,
                                     id: seq<Byte>, sender: seq<Byte>, decimals: nat, amount: nat,
                                     sourceToken: seq<Byte>, recipient: seq<Byte>, recipientChain: nat)

  datatype Payload =
    | ReleasePayload(release: Xrel.Release)
    | RefillPayload(refill: Refill)
    | AdminPayload(admin: Admin)
    | OnboardingPayload(onboarding: Onboarding)
    | NttPayload(transfer: NttTransfer)
    | Unknown(raw: seq<Byte>)

  // ---------- fixed offsets ----------

  function NumberAt(b: seq<Byte>, at: nat, n: nat): nat
    requires at + n <= |b|
  {
    Number(b[at..at + n])
  }

  function ParseRefill(b: seq<Byte>): Result<Refill, Fault>
  {
    if |b| < 40 then Err(TooShort)
    else if !HasPrefix(b, "XRFL") then Err(BadPrefix)
    else Ok(Refill(b[4..24], NumberAt(b, 24, 8), NumberAt(b, 32, 8)))
  }

  function ParseAdmin(b: seq<Byte>): Result<Admin, Fault>
  {
    if |b| < 25 then Err(TooShort)
    else if !HasPrefix(b, "XADM") then Err(BadPrefix)
    else if b[4] == 1 then
      if |b| < 25 + 2 + 32 then Err(TooShort) else Ok(RegisterPeer(b[5..25], NumberAt(b, 25, 2), b[27..59]))
    else if b[4] == 2 then
      if |b| < 25 + 20 then Err(TooShort) else Ok(RotateAdmin(b[5..25], b[25..45]))
    else Ok(OtherAction(b[5..25], b[4]))
  }

  /** A padded field without its leading zeros. */
  function StripZeros(s: seq<Byte>): seq<Byte>
  {
    if s != [] && s[0] == 0 then StripZeros(s[1..]) else s
  }

  function ParseOnboarding(b: seq<Byte>): Result<Onboarding, Fault>
  {
    if |b| < 72 then Err(TooShort)
    else if !HasPrefix(b, "XRPL") then Err(BadPrefix)
    else Ok(Onboarding(b[4..24], StripZeros(b[24..56]), NumberAt(b, 56, 8), NumberAt(b, 64, 8), b[72..]))
  }

  // ---------- the transfer message ----------

  const TRANSCEIVER_PREFIX: seq<Byte> := [0x99, 0x45, 0xFF, 0x10]
  const TRANSFER_PREFIX: seq<Byte> := [0x99, 0x4E, 0x54, 0x54]

  function ParseTransferBody(x: NttTransfer, s: seq<Byte>): Result<(NttTransfer, seq<Byte>), Fault>
  {
    var decimals :- Uint(s, 1);
    var amount :- Uint(decimals.1, 8);
    var afterToken := Drop(amount.1, 32);
    var chain :- Uint(Drop(afterToken, 32), 2);
    Ok((x.(decimals := decimals.0, amount := amount.0, sourceToken := Take(amount.1, 32),
           recipient := Take(afterToken, 32), recipientChain := chain.0), chain.1))
  }

  function ParseTransfer(b: seq<Byte>): Result<(NttTransfer, seq<Byte>), Fault>
  {
    if Take(b, 4) != TRANSCEIVER_PREFIX then Err(BadPrefix) else
      var s1 := Drop(b, 4);
      var s2 := Drop(s1, 32);
      var length :- Uint(Drop(s2, 32), 2);
      var s3 := Drop(length.1, 32);
      var s4 := Drop(Drop(s3, 32), 2);
      if Take(s4, 4) != TRANSFER_PREFIX then Err(BadPrefix)
      else
        ParseTransferBody(
          NttTransfer(Take(s1, 32), Take(s2, 32), length.0,
                      Take(length.1, 32), Take(s3, 32), 0, 0, [], [], 0), Drop(s4, 4))
  }

  predicate ValidTransfer(x: NttTransfer) {
    && |x.sourceManager| == 32 && |x.recipientManager| == 32 && x.managerPayloadLength < Limit(2)
    && |x.id| == 32 && |x.sender| == 32 && x.decimals < Limit(1) && x.amount < Limit(8)
    && |x.sourceToken| == 32 && |x.recipient| == 32 && x.recipientChain < Limit(2)
  }

  function WriteTransferBody(x: NttTransfer, z: seq<Byte>): seq<Byte>
  {
    BigEndian(x.decimals, 1)
    + (BigEndian(x.amount, 8) + (x.sourceToken + (x.recipient + (BigEndian(x.recipientChain, 2) + z))))
  }

  /** The documented layout; the inner payload length is skipped by the parser. */
  function WriteTransfer(x: NttTransfer, innerLength: seq<Byte>, z: seq<Byte>): seq<Byte>
  {
    TRANSCEIVER_PREFIX + (x.sourceManager + (x.recipientManager + (BigEndian(x.managerPayloadLength, 2)
    + (x.id + (x.sender + (innerLength + (TRANSFER_PREFIX + WriteTransferBody(x, z))))))))
  }

  lemma TransferBodyReads(x: NttTransfer, blank: NttTransfer, z: seq<Byte>)
    requires ValidTransfer(x)
    requires blank == x.(decimals := blank.decimals, amount := blank.amount, sourceToken := blank.sourceToken,
                         recipient := blank.recipient, recipientChain := blank.recipientChain)
    ensures ParseTransferBody(blank, WriteTransferBody(x, z)) == Ok((x, z))
  {
    hide Uint, Take, Drop, Limit;
    var t3 := BigEndian(x.recipientChain, 2) + z;
    var t2 := x.recipient + t3;
    var t1 := x.sourceToken + t2;
    UintReads(x.decimals, 1, BigEndian(x.amount, 8) + t1);
    UintReads(x.amount, 8, t1);
    TakeReads(x.sourceToken, t2);
    TakeReads(x.recipient, t3);
    UintReads(x.recipientChain, 2, z);
  }

  lemma TransferReads(x: NttTransfer, innerLength: seq<Byte>, z: seq<Byte>)
    requires ValidTransfer(x) && |innerLength| == 2
    ensures ParseTransfer(WriteTransfer(x, innerLength, z)) == Ok((x, z))
  {
    hide Uint, Take, Drop, Limit, ParseTransferBody, WriteTransferBody;
    var t6 := TRANSFER_PREFIX + WriteTransferBody(x, z);
    var t5 := innerLength + t6;
    var t4 := x.sender + t5;
    var t3 := x.id + t4;
    var t2 := BigEndian(x.managerPayloadLength, 2) + t3;
    var t1 := x.recipientManager + t2;
    TakeReads(TRANSCEIVER_PREFIX, x.sourceManager + t1);
    TakeReads(x.sourceManager, t1);
    TakeReads(x.recipientManager, t2);
    UintReads(x.managerPayloadLength, 2, t3);
    TakeReads(x.id, t4);
    TakeReads(x.sender, t5);
    TakeReads(innerLength, t6);
    TakeReads(TRANSFER_PREFIX, WriteTransferBody(x, z));
    TransferBodyReads(x, x.(decimals := 0, amount := 0, sourceToken := [], recipient := [], recipientChain := 0), z);
  }

  lemma TransferBodyWrote(x: NttTransfer, s: seq<Byte>)
    requires ParseTransferBody(x, s).Ok?
    ensures var (y, z) := ParseTransferBody(x, s).value;
            && s == WriteTransferBody(y, z)
            && y.decimals < Limit(1) && y.amount < Limit(8) && |y.sourceToken| == 32 && |y.recipient| == 32
            && y.recipientChain < Limit(2)
            && y == x.(decimals := y.decimals, amount := y.amount, sourceToken := y.sourceToken,
                       recipient := y.recipient, recipientChain := y.recipientChain)
  {
    hide Uint, Take, Drop, Limit, BigEndian;
    var decimals := Uint(s, 1).value;
    var amount := Uint(decimals.1, 8).value;
    var afterToken := Drop(amount.1, 32);
    UintWrote(Drop(afterToken, 32), 2);
    FieldWrote(afterToken, 32);
    FieldWrote(amount.1, 32);
    UintWrote(decimals.1, 8);
    UintWrote(s, 1);
  }

  /** What is parsed as a transfer was written there, up to the length the parser skips. */
  lemma ParsedTransferWasWritten(b: seq<Byte>)
    requires ParseTransfer(b).Ok?
    ensures var (x, z) := ParseTransfer(b).value;
            ValidTransfer(x) && exists innerLength: seq<Byte> ::
              |innerLength| == 2 && b == WriteTransfer(x, innerLength, z)
  {
    hide Uint, Take, Drop, Limit, BigEndian, ParseTransferBody, WriteTransferBody;
    var s1 := Drop(b, 4);
    var s2 := Drop(s1, 32);
    var length := Uint(Drop(s2, 32), 2).value;
    var s3 := Drop(length.1, 32);
    var s3' := Drop(s3, 32);
    var s4 := Drop(s3', 2);
    var (x, z) := ParseTransfer(b).value;
    TransferBodyWrote(NttTransfer(Take(s1, 32), Take(s2, 32),
                                  length.0, Take(length.1, 32), Take(s3, 32), 0, 0, [], [], 0),
                      Drop(s4, 4));
    PrefixWrote(s4, TRANSFER_PREFIX);
    FieldWrote(s3', 2);
    FieldWrote(s3, 32);
    FieldWrote(length.1, 32);
    UintWrote(Drop(s2, 32), 2);
    FieldWrote(s2, 32);
    FieldWrote(s1, 32);
    PrefixWrote(b, TRANSCEIVER_PREFIX);
    assert b == WriteTransfer(x, Take(s3', 2), z);
  }

  lemma PrefixWrote(s: seq<Byte>, prefix: seq<Byte>)
    requires |prefix| == 4 && Take(s, 4) == prefix
    ensures s == prefix + Drop(s, 4)
  {
  }

  // ---------- dispatch ----------

  /** Parsing never fails: what does not parse is shown raw. */
  function ParsePayload(b: seq<Byte>): Payload
  {
    if HasPrefix(b, "XREL") then
      match Xrel.Parse(b) case Ok(p) => ReleasePayload(p.0) case Err(_) => Unknown(b)
    else if HasPrefix(b, "XRFL") then
      match ParseRefill(b) case Ok(p) => RefillPayload(p) case Err(_) => Unknown(b)
    else if HasPrefix(b, "XADM") then
      match ParseAdmin(b) case Ok(p) => AdminPayload(p) case Err(_) => Unknown(b)
    else if HasPrefix(b, "XRPL") then
      match ParseOnboarding(b) case Ok(p) => OnboardingPayload(p) case Err(_) => Unknown(b)
    else if |b| >= 4 && b[..4] == TRANSCEIVER_PREFIX then
      match ParseTransfer(b) case Ok(p) => NttPayload(p.0) case Err(_) => Unknown(b)
    else Unknown(b)
  }

  /** The prefixes are told apart, so the dispatch reaches each parser for all that it accepts. */
  lemma DispatchIsExact(b: seq<Byte>)
    ensures Xrel.Parse(b).Ok? ==> ParsePayload(b) == ReleasePayload(Xrel.Parse(b).value.0)
    ensures ParseRefill(b).Ok? ==> ParsePayload(b) == RefillPayload(ParseRefill(b).value)
    ensures ParseAdmin(b).Ok? ==> ParsePayload(b) == AdminPayload(ParseAdmin(b).value)
    ensures ParseOnboarding(b).Ok? ==> ParsePayload(b) == OnboardingPayload(ParseOnboarding(b).value)
    ensures ParseTransfer(b).Ok? ==> ParsePayload(b) == NttPayload(ParseTransfer(b).value.0)
    ensures ParsePayload(b).Unknown? <==>
              Xrel.Parse(b).Err? && ParseRefill(b).Err? &&
                ParseAdmin(b).Err? && ParseOnboarding(b).Err? && ParseTransfer(b).Err?
  {
    hide Xrel.ParseHead, Xrel.ParseTail, ParseTransferBody, StripZeros;
    if |b| >= 4 {
      assert b[..4] == TRANSCEIVER_PREFIX ==> b[1] == 0x45 && b[2] == 0xFF;
      OnePrefix(b);
    }
  }

  lemma OnePrefix(b: seq<Byte>)
    requires |b| >= 4
    ensures HasPrefix(b, "XREL") ==> b[1] % 128 == 82 && b[2] % 128 == 69 && b[3] % 128 == 76
    ensures HasPrefix(b, "XRFL") ==> b[1] % 128 == 82 && b[2] % 128 == 70
    ensures HasPrefix(b, "XADM") ==> b[1] % 128 == 65
    ensures HasPrefix(b, "XRPL") ==> b[1] % 128 == 82 && b[2] % 128 == 80
    ensures b[..4] == TRANSCEIVER_PREFIX ==> b[1] % 128 == 69
    ensures Take(b, 4) == b[..4]
  {
  }

  // ---------- the code ----------

  /** The onboarding parser, with its scan for the first byte that is not padding. */
  method ReadOnboarding(b: seq<Byte>) returns (r: Result<Onboarding, Fault>)
    ensures r == ParseOnboarding(b)
  {
    if |b| < 72 {
      return Err(TooShort);
    }
    if !HasPrefix(b, "XRPL") {
      return Err(BadPrefix);
    }
    var raw := b[24..56];
    var firstNonZero := 0;
    while firstNonZero < 32 && raw[firstNonZero] == 0
      invariant firstNonZero <= 32 && StripZeros(raw) == StripZeros(raw[firstNonZero..])
    {
      firstNonZero := firstNonZero + 1;
    }
    return Ok(Onboarding(b[4..24], raw[firstNonZero..], NumberAt(b, 56, 8), NumberAt(b, 64, 8), b[72..]));
  }
}

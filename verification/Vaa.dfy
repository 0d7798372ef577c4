/** The signed message envelope: its layout, its parser, and where two readers say its body starts. */
module Vaa {
  import opened Bytes
  import opened Outcomes
  import opened Wire

  datatype Signature = Signature(guardian: nat, bytes: seq<Byte>)

  datatype Vaa = Vaa(version: nat, guardianSet: nat, signatures: seq<Signature>, timestamp: nat, nonce: nat,
                     emitterChain: nat, emitterAddress: seq<Byte>, sequence: nat, consistency: nat, payload: seq<Byte>)

  predicate ValidSignature(s: Signature) { s.guardian < Limit(1) && |s.bytes| == 65 }

  predicate ValidSignatures(sigs: seq<Signature>) { forall i :: 0 <= i < |sigs| ==> ValidSignature(sigs[i]) }

  predicate ValidBody(v: Vaa) {
    && v.timestamp < Limit(4) && v.nonce < Limit(4) && v.emitterChain < Limit(2) && |v.emitterAddress| == 32
    && v.sequence < Limit(8) && v.consistency < Limit(1)
  }

  predicate Valid(v: Vaa) {
    && v.version < Limit(1) && v.guardianSet < Limit(4) && |v.signatures| < Limit(1)
    && ValidSignatures(v.signatures) && ValidBody(v)
  }

  // ---------- the layout ----------

  function WriteSignature(s: Signature, z: seq<Byte>): seq<Byte> { BigEndian(s.guardian, 1) + (s.bytes + z) }

  function WriteSignatures(sigs: seq<Signature>, z: seq<Byte>): seq<Byte>
  {
    if sigs == [] then z else WriteSignature(sigs[0], WriteSignatures(sigs[1..], z))
  }

  /** What the guardians sign. */
  function WriteBody(v: Vaa): seq<Byte>
  {
    BigEndian(v.timestamp, 4) + (BigEndian(v.nonce, 4) + (BigEndian(v.emitterChain, 2) + (v.emitterAddress
    + (BigEndian(v.sequence, 8) + (BigEndian(v.consistency, 1) + v.payload)))))
  }

  function Write(v: Vaa): seq<Byte>
  {
    BigEndian(v.version, 1) + (BigEndian(v.guardianSet, 4)
    + (BigEndian(|v.signatures|, 1) + WriteSignatures(v.signatures, WriteBody(v))))
  }

  // ---------- the two readers ----------

  function ParseSignature(s: seq<Byte>): Result<(Signature, seq<Byte>), Fault>
  {
    var guardian :- Uint(s, 1);
    Ok((Signature(guardian.0, Take(guardian.1, 65)), Drop(guardian.1, 65)))
  }

  function ParseSignatures(s: seq<Byte>, count: nat): Result<(seq<Signature>, seq<Byte>), Fault>
    decreases count
  {
    if count == 0 then Ok(([], s)) else
      var first :- ParseSignature(s);
      var others :- ParseSignatures(first.1, count - 1);
      Ok(([first.0] + others.0, others.1))
  }

  function ParseBody(version: nat, guardianSet: nat, signatures: seq<Signature>, s: seq<Byte>): Result<Vaa, Fault>
  {
    var timestamp :- Uint(s, 4);
    var nonce :- Uint(timestamp.1, 4);
    var emitterChain :- Uint(nonce.1, 2);
    var sequence :- Uint(Drop(emitterChain.1, 32), 8);
    var consistency :- Uint(sequence.1, 1);
    Ok(Vaa(version, guardianSet, signatures, timestamp.0, nonce.0, emitterChain.0, Take(emitterChain.1, 32),
           sequence.0, consistency.0, consistency.1))
  }

  function Parse(b: seq<Byte>): Result<Vaa, Fault>
  {
    var version :- Uint(b, 1);
    var guardianSet :- Uint(version.1, 4);
    var count :- Uint(guardianSet.1, 1);
    var signatures :- ParseSignatures(count.1, count.0);
    ParseBody(version.0, guardianSet.0, signatures.0, signatures.1)
  }

  /** The body as the Solana client finds it: it refuses an unsigned message. */
  function Body(b: seq<Byte>): Result<seq<Byte>, Fault>
  {
    if |b| < 6 || b[5] == 0 then Err(InvalidVaa) else
      var signers: nat := b[5];
      Ok(Drop(b, 6 + 66 * signers))
  }

  // ---------- what is written is read back ----------

  lemma {:induction false} SignaturesRead(sigs: seq<Signature>, z: seq<Byte>)
    requires ValidSignatures(sigs)
    ensures ParseSignatures(WriteSignatures(sigs, z), |sigs|) == Ok((sigs, z))
    ensures |WriteSignatures(sigs, z)| == 66 * |sigs| + |z| && Drop(WriteSignatures(sigs, z), 66 * |sigs|) == z
  {
    hide Uint, Limit;
    if sigs != [] {
      var rest := WriteSignatures(sigs[1..], z);
      SignaturesRead(sigs[1..], z);
      UintReads(sigs[0].guardian, 1, sigs[0].bytes + rest);
      assert [sigs[0]] + sigs[1..] == sigs;
      assert WriteSignatures(sigs, z)[66..] == rest;
      assert WriteSignatures(sigs, z)[66 * |sigs|..] == rest[66 * (|sigs| - 1)..];
    }
  }

  lemma BodyReads(v: Vaa)
    requires ValidBody(v)
    ensures ParseBody(v.version, v.guardianSet, v.signatures, WriteBody(v)) == Ok(v)
  {
    hide Uint, Take, Drop, Limit;
    var t6 := BigEndian(v.consistency, 1) + v.payload;
    var t5 := BigEndian(v.sequence, 8) + t6;
    var t4 := v.emitterAddress + t5;
    var t3 := BigEndian(v.emitterChain, 2) + t4;
    UintReads(v.timestamp, 4, BigEndian(v.nonce, 4) + t3);
    UintReads(v.nonce, 4, t3);
    UintReads(v.emitterChain, 2, t4);
    TakeReads(v.emitterAddress, t5);
    UintReads(v.sequence, 8, t6);
    UintReads(v.consistency, 1, v.payload);
  }

  lemma BodyHeader(v: Vaa)
    requires |v.emitterAddress| == 32
    ensures |WriteBody(v)| == 51 + |v.payload| && WriteBody(v)[51..] == v.payload
  {
    hide BigEndian;
    var header := BigEndian(v.timestamp, 4) + BigEndian(v.nonce, 4) + BigEndian(v.emitterChain, 2) + v.emitterAddress
                  + BigEndian(v.sequence, 8) + BigEndian(v.consistency, 1);
    assert |header| == 51 && WriteBody(v) == header + v.payload;
  }

  /** Any message, signed by any number of guardians, is read back from its bytes. */
  lemma WrittenIsParsed(v: Vaa)
    requires Valid(v)
    ensures Parse(Write(v)) == Ok(v)
  {
    hide Uint, Limit, WriteBody, ParseBody, WriteSignatures, ParseSignatures, ValidSignatures, ValidBody;
    var t2 := WriteSignatures(v.signatures, WriteBody(v));
    var t1 := BigEndian(|v.signatures|, 1) + t2;
    UintReads(v.version, 1, BigEndian(v.guardianSet, 4) + t1);
    UintReads(v.guardianSet, 4, t1);
    UintReads(|v.signatures|, 1, t2);
    SignaturesRead(v.signatures, WriteBody(v));
    BodyReads(v);
  }

  // ---------- what is read was written ----------

  lemma {:induction false} SignaturesWrote(s: seq<Byte>, count: nat)
    requires ParseSignatures(s, count).Ok? && ParseSignatures(s, count).value.1 != []
    ensures var (sigs, rest) := ParseSignatures(s, count).value;
            |sigs| == count && ValidSignatures(sigs) && s == WriteSignatures(sigs, rest)
    decreases count
  {
    hide Limit, BigEndian;
    if count > 0 {
      var (first, s1) := ParseSignature(s).value;
      var (others, rest) := ParseSignatures(s1, count - 1).value;
      assert ([first] + others)[0] == first && ([first] + others)[1..] == others;
      SignaturesWrote(s1, count - 1);
      NothingLeft(s1, count - 1);
      SignatureWrote(s);
    }
  }

  lemma NothingLeft(s: seq<Byte>, count: nat)
    requires ParseSignatures(s, count).Ok? && ParseSignatures(s, count).value.1 != []
    ensures s != []
  {
  }

  lemma SignatureWrote(s: seq<Byte>)
    requires ParseSignature(s).Ok? && ParseSignature(s).value.1 != []
    ensures var (sig, rest) := ParseSignature(s).value; ValidSignature(sig) && s == WriteSignature(sig, rest)
  {
    UintWrote(s, 1);
  }

  lemma BodyWrote(version: nat, guardianSet: nat, signatures: seq<Signature>, s: seq<Byte>)
    requires ParseBody(version, guardianSet, signatures, s).Ok?
    ensures var v := ParseBody(version, guardianSet, signatures, s).value;
            && ValidBody(v) && s == WriteBody(v)
            && v.version == version && v.guardianSet == guardianSet && v.signatures == signatures
  {
    hide Limit, BigEndian, Number, Uint, Take, Drop;
    var timestamp := Uint(s, 4).value;
    var nonce := Uint(timestamp.1, 4).value;
    var emitterChain := Uint(nonce.1, 2).value;
    var s3 := Drop(emitterChain.1, 32);
    var sequence := Uint(s3, 8).value;
    UintWrote(sequence.1, 1);
    UintWrote(s3, 8);
    FieldWrote(emitterChain.1, 32);
    UintWrote(nonce.1, 2);
    UintWrote(timestamp.1, 4);
    UintWrote(s, 4);
  }

  /** What is parsed is a valid message, and the buffer is exactly its bytes. */
  lemma ParsedWasWritten(b: seq<Byte>)
    requires Parse(b).Ok?
    ensures Valid(Parse(b).value) && b == Write(Parse(b).value)
  {
    hide Limit, BigEndian, Number, ParseBody, ParseSignatures, WriteSignatures, ValidSignatures, ValidBody;
    var version := Uint(b, 1).value;
    var guardianSet := Uint(version.1, 4).value;
    var count := Uint(guardianSet.1, 1).value;
    var signatures := ParseSignatures(count.1, count.0).value;
    UintWrote(b, 1);
    UintWrote(version.1, 4);
    UintWrote(guardianSet.1, 1);
    BodyWrote(version.0, guardianSet.0, signatures.0, signatures.1);
    SomethingRead(version.0, guardianSet.0, signatures.0, signatures.1);
    SignaturesWrote(count.1, count.0);
  }

  lemma SomethingRead(version: nat, guardianSet: nat, signatures: seq<Signature>, s: seq<Byte>)
    requires ParseBody(version, guardianSet, signatures, s).Ok?
    ensures s != []
  {
  }

  lemma CountByte(v: Vaa)
    requires Valid(v)
    ensures |Write(v)| >= 6 && Write(v)[5] == |v.signatures|
    ensures Drop(Write(v), 6 + 66 * |v.signatures|) == WriteBody(v)
  {
    hide WriteBody, WriteSignatures, ParseSignatures, ValidSignatures, ValidBody;
    var t2 := WriteSignatures(v.signatures, WriteBody(v));
    SignaturesRead(v.signatures, WriteBody(v));
    assert BigEndian(|v.signatures|, 1) == BigEndian(|v.signatures| / 256, 0) + [|v.signatures| % 256];
    assert Limit(1) == Limit(0) * 256;
    assert Write(v)[6..] == t2;
    assert Write(v)[6 + 66 * |v.signatures|..] == t2[66 * |v.signatures|..];
  }

  /**
   * The two readers agree where the body starts, exactly for messages with a signature: there the
   * parsed payload is the body without its 51-byte header. Unsigned ones are parsed but have no body.
   */
  lemma ReadersAgree(b: seq<Byte>)
    requires Parse(b).Ok?
    ensures Body(b).Ok? <==> Parse(b).value.signatures != []
    ensures Body(b).Ok? ==> |Body(b).value| >= 51 && Body(b).value[51..] == Parse(b).value.payload
    ensures Body(b).Ok? ==> Body(b).value == WriteBody(Parse(b).value)
  {
    hide Parse, Write, WriteBody, ParseBody, Drop;
    var v := Parse(b).value;
    ParsedWasWritten(b);
    CountByte(v);
    BodyHeader(v);
  }

  /** An unsigned message, which is parsed but whose body the client refuses. */
  lemma UnsignedHasNoBody() returns (b: seq<Byte>)
    ensures |b| == 57 && Parse(b).Ok? && Body(b).Err?
  {
    hide Parse, WriteBody, ValidBody, Body;
    var v := Vaa(1, 0, [], 0, 0, 0, seq(32, _ => 0), 0, 0, []);
    assert ValidBody(v) by { ValidBlank(v); }
    assert Valid(v) by { assert Limit(1) == Limit(0) * 256 && Limit(4) >= 1; }
    WrittenIsParsed(v);
    b := Write(v);
    ReadersAgree(b);
    BodyHeader(v);
  }

  lemma ValidBlank(v: Vaa)
    requires v.timestamp == v.nonce == v.emitterChain == v.sequence == v.consistency == 0 && |v.emitterAddress| == 32
    ensures ValidBody(v)
  {
    assert Limit(1) >= 1 && Limit(2) >= 1 && Limit(4) >= 1 && Limit(8) >= 1;
  }

  // ---------- the code ----------

  /** Reading the first k signatures and then the others is reading them all. */
  lemma {:induction false} SignaturesInTwo(s: seq<Byte>, k: nat, count: nat)
    requires k <= count && ParseSignatures(s, k).Ok?
    ensures var (sigs, rest) := ParseSignatures(s, k).value;
            ParseSignatures(s, count) ==
              match ParseSignatures(rest, count - k)
              case Ok(p) => Ok((sigs + p.0, p.1))
              case Err(e) => Err(e)
    decreases k
  {
    hide ParseSignature;
    if k > 0 {
      var (first, s1) := ParseSignature(s).value;
      SignaturesInTwo(s1, k - 1, count - 1);
      var (others, rest) := ParseSignatures(s1, k - 1).value;
      if ParseSignatures(rest, count - k).Ok? {
        var last := ParseSignatures(rest, count - k).value.0;
        assert [first] + (others + last) == ([first] + others) + last;
      }
    } else if ParseSignatures(s, count).Ok? {
      assert [] + ParseSignatures(s, count).value.0 == ParseSignatures(s, count).value.0;
    }
  }

  lemma NextSignature(s: seq<Byte>, count: nat)
    requires count > 0
    ensures ParseSignature(s).Ok? ==>
              ParseSignatures(s, 1) == Ok(([ParseSignature(s).value.0], ParseSignature(s).value.1))
    ensures ParseSignature(s).Err? ==> ParseSignatures(s, 1) == Err(ParseSignature(s).error)
    ensures ParseSignature(s).Err? ==> ParseSignatures(s, count) == Err(ParseSignature(s).error)
  {
    hide ParseSignature;
    if ParseSignature(s).Ok? {
      assert ParseSignatures(ParseSignature(s).value.1, 0) == Ok(([], ParseSignature(s).value.1));
      assert [ParseSignature(s).value.0] + [] == [ParseSignature(s).value.0];
    }
  }

  method ReadSignatures(b: seq<Byte>, start: nat, count: nat) returns (r: Result<(seq<Signature>, nat), Fault>)
    ensures var spec := ParseSignatures(Rest(b, start), count);
            && (r.Ok? <==> spec.Ok?) && (r.Err? ==> r.error == spec.error)
            && (r.Ok? ==> spec.value == (r.value.0, Rest(b, r.value.1)))
  {
    hide Uint, Take, Drop, Rest;
    var offset, signatures := start, [];
    for i := 0 to count
      invariant ParseSignatures(Rest(b, start), i) == Ok((signatures, Rest(b, offset)))
    {
      SignaturesInTwo(Rest(b, start), i, count);
      SignaturesInTwo(Rest(b, start), i, i + 1);
      NextSignature(Rest(b, offset), count - i);
      var guardian :- ReadUint(b, offset, 1);
      offset := offset + 1;
      var bytes := Subarray(b, offset, 65);
      offset := offset + 65;
      signatures := signatures + [Signature(guardian, bytes)];
    }
    return Ok((signatures, offset));
  }

  method ParseVaa(b: seq<Byte>) returns (r: Result<Vaa, Fault>)
    ensures r == Parse(b)
  {
    hide Uint, Take, Drop, ParseSignatures;
    assert Rest(b, 0) == b by { WholeRest(b); }
    var offset := 0;
    var version :- ReadUint(b, offset, 1);
    offset := offset + 1;
    var guardianSet :- ReadUint(b, offset, 4);
    offset := offset + 4;
    var count :- ReadUint(b, offset, 1);
    offset := offset + 1;
    var signatures :- ReadSignatures(b, offset, count);
    r := ReadBody(b, signatures.1, version, guardianSet, signatures.0);
  }

  method ReadBody(b: seq<Byte>, start: nat, version: nat, guardianSet: nat, signatures: seq<Signature>)
    returns (r: Result<Vaa, Fault>)
    ensures r == ParseBody(version, guardianSet, signatures, Rest(b, start))
  {
    hide Uint, Take, Drop, Rest;
    var offset := start;
    var timestamp :- ReadUint(b, offset, 4);
    offset := offset + 4;
    var nonce :- ReadUint(b, offset, 4);
    offset := offset + 4;
    var emitterChain :- ReadUint(b, offset, 2);
    offset := offset + 2;
    var emitterAddress := Subarray(b, offset, 32);
    offset := offset + 32;
    var sequence :- ReadUint(b, offset, 8);
    offset := offset + 8;
    var consistency :- ReadUint(b, offset, 1);
    offset := offset + 1;
    var payload := Remainder(b, offset);
    return Ok(Vaa(version, guardianSet, signatures, timestamp, nonce, emitterChain, emitterAddress, sequence,
                  consistency, payload));
  }

  method Remainder(b: seq<Byte>, offset: nat) returns (s: seq<Byte>)
    ensures s == Rest(b, offset)
  {
    s := if offset <= |b| then b[offset..] else [];
  }

  lemma WholeRest(b: seq<Byte>)
    ensures Rest(b, 0) == b
  {
  }
}

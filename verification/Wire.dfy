/**
 * Reading a buffer. The parsers move an offset; what they have left to read is the suffix from
 * there. Integer reads throw past the end, subarrays are cut off there.
 */
module Wire {
  import opened Bytes
  import opened Numerals
  import opened Outcomes

  datatype Fault = TooShort | BadPrefix | OutOfRange | BadTokenType | InvalidVaa

  /** The big-endian value of a buffer. */
  function Number(s: seq<Byte>): nat { Value(s, 256) }

  /** One more than the largest number of so many bytes. */
  function Limit(n: nat): (m: nat)
    ensures m >= 1
  {
    if n == 0 then 1 else Limit(n - 1) * 256
  }

  function BigEndian(v: nat, n: nat): (s: seq<Byte>)
    ensures |s| == n
  {
    if n == 0 then [] else BigEndian(v / 256, n - 1) + [v % 256]
  }

  lemma {:induction false} NumberOfBytes(v: nat, n: nat)
    requires v < Limit(n)
    ensures Number(BigEndian(v, n)) == v
  {
    if n > 0 {
      NumberOfBytes(v / 256, n - 1);
    }
  }

  lemma {:induction false} BytesOfNumber(s: seq<Byte>)
    ensures Number(s) < Limit(|s|) && BigEndian(Number(s), |s|) == s
  {
    if s != [] {
      BytesOfNumber(s[..|s| - 1]);
    }
  }

  /** Buffer.readUInt8, readUInt16BE, readUInt32BE and readBigUInt64BE, by their width. */
  function Uint(s: seq<Byte>, n: nat): (r: Result<(nat, seq<Byte>), Fault>)
    ensures r.Ok? <==> n <= |s|
    ensures r.Ok? ==> r.value.1 == s[n..]
    ensures r.Err? ==> r.error == OutOfRange
  {
    if n <= |s| then Ok((Number(s[..n]), s[n..])) else Err(OutOfRange)
  }

  /** Buffer.subarray. */
  function Take(s: seq<Byte>, n: nat): seq<Byte> { if n <= |s| then s[..n] else s }

  function Drop(s: seq<Byte>, n: nat): seq<Byte> { if n <= |s| then s[n..] else [] }

  lemma UintReads(v: nat, n: nat, z: seq<Byte>)
    requires v < Limit(n)
    ensures Uint(BigEndian(v, n) + z, n) == Ok((v, z))
  {
    NumberOfBytes(v, n);
    assert (BigEndian(v, n) + z)[..n] == BigEndian(v, n);
  }

  lemma UintWrote(s: seq<Byte>, n: nat)
    requires n <= |s|
    ensures Uint(s, n).value.0 < Limit(n) && s == BigEndian(Uint(s, n).value.0, n) + s[n..]
  {
    BytesOfNumber(s[..n]);
  }

  lemma TakeReads(a: seq<Byte>, z: seq<Byte>)
    ensures Take(a + z, |a|) == a && Drop(a + z, |a|) == z
  {
  }

  /** A fixed field with something after it is all there. */
  lemma FieldWrote(s: seq<Byte>, n: nat)
    requires Drop(s, n) != []
    ensures |Take(s, n)| == n && s == Take(s, n) + Drop(s, n)
  {
  }

  // The same reads at a moving offset.

  function Rest(b: seq<Byte>, offset: nat): seq<Byte> { Drop(b, offset) }

  lemma DropIsSlice(b: seq<Byte>, n: nat)
    requires n <= |b|
    ensures Drop(b, n) == b[n..]
  {
  }

  method ReadUint(b: seq<Byte>, offset: nat, n: nat) returns (r: Result<nat, Fault>)
    requires n >= 1
    ensures r == (match Uint(Rest(b, offset), n) case Ok(p) => Ok(p.0) case Err(e) => Err(e))
    ensures r.Ok? ==> Uint(Rest(b, offset), n).value.1 == Rest(b, offset + n)
  {
    if offset + n > |b| {
      return Err(OutOfRange);
    }
    assert b[offset..][..n] == b[offset..offset + n] && b[offset..][n..] == b[offset + n..];
    return Ok(Number(b[offset..offset + n]));
  }

  method Subarray(b: seq<Byte>, offset: nat, n: nat) returns (s: seq<Byte>)
    ensures s == Take(Rest(b, offset), n) && Drop(Rest(b, offset), n) == Rest(b, offset + n)
  {
    var lo := if offset <= |b| then offset else |b|;
    var hi := if offset + n <= |b| then offset + n else |b|;
    s := b[lo..hi];
  }

  function Ascii(s: string): seq<Byte>
  {
    seq(|s|, i requires 0 <= i < |s| => s[i] as int % 128)
  }

  /** Decoding as ASCII clears each byte's high bit, so a prefix only fixes the low seven. */
  predicate HasPrefix(b: seq<Byte>, prefix: string) {
    && |b| >= |prefix|
    && forall i :: 0 <= i < |prefix| ==> b[i] % 128 == prefix[i] as int
  }
}

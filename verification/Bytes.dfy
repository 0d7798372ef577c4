/** Bytes and their little-endian values. */
module Bytes {
  import opened Residues

  type Byte = b: int | 0 <= b < 256

  function LittleEndian(bytes: seq<Byte>): (n: nat)
  {
    if bytes == [] then 0 else bytes[0] + 256 * LittleEndian(bytes[1..])
  }

  /** The last byte is worth the most. */
  lemma {:induction false} LastByte(bytes: seq<Byte>, last: Byte)
    ensures LittleEndian(bytes + [last]) == LittleEndian(bytes) + last * Pow(256, |bytes|)
  {
    if bytes == [] {
      assert [] + [last] == [last] && [last][1..] == [];
      assert Pow(256, 0) == 1;
    } else {
      assert (bytes + [last])[1..] == bytes[1..] + [last];
      LastByte(bytes[1..], last);
      var p, low := Pow(256, |bytes| - 1), LittleEndian(bytes[1..]);
      assert 256 * (low + last * p) == 256 * low + last * (p * 256);
    }
  }
}

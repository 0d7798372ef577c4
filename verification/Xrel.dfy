/** The release message: its documented layout, and the parser that reads it back. */
module Xrel {
  import opened Bytes
  import opened Outcomes
  import opened Wire

  /** An XRPL account, currency code or other fixed field, by its bytes. */
  datatype Token = Xrp | Iou(currency: seq<Byte>, issuer: seq<Byte>) | Mpt(issuance: seq<Byte>)

  datatype Memo = Memo(data: seq<Byte>, format: seq<Byte>, kind: seq<Byte>)

  datatype Release = Release(ticket: nat, custody: seq<Byte>, recipient: seq<Byte>, amount: nat, decimals: nat,
                             chain: nat, emitter: seq<Byte>, sequence: nat, token: Token, memos: seq<Memo>)

  predicate ValidToken(t: Token) {
    match t
    case Xrp => true
    case Iou(currency, issuer) => |currency| == 20 && |issuer| == 20
    case Mpt(issuance) => |issuance| == 24
  }

  predicate ValidMemo(m: Memo) { |m.data| < Limit(2) && |m.format| < Limit(2) && |m.kind| < Limit(2) }

  predicate ValidMemos(memos: seq<Memo>) { forall i :: 0 <= i < |memos| ==> ValidMemo(memos[i]) }

  predicate Valid(r: Release) {
    ValidHead(r) && ValidToken(r.token) && |r.memos| < Limit(2) && ValidMemos(r.memos)
  }

  // ---------- the layout ----------

  function WriteToken(t: Token, z: seq<Byte>): seq<Byte>
  {
    match t
    case Xrp => [0] + z
    case Iou(currency, issuer) => [1] + (currency + (issuer + z))
    case Mpt(issuance) => [2] + (issuance + z)
  }

  function WriteBlock(s: seq<Byte>, z: seq<Byte>): seq<Byte> { BigEndian(|s|, 2) + (s + z) }

  function WriteMemo(m: Memo, z: seq<Byte>): seq<Byte>
  {
    WriteBlock(m.data, WriteBlock(m.format, WriteBlock(m.kind, z)))
  }

  function WriteMemos(memos: seq<Memo>, z: seq<Byte>): seq<Byte>
  {
    if memos == [] then z else WriteMemo(memos[0], WriteMemos(memos[1..], z))
  }

  function WriteHead(r: Release, z: seq<Byte>): seq<Byte>
  {
    BigEndian(r.ticket, 8) + (r.custody + (r.recipient + (BigEndian(r.amount, 8) + (BigEndian(r.decimals, 1)
    + (BigEndian(r.chain, 2) + (r.emitter + (BigEndian(r.sequence, 8) + z)))))))
  }

  function WriteTail(r: Release, z: seq<Byte>): seq<Byte>
  {
    WriteToken(r.token, BigEndian(|r.memos|, 2) + WriteMemos(r.memos, z))
  }

  function WriteBody(r: Release, z: seq<Byte>): seq<Byte> { WriteHead(r, WriteTail(r, z)) }

  function Write(r: Release, z: seq<Byte>): seq<Byte> { Ascii("XREL") + WriteBody(r, z) }

  // ---------- the parser ----------

  function ParseToken(s: seq<Byte>): Result<(Token, seq<Byte>), Fault>
  {
    var kind :- Uint(s, 1);
    if kind.0 == 0 then Ok((Xrp, kind.1))
    else if kind.0 == 1 then
      if |kind.1| < 40 then Err(TooShort)
      else Ok((Iou(kind.1[..20], kind.1[20..40]), kind.1[40..]))
    else if kind.0 == 2 then
      if |kind.1| < 24 then Err(TooShort)
      else Ok((Mpt(kind.1[..24]), kind.1[24..]))
    else Err(BadTokenType)
  }

  function ParseMemo(s: seq<Byte>): Result<(Memo, seq<Byte>), Fault>
  {
    var dataLen :- Uint(s, 2);
    var formatLen :- Uint(Drop(dataLen.1, dataLen.0), 2);
    var kindLen :- Uint(Drop(formatLen.1, formatLen.0), 2);
    Ok((Memo(Take(dataLen.1, dataLen.0), Take(formatLen.1, formatLen.0), Take(kindLen.1, kindLen.0)),
        Drop(kindLen.1, kindLen.0)))
  }

  function ParseMemos(s: seq<Byte>, count: nat): Result<(seq<Memo>, seq<Byte>), Fault>
    decreases count
  {
    if count == 0 then Ok(([], s)) else
      var first :- ParseMemo(s);
      var others :- ParseMemos(first.1, count - 1);
      Ok(([first.0] + others.0, others.1))
  }

  /** The fields up to the token, and what follows them. */
  function ParseHead(s: seq<Byte>): Result<(Release, seq<Byte>), Fault>
  {
    var ticket :- Uint(s, 8);
    var custody, afterCustody := Take(ticket.1, 20), Drop(ticket.1, 20);
    var recipient, afterRecipient := Take(afterCustody, 20), Drop(afterCustody, 20);
    var amount :- Uint(afterRecipient, 8);
    var decimals :- Uint(amount.1, 1);
    var chain :- Uint(decimals.1, 2);
    var emitter, afterEmitter := Take(chain.1, 32), Drop(chain.1, 32);
    var sequence :- Uint(afterEmitter, 8);
    Ok((Release(ticket.0, custody, recipient, amount.0, decimals.0, chain.0, emitter, sequence.0, Xrp, []), sequence.1))
  }

  function ParseTail(head: Release, s: seq<Byte>): Result<(Release, seq<Byte>), Fault>
  {
    var token :- ParseToken(s);
    var count :- Uint(token.1, 2);
    var memos :- ParseMemos(count.1, count.0);
    Ok((head.(token := token.0, memos := memos.0), memos.1))
  }

  function Parse(b: seq<Byte>): Result<(Release, seq<Byte>), Fault>
  {
    if |b| < 106 then Err(TooShort)
    else if !HasPrefix(b, "XREL") then Err(BadPrefix)
    else
      var head :- ParseHead(b[4..]);
      ParseTail(head.0, head.1)
  }

  // ---------- what is written is read back ----------

  lemma TokenReads(t: Token, z: seq<Byte>)
    requires ValidToken(t)
    ensures ParseToken(WriteToken(t, z)) == Ok((t, z))
  {
    var kind := match t case Xrp => 0 case Iou(_, _) => 1 case Mpt(_) => 2;
    var tail := match t case Xrp => z case Iou(c, i) => c + (i + z) case Mpt(m) => m + z;
    KindByte(kind, tail);
    match t
    case Xrp =>
    case Iou(currency, issuer) =>
      assert tail[20..40] == issuer && tail[40..] == z;
    case Mpt(issuance) =>
  }

  lemma KindByte(kind: Byte, tail: seq<Byte>)
    ensures Uint([kind] + tail, 1) == Ok((kind as nat, tail))
  {
    assert ([kind] + tail)[..1] == [kind] && ([kind] + tail)[1..] == tail;
    assert Number([kind]) == Number([kind][..0]) * 256 + kind && [kind][..0] == [];
  }

  lemma BlockReads(s: seq<Byte>, z: seq<Byte>)
    requires |s| < Limit(2)
    ensures Uint(WriteBlock(s, z), 2) == Ok((|s|, s + z))
    ensures Take(s + z, |s|) == s && Drop(s + z, |s|) == z
  {
    UintReads(|s|, 2, s + z);
  }

  lemma MemoReads(m: Memo, z: seq<Byte>)
    requires ValidMemo(m)
    ensures ParseMemo(WriteMemo(m, z)) == Ok((m, z)) && Overrun(WriteMemo(m, z), 1) == 0
  {
    hide Uint, Take, Drop, WriteBlock, Limit;
    BlockReads(m.data, WriteBlock(m.format, WriteBlock(m.kind, z)));
    BlockReads(m.format, WriteBlock(m.kind, z));
    BlockReads(m.kind, z);
  }

  lemma {:induction false} MemosRead(memos: seq<Memo>, z: seq<Byte>)
    requires ValidMemos(memos)
    ensures ParseMemos(WriteMemos(memos, z), |memos|) == Ok((memos, z))
  {
    hide ParseMemo, WriteMemo, ValidMemo;
    if memos != [] {
      MemoReads(memos[0], WriteMemos(memos[1..], z));
      MemosRead(memos[1..], z);
      assert [memos[0]] + memos[1..] == memos;
    }
  }

  predicate ValidHead(r: Release) {
    && r.ticket < Limit(8) && |r.custody| == 20 && |r.recipient| == 20 && r.amount < Limit(8) && r.decimals < Limit(1)
    && r.chain < Limit(2) && |r.emitter| == 32 && r.sequence < Limit(8)
  }

  lemma HeadReads(r: Release, z: seq<Byte>)
    requires ValidHead(r)
    ensures ParseHead(WriteHead(r, z)) == Ok((r.(token := Xrp, memos := []), z))
    ensures |WriteHead(r, z)| == 99 + |z|
  {
    hide Uint, Take, Drop, Limit;
    var t8 := BigEndian(r.sequence, 8) + z;
    var t7 := r.emitter + t8;
    var t6 := BigEndian(r.chain, 2) + t7;
    var t5 := BigEndian(r.decimals, 1) + t6;
    var t4 := BigEndian(r.amount, 8) + t5;
    var t3 := r.recipient + t4;
    UintReads(r.ticket, 8, r.custody + t3);
    TakeReads(r.custody, t3);
    TakeReads(r.recipient, t4);
    UintReads(r.amount, 8, t5);
    UintReads(r.decimals, 1, t6);
    UintReads(r.chain, 2, t7);
    TakeReads(r.emitter, t8);
    UintReads(r.sequence, 8, z);
  }

  lemma TailReads(r: Release, z: seq<Byte>)
    requires Valid(r)
    ensures ParseTail(r.(token := Xrp, memos := []), WriteTail(r, z)) == Ok((r, z))
    ensures |WriteTail(r, z)| >= 3
  {
    hide Uint, Take, Drop, Limit;
    TokenReads(r.token, BigEndian(|r.memos|, 2) + WriteMemos(r.memos, z));
    UintReads(|r.memos|, 2, WriteMemos(r.memos, z));
    MemosRead(r.memos, z);
  }

  /** Any release, with any number of memos and whatever bytes after it, is read back from its bytes. */
  lemma WrittenIsParsed(r: Release, z: seq<Byte>)
    requires Valid(r)
    ensures Parse(Write(r, z)) == Ok((r, z))
  {
    hide ParseHead, ParseTail, WriteHead, WriteTail, ValidToken, ValidMemos, Limit;
    HeadReads(r, WriteTail(r, z));
    TailReads(r, z);
    assert Write(r, z)[4..] == WriteBody(r, z);
  }

  // ---------- what is read was written ----------

  /** By how much the last memo's claimed type length passes the end of the buffer. */
  function Overrun(s: seq<Byte>, count: nat): nat
    decreases count
  {
    if count == 0 || ParseMemo(s).Err? then 0
    else if count == 1 then
      var data := Uint(s, 2).value;
      var format := Uint(Drop(data.1, data.0), 2).value;
      var kind := Uint(Drop(format.1, format.0), 2).value;
      if kind.0 > |kind.1| then kind.0 - |kind.1| else 0
    else Overrun(ParseMemo(s).value.1, count - 1)
  }

  lemma TokenWrote(s: seq<Byte>)
    requires ParseToken(s).Ok?
    ensures var (t, rest) := ParseToken(s).value;
            ValidToken(t) && s == WriteToken(t, rest)
  {
    var kind := Uint(s, 1).value;
    UintWrote(s, 1);
    assert BigEndian(kind.0, 1) == BigEndian(kind.0 / 256, 0) + [kind.0 % 256];
    assert s == [kind.0] + kind.1;
    var t := ParseToken(s).value.0;
    if t.Iou? {
      assert kind.1 == kind.1[..20] + (kind.1[20..40] + kind.1[40..]);
    } else if t.Mpt? {
      assert kind.1 == kind.1[..24] + kind.1[24..];
    }
  }

  /** A length-prefixed block whose content is all there. */
  lemma BlockWrote(s: seq<Byte>)
    requires |s| >= 2 && Uint(s, 2).value.0 <= |s| - 2
    ensures var (n, rest) := Uint(s, 2).value;
            |Take(rest, n)| == n && n < Limit(2) && s == WriteBlock(Take(rest, n), Drop(rest, n))
  {
    UintWrote(s, 2);
  }

  /** The type block of the memo at the head of a buffer, whose length may pass the end. */
  function KindBlock(s: seq<Byte>): seq<Byte>
    requires ParseMemo(s).Ok?
  {
    var data := Uint(s, 2).value;
    var format := Uint(Drop(data.1, data.0), 2).value;
    Drop(format.1, format.0)
  }

  /** The data and format of a memo are followed by a length, so they are all there. */
  lemma MemoStarts(s: seq<Byte>)
    requires ParseMemo(s).Ok?
    ensures var m := ParseMemo(s).value.0;
            && |m.data| < Limit(2) && |m.format| < Limit(2)
            && s == WriteBlock(m.data, WriteBlock(m.format, KindBlock(s)))
  {
    hide BigEndian, WriteBlock, Number, Take;
    var data := Uint(s, 2).value;
    BlockWrote(s);
    BlockWrote(Drop(data.1, data.0));
  }

  lemma KindBlockWrote(s: seq<Byte>)
    requires ParseMemo(s).Ok?
    ensures var (m, rest) := ParseMemo(s).value;
            && |m.kind| < Limit(2)
            && (Overrun(s, 1) == 0 ==> KindBlock(s) == WriteBlock(m.kind, rest))
  {
    hide BigEndian, WriteBlock, Number;
    var s3 := KindBlock(s);
    UintWrote(s3, 2);
    if Overrun(s, 1) == 0 {
      BlockWrote(s3);
    }
  }

  lemma MemoWrote(s: seq<Byte>)
    requires ParseMemo(s).Ok?
    ensures var (m, rest) := ParseMemo(s).value;
            && ValidMemo(m)
            && (Overrun(s, 1) == 0 <==> s == WriteMemo(m, rest))
            && (Overrun(s, 1) > 0 ==> rest == [])
  {
    var (m, rest) := ParseMemo(s).value;
    assert Overrun(s, 1) > 0 ==> rest == [];
    hide WriteBlock, ParseMemo, Overrun, KindBlock, Limit;
    MemoStarts(s);
    KindBlockWrote(s);
    if s == WriteMemo(m, rest) {
      MemoReads(m, rest);
    }
  }

  /** The first memo of written memos, read back. */
  lemma FirstMemoRead(s: seq<Byte>, memos: seq<Memo>, z: seq<Byte>)
    requires memos != [] && ValidMemo(memos[0]) && s == WriteMemos(memos, z)
    ensures ParseMemo(s) == Ok((memos[0], WriteMemos(memos[1..], z))) && Overrun(s, 1) == 0
  {
    hide ParseMemo, Overrun, WriteMemo, ValidMemo;
    MemoReads(memos[0], WriteMemos(memos[1..], z));
  }

  lemma MemosCons(first: Memo, others: seq<Memo>, z: seq<Byte>)
    ensures ValidMemos([first] + others) <==> ValidMemo(first) && ValidMemos(others)
    ensures WriteMemos([first] + others, z) == WriteMemo(first, WriteMemos(others, z))
  {
    hide ValidMemo, WriteMemo;
    var memos := [first] + others;
    assert memos[0] == first && memos[1..] == others;
    assert forall i :: 0 <= i < |others| ==> others[i] == memos[i + 1];
  }

  lemma {:induction false} MemosWrote(s: seq<Byte>, count: nat)
    requires ParseMemos(s, count).Ok?
    ensures var (memos, rest) := ParseMemos(s, count).value;
            && |memos| == count && ValidMemos(memos)
            && (Overrun(s, count) == 0 <==> s == WriteMemos(memos, rest))
    decreases count
  {
    if count > 0 {
      var (first, s1) := ParseMemo(s).value;
      var (others, rest) := ParseMemos(s1, count - 1).value;
      assert ParseMemos(s, count).value == ([first] + others, rest);
      hide ParseMemos, ParseMemo, WriteMemo, ValidMemo, ValidMemos, WriteMemos, Overrun;
      MoreMemosFit(s, count);
      MemosCons(first, others, rest);
      MemoWrote(s);
      MemosWrote(s1, count - 1);
      if s == WriteMemos([first] + others, rest) {
        FirstMemoRead(s, [first] + others, rest);
      }
    }
  }

  /** A memo with another one after it is all there. */
  lemma MoreMemosFit(s: seq<Byte>, count: nat)
    requires ParseMemos(s, count).Ok? && count > 0
    ensures count > 1 ==> Overrun(s, 1) == 0 && Overrun(s, count) == Overrun(ParseMemo(s).value.1, count - 1)
    ensures Overrun(ParseMemo(s).value.1, 0) == 0
  {
  }

  lemma HeadWrote(s: seq<Byte>)
    requires ParseHead(s).Ok?
    ensures var (r, rest) := ParseHead(s).value;
            ValidHead(r) && s == WriteHead(r, rest) && r.token == Xrp && r.memos == []
  {
    hide BigEndian, Number, Limit, Take, Drop, Uint;
    var ticket := Uint(s, 8).value;
    var s1 := Drop(ticket.1, 20);
    var s2 := Drop(s1, 20);
    var amount := Uint(s2, 8).value;
    var decimals := Uint(amount.1, 1).value;
    var chain := Uint(decimals.1, 2).value;
    var s3 := Drop(chain.1, 32);
    UintWrote(s3, 8);
    FieldWrote(chain.1, 32);
    UintWrote(decimals.1, 2);
    UintWrote(amount.1, 1);
    UintWrote(s2, 8);
    FieldWrote(s1, 20);
    FieldWrote(ticket.1, 20);
    UintWrote(s, 8);
  }

  /** By how much the final offset of the parser passes the end of the buffer. */
  function PastEnd(b: seq<Byte>): nat
    requires Parse(b).Ok?
  {
    var head := ParseHead(b[4..]).value;
    var count := Uint(ParseToken(head.1).value.1, 2).value;
    Overrun(count.1, count.0)
  }

  lemma TailWrote(head: Release, s: seq<Byte>)
    requires ParseTail(head, s).Ok?
    ensures var (r, rest) := ParseTail(head, s).value;
            var count := Uint(ParseToken(s).value.1, 2).value;
            && ValidToken(r.token) && |r.memos| < Limit(2) && ValidMemos(r.memos)
            && r == head.(token := r.token, memos := r.memos)
            && (Overrun(count.1, count.0) == 0 <==> s == WriteTail(r, rest))
  {
    hide Limit, BigEndian, Number, Overrun, ParseMemos, WriteMemos;
    var (token, s1) := ParseToken(s).value;
    var count := Uint(s1, 2).value;
    TokenWrote(s);
    UintWrote(s1, 2);
    MemosWrote(count.1, count.0);
    var (r, rest) := ParseTail(head, s).value;
    if s == WriteTail(r, rest) {
      TokenReads(r.token, BigEndian(|r.memos|, 2) + WriteMemos(r.memos, rest));
      UintReads(|r.memos|, 2, WriteMemos(r.memos, rest));
    }
  }

  /**
   * What is parsed is a valid release, and it was written there byte for byte exactly when the
   * prefix has no high bits and the parser did not run past the end.
   */
  lemma ParsedWasWritten(b: seq<Byte>)
    requires Parse(b).Ok?
    ensures var (r, rest) := Parse(b).value;
            && Valid(r)
            && (b == Write(r, rest) <==> b[..4] == Ascii("XREL") && PastEnd(b) == 0)
            && (b[4..] == WriteBody(r, rest) <==> PastEnd(b) == 0)
  {
    hide ParseHead, ParseTail, WriteHead, WriteTail, ValidToken, ValidMemos, ValidHead, Limit, Overrun, ParseToken;
    var (head, s) := ParseHead(b[4..]).value;
    var (r, rest) := ParseTail(head, s).value;
    HeadWrote(b[4..]);
    TailWrote(head, s);
    HeadIgnoresTail(head, r, s);
    if b[4..] == WriteBody(r, rest) {
      HeadReads(r, WriteTail(r, rest));
    }
    if b == Write(r, rest) {
      assert b[..4] == Ascii("XREL") && b[4..] == WriteBody(r, rest);
    }
    assert b == b[..4] + b[4..];
  }

  lemma HeadIgnoresTail(head: Release, r: Release, z: seq<Byte>)
    requires r == head.(token := r.token, memos := r.memos)
    ensures WriteHead(r, z) == WriteHead(head, z) && (ValidHead(r) <==> ValidHead(head))
  {
  }

  /** The prefix's high bits make no difference: buffers that are not written by the layout are accepted. */
  lemma HighBitsIgnored(b: seq<Byte>, c: seq<Byte>)
    requires |b| == |c| >= 4 && b[4..] == c[4..] && forall i :: 0 <= i < 4 ==> b[i] % 128 == c[i] % 128
    ensures Parse(b) == Parse(c)
  {
    hide ParseHead, ParseTail;
  }

  // The two ways in which an accepted buffer is not what the layout would write.

  function Blank(n: nat): seq<Byte> { seq(n, _ => 0) }

  const BlankRelease := Release(0, Blank(20), Blank(20), 0, 0, 0, Blank(32), 0, Xrp, [])

  /** The first byte of the prefix with its high bit set. */
  lemma HighBitAccepted() returns (b: seq<Byte>)
    ensures Parse(b) == Ok((BlankRelease, [])) && PastEnd(b) == 0
    ensures b != Write(BlankRelease, [])
  {
    hide ParseHead, ParseTail, WriteHead, WriteTail, Valid, Limit, Overrun, ParseToken;
    var w := Write(BlankRelease, []);
    assert Valid(BlankRelease) by { ValidBlank(); }
    WrittenIsParsed(BlankRelease, []);
    b := w[0 := 128 + 'X' as int];
    assert w[0] == 'X' as int;
    assert b[4..] == w[4..];
    HighBitsIgnored(b, w);
    ParsedWasWritten(w);
  }

  lemma ValidBlank()
    ensures Valid(BlankRelease) && ValidHead(BlankRelease)
  {
    assert Limit(1) == Limit(0) * 256 && Limit(2) == Limit(1) * 256 && Limit(8) >= 1;
  }

  /** A token kind, a count of one, and a memo of nothing but lengths, the last of them one. */
  const ShortMemo: seq<Byte> := [0] + ([0, 1] + ([0, 0] + ([0, 0] + [0, 1])))

  lemma ShortMemoReads()
    ensures ParseTail(BlankRelease, ShortMemo) == Ok((BlankRelease.(memos := [Memo([], [], [])]), []))
    ensures var count := Uint(ParseToken(ShortMemo).value.1, 2).value; Overrun(count.1, count.0) == 1
  {
    hide Uint, Drop, Take;
    TwoBytes(0);
    TwoBytes(1);
    var lengths: seq<Byte> := [0, 0] + ([0, 0] + [0, 1]);
    TokenReads(Xrp, [0, 1] + lengths);
    assert WriteToken(Xrp, [0, 1] + lengths) == ShortMemo;
    UintReads(1, 2, lengths);
    UintReads(0, 2, [0, 0] + [0, 1]);
    UintReads(0, 2, [0, 1]);
    UintReads(1, 2, []);
    assert [0, 1] + [] == [0, 1];
    NothingTaken([0, 0] + [0, 1]);
    NothingTaken([0, 1]);
    assert Take([], 1) == [] && Drop([], 1) == [] by { NothingLeft(); }
    assert ParseMemo(lengths) == Ok((Memo([], [], []), []));
    assert Overrun(lengths, 1) == 1;
    OneMemo(lengths);
    assert ParseMemos(lengths, 1) == Ok(([Memo([], [], [])], []));
    assert ParseToken(ShortMemo) == Ok((Xrp, [0, 1] + lengths));
  }

  lemma TwoBytes(v: Byte)
    ensures BigEndian(v, 2) == [0, v] && v < Limit(2)
  {
    assert BigEndian(v / 256 / 256, 0) == [] && v / 256 == 0 && v % 256 == v;
    assert BigEndian(v / 256, 1) == [] + [0];
    assert Limit(0) == 1 && Limit(1) == 256;
  }

  lemma OneMemo(s: seq<Byte>)
    requires ParseMemo(s).Ok?
    ensures ParseMemos(s, 1) == Ok(([ParseMemo(s).value.0], ParseMemo(s).value.1))
  {
    hide ParseMemo;
    var (first, rest) := ParseMemo(s).value;
    assert ParseMemos(rest, 0) == Ok(([], rest)) && [first] + [] == [first];
  }

  lemma NothingTaken(s: seq<Byte>)
    ensures Take(s, 0) == [] && Drop(s, 0) == s
  {
  }

  lemma NothingLeft()
    ensures Take([], 1) == [] && Drop([], 1) == []
  {
  }

  /** A buffer of 112 bytes whose memo claims a type longer than what is left. */
  lemma TruncatedTypeAccepted() returns (b: seq<Byte>)
    ensures |b| == 112 && b[..4] == Ascii("XREL")
    ensures Parse(b) == Ok((BlankRelease.(memos := [Memo([], [], [])]), [])) && PastEnd(b) == 1
    ensures b != Write(Parse(b).value.0, Parse(b).value.1)
  {
    hide ParseHead, ParseTail, WriteHead, Limit, Overrun, ParseToken, Uint, ShortMemo;
    var s := WriteHead(BlankRelease, ShortMemo);
    ValidBlank();
    HeadReads(BlankRelease, ShortMemo);
    assert |ShortMemo| == 9 by { ShortMemoLength(); }
    b := Ascii("XREL") + s;
    assert b[4..] == s;
    ShortMemoReads();
    assert BlankRelease.(token := Xrp, memos := []) == BlankRelease;
    ParsedWasWritten(b);
  }

  lemma ShortMemoLength()
    ensures |ShortMemo| == 9
  {
  }

  // ---------- the code ----------

  method ReadToken(b: seq<Byte>, start: nat) returns (r: Result<(Token, nat), Fault>)
    requires start <= |b|
    ensures var spec := ParseToken(b[start..]);
            && (r.Ok? <==> spec.Ok?) && (r.Err? ==> r.error == spec.error)
            && (r.Ok? ==> start < r.value.1 <= |b| && spec.value == (r.value.0, b[r.value.1..]))
  {
    hide Number;
    var offset := start;
    var kind :- ReadUint(b, offset, 1);
    offset := offset + 1;
    if kind == 0 {
      return Ok((Xrp, offset));
    } else if kind == 1 {
      if |b| < offset + 40 {
        return Err(TooShort);
      }
      var currency := b[offset..offset + 20];
      offset := offset + 20;
      var issuer := b[offset..offset + 20];
      offset := offset + 20;
      assert b[start + 1..][..20] == currency && b[start + 1..][20..40] == issuer;
      return Ok((Iou(currency, issuer), offset));
    } else if kind == 2 {
      if |b| < offset + 24 {
        return Err(TooShort);
      }
      var issuance := b[offset..offset + 24];
      offset := offset + 24;
      assert b[start + 1..][..24] == issuance;
      return Ok((Mpt(issuance), offset));
    } else {
      return Err(BadTokenType);
    }
  }

  method ReadMemo(b: seq<Byte>, start: nat) returns (r: Result<(Memo, nat), Fault>)
    ensures var spec := ParseMemo(Rest(b, start));
            && (r.Ok? <==> spec.Ok?) && (r.Err? ==> r.error == spec.error)
            && (r.Ok? ==> spec.value == (r.value.0, Rest(b, r.value.1)))
  {
    hide Uint, Take, Drop, Rest;
    var offset := start;
    var dataLen :- ReadUint(b, offset, 2);
    offset := offset + 2;
    var data := Subarray(b, offset, dataLen);
    offset := offset + dataLen;
    var formatLen :- ReadUint(b, offset, 2);
    offset := offset + 2;
    var format := Subarray(b, offset, formatLen);
    offset := offset + formatLen;
    var kindLen :- ReadUint(b, offset, 2);
    offset := offset + 2;
    var kind := Subarray(b, offset, kindLen);
    offset := offset + kindLen;
    return Ok((Memo(data, format, kind), offset));
  }

  /** Reading the first k memos and then the others is reading them all. */
  lemma {:induction false} MemosInTwo(s: seq<Byte>, k: nat, count: nat)
    requires k <= count && ParseMemos(s, k).Ok?
    ensures var (memos, rest) := ParseMemos(s, k).value;
            ParseMemos(s, count) ==
              match ParseMemos(rest, count - k)
              case Ok(p) => Ok((memos + p.0, p.1))
              case Err(e) => Err(e)
    decreases k
  {
    hide ParseMemo;
    if k > 0 {
      var (first, s1) := ParseMemo(s).value;
      MemosInTwo(s1, k - 1, count - 1);
      var (others, rest) := ParseMemos(s1, k - 1).value;
      if ParseMemos(rest, count - k).Ok? {
        var last := ParseMemos(rest, count - k).value.0;
        assert [first] + (others + last) == ([first] + others) + last;
      }
    } else if ParseMemos(s, count).Ok? {
      assert [] + ParseMemos(s, count).value.0 == ParseMemos(s, count).value.0;
    }
  }

  method ReadMemos(b: seq<Byte>, start: nat, count: nat) returns (r: Result<(seq<Memo>, nat), Fault>)
    ensures var spec := ParseMemos(Rest(b, start), count);
            && (r.Ok? <==> spec.Ok?) && (r.Err? ==> r.error == spec.error)
            && (r.Ok? ==> spec.value == (r.value.0, Rest(b, r.value.1)))
  {
    hide ParseMemo, Rest;
    var offset, memos := start, [];
    for i := 0 to count
      invariant ParseMemos(Rest(b, start), i) == Ok((memos, Rest(b, offset)))
    {
      ghost var here := Rest(b, offset);
      MemosInTwo(Rest(b, start), i, count);
      MemosInTwo(Rest(b, start), i, i + 1);
      NextMemo(here, count - i);
      var memo :- ReadMemo(b, offset);
      memos := memos + [memo.0];
      offset := memo.1;
    }
    return Ok((memos, offset));
  }

  lemma NextMemo(s: seq<Byte>, count: nat)
    requires count > 0
    ensures ParseMemo(s).Ok? ==> ParseMemos(s, 1) == Ok(([ParseMemo(s).value.0], ParseMemo(s).value.1))
    ensures ParseMemo(s).Err? ==> ParseMemos(s, 1) == Err(ParseMemo(s).error)
    ensures ParseMemo(s).Err? ==> ParseMemos(s, count) == Err(ParseMemo(s).error)
  {
    hide ParseMemo;
    if ParseMemo(s).Ok? {
      assert ParseMemos(ParseMemo(s).value.1, 0) == Ok(([], ParseMemo(s).value.1));
      assert [ParseMemo(s).value.0] + [] == [ParseMemo(s).value.0];
    }
  }

  method ReadHead(b: seq<Byte>, start: nat) returns (r: Result<(Release, nat), Fault>)
    ensures var spec := ParseHead(Rest(b, start));
            && (r.Ok? <==> spec.Ok?) && (r.Err? ==> r.error == spec.error)
            && (r.Ok? ==> spec.value == (r.value.0, Rest(b, r.value.1)) && r.value.1 == start + 99)
  {
    hide Uint, Take, Drop, Rest;
    var offset := start;
    var ticket :- ReadUint(b, offset, 8);
    offset := offset + 8;
    var custody := Subarray(b, offset, 20);
    offset := offset + 20;
    var recipient := Subarray(b, offset, 20);
    offset := offset + 20;
    var amount :- ReadUint(b, offset, 8);
    offset := offset + 8;
    var decimals :- ReadUint(b, offset, 1);
    offset := offset + 1;
    var chain :- ReadUint(b, offset, 2);
    offset := offset + 2;
    var emitter := Subarray(b, offset, 32);
    offset := offset + 32;
    var sequence :- ReadUint(b, offset, 8);
    offset := offset + 8;
    return Ok((Release(ticket, custody, recipient, amount, decimals, chain, emitter, sequence, Xrp, []), offset));
  }

  /** The release parser. */
  method ParseXrel(b: seq<Byte>) returns (r: Result<Release, Fault>)
    ensures r.Ok? <==> Parse(b).Ok?
    ensures r.Ok? ==> r.value == Parse(b).value.0
    ensures r.Err? ==> r.error == Parse(b).error
  {
    hide Uint, Take, Drop, ParseHead, ParseToken, ParseMemos;
    if |b| < 106 {
      return Err(TooShort);
    }
    if !HasPrefix(b, "XREL") {
      return Err(BadPrefix);
    }
    DropIsSlice(b, 4);
    DropIsSlice(b, 103);
    var head :- ReadHead(b, 4);
    var token :- ReadToken(b, head.1);
    var offset := token.1;
    DropIsSlice(b, offset);
    var count :- ReadUint(b, offset, 2);
    offset := offset + 2;
    var memos :- ReadMemos(b, offset, count);
    return Ok(head.0.(token := token.0, memos := memos.0));
  }
}

/** The onboarding and admin payload builders, and what the parsers make of what they build. */
module PayloadBuilders {
  import opened Bytes
  import opened Outcomes
  import opened Texts
  import opened Wire
  import opened Hex
  import opened XrplPayloads

  /** An r-address, as the 20 bytes it decodes to. */
  type Account = s: seq<Byte> | |s| == 20 witness seq(20, _ => 0)

  datatype TokenInit = XrpInit | IouInit(currency: string, issuer: Account) | MptInit(mptId: string)

  datatype BuildFault = NotAByte | NotAU64 | BadCurrency | BadIssuance | AppTooLong | BadAddress | BadChainId | TooWide

  function U8Hex(n: real): Result<string, BuildFault>
  {
    if n != n.Floor as real || n < 0.0 || n > 255.0 then Err(NotAByte) else Ok(PadStart(Digits(n.Floor), 2))
  }

  function U64Hex(n: int): Result<string, BuildFault>
  {
    if n < 0 || n > Limit(8) - 1 then Err(NotAU64) else Ok(PadStart(Digits(n), 16))
  }

  function PadRight(hex: string, bytes: nat): Result<string, BuildFault>
  {
    if |hex| > bytes * 2 then Err(TooWide) else Ok(PadEnd(hex, bytes * 2))
  }

  // ---------- currency codes ----------

  function CharCode(c: char): Byte { c as int % 256 }

  /** The 20 bytes of a currency code: given in hex, or up to three characters at byte 12. */
  function CurrencyBytes(currency: string): Result<seq<Byte>, BuildFault>
  {
    if |currency| == 40 && IsHex(currency) then Ok(FromHex(currency))
    else if 1 <= |currency| <= 3 then
      Ok(seq(20, i requires 0 <= i < 20 => if 12 <= i < 12 + |currency| then CharCode(currency[i - 12]) else 0))
    else Err(BadCurrency)
  }

  method CurrencyToHex40(currency: string) returns (r: Result<string, BuildFault>)
    ensures r == (match CurrencyBytes(currency) case Ok(b) => Ok(ToHex(b)) case Err(e) => Err(e))
  {
    if |currency| == 40 && IsHex(currency) {
      LowerShows(currency);
      return Ok(Lower(currency));
    }
    if 1 <= |currency| <= 3 {
      var buf := new Byte[20](_ => 0);
      for i := 0 to |currency|
        invariant forall j :: 0 <= j < 20 ==> buf[j] == if 12 <= j < 12 + i then CharCode(currency[j - 12]) else 0
      {
        buf[12 + i] := CharCode(currency[i]);
      }
      assert buf[..] == CurrencyBytes(currency).value;
      return Ok(ToHex(buf[..]));
    }
    return Err(BadCurrency);
  }

  // ---------- init data ----------

  function CurrencyHex(currency: string): Result<string, BuildFault>
  {
    match CurrencyBytes(currency) case Ok(b) => Ok(ToHex(b)) case Err(e) => Err(e)
  }

  function BuildInitData(decimals: real, token: TokenInit): Result<string, BuildFault>
  {
    var dec :- U8Hex(decimals);
    match token
    case XrpInit => Ok(dec)
    case IouInit(currency, issuer) =>
      var code :- CurrencyHex(currency);
      var padded :- PadRight("01" + code + ToHex(issuer), 42);
      Ok(dec + padded)
    case MptInit(mptId) =>
      if |mptId| != 48 || !IsHex(mptId) then Err(BadIssuance) else
        var padded :- PadRight("02" + mptId, 42);
        Ok(dec + padded)
  }

  // ---------- when two currency codes are the same ----------

  /** The byte at the i-th of the three places of a short code. */
  function ShortByte(code: string, i: nat): Byte { if i < |code| then CharCode(code[i]) else 0 }

  /** A spelling in 40 hex digits of a code of up to three characters. */
  predicate SpellsShort(hex: string, code: string)
    requires |hex| == 40 && IsHex(hex)
  {
    forall k: nat :: k < 20 ==> PairValue(hex, k) == if 12 <= k < 15 then ShortByte(code, k - 12) else 0
  }

  predicate AcceptedCode(code: string) { (|code| == 40 && IsHex(code)) || 1 <= |code| <= 3 }

  /**
   * Two spellings of one code: hex in any case; characters that agree in their low bytes, a missing
   * one counting as a zero; or hex with the short code's bytes at 12 to 14 and zeros elsewhere.
   */
  predicate SameCode(c: string, d: string)
    requires AcceptedCode(c) && AcceptedCode(d)
  {
    if |c| == 40 && |d| == 40 then Lower(c) == Lower(d)
    else if |c| == 40 then SpellsShort(c, d)
    else if |d| == 40 then SpellsShort(d, c)
    else forall i: nat :: i < 3 ==> ShortByte(c, i) == ShortByte(d, i)
  }

  lemma CurrencyAt(code: string)
    ensures CurrencyBytes(code).Ok? <==> AcceptedCode(code)
    ensures AcceptedCode(code) ==> |CurrencyBytes(code).value| == 20
    ensures forall k: nat :: AcceptedCode(code) && k < 20 ==>
              CurrencyBytes(code).value[k] ==
                if |code| == 40 then PairValue(code, k) else if 12 <= k < 15 then ShortByte(code, k - 12) else 0
  {
    if |code| == 40 && IsHex(code) {
      PairsRead(code);
    }
  }

  /** Two accepted codes have the same bytes exactly when they spell the same code. */
  lemma CurrencyCollision(c: string, d: string)
    requires CurrencyBytes(c).Ok? && CurrencyBytes(d).Ok?
    ensures AcceptedCode(c) && AcceptedCode(d)
    ensures CurrencyBytes(c) == CurrencyBytes(d) <==> SameCode(c, d)
  {
    CurrencyAt(c);
    CurrencyAt(d);
    if |c| == 40 && |d| == 40 {
      CaseOnly(c, d);
    } else {
      MixedCollision(c, d);
    }
  }

  lemma MixedCollision(c: string, d: string)
    requires AcceptedCode(c) && AcceptedCode(d) && !(|c| == 40 && |d| == 40)
    ensures CurrencyBytes(c) == CurrencyBytes(d) <==> SameCode(c, d)
  {
    CurrencyAt(c);
    CurrencyAt(d);
    hide CurrencyBytes, ShortByte, PairValue, IsHex;
    var a, b := CurrencyBytes(c).value, CurrencyBytes(d).value;
    assert a == b <==> forall k: nat :: k < 20 ==> a[k] == b[k];
    if |c| <= 3 && |d| <= 3 {
      assert a[12] == ShortByte(c, 0) && a[13] == ShortByte(c, 1) && a[14] == ShortByte(c, 2);
      assert b[12] == ShortByte(d, 0) && b[13] == ShortByte(d, 1) && b[14] == ShortByte(d, 2);
    }
  }

  /** The hex that is sent for a code is itself a spelling of the code. */
  lemma HexSpelling(code: string)
    requires AcceptedCode(code)
    ensures CurrencyBytes(ToHex(CurrencyBytes(code).value)) == CurrencyBytes(code)
  {
    CurrencyAt(code);
    hide FromHex, ToHex;
    ReadBack(CurrencyBytes(code).value);
  }

  /** Collisions by the high byte of a character and by a trailing zero; letter case does not collide. */
  lemma CollidingCodes()
    ensures CurrencyBytes("A") == CurrencyBytes("\U{0141}") && CurrencyBytes("A") == CurrencyBytes("A\0")
    ensures CurrencyBytes("A") != CurrencyBytes("a")
  {
    hide CurrencyBytes, IsHex;
    CurrencyAt("A");
    CurrencyAt("\U{0141}");
    CurrencyAt("A\0");
    CurrencyAt("a");
    CurrencyCollision("A", "\U{0141}");
    CurrencyCollision("A", "A\0");
    CurrencyCollision("A", "a");
    assert ShortByte("A", 0) != ShortByte("a", 0);
  }

  // ---------- when two init data are the same ----------

  predicate SameToken(a: TokenInit, b: TokenInit) {
    match (a, b)
    case (XrpInit, XrpInit) => true
    case (IouInit(c, i), IouInit(d, j)) => AcceptedCode(c) && AcceptedCode(d) && SameCode(c, d) && i == j
    case (MptInit(m), MptInit(n)) => Lower(m) == Lower(n)
    case _ => false
  }

  /** What built init data reads as: the decimals, then for a token its tag and fields, padded. */
  function InitDataBytes(decimals: Byte, token: TokenInit): seq<Byte>
  {
    match token
    case XrpInit => [decimals]
    case IouInit(currency, issuer) =>
      var code := CurrencyBytes(currency);
      if code.Err? then [] else [decimals] + ([1] + code.value + issuer + [0])
    case MptInit(mptId) => [decimals] + ([2] + FromHex(mptId) + seq(17, _ => 0))
  }

  lemma ByteShown(n: real)
    requires U8Hex(n).Ok?
    ensures n.Floor as real == n && 0 <= n.Floor < 256
    ensures U8Hex(n) == Ok(ToHex([n.Floor as Byte])) && |U8Hex(n).value| == 2
  {
    PaddedShows(n.Floor, 1);
    assert BigEndian(n.Floor, 1) == BigEndian(n.Floor / 256, 0) + [n.Floor % 256];
  }

  lemma InitDataReads(decimals: real, token: TokenInit)
    requires BuildInitData(decimals, token).Ok?
    ensures decimals.Floor as real == decimals && 0 <= decimals.Floor < 256
    ensures FromHex(BuildInitData(decimals, token).value) == InitDataBytes(decimals.Floor, token)
  {
    ByteShown(decimals);
    hide U8Hex, PadEnd, ToHex, CurrencyBytes, FromHex, IsHex;
    var dec: seq<Byte> := [decimals.Floor];
    match token
    case XrpInit =>
      ReadBack(dec);
    case IouInit(currency, issuer) =>
      CurrencyAt(currency);
      IouReads(CurrencyBytes(currency).value, issuer);
      ReadField(ToHex(dec), dec, PadEnd("01" + ToHex(CurrencyBytes(currency).value) + ToHex(issuer), 84));
    case MptInit(mptId) =>
      MptReads(mptId);
      ReadField(ToHex(dec), dec, PadEnd("02" + mptId, 84));
  }

  lemma IouReads(code: seq<Byte>, issuer: Account)
    requires |code| == 20
    ensures FromHex(PadEnd("01" + ToHex(code) + ToHex(issuer), 84)) == [1] + code + issuer + [0]
  {
    hide PadEnd, ToHex, FromHex, IsHex;
    HexAppend(ToHex(code), ToHex(issuer));
    TagReads("01", 1, ToHex(code) + ToHex(issuer));
    ShownIsRead(code, ToHex(issuer));
    ReadBack(issuer);
    var s := "01" + ToHex(code) + ToHex(issuer);
    assert s == "01" + (ToHex(code) + ToHex(issuer));
    PadEndReads(s, 42);
    assert [1] + (code + issuer) + seq(1, _ => 0) == [1] + code + issuer + [0];
  }

  lemma MptReads(mptId: string)
    requires |mptId| == 48 && IsHex(mptId)
    ensures FromHex(PadEnd("02" + mptId, 84)) == [2] + FromHex(mptId) + seq(17, _ => 0)
  {
    hide PadEnd, FromHex, IsHex;
    TagReads("02", 2, mptId);
    PadEndReads("02" + mptId, 42);
  }

  lemma HexAppend(s: string, t: string)
    requires IsHex(s) && IsHex(t)
    ensures IsHex(s + t)
  {
  }

  lemma TagReads(hex: string, tag: Byte, t: string)
    requires hex == Fixed(tag, 2) && IsHex(t) && |t| % 2 == 0
    ensures FromHex(hex + t) == [tag] + FromHex(t)
    ensures IsHex(hex + t) && |hex + t| % 2 == 0
  {
    hide FromHex, Nibble;
    FixedShows(tag, 1);
    assert BigEndian(tag, 1) == BigEndian(tag / 256, 0) + [tag % 256] == [tag];
    ShownIsRead([tag], t);
    HexAppend(hex, t);
  }

  /** Init data reads the same exactly for the same decimals and the same token. */
  lemma InitDataInjective(d: real, t: TokenInit, d': real, t': TokenInit)
    requires BuildInitData(d, t).Ok? && BuildInitData(d', t').Ok?
    ensures var h, h' := BuildInitData(d, t).value, BuildInitData(d', t').value;
            FromHex(h) == FromHex(h') <==> d == d' && SameToken(t, t')
  {
    InitDataReads(d, t);
    InitDataReads(d', t');
    AcceptedToken(d, t);
    AcceptedToken(d', t');
    InitBytesInjective(d.Floor, t, d'.Floor, t');
  }

  lemma AcceptedToken(d: real, t: TokenInit)
    requires BuildInitData(d, t).Ok?
    ensures t.IouInit? ==> AcceptedCode(t.currency)
    ensures t.MptInit? ==> |t.mptId| == 48 && IsHex(t.mptId)
  {
    if t.IouInit? {
      CurrencyAt(t.currency);
    }
  }

  lemma InitBytesInjective(d: Byte, t: TokenInit, d': Byte, t': TokenInit)
    requires t.IouInit? ==> AcceptedCode(t.currency)
    requires t'.IouInit? ==> AcceptedCode(t'.currency)
    requires t.MptInit? ==> |t.mptId| == 48 && IsHex(t.mptId)
    requires t'.MptInit? ==> |t'.mptId| == 48 && IsHex(t'.mptId)
    ensures InitDataBytes(d, t) == InitDataBytes(d', t') <==> d == d' && SameToken(t, t')
  {
    InitBytesShape(d, t);
    InitBytesShape(d', t');
    hide CurrencyBytes, FromHex, AcceptedCode, SameCode, IsHex;
    match (t, t')
    case (IouInit(c, i), IouInit(c', i')) =>
      CurrencyAt(c);
      CurrencyAt(c');
      CurrencyCollision(c, c');
    case (MptInit(m), MptInit(m')) =>
      CaseOnly(m, m');
    case _ =>
  }

  lemma InitBytesShape(d: Byte, t: TokenInit)
    requires t.IouInit? ==> AcceptedCode(t.currency)
    requires t.MptInit? ==> |t.mptId| == 48 && IsHex(t.mptId)
    ensures var s := InitDataBytes(d, t);
            && s != [] && s[0] == d
            && (t.XrpInit? ==> s == [d])
            && (t.IouInit? ==>
                  && |s| == 43 && s[1] == 1 && CurrencyBytes(t.currency) == Ok(s[2..22]) && s[22..42] == t.issuer)
            && (t.MptInit? ==> |s| == 43 && s[1] == 2 && s[2..26] == FromHex(t.mptId))
  {
    hide CurrencyBytes, FromHex, AcceptedCode, IsHex;
    if t.IouInit? {
      CurrencyAt(t.currency);
      IouFields(InitDataBytes(d, t), d, CurrencyBytes(t.currency).value, t.issuer);
    } else if t.MptInit? {
      ReadAppend(t.mptId, "");
      MptFields(InitDataBytes(d, t), d, FromHex(t.mptId));
    }
  }

  lemma IouFields(s: seq<Byte>, d: Byte, code: seq<Byte>, issuer: Account)
    requires |code| == 20 && s == [d] + ([1] + code + issuer + [0])
    ensures |s| == 43 && s[0] == d && s[1] == 1 && s[2..22] == code && s[22..42] == issuer
  {
  }

  lemma MptFields(s: seq<Byte>, d: Byte, id: seq<Byte>)
    requires |id| == 24 && s == [d] + ([2] + id + seq(17, _ => 0))
    ensures |s| == 43 && s[0] == d && s[1] == 2 && s[2..26] == id
  {
  }

  // ---------- the onboarding payload ----------

  function BuildOnboarding(admin: Account, app: seq<Byte>, initialTicket: int, ticketCount: int, initData: string)
    : Result<string, BuildFault>
  {
    var appHex := ToHex(app);
    if |appHex| > 64 then Err(AppTooLong) else
      var ticket :- U64Hex(initialTicket);
      var count :- U64Hex(ticketCount);
      Ok("5852504C" + ToHex(admin) + PadStart(appHex, 64) + ticket + count + initData)
  }

  /** Hex text in front is read first. */
  lemma ReadField(hex: string, b: seq<Byte>, t: string)
    requires hex == ToHex(b)
    ensures FromHex(hex + t) == b + FromHex(t)
  {
    ShownIsRead(b, t);
  }

  lemma U64Shown(n: int)
    requires U64Hex(n).Ok?
    ensures 0 <= n < Limit(8) && U64Hex(n).value == ToHex(BigEndian(n, 8))
  {
    PaddedShows(n, 8);
  }

  lemma OnboardingBytes(admin: Account, app: seq<Byte>, initialTicket: int, ticketCount: int, initData: string)
    requires BuildOnboarding(admin, app, initialTicket, ticketCount, initData).Ok?
    ensures 0 <= initialTicket < Limit(8) && 0 <= ticketCount < Limit(8) && |app| <= 32
    ensures FromHex(BuildOnboarding(admin, app, initialTicket, ticketCount, initData).value) ==
              Ascii("XRPL") + (admin + ((seq(32 - |app|, _ => 0) + app)
              + (BigEndian(initialTicket, 8) + (BigEndian(ticketCount, 8) + FromHex(initData)))))
  {
    U64Shown(initialTicket);
    U64Shown(ticketCount);
    PaddedFront(app, 32);
    hide ToHex, FromHex, BigEndian, PadStart, U64Hex, Ascii;
    var padded := seq(32 - |app|, _ => 0) + app;
    var ticket, count := ToHex(BigEndian(initialTicket, 8)), ToHex(BigEndian(ticketCount, 8));
    Nest("5852504C", ToHex(admin), ToHex(padded), ticket, count, initData);
    var t3 := count + initData;
    var t2 := ticket + t3;
    var t1 := ToHex(padded) + t2;
    OnboardingPrefix(ToHex(admin) + t1);
    ReadField(ToHex(admin), admin, t1);
    ReadField(ToHex(padded), padded, t2);
    ReadField(ticket, BigEndian(initialTicket, 8), t3);
    ReadField(count, BigEndian(ticketCount, 8), initData);
  }

  lemma Nest(a: string, b: string, c: string, d: string, e: string, f: string)
    ensures a + b + c + d + e + f == a + (b + (c + (d + (e + f))))
  {
  }

  lemma OnboardingPrefix(t: string)
    ensures FromHex("5852504C" + t) == Ascii("XRPL") + FromHex(t)
  {
    hide FromHex;
    ReadPair('5', '8', "52504C" + t);
    ReadPair('5', '2', "504C" + t);
    ReadPair('5', '0', "4C" + t);
    ReadPair('4', 'C', t);
    assert "5852504C" + t == ['5', '8'] + ("52504C" + t);
    assert "52504C" + t == ['5', '2'] + ("504C" + t);
    assert "504C" + t == ['5', '0'] + ("4C" + t);
    assert "4C" + t == ['4', 'C'] + t;
  }

  lemma {:induction false} StripPadding(n: nat, s: seq<Byte>)
    ensures StripZeros(seq(n, _ => 0) + s) == StripZeros(s)
  {
    var padded := seq(n, _ => 0) + s;
    if n == 0 {
      assert padded == s;
    } else {
      assert padded[1..] == seq(n - 1, _ => 0) + s;
      StripPadding(n - 1, s);
    }
  }

  lemma {:induction false} StripKeeps(s: seq<Byte>)
    ensures |StripZeros(s)| <= |s|
    ensures StripZeros(s) == s <==> s == [] || s[0] != 0
  {
    if s != [] {
      StripKeeps(s[1..]);
    }
  }

  lemma FieldAt(b: seq<Byte>, at: nat, f: seq<Byte>, z: seq<Byte>)
    requires at <= |b| && b[at..] == f + z
    ensures at + |f| <= |b| && b[at..at + |f|] == f && b[at + |f|..] == z
  {
    assert b[at..][..|f|] == f && b[at..][|f|..] == z;
  }

  lemma ParseFields(admin: Account, raw: seq<Byte>, ticket: nat, count: nat, tail: seq<Byte>)
    requires |raw| == 32 && ticket < Limit(8) && count < Limit(8)
    ensures ParseOnboarding(Ascii("XRPL") + (admin + (raw + (BigEndian(ticket, 8) + (BigEndian(count, 8) + tail))))) ==
              Ok(Onboarding(admin, StripZeros(raw), ticket, count, tail))
  {
    hide StripZeros, BigEndian, Limit, Number;
    NumberOfBytes(ticket, 8);
    NumberOfBytes(count, 8);
    var t4 := BigEndian(count, 8) + tail;
    var t3 := BigEndian(ticket, 8) + t4;
    var t2 := raw + t3;
    var b := Ascii("XRPL") + (admin + t2);
    assert HasPrefix(b, "XRPL");
    FieldAt(b, 4, admin, t2);
    FieldAt(b, 24, raw, t3);
    FieldAt(b, 56, BigEndian(ticket, 8), t4);
    FieldAt(b, 64, BigEndian(count, 8), tail);
  }

  /**
   * A built onboarding payload is parsed as one, with the fields it was built from; the application
   * name comes back exactly when it does not begin with a zero byte.
   */
  lemma OnboardingRoundTrip(admin: Account, app: seq<Byte>, initialTicket: int, ticketCount: int, initData: string)
    requires BuildOnboarding(admin, app, initialTicket, ticketCount, initData).Ok?
    ensures var parsed :=
              ParsePayload(FromHex(BuildOnboarding(admin, app, initialTicket, ticketCount, initData).value));
            && parsed.OnboardingPayload?
            && var o := parsed.onboarding;
            && o.admin == admin && o.initialTicket == initialTicket && o.ticketCount == ticketCount
            && o.initData == FromHex(initData)
            && (o.appType == app <==> app == [] || app[0] != 0)
  {
    hide BuildOnboarding, ParsePayload, ParseOnboarding, FromHex, BigEndian, StripZeros, Limit;
    OnboardingBytes(admin, app, initialTicket, ticketCount, initData);
    ParseFields(admin, seq(32 - |app|, _ => 0) + app, initialTicket, ticketCount, FromHex(initData));
    StripPadding(32 - |app|, app);
    StripKeeps(app);
    DispatchIsExact(FromHex(BuildOnboarding(admin, app, initialTicket, ticketCount, initData).value));
  }

  /** A name that begins with a zero byte comes back without it. */
  lemma ZeroNameComesBackShorter(admin: Account, initialTicket: int, ticketCount: int, initData: string)
    requires BuildOnboarding(admin, [0, 65], initialTicket, ticketCount, initData).Ok?
    ensures var parsed :=
              ParsePayload(FromHex(BuildOnboarding(admin, [0, 65], initialTicket, ticketCount, initData).value));
            parsed.OnboardingPayload? && parsed.onboarding.appType == [65]
  {
    hide BuildOnboarding, ParsePayload, ParseOnboarding, FromHex, BigEndian, Limit;
    var app: seq<Byte> := [0, 65];
    OnboardingBytes(admin, app, initialTicket, ticketCount, initData);
    ParseFields(admin, seq(30, _ => 0) + app, initialTicket, ticketCount, FromHex(initData));
    StripPadding(30, app);
    assert StripZeros(app) == StripZeros([65]) == [65];
    DispatchIsExact(FromHex(BuildOnboarding(admin, app, initialTicket, ticketCount, initData).value));
  }

  // ---------- the admin payloads ----------

  function Strip0x(hex: string): string
  {
    if |hex| >= 2 && hex[0] == '0' && (hex[1] == 'x' || hex[1] == 'X') then hex[2..] else hex
  }

  function NormalizeAddress32(hex: string): Result<string, BuildFault>
  {
    var h := Lower(Strip0x(hex));
    if |h| != 64 || !IsHex(h) then Err(BadAddress) else Ok(h)
  }

  function ChainIdHex(chainId: real): Result<string, BuildFault>
  {
    if chainId != chainId.Floor as real || chainId < 0.0 || chainId > 65535.0 then Err(BadChainId)
    else Ok(PadStart(Digits(chainId.Floor), 4))
  }

  function BuildRegisterPeer(manager: Account, peerChainId: real, peerAddress: string): Result<string, BuildFault>
  {
    var chain :- ChainIdHex(peerChainId);
    var address :- NormalizeAddress32(peerAddress);
    Ok("5841444D" + "01" + ToHex(manager) + chain + address)
  }

  function BuildRotateAdmin(manager: Account, newAdmin: Account): string
  {
    "5841444D" + "02" + ToHex(manager) + ToHex(newAdmin)
  }

  lemma AdminPrefix(action: nat, t: string)
    requires action < 16
    ensures FromHex("5841444D" + (['0', Nibble(action)] + t)) == Ascii("XADM") + ([action as Byte] + FromHex(t))
  {
    hide FromHex, Nibble;
    var u := ['0', Nibble(action)] + t;
    ReadPair('5', '8', "41444D" + u);
    ReadPair('4', '1', "444D" + u);
    ReadPair('4', '4', "4D" + u);
    ReadPair('4', 'D', u);
    ReadPair('0', Nibble(action), t);
    assert "5841444D" + u == ['5', '8'] + ("41444D" + u);
    assert "41444D" + u == ['4', '1'] + ("444D" + u);
    assert "444D" + u == ['4', '4'] + ("4D" + u);
    assert "4D" + u == ['4', 'D'] + u;
  }

  lemma ChainShown(chainId: real)
    requires ChainIdHex(chainId).Ok?
    ensures 0 <= chainId.Floor < Limit(2) && chainId.Floor as real == chainId
    ensures ChainIdHex(chainId).value == ToHex(BigEndian(chainId.Floor, 2))
  {
    assert Limit(2) == Limit(1) * 256 && Limit(1) == Limit(0) * 256;
    PaddedShows(chainId.Floor, 2);
  }

  lemma AddressShown(hex: string)
    requires NormalizeAddress32(hex).Ok?
    ensures |FromHex(Strip0x(hex))| == 32 && NormalizeAddress32(hex).value == ToHex(FromHex(Strip0x(hex)))
  {
    var h := Strip0x(hex);
    assert IsHex(h) by {
      forall i | 0 <= i < |h|
        ensures HexValue(h[i]).Some?
      {
        assert HexValue(Lower(h)[i]).Some?;
      }
    }
    LowerShows(h);
    ReadAppend(h, "");
  }

  lemma RegisterPeerBytes(manager: Account, chain: seq<Byte>, address: seq<Byte>)
    ensures FromHex("5841444D" + ("01" + (ToHex(manager) + (ToHex(chain) + ToHex(address))))) ==
              Ascii("XADM") + ([1] + (manager + (chain + address)))
  {
    hide ToHex, FromHex, Ascii;
    AdminPrefix(1, ToHex(manager) + (ToHex(chain) + ToHex(address)));
    ReadField(ToHex(manager), manager, ToHex(chain) + ToHex(address));
    ReadField(ToHex(chain), chain, ToHex(address));
    ReadBack(address);
  }

  lemma RegisterPeerText(manager: Account, peerChainId: real, peerAddress: string)
    requires ChainIdHex(peerChainId).Ok? && NormalizeAddress32(peerAddress).Ok?
    ensures BuildRegisterPeer(manager, peerChainId, peerAddress) ==
              var address := NormalizeAddress32(peerAddress).value;
              Ok("5841444D" + ("01" + (ToHex(manager) + (ChainIdHex(peerChainId).value + address))))
  {
    hide ToHex, NormalizeAddress32, ChainIdHex;
    var chain, address := ChainIdHex(peerChainId).value, NormalizeAddress32(peerAddress).value;
    assert "5841444D" + "01" + ToHex(manager) + chain + address ==
      "5841444D" + ("01" + (ToHex(manager) + (chain + address)));
  }

  /** A built peer registration is parsed as one, with its manager, chain and address. */
  lemma RegisterPeerRoundTrip(manager: Account, peerChainId: real, peerAddress: string)
    requires BuildRegisterPeer(manager, peerChainId, peerAddress).Ok?
    ensures peerChainId >= 0.0
    ensures ParsePayload(FromHex(BuildRegisterPeer(manager, peerChainId, peerAddress).value)) ==
              AdminPayload(RegisterPeer(manager, peerChainId.Floor, FromHex(Strip0x(peerAddress))))
  {
    hide ToHex, FromHex, BigEndian, Strip0x, Limit, ParsePayload, NormalizeAddress32, ChainIdHex, Ascii, ParseAdmin;
    ChainShown(peerChainId);
    AddressShown(peerAddress);
    RegisterPeerText(manager, peerChainId, peerAddress);
    var address := FromHex(Strip0x(peerAddress));
    RegisterPeerBytes(manager, BigEndian(peerChainId.Floor, 2), address);
    ParseRegister(manager, peerChainId.Floor, address);
    DispatchIsExact(FromHex(BuildRegisterPeer(manager, peerChainId, peerAddress).value));
  }

  lemma ParseRegister(manager: Account, chainId: nat, address: seq<Byte>)
    requires chainId < Limit(2) && |address| == 32
    ensures ParseAdmin(Ascii("XADM") + ([1] + (manager + (BigEndian(chainId, 2) + address)))) ==
              Ok(RegisterPeer(manager, chainId, address))
  {
    hide BigEndian, Limit, Number;
    NumberOfBytes(chainId, 2);
    var b := Ascii("XADM") + ([1] + (manager + (BigEndian(chainId, 2) + address)));
    assert HasPrefix(b, "XADM");
    FieldAt(b, 4, [1], manager + (BigEndian(chainId, 2) + address));
    FieldAt(b, 5, manager, BigEndian(chainId, 2) + address);
    FieldAt(b, 25, BigEndian(chainId, 2), address);
    assert b[4] == b[4..5][0] && b[27..59] == address;
  }

  /** A built admin rotation is parsed as one, with its manager and new admin. */
  lemma RotateAdminRoundTrip(manager: Account, newAdmin: Account)
    ensures ParsePayload(FromHex(BuildRotateAdmin(manager, newAdmin))) == AdminPayload(RotateAdmin(manager, newAdmin))
  {
    hide ToHex, FromHex, ParsePayload, Ascii;
    var t := ToHex(manager) + ToHex(newAdmin);
    assert BuildRotateAdmin(manager, newAdmin) == "5841444D" + ("02" + t);
    AdminPrefix(2, t);
    ReadField(ToHex(manager), manager, ToHex(newAdmin));
    ReadBack(newAdmin);
    var b := Ascii("XADM") + ([2] + (manager + newAdmin));
    assert FromHex("5841444D" + ("02" + t)) == b;
    ParseRotate(manager, newAdmin);
    DispatchIsExact(b);
  }

  lemma ParseRotate(manager: Account, newAdmin: Account)
    ensures ParseAdmin(Ascii("XADM") + ([2] + (manager + newAdmin))) == Ok(RotateAdmin(manager, newAdmin))
  {
    var b := Ascii("XADM") + ([2] + (manager + newAdmin));
    assert HasPrefix(b, "XADM");
    FieldAt(b, 4, [2], manager + newAdmin);
    FieldAt(b, 5, manager, newAdmin);
    assert b[4] == b[4..5][0] && b[25..45] == newAdmin;
  }

  // ---------- what is accepted, and where it stands ----------

  /** A whole number of one byte, and what the token's kind asks of its text. */
  lemma InitDataAccepted(decimals: real, token: TokenInit)
    ensures BuildInitData(decimals, token).Ok? <==>
              && decimals.Floor as real == decimals && 0.0 <= decimals <= 255.0
              && (token.IouInit? ==> AcceptedCode(token.currency))
              && (token.MptInit? ==> |token.mptId| == 48 && IsHex(token.mptId))
  {
    hide PadEnd, ToHex, CurrencyBytes, IsHex, FromHex;
    if token.IouInit? {
      CurrencyAt(token.currency);
    }
  }

  /** The decimals; then, for an issued token, a one, the code and the issuer, and for the other a two and its id. */
  lemma InitDataIs(decimals: real, token: TokenInit)
    requires BuildInitData(decimals, token).Ok?
    ensures var b := FromHex(BuildInitData(decimals, token).value);
            && b != [] && b[0] as real == decimals
            && (token.XrpInit? ==> |b| == 1)
            && (token.IouInit? ==>
                  && |b| == 43 && b[1] == 1 && b[22..42] == token.issuer && b[42] == 0
                  && SpellsCode(token.currency, b[2..22]))
            && (token.MptInit? ==>
                  && |b| == 43 && b[1] == 2 && FromHex(token.mptId) == b[2..26]
                  && forall i :: 26 <= i < 43 ==> b[i] == 0)
  {
    InitDataReads(decimals, token);
    InitDataAccepted(decimals, token);
    InitBytesShape(decimals.Floor, token);
    hide CurrencyBytes, FromHex, AcceptedCode, IsHex, BuildInitData;
    if token.IouInit? {
      CurrencyAt(token.currency);
      CodeSpelled(token.currency);
    }
  }

  /** Forty hex digits spell their bytes; up to three characters stand at byte 12, between zeros. */
  predicate SpellsCode(code: string, b: seq<Byte>) {
    && |b| == 20
    && if |code| == 40 then FromHex(code) == b
       else forall i :: 0 <= i < 20 ==> b[i] as int == if 12 <= i < 12 + |code| then code[i - 12] as int % 256 else 0
  }

  lemma CodeSpelled(code: string)
    requires CurrencyBytes(code).Ok?
    ensures SpellsCode(code, CurrencyBytes(code).value)
  {
    CurrencyAt(code);
  }

  lemma OnboardingAccepted(admin: Account, app: seq<Byte>, initialTicket: int, ticketCount: int, initData: string)
    ensures BuildOnboarding(admin, app, initialTicket, ticketCount, initData).Ok? <==>
              |app| <= 32 && 0 <= initialTicket < 0x1_00000000_00000000 && 0 <= ticketCount < 0x1_00000000_00000000
  {
    LimitEight();
    hide Limit, Digits, PadStart;
  }

  lemma LimitEight()
    ensures Limit(8) == 0x1_00000000_00000000
  {
    assert Limit(8) == Limit(7) * 256 && Limit(7) == Limit(6) * 256 && Limit(6) == Limit(5) * 256;
    assert Limit(5) == Limit(4) * 256 && Limit(4) == Limit(3) * 256 && Limit(3) == Limit(2) * 256;
  }

  /** A chain of two bytes, and an address of 64 hex digits with or without its prefix. */
  lemma RegisterAccepted(manager: Account, chainId: real, address: string)
    ensures BuildRegisterPeer(manager, chainId, address).Ok? <==>
              && chainId.Floor as real == chainId && 0.0 <= chainId <= 65535.0
              && ((|address| == 64 && IsHex(address))
                  || (|address| == 66 && address[0] == '0' && address[1] in "xX" && IsHex(address[2..])))
  {
    hide Digits, PadStart, ToHex;
    var h := Strip0x(address);
    assert IsHex(Lower(h)) <==> IsHex(h) by {
      LowerIsHex(h);
    }
  }

  lemma LowerIsHex(h: string)
    ensures IsHex(Lower(h)) <==> IsHex(h)
  {
    forall i | 0 <= i < |h|
      ensures HexValue(Lower(h)[i]).Some? <==> HexValue(h[i]).Some?
    {
    }
  }

  // ---------- publishing ----------

  function BuildPublishMemoData(payloadHex: string): string { Upper("01" + "00000000" + payloadHex) }

  /** Upper-casing is harmless: the published memo is a version, a zero nonce and the payload. */
  lemma PublishedMemo(payloadHex: string)
    ensures FromHex(BuildPublishMemoData(payloadHex)) == [1, 0, 0, 0, 0] + FromHex(payloadHex)
  {
    UpperReads("01" + "00000000" + payloadHex);
    hide FromHex;
    assert "01" + "00000000" + payloadHex == ['0', '1'] + ("00000000" + payloadHex);
    ReadPair('0', '1', "00000000" + payloadHex);
    FourZeros(payloadHex);
  }

  lemma FourZeros(t: string)
    ensures FromHex("00000000" + t) == [0, 0, 0, 0] + FromHex(t)
  {
    hide FromHex;
    assert "00000000" + t == ['0', '0'] + (['0', '0'] + (['0', '0'] + (['0', '0'] + t)));
    ReadPair('0', '0', t);
    ReadPair('0', '0', ['0', '0'] + t);
    ReadPair('0', '0', ['0', '0'] + (['0', '0'] + t));
    ReadPair('0', '0', ['0', '0'] + (['0', '0'] + (['0', '0'] + t)));
  }
}

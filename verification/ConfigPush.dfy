/**
 * Pushing a configuration to one EVM leg: the diff is read as transactions, an upgrade goes first
 * and the ownership is handed over last.
 */
module ConfigPush {
  import opened ConfigDiff
  import opened LimitText
  import opened NumberText
  import opened Outcomes
  import opened Sequences

  type Account = string

  /** What the leg's contracts hold; inbound limits are kept per peer, absent ones are zero. */
  datatype Leg = Leg(version: string, mode: string, manager: string, token: string, transceiver: string,
                     owner: Account, pauser: Option<Account>, paused: bool, threshold: nat,
                     transceiverPauser: Option<Account>, outbound: nat, inbound: map<string, nat>)

  /**
   * What stays fixed: the token's decimals, the other chains of the deployment, how an address is
   * read, what a stored limit keeps, and which version the working tree has.
   */
  datatype Setting = Setting(decimals: nat, peers: set<string>, readAddress: string -> Option<Account>,
                             isChain: string -> bool, stored: nat -> nat, workingVersion: string)

  // ---------- the leg as a configuration ----------

  function Txt(s: string): Json { Scalar(Text(s)) }

  function Units(leg: Leg, chain: string): nat { if chain in leg.inbound then leg.inbound[chain] else 0 }

  function ShowInbound(setting: Setting, leg: Leg): Tree
  {
    Obj(map c | c in setting.peers :: Txt(FormatNumber(Units(leg, c), setting.decimals)))
  }

  function ShowLimits(setting: Setting, leg: Leg): Tree
  {
    Obj(map["outbound" := Txt(FormatNumber(leg.outbound, setting.decimals)), "inbound" := ShowInbound(setting, leg)])
  }

  function ShowWormhole(leg: Leg): Tree
  {
    var fields := map["address" := Txt(leg.transceiver)];
    Obj(if leg.transceiverPauser.Some? then fields["pauser" := Txt(leg.transceiverPauser.value)] else fields)
  }

  function ShowTransceivers(leg: Leg): Tree
  {
    Obj(map["threshold" := Scalar(Number(leg.threshold as real)), "wormhole" := ShowWormhole(leg)])
  }

  function Show(setting: Setting, leg: Leg): Tree
  {
    var fields := map[
      "version" := Txt(leg.version), "mode" := Txt(leg.mode), "manager" := Txt(leg.manager), "token" := Txt(leg.token),
      "owner" := Txt(leg.owner), "paused" := Scalar(Flag(leg.paused)),
      "transceivers" := ShowTransceivers(leg), "limits" := ShowLimits(setting, leg)];
    Obj(if leg.pauser.Some? then fields["pauser" := Txt(leg.pauser.value)] else fields)
  }

  // ---------- transactions ----------

  datatype Tx =
    | Upgrade(version: string)
    | SetPauser(account: Account)
    | Pause
    | Unpause
    | SetOutbound(units: int)
    | SetInbound(chain: string, units: int)
    | SetThreshold(value: Json)
    | SetTransceiverPauser(account: Account)
    | SetOwner(account: Account)

  // A transaction is encoded when it is sent, not when it is planned.

  function EncodeUint256(n: int): Option<nat> { if 0 <= n < WORD then Some(n) else None }

  /** getBigInt of ethers: safe integers, and text that BigInt reads, also after a sign of its own. */
  function GetBigInt(j: Json): Option<int>
  {
    match j
    case Scalar(Number(v)) =>
      if v == v.Floor as real && -9007199254740991.0 <= v <= 9007199254740991.0 then Some(v.Floor) else None
    case Scalar(Text(s)) =>
      if s == "" then None
      else if s[0] == '-' && (|s| == 1 || s[1] != '-') then
        (match ReadBigInt(s[1..]) case None => None case Some(n) => Some(Minus(n)))
      else ReadBigInt(s)
    case _ => None
  }

  function EncodeUint8(j: Json): Option<nat>
  {
    match GetBigInt(j)
    case None => None
    case Some(n) => if 0 <= n < 256 then Some(n) else None
  }

  predicate Encodable(tx: Tx) {
    match tx
    case SetOutbound(units) => EncodeUint256(units).Some?
    case SetInbound(_, units) => EncodeUint256(units).Some?
    case SetThreshold(value) => EncodeUint8(value).Some?
    case _ => true
  }

  /** What the contract keeps of a limit, if it can be sent. */
  function Kept(setting: Setting, units: int): Option<nat>
  {
    match EncodeUint256(units) case None => None case Some(n) => Some(setting.stored(n))
  }

  /** What cannot be encoded has no effect. */
  function Effect(setting: Setting, leg: Leg, tx: Tx): Leg
  {
    match tx
    case Upgrade(version) => leg.(version := version)
    case SetPauser(account) => leg.(pauser := Some(account))
    case Pause => leg.(paused := true)
    case Unpause => leg.(paused := false)
    case SetOutbound(units) =>
      (match Kept(setting, units) case None => leg case Some(n) => leg.(outbound := n))
    case SetInbound(chain, units) =>
      (match Kept(setting, units) case None => leg case Some(n) => leg.(inbound := leg.inbound[chain := n]))
    case SetThreshold(value) =>
      (match EncodeUint8(value) case None => leg case Some(n) => leg.(threshold := n))
    case SetTransceiverPauser(account) => leg.(transceiverPauser := Some(account))
    case SetOwner(account) => leg.(owner := account)
  }

  function Effects(setting: Setting, leg: Leg, txs: seq<Tx>): Leg
  {
    if txs == [] then leg else Effect(setting, Effects(setting, leg, txs[..|txs| - 1]), txs[|txs| - 1])
  }

  lemma {:induction false} EffectsAppend(setting: Setting, leg: Leg, a: seq<Tx>, b: seq<Tx>)
    ensures Effects(setting, leg, a + b) == Effects(setting, Effects(setting, leg, a), b)
  {
    if b == [] {
      assert a + b == a;
    } else {
      assert (a + b)[..|a + b| - 1] == a + b[..|b| - 1];
      EffectsAppend(setting, leg, a, b[..|b| - 1]);
    }
  }

  // ---------- reading a difference ----------

  datatype Fault = Unsupported(key: string) | BadAddress | BadAmount | UnknownChain(chain: string)

  /** The push side of an entry, if there is one. */
  function PushOf(n: Node): Option<Json> { if n.Entry? then n.push else None }

  /** toUniversal throws on anything but the text of an address. */
  function ReadAddress(setting: Setting, n: Node): Result<Account, Fault>
  {
    match PushOf(n)
    case Some(Scalar(Text(s))) =>
      (match setting.readAddress(s) case Some(a) => Ok(a) case None => Err(BadAddress))
    case _ => Err(BadAddress)
  }

  /** A limit to set: none when there is no truthy push side, and parseUnits throws on bad text. */
  function ReadLimit(setting: Setting, n: Node): Result<Option<int>, Fault>
  {
    match PushOf(n)
    case None => Ok(None)
    case Some(j) =>
      if Falsy(j) then Ok(None)
      else if j.Scalar? && j.value.Text? then
        (match ParseUnits(j.value.text, setting.decimals)
         case Some(units) => Ok(Some(units))
         case None => Err(BadAmount))
      else Err(BadAmount)
  }

  /** The version to upgrade to; without a version text the working tree is deployed. */
  function ReadVersion(setting: Setting, n: Node): string
  {
    match PushOf(n)
    case Some(Scalar(Text(s))) => if s == "" then setting.workingVersion else s
    case _ => setting.workingVersion
  }

  /** The keys of a set in some order. */
  type Listing = set<string> -> seq<string>

  ghost predicate Lists(order: Listing) {
    forall s: set<string> :: multiset(order(s)) == multiset(s)
  }

  /** The keys an object difference has; those of an entry are its sides. */
  function KeysOf(n: Node): set<string>
  {
    match n
    case Sub(entries) => entries.Keys
    case Entry(push, pull) => (if push.Some? then {"push"} else {}) + (if pull.Some? then {"pull"} else {})
  }

  function Inside(n: Node, key: string): Option<Node>
  {
    if n.Sub? && key in n.entries then Some(n.entries[key]) else None
  }

  // ---------- what each key asks for ----------

  predicate WormholeOk(setting: Setting, n: Node) {
    forall l :: l in KeysOf(n) ==> l == "pauser" && Inside(n, l).Some? && ReadAddress(setting, Inside(n, l).value).Ok?
  }

  predicate TransceiversOk(setting: Setting, n: Node) {
    forall j :: j in KeysOf(n) ==>
      Inside(n, j).Some? && (j == "threshold" || (j == "wormhole" && WormholeOk(setting, Inside(n, j).value)))
  }

  predicate InboundOk(setting: Setting, n: Node) {
    forall c :: c in KeysOf(n) ==>
      setting.isChain(c) && Inside(n, c).Some? && ReadLimit(setting, Inside(n, c).value).Ok?
  }

  predicate LimitsOk(setting: Setting, n: Node) {
    && (Inside(n, "outbound").Some? ==> ReadLimit(setting, Inside(n, "outbound").value).Ok?)
    && (Inside(n, "inbound").Some? ==> InboundOk(setting, Inside(n, "inbound").value))
  }

  /** The key is supported, and of its values those that are read before anything is sent can be. */
  predicate KeyOk(setting: Setting, key: string, n: Node) {
    if key == "version" || key == "paused" then true
    else if key == "owner" || key == "pauser" then ReadAddress(setting, n).Ok?
    else if key == "limits" then LimitsOk(setting, n)
    else key == "transceivers" && TransceiversOk(setting, n)
  }

  predicate Plannable(setting: Setting, diff: map<string, Node>)
  {
    forall k :: k in diff ==> KeyOk(setting, k, diff[k])
  }

  function Granted(setting: Setting, limit: Option<int>): Option<nat>
  {
    match limit case None => None case Some(units) => Kept(setting, units)
  }

  function LimitIn(setting: Setting, n: Node, key: string): Option<int>
  {
    match Inside(n, key)
    case None => None
    case Some(x) => (match ReadLimit(setting, x) case Ok(limit) => limit case Err(_) => None)
  }

  function NewInbound(setting: Setting, base: map<string, nat>, n: Node, done: set<string>): map<string, nat>
  {
    base + (map c | c in done && Granted(setting, LimitIn(setting, n, c)).Some?
                  :: Granted(setting, LimitIn(setting, n, c)).value)
  }

  function NewPauser(setting: Setting, current: Option<Account>, n: Node): Option<Account>
  {
    match ReadAddress(setting, n) case Ok(a) => Some(a) case Err(_) => current
  }

  predicate NewPaused(n: Node) { PushOf(n) == Some(Scalar(Flag(true))) }

  function NewOutbound(setting: Setting, current: nat, n: Node): nat
  {
    match Granted(setting, LimitIn(setting, n, "outbound")) case None => current case Some(kept) => kept
  }

  function AllInbound(setting: Setting, current: map<string, nat>, n: Node): map<string, nat>
  {
    match Inside(n, "inbound")
    case None => current
    case Some(inbound) => NewInbound(setting, current, inbound, KeysOf(inbound))
  }

  function NewTransceiverPauser(setting: Setting, current: Option<Account>, n: Node): Option<Account>
  {
    match Inside(n, "pauser") case None => current case Some(x) => NewPauser(setting, current, x)
  }

  function ThresholdIn(n: Node): Option<Json>
  {
    match Inside(n, "threshold") case None => None case Some(x) => PushOf(x)
  }

  function NewThreshold(current: nat, n: Node): nat
  {
    match ThresholdIn(n)
    case None => current
    case Some(value) => (match EncodeUint8(value) case None => current case Some(v) => v)
  }

  function NewWormhole(setting: Setting, current: Option<Account>, n: Node): Option<Account>
  {
    match Inside(n, "wormhole") case None => current case Some(w) => NewTransceiverPauser(setting, current, w)
  }

  /** The leg once one key's transactions have run. */
  function KeyTarget(setting: Setting, leg: Leg, key: string, n: Node): Leg
  {
    if key == "pauser" then leg.(pauser := NewPauser(setting, leg.pauser, n))
    else if key == "paused" then leg.(paused := NewPaused(n))
    else if key == "limits" then
      leg.(outbound := NewOutbound(setting, leg.outbound, n), inbound := AllInbound(setting, leg.inbound, n))
    else if key == "transceivers" then
      leg.(threshold := NewThreshold(leg.threshold, n),
           transceiverPauser := NewWormhole(setting, leg.transceiverPauser, n))
    else leg
  }

  /** The transactions take any leg to the one the key asks for. */
  ghost predicate Reaches(setting: Setting, txs: seq<Tx>, key: string, n: Node) {
    forall leg: Leg :: Effects(setting, leg, txs) == KeyTarget(setting, leg, key, n)
  }

  /** Neither the upgrade nor the handing over of ownership. */
  predicate Ordinary(tx: Tx) { !tx.Upgrade? && !tx.SetOwner? }

  // ---------- the transactions that are planned ----------

  function InboundTx(setting: Setting, n: Node): string -> seq<Tx>
  {
    (chain: string) => match LimitIn(setting, n, chain) case None => [] case Some(units) => [SetInbound(chain, units)]
  }

  function LimitTxs(setting: Setting, n: Node, order: Listing): seq<Tx>
  {
    (match LimitIn(setting, n, "outbound") case None => [] case Some(units) => [SetOutbound(units)])
    + (match Inside(n, "inbound")
       case None => []
       case Some(inbound) => Concat(order(KeysOf(inbound)), InboundTx(setting, inbound)))
  }

  function AccountTx(setting: Setting, n: Node, tx: Account -> Tx): seq<Tx>
  {
    match ReadAddress(setting, n) case Ok(account) => [tx(account)] case Err(_) => []
  }

  function WormholeTx(setting: Setting, n: Node): string -> seq<Tx>
  {
    (key: string) =>
      match Inside(n, key)
      case None => []
      case Some(x) => AccountTx(setting, x, (a: Account) => SetTransceiverPauser(a))
  }

  function TransceiverTx(setting: Setting, n: Node, order: Listing): string -> seq<Tx>
  {
    (key: string) =>
      if key == "threshold" then (match ThresholdIn(n) case None => [] case Some(value) => [SetThreshold(value)])
      else
        match Inside(n, key)
        case None => []
        case Some(w) => Concat(order(KeysOf(w)), WormholeTx(setting, w))
  }

  /** In the order of the keys. */
  function KeyTxs(setting: Setting, key: string, n: Node, order: Listing): seq<Tx>
  {
    if key == "pauser" then AccountTx(setting, n, (a: Account) => SetPauser(a))
    else if key == "paused" then [if NewPaused(n) then Pause else Unpause]
    else if key == "limits" then LimitTxs(setting, n, order)
    else if key == "transceivers" then Concat(order(KeysOf(n)), TransceiverTx(setting, n, order))
    else []
  }

  function DiffTxs(setting: Setting, diff: map<string, Node>, order: Listing): string -> seq<Tx>
  {
    (key: string) => if key in diff then KeyTxs(setting, key, diff[key], order) else []
  }

  datatype Plan = Plan(upgrade: Option<string>, txs: seq<Tx>, owner: Option<Account>)

  function Planned(setting: Setting, diff: map<string, Node>, order: Listing): Plan
  {
    Plan(if "version" in diff then Some(ReadVersion(setting, diff["version"])) else None,
         Concat(order(diff.Keys), DiffTxs(setting, diff, order)),
         if "owner" in diff && ReadAddress(setting, diff["owner"]).Ok?
         then Some(ReadAddress(setting, diff["owner"]).value) else None)
  }

  // ---------- planning one key ----------

  lemma OneEffect(setting: Setting, leg: Leg, tx: Tx)
    ensures Effects(setting, leg, [tx]) == Effect(setting, leg, tx) && Effects(setting, leg, []) == leg
  {
    assert [tx][..0] == [];
    assert Effects(setting, leg, [tx]) == Effect(setting, Effects(setting, leg, [tx][..0]), tx);
  }

  /** From any leg, the transactions grant the limits read for some of the chains. */
  ghost predicate Grants(setting: Setting, n: Node, txs: seq<Tx>, done: set<string>) {
    forall leg: Leg :: Effects(setting, leg, txs) == leg.(inbound := NewInbound(setting, leg.inbound, n, done))
  }

  /** The keys read so far are supported and their limits can be read. */
  ghost predicate ReadTo(setting: Setting, n: Node, done: set<string>) {
    forall c :: c in done ==> setting.isChain(c) && Inside(n, c).Some? && ReadLimit(setting, Inside(n, c).value).Ok?
  }

  method PlanInbound(setting: Setting, n: Node, order: Listing) returns (r: Result<seq<Tx>, Fault>)
    requires Lists(order)
    ensures r.Ok? <==> InboundOk(setting, n)
    ensures r.Ok? ==> r.value == Concat(order(KeysOf(n)), InboundTx(setting, n))
    ensures r.Ok? ==> Grants(setting, n, r.value, KeysOf(n)) && forall tx :: tx in r.value ==> Ordinary(tx)
  {
    hide ReadLimit, Grants, Inside, Lists, KeysOf, LimitIn, Concat;
    NoConcat(InboundTx(setting, n));
    var chains := order(KeysOf(n));
    ListedOnce(order, KeysOf(n));
    var txs: seq<Tx> := [];
    NothingGranted(setting, n);
    assert Set(chains[..0]) == {} && chains[..0] == [];
    for i := 0 to |chains|
      invariant forall tx :: tx in txs ==> Ordinary(tx)
      invariant txs == Concat(chains[..i], InboundTx(setting, n))
      invariant ReadTo(setting, n, Set(chains[..i])) && Grants(setting, n, txs, Set(chains[..i]))
    {
      var chain := chains[i];
      assert chains[..i + 1] == chains[..i] + [chain];
      MoreInSet(chains[..i], chain);
      assert chain in KeysOf(n);
      if !setting.isChain(chain) || Inside(n, chain) == None {
        return Err(UnknownChain(chain));
      }
      var limit := ReadLimit(setting, Inside(n, chain).value);
      if limit.Err? {
        return Err(limit.error);
      }
      InboundStep(setting, n, txs, Set(chains[..i]), chain);
      ConcatStep(chains, i, InboundTx(setting, n));
      LimitRead(setting, n, chain);
      if limit.value.Some? {
        txs := txs + [SetInbound(chain, limit.value.value)];
      }
    }
    assert chains[..|chains|] == chains;
    return Ok(txs);
  }

  lemma NoConcat<A, T>(list: A -> seq<T>)
    ensures Concat([], list) == []
  {
  }

  lemma NothingGranted(setting: Setting, n: Node)
    ensures Grants(setting, n, [], {})
  {
    hide LimitIn;
    forall leg: Leg
      ensures Effects(setting, leg, []) == leg.(inbound := NewInbound(setting, leg.inbound, n, {}))
    {
      assert NewInbound(setting, leg.inbound, n, {}) == leg.inbound;
    }
  }

  function Set(keys: seq<string>): set<string> { set k | k in keys }

  lemma MoreInSet(keys: seq<string>, key: string)
    ensures Set(keys + [key]) == Set(keys) + {key}
  {
  }

  lemma ListedOnce(order: Listing, keys: set<string>)
    requires Lists(order)
    ensures Set(order(keys)) == keys
    ensures forall i, j :: 0 <= i < j < |order(keys)| ==> order(keys)[i] != order(keys)[j]
  {
    var listed := order(keys);
    assert multiset(listed) == multiset(keys);
    forall k
      ensures k in listed <==> k in keys
    {
      assert k in multiset(listed) <==> k in multiset(keys);
    }
    forall i, j | 0 <= i < j < |listed|
      ensures listed[i] != listed[j]
    {
      if listed[i] == listed[j] {
        CountedTwice(listed, i, j);
      }
    }
  }

  lemma CountedTwice(s: seq<string>, i: nat, j: nat)
    requires i < j < |s| && s[i] == s[j]
    ensures multiset(s)[s[i]] >= 2
  {
    assert s == s[..j] + s[j..];
    assert s[..j][i] == s[i] && s[j..][0] == s[i];
  }

  lemma InboundStep(setting: Setting, n: Node, txs: seq<Tx>, done: set<string>, chain: string)
    requires Inside(n, chain).Some? && ReadLimit(setting, Inside(n, chain).value).Ok? && Grants(setting, n, txs, done)
    ensures var limit := ReadLimit(setting, Inside(n, chain).value).value;
            Grants(setting, n, if limit.Some? then txs + [SetInbound(chain, limit.value)] else txs, done + {chain})
  {
    hide LimitIn, Inside, NewInbound, Effects, ReadLimit, Kept;
    var limit := ReadLimit(setting, Inside(n, chain).value).value;
    var next := if limit.Some? then txs + [SetInbound(chain, limit.value)] else txs;
    LimitRead(setting, n, chain);
    forall leg: Leg
      ensures Effects(setting, leg, next) == leg.(inbound := NewInbound(setting, leg.inbound, n, done + {chain}))
    {
      assert Effects(setting, leg, txs) == leg.(inbound := NewInbound(setting, leg.inbound, n, done));
      NewInboundStep(setting, leg.inbound, n, done, chain);
      if limit.Some? {
        LastEffect(setting, leg, txs, SetInbound(chain, limit.value));
      }
    }
  }

  lemma LimitRead(setting: Setting, n: Node, key: string)
    requires Inside(n, key).Some? && ReadLimit(setting, Inside(n, key).value).Ok?
    ensures LimitIn(setting, n, key) == ReadLimit(setting, Inside(n, key).value).value
  {
  }

  lemma LastEffect(setting: Setting, leg: Leg, txs: seq<Tx>, tx: Tx)
    ensures Effects(setting, leg, txs + [tx]) == Effect(setting, Effects(setting, leg, txs), tx)
  {
    assert (txs + [tx])[..|txs|] == txs;
  }

  lemma NewInboundStep(setting: Setting, base: map<string, nat>, n: Node, done: set<string>, chain: string)
    ensures var before, kept := NewInbound(setting, base, n, done), Granted(setting, LimitIn(setting, n, chain));
            NewInbound(setting, base, n, done + {chain}) ==
              if kept.Some? then before[chain := kept.value] else before
  {
    hide LimitIn, Granted;
  }

  method PlanLimits(setting: Setting, n: Node, order: Listing) returns (r: Result<seq<Tx>, Fault>)
    requires Lists(order)
    ensures r.Ok? <==> LimitsOk(setting, n)
    ensures r.Ok? ==> r.value == LimitTxs(setting, n, order)
    ensures r.Ok? ==> Reaches(setting, r.value, "limits", n) && forall tx :: tx in r.value ==> Ordinary(tx)
  {
    hide ReadLimit, Inside, Reaches, Grants, Lists, InboundOk;
    var outbound: Option<int> := None;
    var inboundTxs: seq<Tx> := [];
    if Inside(n, "outbound").Some? {
      var limit := ReadLimit(setting, Inside(n, "outbound").value);
      if limit.Err? {
        return Err(limit.error);
      }
      LimitRead(setting, n, "outbound");
      outbound := limit.value;
    }
    if Inside(n, "inbound").Some? {
      var inbound := PlanInbound(setting, Inside(n, "inbound").value, order);
      if inbound.Err? {
        return Err(inbound.error);
      }
      inboundTxs := inbound.value;
    }
    LimitsReached(setting, n, outbound, inboundTxs);
    return Ok((if outbound.Some? then [SetOutbound(outbound.value)] else []) + inboundTxs);
  }

  lemma LimitsReached(setting: Setting, n: Node, outbound: Option<int>, inboundTxs: seq<Tx>)
    requires outbound == LimitIn(setting, n, "outbound")
    requires Inside(n, "inbound").Some? ==>
              Grants(setting, Inside(n, "inbound").value, inboundTxs, KeysOf(Inside(n, "inbound").value))
    requires Inside(n, "inbound") == None ==> inboundTxs == []
    ensures Reaches(setting, (if outbound.Some? then [SetOutbound(outbound.value)] else []) + inboundTxs, "limits", n)
  {
    hide LimitIn, Inside, NewInbound, Effects, KeysOf, Kept;
    var first := if outbound.Some? then [SetOutbound(outbound.value)] else [];
    forall leg: Leg
      ensures Effects(setting, leg, first + inboundTxs) == KeyTarget(setting, leg, "limits", n)
    {
      EffectsAppend(setting, leg, first, inboundTxs);
      FirstLimit(setting, leg, n, outbound);
      OneEffect(setting, Effects(setting, leg, first), Pause);
    }
  }

  lemma FirstLimit(setting: Setting, leg: Leg, n: Node, outbound: Option<int>)
    requires outbound == LimitIn(setting, n, "outbound")
    ensures Effects(setting, leg, if outbound.Some? then [SetOutbound(outbound.value)] else []) ==
              leg.(outbound := NewOutbound(setting, leg.outbound, n))
  {
    hide LimitIn, Effects, Kept;
    OneEffect(setting, leg, if outbound.Some? then SetOutbound(outbound.value) else Pause);
  }

  /** From any leg, the transactions do what the wormhole keys read so far ask for. */
  ghost predicate PauserSet(setting: Setting, n: Node, txs: seq<Tx>, done: set<string>) {
    forall leg: Leg :: Effects(setting, leg, txs) ==
      leg.(transceiverPauser :=
        if "pauser" in done then NewTransceiverPauser(setting, leg.transceiverPauser, n) else leg.transceiverPauser)
  }

  method PlanWormhole(setting: Setting, n: Node, order: Listing) returns (r: Result<seq<Tx>, Fault>)
    requires Lists(order)
    ensures r.Ok? <==> WormholeOk(setting, n)
    ensures r.Ok? ==> r.value == Concat(order(KeysOf(n)), WormholeTx(setting, n))
    ensures r.Ok? ==> PauserSet(setting, n, r.value, KeysOf(n)) && forall tx :: tx in r.value ==> Ordinary(tx)
  {
    hide ReadAddress, Inside, PauserSet, Lists, KeysOf, Concat;
    NoConcat(WormholeTx(setting, n));
    var keys := order(KeysOf(n));
    ListedOnce(order, KeysOf(n));
    var txs: seq<Tx> := [];
    NoPauserSet(setting, n);
    assert Set(keys[..0]) == {} && keys[..0] == [];
    for i := 0 to |keys|
      invariant txs == Concat(keys[..i], WormholeTx(setting, n))
      invariant PauserSet(setting, n, txs, Set(keys[..i])) && forall tx :: tx in txs ==> Ordinary(tx)
      invariant forall l :: l in Set(keys[..i]) ==>
                  l == "pauser" && Inside(n, l).Some? && ReadAddress(setting, Inside(n, l).value).Ok?
    {
      var key := keys[i];
      assert keys[..i + 1] == keys[..i] + [key];
      MoreInSet(keys[..i], key);
      assert key in KeysOf(n);
      if key != "pauser" || Inside(n, key) == None {
        return Err(Unsupported(key));
      }
      var account := ReadAddress(setting, Inside(n, key).value);
      if account.Err? {
        return Err(account.error);
      }
      PauserStep(setting, n, txs, Set(keys[..i]));
      ConcatStep(keys, i, WormholeTx(setting, n));
      txs := txs + [SetTransceiverPauser(account.value)];
    }
    assert keys[..|keys|] == keys;
    return Ok(txs);
  }

  lemma NoPauserSet(setting: Setting, n: Node)
    ensures PauserSet(setting, n, [], {})
  {
  }

  lemma PauserStep(setting: Setting, n: Node, txs: seq<Tx>, done: set<string>)
    requires Inside(n, "pauser").Some? && ReadAddress(setting, Inside(n, "pauser").value).Ok?
    requires PauserSet(setting, n, txs, done)
    ensures var account := ReadAddress(setting, Inside(n, "pauser").value).value;
            PauserSet(setting, n, txs + [SetTransceiverPauser(account)], done + {"pauser"})
  {
    hide Effects, ReadAddress, Inside;
    var account := ReadAddress(setting, Inside(n, "pauser").value).value;
    forall leg: Leg
      ensures Effects(setting, leg, txs + [SetTransceiverPauser(account)]) ==
                leg.(transceiverPauser := NewTransceiverPauser(setting, leg.transceiverPauser, n))
    {
      LastEffect(setting, leg, txs, SetTransceiverPauser(account));
    }
  }

  /** The leg once the transceivers' keys read so far have been dealt with. */
  function TransceiversLeg(setting: Setting, leg: Leg, n: Node, done: set<string>): Leg
  {
    leg.(threshold := if "threshold" in done then NewThreshold(leg.threshold, n) else leg.threshold,
         transceiverPauser :=
           if "wormhole" in done then NewWormhole(setting, leg.transceiverPauser, n) else leg.transceiverPauser)
  }

  ghost predicate TransceiversSet(setting: Setting, n: Node, txs: seq<Tx>, done: set<string>) {
    forall leg: Leg :: Effects(setting, leg, txs) == TransceiversLeg(setting, leg, n, done)
  }

  lemma NothingSet(setting: Setting, n: Node)
    ensures TransceiversSet(setting, n, [], {})
  {
  }

  lemma ThresholdLeg(setting: Setting, leg: Leg, n: Node, done: set<string>)
    requires "threshold" !in done
    ensures var value, before := ThresholdIn(n), TransceiversLeg(setting, leg, n, done);
            TransceiversLeg(setting, leg, n, done + {"threshold"}) ==
              if value.Some? then Effect(setting, before, SetThreshold(value.value)) else before
  {
    hide EncodeUint8, ThresholdIn, NewWormhole;
  }

  lemma ThresholdStep(setting: Setting, n: Node, txs: seq<Tx>, done: set<string>)
    requires TransceiversSet(setting, n, txs, done) && "threshold" !in done
    ensures var value := ThresholdIn(n);
            TransceiversSet(setting, n, if value.Some? then txs + [SetThreshold(value.value)] else txs,
                            done + {"threshold"})
  {
    hide Effects, Effect, ThresholdIn, TransceiversLeg;
    var value := ThresholdIn(n);
    var next := if value.Some? then txs + [SetThreshold(value.value)] else txs;
    forall leg: Leg
      ensures Effects(setting, leg, next) == TransceiversLeg(setting, leg, n, done + {"threshold"})
    {
      assert Effects(setting, leg, txs) == TransceiversLeg(setting, leg, n, done);
      ThresholdLeg(setting, leg, n, done);
      if value.Some? {
        LastEffect(setting, leg, txs, SetThreshold(value.value));
      }
    }
  }

  lemma WormholeLeg(setting: Setting, leg: Leg, n: Node, done: set<string>)
    requires Inside(n, "wormhole").Some? && "wormhole" !in done
    ensures var w := Inside(n, "wormhole").value;
            var before := TransceiversLeg(setting, leg, n, done);
            TransceiversLeg(setting, leg, n, done + {"wormhole"}) ==
              before.(transceiverPauser :=
                        if "pauser" in KeysOf(w) then NewTransceiverPauser(setting, before.transceiverPauser, w)
                        else before.transceiverPauser)
  {
    hide NewThreshold, NewPauser;
  }

  lemma WormholeStep(setting: Setting, n: Node, txs: seq<Tx>, more: seq<Tx>, done: set<string>)
    requires Inside(n, "wormhole").Some? && TransceiversSet(setting, n, txs, done) && "wormhole" !in done
    requires PauserSet(setting, Inside(n, "wormhole").value, more, KeysOf(Inside(n, "wormhole").value))
    ensures TransceiversSet(setting, n, txs + more, done + {"wormhole"})
  {
    hide Effects, Inside, TransceiversLeg, NewTransceiverPauser, KeysOf;
    forall leg: Leg
      ensures Effects(setting, leg, txs + more) == TransceiversLeg(setting, leg, n, done + {"wormhole"})
    {
      assert Effects(setting, leg, txs) == TransceiversLeg(setting, leg, n, done);
      EffectsAppend(setting, leg, txs, more);
      WormholeLeg(setting, leg, n, done);
    }
  }

  method PlanTransceivers(setting: Setting, n: Node, order: Listing) returns (r: Result<seq<Tx>, Fault>)
    requires Lists(order)
    ensures r.Ok? <==> TransceiversOk(setting, n)
    ensures r.Ok? ==> r.value == Concat(order(KeysOf(n)), TransceiverTx(setting, n, order))
    ensures r.Ok? ==> Reaches(setting, r.value, "transceivers", n) && forall tx :: tx in r.value ==> Ordinary(tx)
  {
    hide ThresholdIn, Inside, TransceiversSet, Lists, KeysOf, WormholeOk, PauserSet, Reaches, Concat;
    NoConcat(TransceiverTx(setting, n, order));
    var keys := order(KeysOf(n));
    ListedOnce(order, KeysOf(n));
    var txs: seq<Tx> := [];
    NothingSet(setting, n);
    assert Set(keys[..0]) == {} && keys[..0] == [];
    for i := 0 to |keys|
      invariant TransceiversSet(setting, n, txs, Set(keys[..i])) && forall tx :: tx in txs ==> Ordinary(tx)
      invariant txs == Concat(keys[..i], TransceiverTx(setting, n, order))
      invariant forall j :: j in Set(keys[..i]) ==>
                  && Inside(n, j).Some?
                  && (j == "threshold" || (j == "wormhole" && WormholeOk(setting, Inside(n, j).value)))
    {
      var key := keys[i];
      assert keys[..i + 1] == keys[..i] + [key];
      MoreInSet(keys[..i], key);
      assert key in KeysOf(n) && key !in keys[..i];
      if Inside(n, key) == None {
        return Err(Unsupported(key));
      }
      ConcatStep(keys, i, TransceiverTx(setting, n, order));
      var inner := Inside(n, key).value;
      if key == "threshold" {
        PushedThreshold(n);
        ThresholdStep(setting, n, txs, Set(keys[..i]));
        var threshold := PushOf(inner);
        if threshold.Some? {
          txs := txs + [SetThreshold(threshold.value)];
        }
      } else if key == "wormhole" {
        var wormhole := PlanWormhole(setting, inner, order);
        if wormhole.Err? {
          return Err(wormhole.error);
        }
        WormholeStep(setting, n, txs, wormhole.value, Set(keys[..i]));
        txs := txs + wormhole.value;
      } else {
        return Err(Unsupported(key));
      }
    }
    assert keys[..|keys|] == keys;
    TransceiversReached(setting, n, txs);
    return Ok(txs);
  }

  lemma PushedThreshold(n: Node)
    requires Inside(n, "threshold").Some?
    ensures ThresholdIn(n) == PushOf(Inside(n, "threshold").value)
  {
  }

  lemma TransceiversReached(setting: Setting, n: Node, txs: seq<Tx>)
    requires TransceiversSet(setting, n, txs, KeysOf(n))
    ensures Reaches(setting, txs, "transceivers", n)
  {
    hide Effects, TransceiversLeg, KeyTarget;
    forall leg: Leg
      ensures Effects(setting, leg, txs) == KeyTarget(setting, leg, "transceivers", n)
    {
      assert Effects(setting, leg, txs) == TransceiversLeg(setting, leg, n, KeysOf(n));
      AllTransceivers(setting, leg, n);
    }
  }

  lemma AllTransceivers(setting: Setting, leg: Leg, n: Node)
    ensures TransceiversLeg(setting, leg, n, KeysOf(n)) == KeyTarget(setting, leg, "transceivers", n)
  {
    hide NewTransceiverPauser;
  }

  method PlanKey(setting: Setting, key: string, n: Node, order: Listing) returns (r: Result<seq<Tx>, Fault>)
    requires Lists(order) && key != "version" && key != "owner"
    ensures r.Ok? <==> KeyOk(setting, key, n)
    ensures r.Ok? ==> r.value == KeyTxs(setting, key, n, order)
    ensures r.Ok? ==> Reaches(setting, r.value, key, n) && forall tx :: tx in r.value ==> Ordinary(tx)
  {
    hide ReadAddress, Lists, LimitsOk, TransceiversOk, LimitTxs, Concat;
    if key == "pauser" {
      var account := ReadAddress(setting, n);
      if account.Err? {
        return Err(account.error);
      }
      OneReaches(setting, SetPauser(account.value), key, n);
      return Ok([SetPauser(account.value)]);
    } else if key == "paused" {
      var tx := if PushOf(n) == Some(Scalar(Flag(true))) then Pause else Unpause;
      OneReaches(setting, tx, key, n);
      return Ok([tx]);
    } else if key == "limits" {
      r := PlanLimits(setting, n, order);
    } else if key == "transceivers" {
      r := PlanTransceivers(setting, n, order);
    } else {
      return Err(Unsupported(key));
    }
  }

  lemma OneReaches(setting: Setting, tx: Tx, key: string, n: Node)
    requires forall leg: Leg :: Effect(setting, leg, tx) == KeyTarget(setting, leg, key, n)
    ensures Reaches(setting, [tx], key, n)
  {
    hide Effects, Effect, KeyTarget;
    forall leg: Leg
      ensures Effects(setting, leg, [tx]) == KeyTarget(setting, leg, key, n)
    {
      OneEffect(setting, leg, tx);
    }
  }

  // ---------- the whole plan ----------

  /** The leg once the keys read so far have been dealt with, the version and the owner apart. */
  function Middle(setting: Setting, leg: Leg, diff: map<string, Node>, done: set<string>): Leg
    requires done <= diff.Keys
  {
    leg.(pauser := if "pauser" in done then NewPauser(setting, leg.pauser, diff["pauser"]) else leg.pauser,
         paused := if "paused" in done then NewPaused(diff["paused"]) else leg.paused,
         outbound := if "limits" in done then NewOutbound(setting, leg.outbound, diff["limits"]) else leg.outbound,
         inbound := if "limits" in done then AllInbound(setting, leg.inbound, diff["limits"]) else leg.inbound,
         threshold :=
           if "transceivers" in done then NewThreshold(leg.threshold, diff["transceivers"]) else leg.threshold,
         transceiverPauser :=
           if "transceivers" in done then NewWormhole(setting, leg.transceiverPauser, diff["transceivers"])
           else leg.transceiverPauser)
  }

  /** The leg a completed push leaves. */
  function Final(setting: Setting, leg: Leg, diff: map<string, Node>): Leg
  {
    Middle(setting, leg, diff, diff.Keys).(
      version := if "version" in diff then ReadVersion(setting, diff["version"]) else leg.version,
      owner :=
        if "owner" in diff && ReadAddress(setting, diff["owner"]).Ok? then ReadAddress(setting, diff["owner"]).value
        else leg.owner)
  }

  ghost predicate Covers(setting: Setting, diff: map<string, Node>, txs: seq<Tx>, done: set<string>)
    requires done <= diff.Keys
  {
    forall leg: Leg :: Effects(setting, leg, txs) == Middle(setting, leg, diff, done)
  }

  lemma NothingCovered(setting: Setting, diff: map<string, Node>)
    ensures Covers(setting, diff, [], {})
  {
  }

  lemma MiddleStep(setting: Setting, leg: Leg, diff: map<string, Node>, done: set<string>, key: string)
    requires done <= diff.Keys && key in diff && key !in done
    ensures Middle(setting, leg, diff, done + {key}) ==
              KeyTarget(setting, Middle(setting, leg, diff, done), key, diff[key])
  {
    hide NewPauser, NewPaused, NewOutbound, AllInbound, NewThreshold, NewWormhole;
  }

  lemma CoversStep(setting: Setting, diff: map<string, Node>, txs: seq<Tx>, more: seq<Tx>, done: set<string>,
                   key: string)
    requires done <= diff.Keys && key in diff && key !in done && Covers(setting, diff, txs, done)
    requires Reaches(setting, more, key, diff[key])
    ensures Covers(setting, diff, txs + more, done + {key})
  {
    hide Effects, Middle, KeyTarget;
    forall leg: Leg
      ensures Effects(setting, leg, txs + more) == Middle(setting, leg, diff, done + {key})
    {
      assert Effects(setting, leg, txs) == Middle(setting, leg, diff, done);
      EffectsAppend(setting, leg, txs, more);
      MiddleStep(setting, leg, diff, done, key);
    }
  }

  /** The version and the owner are no one's transactions. */
  lemma NoTxsReach(setting: Setting, key: string, n: Node, order: Listing)
    requires key == "version" || key == "owner"
    ensures Reaches(setting, [], key, n) && KeyTxs(setting, key, n, order) == []
  {
  }

  lemma DiffTx(setting: Setting, diff: map<string, Node>, order: Listing, key: string)
    requires key in diff
    ensures DiffTxs(setting, diff, order)(key) == KeyTxs(setting, key, diff[key], order)
  {
  }

  method PlanPush(setting: Setting, diff: map<string, Node>, order: Listing) returns (r: Result<Plan, Fault>)
    requires Lists(order)
    ensures r.Ok? <==> Plannable(setting, diff)
    ensures r.Ok? ==> Covers(setting, diff, r.value.txs, diff.Keys) && forall tx :: tx in r.value.txs ==> Ordinary(tx)
    ensures r.Ok? ==> r.value == Planned(setting, diff, order)
  {
    hide ReadAddress, ReadVersion, Lists, LimitsOk, TransceiversOk, Covers, Reaches, Middle, KeyTxs, Concat, DiffTxs;
    NoConcat(DiffTxs(setting, diff, order));
    var keys := order(diff.Keys);
    ListedOnce(order, diff.Keys);
    var plan := Plan(None, [], None);
    NothingCovered(setting, diff);
    assert Set(keys[..0]) == {} && keys[..0] == [];
    for i := 0 to |keys|
      invariant Set(keys[..i]) <= diff.Keys
      invariant plan.txs == Concat(keys[..i], DiffTxs(setting, diff, order))
      invariant forall k :: k in Set(keys[..i]) ==> KeyOk(setting, k, diff[k])
      invariant Covers(setting, diff, plan.txs, Set(keys[..i])) && forall tx :: tx in plan.txs ==> Ordinary(tx)
      invariant plan.upgrade ==
                if "version" in Set(keys[..i]) then Some(ReadVersion(setting, diff["version"])) else None
      invariant plan.owner ==
                if "owner" in Set(keys[..i]) then Some(ReadAddress(setting, diff["owner"]).value) else None
    {
      var key := keys[i];
      ghost var done := Set(keys[..i]);
      assert keys[..i + 1] == keys[..i] + [key];
      MoreInSet(keys[..i], key);
      assert key in diff && key !in done;
      ConcatStep(keys, i, DiffTxs(setting, diff, order));
      DiffTx(setting, diff, order, key);
      if key == "version" {
        plan := plan.(upgrade := Some(ReadVersion(setting, diff[key])));
        NoTxsReach(setting, key, diff[key], order);
        CoversStep(setting, diff, plan.txs, [], done, key);
        assert plan.txs + [] == plan.txs;
      } else if key == "owner" {
        var account := ReadAddress(setting, diff[key]);
        if account.Err? {
          return Err(account.error);
        }
        plan := plan.(owner := Some(account.value));
        NoTxsReach(setting, key, diff[key], order);
        CoversStep(setting, diff, plan.txs, [], done, key);
        assert plan.txs + [] == plan.txs;
      } else {
        var more := PlanKey(setting, key, diff[key], order);
        if more.Err? {
          return Err(more.error);
        }
        CoversStep(setting, diff, plan.txs, more.value, done, key);
        plan := plan.(txs := plan.txs + more.value);
      }
    }
    assert keys[..|keys|] == keys;
    return Ok(plan);
  }

  // ---------- running the plan ----------

  /** The order the effects run in: the upgrade, the transactions, the new owner. */
  function InOrder(plan: Plan): seq<Tx>
  {
    (if plan.upgrade.Some? then [Upgrade(plan.upgrade.value)] else []) + plan.txs
    + (if plan.owner.Some? then [SetOwner(plan.owner.value)] else [])
  }

  /** A transaction as it ran: who owned the manager then. */
  datatype Sent = Sent(tx: Tx, owner: Account)

  function SentBy(setting: Setting, leg: Leg, txs: seq<Tx>): seq<Sent>
  {
    if txs == [] then [] else
      var n := |txs| - 1;
      SentBy(setting, leg, txs[..n]) + [Sent(txs[n], Effects(setting, leg, txs[..n]).owner)]
  }

  /** All ran under the first owner; the upgrade came first and the handing over last. */
  ghost predicate Orderly(sent: seq<Sent>, owner: Account) {
    && (forall i :: 0 <= i < |sent| ==> sent[i].owner == owner)
    && (forall i :: 0 < i < |sent| ==> !sent[i].tx.Upgrade?)
    && (forall i :: 0 <= i < |sent| - 1 ==> !sent[i].tx.SetOwner?)
  }

  lemma {:induction false} OwnerKept(setting: Setting, leg: Leg, txs: seq<Tx>)
    requires forall i :: 0 <= i < |txs| ==> !txs[i].SetOwner?
    ensures Effects(setting, leg, txs).owner == leg.owner
  {
    if txs != [] {
      OwnerKept(setting, leg, txs[..|txs| - 1]);
    }
  }

  lemma {:induction false} SentUnderOwner(setting: Setting, leg: Leg, txs: seq<Tx>)
    requires forall i :: 0 <= i < |txs| - 1 ==> !txs[i].SetOwner?
    ensures |SentBy(setting, leg, txs)| == |txs|
    ensures forall i :: 0 <= i < |txs| ==> SentBy(setting, leg, txs)[i] == Sent(txs[i], leg.owner)
  {
    hide Effects;
    if txs != [] {
      var n := |txs| - 1;
      SentUnderOwner(setting, leg, txs[..n]);
      OwnerKept(setting, leg, txs[..n]);
    }
  }

  /** Every transaction of a plan, however many of them run, runs while the first owner owns the manager. */
  lemma PlanIsOrderly(setting: Setting, leg: Leg, plan: Plan, k: nat)
    requires (forall tx :: tx in plan.txs ==> Ordinary(tx)) && k <= |InOrder(plan)|
    ensures Orderly(SentBy(setting, leg, InOrder(plan)[..k]), leg.owner)
    ensures k < |InOrder(plan)| ==> Effects(setting, leg, InOrder(plan)[..k]).owner == leg.owner
  {
    hide Effects;
    var txs := InOrder(plan);
    var first := if plan.upgrade.Some? then 1 else 0;
    forall i | 0 <= i < |txs|
      ensures i > 0 ==> !txs[i].Upgrade?
      ensures i < |txs| - 1 ==> !txs[i].SetOwner?
    {
      if i < first {
        assert txs[i] == Upgrade(plan.upgrade.value);
      } else if i < first + |plan.txs| {
        assert txs[i] == plan.txs[i - first];
        assert plan.txs[i - first] in plan.txs;
      } else {
        assert txs[i] == SetOwner(plan.owner.value);
      }
    }
    SentUnderOwner(setting, leg, txs[..k]);
    if k < |txs| {
      OwnerKept(setting, leg, txs[..k]);
    }
  }

  /** The transactions that ran. */
  function Ran(sent: seq<Sent>): (txs: seq<Tx>)
    ensures |txs| == |sent| && forall i :: 0 <= i < |sent| ==> txs[i] == sent[i].tx
  {
    seq(|sent|, i requires 0 <= i < |sent| => sent[i].tx)
  }

  lemma {:induction false} RanAreSent(setting: Setting, leg: Leg, txs: seq<Tx>)
    ensures Ran(SentBy(setting, leg, txs)) == txs
  {
    hide Effects;
    if txs != [] {
      var n := |txs| - 1;
      RanAreSent(setting, leg, txs[..n]);
      assert txs == txs[..n] + [txs[n]];
    }
  }

  /** Running all that is planned leaves the final leg. */
  lemma PlanReachesFinal(setting: Setting, leg: Leg, diff: map<string, Node>, order: Listing)
    requires Plannable(setting, diff) && Covers(setting, diff, Planned(setting, diff, order).txs, diff.Keys)
    ensures Effects(setting, leg, InOrder(Planned(setting, diff, order))) == Final(setting, leg, diff)
  {
    hide Effects, ReadVersion, ReadAddress, NewPauser, NewPaused, NewOutbound, AllInbound, NewThreshold, NewWormhole,
         Concat;
    var plan := Planned(setting, diff, order);
    var up := if plan.upgrade.Some? then [Upgrade(plan.upgrade.value)] else [];
    var down := if plan.owner.Some? then [SetOwner(plan.owner.value)] else [];
    EffectsAppend(setting, leg, up + plan.txs, down);
    EffectsAppend(setting, leg, up, plan.txs);
    var upgraded := Effects(setting, leg, up);
    OneEffect(setting, leg, Upgrade(if plan.upgrade.Some? then plan.upgrade.value else ""));
    assert Effects(setting, upgraded, plan.txs) == Middle(setting, upgraded, diff, diff.Keys);
    OneEffect(setting, Effects(setting, upgraded, plan.txs),
              SetOwner(if plan.owner.Some? then plan.owner.value else ""));
  }

  class Contracts {
    const setting: Setting
    var leg: Leg
    ghost var sent: seq<Sent>

    method Send(tx: Tx)
      requires Encodable(tx)
      modifies this
      ensures leg == Effect(setting, old(leg), tx) && sent == old(sent) + [Sent(tx, old(leg).owner)]
    {
      hide WORD;
      sent := sent + [Sent(tx, leg.owner)];
      match tx
      case Upgrade(version) => leg := leg.(version := version);
      case SetPauser(account) => leg := leg.(pauser := Some(account));
      case Pause => leg := leg.(paused := true);
      case Unpause => leg := leg.(paused := false);
      case SetOutbound(units) => leg := leg.(outbound := setting.stored(EncodeUint256(units).value));
      case SetInbound(chain, units) =>
        leg := leg.(inbound := leg.inbound[chain := setting.stored(EncodeUint256(units).value)]);
      case SetThreshold(value) => leg := leg.(threshold := EncodeUint8(value).value);
      case SetTransceiverPauser(account) => leg := leg.(transceiverPauser := Some(account));
      case SetOwner(account) => leg := leg.(owner := account);
    }

    /** One after the other, up to the first that cannot be encoded or reverts. */
    method SendAll(txs: seq<Tx>, reverts: nat -> bool) returns (landed: nat)
      modifies this
      ensures landed <= |txs| && Lands(txs, reverts, landed)
      ensures leg == Effects(setting, old(leg), txs[..landed])
      ensures sent == old(sent) + SentBy(setting, old(leg), txs[..landed])
    {
      hide Encodable;
      for i := 0 to |txs|
        invariant forall k :: 0 <= k < i ==> Encodable(txs[k]) && !reverts(k)
        invariant leg == Effects(setting, old(leg), txs[..i]) && sent == old(sent) + SentBy(setting, old(leg), txs[..i])
      {
        if !Encodable(txs[i]) || reverts(i) {
          return i;
        }
        assert txs[..i + 1][..i] == txs[..i];
        Send(txs[i]);
      }
      return |txs|;
    }
  }

  /** So many land: up to the first that cannot be encoded or reverts. */
  ghost predicate Lands(txs: seq<Tx>, reverts: nat -> bool, landed: nat)
    requires landed <= |txs|
  {
    && (forall i :: 0 <= i < landed ==> Encodable(txs[i]) && !reverts(i))
    && (landed < |txs| ==> !Encodable(txs[landed]) || reverts(landed))
  }

  /** Local-only fields. */
  const EXCLUDED: seq<string> := ["managerVariant"]

  lemma NothingSent(setting: Setting, leg: Leg)
    ensures Orderly([], leg.owner) && Effects(setting, leg, Ran([])) == leg
  {
  }

  lemma NothingToPush(setting: Setting, leg: Leg, diff: map<string, Node>, order: Listing)
    requires diff.Keys == {} && Lists(order)
    ensures Plannable(setting, diff) && Final(setting, leg, diff) == leg
    ensures InOrder(Planned(setting, diff, order)) == []
  {
    assert |multiset(order(diff.Keys))| == |order(diff.Keys)| && multiset(diff.Keys) == multiset{};
  }

  // ---------- what can be sent ----------

  predicate LimitEncodes(setting: Setting, n: Node, key: string) {
    match LimitIn(setting, n, key) case None => true case Some(units) => EncodeUint256(units).Some?
  }

  /** Limits and the threshold fit the words they are sent in. */
  predicate Encodes(setting: Setting, diff: map<string, Node>) {
    && ("limits" in diff ==>
          && LimitEncodes(setting, diff["limits"], "outbound")
          && (match Inside(diff["limits"], "inbound")
              case None => true
              case Some(inbound) => forall c :: c in KeysOf(inbound) ==> LimitEncodes(setting, inbound, c)))
    && ("transceivers" in diff ==>
          match ThresholdIn(diff["transceivers"]) case None => true case Some(value) => EncodeUint8(value).Some?)
  }

  ghost predicate AllEncodable(txs: seq<Tx>) { forall tx :: tx in txs ==> Encodable(tx) }

  lemma ConcatEncodes(keys: seq<string>, list: string -> seq<Tx>)
    ensures AllEncodable(Concat(keys, list)) <==> forall key :: key in keys ==> AllEncodable(list(key))
  {
    hide Encodable, Concat;
    forall tx
      ensures tx in Concat(keys, list) <==> exists key :: key in keys && tx in list(key)
    {
      InConcat(keys, list, tx);
    }
    if AllEncodable(Concat(keys, list)) {
      forall key, tx | key in keys && tx in list(key)
        ensures Encodable(tx)
      {
        assert tx in Concat(keys, list);
      }
    }
  }

  lemma ListedIn(order: Listing, keys: set<string>)
    requires Lists(order)
    ensures forall key :: key in order(keys) <==> key in keys
  {
    ListedOnce(order, keys);
    forall key
      ensures key in order(keys) <==> key in keys
    {
      assert key in order(keys) <==> key in Set(order(keys));
    }
  }

  lemma InboundEncodes(setting: Setting, n: Node, order: Listing)
    requires Lists(order)
    ensures AllEncodable(Concat(order(KeysOf(n)), InboundTx(setting, n))) <==>
              forall c :: c in KeysOf(n) ==> LimitEncodes(setting, n, c)
  {
    hide Concat, LimitIn, EncodeUint256, KeysOf;
    ConcatEncodes(order(KeysOf(n)), InboundTx(setting, n));
    ListedIn(order, KeysOf(n));
    forall c
      ensures AllEncodable(InboundTx(setting, n)(c)) <==> LimitEncodes(setting, n, c)
    {
      if LimitIn(setting, n, c).Some? {
        assert SetInbound(c, LimitIn(setting, n, c).value) in InboundTx(setting, n)(c);
      }
    }
  }

  lemma LimitsEncode(setting: Setting, n: Node, order: Listing)
    requires Lists(order)
    ensures AllEncodable(LimitTxs(setting, n, order)) <==>
              && LimitEncodes(setting, n, "outbound")
              && (match Inside(n, "inbound")
                  case None => true
                  case Some(inbound) => forall c :: c in KeysOf(inbound) ==> LimitEncodes(setting, inbound, c))
  {
    hide Concat, LimitIn, EncodeUint256, Inside, KeysOf, InboundTx;
    if Inside(n, "inbound").Some? {
      InboundEncodes(setting, Inside(n, "inbound").value, order);
    }
    var outbound := LimitIn(setting, n, "outbound");
    var first := match outbound case None => [] case Some(units) => [SetOutbound(units)];
    var rest := match Inside(n, "inbound")
                case None => []
                case Some(inbound) => Concat(order(KeysOf(inbound)), InboundTx(setting, inbound));
    assert LimitTxs(setting, n, order) == first + rest;
    BothEncode(first, rest);
    if outbound.Some? {
      assert SetOutbound(outbound.value) in first;
    }
  }

  lemma BothEncode(a: seq<Tx>, b: seq<Tx>)
    ensures AllEncodable(a + b) <==> AllEncodable(a) && AllEncodable(b)
  {
    hide Encodable;
    assert forall tx :: tx in a + b <==> tx in a || tx in b;
  }

  lemma AccountsEncode(setting: Setting, w: Node, order: Listing)
    ensures AllEncodable(Concat(order(KeysOf(w)), WormholeTx(setting, w)))
  {
    hide Concat, ReadAddress, KeysOf;
    ConcatEncodes(order(KeysOf(w)), WormholeTx(setting, w));
  }

  lemma TransceiversEncode(setting: Setting, n: Node, order: Listing)
    requires Lists(order)
    ensures AllEncodable(Concat(order(KeysOf(n)), TransceiverTx(setting, n, order))) <==>
              match ThresholdIn(n) case None => true case Some(value) => EncodeUint8(value).Some?
  {
    hide Concat, EncodeUint8, WormholeTx;
    var list := TransceiverTx(setting, n, order);
    ConcatEncodes(order(KeysOf(n)), list);
    ListedIn(order, KeysOf(n));
    forall key | key != "threshold"
      ensures AllEncodable(list(key))
    {
      if Inside(n, key).Some? {
        AccountsEncode(setting, Inside(n, key).value, order);
      }
    }
    if ThresholdIn(n).Some? {
      assert "threshold" in KeysOf(n) && SetThreshold(ThresholdIn(n).value) in list("threshold");
    }
  }

  lemma OtherKeysEncode(setting: Setting, key: string, n: Node, order: Listing)
    requires key != "limits" && key != "transceivers"
    ensures AllEncodable(KeyTxs(setting, key, n, order))
  {
    hide ReadAddress;
  }

  lemma KeysEncode(setting: Setting, diff: map<string, Node>, order: Listing)
    requires Lists(order)
    ensures (forall key :: key in diff ==> AllEncodable(KeyTxs(setting, key, diff[key], order))) <==>
              Encodes(setting, diff)
  {
    hide AllEncodable, Concat, LimitTxs, TransceiverTx, EncodeUint8, LimitEncodes, ThresholdIn, Inside;
    if "limits" in diff {
      LimitsEncode(setting, diff["limits"], order);
    }
    if "transceivers" in diff {
      TransceiversEncode(setting, diff["transceivers"], order);
    }
    forall key | key in diff && key != "limits" && key != "transceivers"
      ensures AllEncodable(KeyTxs(setting, key, diff[key], order))
    {
      OtherKeysEncode(setting, key, diff[key], order);
    }
  }

  /** A plan can be sent entirely exactly if its limits and its threshold fit. */
  lemma PlanEncodes(setting: Setting, diff: map<string, Node>, order: Listing)
    requires Lists(order)
    ensures AllEncodable(InOrder(Planned(setting, diff, order))) <==> Encodes(setting, diff)
  {
    var plan := Planned(setting, diff, order);
    var up := if plan.upgrade.Some? then [Upgrade(plan.upgrade.value)] else [];
    var down := if plan.owner.Some? then [SetOwner(plan.owner.value)] else [];
    assert AllEncodable(up) && AllEncodable(down);
    hide Concat, KeyTxs, DiffTxs, Encodes, ReadAddress, ReadVersion, AllEncodable;
    BothEncode(up + plan.txs, down);
    BothEncode(up, plan.txs);
    ConcatEncodes(order(diff.Keys), DiffTxs(setting, diff, order));
    ListedIn(order, diff.Keys);
    KeysEncode(setting, diff, order);
    forall key | key in diff
      ensures DiffTxs(setting, diff, order)(key) == KeyTxs(setting, key, diff[key], order)
    {
      DiffTx(setting, diff, order, key);
    }
  }

  // ---------- convergence ----------

  /** The local value is written as the leg will show it. */
  predicate ShowsAccount(setting: Setting, n: Node) {
    n.Entry? && match n.push
                case Some(Scalar(Text(s))) => setting.readAddress(s) == Some(s)
                case _ => false
  }

  /** A limit in canonical form, and of an amount that can be sent and is stored without dust. */
  predicate ShowsLimit(setting: Setting, n: Node) {
    n.Entry? && match n.push
                case Some(Scalar(Text(s))) =>
                  (match ParseUnits(s, setting.decimals)
                   case Some(units) =>
                     && 0 <= units < WORD
                     && s == FormatNumber(units, setting.decimals) && setting.stored(units) == units
                   case None => false)
                case _ => false
  }

  predicate SettledInbound(setting: Setting, n: Node) {
    n.Sub? && forall c :: c in n.entries ==> c in setting.peers && ShowsLimit(setting, n.entries[c])
  }

  predicate SettledLimits(setting: Setting, n: Node) {
    && n.Sub?
    && forall k :: k in n.entries ==>
         if k == "outbound" then ShowsLimit(setting, n.entries[k])
         else k == "inbound" && SettledInbound(setting, n.entries[k])
  }

  predicate SettledWormhole(setting: Setting, n: Node) {
    n.Sub? && forall k :: k in n.entries ==> k == "pauser" && ShowsAccount(setting, n.entries[k])
  }

  /** A number that can be sent, as the leg shows it; text that reads as one would differ for ever. */
  predicate ShowsThreshold(value: Json) {
    match value case Scalar(Number(_)) => EncodeUint8(value).Some? case _ => false
  }

  predicate SettledTransceivers(setting: Setting, n: Node) {
    && n.Sub?
    && forall k :: k in n.entries ==>
         if k == "threshold" then
           && n.entries[k].Entry? && n.entries[k].push.Some? && ShowsThreshold(n.entries[k].push.value)
         else k == "wormhole" && SettledWormhole(setting, n.entries[k])
  }

  /** Every differing field has a local value, in the form the leg shows it. */
  predicate SettledKey(setting: Setting, key: string, n: Node) {
    if key == "version" then
      && n.Entry? && n.push.Some? && n.push.value.Scalar?
      && n.push.value.value.Text? && n.push.value.value.text != ""
    else if key == "owner" || key == "pauser" then ShowsAccount(setting, n)
    else if key == "paused" then n.Entry? && n.push.Some? && n.push.value.Scalar? && n.push.value.value.Flag?
    else if key == "limits" then SettledLimits(setting, n)
    else key == "transceivers" && SettledTransceivers(setting, n)
  }

  predicate Settled(setting: Setting, diff: map<string, Node>)
  {
    forall k :: k in diff ==> SettledKey(setting, k, diff[k])
  }

  lemma LimitSettles(setting: Setting, n: Node)
    requires ShowsLimit(setting, n)
    ensures n.Entry? && ReadLimit(setting, n).Ok? && ReadLimit(setting, n).value.Some?
    ensures var units := ReadLimit(setting, n).value.value;
            && 0 <= units < WORD && Kept(setting, units) == Some(units)
            && n.push == Some(Txt(FormatNumber(units, setting.decimals)))
  {
    hide FormatNumber, ParseUnits;
    var s := n.push.value.value.text;
    NotEmpty(ParseUnits(s, setting.decimals).value, setting.decimals);
  }

  lemma NotEmpty(n: nat, decimals: nat)
    ensures FormatNumber(n, decimals) != ""
  {
  }

  /** The inbound table the leg shows is the remote one with the pushes applied. */
  lemma InboundSettles(setting: Setting, leg: Leg, after: Leg, n: Node)
    requires SettledInbound(setting, n) && after.inbound == NewInbound(setting, leg.inbound, n, KeysOf(n))
    ensures ShowInbound(setting, after) == ApplyPush(ShowInbound(setting, leg), n.entries)
  {
    hide FormatNumber, ApplyPush, ShowsLimit, ReadLimit;
    var shown, pushed := ShowInbound(setting, after), ApplyPush(ShowInbound(setting, leg), n.entries);
    forall c
      ensures Field(shown, c) == Field(pushed, c)
    {
      PushedField(ShowInbound(setting, leg), n.entries, c);
      if c in n.entries {
        LimitSettles(setting, n.entries[c]);
        LimitRead(setting, n, c);
        assert c in after.inbound && Units(after, c) == ReadLimit(setting, n.entries[c]).value.value;
      } else {
        assert Units(after, c) == Units(leg, c);
      }
    }
    SameFieldsEqual(shown, pushed);
  }

  lemma LimitsSettle(setting: Setting, leg: Leg, after: Leg, n: Node)
    requires SettledLimits(setting, n)
    requires after.outbound == NewOutbound(setting, leg.outbound, n)
    requires after.inbound == AllInbound(setting, leg.inbound, n)
    ensures ShowLimits(setting, after) == ApplyPush(ShowLimits(setting, leg), n.entries)
  {
    hide FormatNumber, ApplyPush, ShowsLimit, ReadLimit, ShowInbound, NewInbound, SettledInbound, KeysOf;
    var shown, pushed := ShowLimits(setting, after), ApplyPush(ShowLimits(setting, leg), n.entries);
    if "outbound" in n.entries {
      LimitSettles(setting, n.entries["outbound"]);
      LimitRead(setting, n, "outbound");
    }
    if "inbound" in n.entries {
      InboundSettles(setting, leg, after, n.entries["inbound"]);
      IsSub(setting, n.entries["inbound"]);
    } else {
      SameInbound(setting, leg, after);
    }
    forall k
      ensures Field(shown, k) == Field(pushed, k)
    {
      PushedField(ShowLimits(setting, leg), n.entries, k);
    }
    SameFieldsEqual(shown, pushed);
  }

  lemma IsSub(setting: Setting, n: Node)
    requires SettledInbound(setting, n)
    ensures n.Sub?
  {
  }

  lemma SameInbound(setting: Setting, a: Leg, b: Leg)
    ensures a.inbound == b.inbound ==> ShowInbound(setting, a) == ShowInbound(setting, b)
  {
  }

  lemma WormholeSettles(setting: Setting, leg: Leg, after: Leg, n: Node)
    requires SettledWormhole(setting, n) && after.transceiver == leg.transceiver
    requires after.transceiverPauser == NewTransceiverPauser(setting, leg.transceiverPauser, n)
    ensures ShowWormhole(after) == ApplyPush(ShowWormhole(leg), n.entries)
  {
    hide ApplyPush;
    var shown, pushed := ShowWormhole(after), ApplyPush(ShowWormhole(leg), n.entries);
    forall k
      ensures Field(shown, k) == Field(pushed, k)
    {
      PushedField(ShowWormhole(leg), n.entries, k);
    }
    SameFieldsEqual(shown, pushed);
  }

  lemma TransceiversSettle(setting: Setting, leg: Leg, after: Leg, n: Node)
    requires SettledTransceivers(setting, n) && after.transceiver == leg.transceiver
    requires after.threshold == NewThreshold(leg.threshold, n)
    requires after.transceiverPauser == NewWormhole(setting, leg.transceiverPauser, n)
    ensures ShowTransceivers(after) == ApplyPush(ShowTransceivers(leg), n.entries)
  {
    hide ApplyPush, SettledWormhole, NewTransceiverPauser, ShowWormhole;
    var shown, pushed := ShowTransceivers(after), ApplyPush(ShowTransceivers(leg), n.entries);
    if "wormhole" in n.entries {
      WormholeSettles(setting, leg, after, n.entries["wormhole"]);
      IsSubWormhole(setting, n.entries["wormhole"]);
    } else {
      SameWormhole(leg, after);
    }
    forall k
      ensures Field(shown, k) == Field(pushed, k)
    {
      PushedField(ShowTransceivers(leg), n.entries, k);
    }
    SameFieldsEqual(shown, pushed);
  }

  lemma IsSubWormhole(setting: Setting, n: Node)
    requires SettledWormhole(setting, n)
    ensures n.Sub?
  {
  }

  lemma SameWormhole(a: Leg, b: Leg)
    ensures a.transceiver == b.transceiver && a.transceiverPauser == b.transceiverPauser ==>
              ShowWormhole(a) == ShowWormhole(b)
  {
  }

  function ShownField(setting: Setting, leg: Leg, key: string): Option<Json>
  {
    if key == "version" then Some(Txt(leg.version))
    else if key == "owner" then Some(Txt(leg.owner))
    else if key == "pauser" then (if leg.pauser.Some? then Some(Txt(leg.pauser.value)) else None)
    else if key == "paused" then Some(Scalar(Flag(leg.paused)))
    else if key == "limits" then Some(ShowLimits(setting, leg))
    else if key == "transceivers" then Some(ShowTransceivers(leg))
    else if key == "mode" then Some(Txt(leg.mode))
    else if key == "manager" then Some(Txt(leg.manager))
    else if key == "token" then Some(Txt(leg.token))
    else None
  }

  lemma ShownFieldIs(setting: Setting, leg: Leg, key: string)
    ensures Field(Show(setting, leg), key) == ShownField(setting, leg, key)
  {
    hide ShowTransceivers, ShowLimits;
  }

  /** The fields that are accounts, texts and flags, changed or not. */
  lemma ScalarsSettle(setting: Setting, leg: Leg, diff: map<string, Node>, key: string)
    requires Settled(setting, diff) && key != "limits" && key != "transceivers"
    ensures ShownField(setting, Final(setting, leg, diff), key) == Pushed(Show(setting, leg), diff, key)
  {
    ShownFieldIs(setting, leg, key);
    assert key in diff ==> SettledKey(setting, key, diff[key]);
    if key == "owner" || key == "pauser" {
      AccountsSettle(setting, leg, diff, key);
    } else {
      hide ShowTransceivers, ShowLimits, SettledLimits, SettledTransceivers, NewOutbound, AllInbound, NewThreshold,
           NewWormhole, NewPauser, ReadAddress, ShowsAccount, Show, ApplyPush;
    }
  }

  lemma AccountsSettle(setting: Setting, leg: Leg, diff: map<string, Node>, key: string)
    requires (key in diff ==> ShowsAccount(setting, diff[key])) && (key == "owner" || key == "pauser")
    ensures ShownField(setting, Final(setting, leg, diff), key) == Pushed(Show(setting, leg), diff, key)
  {
    hide ShowTransceivers, ShowLimits, NewPaused, NewOutbound, AllInbound, NewThreshold, NewWormhole, ReadVersion, Show,
         ApplyPush;
    ShownFieldIs(setting, leg, key);
  }

  lemma ObjectsSettle(setting: Setting, leg: Leg, diff: map<string, Node>, key: string)
    requires Settled(setting, diff) && (key == "limits" || key == "transceivers")
    ensures ShownField(setting, Final(setting, leg, diff), key) == Pushed(Show(setting, leg), diff, key)
  {
    hide ShowTransceivers, ShowLimits, Settled, Final, Show, ApplyPush;
    ShownFieldIs(setting, leg, key);
    NestedSettle(setting, leg, diff);
  }

  /** The leg after a completed push is shown as the remote configuration with the pushes applied. */
  lemma PushedIsShown(setting: Setting, leg: Leg, diff: map<string, Node>)
    requires Settled(setting, diff)
    ensures Show(setting, Final(setting, leg, diff)) == ApplyPush(Show(setting, leg), diff)
  {
    hide ApplyPush, Show, Final, Settled, ShownField, Pushed;
    var after := Final(setting, leg, diff);
    var shown, pushed := Show(setting, after), ApplyPush(Show(setting, leg), diff);
    forall k
      ensures Field(shown, k) == Field(pushed, k)
    {
      PushedField(Show(setting, leg), diff, k);
      ShownFieldIs(setting, after, k);
      if k == "limits" || k == "transceivers" {
        ObjectsSettle(setting, leg, diff, k);
      } else {
        ScalarsSettle(setting, leg, diff, k);
      }
    }
    SameFieldsEqual(shown, pushed);
  }

  /** The two nested objects, changed or not. */
  lemma NestedSettle(setting: Setting, leg: Leg, diff: map<string, Node>)
    requires Settled(setting, diff)
    ensures var after := Final(setting, leg, diff);
            && ShowLimits(setting, after) ==
                 (if "limits" in diff && diff["limits"].Sub?
                  then ApplyPush(ShowLimits(setting, leg), diff["limits"].entries)
                  else ShowLimits(setting, leg))
            && ShowTransceivers(after) ==
                 (if "transceivers" in diff && diff["transceivers"].Sub?
                  then ApplyPush(ShowTransceivers(leg), diff["transceivers"].entries)
                  else ShowTransceivers(leg))
            && ("limits" in diff ==> diff["limits"].Sub?) && ("transceivers" in diff ==> diff["transceivers"].Sub?)
  {
    hide ApplyPush, NewPauser, NewPaused, NewOutbound, AllInbound, NewThreshold, NewWormhole, ReadAddress, ReadVersion;
    var after := Final(setting, leg, diff);
    if "limits" in diff {
      LimitsSettle(setting, leg, after, diff["limits"]);
    } else {
      SameInbound(setting, leg, after);
    }
    if "transceivers" in diff {
      TransceiversSettle(setting, leg, after, diff["transceivers"]);
    } else {
      SameWormhole(leg, after);
    }
  }

  /** No list anywhere. */
  predicate ListFree(j: Json) {
    match j
    case Scalar(_) => true
    case List(_) => false
    case Obj(fields) => forall k :: k in fields ==> ListFree(fields[k])
  }

  lemma {:induction false} ListFreeShows(j: Json, keys: seq<string>)
    requires ListFree(j)
    ensures !ShapeAt(j, keys).Sequence?
    decreases |keys|
  {
    if keys != [] && j.Obj? && keys[0] in j.fields {
      ListFreeShows(j.fields[keys[0]], keys[1..]);
      assert Follow(j, keys) == Follow(j.fields[keys[0]], keys[1..]);
    }
  }

  lemma ShownListFree(setting: Setting, leg: Leg)
    ensures ListFree(Show(setting, leg))
  {
    hide FormatNumber;
    assert ListFree(ShowInbound(setting, leg));
    assert ListFree(ShowLimits(setting, leg));
    assert ListFree(ShowWormhole(leg));
    assert ListFree(ShowTransceivers(leg));
  }

  /**
   * A completed push converges: when every differing field has a local value written as the leg shows
   * it, and limits are stored without dust, the next diff is empty.
   */
  lemma PushConverges(setting: Setting, leg: Leg, local: Tree)
    requires Settled(setting, DiffOf(local, Show(setting, leg), EXCLUDED, ""))
    ensures var diff := DiffOf(local, Show(setting, leg), EXCLUDED, "");
            DiffOf(local, Show(setting, Final(setting, leg, diff)), EXCLUDED, "") == map[]
  {
    hide DiffOf, ApplyPush, Show, Final, SameShapes, NoLists, Settled, ListFree;
    var remote := Show(setting, leg);
    var diff := DiffOf(local, remote, EXCLUDED, "");
    var after := Show(setting, Final(setting, leg, diff));
    PushedIsShown(setting, leg, diff);
    PushRebuilds(local, remote, EXCLUDED, "");
    SameShapesSymmetric(after, local, EXCLUDED, "");
    ShownListFree(setting, Final(setting, leg, diff));
    ListFreeNoLists(after, EXCLUDED, "");
    SameLists(local, after, EXCLUDED, "");
    EmptyWhenSame(local, after, EXCLUDED, "");
  }

  /** Such a diff can always be read and sent. */
  lemma SettledIsPlannable(setting: Setting, diff: map<string, Node>)
    requires Settled(setting, diff) && forall c :: c in setting.peers ==> setting.isChain(c)
    ensures Plannable(setting, diff) && Encodes(setting, diff)
  {
    SettledEncodes(setting, diff);
    hide Encodes;
    hide ReadLimit, ShowsLimit;
    forall k | k in diff
      ensures KeyOk(setting, k, diff[k])
    {
      if k == "limits" {
        SettledLimitsOk(setting, diff[k]);
      }
    }
  }

  lemma SettledLimitsOk(setting: Setting, n: Node)
    requires SettledLimits(setting, n) && forall c :: c in setting.peers ==> setting.isChain(c)
    ensures LimitsOk(setting, n)
  {
    hide ReadLimit, ShowsLimit;
    if "outbound" in n.entries {
      LimitSettles(setting, n.entries["outbound"]);
    }
    if "inbound" in n.entries {
      var inbound := n.entries["inbound"];
      forall c | c in KeysOf(inbound)
        ensures setting.isChain(c) && Inside(inbound, c).Some? && ReadLimit(setting, Inside(inbound, c).value).Ok?
      {
        LimitSettles(setting, inbound.entries[c]);
      }
    }
  }

  lemma SettledEncodes(setting: Setting, diff: map<string, Node>)
    requires Settled(setting, diff)
    ensures Encodes(setting, diff)
  {
    hide ReadLimit, ShowsLimit, WORD, EncodeUint8;
    if "limits" in diff && "outbound" in diff["limits"].entries {
      ShownLimitEncodes(setting, diff["limits"], "outbound");
    }
    if "limits" in diff && "inbound" in diff["limits"].entries {
      var inbound := diff["limits"].entries["inbound"];
      forall c | c in KeysOf(inbound)
        ensures LimitEncodes(setting, inbound, c)
      {
        ShownLimitEncodes(setting, inbound, c);
      }
    }
  }

  lemma ShownLimitEncodes(setting: Setting, n: Node, key: string)
    requires n.Sub? && key in n.entries && ShowsLimit(setting, n.entries[key])
    ensures LimitEncodes(setting, n, key)
  {
    hide ReadLimit, ShowsLimit;
    LimitSettles(setting, n.entries[key]);
    LimitRead(setting, n, key);
  }

  lemma ListFreeNoLists(j: Json, excluded: seq<string>, path: string)
    requires ListFree(j)
    ensures NoLists(j, excluded, path)
  {
    hide ListFree, ShapeAt;
    forall keys | Included(excluded, path, keys)
      ensures !ShapeAt(j, keys).Sequence?
    {
      ListFreeShows(j, keys);
    }
  }

  // ---------- a push that fails late ----------

  /** What the leg shows, but paused and with some threshold. */
  function PausedWith(setting: Setting, leg: Leg, threshold: Json): Tree
  {
    var transceivers := Obj(ShowTransceivers(leg).fields["threshold" := threshold]);
    Obj(Show(setting, leg).fields["paused" := Scalar(Flag(true))]["transceivers" := transceivers])
  }

  lemma SameAt(a: Tree, b: Tree, path: string, key: string)
    requires Field(a, key) == Field(b, key) && (key in a.fields ==> ListFree(a.fields[key]))
    ensures DiffAt(a, b, EXCLUDED, path, key) == None
  {
    hide KeyPath;
    if key in a.fields && a.fields[key].Obj? {
      SameShapesReflexive(a.fields[key], EXCLUDED, KeyPath(path, key));
      ListFreeNoLists(a.fields[key], EXCLUDED, KeyPath(path, key));
      EmptyWhenSame(a.fields[key], b.fields[key], EXCLUDED, KeyPath(path, key));
    }
  }

  lemma ThresholdDiff(leg: Leg, threshold: Json)
    requires threshold.Scalar? && threshold != Scalar(Number(leg.threshold as real))
    ensures DiffOf(Obj(ShowTransceivers(leg).fields["threshold" := threshold]), ShowTransceivers(leg), EXCLUDED,
                   "transceivers") ==
              map["threshold" := Entry(Some(threshold), Some(Scalar(Number(leg.threshold as real))))]
  {
    var a, b := Obj(ShowTransceivers(leg).fields["threshold" := threshold]), ShowTransceivers(leg);
    assert KeyPath("transceivers", "threshold") !in EXCLUDED by {
      assert |"transceivers.threshold"| != |"managerVariant"|;
    }
    hide DiffOf, KeyPath;
    forall key
      ensures DiffAt(a, b, EXCLUDED, "transceivers", key) ==
                if key == "threshold" then Some(Entry(Some(threshold), Some(b.fields["threshold"]))) else None
    {
      if key != "threshold" {
        assert ListFree(ShowWormhole(leg));
        SameAt(a, b, "transceivers", key);
      }
    }
    var d := DiffOf(a, b, EXCLUDED, "transceivers");
    assert d.Keys == {"threshold"};
  }

  /** The diff of such a configuration. */
  function LateDiff(threshold: Json, current: nat): map<string, Node>
  {
    map["paused" := Entry(Some(Scalar(Flag(true))), Some(Scalar(Flag(false)))),
        "transceivers" := Sub(map["threshold" := Entry(Some(threshold), Some(Scalar(Number(current as real))))])]
  }

  lemma PausedDiff(setting: Setting, leg: Leg, threshold: Json)
    requires !leg.paused && threshold.Scalar? && threshold != Scalar(Number(leg.threshold as real))
    ensures DiffOf(PausedWith(setting, leg, threshold), Show(setting, leg), EXCLUDED, "") ==
              LateDiff(threshold, leg.threshold)
  {
    var a, b := PausedWith(setting, leg, threshold), Show(setting, leg);
    ShownListFree(setting, leg);
    ShownFieldIs(setting, leg, "paused");
    ShownFieldIs(setting, leg, "transceivers");
    hide Show, ShowTransceivers;
    PausedAt(a, b);
    TransceiversAt(leg, a, b, threshold);
    hide DiffOf, DiffAt;
    forall key | key != "paused" && key != "transceivers"
      ensures DiffAt(a, b, EXCLUDED, "", key) == None
    {
      SameAt(a, b, "", key);
    }
    var d := DiffOf(a, b, EXCLUDED, "");
    assert d.Keys == {"paused", "transceivers"};
  }

  lemma PausedAt(a: Tree, b: Tree)
    requires Field(a, "paused") == Some(Scalar(Flag(true))) && Field(b, "paused") == Some(Scalar(Flag(false)))
    ensures DiffAt(a, b, EXCLUDED, "", "paused") == Some(Entry(Some(Scalar(Flag(true))), Some(Scalar(Flag(false)))))
  {
    assert KeyPath("", "paused") == "paused" && |"paused"| != |"managerVariant"|;
  }

  lemma TransceiversAt(leg: Leg, a: Tree, b: Tree, threshold: Json)
    requires threshold.Scalar? && threshold != Scalar(Number(leg.threshold as real))
    requires Field(a, "transceivers") == Some(Obj(ShowTransceivers(leg).fields["threshold" := threshold]))
    requires Field(b, "transceivers") == Some(ShowTransceivers(leg))
    ensures DiffAt(a, b, EXCLUDED, "", "transceivers") == Some(LateDiff(threshold, leg.threshold)["transceivers"])
  {
    ThresholdDiff(leg, threshold);
    hide ShowTransceivers, DiffOf;
    assert "threshold" in DiffOf(a.fields["transceivers"], b.fields["transceivers"], EXCLUDED, "transceivers");
    assert KeyPath("", "transceivers") == "transceivers" && |"transceivers"| != |"managerVariant"|;
  }

  lemma LatePlan(setting: Setting, threshold: Json, current: nat, order: Listing)
    requires order({"paused", "transceivers"}) == ["paused", "transceivers"] && order({"threshold"}) == ["threshold"]
    ensures Plannable(setting, LateDiff(threshold, current))
    ensures InOrder(Planned(setting, LateDiff(threshold, current), order)) == [Pause, SetThreshold(threshold)]
  {
    var diff := LateDiff(threshold, current);
    assert diff.Keys == {"paused", "transceivers"};
    var inner := diff["transceivers"];
    assert KeysOf(inner) == {"threshold"} && ThresholdIn(inner) == Some(threshold);
    hide Concat, LateDiff;
    var list, nested := DiffTxs(setting, diff, order), TransceiverTx(setting, inner, order);
    OneKey("threshold", nested);
    TwoKeys("paused", "transceivers", list);
    assert list("paused") == [Pause];
    assert list("transceivers") == nested("threshold") == [SetThreshold(threshold)];
    assert InOrder(Planned(setting, diff, order)) == list("paused") + list("transceivers");
  }

  /**
   * A local configuration that is paused and has a threshold of -1: its diff can be read, so pausing is
   * sent, and only then does the threshold turn out not to be encodable.
   */
  lemma PausedThenFails(setting: Setting, leg: Leg, order: Listing)
    requires !leg.paused && leg.threshold == 1
    requires order({"paused", "transceivers"}) == ["paused", "transceivers"] && order({"threshold"}) == ["threshold"]
    ensures var threshold := Scalar(Number(-1.0));
            var diff := DiffOf(PausedWith(setting, leg, threshold), Show(setting, leg), EXCLUDED, "");
            && Plannable(setting, diff)
            && InOrder(Planned(setting, diff, order)) == [Pause, SetThreshold(threshold)]
            && Encodable(Pause) && !Encodable(SetThreshold(threshold))
  {
    var threshold := Scalar(Number(-1.0));
    assert !Encodable(SetThreshold(threshold)) && Encodable(Pause);
    hide DiffOf, Show, PausedWith, Planned, Plannable, Encodable, LateDiff, InOrder;
    PausedDiff(setting, leg, threshold);
    LatePlan(setting, threshold, 1, order);
  }

  /** So is a negative limit, in the right form but for its sign: read beforehand, not encodable. */
  lemma NegativeLimitFailsLate(setting: Setting, n: nat)
    requires 0 < n <= FIXED_LIMIT && setting.decimals <= 80
    ensures var e := Entry(Some(Txt("-" + FormatNumber(n, setting.decimals))), None);
            ReadLimit(setting, e) == Ok(Some(Minus(n))) && !Encodable(SetOutbound(Minus(n)))
  {
    hide FIXED_LIMIT, WORD, ParseUnits, FormatNumber;
    FormatParses(n, setting.decimals);
  }

  lemma OneKey<T>(key: string, list: string -> seq<T>)
    ensures Concat([key], list) == list(key)
  {
    NoConcat(list);
    ConcatStep([key], 0, list);
    assert [key][..1] == [key] && [key][..0] == [] && [] + list(key) == list(key);
  }

  lemma TwoKeys<T>(first: string, second: string, list: string -> seq<T>)
    ensures Concat([first, second], list) == list(first) + list(second)
  {
    OneKey(first, list);
    ConcatStep([first, second], 1, list);
    assert [first, second][..1] == [first] && [first, second][..2] == [first, second];
  }
}

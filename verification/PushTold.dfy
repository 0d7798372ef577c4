/** What a push sends, told from the local configuration and the leg alone. */
module PushTold {
  import opened ConfigDiff
  import opened ConfigPush
  import opened LimitText
  import opened Outcomes
  import opened Sequences

  // ---------- what the local configuration asks for ----------

  /** A non-empty text that parses to the amount, and is not what the leg shows. */
  predicate AsksLimit(setting: Setting, at: Option<Json>, shown: Option<nat>, units: int) {
    match at
    case Some(Scalar(Text(s))) =>
      && s != "" && ParseUnits(s, setting.decimals) == Some(units)
      && (shown.Some? ==> s != FormatNumber(shown.value, setting.decimals))
    case _ => false
  }

  /** A text that reads as the account, and is not what the leg shows. */
  predicate AsksAccount(setting: Setting, at: Option<Json>, shown: Option<Account>, account: Account) {
    match at
    case Some(Scalar(Text(s))) => setting.readAddress(s) == Some(account) && shown != Some(s)
    case _ => false
  }

  function VersionAt(setting: Setting, at: Option<Json>): string
  {
    match at
    case Some(Scalar(Text(s))) => if s == "" then setting.workingVersion else s
    case _ => setting.workingVersion
  }

  predicate Asked(setting: Setting, leg: Leg, local: Tree, tx: Tx) {
    match tx
    case Upgrade(version) =>
      && Follow(local, ["version"]) != Some(Scalar(Text(leg.version)))
      && version == VersionAt(setting, Follow(local, ["version"]))
    case SetPauser(account) => AsksAccount(setting, Follow(local, ["pauser"]), leg.pauser, account)
    case Pause => Follow(local, ["paused"]) == Some(Scalar(Flag(true))) && !leg.paused
    case Unpause =>
      && Follow(local, ["paused"]) != Some(Scalar(Flag(leg.paused)))
      && Follow(local, ["paused"]) != Some(Scalar(Flag(true)))
    case SetOutbound(units) => AsksLimit(setting, Follow(local, ["limits", "outbound"]), Some(leg.outbound), units)
    case SetInbound(chain, units) =>
      AsksLimit(setting, Follow(local, ["limits", "inbound", chain]),
                if chain in setting.peers then Some(Units(leg, chain)) else None, units)
    case SetThreshold(value) =>
      Follow(local, ["transceivers", "threshold"]) == Some(value) && value != Scalar(Number(leg.threshold as real))
    case SetTransceiverPauser(account) =>
      AsksAccount(setting, Follow(local, ["transceivers", "wormhole", "pauser"]), leg.transceiverPauser, account)
    case SetOwner(account) => AsksAccount(setting, Follow(local, ["owner"]), Some(leg.owner), account)
  }

  // ---------- differences at a path ----------

  /** The difference at a key of a difference. */
  function SubNode(d: Option<Node>, key: string): Option<Node>
  {
    match d case None => None case Some(n) => Inside(n, key)
  }

  function PushAt(d: Option<Node>): Option<Json>
  {
    match d case None => None case Some(n) => PushOf(n)
  }

  /** Only one key is excluded, at the top. */
  lemma NestedIncluded(path: string, key: string)
    requires path != ""
    ensures KeyPath(path, key) !in EXCLUDED
  {
    var whole := KeyPath(path, key);
    assert whole[|path|] == '.';
    assert forall i :: 0 <= i < |"managerVariant"| ==> "managerVariant"[i] != '.';
  }

  /** Against a scalar, or nothing, a difference is the local value if that is another. */
  lemma LeafDiff(a: Tree, b: Tree, path: string, key: string)
    requires KeyPath(path, key) !in EXCLUDED && (key in b.fields ==> b.fields[key].Scalar?)
    ensures var d := DiffAt(a, b, EXCLUDED, path, key);
            && (d == None <==> Field(a, key) == Field(b, key))
            && (d.Some? ==> d.value == Entry(Field(a, key), Field(b, key)))
            && PushAt(d) == if Field(a, key) == Field(b, key) then None else Field(a, key)
  {
    hide KeyPath;
  }

  /** Against an object, a difference has those of its fields, if the local value is an object too. */
  lemma ObjectDiff(a: Tree, b: Tree, path: string, key: string, inner: string)
    requires KeyPath(path, key) !in EXCLUDED && key in b.fields && b.fields[key].Obj?
    ensures var d := DiffAt(a, b, EXCLUDED, path, key);
            if key in a.fields && a.fields[key].Obj? then
              && (d.Some? ==> d.value.Sub?)
              && SubNode(d, inner) == DiffAt(a.fields[key], b.fields[key], EXCLUDED, KeyPath(path, key), inner)
            else d == Some(Entry(Field(a, key), Some(b.fields[key]))) && SubNode(d, inner) == None
  {
    hide KeyPath;
    if key in a.fields && a.fields[key].Obj? {
      var sub := DiffOf(a.fields[key], b.fields[key], EXCLUDED, KeyPath(path, key));
      hide DiffOf;
      assert inner in sub <==> DiffAt(a.fields[key], b.fields[key], EXCLUDED, KeyPath(path, key), inner).Some?;
    }
  }

  lemma FollowOne(j: Tree, a: string)
    ensures Follow(j, [a]) == Field(j, a)
  {
  }

  lemma FollowTwo(j: Tree, a: string, b: string)
    ensures Follow(j, [a, b]) ==
              if a in j.fields && j.fields[a].Obj? then Field(j.fields[a], b) else None
  {
    assert [a, b][1..] == [b];
    if a in j.fields && j.fields[a].Obj? {
      FollowOne(j.fields[a], b);
    }
  }

  lemma FollowThree(j: Tree, a: string, b: string, c: string)
    ensures Follow(j, [a, b, c]) ==
              if a in j.fields && j.fields[a].Obj? then Follow(j.fields[a], [b, c]) else None
  {
    assert [a, b, c][1..] == [b, c];
  }

  // ---------- the differences a push reads ----------

  function Top(setting: Setting, leg: Leg, local: Tree, key: string): Option<Node>
  {
    DiffAt(local, Show(setting, leg), EXCLUDED, "", key)
  }

  lemma TopIncluded(key: string)
    requires key in ["version", "owner", "pauser", "paused", "limits", "transceivers", "mode", "manager", "token"]
    ensures KeyPath("", key) == key && key !in EXCLUDED
  {
    assert |"version"| == 7 && |"owner"| == 5 && |"pauser"| == 6 && |"paused"| == 6 && |"limits"| == 6;
    assert |"transceivers"| == 12 && |"mode"| == 4 && |"manager"| == 7 && |"token"| == 5 && |"managerVariant"| == 14;
  }

  /** At a field that the leg shows as a scalar. */
  lemma TopLeaf(setting: Setting, leg: Leg, local: Tree, key: string)
    requires key in ["version", "owner", "pauser", "paused", "mode", "manager", "token"]
    ensures var d, shown := Top(setting, leg, local, key), ShownField(setting, leg, key);
            && (d == None <==> Follow(local, [key]) == shown)
            && (d.Some? ==> d.value == Entry(Follow(local, [key]), shown))
            && PushAt(d) == if Follow(local, [key]) == shown then None else Follow(local, [key])
  {
    hide Show, DiffAt, KeyPath;
    TopIncluded(key);
    ShownFieldIs(setting, leg, key);
    FollowOne(local, key);
    LeafDiff(local, Show(setting, leg), "", key);
  }

  lemma ShownObjects(setting: Setting, leg: Leg)
    ensures Field(Show(setting, leg), "limits") == Some(ShowLimits(setting, leg))
    ensures Field(Show(setting, leg), "transceivers") == Some(ShowTransceivers(leg))
  {
    hide Show;
    ShownFieldIs(setting, leg, "limits");
    ShownFieldIs(setting, leg, "transceivers");
  }

  /** Outbound: what the local tree has there, if it is another text than the leg's. */
  lemma OutboundDiff(setting: Setting, leg: Leg, local: Tree)
    ensures var at, shown := Follow(local, ["limits", "outbound"]), Txt(FormatNumber(leg.outbound, setting.decimals));
            PushAt(SubNode(Top(setting, leg, local, "limits"), "outbound")) == if at == Some(shown) then None else at
  {
    ShownObjects(setting, leg);
    TopIncluded("limits");
    NestedIncluded("limits", "outbound");
    hide Show, DiffAt, KeyPath, FormatNumber, ShowInbound;
    FollowTwo(local, "limits", "outbound");
    ObjectDiff(local, Show(setting, leg), "", "limits", "outbound");
    if "limits" in local.fields && local.fields["limits"].Obj? {
      LeafDiff(local.fields["limits"], ShowLimits(setting, leg), "limits", "outbound");
    }
  }

  function InboundNode(setting: Setting, leg: Leg, local: Tree): Option<Node>
  {
    SubNode(Top(setting, leg, local, "limits"), "inbound")
  }

  lemma InboundDiff(setting: Setting, leg: Leg, local: Tree, chain: string)
    ensures var at := Follow(local, ["limits", "inbound", chain]);
            var shown :=
              if chain in setting.peers then Some(Txt(FormatNumber(Units(leg, chain), setting.decimals))) else None;
            PushAt(SubNode(InboundNode(setting, leg, local), chain)) == if at == shown then None else at
  {
    ShownObjects(setting, leg);
    TopIncluded("limits");
    NestedIncluded("limits", "inbound");
    NestedIncluded(KeyPath("limits", "inbound"), chain);
    hide Show, DiffAt, KeyPath, FormatNumber;
    FollowThree(local, "limits", "inbound", chain);
    ObjectDiff(local, Show(setting, leg), "", "limits", "inbound");
    if "limits" in local.fields && local.fields["limits"].Obj? {
      var a, b := local.fields["limits"], ShowLimits(setting, leg);
      FollowTwo(a, "inbound", chain);
      ObjectDiff(a, b, "limits", "inbound", chain);
      if "inbound" in a.fields && a.fields["inbound"].Obj? {
        LeafDiff(a.fields["inbound"], ShowInbound(setting, leg), KeyPath("limits", "inbound"), chain);
      }
    }
  }

  lemma TransceiverThresholdDiff(setting: Setting, leg: Leg, local: Tree)
    ensures var at, shown := Follow(local, ["transceivers", "threshold"]), Scalar(Number(leg.threshold as real));
            PushAt(SubNode(Top(setting, leg, local, "transceivers"), "threshold")) ==
              if at == Some(shown) then None else at
  {
    ShownObjects(setting, leg);
    TopIncluded("transceivers");
    NestedIncluded("transceivers", "threshold");
    hide Show, DiffAt, KeyPath, ShowWormhole;
    FollowTwo(local, "transceivers", "threshold");
    ObjectDiff(local, Show(setting, leg), "", "transceivers", "threshold");
    if "transceivers" in local.fields && local.fields["transceivers"].Obj? {
      LeafDiff(local.fields["transceivers"], ShowTransceivers(leg), "transceivers", "threshold");
    }
  }

  function WormholeNode(setting: Setting, leg: Leg, local: Tree): Option<Node>
  {
    SubNode(Top(setting, leg, local, "transceivers"), "wormhole")
  }

  lemma WormholePauserDiff(setting: Setting, leg: Leg, local: Tree)
    ensures var at := Follow(local, ["transceivers", "wormhole", "pauser"]);
            var shown := if leg.transceiverPauser.Some? then Some(Txt(leg.transceiverPauser.value)) else None;
            PushAt(SubNode(WormholeNode(setting, leg, local), "pauser")) == if at == shown then None else at
  {
    ShownObjects(setting, leg);
    TopIncluded("transceivers");
    NestedIncluded("transceivers", "wormhole");
    NestedIncluded(KeyPath("transceivers", "wormhole"), "pauser");
    hide Show, DiffAt, KeyPath;
    FollowThree(local, "transceivers", "wormhole", "pauser");
    ObjectDiff(local, Show(setting, leg), "", "transceivers", "wormhole");
    if "transceivers" in local.fields && local.fields["transceivers"].Obj? {
      var a, b := local.fields["transceivers"], ShowTransceivers(leg);
      FollowTwo(a, "wormhole", "pauser");
      ObjectDiff(a, b, "transceivers", "wormhole", "pauser");
      if "wormhole" in a.fields && a.fields["wormhole"].Obj? {
        LeafDiff(a.fields["wormhole"], ShowWormhole(leg), KeyPath("transceivers", "wormhole"), "pauser");
      }
    }
  }

  // ---------- which transactions a plan has ----------

  lemma HasInbound(setting: Setting, n: Node, order: Listing, tx: Tx)
    requires Lists(order)
    ensures tx in Concat(order(KeysOf(n)), InboundTx(setting, n)) <==>
              tx.SetInbound? && tx.chain in KeysOf(n) && LimitIn(setting, n, tx.chain) == Some(tx.units)
  {
    hide Concat, LimitIn, KeysOf, Lists;
    InConcat(order(KeysOf(n)), InboundTx(setting, n), tx);
    ListedIn(order, KeysOf(n));
  }

  lemma HasLimit(setting: Setting, n: Node, order: Listing, tx: Tx)
    requires Lists(order)
    ensures tx in LimitTxs(setting, n, order) <==>
              || (tx.SetOutbound? && LimitIn(setting, n, "outbound") == Some(tx.units))
              || (tx.SetInbound? && Inside(n, "inbound").Some? && tx.chain in KeysOf(Inside(n, "inbound").value)
                  && LimitIn(setting, Inside(n, "inbound").value, tx.chain) == Some(tx.units))
  {
    hide Concat, LimitIn, KeysOf, Lists, Inside, InboundTx;
    if Inside(n, "inbound").Some? {
      HasInbound(setting, Inside(n, "inbound").value, order, tx);
    }
  }

  lemma HasWormhole(setting: Setting, w: Node, order: Listing, tx: Tx)
    requires Lists(order) && WormholeOk(setting, w)
    ensures tx in Concat(order(KeysOf(w)), WormholeTx(setting, w)) <==>
              tx.SetTransceiverPauser? && Inside(w, "pauser").Some?
              && ReadAddress(setting, Inside(w, "pauser").value) == Ok(tx.account)
  {
    hide Concat, Lists, ReadAddress;
    InConcat(order(KeysOf(w)), WormholeTx(setting, w), tx);
    ListedIn(order, KeysOf(w));
    assert Inside(w, "pauser").Some? ==> "pauser" in KeysOf(w);
  }

  lemma HasTransceiver(setting: Setting, n: Node, order: Listing, tx: Tx)
    requires Lists(order) && TransceiversOk(setting, n)
    ensures tx in Concat(order(KeysOf(n)), TransceiverTx(setting, n, order)) <==>
              || (tx.SetThreshold? && ThresholdIn(n) == Some(tx.value))
              || (tx.SetTransceiverPauser? && Inside(n, "wormhole").Some?
                  && Inside(Inside(n, "wormhole").value, "pauser").Some?
                  && ReadAddress(setting, Inside(Inside(n, "wormhole").value, "pauser").value) == Ok(tx.account))
  {
    hide Concat, Lists, ReadAddress, WormholeTx, WormholeOk;
    var list := TransceiverTx(setting, n, order);
    InConcat(order(KeysOf(n)), list, tx);
    ListedIn(order, KeysOf(n));
    if Inside(n, "wormhole").Some? {
      assert "wormhole" in KeysOf(n);
      HasWormhole(setting, Inside(n, "wormhole").value, order, tx);
    }
    assert Inside(n, "threshold").Some? ==> "threshold" in KeysOf(n);
    forall key | key in KeysOf(n)
      ensures key == "threshold" || key == "wormhole"
    {
    }
  }

  /** The transactions of a plan, by what they come from. */
  predicate Comes(setting: Setting, diff: map<string, Node>, tx: Tx) {
    match tx
    case Upgrade(version) => "version" in diff && version == ReadVersion(setting, diff["version"])
    case SetOwner(account) => "owner" in diff && ReadAddress(setting, diff["owner"]) == Ok(account)
    case SetPauser(account) => "pauser" in diff && ReadAddress(setting, diff["pauser"]) == Ok(account)
    case Pause => "paused" in diff && NewPaused(diff["paused"])
    case Unpause => "paused" in diff && !NewPaused(diff["paused"])
    case SetOutbound(units) => "limits" in diff && LimitIn(setting, diff["limits"], "outbound") == Some(units)
    case SetInbound(chain, units) =>
      && "limits" in diff && Inside(diff["limits"], "inbound").Some?
      && chain in KeysOf(Inside(diff["limits"], "inbound").value)
      && LimitIn(setting, Inside(diff["limits"], "inbound").value, chain) == Some(units)
    case SetThreshold(value) => "transceivers" in diff && ThresholdIn(diff["transceivers"]) == Some(value)
    case SetTransceiverPauser(account) =>
      && "transceivers" in diff && Inside(diff["transceivers"], "wormhole").Some?
      && Inside(Inside(diff["transceivers"], "wormhole").value, "pauser").Some?
      && ReadAddress(setting, Inside(Inside(diff["transceivers"], "wormhole").value, "pauser").value) == Ok(account)
  }

  lemma HasKey(setting: Setting, diff: map<string, Node>, key: string, order: Listing, tx: Tx)
    requires Lists(order) && Plannable(setting, diff) && key in diff && !tx.Upgrade? && !tx.SetOwner?
    ensures tx in KeyTxs(setting, key, diff[key], order) <==> Comes(setting, diff, tx) && KeyOf(tx) == key
  {
    hide Concat, Lists, ReadAddress, LimitIn, LimitTxs, TransceiverTx, LimitsOk, TransceiversOk, ThresholdIn, Inside,
         KeysOf;
    assert KeyOk(setting, key, diff[key]);
    if key == "limits" {
      HasLimit(setting, diff[key], order, tx);
    } else if key == "transceivers" {
      HasTransceiver(setting, diff[key], order, tx);
    }
  }

  function KeyOf(tx: Tx): string
  {
    match tx
    case Upgrade(_) => "version"
    case SetOwner(_) => "owner"
    case SetPauser(_) => "pauser"
    case Pause => "paused"
    case Unpause => "paused"
    case SetOutbound(_) => "limits"
    case SetInbound(_, _) => "limits"
    case SetThreshold(_) => "transceivers"
    case SetTransceiverPauser(_) => "transceivers"
  }

  lemma PlanHas(setting: Setting, diff: map<string, Node>, order: Listing, tx: Tx)
    requires Lists(order) && Plannable(setting, diff)
    ensures tx in InOrder(Planned(setting, diff, order)) <==> Comes(setting, diff, tx)
  {
    hide Concat, Lists, ReadAddress, ReadVersion, LimitIn, KeyTxs, ThresholdIn, Inside, KeysOf, DiffTxs;
    var list := DiffTxs(setting, diff, order);
    InConcat(order(diff.Keys), list, tx);
    ListedIn(order, diff.Keys);
    forall key | key in diff
      ensures tx in list(key) <==> tx in KeyTxs(setting, key, diff[key], order)
    {
      DiffTx(setting, diff, order, key);
    }
    if tx.Upgrade? || tx.SetOwner? {
      forall key | key in diff
        ensures tx !in KeyTxs(setting, key, diff[key], order)
      {
        OrdinaryKeys(setting, diff, key, order, tx);
      }
    } else {
      forall key | key in diff
        ensures tx in KeyTxs(setting, key, diff[key], order) <==> Comes(setting, diff, tx) && KeyOf(tx) == key
      {
        HasKey(setting, diff, key, order, tx);
      }
      assert Comes(setting, diff, tx) ==> KeyOf(tx) in diff;
    }
  }

  lemma OrdinaryKeys(setting: Setting, diff: map<string, Node>, key: string, order: Listing, tx: Tx)
    requires Lists(order) && Plannable(setting, diff) && key in diff && (tx.Upgrade? || tx.SetOwner?)
    ensures tx !in KeyTxs(setting, key, diff[key], order)
  {
    hide Concat, Lists, ReadAddress, LimitIn, LimitTxs, TransceiverTx, LimitsOk, TransceiversOk, ThresholdIn, Inside,
         KeysOf;
    assert KeyOk(setting, key, diff[key]);
    if key == "limits" {
      HasLimit(setting, diff[key], order, tx);
    } else if key == "transceivers" {
      HasTransceiver(setting, diff[key], order, tx);
    }
  }

  // ---------- planned as asked ----------

  function PushDiff(setting: Setting, leg: Leg, local: Tree): map<string, Node>
  {
    DiffOf(local, Show(setting, leg), EXCLUDED, "")
  }

  lemma TopIs(setting: Setting, leg: Leg, local: Tree, key: string)
    ensures var diff := PushDiff(setting, leg, local);
            Top(setting, leg, local, key) == if key in diff then Some(diff[key]) else None
  {
    hide DiffOf, DiffAt, Show;
  }

  /** A limit is read from what is pushed at its place. */
  lemma LimitAsked(setting: Setting, n: Node, key: string, at: Option<Json>, shown: Option<nat>, units: int)
    requires PushAt(Inside(n, key)) ==
               if at == (if shown.Some? then Some(Txt(FormatNumber(shown.value, setting.decimals))) else None)
               then None else at
    ensures LimitIn(setting, n, key) == Some(units) <==> AsksLimit(setting, at, shown, units)
  {
    hide FormatNumber, ParseUnits;
  }

  lemma AccountAsked(setting: Setting, d: Option<Node>, at: Option<Json>, shown: Option<Account>, account: Account)
    requires PushAt(d) == if at == (if shown.Some? then Some(Txt(shown.value)) else None) then None else at
    ensures d.Some? && ReadAddress(setting, d.value) == Ok(account) <==> AsksAccount(setting, at, shown, account)
  {
  }

  lemma AccountsAsked(setting: Setting, leg: Leg, local: Tree, account: Account)
    ensures var diff := PushDiff(setting, leg, local);
            && (Comes(setting, diff, SetPauser(account)) <==> Asked(setting, leg, local, SetPauser(account)))
            && (Comes(setting, diff, SetOwner(account)) <==> Asked(setting, leg, local, SetOwner(account)))
  {
    hide PushDiff, Top, ReadAddress, AsksAccount;
    TopIs(setting, leg, local, "pauser");
    TopIs(setting, leg, local, "owner");
    TopLeaf(setting, leg, local, "pauser");
    TopLeaf(setting, leg, local, "owner");
    AccountAsked(setting, Top(setting, leg, local, "pauser"), Follow(local, ["pauser"]), leg.pauser, account);
    AccountAsked(setting, Top(setting, leg, local, "owner"), Follow(local, ["owner"]), Some(leg.owner), account);
  }

  lemma FlagsAsked(setting: Setting, leg: Leg, local: Tree, version: string)
    ensures var diff := PushDiff(setting, leg, local);
            && (Comes(setting, diff, Pause) <==> Asked(setting, leg, local, Pause))
            && (Comes(setting, diff, Unpause) <==> Asked(setting, leg, local, Unpause))
            && (Comes(setting, diff, Upgrade(version)) <==> Asked(setting, leg, local, Upgrade(version)))
  {
    hide PushDiff, Top;
    TopIs(setting, leg, local, "paused");
    TopIs(setting, leg, local, "version");
    TopLeaf(setting, leg, local, "paused");
    TopLeaf(setting, leg, local, "version");
  }

  lemma OutboundAsked(setting: Setting, leg: Leg, local: Tree, units: int)
    ensures Comes(setting, PushDiff(setting, leg, local), SetOutbound(units)) <==>
              Asked(setting, leg, local, SetOutbound(units))
  {
    hide PushDiff, Top, FormatNumber, AsksLimit;
    TopIs(setting, leg, local, "limits");
    OutboundDiff(setting, leg, local);
    var at := Follow(local, ["limits", "outbound"]);
    var top := Top(setting, leg, local, "limits");
    if top.Some? {
      LimitAsked(setting, top.value, "outbound", at, Some(leg.outbound), units);
    } else {
      NothingAsked(setting, at, Some(leg.outbound), units);
    }
  }

  lemma NothingAsked(setting: Setting, at: Option<Json>, shown: Option<nat>, units: int)
    requires (if at == (if shown.Some? then Some(Txt(FormatNumber(shown.value, setting.decimals))) else None)
              then None else at) == None
    ensures !AsksLimit(setting, at, shown, units)
  {
    hide FormatNumber, ParseUnits;
  }

  lemma InboundAsked(setting: Setting, leg: Leg, local: Tree, chain: string, units: int)
    ensures Comes(setting, PushDiff(setting, leg, local), SetInbound(chain, units)) <==>
              Asked(setting, leg, local, SetInbound(chain, units))
  {
    hide PushDiff, Top, FormatNumber, AsksLimit, LimitIn;
    TopIs(setting, leg, local, "limits");
    InboundDiff(setting, leg, local, chain);
    var at := Follow(local, ["limits", "inbound", chain]);
    var shown := if chain in setting.peers then Some(Units(leg, chain)) else None;
    var node := InboundNode(setting, leg, local);
    if node.Some? {
      LimitAsked(setting, node.value, chain, at, shown, units);
      LimitInKeys(setting, node.value, chain);
    } else {
      NothingAsked(setting, at, shown, units);
    }
  }

  lemma LimitInKeys(setting: Setting, n: Node, key: string)
    ensures LimitIn(setting, n, key).Some? ==> key in KeysOf(n)
  {
  }

  lemma TransceiverAsked(setting: Setting, leg: Leg, local: Tree, value: Json, account: Account)
    ensures var diff := PushDiff(setting, leg, local);
            && (Comes(setting, diff, SetThreshold(value)) <==> Asked(setting, leg, local, SetThreshold(value)))
            && (Comes(setting, diff, SetTransceiverPauser(account)) <==>
                  Asked(setting, leg, local, SetTransceiverPauser(account)))
  {
    hide PushDiff, Top, AsksAccount, ReadAddress;
    TopIs(setting, leg, local, "transceivers");
    TransceiverThresholdDiff(setting, leg, local);
    WormholePauserDiff(setting, leg, local);
    AccountAsked(setting, SubNode(WormholeNode(setting, leg, local), "pauser"),
                 Follow(local, ["transceivers", "wormhole", "pauser"]), leg.transceiverPauser, account);
  }

  /** The plan has exactly the transactions that the local configuration asks for. */
  lemma PlannedAsAsked(setting: Setting, leg: Leg, local: Tree, order: Listing, tx: Tx)
    requires Lists(order) && Plannable(setting, PushDiff(setting, leg, local))
    ensures tx in InOrder(Planned(setting, PushDiff(setting, leg, local), order)) <==> Asked(setting, leg, local, tx)
  {
    hide PushDiff, Comes, Asked, Planned, Plannable, InOrder, Lists;
    PlanHas(setting, PushDiff(setting, leg, local), order, tx);
    match tx
    case Upgrade(version) => FlagsAsked(setting, leg, local, version);
    case SetPauser(account) => AccountsAsked(setting, leg, local, account);
    case Pause => FlagsAsked(setting, leg, local, "");
    case Unpause => FlagsAsked(setting, leg, local, "");
    case SetOutbound(units) => OutboundAsked(setting, leg, local, units);
    case SetInbound(chain, units) => InboundAsked(setting, leg, local, chain, units);
    case SetThreshold(value) => TransceiverAsked(setting, leg, local, value, "");
    case SetTransceiverPauser(account) => TransceiverAsked(setting, leg, local, Scalar(Null), account);
    case SetOwner(account) => AccountsAsked(setting, leg, local, account);
  }

  // ---------- what can be read ----------

  /** What is there is shown so, or is the text of an account. */
  predicate AccountReadable(setting: Setting, at: Option<Json>, shown: Option<Account>) {
    || at == (if shown.Some? then Some(Scalar(Text(shown.value))) else None)
    || match at case Some(Scalar(Text(s))) => setting.readAddress(s).Some? case _ => false
  }

  /** What is there is shown so, is nothing, or is a text that parses. */
  predicate LimitReadable(setting: Setting, at: Option<Json>, shown: Option<nat>) {
    || at == None || Falsy(at.value)
    || (shown.Some? && at == Some(Scalar(Text(FormatNumber(shown.value, setting.decimals)))))
    || match at case Some(Scalar(Text(s))) => ParseUnits(s, setting.decimals).Some? case _ => false
  }

  predicate InboundReadable(setting: Setting, leg: Leg, inbound: Tree) {
    forall c :: c in inbound.fields.Keys + setting.peers ==>
      var shown := if c in setting.peers then Some(Units(leg, c)) else None;
      var shows := if shown.Some? then Some(Txt(FormatNumber(shown.value, setting.decimals))) else None;
      Field(inbound, c) != shows ==> setting.isChain(c) && LimitReadable(setting, Field(inbound, c), shown)
  }

  /** Limits that are no table are passed over; of a table the inbound limits must be one too. */
  predicate LimitsReadable(setting: Setting, leg: Leg, limits: Option<Json>) {
    match limits
    case Some(Obj(fields)) =>
      && LimitReadable(setting, Field(limits.value, "outbound"), Some(leg.outbound))
      && "inbound" in fields && fields["inbound"].Obj? && InboundReadable(setting, leg, fields["inbound"])
    case _ => true
  }

  predicate WormholeReadable(setting: Setting, leg: Leg, wormhole: Tree) {
    && wormhole.fields.Keys <= {"address", "pauser"}
    && Field(wormhole, "address") == Some(Scalar(Text(leg.transceiver)))
    && AccountReadable(setting, Field(wormhole, "pauser"), leg.transceiverPauser)
  }

  predicate TransceiversReadable(setting: Setting, leg: Leg, transceivers: Option<Json>) {
    match transceivers
    case Some(Obj(fields)) =>
      && fields.Keys <= {"threshold", "wormhole"}
      && "wormhole" in fields && fields["wormhole"].Obj? && WormholeReadable(setting, leg, fields["wormhole"])
    case _ => false
  }

  const KNOWN: set<string> := {"version", "owner", "pauser", "paused", "limits", "transceivers", "mode", "manager",
                               "token", "managerVariant"}

  /** The local configuration has no field of its own, differs in none that cannot be set, and reads otherwise. */
  predicate Readable(setting: Setting, leg: Leg, local: Tree) {
    && local.fields.Keys <= KNOWN
    && Field(local, "mode") == Some(Scalar(Text(leg.mode)))
    && Field(local, "manager") == Some(Scalar(Text(leg.manager)))
    && Field(local, "token") == Some(Scalar(Text(leg.token)))
    && AccountReadable(setting, Field(local, "owner"), Some(leg.owner))
    && AccountReadable(setting, Field(local, "pauser"), leg.pauser)
    && LimitsReadable(setting, leg, Field(local, "limits"))
    && TransceiversReadable(setting, leg, Field(local, "transceivers"))
  }

  lemma AccountReads(setting: Setting, d: Option<Node>, at: Option<Json>, shown: Option<Account>)
    requires var shows := if shown.Some? then Some(Txt(shown.value)) else None;
             && (d == None <==> at == shows) && (d.Some? ==> d.value == Entry(at, shows))
    ensures (d.Some? ==> ReadAddress(setting, d.value).Ok?) <==> AccountReadable(setting, at, shown)
  {
  }

  lemma LimitReads(setting: Setting, d: Option<Node>, at: Option<Json>, shown: Option<nat>)
    requires var shows := if shown.Some? then Some(Txt(FormatNumber(shown.value, setting.decimals))) else None;
             && (d == None <==> at == shows) && (d.Some? ==> d.value == Entry(at, shows))
    ensures (d.Some? ==> ReadLimit(setting, d.value).Ok?) <==> LimitReadable(setting, at, shown)
  {
    hide FormatNumber, ParseUnits;
  }

  lemma InboundReads(setting: Setting, leg: Leg, inbound: Tree)
    ensures var d := DiffOf(inbound, ShowInbound(setting, leg), EXCLUDED, KeyPath("limits", "inbound"));
            InboundOk(setting, Sub(d)) <==> InboundReadable(setting, leg, inbound)
  {
    var path := KeyPath("limits", "inbound");
    var b := ShowInbound(setting, leg);
    var d := DiffOf(inbound, b, EXCLUDED, path);
    hide DiffOf, KeyPath, FormatNumber, ReadLimit, LimitReadable, DiffAt;
    forall c
      ensures var shown := if c in setting.peers then Some(Units(leg, c)) else None;
              var shows := if shown.Some? then Some(Txt(FormatNumber(shown.value, setting.decimals))) else None;
              && (c in d <==> Field(inbound, c) != shows)
              && (c in d ==> (ReadLimit(setting, d[c]).Ok? <==> LimitReadable(setting, Field(inbound, c), shown)))
    {
      NestedIncluded(path, c) by { NotEmptyPath(); }
      LeafDiff(inbound, b, path, c);
      var shown := if c in setting.peers then Some(Units(leg, c)) else None;
      LimitReads(setting, DiffAt(inbound, b, EXCLUDED, path, c), Field(inbound, c), shown);
    }
    assert KeysOf(Sub(d)) == d.Keys;
  }

  lemma NotEmptyPath()
    ensures KeyPath("limits", "inbound") != "" && KeyPath("transceivers", "wormhole") != ""
  {
  }

  lemma LimitsRead(setting: Setting, leg: Leg, local: Tree)
    ensures var d := Top(setting, leg, local, "limits");
            (d.Some? ==> LimitsOk(setting, d.value)) <==> LimitsReadable(setting, leg, Field(local, "limits"))
  {
    ShownObjects(setting, leg);
    TopIncluded("limits");
    NestedIncluded("limits", "outbound");
    NestedIncluded("limits", "inbound");
    hide Show, DiffAt, DiffOf, KeyPath, FormatNumber, ShowInbound, ReadLimit, LimitReadable, InboundReadable, InboundOk;
    ObjectDiff(local, Show(setting, leg), "", "limits", "outbound");
    ObjectDiff(local, Show(setting, leg), "", "limits", "inbound");
    if "limits" in local.fields && local.fields["limits"].Obj? {
      var a, b := local.fields["limits"], ShowLimits(setting, leg);
      LeafDiff(a, b, "limits", "outbound");
      LimitReads(setting, DiffAt(a, b, EXCLUDED, "limits", "outbound"), Field(a, "outbound"), Some(leg.outbound));
      InboundTable(setting, leg, a);
    }
  }

  /** The inbound limits, in a table of limits. */
  lemma InboundTable(setting: Setting, leg: Leg, limits: Tree)
    ensures var d := DiffAt(limits, ShowLimits(setting, leg), EXCLUDED, "limits", "inbound");
            (d.Some? ==> InboundOk(setting, d.value)) <==>
              && "inbound" in limits.fields && limits.fields["inbound"].Obj?
              && InboundReadable(setting, leg, limits.fields["inbound"])
  {
    NestedIncluded("limits", "inbound");
    var b := ShowLimits(setting, leg);
    hide FormatNumber, ShowInbound, ReadLimit, InboundReadable, KeyPath;
    if "inbound" in limits.fields && limits.fields["inbound"].Obj? {
      InboundReads(setting, leg, limits.fields["inbound"]);
      hide DiffOf;
    } else {
      hide DiffOf;
      ObjectDiff(limits, b, "limits", "inbound", "");
      assert "pull" in KeysOf(DiffAt(limits, b, EXCLUDED, "limits", "inbound").value);
    }
  }

  lemma WormholeReads(setting: Setting, leg: Leg, wormhole: Tree)
    ensures var d := DiffOf(wormhole, ShowWormhole(leg), EXCLUDED, KeyPath("transceivers", "wormhole"));
            WormholeOk(setting, Sub(d)) <==> WormholeReadable(setting, leg, wormhole)
  {
    var path, b := KeyPath("transceivers", "wormhole"), ShowWormhole(leg);
    var d := DiffOf(wormhole, b, EXCLUDED, path);
    hide DiffOf, KeyPath, ReadAddress, AccountReadable, DiffAt;
    forall k
      ensures k in d <==> Field(wormhole, k) != Field(b, k)
      ensures k in d ==> d[k] == Entry(Field(wormhole, k), Field(b, k))
    {
      NestedIncluded(path, k) by { NotEmptyPath(); }
      LeafDiff(wormhole, b, path, k);
    }
    AccountReads(setting, if "pauser" in d then Some(d["pauser"]) else None, Field(wormhole, "pauser"),
                 leg.transceiverPauser);
    assert KeysOf(Sub(d)) == d.Keys;
    assert WormholeReadable(setting, leg, wormhole) ==> forall k :: k in d ==> k == "pauser";
    if WormholeOk(setting, Sub(d)) {
      assert "address" !in d;
      forall k | k in wormhole.fields
        ensures k in {"address", "pauser"}
      {
        assert k in d ==> k in KeysOf(Sub(d));
      }
    }
  }

  lemma WormholeTable(setting: Setting, leg: Leg, transceivers: Tree)
    ensures var d := DiffAt(transceivers, ShowTransceivers(leg), EXCLUDED, "transceivers", "wormhole");
            (d.Some? ==> WormholeOk(setting, d.value)) <==>
              && "wormhole" in transceivers.fields && transceivers.fields["wormhole"].Obj?
              && WormholeReadable(setting, leg, transceivers.fields["wormhole"])
  {
    NestedIncluded("transceivers", "wormhole");
    var b := ShowTransceivers(leg);
    hide ShowWormhole, ReadAddress, WormholeReadable, KeyPath;
    if "wormhole" in transceivers.fields && transceivers.fields["wormhole"].Obj? {
      WormholeReads(setting, leg, transceivers.fields["wormhole"]);
      hide DiffOf;
    } else {
      hide DiffOf;
      ObjectDiff(transceivers, b, "transceivers", "wormhole", "");
      assert "pull" in KeysOf(DiffAt(transceivers, b, EXCLUDED, "transceivers", "wormhole").value);
    }
  }

  lemma TransceiversRead(setting: Setting, leg: Leg, local: Tree)
    ensures var d := Top(setting, leg, local, "transceivers");
            (d.Some? ==> TransceiversOk(setting, d.value)) <==>
              TransceiversReadable(setting, leg, Field(local, "transceivers"))
  {
    ShownObjects(setting, leg);
    TopIncluded("transceivers");
    if "transceivers" in local.fields && local.fields["transceivers"].Obj? {
      TransceiversTable(setting, leg, local.fields["transceivers"]);
      hide DiffOf, Show, WormholeReadable, TransceiversOk;
    } else {
      hide DiffOf, Show, WormholeReadable, ShowTransceivers, KeyPath;
      ObjectDiff(local, Show(setting, leg), "", "transceivers", "");
      var d := Top(setting, leg, local, "transceivers");
      assert "pull" in KeysOf(d.value);
    }
  }

  lemma TransceiversTable(setting: Setting, leg: Leg, transceivers: Tree)
    ensures var d := DiffOf(transceivers, ShowTransceivers(leg), EXCLUDED, "transceivers");
            TransceiversOk(setting, Sub(d)) <==> TransceiversReadable(setting, leg, Some(transceivers))
  {
    var b := ShowTransceivers(leg);
    var d := DiffOf(transceivers, b, EXCLUDED, "transceivers");
    WormholeTable(setting, leg, transceivers);
    hide DiffOf, KeyPath, WormholeOk, WormholeReadable, DiffAt, ShowWormhole;
    forall k | k != "wormhole"
      ensures k in d <==> Field(transceivers, k) != Field(b, k)
    {
      NestedIncluded("transceivers", k);
      LeafDiff(transceivers, b, "transceivers", k);
    }
    assert KeysOf(Sub(d)) == d.Keys;
    if TransceiversOk(setting, Sub(d)) {
      forall k | k in transceivers.fields
        ensures k in {"threshold", "wormhole"}
      {
        assert k in d ==> k in KeysOf(Sub(d));
      }
    }
  }

  /** A diff can be read exactly if the local configuration can, against what the leg shows. */
  lemma PlannableWhenReadable(setting: Setting, leg: Leg, local: Tree)
    ensures Plannable(setting, PushDiff(setting, leg, local)) <==> Readable(setting, leg, local)
  {
    hide PushDiff, Top, Show, LimitsOk, TransceiversOk, LimitsReadable, TransceiversReadable, ReadAddress,
         AccountReadable;
    var diff := PushDiff(setting, leg, local);
    forall key
      ensures Top(setting, leg, local, key) == if key in diff then Some(diff[key]) else None
    {
      TopIs(setting, leg, local, key);
    }
    LimitsRead(setting, leg, local);
    TransceiversRead(setting, leg, local);
    TopLeaf(setting, leg, local, "mode");
    TopLeaf(setting, leg, local, "manager");
    TopLeaf(setting, leg, local, "token");
    TopLeaf(setting, leg, local, "owner");
    TopLeaf(setting, leg, local, "pauser");
    FollowOne(local, "mode");
    FollowOne(local, "manager");
    FollowOne(local, "token");
    FollowOne(local, "owner");
    FollowOne(local, "pauser");
    AccountReads(setting, Top(setting, leg, local, "owner"), Field(local, "owner"), Some(leg.owner));
    AccountReads(setting, Top(setting, leg, local, "pauser"), Field(local, "pauser"), leg.pauser);
    forall key | key !in KNOWN
      ensures key in diff <==> key in local.fields
    {
      UnknownKey(setting, leg, local, key);
    }
    ManagerVariantApart(setting, leg, local);
  }

  lemma UnknownKey(setting: Setting, leg: Leg, local: Tree, key: string)
    requires key !in KNOWN
    ensures Top(setting, leg, local, key).Some? <==> key in local.fields
  {
    hide Show, KeyPath;
    ShownFieldIs(setting, leg, key);
    assert KeyPath("", key) == key by { TopPath(key); }
    LeafDiff(local, Show(setting, leg), "", key);
  }

  lemma TopPath(key: string)
    ensures KeyPath("", key) == key
  {
  }

  lemma ManagerVariantApart(setting: Setting, leg: Leg, local: Tree)
    ensures Top(setting, leg, local, "managerVariant") == None
  {
    hide Show;
    assert KeyPath("", "managerVariant") == "managerVariant";
  }

  // ---------- each once ----------

  lemma InboundOnce(setting: Setting, n: Node, order: Listing)
    requires Lists(order)
    ensures Distinct(Concat(order(KeysOf(n)), InboundTx(setting, n)))
  {
    hide Concat, LimitIn, KeysOf, Lists;
    ListedOnce(order, KeysOf(n));
    ConcatDistinct(order(KeysOf(n)), InboundTx(setting, n));
  }

  lemma LimitsOnce(setting: Setting, n: Node, order: Listing)
    requires Lists(order)
    ensures Distinct(LimitTxs(setting, n, order))
  {
    hide Concat, LimitIn, KeysOf, Lists, Inside, InboundTx;
    if Inside(n, "inbound").Some? {
      var inbound := Inside(n, "inbound").value;
      InboundOnce(setting, inbound, order);
      forall tx | tx in Concat(order(KeysOf(inbound)), InboundTx(setting, inbound))
        ensures tx.SetInbound?
      {
        HasInbound(setting, inbound, order, tx);
      }
      var first := match LimitIn(setting, n, "outbound") case None => [] case Some(units) => [SetOutbound(units)];
      AppendDistinct(first, Concat(order(KeysOf(inbound)), InboundTx(setting, inbound)));
    }
  }

  lemma WormholeOnce(setting: Setting, w: Node, order: Listing)
    requires Lists(order) && WormholeOk(setting, w)
    ensures Distinct(Concat(order(KeysOf(w)), WormholeTx(setting, w)))
  {
    hide Concat, KeysOf, Lists, ReadAddress;
    ListedOnce(order, KeysOf(w));
    ListedIn(order, KeysOf(w));
    ConcatDistinct(order(KeysOf(w)), WormholeTx(setting, w));
  }

  lemma TransceiversOnce(setting: Setting, n: Node, order: Listing)
    requires Lists(order) && TransceiversOk(setting, n)
    ensures Distinct(Concat(order(KeysOf(n)), TransceiverTx(setting, n, order)))
  {
    hide Concat, KeysOf, Lists, ReadAddress, WormholeOk, WormholeTx, ThresholdIn;
    ListedOnce(order, KeysOf(n));
    ListedIn(order, KeysOf(n));
    var list := TransceiverTx(setting, n, order);
    if "wormhole" in KeysOf(n) {
      var w := Inside(n, "wormhole").value;
      WormholeOnce(setting, w, order);
      forall tx | tx in list("wormhole")
        ensures tx.SetTransceiverPauser?
      {
        HasWormhole(setting, w, order, tx);
      }
    }
    ConcatDistinct(order(KeysOf(n)), list);
  }

  lemma KeyOnce(setting: Setting, diff: map<string, Node>, key: string, order: Listing)
    requires Lists(order) && Plannable(setting, diff) && key in diff
    ensures Distinct(DiffTxs(setting, diff, order)(key))
    ensures forall tx :: tx in DiffTxs(setting, diff, order)(key) ==> KeyOf(tx) == key && Ordinary(tx)
  {
    DiffTx(setting, diff, order, key);
    hide Concat, Lists, ReadAddress, LimitTxs, TransceiverTx, LimitsOk, TransceiversOk, DiffTxs, Comes, KeyTxs;
    assert KeyOk(setting, key, diff[key]);
    forall tx | tx in KeyTxs(setting, key, diff[key], order)
      ensures KeyOf(tx) == key && Ordinary(tx)
    {
      if tx.Upgrade? || tx.SetOwner? {
        OrdinaryKeys(setting, diff, key, order, tx);
      } else {
        HasKey(setting, diff, key, order, tx);
      }
    }
    KeyTxsOnce(setting, diff, key, order);
  }

  lemma KeyTxsOnce(setting: Setting, diff: map<string, Node>, key: string, order: Listing)
    requires Lists(order) && Plannable(setting, diff) && key in diff
    ensures Distinct(KeyTxs(setting, key, diff[key], order))
  {
    hide Concat, Lists, ReadAddress, LimitTxs, TransceiverTx, LimitsOk, TransceiversOk;
    assert KeyOk(setting, key, diff[key]);
    if key == "limits" {
      LimitsOnce(setting, diff[key], order);
    } else if key == "transceivers" {
      TransceiversOnce(setting, diff[key], order);
    }
  }

  /** No transaction is planned twice. */
  lemma PlannedOnce(setting: Setting, diff: map<string, Node>, order: Listing)
    requires Lists(order) && Plannable(setting, diff)
    ensures Distinct(InOrder(Planned(setting, diff, order)))
  {
    hide Concat, Lists, ReadAddress, ReadVersion, DiffTxs, Plannable;
    var list, keys := DiffTxs(setting, diff, order), order(diff.Keys);
    ListedOnce(order, diff.Keys);
    ListedIn(order, diff.Keys);
    forall key | key in keys
      ensures Distinct(list(key)) && forall tx :: tx in list(key) ==> KeyOf(tx) == key && Ordinary(tx)
    {
      KeyOnce(setting, diff, key, order);
    }
    ConcatDistinct(keys, list);
    forall tx | tx in Concat(keys, list)
      ensures Ordinary(tx)
    {
      InConcat(keys, list, tx);
    }
    var plan := Planned(setting, diff, order);
    var up := if plan.upgrade.Some? then [Upgrade(plan.upgrade.value)] else [];
    var down := if plan.owner.Some? then [SetOwner(plan.owner.value)] else [];
    AppendDistinct(up, plan.txs);
    AppendDistinct(up + plan.txs, down);
  }

  // ---------- what a push leaves ----------

  /** A field that some transactions set to a value and the others do not touch. */
  lemma {:induction false} FieldEffects<T>(setting: Setting, leg: Leg, txs: seq<Tx>, field: Leg -> T,
                                           touches: Tx -> bool, value: T)
    requires forall l, tx :: tx in txs && touches(tx) ==> field(Effect(setting, l, tx)) == value
    requires forall l, tx :: tx in txs && !touches(tx) ==> field(Effect(setting, l, tx)) == field(l)
    ensures field(Effects(setting, leg, txs)) == if exists tx :: tx in txs && touches(tx) then value else field(leg)
  {
    hide Effect;
    if txs != [] {
      var n := |txs| - 1;
      FieldEffects(setting, leg, txs[..n], field, touches, value);
      assert txs == txs[..n] + [txs[n]];
    }
  }

  function LimitOf(leg: Leg, chain: string): Option<nat>
  {
    if chain in leg.inbound then Some(leg.inbound[chain]) else None
  }

  /** Each field of the leg is what is asked for, and as it was where nothing is. */
  ghost predicate LeftAsAsked(setting: Setting, leg: Leg, local: Tree, after: Leg) {
    && after.mode == leg.mode && after.manager == leg.manager && after.token == leg.token
    && after.transceiver == leg.transceiver
    && after.version == (if Follow(local, ["version"]) == Some(Scalar(Text(leg.version))) then leg.version
                         else VersionAt(setting, Follow(local, ["version"])))
    && (after.paused <==> Follow(local, ["paused"]) == Some(Scalar(Flag(true))))
    && (forall a :: Asked(setting, leg, local, SetOwner(a)) ==> after.owner == a)
    && ((forall a :: !Asked(setting, leg, local, SetOwner(a))) ==> after.owner == leg.owner)
    && (forall a :: Asked(setting, leg, local, SetPauser(a)) ==> after.pauser == Some(a))
    && ((forall a :: !Asked(setting, leg, local, SetPauser(a))) ==> after.pauser == leg.pauser)
    && (forall a :: Asked(setting, leg, local, SetTransceiverPauser(a)) ==> after.transceiverPauser == Some(a))
    && ((forall a :: !Asked(setting, leg, local, SetTransceiverPauser(a))) ==>
          after.transceiverPauser == leg.transceiverPauser)
    && (forall v :: Asked(setting, leg, local, SetThreshold(v)) ==> Some(after.threshold) == EncodeUint8(v))
    && ((forall v :: !Asked(setting, leg, local, SetThreshold(v))) ==> after.threshold == leg.threshold)
    && (forall u: nat :: Asked(setting, leg, local, SetOutbound(u)) ==> after.outbound == setting.stored(u))
    && ((forall u :: !Asked(setting, leg, local, SetOutbound(u))) ==> after.outbound == leg.outbound)
    && (forall chain, u: nat :: Asked(setting, leg, local, SetInbound(chain, u)) ==>
          LimitOf(after, chain) == Some(setting.stored(u)))
    && (forall chain :: (forall u :: !Asked(setting, leg, local, SetInbound(chain, u))) ==>
          LimitOf(after, chain) == LimitOf(leg, chain))
  }

  lemma ScalarsLeft(setting: Setting, leg: Leg, local: Tree, txs: seq<Tx>)
    requires forall tx :: tx in txs <==> Asked(setting, leg, local, tx)
    ensures var after := Effects(setting, leg, txs);
            && after.mode == leg.mode && after.manager == leg.manager && after.token == leg.token
            && after.transceiver == leg.transceiver
            && after.version == (if Follow(local, ["version"]) == Some(Scalar(Text(leg.version))) then leg.version
                                 else VersionAt(setting, Follow(local, ["version"])))
            && (after.paused <==> Follow(local, ["paused"]) == Some(Scalar(Flag(true))))
  {
    hide Kept, EncodeUint8, AsksLimit, AsksAccount, Effects, Follow;
    FieldEffects(setting, leg, txs, (l: Leg) => (l.mode, l.manager, l.token, l.transceiver), (tx: Tx) => false,
                 (leg.mode, leg.manager, leg.token, leg.transceiver));
    FieldEffects(setting, leg, txs, (l: Leg) => l.version, (tx: Tx) => tx.Upgrade?,
                 VersionAt(setting, Follow(local, ["version"])));
    FieldEffects(setting, leg, txs, (l: Leg) => l.paused, (tx: Tx) => tx.Pause? || tx.Unpause?,
                 Follow(local, ["paused"]) == Some(Scalar(Flag(true))));
    assert Asked(setting, leg, local, Upgrade(VersionAt(setting, Follow(local, ["version"])))) <==>
      Follow(local, ["version"]) != Some(Scalar(Text(leg.version)));
    assert Pause in txs <==> Asked(setting, leg, local, Pause);
    assert Unpause in txs <==> Asked(setting, leg, local, Unpause);
  }

  /** A text reads as one account. */
  lemma OneAccount(setting: Setting, at: Option<Json>, shown: Option<Account>, a: Account, b: Account)
    requires AsksAccount(setting, at, shown, a) && AsksAccount(setting, at, shown, b)
    ensures a == b
  {
  }

  lemma OneLimit(setting: Setting, at: Option<Json>, shown: Option<nat>, u: int, v: int)
    requires AsksLimit(setting, at, shown, u) && AsksLimit(setting, at, shown, v)
    ensures u == v
  {
    hide ParseUnits, FormatNumber;
  }

  lemma OwnerLeft(setting: Setting, leg: Leg, local: Tree, txs: seq<Tx>)
    requires forall tx :: tx in txs <==> Asked(setting, leg, local, tx)
    ensures forall a :: Asked(setting, leg, local, SetOwner(a)) ==> Effects(setting, leg, txs).owner == a
    ensures (forall a :: !Asked(setting, leg, local, SetOwner(a))) ==> Effects(setting, leg, txs).owner == leg.owner
  {
    hide Kept, EncodeUint8, AsksLimit, AsksAccount, Effects, Follow;
    var touches := (tx: Tx) => tx.SetOwner?;
    forall a | Asked(setting, leg, local, SetOwner(a))
      ensures Effects(setting, leg, txs).owner == a
    {
      forall tx | tx in txs && touches(tx)
        ensures tx == SetOwner(a)
      {
        OneAccount(setting, Follow(local, ["owner"]), Some(leg.owner), tx.account, a);
      }
      FieldEffects(setting, leg, txs, (l: Leg) => l.owner, touches, a);
      assert SetOwner(a) in txs;
    }
    if forall a :: !Asked(setting, leg, local, SetOwner(a)) {
      FieldEffects(setting, leg, txs, (l: Leg) => l.owner, touches, leg.owner);
    }
  }

  lemma PauserLeft(setting: Setting, leg: Leg, local: Tree, txs: seq<Tx>)
    requires forall tx :: tx in txs <==> Asked(setting, leg, local, tx)
    ensures forall a :: Asked(setting, leg, local, SetPauser(a)) ==> Effects(setting, leg, txs).pauser == Some(a)
    ensures (forall a :: !Asked(setting, leg, local, SetPauser(a))) ==> Effects(setting, leg, txs).pauser == leg.pauser
  {
    hide Kept, EncodeUint8, AsksLimit, AsksAccount, Effects, Follow;
    var touches := (tx: Tx) => tx.SetPauser?;
    forall a | Asked(setting, leg, local, SetPauser(a))
      ensures Effects(setting, leg, txs).pauser == Some(a)
    {
      forall tx | tx in txs && touches(tx)
        ensures tx == SetPauser(a)
      {
        OneAccount(setting, Follow(local, ["pauser"]), leg.pauser, tx.account, a);
      }
      FieldEffects(setting, leg, txs, (l: Leg) => l.pauser, touches, Some(a));
      assert SetPauser(a) in txs;
    }
    if forall a :: !Asked(setting, leg, local, SetPauser(a)) {
      FieldEffects(setting, leg, txs, (l: Leg) => l.pauser, touches, leg.pauser);
    }
  }

  lemma TransceiverPauserLeft(setting: Setting, leg: Leg, local: Tree, txs: seq<Tx>)
    requires forall tx :: tx in txs <==> Asked(setting, leg, local, tx)
    ensures forall a :: Asked(setting, leg, local, SetTransceiverPauser(a)) ==>
              Effects(setting, leg, txs).transceiverPauser == Some(a)
    ensures (forall a :: !Asked(setting, leg, local, SetTransceiverPauser(a))) ==>
              Effects(setting, leg, txs).transceiverPauser == leg.transceiverPauser
  {
    hide Kept, EncodeUint8, AsksLimit, AsksAccount, Effects, Follow;
    var touches := (tx: Tx) => tx.SetTransceiverPauser?;
    forall a | Asked(setting, leg, local, SetTransceiverPauser(a))
      ensures Effects(setting, leg, txs).transceiverPauser == Some(a)
    {
      forall tx | tx in txs && touches(tx)
        ensures tx == SetTransceiverPauser(a)
      {
        OneAccount(setting, Follow(local, ["transceivers", "wormhole", "pauser"]),
                   leg.transceiverPauser, tx.account, a);
      }
      FieldEffects(setting, leg, txs, (l: Leg) => l.transceiverPauser, touches, Some(a));
      assert SetTransceiverPauser(a) in txs;
    }
    if forall a :: !Asked(setting, leg, local, SetTransceiverPauser(a)) {
      FieldEffects(setting, leg, txs, (l: Leg) => l.transceiverPauser, touches, leg.transceiverPauser);
    }
  }

  lemma ThresholdLeft(setting: Setting, leg: Leg, local: Tree, txs: seq<Tx>)
    requires AllEncodable(txs) && forall tx :: tx in txs <==> Asked(setting, leg, local, tx)
    ensures forall v :: Asked(setting, leg, local, SetThreshold(v)) ==>
              Some(Effects(setting, leg, txs).threshold) == EncodeUint8(v)
    ensures (forall v :: !Asked(setting, leg, local, SetThreshold(v))) ==>
              Effects(setting, leg, txs).threshold == leg.threshold
  {
    hide Kept, EncodeUint8, AsksLimit, AsksAccount, Effects, Follow;
    var touches := (tx: Tx) => tx.SetThreshold?;
    forall v | Asked(setting, leg, local, SetThreshold(v))
      ensures Some(Effects(setting, leg, txs).threshold) == EncodeUint8(v)
    {
      assert SetThreshold(v) in txs && Encodable(SetThreshold(v));
      FieldEffects(setting, leg, txs, (l: Leg) => l.threshold, touches, EncodeUint8(v).value);
    }
    if forall v :: !Asked(setting, leg, local, SetThreshold(v)) {
      FieldEffects(setting, leg, txs, (l: Leg) => l.threshold, touches, leg.threshold);
    }
  }

  lemma OutboundLeft(setting: Setting, leg: Leg, local: Tree, txs: seq<Tx>)
    requires AllEncodable(txs) && forall tx :: tx in txs <==> Asked(setting, leg, local, tx)
    ensures forall u: nat :: Asked(setting, leg, local, SetOutbound(u)) ==>
              Effects(setting, leg, txs).outbound == setting.stored(u)
    ensures (forall u :: !Asked(setting, leg, local, SetOutbound(u))) ==>
              Effects(setting, leg, txs).outbound == leg.outbound
  {
    hide EncodeUint8, AsksLimit, AsksAccount, Effects, Follow, WORD;
    var touches := (tx: Tx) => tx.SetOutbound?;
    forall u: nat | Asked(setting, leg, local, SetOutbound(u))
      ensures Effects(setting, leg, txs).outbound == setting.stored(u)
    {
      assert SetOutbound(u) in txs && Encodable(SetOutbound(u));
      forall tx | tx in txs && touches(tx)
        ensures tx == SetOutbound(u)
      {
        OneLimit(setting, Follow(local, ["limits", "outbound"]), Some(leg.outbound), tx.units, u);
      }
      FieldEffects(setting, leg, txs, (l: Leg) => l.outbound, touches, setting.stored(u));
    }
    if forall u :: !Asked(setting, leg, local, SetOutbound(u)) {
      FieldEffects(setting, leg, txs, (l: Leg) => l.outbound, touches, leg.outbound);
    }
  }

  lemma InboundLeft(setting: Setting, leg: Leg, local: Tree, txs: seq<Tx>, chain: string)
    requires AllEncodable(txs) && forall tx :: tx in txs <==> Asked(setting, leg, local, tx)
    ensures forall u: nat :: Asked(setting, leg, local, SetInbound(chain, u)) ==>
              LimitOf(Effects(setting, leg, txs), chain) == Some(setting.stored(u))
  {
    hide EncodeUint8, AsksLimit, AsksAccount, Effects, Follow, WORD;
    var touches := (tx: Tx) => tx.SetInbound? && tx.chain == chain;
    forall u: nat | Asked(setting, leg, local, SetInbound(chain, u))
      ensures LimitOf(Effects(setting, leg, txs), chain) == Some(setting.stored(u))
    {
      assert SetInbound(chain, u) in txs && Encodable(SetInbound(chain, u));
      forall tx | tx in txs && touches(tx)
        ensures tx == SetInbound(chain, u)
      {
        OneLimit(setting, Follow(local, ["limits", "inbound", chain]),
                 if chain in setting.peers then Some(Units(leg, chain)) else None, tx.units, u);
      }
      FieldEffects(setting, leg, txs, (l: Leg) => LimitOf(l, chain), touches, Some(setting.stored(u)));
    }
  }

  /** A chain for which no limit is sent keeps its own, however many transactions run. */
  lemma InboundKept(setting: Setting, leg: Leg, txs: seq<Tx>, chain: string)
    requires forall u :: SetInbound(chain, u) !in txs
    ensures LimitOf(Effects(setting, leg, txs), chain) == LimitOf(leg, chain)
  {
    hide EncodeUint8, Kept, Effects;
    var touches := (tx: Tx) => tx.SetInbound? && tx.chain == chain;
    forall tx | tx in txs
      ensures !touches(tx)
    {
      assert tx.SetInbound? ==> tx == SetInbound(tx.chain, tx.units);
    }
    FieldEffects(setting, leg, txs, (l: Leg) => LimitOf(l, chain), touches, LimitOf(leg, chain));
  }

  lemma AllLeft(setting: Setting, leg: Leg, local: Tree, txs: seq<Tx>)
    requires AllEncodable(txs) && forall tx :: tx in txs <==> Asked(setting, leg, local, tx)
    ensures LeftAsAsked(setting, leg, local, Effects(setting, leg, txs))
  {
    hide Asked, Effects, AllEncodable, LimitOf, VersionAt, Follow;
    ScalarsLeft(setting, leg, local, txs);
    OwnerLeft(setting, leg, local, txs);
    PauserLeft(setting, leg, local, txs);
    TransceiverPauserLeft(setting, leg, local, txs);
    ThresholdLeft(setting, leg, local, txs);
    OutboundLeft(setting, leg, local, txs);
    forall chain, u: nat | Asked(setting, leg, local, SetInbound(chain, u))
      ensures LimitOf(Effects(setting, leg, txs), chain) == Some(setting.stored(u))
    {
      InboundLeft(setting, leg, local, txs, chain);
    }
    forall chain | forall u :: !Asked(setting, leg, local, SetInbound(chain, u))
      ensures LimitOf(Effects(setting, leg, txs), chain) == LimitOf(leg, chain)
    {
      InboundKept(setting, leg, txs, chain);
    }
  }

  /**
   * The transactions a push plans are exactly those the local configuration asks for, each once. When all
   * have run the leg is as asked; and however many have, a chain for which the local configuration lists no
   * limit has kept its own.
   */
  lemma PushedAsAsked(setting: Setting, leg: Leg, local: Tree, order: Listing, landed: nat)
    requires Lists(order) && Plannable(setting, PushDiff(setting, leg, local))
    requires landed <= |InOrder(Planned(setting, PushDiff(setting, leg, local), order))|
    ensures var txs := InOrder(Planned(setting, PushDiff(setting, leg, local), order));
            && (forall tx :: tx in txs <==> Asked(setting, leg, local, tx))
            && Distinct(txs)
            && (AllEncodable(txs) ==> LeftAsAsked(setting, leg, local, Effects(setting, leg, txs)))
            && forall chain :: Follow(local, ["limits", "inbound", chain]) == None ==>
                 LimitOf(Effects(setting, leg, txs[..landed]), chain) == LimitOf(leg, chain)
  {
    hide Planned, PushDiff, LeftAsAsked, InOrder, Effects, AllEncodable, Plannable, Lists;
    var txs := InOrder(Planned(setting, PushDiff(setting, leg, local), order));
    forall tx
      ensures tx in txs <==> Asked(setting, leg, local, tx)
    {
      PlannedAsAsked(setting, leg, local, order, tx);
    }
    PlannedOnce(setting, PushDiff(setting, leg, local), order);
    if AllEncodable(txs) {
      AllLeft(setting, leg, local, txs);
    }
    forall chain | Follow(local, ["limits", "inbound", chain]) == None
      ensures LimitOf(Effects(setting, leg, txs[..landed]), chain) == LimitOf(leg, chain)
    {
      forall u
        ensures SetInbound(chain, u) !in txs[..landed]
      {
        assert !Asked(setting, leg, local, SetInbound(chain, u));
      }
      InboundKept(setting, leg, txs[..landed], chain);
    }
  }

  // ---------- the code ----------

  datatype PushResult = Completed | Unreadable(fault: Fault) | Failed

  /**
   * Pushes a local configuration. One that cannot be read sends nothing. Every other sends, of exactly the
   * transactions it asks for, each once, those planned before the first that cannot be encoded or reverts;
   * if there is one, the owner stays, and if there is none, every field of the leg is as asked.
   */
  method PushDeployment(contracts: Contracts, local: Tree, order: Listing, reverts: nat -> bool)
    returns (r: PushResult)
    requires Lists(order)
    modifies contracts
    ensures |old(contracts.sent)| <= |contracts.sent|
    ensures contracts.sent[..|old(contracts.sent)|] == old(contracts.sent)
    ensures var setting, leg := contracts.setting, old(contracts.leg);
            var txs := InOrder(Planned(setting, PushDiff(setting, leg, local), order));
            var now := contracts.sent[|old(contracts.sent)|..];
            && (r.Unreadable? <==> !Readable(setting, leg, local))
            && (r.Unreadable? ==> now == [])
            && (!r.Unreadable? ==>
                  && (forall tx :: tx in txs <==> Asked(setting, leg, local, tx)) && Distinct(txs)
                  && |now| <= |txs| && Ran(now) == txs[..|now|] && Lands(txs, reverts, |now|))
            && (now == [] <==> r.Unreadable? || txs == [] || !Encodable(txs[0]) || reverts(0))
            && (r.Completed? <==> && Readable(setting, leg, local) && AllEncodable(txs)
                                  && forall i: nat :: i < |txs| ==> !reverts(i))
            && Orderly(now, leg.owner)
            && contracts.leg == Effects(setting, leg, Ran(now))
            && (r.Completed? ==> LeftAsAsked(setting, leg, local, contracts.leg))
            && (!r.Completed? ==> contracts.leg.owner == leg.owner)
            && forall chain :: Follow(local, ["limits", "inbound", chain]) == None ==>
                 LimitOf(contracts.leg, chain) == LimitOf(leg, chain)
    ensures var diff := PushDiff(contracts.setting, old(contracts.leg), local);
            && (r.Completed? ==> Encodes(contracts.setting, diff)
                                 && contracts.leg == Final(contracts.setting, old(contracts.leg), diff))
            && (r.Completed? && Settled(contracts.setting, diff) ==>
                  PushDiff(contracts.setting, contracts.leg, local) == map[])
  {
    hide DiffOf, Show, Plannable, Final, Covers, Lists, Effects, ReadVersion, ReadAddress, Settled, SentBy, Orderly,
         Encodes, Planned, Encodable, Asked, Readable, LeftAsAsked, LimitOf;
    NothingSent(contracts.setting, contracts.leg);
    assert contracts.sent[|old(contracts.sent)|..] == [];
    var diff := DiffObjects(local, Show(contracts.setting, contracts.leg), EXCLUDED, "");
    assert diff == PushDiff(contracts.setting, contracts.leg, local);
    PlanEncodes(contracts.setting, diff, order);
    PlannableWhenReadable(contracts.setting, contracts.leg, local);
    if Settled(contracts.setting, diff) {
      PushConverges(contracts.setting, contracts.leg, local);
    }
    if diff.Keys == {} {
      NothingToPush(contracts.setting, contracts.leg, diff, order);
      PushedAsAsked(contracts.setting, contracts.leg, local, order, 0);
      return Completed;
    }
    var plan := PlanPush(contracts.setting, diff, order);
    if plan.Err? {
      return Unreadable(plan.error);
    }
    ghost var leg := contracts.leg;
    var txs := InOrder(plan.value);
    PlanReachesFinal(contracts.setting, leg, diff, order);
    var landed := contracts.SendAll(txs, reverts);
    PushedAsAsked(contracts.setting, leg, local, order, landed);
    PlanIsOrderly(contracts.setting, leg, plan.value, landed);
    RanAreSent(contracts.setting, leg, txs[..landed]);
    assert contracts.sent[|old(contracts.sent)|..] == SentBy(contracts.setting, leg, txs[..landed]);
    if landed < |txs| {
      return Failed;
    }
    assert txs[..landed] == txs;
    return Completed;
  }
}

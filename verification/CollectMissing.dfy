/**
 * Collecting the missing peers of a deployment: pair tasks run in the two-lane pool and, between
 * their awaits, push into shared per-chain lists and counters.
 */
module CollectMissing {
  import opened LimitText
  import opened NumberText
  import opened Outcomes
  import opened PoolCode
  import opened PoolSchedules
  import opened Sequences
  import opened TaskPool
  import opened TaskEffects
  import opened Texts

  type Chain = string
  type Address = string

  /** A deployment, with its configured inbound limits as text. */
  datatype Deployment = Deployment(chain: Chain, solana: bool, manager: Address, decimals: nat, transceiver: Address,
                                   inbound: map<Chain, string>)

  datatype ManagerPeer = ManagerPeer(address: Address, tokenDecimals: nat, inboundLimit: int)

  datatype Missing = Missing(managerPeers: seq<ManagerPeer>, transceiverPeers: seq<Address>,
                             solanaWormholeTransceiver: bool, solanaUpdateLUT: bool)

  datatype Pair = Pair(from: Deployment, to: Deployment)

  /** The segments in which a pair task has the manager's answer and the transceiver's address. */
  datatype Timing = Timing(peerAt: nat, addressAt: nat)

  /** The deployments, in entry order, and everything the chains answer about them. */
  datatype Network = Network(
    deployments: seq<Deployment>,
    selfRegistered: Chain -> bool,
    lookupTableDone: Chain -> bool,
    managerPeerNull: Pair -> bool,
    transceiverPeerNull: Pair -> bool,
    timing: Pair -> Timing)
  {
    /** Keys of an object are distinct; each lookup awaits at least once. */
    ghost predicate Valid() {
      && (forall i, j :: 0 <= i < j < |deployments| ==> deployments[i].chain != deployments[j].chain)
      && (forall p: Pair :: 1 <= timing(p).peerAt && timing(p).peerAt + 2 <= timing(p).addressAt)
    }
  }

  datatype Tables = Tables(missing: map<Chain, Missing>, counts: map<Chain, nat>)

  // ---------- what is missing, chain by chain ----------

  function PeerOf(p: Pair): ManagerPeer
  {
    ManagerPeer(p.to.manager, p.to.decimals, ConfiguredLimit(p.from, p.to.chain))
  }

  /** The configured limit without its dots, as a number; zero when there is none. */
  function ConfiguredLimit(from: Deployment, toChain: Chain): int
  {
    if toChain !in from.inbound then 0
    else
      match BaseUnits(from.inbound[toChain])
      case None => 0
      case Some(units) => units
  }

  /** The task of the pair throws: the peer is missing and the configured limit is no number. */
  predicate Rejects(net: Network, p: Pair) {
    net.managerPeerNull(p) && p.to.chain in p.from.inbound && BaseUnits(p.from.inbound[p.to.chain]) == None
  }

  function ManagerGap(net: Network, from: Deployment): Deployment -> seq<ManagerPeer>
  {
    (to: Deployment) =>
      if to.chain != from.chain && net.managerPeerNull(Pair(from, to)) then [PeerOf(Pair(from, to))] else []
  }

  function TransceiverGap(net: Network, from: Deployment): Deployment -> seq<Address>
  {
    (to: Deployment) =>
      if to.chain != from.chain && net.transceiverPeerNull(Pair(from, to)) then [to.transceiver] else []
  }

  /** Everything missing on one chain, in entry order. */
  function Gaps(net: Network, from: Deployment): Missing
  {
    Missing(
      Concat(net.deployments, ManagerGap(net, from)),
      Concat(net.deployments, TransceiverGap(net, from)),
      from.solana && !net.selfRegistered(from.chain),
      from.solana && !net.lookupTableDone(from.chain))
  }

  /** Equal up to the order of the lists. */
  ghost predicate SameGaps(a: Missing, b: Missing) {
    && multiset(a.managerPeers) == multiset(b.managerPeers)
    && multiset(a.transceiverPeers) == multiset(b.transceiverPeers)
    && a.solanaWormholeTransceiver == b.solanaWormholeTransceiver
    && a.solanaUpdateLUT == b.solanaUpdateLUT
  }

  function Flag(b: bool): nat { if b then 1 else 0 }

  function GapCount(m: Missing): nat
  {
    |m.managerPeers| + |m.transceiverPeers| + Flag(m.solanaWormholeTransceiver) + Flag(m.solanaUpdateLUT)
  }

  // ---------- the pair tasks ----------

  function Row(from: Deployment, tos: seq<Deployment>): seq<Pair>
  {
    Concat(tos, (to: Deployment) => if to.chain != from.chain then [Pair(from, to)] else [])
  }

  function Pairs(froms: seq<Deployment>, tos: seq<Deployment>): seq<Pair>
  {
    Concat(froms, (from: Deployment) => Row(from, tos))
  }

  method BuildTasks(entries: seq<Deployment>) returns (tasks: seq<Pair>)
    ensures tasks == Pairs(entries, entries)
  {
    tasks := [];
    for i := 0 to |entries|
      invariant tasks == Pairs(entries[..i], entries)
    {
      assert entries[..i + 1][..i] == entries[..i];
      for j := 0 to |entries|
        invariant tasks == Pairs(entries[..i], entries) + Row(entries[i], entries[..j])
      {
        assert entries[..j + 1][..j] == entries[..j];
        if entries[i].chain != entries[j].chain {
          tasks := tasks + [Pair(entries[i], entries[j])];
        }
      }
      assert entries[..|entries|] == entries;
    }
    assert entries[..|entries|] == entries;
  }

  // ---------- the shared tables ----------

  /** A chain's entry before any pair task has run. */
  function FirstEntry(net: Network, d: Deployment): Missing
  {
    Missing([], [], d.solana && !net.selfRegistered(d.chain), d.solana && !net.lookupTableDone(d.chain))
  }

  ghost predicate Initialized(net: Network, done: seq<Deployment>, t: Tables) {
    && t.missing.Keys == t.counts.Keys
    && (forall i :: 0 <= i < |done| ==>
          && done[i].chain in t.missing && t.missing[done[i].chain] == FirstEntry(net, done[i])
          && t.counts[done[i].chain] == GapCount(FirstEntry(net, done[i])))
    && (forall chain :: chain in t.missing ==> exists i :: 0 <= i < |done| && done[i].chain == chain)
  }

  function ManagerPush(net: Network, pairs: seq<Pair>, chain: Chain): Event -> seq<ManagerPeer>
  {
    (e: Event) =>
      if && e.item < |pairs| && pairs[e.item].from.chain == chain
         && e.step == net.timing(pairs[e.item]).peerAt && net.managerPeerNull(pairs[e.item])
      then [PeerOf(pairs[e.item])] else []
  }

  function TransceiverPush(net: Network, pairs: seq<Pair>, chain: Chain): Event -> seq<Address>
  {
    (e: Event) =>
      if && e.item < |pairs| && pairs[e.item].from.chain == chain
         && e.step == net.timing(pairs[e.item]).addressAt && net.transceiverPeerNull(pairs[e.item])
      then [pairs[e.item].to.transceiver] else []
  }

  /** One chain's entry once the events of the log have run over its first entry. */
  function Logged(net: Network, pairs: seq<Pair>, chain: Chain, first: Missing, log: seq<Event>): Missing
  {
    first.(managerPeers := first.managerPeers + Gather(log, ManagerPush(net, pairs, chain), 0, |pairs|),
           transceiverPeers := first.transceiverPeers + Gather(log, TransceiverPush(net, pairs, chain), 0, |pairs|))
  }

  /** The tables agree with the log: every chain's lists, flags and counter. */
  ghost predicate Agrees(net: Network, pairs: seq<Pair>, first: map<Chain, Missing>, log: seq<Event>, t: Tables) {
    && t.missing.Keys == t.counts.Keys == first.Keys
    && forall chain :: chain in first ==>
         && t.missing[chain] == Logged(net, pairs, chain, first[chain], log)
         && t.counts[chain] == GapCount(t.missing[chain])
  }

  predicate Known(t: Tables, pair: Pair) { pair.from.chain in t.missing && pair.from.chain in t.counts }

  /** What one segment of a pair task does to the tables, unless it throws. */
  function Effect(net: Network, pair: Pair, step: nat, t: Tables): Tables
  {
    var chain := pair.from.chain;
    if !Known(t, pair) then t
    else if step == net.timing(pair).peerAt && net.managerPeerNull(pair) then
      Tables(t.missing[chain := t.missing[chain].(managerPeers := t.missing[chain].managerPeers + [PeerOf(pair)])],
             t.counts[chain := t.counts[chain] + 1])
    else if step == net.timing(pair).addressAt && net.transceiverPeerNull(pair) then
      var peers := t.missing[chain].transceiverPeers + [pair.to.transceiver];
      Tables(t.missing[chain := t.missing[chain].(transceiverPeers := peers)], t.counts[chain := t.counts[chain] + 1])
    else t
  }

  lemma LoggedAppend(net: Network, pairs: seq<Pair>, chain: Chain, first: Missing, log: seq<Event>, e: Event)
    requires e.item < |pairs|
    ensures var before := Logged(net, pairs, chain, first, log);
            Logged(net, pairs, chain, first, log + [e]) ==
              before.(managerPeers := before.managerPeers + ManagerPush(net, pairs, chain)(e),
                      transceiverPeers := before.transceiverPeers + TransceiverPush(net, pairs, chain)(e))
  {
    hide ManagerPush, TransceiverPush;
    assert (log + [e])[..|log|] == log;
  }

  lemma EffectAgrees(net: Network, pairs: seq<Pair>, first: map<Chain, Missing>, log: seq<Event>, e: Event, t: Tables)
    requires net.Valid() && e.item < |pairs| && Agrees(net, pairs, first, log, t) && pairs[e.item].from.chain in first
    ensures Agrees(net, pairs, first, log + [e], Effect(net, pairs[e.item], e.step, t))
  {
    hide Logged, Network.Valid, ManagerPush, TransceiverPush, Effect;
    var pair := pairs[e.item];
    var t' := Effect(net, pair, e.step, t);
    EffectPushes(net, pairs, e, t);
    forall chain | chain in first
      ensures t'.missing[chain] == Logged(net, pairs, chain, first[chain], log + [e])
      ensures t'.counts[chain] == GapCount(t'.missing[chain])
    {
      LoggedAppend(net, pairs, chain, first[chain], log, e);
    }
  }

  /** A segment pushes onto each chain's lists what the event pushes there, and counts it. */
  lemma EffectPushes(net: Network, pairs: seq<Pair>, e: Event, t: Tables)
    requires net.Valid() && e.item < |pairs| && pairs[e.item].from.chain in t.missing && t.missing.Keys == t.counts.Keys
    ensures var t' := Effect(net, pairs[e.item], e.step, t);
            && t'.missing.Keys == t'.counts.Keys == t.missing.Keys
            && forall chain :: chain in t.missing ==>
                 var managers, transceivers := ManagerPush(net, pairs, chain)(e), TransceiverPush(net, pairs, chain)(e);
                 && t'.counts[chain] == t.counts[chain] + |managers| + |transceivers|
                 && t'.missing[chain] ==
                      t.missing[chain].(managerPeers := t.missing[chain].managerPeers + managers,
                                        transceiverPeers := t.missing[chain].transceiverPeers + transceivers)
  {
    hide Network.Valid, PeerOf;
    TimingOrdered(net, pairs[e.item]);
  }

  lemma TimingOrdered(net: Network, p: Pair)
    requires net.Valid()
    ensures net.timing(p).peerAt < net.timing(p).addressAt
  {
  }

  lemma NoEntries(net: Network)
    ensures Initialized(net, net.deployments[..0], Tables(map[], map[]))
  {
  }

  lemma EntryAdded(net: Network, n: nat, t: Tables)
    requires net.Valid() && n < |net.deployments| && Initialized(net, net.deployments[..n], t)
    ensures var d := net.deployments[n];
            var m := FirstEntry(net, d);
            Initialized(net, net.deployments[..n + 1],
                        Tables(t.missing[d.chain := m], t.counts[d.chain := GapCount(m)]))
  {
    hide FirstEntry, GapCount;
    var done := net.deployments[..n + 1];
    assert done[n] == net.deployments[n];
    forall chain | chain in t.missing
      ensures exists i :: 0 <= i < |done| && done[i].chain == chain
    {
      var i :| 0 <= i < n && net.deployments[..n][i].chain == chain;
      assert done[i].chain == chain;
    }
  }

  class MissingTables {
    var missing: map<Chain, Missing>
    var counts: map<Chain, nat>

    ghost function Snapshot(): Tables
      reads this
    {
      Tables(missing, counts)
    }

    constructor ()
      ensures Snapshot() == Tables(map[], map[])
    {
      missing, counts := map[], map[];
    }

    /** The checks only Solana chains have. */
    method AddEntry(net: Network, d: Deployment)
      modifies this
      ensures missing == old(missing)[d.chain := FirstEntry(net, d)]
      ensures counts == old(counts)[d.chain := GapCount(FirstEntry(net, d))]
    {
      var m, count := Missing([], [], false, false), 0;
      if d.solana {
        if !net.selfRegistered(d.chain) {
          count := count + 1;
          m := m.(solanaWormholeTransceiver := true);
        }
        if !net.lookupTableDone(d.chain) {
          count := count + 1;
          m := m.(solanaUpdateLUT := true);
        }
      }
      missing, counts := missing[d.chain := m], counts[d.chain := count];
    }

    /** The loop over the entries. */
    method Initialize(net: Network)
      requires net.Valid() && Snapshot() == Tables(map[], map[])
      modifies this
      ensures Initialized(net, net.deployments, Snapshot())
    {
      hide FirstEntry, GapCount, Initialized;
      NoEntries(net);
      for i := 0 to |net.deployments|
        invariant Initialized(net, net.deployments[..i], Snapshot())
      {
        EntryAdded(net, i, Snapshot());
        AddEntry(net, net.deployments[i]);
      }
      assert net.deployments[..|net.deployments|] == net.deployments;
    }

    /** One segment of a pair task; false when it throws, before anything is pushed. */
    method RunSegment(net: Network, pair: Pair, step: nat) returns (ok: bool)
      modifies this
      ensures ok <==> !(Known(old(Snapshot()), pair) && step == net.timing(pair).peerAt && Rejects(net, pair))
      ensures ok ==> Snapshot() == Effect(net, pair, step, old(Snapshot()))
      ensures !ok ==> missing == old(missing)
    {
      ok := true;
      var chain := pair.from.chain;
      if chain !in missing || chain !in counts {
        return;
      }
      var timing := net.timing(pair);
      if step == timing.peerAt && net.managerPeerNull(pair) {
        counts := counts[chain := counts[chain] + 1];
        if pair.to.chain in pair.from.inbound && BaseUnits(pair.from.inbound[pair.to.chain]) == None {
          return false;
        }
        missing := missing[chain := missing[chain].(managerPeers := missing[chain].managerPeers + [PeerOf(pair)])];
      } else if step == timing.addressAt && net.transceiverPeerNull(pair) {
        counts := counts[chain := counts[chain] + 1];
        missing := missing[chain :=
          missing[chain].(transceiverPeers := missing[chain].transceiverPeers + [pair.to.transceiver])];
      }
    }
  }

  // ---------- the pool computes the plain definition ----------

  lemma {:induction false} RowConcat<T>(from: Deployment, tos: seq<Deployment>, g: Pair -> seq<T>)
    ensures Concat(Row(from, tos), g) ==
              Concat(tos, (to: Deployment) => if to.chain != from.chain then g(Pair(from, to)) else [])
  {
    if tos != [] {
      var n := |tos| - 1;
      RowConcat(from, tos[..n], g);
      var last := if tos[n].chain != from.chain then [Pair(from, tos[n])] else [];
      ConcatAppend(Row(from, tos[..n]), last, g);
      assert last != [] ==> last[..|last| - 1] == [];
    }
  }

  lemma {:induction false} RowSilent<T>(from: Deployment, tos: seq<Deployment>, g: Pair -> seq<T>)
    requires forall p: Pair :: p.from == from ==> g(p) == []
    ensures Concat(Row(from, tos), g) == []
  {
    if tos != [] {
      var n := |tos| - 1;
      RowSilent(from, tos[..n], g);
      ConcatAppend(Row(from, tos[..n]), if tos[n].chain != from.chain then [Pair(from, tos[n])] else [], g);
    }
  }

  /** Of all pairs, only those from one chain contribute to that chain. */
  lemma {:induction false} OnlyOwnRow<T>(froms: seq<Deployment>, tos: seq<Deployment>, g: Pair -> seq<T>, chain: Chain)
    requires forall i, j :: 0 <= i < j < |froms| ==> froms[i].chain != froms[j].chain
    requires forall p: Pair :: p.from.chain != chain ==> g(p) == []
    ensures forall k :: 0 <= k < |froms| && froms[k].chain == chain ==>
              Concat(Pairs(froms, tos), g) == Concat(Row(froms[k], tos), g)
    ensures (forall k :: 0 <= k < |froms| ==> froms[k].chain != chain) ==> Concat(Pairs(froms, tos), g) == []
  {
    hide Row;
    if froms != [] {
      var n := |froms| - 1;
      OnlyOwnRow(froms[..n], tos, g, chain);
      ConcatAppend(Pairs(froms[..n], tos), Row(froms[n], tos), g);
      if froms[n].chain != chain {
        RowSilent(froms[n], tos, g);
      } else {
        assert forall k :: 0 <= k < n ==> froms[..n][k].chain != chain;
      }
    }
  }

  function PairManager(net: Network, chain: Chain): Pair -> seq<ManagerPeer>
  {
    (p: Pair) => if p.from.chain == chain && net.managerPeerNull(p) then [PeerOf(p)] else []
  }

  function PairTransceiver(net: Network, chain: Chain): Pair -> seq<Address>
  {
    (p: Pair) => if p.from.chain == chain && net.transceiverPeerNull(p) then [p.to.transceiver] else []
  }

  lemma PairsGiveGaps(net: Network, k: nat)
    requires net.Valid() && k < |net.deployments|
    ensures var ds, from := net.deployments, net.deployments[k];
            && Concat(Pairs(ds, ds), PairManager(net, from.chain)) == Gaps(net, from).managerPeers
            && Concat(Pairs(ds, ds), PairTransceiver(net, from.chain)) == Gaps(net, from).transceiverPeers
  {
    hide Concat, Pairs, Row, PeerOf;
    var ds, from := net.deployments, net.deployments[k];
    var g, h := PairManager(net, from.chain), PairTransceiver(net, from.chain);
    OnlyOwnRow(ds, ds, g, from.chain);
    OnlyOwnRow(ds, ds, h, from.chain);
    RowConcat(from, ds, g);
    RowConcat(from, ds, h);
    SameConcat(ds, (to: Deployment) => if to.chain != from.chain then g(Pair(from, to)) else [],
               ManagerGap(net, from));
    SameConcat(ds, (to: Deployment) => if to.chain != from.chain then h(Pair(from, to)) else [],
               TransceiverGap(net, from));
  }

  function Segments(net: Network, pairs: seq<Pair>): seq<nat>
  {
    seq(|pairs|, i requires 0 <= i < |pairs| => SegmentCount(net, pairs[i]))
  }

  function SegmentCount(net: Network, p: Pair): nat { net.timing(p).addressAt + 1 }

  /** Every pair task has run all its segments. */
  ghost predicate Complete(net: Network, pairs: seq<Pair>, log: seq<Event>) {
    forall i :: 0 <= i < |pairs| ==> Steps(log, i) == UpTo(Segments(net, pairs)[i])
  }

  lemma ManagersGathered(net: Network, pairs: seq<Pair>, chain: Chain, log: seq<Event>)
    requires net.Valid() && Complete(net, pairs, log)
    ensures multiset(Gather(log, ManagerPush(net, pairs, chain), 0, |pairs|)) ==
              multiset(Concat(pairs, PairManager(net, chain)))
  {
    hide Concat, Gather, InOrder, PeerOf;
    var marks := seq(|pairs|, i requires 0 <= i < |pairs| => net.timing(pairs[i]).peerAt);
    CompleteLogGathers(log, ManagerPush(net, pairs, chain), Segments(net, pairs), marks);
    InOrderIsConcat(pairs, PairManager(net, chain), marks, ManagerPush(net, pairs, chain));
  }

  lemma TransceiversGathered(net: Network, pairs: seq<Pair>, chain: Chain, log: seq<Event>)
    requires net.Valid() && Complete(net, pairs, log)
    ensures multiset(Gather(log, TransceiverPush(net, pairs, chain), 0, |pairs|)) ==
              multiset(Concat(pairs, PairTransceiver(net, chain)))
  {
    hide Concat, Gather, InOrder;
    var marks := seq(|pairs|, i requires 0 <= i < |pairs| => net.timing(pairs[i]).addressAt);
    CompleteLogGathers(log, TransceiverPush(net, pairs, chain), Segments(net, pairs), marks);
    InOrderIsConcat(pairs, PairTransceiver(net, chain), marks, TransceiverPush(net, pairs, chain));
  }

  /** Schedule independence: any complete log leaves each chain's entry with exactly its gaps. */
  lemma AnyScheduleFindsGaps(net: Network, k: nat, log: seq<Event>)
    requires net.Valid() && k < |net.deployments| && Complete(net, Pairs(net.deployments, net.deployments), log)
    ensures var ds, d := net.deployments, net.deployments[k];
            var found := Logged(net, Pairs(ds, ds), d.chain, FirstEntry(net, d), log);
            SameGaps(found, Gaps(net, d)) && GapCount(found) == GapCount(Gaps(net, d))
  {
    hide Concat, Pairs, Gather, ManagerPush, TransceiverPush, PairManager, PairTransceiver, ManagerGap, TransceiverGap,
         Complete, Network.Valid;
    var ds, d := net.deployments, net.deployments[k];
    ManagersGathered(net, Pairs(ds, ds), d.chain, log);
    TransceiversGathered(net, Pairs(ds, ds), d.chain, log);
    PairsGiveGaps(net, k);
    var found := Logged(net, Pairs(ds, ds), d.chain, FirstEntry(net, d), log);
    SameGapsSameCount(found, Gaps(net, d));
  }

  lemma SameGapsSameCount(a: Missing, b: Missing)
    requires SameGaps(a, b)
    ensures GapCount(a) == GapCount(b)
  {
    assert |multiset(a.managerPeers)| == |multiset(b.managerPeers)|;
    assert |multiset(a.transceiverPeers)| == |multiset(b.transceiverPeers)|;
  }

  // ---------- the whole collection ----------

  lemma StartAgrees(net: Network, pairs: seq<Pair>, t: Tables)
    requires Initialized(net, net.deployments, t)
    ensures Agrees(net, pairs, t.missing, [], t)
  {
    forall chain | chain in t.missing
      ensures t.missing[chain] == Logged(net, pairs, chain, t.missing[chain], [])
      ensures t.counts[chain] == GapCount(t.missing[chain])
    {
      var i :| 0 <= i < |net.deployments| && net.deployments[i].chain == chain;
    }
  }

  lemma {:induction false} InRow(from: Deployment, tos: seq<Deployment>, p: Pair)
    ensures p in Row(from, tos) <==> p.from == from && p.to in tos && p.to.chain != from.chain
  {
    if tos != [] {
      var n := |tos| - 1;
      InRow(from, tos[..n], p);
      assert tos == tos[..n] + [tos[n]];
    }
  }

  /** The tasks are the ordered pairs of different chains. */
  lemma {:induction false} InPairs(froms: seq<Deployment>, tos: seq<Deployment>, p: Pair)
    ensures p in Pairs(froms, tos) <==> p.from in froms && p.to in tos && p.to.chain != p.from.chain
  {
    hide Row;
    if froms != [] {
      var n := |froms| - 1;
      InPairs(froms[..n], tos, p);
      InRow(froms[n], tos, p);
      assert froms == froms[..n] + [froms[n]];
    }
  }

  /** No event of the log has made its task throw. */
  ghost predicate NothingThrown(net: Network, tasks: seq<Pair>, log: seq<Event>) {
    forall k :: 0 <= k < |log| && log[k].item < |tasks| ==>
      !(log[k].step == net.timing(tasks[log[k].item]).peerAt && Rejects(net, tasks[log[k].item]))
  }

  lemma {:induction false} StepLogged(log: seq<Event>, item: nat, step: nat)
    requires step in Steps(log, item)
    ensures Segment(item, step) in log
  {
    if log != [] {
      var n := |log| - 1;
      assert log == log[..n] + [log[n]];
      if step in Steps(log[..n], item) {
        StepLogged(log[..n], item, step);
      }
    }
  }

  /** A complete log without a throw has no task that throws. */
  lemma CompleteNoneRejects(net: Network, tasks: seq<Pair>, log: seq<Event>)
    requires net.Valid() && Complete(net, tasks, log) && NothingThrown(net, tasks, log)
    ensures forall p :: p in tasks ==> !Rejects(net, p)
  {
    hide Steps, Rejects;
    forall i | 0 <= i < |tasks|
      ensures !Rejects(net, tasks[i])
    {
      var at := net.timing(tasks[i]).peerAt;
      assert UpTo(Segments(net, tasks)[i])[at] == at;
      StepLogged(log, i, at);
    }
  }

  /** Ends with the complete log, or at the first segment that throws. */
  method RunTasks(net: Network, tasks: seq<Pair>, concurrency: Number, tables: MissingTables)
    returns (ok: bool, ghost log: seq<Event>)
    requires net.Valid() && Agrees(net, tasks, tables.missing, [], tables.Snapshot())
    requires forall i :: 0 <= i < |tasks| ==> tasks[i].from.chain in tables.missing
    modifies tables
    ensures ok <==> forall p :: p in tasks ==> !Rejects(net, p)
    ensures ok ==> Complete(net, tasks, log) && Agrees(net, tasks, old(tables.missing), log, tables.Snapshot())
    ensures var flags := seq(|tasks|, i requires 0 <= i < |tasks| => tasks[i].from.solana);
            && PoolRanTo(log, flags, Segments(net, tasks), concurrency)
            && (ok ==> PoolRan(log, flags, Segments(net, tasks), concurrency))
  {
    if tasks == [] {
      NothingRan([], [], concurrency);
      return true, [];
    }
    hide Agrees, Where, Inv, Rejects, NothingThrown, PoolRan, PoolRanTo, Disciplined, LaneInOrder;
    var inSequence := seq(|tasks|, i requires 0 <= i < |tasks| => tasks[i].from.solana);
    var pool := NewPool(inSequence, Segments(net, tasks), seq(|tasks|, i => ()), concurrency);
    assert NothingThrown(net, tasks, []) by { NothingYet(net, tasks); }
    ok := DrivePool(net, tasks, pool, tables);
    log := pool.log;
    PoolRanSoFar(pool, concurrency);
    if ok {
      PoolRanAll(pool, concurrency);
      DoneIsComplete(pool, concurrency);
      CompleteNoneRejects(net, tasks, log);
    }
  }

  lemma NothingYet(net: Network, tasks: seq<Pair>)
    ensures NothingThrown(net, tasks, [])
  {
  }

  lemma NothingMore(net: Network, tasks: seq<Pair>, log: seq<Event>, e: Event)
    requires NothingThrown(net, tasks, log) && e.item < |tasks|
    requires !(e.step == net.timing(tasks[e.item]).peerAt && Rejects(net, tasks[e.item]))
    ensures NothingThrown(net, tasks, log + [e])
  {
    hide Rejects;
  }

  /** The pool's schedule, with each segment acting on the tables. */
  method DrivePool(net: Network, tasks: seq<Pair>, pool: TwoLanePool<()>, tables: MissingTables) returns (ok: bool)
    requires net.Valid() && pool.Valid() && |pool.values| == |tasks|
    requires Agrees(net, tasks, tables.missing, pool.log, tables.Snapshot()) && NothingThrown(net, tasks, pool.log)
    requires forall i :: 0 <= i < |tasks| ==> tasks[i].from.chain in tables.missing
    modifies tables, pool
    ensures !ok ==> exists p :: p in tasks && Rejects(net, p)
    ensures pool.Valid() && |pool.workers| == old(|pool.workers|) && (ok ==> Done(pool.Snapshot()))
    ensures ok ==> NothingThrown(net, tasks, pool.log)
    ensures ok ==> Agrees(net, tasks, old(tables.missing), pool.log, tables.Snapshot())
  {
    hide Agrees, Where, Work, Views, Inv, Effect, Network.Valid, Rejects, NothingThrown, Disciplined, LaneInOrder;
    InvShaped(pool.config, pool.Snapshot());
    ghost var first := tables.missing;
    while !(pool.lane == Returned && forall w :: 0 <= w < |pool.workers| ==> pool.workers[w] == Returned)
      invariant pool.Valid() && |pool.workers| == old(|pool.workers|) && Shaped(pool.config, pool.Snapshot())
      invariant Agrees(net, tasks, first, pool.log, tables.Snapshot()) && NothingThrown(net, tasks, pool.log)
      decreases Work(pool.config, pool.Snapshot())
    {
      ghost var before := pool.log;
      var ran := ResumeAny(pool);
      if ran.Some? {
        var e := ran.value;
        EffectAgrees(net, tasks, first, before, e, tables.Snapshot());
        AgreedKnown(net, tasks, first, before, tables.Snapshot(), tasks[e.item]);
        var ok := tables.RunSegment(net, tasks[e.item], e.step);
        if !ok {
          assert tasks[e.item] in tasks;
          return false;
        }
        NothingMore(net, tasks, before, e);
      } else {
        assert pool.log == before;
      }
    }
    return true;
  }

  lemma AgreedKnown(net: Network, pairs: seq<Pair>, first: map<Chain, Missing>, log: seq<Event>, t: Tables, p: Pair)
    requires Agrees(net, pairs, first, log, t) && p.from.chain in first
    ensures Known(t, p)
  {
    hide Logged;
  }

  /** The chains to report: exactly those with a gap, each with exactly its gaps. */
  ghost predicate Reported(net: Network, n: nat, found: map<Chain, Missing>)
    requires n <= |net.deployments|
  {
    && (forall k :: 0 <= k < n ==>
          var d := net.deployments[k];
          && (d.chain in found <==> GapCount(Gaps(net, d)) > 0)
          && (d.chain in found ==> SameGaps(found[d.chain], Gaps(net, d))))
    && (forall chain :: chain in found ==> exists k :: 0 <= k < n && net.deployments[k].chain == chain)
  }

  method Report(net: Network, tables: MissingTables) returns (found: map<Chain, Missing>)
    requires net.Valid()
    requires forall k :: 0 <= k < |net.deployments| ==>
               var d := net.deployments[k];
               && d.chain in tables.missing && d.chain in tables.counts
               && SameGaps(tables.missing[d.chain], Gaps(net, d))
               && tables.counts[d.chain] == GapCount(Gaps(net, d))
    ensures Reported(net, |net.deployments|, found)
  {
    hide SameGaps, Gaps, GapCount;
    found := map[];
    for k := 0 to |net.deployments|
      invariant Reported(net, k, found)
    {
      var chain := net.deployments[k].chain;
      if tables.counts[chain] > 0 {
        found := found[chain := tables.missing[chain]];
      }
    }
  }

  lemma AgreedGaps(net: Network, first: map<Chain, Missing>, log: seq<Event>, t: Tables, k: nat)
    requires net.Valid() && k < |net.deployments| && net.deployments[k].chain in first
    requires first[net.deployments[k].chain] == FirstEntry(net, net.deployments[k])
    requires Complete(net, Pairs(net.deployments, net.deployments), log)
    requires Agrees(net, Pairs(net.deployments, net.deployments), first, log, t)
    ensures var d := net.deployments[k];
            && d.chain in t.missing && d.chain in t.counts && SameGaps(t.missing[d.chain], Gaps(net, d))
            && t.counts[d.chain] == GapCount(Gaps(net, d))
  {
    hide SameGaps, Gaps, GapCount, Pairs, Logged, FirstEntry, Complete;
    AnyScheduleFindsGaps(net, k, log);
  }

  // ---------- what is reported, told from the deployments and the answers alone ----------

  /** The limit of a chain's configuration for another, without its dots: zero when there is none. */
  predicate LimitReads(d: Deployment, chain: Chain, n: int) {
    if chain in d.inbound then ReadBigInt(RemoveDots(d.inbound[chain])) == Some(n) else n == 0
  }

  /** The i-th deployment's manager is missing as a peer that reads so. */
  predicate MissesManager(net: Network, d: Deployment, i: nat, peer: ManagerPeer)
    requires i < |net.deployments|
  {
    var to := net.deployments[i];
    && to.chain != d.chain && net.managerPeerNull(Pair(d, to))
    && peer.address == to.manager && peer.tokenDecimals == to.decimals && LimitReads(d, to.chain, peer.inboundLimit)
  }

  predicate MissesTransceiver(net: Network, d: Deployment, i: nat, transceiver: Address)
    requires i < |net.deployments|
  {
    var to := net.deployments[i];
    to.chain != d.chain && net.transceiverPeerNull(Pair(d, to)) && transceiver == to.transceiver
  }

  /** Of the first so many deployments. */
  ghost function MissingManagers(net: Network, d: Deployment, n: nat, peer: ManagerPeer): set<nat>
    requires n <= |net.deployments|
  {
    set i: nat | i < n && MissesManager(net, d, i, peer)
  }

  ghost function MissingTransceivers(net: Network, d: Deployment, n: nat, transceiver: Address): set<nat>
    requires n <= |net.deployments|
  {
    set i: nat | i < n && MissesTransceiver(net, d, i, transceiver)
  }

  /** Each missing peer as often as there is a deployment it is missing for, and the two checks of Solana. */
  ghost predicate TellsMissing(net: Network, d: Deployment, m: Missing) {
    var n := |net.deployments|;
    && (forall peer :: multiset(m.managerPeers)[peer] == |MissingManagers(net, d, n, peer)|)
    && (forall a :: multiset(m.transceiverPeers)[a] == |MissingTransceivers(net, d, n, a)|)
    && m.solanaWormholeTransceiver == (d.solana && !net.selfRegistered(d.chain))
    && m.solanaUpdateLUT == (d.solana && !net.lookupTableDone(d.chain))
  }

  /** Something is missing on the chain. */
  ghost predicate Lacks(net: Network, d: Deployment) {
    || (exists to :: to in net.deployments && to.chain != d.chain
                     && (net.managerPeerNull(Pair(d, to)) || net.transceiverPeerNull(Pair(d, to))))
    || (d.solana && (!net.selfRegistered(d.chain) || !net.lookupTableDone(d.chain)))
  }

  /** A task throws: a missing peer has a configured limit that BigInt does not read. */
  ghost predicate SomeUnreadable(net: Network) {
    exists a, b :: a in net.deployments && b in net.deployments && a.chain != b.chain
                   && net.managerPeerNull(Pair(a, b)) && b.chain in a.inbound
                   && ReadBigInt(RemoveDots(a.inbound[b.chain])) == None
  }

  lemma RejectsUnreadable(net: Network)
    ensures SomeUnreadable(net) <==> exists a, b :: a in net.deployments && b in net.deployments && a.chain != b.chain
                                                    && Rejects(net, Pair(a, b))
  {
  }

  lemma {:induction false} ManagersCounted(net: Network, d: Deployment, n: nat, peer: ManagerPeer)
    requires n <= |net.deployments|
    requires forall to :: to in net.deployments && to.chain != d.chain ==> !Rejects(net, Pair(d, to))
    ensures multiset(Concat(net.deployments[..n], ManagerGap(net, d)))[peer] == |MissingManagers(net, d, n, peer)|
  {
    hide Concat, MissingManagers, ManagerGap, Rejects;
    if n > 0 {
      ManagersCounted(net, d, n - 1, peer);
      ConcatStep(net.deployments, n - 1, ManagerGap(net, d));
      ManagerStep(net, d, n, peer);
    } else {
      NoManagers(net, d, peer);
    }
  }

  lemma NoManagers(net: Network, d: Deployment, peer: ManagerPeer)
    ensures Concat(net.deployments[..0], ManagerGap(net, d)) == [] && MissingManagers(net, d, 0, peer) == {}
  {
  }

  /** One more deployment: what its task pushes, and whether it counts. */
  lemma ManagerStep(net: Network, d: Deployment, n: nat, peer: ManagerPeer)
    requires 0 < n <= |net.deployments|
    requires forall to :: to in net.deployments && to.chain != d.chain ==> !Rejects(net, Pair(d, to))
    ensures |MissingManagers(net, d, n, peer)| ==
              |MissingManagers(net, d, n - 1, peer)| + multiset(ManagerGap(net, d)(net.deployments[n - 1]))[peer]
  {
    GapHolds(net, d, n - 1, peer);
    hide MissesManager, ManagerGap, Rejects;
    OneMore(MissingManagers(net, d, n - 1, peer), MissingManagers(net, d, n, peer), n - 1);
  }

  lemma GapHolds(net: Network, d: Deployment, i: nat, peer: ManagerPeer)
    requires i < |net.deployments|
    requires forall to :: to in net.deployments && to.chain != d.chain ==> !Rejects(net, Pair(d, to))
    ensures multiset(ManagerGap(net, d)(net.deployments[i]))[peer] == if MissesManager(net, d, i, peer) then 1 else 0
  {
    hide BaseUnits;
    var to := net.deployments[i];
    assert to in net.deployments;
    ReadsOne(d, to.chain, peer.inboundLimit);
    hide ConfiguredLimit, LimitReads;
  }

  /** The limit that is pushed is the one that reads. */
  lemma ReadsOne(d: Deployment, chain: Chain, n: int)
    ensures (chain in d.inbound ==> BaseUnits(d.inbound[chain]).Some?) ==>
              (LimitReads(d, chain, n) <==> n == ConfiguredLimit(d, chain))
  {
  }

  lemma {:induction false} TransceiversCounted(net: Network, d: Deployment, n: nat, a: Address)
    requires n <= |net.deployments|
    ensures multiset(Concat(net.deployments[..n], TransceiverGap(net, d)))[a] == |MissingTransceivers(net, d, n, a)|
  {
    hide Concat, MissingTransceivers, TransceiverGap;
    if n > 0 {
      TransceiversCounted(net, d, n - 1, a);
      ConcatStep(net.deployments, n - 1, TransceiverGap(net, d));
      TransceiverStep(net, d, n, a);
    } else {
      NoTransceivers(net, d, a);
    }
  }

  lemma NoTransceivers(net: Network, d: Deployment, a: Address)
    ensures Concat(net.deployments[..0], TransceiverGap(net, d)) == [] && MissingTransceivers(net, d, 0, a) == {}
  {
  }

  lemma TransceiverStep(net: Network, d: Deployment, n: nat, a: Address)
    requires 0 < n <= |net.deployments|
    ensures |MissingTransceivers(net, d, n, a)| ==
              |MissingTransceivers(net, d, n - 1, a)| + multiset(TransceiverGap(net, d)(net.deployments[n - 1]))[a]
  {
    TransceiverGapHolds(net, d, n - 1, a);
    hide MissesTransceiver, TransceiverGap;
    OneMore(MissingTransceivers(net, d, n - 1, a), MissingTransceivers(net, d, n, a), n - 1);
  }

  lemma TransceiverGapHolds(net: Network, d: Deployment, i: nat, a: Address)
    requires i < |net.deployments|
    ensures multiset(TransceiverGap(net, d)(net.deployments[i]))[a] == if MissesTransceiver(net, d, i, a) then 1 else 0
  {
  }

  lemma OneMore(before: set<nat>, after: set<nat>, n: nat)
    requires n !in before && forall i :: i != n ==> (i in after <==> i in before)
    ensures |after| == |before| + if n in after then 1 else 0
  {
    assert after == if n in after then before + {n} else before;
  }

  lemma GapsTellMissing(net: Network, d: Deployment)
    requires forall to :: to in net.deployments && to.chain != d.chain ==> !Rejects(net, Pair(d, to))
    ensures TellsMissing(net, d, Gaps(net, d))
  {
    hide Concat, MissingManagers, MissingTransceivers, Rejects;
    var n := |net.deployments|;
    assert net.deployments[..n] == net.deployments;
    forall peer
      ensures multiset(Gaps(net, d).managerPeers)[peer] == |MissingManagers(net, d, n, peer)|
    {
      ManagersCounted(net, d, n, peer);
    }
    forall a
      ensures multiset(Gaps(net, d).transceiverPeers)[a] == |MissingTransceivers(net, d, n, a)|
    {
      TransceiversCounted(net, d, n, a);
    }
  }

  lemma GapsWhenLacking(net: Network, d: Deployment)
    ensures GapCount(Gaps(net, d)) > 0 <==> Lacks(net, d)
  {
    hide Concat, PeerOf;
    var m := Gaps(net, d);
    forall peer
      ensures peer in m.managerPeers <==> exists to :: to in net.deployments && peer in ManagerGap(net, d)(to)
    {
      InConcat(net.deployments, ManagerGap(net, d), peer);
    }
    forall a
      ensures a in m.transceiverPeers <==> exists to :: to in net.deployments && a in TransceiverGap(net, d)(to)
    {
      InConcat(net.deployments, TransceiverGap(net, d), a);
    }
    if to :| to in net.deployments && to.chain != d.chain && net.managerPeerNull(Pair(d, to)) {
      assert PeerOf(Pair(d, to)) in ManagerGap(net, d)(to);
      assert PeerOf(Pair(d, to)) in m.managerPeers;
    }
    if to :| to in net.deployments && to.chain != d.chain && net.transceiverPeerNull(Pair(d, to)) {
      assert to.transceiver in TransceiverGap(net, d)(to);
      assert to.transceiver in m.transceiverPeers;
    }
    if m.managerPeers != [] {
      assert m.managerPeers[0] in m.managerPeers;
    }
    if m.transceiverPeers != [] {
      assert m.transceiverPeers[0] in m.transceiverPeers;
    }
  }

  /** What is reported tells exactly what is missing, on exactly the chains that lack something. */
  ghost predicate TellsAll(net: Network, found: map<Chain, Missing>) {
    && (forall d :: d in net.deployments ==>
          && (d.chain in found <==> Lacks(net, d))
          && (d.chain in found ==> TellsMissing(net, d, found[d.chain])))
    && forall chain :: chain in found ==> exists d :: d in net.deployments && d.chain == chain
  }

  lemma ReportedTells(net: Network, found: map<Chain, Missing>)
    requires Reported(net, |net.deployments|, found)
    requires forall a, b :: a in net.deployments && b in net.deployments && a.chain != b.chain ==>
              !Rejects(net, Pair(a, b))
    ensures TellsAll(net, found)
  {
    hide Gaps, GapCount, Lacks, TellsMissing, Rejects;
    forall d | d in net.deployments
      ensures d.chain in found <==> Lacks(net, d)
      ensures d.chain in found ==> TellsMissing(net, d, found[d.chain])
    {
      var k :| 0 <= k < |net.deployments| && net.deployments[k] == d;
      GapsWhenLacking(net, d);
      GapsTellMissing(net, d);
      if d.chain in found {
        SameTells(net, d, found[d.chain], Gaps(net, d));
      }
    }
  }

  lemma SameTells(net: Network, d: Deployment, a: Missing, b: Missing)
    requires SameGaps(a, b) && TellsMissing(net, d, b)
    ensures TellsMissing(net, d, a)
  {
    hide MissingManagers, MissingTransceivers;
  }

  /**
   * Under every schedule, the collection rejects exactly when the task of some pair throws, and
   * otherwise reports exactly the gaps of exactly the chains that have one.
   */
  method CollectMissingConfigs(net: Network, concurrency: Number) returns (found: Option<map<Chain, Missing>>)
    requires net.Valid()
    ensures found == None <==> SomeUnreadable(net)
    ensures found.Some? ==> TellsAll(net, found.value) && Reported(net, |net.deployments|, found.value)
  {
    RejectsUnreadable(net);
    hide SomeUnreadable, TellsAll, SameGaps, Gaps, GapCount, FirstEntry, Complete, Agrees, Rejects;
    var tables := new MissingTables();
    tables.Initialize(net);
    var tasks := BuildTasks(net.deployments);
    StartAgrees(net, tasks, tables.Snapshot());
    forall p: Pair
      ensures p in tasks <==> p.from in net.deployments && p.to in net.deployments && p.to.chain != p.from.chain
    {
      InPairs(net.deployments, net.deployments, p);
    }
    assert forall p :: p in tasks ==> p == Pair(p.from, p.to);
    ghost var first := tables.missing;
    var ok;
    ghost var log;
    ok, log := RunTasks(net, tasks, concurrency, tables);
    if !ok {
      return None;
    }
    forall k | 0 <= k < |net.deployments|
      ensures var d := net.deployments[k];
              && d.chain in tables.missing && d.chain in tables.counts
              && SameGaps(tables.missing[d.chain], Gaps(net, d))
              && tables.counts[d.chain] == GapCount(Gaps(net, d))
    {
      AgreedGaps(net, first, log, tables.Snapshot(), k);
    }
    var reported := Report(net, tables);
    ReportedTells(net, reported);
    found := Some(reported);
  }
}

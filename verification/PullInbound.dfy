/** Pulling the inbound limits of all chain pairs into the configuration, in two pool runs. */
module PullInbound {
  import CollectMissing
  import opened InboundLimits
  import opened LimitText
  import opened Outcomes
  import opened PoolCode
  import opened PoolSchedules
  import opened TaskPool

  /** A chain's manager; two chains may share one object. */
  datatype Manager = Manager(chain: Chain, id: nat, solana: bool, decimals: nat)

  datatype Peer = Unreadable | NoPeer | Limit(units: nat)

  /**
   * What the chains answer, in which segment of its task the decimals arrive, and how many segments
   * a pair task has.
   */
  datatype Network = Network(managers: seq<Manager>, peer: (Chain, Chain) -> Peer, decimalsAt: Manager -> nat,
                             pairSegments: InboundTask -> nat)
  {
    ghost predicate Valid() {
      && (forall i, j :: 0 <= i < j < |managers| ==> managers[i].chain != managers[j].chain)
      && (forall m: Manager :: decimalsAt(m) >= 1)
      && (forall t: InboundTask :: pairSegments(t) >= 1)
    }
  }

  datatype InboundTask = InboundTask(from: Manager, toChain: Chain)

  datatype InboundResult = Fetched(task: InboundTask, formatted: string) | FetchFailed(task: InboundTask)

  // ---------- the structures ----------

  function PreparedLimits(limits: Option<Limits>): Option<Limits>
  {
    var l := if limits.Some? then limits.value else Limits(Some("0"), Some(map[]));
    Some(if l.inbound.Some? then l else l.(inbound := Some(map[])))
  }

  ghost predicate Prepared(before: Chains, after: Chains, chains: set<Chain>) {
    && after.Keys == before.Keys
    && forall c :: c in before ==>
         after[c] == if c in chains then before[c].(limits := PreparedLimits(before[c].limits)) else before[c]
  }

  method Prepare(file: DeploymentFile, managers: seq<Manager>) returns (ok: bool)
    modifies file
    ensures ok <==> forall i :: 0 <= i < |managers| ==> managers[i].chain in old(file.chains)
    ensures ok ==> Prepared(old(file.chains), file.chains, ChainsOf(managers))
  {
    hide PreparedLimits;
    PreparedTwice();
    for i := 0 to |managers|
      invariant forall j :: 0 <= j < i ==> managers[j].chain in old(file.chains)
      invariant Prepared(old(file.chains), file.chains, ChainsOf(managers[..i]))
    {
      var chain := managers[i].chain;
      assert managers[..i + 1] == managers[..i] + [managers[i]];
      MoreChains(managers[..i], managers[i]);
      if chain !in file.chains {
        return false;
      }
      file.chains := file.chains[chain := file.chains[chain].(limits := PreparedLimits(file.chains[chain].limits))];
    }
    assert managers[..|managers|] == managers;
    return true;
  }

  lemma PreparedTwice()
    ensures forall l: Option<Limits> :: PreparedLimits(PreparedLimits(l)) == PreparedLimits(l)
  {
  }

  function ChainsOf(managers: seq<Manager>): set<Chain> { set m | m in managers :: m.chain }

  lemma MoreChains(managers: seq<Manager>, m: Manager)
    ensures ChainsOf(managers + [m]) == ChainsOf(managers) + {m.chain}
  {
  }

  // ---------- phase 1 ----------

  /** Every manager whose decimals have arrived is in the table, with its decimals. */
  ghost predicate Known(net: Network, log: seq<Event>, table: map<Chain, nat>) {
    forall i :: 0 <= i < |net.managers| && net.decimalsAt(net.managers[i]) in Steps(log, i) ==>
      net.managers[i].chain in table && table[net.managers[i].chain] == net.managers[i].decimals
  }

  class DecimalsByChain {
    var table: map<Chain, nat>

    constructor ()
      ensures table == map[]
    {
      table := map[];
    }

    method RunSegment(net: Network, m: Manager, step: nat)
      modifies this
      ensures table == if step == net.decimalsAt(m) then old(table)[m.chain := m.decimals] else old(table)
    {
      if step == net.decimalsAt(m) {
        table := table[m.chain := m.decimals];
      }
    }
  }

  lemma SegmentKnown(net: Network, log: seq<Event>, e: Event, table: map<Chain, nat>)
    requires net.Valid() && Known(net, log, table) && e.item < |net.managers|
    ensures var m := net.managers[e.item];
            Known(net, log + [e], if e.step == net.decimalsAt(m) then table[m.chain := m.decimals] else table)
  {
    hide Steps;
    var m := net.managers[e.item];
    var after := if e.step == net.decimalsAt(m) then table[m.chain := m.decimals] else table;
    forall i | 0 <= i < |net.managers| && net.decimalsAt(net.managers[i]) in Steps(log + [e], i)
      ensures net.managers[i].chain in after && after[net.managers[i].chain] == net.managers[i].decimals
    {
      StepsAppend(log, e, i);
    }
  }

  method FetchDecimals(net: Network, concurrency: Number, decimals: DecimalsByChain) returns (ghost log: seq<Event>)
    requires net.Valid() && decimals.table == map[]
    modifies decimals
    ensures forall i :: 0 <= i < |net.managers| ==>
              net.managers[i].chain in decimals.table &&
                decimals.table[net.managers[i].chain] == net.managers[i].decimals
    ensures var n := |net.managers|;
            PoolRan(log, seq(n, i requires 0 <= i < n => net.managers[i].solana),
                    seq(n, i requires 0 <= i < n => net.decimalsAt(net.managers[i]) + 1), concurrency)
  {
    if net.managers == [] {
      NothingRan([], [], concurrency);
      return [];
    }
    hide Where, Inv, Known, PoolRan, Disciplined, LaneInOrder;
    var n := |net.managers|;
    var inSequence := seq(n, i requires 0 <= i < n => net.managers[i].solana);
    var segments := seq(n, i requires 0 <= i < n => net.decimalsAt(net.managers[i]) + 1);
    var pool := NewPool(inSequence, segments, seq(n, i => ()), concurrency);
    NothingKnown(net, decimals.table);
    DrivePool(net, pool, decimals);
    DoneIsComplete(pool, concurrency);
    PoolRanAll(pool, concurrency);
    log := pool.log;
    AllKnown(net, log, decimals.table);
  }

  lemma NothingKnown(net: Network, table: map<Chain, nat>)
    ensures Known(net, [], table)
  {
  }

  lemma AllKnown(net: Network, log: seq<Event>, table: map<Chain, nat>)
    requires Known(net, log, table)
    requires forall i :: 0 <= i < |net.managers| ==> Steps(log, i) == UpTo(net.decimalsAt(net.managers[i]) + 1)
    ensures forall i :: 0 <= i < |net.managers| ==>
              net.managers[i].chain in table && table[net.managers[i].chain] == net.managers[i].decimals
  {
    hide Steps;
    forall i | 0 <= i < |net.managers|
      ensures net.decimalsAt(net.managers[i]) in Steps(log, i)
    {
      assert UpTo(net.decimalsAt(net.managers[i]) + 1)[net.decimalsAt(net.managers[i])] ==
        net.decimalsAt(net.managers[i]);
    }
  }

  method DrivePool(net: Network, pool: TwoLanePool<()>, decimals: DecimalsByChain)
    requires net.Valid() && pool.Valid() && |pool.values| == |net.managers|
    requires Known(net, pool.log, decimals.table)
    modifies pool, decimals
    ensures pool.Valid() && Done(pool.Snapshot()) && |pool.workers| == old(|pool.workers|)
    ensures Known(net, pool.log, decimals.table)
  {
    hide Known, Where, Work, Views, Inv, Network.Valid, Disciplined, LaneInOrder;
    InvShaped(pool.config, pool.Snapshot());
    while !(pool.lane == Returned && forall w :: 0 <= w < |pool.workers| ==> pool.workers[w] == Returned)
      invariant pool.Valid() && |pool.workers| == old(|pool.workers|) && Shaped(pool.config, pool.Snapshot())
      invariant Known(net, pool.log, decimals.table)
      decreases Work(pool.config, pool.Snapshot())
    {
      ghost var before := pool.log;
      var ran := ResumeAny(pool);
      if ran.Some? {
        var e := ran.value;
        SegmentKnown(net, before, e, decimals.table);
        decimals.RunSegment(net, net.managers[e.item], e.step);
      } else {
        assert pool.log == before;
      }
    }
  }

  // ---------- phase 2 ----------

  method BuildTasks(managers: seq<Manager>) returns (tasks: seq<InboundTask>)
    ensures forall t :: t in tasks <==>
              exists i, j :: 0 <= i < |managers| && 0 <= j < |managers| && managers[i].id != managers[j].id
                && t == InboundTask(managers[i], managers[j].chain)
  {
    tasks := [];
    for i := 0 to |managers|
      invariant forall t :: t in tasks <==>
                  exists k, j :: 0 <= k < i && 0 <= j < |managers| && managers[k].id != managers[j].id
                    && t == InboundTask(managers[k], managers[j].chain)
    {
      var row := BuildRow(managers[i], managers);
      tasks := tasks + row;
    }
  }

  method BuildRow(from: Manager, managers: seq<Manager>) returns (tasks: seq<InboundTask>)
    ensures forall t :: t in tasks <==>
              exists j :: 0 <= j < |managers| && from.id != managers[j].id && t == InboundTask(from, managers[j].chain)
  {
    tasks := [];
    for j := 0 to |managers|
      invariant forall t :: t in tasks <==>
                  exists k :: 0 <= k < j && from.id != managers[k].id && t == InboundTask(from, managers[k].chain)
    {
      if from.id != managers[j].id {
        tasks := tasks + [InboundTask(from, managers[j].chain)];
      }
    }
  }

  function Units(peer: Peer): nat
    requires peer != Unreadable
  {
    match peer case NoPeer => 0 case Limit(n) => n
  }

  /** A pair task: it fails when the peer cannot be read or the decimals are not in the table. */
  function FetchLimit(net: Network, table: map<Chain, nat>, t: InboundTask): InboundResult
  {
    var peer := net.peer(t.from.chain, t.toChain);
    if peer == Unreadable || t.from.chain !in table then FetchFailed(t)
    else Fetched(t, FormatNumber(Units(peer), table[t.from.chain]))
  }

  /** What a pair's limit becomes. */
  function Pulled(net: Network, t: InboundTask): Option<string>
  {
    var peer := net.peer(t.from.chain, t.toChain);
    if peer == Unreadable then None else Some(FormatNumber(Units(peer), t.from.decimals))
  }

  /** After phase 1 the missing-decimals branch is dead: a pair fails only when its peer cannot be read. */
  lemma DecimalsAreKnown(net: Network, table: map<Chain, nat>, t: InboundTask)
    requires t.from.chain in table && table[t.from.chain] == t.from.decimals
    ensures FetchLimit(net, table, t) ==
              match Pulled(net, t) case None => FetchFailed(t) case Some(text) => Fetched(t, text)
  {
  }

  /** What the pairs of the tasks want written; a chain's manager is told by its name. */
  function Wanted(net: Network, tasks: seq<InboundTask>): (Chain, Chain) -> Option<string>
  {
    (d: Chain, s: Chain) => LastPulled(net, tasks, d, s)
  }

  function LastPulled(net: Network, tasks: seq<InboundTask>, d: Chain, s: Chain): Option<string>
  {
    if tasks == [] then None else
      var t := tasks[|tasks| - 1];
      if t.from.chain == d && t.toChain == s && Pulled(net, t).Some? then Pulled(net, t)
      else LastPulled(net, tasks[..|tasks| - 1], d, s)
  }

  method WriteResults(net: Network, file: DeploymentFile, tasks: seq<InboundTask>, results: seq<InboundResult>)
    returns (failed: seq<InboundTask>)
    requires |results| == |tasks|
    requires forall i :: 0 <= i < |tasks| ==>
               results[i] ==
                 match Pulled(net, tasks[i])
                 case None => FetchFailed(tasks[i])
                 case Some(text) => Fetched(tasks[i], text)
    requires forall i :: 0 <= i < |tasks| ==>
               tasks[i].from.chain in file.chains && file.chains[tasks[i].from.chain].limits.Some?
               && file.chains[tasks[i].from.chain].limits.value.inbound.Some?
    modifies file
    ensures FilledIn(old(file.chains), file.chains, Wanted(net, tasks))
    ensures forall c :: Ready(old(file.chains), c) ==> Ready(file.chains, c)
    ensures forall t :: t in failed <==> t in tasks && Pulled(net, t) == None
  {
    hide FilledIn, Pulled, WithInbound;
    failed := [];
    NothingPulled(net, file.chains);
    for i := 0 to |results|
      invariant FilledIn(old(file.chains), file.chains, Wanted(net, tasks[..i]))
      invariant forall t :: t in failed <==> t in tasks[..i] && Pulled(net, t) == None
      invariant forall k :: 0 <= k < |tasks| ==> Ready(file.chains, tasks[k].from.chain)
      invariant forall c :: Ready(old(file.chains), c) ==> Ready(file.chains, c)
    {
      assert tasks[..i + 1] == tasks[..i] + [tasks[i]];
      var d, s := tasks[i].from.chain, tasks[i].toChain;
      OneMorePulled(net, old(file.chains), file.chains, tasks[..i], tasks[i]);
      match results[i]
      case Fetched(_, formatted) =>
        StaysReady(file.chains, d, s, formatted);
        file.chains := file.chains[d := WithInbound(file.chains[d], s, formatted)];
      case FetchFailed(t) =>
        failed := failed + [t];
    }
    assert tasks[..|tasks|] == tasks;
  }

  predicate Ready(config: Chains, d: Chain) {
    d in config && config[d].limits.Some? && config[d].limits.value.inbound.Some?
  }

  lemma StaysReady(config: Chains, d: Chain, s: Chain, limit: string)
    requires d in config
    ensures forall c :: Ready(config, c) ==> Ready(config[d := WithInbound(config[d], s, limit)], c)
  {
  }

  lemma NothingPulled(net: Network, config: Chains)
    ensures FilledIn(config, config, Wanted(net, []))
  {
  }

  lemma OneMorePulled(net: Network, before: Chains, now: Chains, tasks: seq<InboundTask>, t: InboundTask)
    requires FilledIn(before, now, Wanted(net, tasks)) && Ready(now, t.from.chain)
    ensures Pulled(net, t) == None ==> FilledIn(before, now, Wanted(net, tasks + [t]))
    ensures Pulled(net, t).Some? ==>
              FilledIn(before, now[t.from.chain := WithInbound(now[t.from.chain], t.toChain, Pulled(net, t).value)],
                       Wanted(net, tasks + [t]))
  {
    hide Inbound, Outbound, WithInbound, Pulled;
    assert (tasks + [t])[..|tasks|] == tasks;
    if Pulled(net, t).Some? {
      SetShows(now, t.from.chain, t.toChain, Pulled(net, t).value);
    }
  }

  // ---------- the whole pull ----------

  /** The pairs that are asked: of managers that are not the same object. */
  predicate Asked(net: Network, i: nat, j: nat) {
    i < |net.managers| && j < |net.managers| && net.managers[i].id != net.managers[j].id
  }

  function TaskOf(net: Network, i: nat, j: nat): InboundTask
    requires Asked(net, i, j)
  {
    InboundTask(net.managers[i], net.managers[j].chain)
  }

  ghost predicate AllAsked(net: Network, tasks: seq<InboundTask>) {
    forall t :: t in tasks <==> exists i, j :: Asked(net, i, j) && t == TaskOf(net, i, j)
  }

  lemma {:induction false} WantedOf(net: Network, tasks: seq<InboundTask>, d: Chain, s: Chain)
    requires forall t, u :: t in tasks && u in tasks && t.from.chain == u.from.chain ==> t.from == u.from
    ensures forall t :: t in tasks && t.from.chain == d && t.toChain == s ==>
              LastPulled(net, tasks, d, s) == Pulled(net, t)
    ensures (forall t :: t in tasks ==> !(t.from.chain == d && t.toChain == s)) ==> LastPulled(net, tasks, d, s) == None
  {
    hide Pulled;
    if tasks != [] {
      var n := |tasks| - 1;
      assert tasks == tasks[..n] + [tasks[n]];
      WantedOf(net, tasks[..n], d, s);
      forall t | t in tasks && t.from.chain == d && t.toChain == s
        ensures LastPulled(net, tasks, d, s) == Pulled(net, t)
      {
        if tasks[n].from.chain == d && tasks[n].toChain == s {
          assert tasks[n] == t;
          if Pulled(net, t) == None && t !in tasks[..n] {
            assert forall u :: u in tasks[..n] && u.from.chain == d && u.toChain == s ==> u == t;
          }
        }
      }
    }
  }

  lemma SameChainSameManager(net: Network, tasks: seq<InboundTask>)
    requires net.Valid() && AllAsked(net, tasks)
    ensures forall t :: t in tasks ==> t.from in net.managers
    ensures forall t, u :: t in tasks && u in tasks && t.from.chain == u.from.chain ==> t.from == u.from
  {
  }

  /** What the pull leaves: each asked pair's limit as text, or its earlier text if it could not be read. */
  ghost predicate AllPulled(net: Network, before: Chains, after: Chains) {
    && after.Keys == before.Keys
    && (forall i, j :: Asked(net, i, j) ==>
          var t := TaskOf(net, i, j);
          Inbound(after, t.from.chain, t.toChain) ==
            if Pulled(net, t).Some? then Pulled(net, t) else Inbound(before, t.from.chain, t.toChain))
    && (forall d, s ::
          (forall i, j :: Asked(net, i, j) ==> !(TaskOf(net, i, j).from.chain == d && TaskOf(net, i, j).toChain == s))
          ==> Inbound(after, d, s) == Inbound(before, d, s))
    && (forall c :: c in before ==> after[c].other == before[c].other)
    && (forall c :: c in before ==> Outbound(after, c) == PulledOutbound(net, before, c))
    && (forall c :: c in before && c in ChainsOf(net.managers) ==> Ready(after, c))
  }

  /** A chain of the pull that had no limits gets an outbound limit of "0"; the others keep theirs. */
  function PulledOutbound(net: Network, before: Chains, c: Chain): Option<string>
  {
    if c in before && c in ChainsOf(net.managers) && before[c].limits == None then Some("0") else Outbound(before, c)
  }

  lemma PreparedShows(before: Chains, after: Chains, chains: set<Chain>)
    requires Prepared(before, after, chains)
    ensures forall d, s :: Inbound(after, d, s) == Inbound(before, d, s)
    ensures forall c :: c in before ==>
              Outbound(after, c) ==
                if c in chains && before[c].limits == None then Some("0") else Outbound(before, c)
    ensures forall c :: c in before ==> after[c].other == before[c].other
    ensures forall c :: c in before && c in chains ==> Ready(after, c)
  {
  }

  lemma PulledAll(net: Network, tasks: seq<InboundTask>, before: Chains, middle: Chains, after: Chains)
    requires net.Valid() && AllAsked(net, tasks)
    requires Prepared(before, middle, ChainsOf(net.managers)) && FilledIn(middle, after, Wanted(net, tasks))
    requires forall c :: Ready(middle, c) ==> Ready(after, c)
    ensures AllPulled(net, before, after)
  {
    hide Pulled, Inbound, Outbound, PreparedLimits, Ready;
    PreparedShows(before, middle, ChainsOf(net.managers));
    SameChainSameManager(net, tasks);
    forall i, j | Asked(net, i, j)
      ensures var t := TaskOf(net, i, j);
              Inbound(after, t.from.chain, t.toChain) ==
                if Pulled(net, t).Some? then Pulled(net, t) else Inbound(before, t.from.chain, t.toChain)
    {
      var t := TaskOf(net, i, j);
      assert t in tasks;
      WantedOf(net, tasks, t.from.chain, t.toChain);
    }
    forall d, s | forall i, j :: Asked(net, i, j) ==>
      !(TaskOf(net, i, j).from.chain == d && TaskOf(net, i, j).toChain == s)
      ensures Inbound(after, d, s) == Inbound(before, d, s)
    {
      WantedOf(net, tasks, d, s);
    }
  }

  /** A pulled limit is read back as the units the chain answered, or as zero when there is no peer. */
  lemma PulledReadsBack(net: Network, t: InboundTask)
    ensures Pulled(net, t) == None <==> net.peer(t.from.chain, t.toChain) == Unreadable
    ensures Pulled(net, t).Some? ==>
              && BaseUnits(Pulled(net, t).value) ==
                   (match net.peer(t.from.chain, t.toChain)
                    case Limit(n) => Some(n)
                    case NoPeer => Some(0)
                    case Unreadable => None)
              && IsValidLimit(Pulled(net, t).value, t.from.decimals)
              && GetDecimalsFromLimit(Pulled(net, t).value) == Some(t.from.decimals)
  {
    if net.peer(t.from.chain, t.toChain) != Unreadable {
      FormatReadsBack(Units(net.peer(t.from.chain, t.toChain)), t.from.decimals);
    }
  }

  /** The collection of missing peers reads a pulled limit as the units the chain answered. */
  lemma CollectionReadsSame(net: Network, t: InboundTask, from: CollectMissing.Deployment, n: int)
    requires Pulled(net, t).Some? && t.toChain in from.inbound && from.inbound[t.toChain] == Pulled(net, t).value
    ensures CollectMissing.LimitReads(from, t.toChain, n) <==>
              (match net.peer(t.from.chain, t.toChain) case Limit(units) => n == units case _ => n == 0)
    ensures CollectMissing.LimitReads(from, t.toChain, n) <==> n == CollectMissing.ConfiguredLimit(from, t.toChain)
  {
    hide Pulled;
    PulledReadsBack(net, t);
    CollectMissing.ReadsOne(from, t.toChain, n);
  }

  /**
   * Under every schedule of both phases the configuration gets exactly the limits the chains answer,
   * and a chain without limits an outbound one of zero; the pairs reported as failed are exactly those
   * whose peer could not be read.
   */
  method PullInboundLimits(net: Network, file: DeploymentFile, concurrency: Number)
    returns (ok: bool, failed: seq<InboundTask>)
    requires net.Valid()
    modifies file
    ensures ok <==> forall i :: 0 <= i < |net.managers| ==> net.managers[i].chain in old(file.chains)
    ensures ok ==> AllPulled(net, old(file.chains), file.chains)
    ensures ok ==> forall t :: t in failed <==>
                     exists i, j :: Asked(net, i, j) && t == TaskOf(net, i, j) && Pulled(net, t) == None
  {
    hide FilledIn, Pulled, Prepared, AllPulled;
    failed := [];
    ghost var before := file.chains;
    ok := Prepare(file, net.managers);
    if !ok {
      return;
    }
    ghost var middle := file.chains;
    PreparedShows(before, middle, ChainsOf(net.managers));
    SameKeys(before, middle, ChainsOf(net.managers));
    var decimals := new DecimalsByChain();
    ghost var first := FetchDecimals(net, concurrency, decimals);
    var tasks := BuildTasks(net.managers);
    TasksAreAsked(net, tasks);
    ghost var second;
    failed, second := FetchAndWrite(net, file, concurrency, tasks, decimals.table);
    PulledAll(net, tasks, before, middle, file.chains);
  }

  lemma SameKeys(before: Chains, after: Chains, chains: set<Chain>)
    requires Prepared(before, after, chains)
    ensures after.Keys == before.Keys
  {
  }

  lemma TasksAreAsked(net: Network, tasks: seq<InboundTask>)
    requires forall t :: t in tasks <==>
               exists i, j ::
                 0 <= i < |net.managers| && 0 <= j < |net.managers| && net.managers[i].id != net.managers[j].id
                 && t == InboundTask(net.managers[i], net.managers[j].chain)
    ensures AllAsked(net, tasks)
  {
    forall i: nat, j: nat | Asked(net, i, j)
      ensures TaskOf(net, i, j) in tasks
    {
    }
    forall t | t in tasks
      ensures exists i, j :: Asked(net, i, j) && t == TaskOf(net, i, j)
    {
      var i, j :| 0 <= i < |net.managers| && 0 <= j < |net.managers| && net.managers[i].id != net.managers[j].id
                  && t == InboundTask(net.managers[i], net.managers[j].chain);
      assert Asked(net, i, j) && t == TaskOf(net, i, j);
    }
  }

  function InLane(tasks: seq<InboundTask>): (flags: seq<bool>)
    ensures |flags| == |tasks| && forall i :: 0 <= i < |tasks| ==> flags[i] == tasks[i].from.solana
  {
    seq(|tasks|, i requires 0 <= i < |tasks| => tasks[i].from.solana)
  }

  function Lengths(net: Network, tasks: seq<InboundTask>): (segments: seq<nat>)
    ensures |segments| == |tasks| && forall i :: 0 <= i < |tasks| ==> segments[i] == net.pairSegments(tasks[i])
  {
    seq(|tasks|, i requires 0 <= i < |tasks| => net.pairSegments(tasks[i]))
  }

  lemma SameFlags(net: Network, tasks: seq<InboundTask>, flags: seq<bool>, segments: seq<nat>)
    requires |flags| == |segments| == |tasks|
    requires forall i :: 0 <= i < |tasks| ==>
              flags[i] == tasks[i].from.solana && segments[i] == net.pairSegments(tasks[i])
    ensures flags == InLane(tasks) && segments == Lengths(net, tasks)
  {
  }

  method FetchAndWrite(net: Network, file: DeploymentFile, concurrency: Number, tasks: seq<InboundTask>,
                       table: map<Chain, nat>)
    returns (failed: seq<InboundTask>, ghost log: seq<Event>)
    requires net.Valid() && AllAsked(net, tasks)
    requires forall i :: 0 <= i < |net.managers| ==>
               && net.managers[i].chain in table && table[net.managers[i].chain] == net.managers[i].decimals
               && Ready(file.chains, net.managers[i].chain)
    modifies file
    ensures FilledIn(old(file.chains), file.chains, Wanted(net, tasks))
    ensures forall c :: Ready(old(file.chains), c) ==> Ready(file.chains, c)
    ensures forall t :: t in failed <==> t in tasks && Pulled(net, t) == None
    ensures PoolRan(log, InLane(tasks), Lengths(net, tasks), concurrency)
  {
    hide FilledIn, Pulled, FetchLimit, Wanted, PoolRan;
    SameChainSameManager(net, tasks);
    var results;
    var inLane := (t: InboundTask, i: nat) => t.from.solana;
    var length := (t: InboundTask, i: nat) => net.pairSegments(t);
    results, log := RunTaskPoolWithSequential(tasks, concurrency, inLane,
                                              (t: InboundTask, i: nat) => FetchLimit(net, table, t), length);
    SameFlags(net, tasks, Each(tasks, inLane), Each(tasks, length));
    forall i: nat | i < |tasks|
      ensures Ready(file.chains, tasks[i].from.chain)
      ensures results[i] ==
                match Pulled(net, tasks[i])
                case None => FetchFailed(tasks[i])
                case Some(text) => Fetched(tasks[i], text)
    {
      assert tasks[i] in tasks && tasks[i].from in net.managers;
      var k :| 0 <= k < |net.managers| && net.managers[k] == tasks[i].from;
      DecimalsAreKnown(net, table, tasks[i]);
    }
    failed := WriteResults(net, file, tasks, results);
  }
}

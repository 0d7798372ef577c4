/**
 * Tracking a multi-token transfer: a loop that moves a receipt on what the two chains and the
 * relayers answer, and yields it after every change.
 */
module Track {
  import opened Outcomes
  import opened Texts

  datatype TransferState = Created | SourceInitiated | SourceFinalized | Attested | Failed
                         | DestinationInitiated | DestinationQueued | DestinationFinalized

  datatype Transceiver = Transceiver(kind: string, index: nat)

  /** A signed message, by its identifier: its bytes play no part here. */
  type Vaa = nat

  datatype Relay = RelayStatus(status: string) | AxelarError(message: string)

  /** A receipt; what is attested is held by value here, and by reference in the code below. */
  datatype Receipt<I> = Receipt(
    state: TransferState,
    originTxs: seq<string>,
    sendTransceivers: seq<Transceiver>,
    attestation: Option<Vaa>,
    error: Option<Relay>,
    releaseTime: Option<nat>,
    destinationTxs: seq<string>,
    attested: I)

  type Transfer = Receipt<set<string>>

  /** What one turn of the loop would be told, call by call. */
  datatype Observation = Observation(
    message: bool,
    vaa: Option<Vaa>,
    approved: bool,
    attests: (nat, nat) -> bool,
    executorStatus: Option<string>,
    axelarError: Option<string>,
    queued: Option<nat>,
    executed: bool,
    elapsed: nat)

  datatype Event =
    | Fetched(vaa: Vaa)
    | Approval(answer: bool)
    | Asked(kind: string, index: nat, answer: bool)
    | Executor(status: string)
    | Axelar(failure: Option<string>)
    | Queue(release: Option<nat>)
    | Executed(answer: bool)
    | Yielded(transfer: Transfer)

  datatype Failure = NoOrigin | NoMessage | NoVaa | NoAttestation | NoStatus | Unsupported(kind: string)
                   | NotAttested | NoWormhole

  /** The events of a stretch of the loop, and the receipt it leaves or what it throws. */
  datatype Phase = Phase(events: seq<Event>, outcome: Result<Transfer, Failure>)
  {
    function After(earlier: seq<Event>): Phase { Phase(earlier + events, outcome) }
  }

  // ---------- what the loop does ----------

  function Kind(t: Transceiver): string { Lower(t.kind) }

  predicate IsWormhole(t: Transceiver) { Kind(t) == "wormhole" }

  function Select(ts: seq<Transceiver>, wormhole: bool): seq<Transceiver>
  {
    if ts == [] then [] else
      Select(ts[..|ts| - 1], wormhole) + (if IsWormhole(ts[|ts| - 1]) == wormhole then [ts[|ts| - 1]] else [])
  }

  /** The comparator is 1 or -1 only between the two classes, so a stable sort is this partition. */
  function WormholeLast(ts: seq<Transceiver>): seq<Transceiver> { Select(ts, false) + Select(ts, true) }

  predicate Sourcing<I>(t: Receipt<I>) { t.state == SourceInitiated || t.state == SourceFinalized }

  predicate Chasing<I>(t: Receipt<I>) { t.state == Attested || t.state == Failed }

  predicate Settling<I>(t: Receipt<I>) { t.state == DestinationInitiated || t.state == DestinationQueued }

  function Fetch(t: Transfer, o: Observation): Phase
  {
    if !Sourcing(t) then Phase([], Ok(t))
    else if t.originTxs == [] then Phase([], Err(NoOrigin))
    else if !o.message then Phase([], Err(NoMessage))
    else if o.vaa == None then Phase([], Err(NoVaa))
    else
      var next := t.(state := Attested, attestation := o.vaa);
      Phase([Fetched(o.vaa.value), Yielded(next)], Ok(next))
  }

  predicate RelayFailed(status: string) { status in ["failed", "underpaid", "unsupported", "aborted"] }

  function StatusFailure(status: string): Option<Relay>
  {
    if RelayFailed(status) then Some(RelayStatus(status)) else None
  }

  function AxelarFailure(failure: Option<string>): Option<Relay>
  {
    match failure case None => None case Some(m) => Some(AxelarError(m))
  }

  /** What a relayer's answer makes of an attested or failed receipt. */
  function Relayed<I>(t: Receipt<I>, failure: Option<Relay>): Receipt<I>
  {
    if failure.Some? then t.(state := Failed, error := failure)
    else if t.state == Failed then t.(state := Attested, error := None)
    else t
  }

  function TrackExecutor<I>(t: Receipt<I>, o: Observation): (r: Result<Receipt<I>, Failure>)
    ensures Chasing(t) && r.Ok? ==> o.executorStatus.Some?
  {
    if !Chasing(t) then Ok(t)
    else if t.originTxs == [] then Err(NoOrigin)
    else if o.executorStatus == None then Err(NoStatus)
    else Ok(Relayed(t, StatusFailure(o.executorStatus.value)))
  }

  function TrackAxelar<I>(t: Receipt<I>, o: Observation): Result<Receipt<I>, Failure>
  {
    if !Chasing(t) then Ok(t)
    else if t.originTxs == [] then Err(NoOrigin)
    else Ok(Relayed(t, AxelarFailure(o.axelarError)))
  }

  function AskRelayer(t: Transfer, kind: string, o: Observation, isManual: bool): Phase
    requires Chasing(t)
  {
    if kind == "wormhole" then
      if isManual then Phase([], Ok(t))
      else
        var r := TrackExecutor(t, o);
        Phase(if r.Ok? then [Executor(o.executorStatus.value)] else [], r)
    else if kind == "axelar" then
      var r := TrackAxelar(t, o);
      Phase(if r.Ok? then [Axelar(o.axelarError)] else [], r)
    else Phase([], Err(Unsupported(kind)))
  }

  function YieldIfOk(p: Phase): Phase
  {
    if p.outcome.Ok? then Phase(p.events + [Yielded(p.outcome.value)], p.outcome) else p
  }

  /** A transceiver attested: it is recorded, and a failed receipt is attested again. */
  function Recorded(t: Transfer, kind: string): (p: Phase)
    ensures p.outcome.Ok? && p.outcome.value.sendTransceivers == t.sendTransceivers
    ensures Chasing(t) ==> Chasing(p.outcome.value)
  {
    var next := t.(attested := t.attested + {kind});
    if t.state == Failed then
      Phase([Yielded(next.(state := Attested))], Ok(next.(state := Attested)))
    else Phase([], Ok(next))
  }

  /** The loop over the sorted transceivers, from the k-th on. */
  function CheckFrom(t: Transfer, sorted: seq<Transceiver>, k: nat, o: Observation, isManual: bool): Phase
    requires Chasing(t) && k <= |sorted|
    decreases |sorted| - k
  {
    if k == |sorted| then Phase([], Ok(t)) else
      var kind, index := Kind(sorted[k]), sorted[k].index;
      if kind in t.attested then CheckFrom(t, sorted, k + 1, o, isManual)
      else if o.attests(k, index) then
        var recorded := Recorded(t, kind);
        var others := CheckFrom(recorded.outcome.value, sorted, k + 1, o, isManual);
        others.After([Asked(kind, index, true)] + recorded.events)
      else
        YieldIfOk(AskRelayer(t, kind, o, isManual)).After([Asked(kind, index, false)])
  }

  function Approve(t: Transfer, o: Observation, isManual: bool): Phase
  {
    if !Chasing(t) then Phase([], Ok(t))
    else if t.attestation == None then Phase([], Err(NoAttestation))
    else if o.approved then
      var next := t.(state := DestinationInitiated);
      Phase([Approval(true), Yielded(next)], Ok(next))
    else
      CheckFrom(t, WormholeLast(t.sendTransceivers), 0, o, isManual).After([Approval(false)])
  }

  function Settle(t: Transfer, o: Observation): Phase
  {
    if !Settling(t) then Phase([], Ok(t))
    else if t.attestation == None then Phase([], Err(NoAttestation))
    else if o.queued.Some? then
      Phase([Queue(o.queued)], Ok(t.(state := DestinationQueued, releaseTime := Some(o.queued.value * 1000))))
    else if o.executed then Phase([Queue(None), Executed(true)], Ok(t.(state := DestinationFinalized)))
    else Phase([Queue(None), Executed(false)], Ok(t))
  }

  function Then(p: Phase, next: Transfer -> Phase): Phase
  {
    if p.outcome.Ok? then next(p.outcome.value).After(p.events) else p
  }

  /** One turn of the loop. */
  function Turn(t: Transfer, o: Observation, isManual: bool): Phase
  {
    YieldIfOk(Then(Then(Fetch(t, o), (x: Transfer) => Approve(x, o, isManual)), (x: Transfer) => Settle(x, o)))
  }

  function Budget(timeout: Option<int>): int
  {
    if timeout == None || timeout == Some(0) then 60 * 60 * 1000 else timeout.value
  }

  /** The whole run over what the turns are told; it stops where the telling stops. */
  function Run(t: Transfer, told: seq<Observation>, leftover: int, isManual: bool): Phase
    decreases |told|
  {
    if leftover <= 0 || t.state == DestinationFinalized || told == [] then Phase([], Ok(t))
    else
      var turn := Turn(t, told[0], isManual);
      if turn.outcome.Err? then turn
      else Run(turn.outcome.value, told[1..], leftover - told[0].elapsed, isManual).After(turn.events)
  }

  // ---------- completing and finalizing by hand ----------

  /** The first transceiver of a list that is Wormhole's. */
  function FirstWormhole(ts: seq<Transceiver>): (found: Option<Transceiver>)
    ensures found.Some? <==> exists t :: t in ts && IsWormhole(t)
    ensures found.Some? ==>
              exists i :: 0 <= i < |ts| && ts[i] == found.value && IsWormhole(ts[i])
                          && forall j :: 0 <= j < i ==> !IsWormhole(ts[j])
  {
    if ts == [] then None
    else if IsWormhole(ts[0]) then Some(ts[0])
    else
      var rest := FirstWormhole(ts[1..]);
      assert forall t :: t in ts ==> t == ts[0] || t in ts[1..];
      assert forall i :: 0 <= i < |ts| - 1 ==> ts[1..][i] == ts[i + 1];
      rest
  }

  /** The message to redeem, if completing has anything left to do. */
  function BuildComplete<I>(t: Receipt<I>, attests: nat -> bool): Result<Option<Vaa>, Failure>
  {
    if !Chasing(t) then (if t.state == DestinationInitiated then Ok(None) else Err(NotAttested))
    else if t.attestation == None then Err(NoAttestation)
    else
      match FirstWormhole(t.sendTransceivers)
      case None => Err(NoWormhole)
      case Some(w) => Ok(if attests(w.index) then None else t.attestation)
  }

  // ---------- what every run keeps ----------

  ghost predicate Answered(since: seq<Event>, kind: string) {
    exists e :: e in since && e.Asked? && e.kind == kind && e.answer
  }

  /** The latest observations since the last yield account for the change of the receipt. */
  predicate Explains(since: seq<Event>, kept: Transfer, next: Transfer) {
    since != [] &&
    match since[|since| - 1]
    case Fetched(v) => Sourcing(kept) && next == kept.(state := Attested, attestation := Some(v))
    case Approval(answer) => answer && Chasing(kept) && next == kept.(state := DestinationInitiated)
    case Asked(kind, index, answer) => answer && kept.state == Failed && next == kept.(state := Attested)
    case Executor(status) => Chasing(kept) && next == Relayed(kept, StatusFailure(status))
    case Axelar(failure) => Chasing(kept) && next == Relayed(kept, AxelarFailure(failure))
    case Queue(release) =>
      && release.Some? && Settling(kept)
      && next == kept.(state := DestinationQueued, releaseTime := Some(release.value * 1000))
    case Executed(answer) =>
      && answer && |since| >= 2 && since[|since| - 2] == Queue(None) && Settling(kept)
      && next == kept.(state := DestinationFinalized)
    case Yielded(_) => false
  }

  /** The last receipt yielded, and what has been observed since. */
  datatype Scan = Scan(manual: bool, last: Transfer, since: seq<Event>)
  {
    function Advance(e: Event): Scan
    {
      if e.Yielded? then Scan(manual, e.transfer, []) else Scan(manual, last, since + [e])
    }

    /** The receipt has only gained attestations, each one observed. */
    ghost predicate Pending(t: Transfer) {
      && t == last.(attested := t.attested)
      && last.attested <= t.attested
      && forall kind :: kind in t.attested && kind !in last.attested ==> Answered(since, kind)
    }

    ghost predicate Justifies(t: Transfer) {
      && last.attested <= t.attested
      && (forall kind :: kind in t.attested && kind !in last.attested ==> Answered(since, kind))
      && var kept := last.(attested := t.attested);
      && (t == kept || Explains(since, kept, t))
    }

    /** Every transceiver that is not Wormhole's has been seen to attest. */
    ghost predicate OthersAttested() {
      forall x :: x in last.sendTransceivers && !IsWormhole(x) ==> Kind(x) in last.attested || Answered(since, Kind(x))
    }

    /** A yield must be accounted for; the executor is asked last, and never for a manual transfer. */
    ghost predicate Permits(e: Event) {
      && (e.Yielded? ==> Justifies(e.transfer))
      && (e.Executor? ==> !manual && OthersAttested())
    }
  }

  function ScanAll(s: Scan, events: seq<Event>): Scan
    decreases |events|
  {
    if events == [] then s else ScanAll(s.Advance(events[0]), events[1..])
  }

  /** Every event is permitted by what came before it. */
  ghost predicate Legal(s: Scan, events: seq<Event>)
    decreases |events|
  {
    events != [] ==>
      && s.Permits(events[0])
      && Legal(s.Advance(events[0]), events[1..])
  }

  lemma {:induction false} LegalAppend(s: Scan, a: seq<Event>, b: seq<Event>)
    ensures ScanAll(s, a + b) == ScanAll(ScanAll(s, a), b)
    ensures Legal(s, a + b) <==> Legal(s, a) && Legal(ScanAll(s, a), b)
    decreases |a|
  {
    hide Scan.Advance, Scan.Permits;
    if a == [] {
      assert a + b == b;
    } else {
      assert (a + b)[1..] == a[1..] + b;
      LegalAppend(s.Advance(a[0]), a[1..], b);
    }
  }

  ghost predicate LeavesPending(s: Scan, p: Phase) {
    Legal(s, p.events) && (p.outcome.Ok? ==> ScanAll(s, p.events).Pending(p.outcome.value))
  }

  ghost predicate LeavesJustified(s: Scan, p: Phase) {
    Legal(s, p.events) && (p.outcome.Ok? ==> ScanAll(s, p.events).Justifies(p.outcome.value))
  }

  lemma YieldIsLegal(s: Scan, p: Phase)
    requires LeavesJustified(s, p)
    ensures LeavesPending(s, YieldIfOk(p))
    ensures p.outcome.Ok? ==> ScanAll(s, YieldIfOk(p).events) == Scan(s.manual, p.outcome.value, [])
  {
    hide Scan.Justifies;
    if p.outcome.Ok? {
      LegalAppend(s, p.events, [Yielded(p.outcome.value)]);
      ScanAllManual(s, p.events);
      assert [Yielded(p.outcome.value)][1..] == [];
    }
  }

  lemma AfterIsLegal(s: Scan, events: seq<Event>, p: Phase)
    requires Legal(s, events)
    ensures LeavesPending(ScanAll(s, events), p) ==> LeavesPending(s, p.After(events))
    ensures LeavesJustified(ScanAll(s, events), p) ==> LeavesJustified(s, p.After(events))
  {
    hide Scan.Justifies, Scan.Pending;
    LegalAppend(s, events, p.events);
  }

  /** Observations that are not yields are always legal, and are what has been seen since. */
  lemma {:induction false} ObservingIsLegal(s: Scan, events: seq<Event>)
    requires forall e :: e in events ==> !e.Yielded? && !e.Executor?
    ensures Legal(s, events) && ScanAll(s, events) == Scan(s.manual, s.last, s.since + events)
    decreases |events|
  {
    if events != [] {
      ObservingIsLegal(s.Advance(events[0]), events[1..]);
      assert s.since + [events[0]] + events[1..] == s.since + events;
    } else {
      assert s.since + events == s.since;
    }
  }

  lemma FetchIsLegal(s: Scan, t: Transfer, o: Observation)
    requires s.Pending(t)
    ensures LeavesPending(s, Fetch(t, o))
  {
    if Sourcing(t) && o.vaa.Some? {
      var next := t.(state := Attested, attestation := o.vaa);
      var seen := [Fetched(o.vaa.value)];
      ObservingIsLegal(s, seen);
      assert s.Advance(seen[0]).Justifies(next);
      YieldIsLegal(s, Phase(seen, Ok(next)));
      assert seen + [Yielded(next)] == [Fetched(o.vaa.value), Yielded(next)];
    }
  }

  /** After one more observation, an account of the change is an account since the last yield. */
  lemma ObservedJustifies(s: Scan, t: Transfer, e: Event, next: Transfer)
    requires s.Pending(t) && s.Permits(e) && !e.Yielded? && next.attested == t.attested
    requires next == t || Explains(s.since + [e], t, next)
    ensures Legal(s, [e]) && ScanAll(s, [e]) == s.Advance(e)
    ensures s.Advance(e).Justifies(next)
    ensures s.Advance(e).Pending(t)
  {
    hide Explains, Scan.OthersAttested;
    assert [e][1..] == [];
    MoreAnswered(s.since, e);
  }

  lemma MoreAnswered(since: seq<Event>, e: Event)
    ensures forall kind :: Answered(since, kind) ==> Answered(since + [e], kind)
    ensures e.Asked? && e.answer ==> Answered(since + [e], e.kind)
  {
    assert e in since + [e];
    forall kind | Answered(since, kind)
      ensures Answered(since + [e], kind)
    {
      var x :| x in since && x.Asked? && x.kind == kind && x.answer;
      assert x in since + [e];
    }
  }

  lemma RelayIsLegal(s: Scan, t: Transfer, kind: string, o: Observation)
    requires s.Pending(t) && Chasing(t) && (kind == "wormhole" ==> s.OthersAttested())
    ensures LeavesJustified(s, AskRelayer(t, kind, o, s.manual))
  {
    hide Relayed, RelayFailed, Answered, Scan.OthersAttested;
    if kind == "wormhole" {
      if !s.manual && t.originTxs != [] && o.executorStatus.Some? {
        var e := Executor(o.executorStatus.value);
        RelayedKeepsAttested(t, StatusFailure(o.executorStatus.value));
        ObservedJustifies(s, t, e, Relayed(t, StatusFailure(o.executorStatus.value)));
      }
    } else if kind == "axelar" && t.originTxs != [] {
      RelayedKeepsAttested(t, AxelarFailure(o.axelarError));
      ObservedJustifies(s, t, Axelar(o.axelarError), Relayed(t, AxelarFailure(o.axelarError)));
    }
  }

  lemma RelayedKeepsAttested(t: Transfer, failure: Option<Relay>)
    ensures Relayed(t, failure).attested == t.attested
    ensures Chasing(t) ==> Chasing(Relayed(t, failure))
  {
  }

  lemma RecordedIsLegal(s: Scan, t: Transfer, kind: string, index: nat)
    requires s.Pending(t) && Chasing(t)
    ensures var p := Recorded(t, kind).After([Asked(kind, index, true)]);
            LeavesPending(s, p) && Chasing(p.outcome.value)
            && p.outcome.value.attested == t.attested + {kind} && p.outcome.value.sendTransceivers == t.sendTransceivers
            && ScanAll(s, p.events).manual == s.manual
  {
    hide Answered;
    var e := Asked(kind, index, true);
    var p := Recorded(t, kind);
    var now := s.Advance(e);
    ObservingIsLegal(s, [e]);
    MoreAnswered(s.since, e);
    assert now.Justifies(p.outcome.value);
    if t.state == Failed {
      YieldIsLegal(now, Phase([], p.outcome));
      assert [] + p.events == p.events;
      AfterIsLegal(s, [e], p);
    } else {
      assert [e] + [] == [e];
    }
  }

  /** The kinds checked so far are recorded, and Wormhole's transceivers come last. */
  ghost predicate CheckedTo(t: Transfer, sorted: seq<Transceiver>, k: nat) {
    && k <= |sorted|
    && (forall x :: x in t.sendTransceivers ==> x in sorted)
    && (forall i, j :: 0 <= i < j < |sorted| && IsWormhole(sorted[i]) ==> IsWormhole(sorted[j]))
    && (forall i :: 0 <= i < k ==> Kind(sorted[i]) in t.attested)
  }

  lemma OthersChecked(s: Scan, t: Transfer, sorted: seq<Transceiver>, k: nat)
    requires s.Pending(t) && CheckedTo(t, sorted, k) && k < |sorted| && IsWormhole(sorted[k])
    ensures s.OthersAttested()
  {
    hide Answered, Kind;
    forall x | x in s.last.sendTransceivers && !IsWormhole(x)
      ensures Kind(x) in s.last.attested || Answered(s.since, Kind(x))
    {
      var i :| 0 <= i < |sorted| && sorted[i] == x;
      assert i < k;
    }
  }

  lemma {:induction false} CheckIsLegal(s: Scan, t: Transfer, sorted: seq<Transceiver>, k: nat, o: Observation)
    requires s.Pending(t) && Chasing(t) && CheckedTo(t, sorted, k)
    ensures LeavesPending(s, CheckFrom(t, sorted, k, o, s.manual))
    decreases |sorted| - k
  {
    hide Scan.Pending, Scan.Justifies, Scan.OthersAttested, Recorded, AskRelayer, Chasing, Lower;
    if k < |sorted| {
      var kind, index := Kind(sorted[k]), sorted[k].index;
      if kind in t.attested {
        CheckIsLegal(s, t, sorted, k + 1, o);
      } else if o.attests(k, index) {
        var recorded := Recorded(t, kind).After([Asked(kind, index, true)]);
        RecordedIsLegal(s, t, kind, index);
        CheckIsLegal(ScanAll(s, recorded.events), recorded.outcome.value, sorted, k + 1, o);
        AfterIsLegal(s, recorded.events, CheckFrom(recorded.outcome.value, sorted, k + 1, o, s.manual));
      } else {
        var e := Asked(kind, index, false);
        ObservedJustifies(s, t, e, t);
        var now := s.Advance(e);
        if kind == "wormhole" {
          OthersChecked(now, t, sorted, k);
        }
        RelayIsLegal(now, t, kind, o);
        YieldIsLegal(now, AskRelayer(t, kind, o, s.manual));
        AfterIsLegal(s, [e], YieldIfOk(AskRelayer(t, kind, o, s.manual)));
      }
    }
  }

  lemma {:induction false} SelectPicks(ts: seq<Transceiver>, wormhole: bool)
    ensures forall i :: 0 <= i < |Select(ts, wormhole)| ==> IsWormhole(Select(ts, wormhole)[i]) == wormhole
    ensures forall x :: x in ts && IsWormhole(x) == wormhole ==> x in Select(ts, wormhole)
  {
    hide Kind;
    if ts != [] {
      SelectPicks(ts[..|ts| - 1], wormhole);
    }
  }

  lemma {:induction false} SelectAll(ts: seq<Transceiver>, of: bool, wormhole: bool)
    requires forall x :: x in ts ==> IsWormhole(x) == of
    ensures Select(ts, wormhole) == if of == wormhole then ts else []
  {
    if ts != [] {
      SelectAll(ts[..|ts| - 1], of, wormhole);
    }
  }

  lemma {:induction false} SelectAppend(a: seq<Transceiver>, b: seq<Transceiver>, wormhole: bool)
    ensures Select(a + b, wormhole) == Select(a, wormhole) + Select(b, wormhole)
  {
    hide IsWormhole;
    if b == [] {
      assert a + b == a;
    } else {
      assert (a + b)[..|a + b| - 1] == a + b[..|b| - 1];
      SelectAppend(a, b[..|b| - 1], wormhole);
    }
  }

  lemma {:induction false} SelectSplits(ts: seq<Transceiver>)
    ensures multiset(ts) == multiset(Select(ts, false)) + multiset(Select(ts, true))
  {
    hide IsWormhole;
    if ts != [] {
      SelectSplits(ts[..|ts| - 1]);
      assert ts == ts[..|ts| - 1] + [ts[|ts| - 1]];
    }
  }

  /** The sorted list is a permutation, has Wormhole's transceivers last, and is stable in each class. */
  lemma SortedStably(ts: seq<Transceiver>)
    ensures var sorted := WormholeLast(ts);
            && multiset(sorted) == multiset(ts)
            && (forall i, j :: 0 <= i < j < |sorted| && IsWormhole(sorted[i]) ==> IsWormhole(sorted[j]))
            && forall which :: Select(sorted, which) == Select(ts, which)
  {
    hide IsWormhole, Select;
    SelectPicks(ts, false);
    SelectPicks(ts, true);
    SelectSplits(ts);
    forall which
      ensures Select(WormholeLast(ts), which) == Select(ts, which)
    {
      SelectAppend(Select(ts, false), Select(ts, true), which);
      SelectAll(Select(ts, false), false, which);
      SelectAll(Select(ts, true), true, which);
    }
  }

  lemma WormholeLastChecks(t: Transfer)
    ensures CheckedTo(t, WormholeLast(t.sendTransceivers), 0)
  {
    hide Kind, Select;
    SelectPicks(t.sendTransceivers, false);
    SelectPicks(t.sendTransceivers, true);
  }

  lemma ApproveIsLegal(s: Scan, t: Transfer, o: Observation)
    requires s.Pending(t)
    ensures LeavesPending(s, Approve(t, o, s.manual))
  {
    hide CheckFrom, WormholeLast, Answered;
    if Chasing(t) && t.attestation.Some? {
      var e := Approval(o.approved);
      if o.approved {
        var next := t.(state := DestinationInitiated);
        ObservedJustifies(s, t, e, next);
        YieldIsLegal(s, Phase([e], Ok(next)));
        assert [e] + [Yielded(next)] == [Approval(true), Yielded(next)];
      } else {
        ObservedJustifies(s, t, e, t);
        WormholeLastChecks(t);
        CheckIsLegal(s.Advance(e), t, WormholeLast(t.sendTransceivers), 0, o);
        AfterIsLegal(s, [e], CheckFrom(t, WormholeLast(t.sendTransceivers), 0, o, s.manual));
      }
    }
  }

  lemma SettleIsLegal(s: Scan, t: Transfer, o: Observation)
    requires s.Pending(t)
    ensures LeavesJustified(s, Settle(t, o))
  {
    hide Answered;
    var p := Settle(t, o);
    if p.events != [] {
      ObservedJustifies(s, t, p.events[0], if o.queued.Some? then p.outcome.value else t);
      if o.queued == None {
        var now := s.Advance(Queue(None));
        ObservedJustifies(now, t, Executed(o.executed), p.outcome.value);
        LegalAppend(s, [Queue(None)], [Executed(o.executed)]);
        assert [Queue(None)] + [Executed(o.executed)] == p.events;
      }
    }
  }

  lemma ThenIsLegal(s: Scan, p: Phase, next: Transfer -> Phase)
    requires LeavesPending(s, p)
    ensures p.outcome.Ok? && LeavesPending(ScanAll(s, p.events), next(p.outcome.value)) ==>
              LeavesPending(s, Then(p, next))
    ensures p.outcome.Ok? && LeavesJustified(ScanAll(s, p.events), next(p.outcome.value)) ==>
              LeavesJustified(s, Then(p, next))
  {
    hide Scan.Justifies, Scan.Pending;
    if p.outcome.Ok? {
      AfterIsLegal(s, p.events, next(p.outcome.value));
    }
  }

  lemma {:induction false} ScanAllManual(s: Scan, events: seq<Event>)
    ensures ScanAll(s, events).manual == s.manual
    decreases |events|
  {
    if events != [] {
      ScanAllManual(s.Advance(events[0]), events[1..]);
    }
  }

  /** A turn is legal, and ends by yielding what it leaves. */
  lemma TurnIsLegal(s: Scan, t: Transfer, o: Observation)
    requires s.Pending(t)
    ensures var p := Turn(t, o, s.manual);
            Legal(s, p.events) && (p.outcome.Ok? ==> ScanAll(s, p.events) == Scan(s.manual, p.outcome.value, []))
  {
    hide Scan.Justifies, Scan.Pending, Fetch, Approve, Settle, Legal, ScanAll;
    var fetched := Fetch(t, o);
    FetchIsLegal(s, t, o);
    if fetched.outcome.Err? {
      return;
    }
    ScanAllManual(s, fetched.events);
    ApproveIsLegal(ScanAll(s, fetched.events), fetched.outcome.value, o);
    ThenIsLegal(s, fetched, (x: Transfer) => Approve(x, o, s.manual));
    var approved := Then(fetched, (x: Transfer) => Approve(x, o, s.manual));
    if approved.outcome.Err? {
      return;
    }
    SettleIsLegal(ScanAll(s, approved.events), approved.outcome.value, o);
    ThenIsLegal(s, approved, (x: Transfer) => Settle(x, o));
    YieldIsLegal(s, Then(approved, (x: Transfer) => Settle(x, o)));
  }

  /** Every run is legal, whatever it is told and however long it goes on. */
  lemma {:induction false} RunIsLegal(t: Transfer, told: seq<Observation>, leftover: int, isManual: bool)
    ensures Legal(Scan(isManual, t, []), Run(t, told, leftover, isManual).events)
    decreases |told|
  {
    hide Turn, Scan.Justifies;
    if leftover > 0 && t.state != DestinationFinalized && told != [] {
      var turn := Turn(t, told[0], isManual);
      TurnIsLegal(Scan(isManual, t, []), t, told[0]);
      if turn.outcome.Ok? {
        var next := turn.outcome.value;
        RunIsLegal(next, told[1..], leftover - told[0].elapsed, isManual);
        LegalAppend(Scan(isManual, t, []), turn.events,
                    Run(next, told[1..], leftover - told[0].elapsed, isManual).events);
      }
    }
  }

  // ---------- read off the log ----------

  function Yields(events: seq<Event>): seq<Transfer>
  {
    if events == [] then [] else (if events[0].Yielded? then [events[0].transfer] else []) + Yields(events[1..])
  }

  predicate Arrived(state: TransferState) {
    state == DestinationInitiated || state == DestinationQueued || state == DestinationFinalized
  }

  predicate Allowed(from: TransferState, to: TransferState) {
    || from == to
    || match from
       case Created => false
       case SourceInitiated => to == Attested
       case SourceFinalized => to == Attested
       case Attested => to == Failed || to == DestinationInitiated
       case Failed => to == Attested || to == DestinationInitiated
       case DestinationInitiated => to == DestinationQueued || to == DestinationFinalized
       case DestinationQueued => to == DestinationFinalized
       case DestinationFinalized => false
  }

  predicate Successor(a: Transfer, b: Transfer) {
    && Allowed(a.state, b.state)
    && a.attested <= b.attested
    && (!Sourcing(a) ==> b.attestation == a.attestation)
    && b.originTxs == a.originTxs && b.sendTransceivers == a.sendTransceivers && b.destinationTxs == a.destinationTxs
  }

  ghost predicate Chain(ys: seq<Transfer>) { forall i :: 0 <= i < |ys| - 1 ==> Successor(ys[i], ys[i + 1]) }

  lemma JustifiedSucceeds(s: Scan, t: Transfer)
    requires s.Justifies(t)
    ensures Successor(s.last, t)
  {
    hide Answered, RelayFailed;
  }

  lemma {:induction false} LegalYields(s: Scan, events: seq<Event>)
    requires Legal(s, events)
    ensures Chain([s.last] + Yields(events))
    decreases |events|
  {
    hide Scan.Justifies, Successor;
    if events != [] {
      LegalYields(s.Advance(events[0]), events[1..]);
      if events[0].Yielded? {
        JustifiedSucceeds(s, events[0].transfer);
        assert [s.last] + Yields(events) == [s.last] + ([events[0].transfer] + Yields(events[1..]));
      } else {
        assert Yields(events) == Yields(events[1..]);
      }
    }
  }

  lemma {:induction false} ArrivedForGood(ys: seq<Transfer>, i: nat, j: nat)
    requires Chain(ys) && i <= j < |ys| && Arrived(ys[i].state)
    ensures Arrived(ys[j].state)
    decreases j
  {
    if i < j {
      ArrivedForGood(ys, i, j - 1);
      assert Successor(ys[j - 1], ys[j - 1 + 1]);
    }
  }

  /** The receipts of any run follow the transition relation and never come back from the destination. */
  lemma RunTransitions(t: Transfer, told: seq<Observation>, leftover: int, isManual: bool)
    ensures var ys := [t] + Yields(Run(t, told, leftover, isManual).events);
            && Chain(ys)
            && forall i, j :: 0 <= i <= j < |ys| && Arrived(ys[i].state) ==> Arrived(ys[j].state)
  {
    hide Legal, Yields, Chain;
    RunIsLegal(t, told, leftover, isManual);
    LegalYields(Scan(isManual, t, []), Run(t, told, leftover, isManual).events);
    var ys := [t] + Yields(Run(t, told, leftover, isManual).events);
    forall i, j | 0 <= i <= j < |ys| && Arrived(ys[i].state)
      ensures Arrived(ys[j].state)
    {
      ArrivedForGood(ys, i, j);
    }
  }

  predicate IsFinal(e: Event) { e.Yielded? && e.transfer.state == DestinationFinalized }

  /** The two answers right before the first final yield. */
  lemma {:induction false} FinalAfterAnswers(s: Scan, events: seq<Event>, i: nat)
    requires Legal(s, events) && i < |events| && IsFinal(events[i]) && forall j :: 0 <= j < i ==> !IsFinal(events[j])
    requires s.last.state != DestinationFinalized
    ensures var all, n := s.since + events, |s.since| + i;
            n >= 2 && all[n - 2] == Queue(None) && all[n - 1] == Executed(true)
    decreases |events|
  {
    hide Answered, RelayFailed;
    if i > 0 {
      assert forall j :: 0 <= j < i - 1 ==> events[1..][j] == events[j + 1];
      FinalAfterAnswers(s.Advance(events[0]), events[1..], i - 1);
      assert (s.since + [events[0]]) + events[1..] == s.since + events;
    }
  }

  predicate Early(events: seq<Event>) {
    forall e :: e in events && e.Yielded? ==>
      e.transfer.state == Attested || e.transfer.state == Failed || e.transfer.state == DestinationInitiated
  }

  lemma {:induction false} CheckEarly(t: Transfer, sorted: seq<Transceiver>, k: nat, o: Observation, isManual: bool)
    requires k <= |sorted| && Chasing(t)
    ensures Early(CheckFrom(t, sorted, k, o, isManual).events) &&
              Relays(CheckFrom(t, sorted, k, o, isManual).events) <= 1
    ensures var out := CheckFrom(t, sorted, k, o, isManual).outcome; out.Ok? ==> Chasing(out.value)
    decreases |sorted| - k
  {
    hide Lower, RelayFailed;
    if k < |sorted| {
      var kind, index := Kind(sorted[k]), sorted[k].index;
      if kind in t.attested {
        CheckEarly(t, sorted, k + 1, o, isManual);
      } else if o.attests(k, index) {
        var recorded := Recorded(t, kind);
        CheckEarly(recorded.outcome.value, sorted, k + 1, o, isManual);
        var others := CheckFrom(recorded.outcome.value, sorted, k + 1, o, isManual);
        RelaysAppend([Asked(kind, index, true)] + recorded.events, others.events);
        RelaysAppend([Asked(kind, index, true)], recorded.events);
      } else {
        RelayEarly(t, kind, o, isManual);
        RelaysAppend([Asked(kind, index, false)], YieldIfOk(AskRelayer(t, kind, o, isManual)).events);
      }
    }
  }

  lemma RelayEarly(t: Transfer, kind: string, o: Observation, isManual: bool)
    requires Chasing(t)
    ensures var p := YieldIfOk(AskRelayer(t, kind, o, isManual));
            Early(p.events) && Relays(p.events) <= 1 && (p.outcome.Ok? ==> Chasing(p.outcome.value))
  {
    hide RelayFailed;
    var p := AskRelayer(t, kind, o, isManual);
    if p.outcome.Ok? {
      RelaysAppend(p.events, [Yielded(p.outcome.value)]);
    }
  }

  /** How often a relayer's status is consulted. */
  function Relays(events: seq<Event>): nat
  {
    if events == [] then 0 else (if events[0].Executor? || events[0].Axelar? then 1 else 0) + Relays(events[1..])
  }

  lemma {:induction false} RelaysAppend(a: seq<Event>, b: seq<Event>)
    ensures Relays(a + b) == Relays(a) + Relays(b)
  {
    if a == [] {
      assert a + b == b;
    } else {
      assert (a + b)[1..] == a[1..] + b;
      RelaysAppend(a[1..], b);
    }
  }

  lemma FetchApproveEarly(t: Transfer, o: Observation, isManual: bool)
    ensures var p := Then(Fetch(t, o), (x: Transfer) => Approve(x, o, isManual));
            Early(p.events) && Relays(p.events) <= 1
  {
    hide CheckFrom, WormholeLast;
    var fetched := Fetch(t, o);
    if fetched.outcome.Ok? {
      var x := fetched.outcome.value;
      if Chasing(x) {
        CheckEarly(x, WormholeLast(x.sendTransceivers), 0, o, isManual);
      }
      ApproveRelays(x, o, isManual);
      RelaysAppend(fetched.events, Approve(x, o, isManual).events);
      if fetched.events != [] {
        assert fetched.events == [fetched.events[0]] + [fetched.events[1]];
        RelaysAppend([fetched.events[0]], [fetched.events[1]]);
      }
    }
  }

  lemma ApproveRelays(t: Transfer, o: Observation, isManual: bool)
    ensures Relays(Approve(t, o, isManual).events) <= 1
  {
    hide CheckFrom, WormholeLast;
    if Chasing(t) && t.attestation.Some? && !o.approved {
      var check := CheckFrom(t, WormholeLast(t.sendTransceivers), 0, o, isManual);
      CheckEarly(t, WormholeLast(t.sendTransceivers), 0, o, isManual);
      RelaysAppend([Approval(false)], check.events);
    } else if Chasing(t) && t.attestation.Some? {
      var e := Approve(t, o, isManual).events[1];
      assert Approve(t, o, isManual).events == [Approval(true)] + [e];
      RelaysAppend([Approval(true)], [e]);
    }
  }

  /** A turn consults at most one relayer, and only its last event can be a final yield. */
  lemma TurnDiscipline(t: Transfer, o: Observation, isManual: bool)
    ensures var events := Turn(t, o, isManual).events;
            && Relays(events) <= 1
            && forall i :: 0 <= i < |events| - 1 ==> !IsFinal(events[i])
    ensures var p := Turn(t, o, isManual);
            p.outcome.Err? ==> forall e :: e in p.events ==> !IsFinal(e)
    ensures var p := Turn(t, o, isManual);
            p.outcome.Ok? ==> p.events != [] && p.events[|p.events| - 1] == Yielded(p.outcome.value)
  {
    hide Fetch, Approve, Settle, Relays, Then;
    FetchApproveEarly(t, o, isManual);
    var approved := Then(Fetch(t, o), (x: Transfer) => Approve(x, o, isManual));
    ThenSettles(approved, o);
    var settled := Then(approved, (x: Transfer) => Settle(x, o));
    if settled.outcome.Ok? {
      YieldedOnce(settled.events, settled.outcome.value);
    }
  }

  lemma YieldedOnce(events: seq<Event>, t: Transfer)
    ensures Relays(events + [Yielded(t)]) == Relays(events)
  {
    RelaysAppend(events, [Yielded(t)]);
    assert [Yielded(t)][1..] == [];
  }

  lemma ThenSettles(p: Phase, o: Observation)
    requires Early(p.events) && Relays(p.events) <= 1
    ensures var settled := Then(p, (x: Transfer) => Settle(x, o));
            Early(settled.events) && Relays(settled.events) <= 1
  {
    if p.outcome.Ok? {
      var settled := Settle(p.outcome.value, o);
      RelaysAppend(p.events, settled.events);
    }
  }

  /** A final receipt is the last thing a run delivered, right after the two answers that make it final. */
  lemma FinalEndsRun(t: Transfer, told: seq<Observation>, leftover: int, isManual: bool, i: nat)
    requires var events := Run(t, told, leftover, isManual).events; i < |events| && IsFinal(events[i])
    ensures var events := Run(t, told, leftover, isManual).events;
            i == |events| - 1 && i >= 2 && events[i - 2] == Queue(None) && events[i - 1] == Executed(true)
  {
    hide Turn, Legal;
    var events := Run(t, told, leftover, isManual).events;
    FinalIsLast(t, told, leftover, isManual, i);
    forall j | 0 <= j < i
      ensures !IsFinal(events[j])
    {
      if IsFinal(events[j]) {
        FinalIsLast(t, told, leftover, isManual, j);
      }
    }
    RunIsLegal(t, told, leftover, isManual);
    FinalAfterAnswers(Scan(isManual, t, []), events, i);
    assert [] + events == events;
  }

  lemma {:induction false} FinalIsLast(t: Transfer, told: seq<Observation>, leftover: int, isManual: bool, i: nat)
    requires var events := Run(t, told, leftover, isManual).events; i < |events| && IsFinal(events[i])
    ensures i == |Run(t, told, leftover, isManual).events| - 1
    decreases |told|
  {
    hide Turn;
    var turn := Turn(t, told[0], isManual);
    TurnDiscipline(t, told[0], isManual);
    if turn.outcome.Ok? && i >= |turn.events| {
      FinalIsLast(turn.outcome.value, told[1..], leftover - told[0].elapsed, isManual, i - |turn.events|);
    }
  }

  /** Completing redeems the attested message exactly while Wormhole's transceiver has not attested it. */
  lemma RedeemsExactlyUnattested(t: Transfer, attests: nat -> bool, vaa: Vaa)
    ensures BuildComplete(t, attests) == Ok(Some(vaa)) <==>
              && Chasing(t) && t.attestation == Some(vaa)
              && exists i :: 0 <= i < |t.sendTransceivers| && IsWormhole(t.sendTransceivers[i])
                   && !attests(t.sendTransceivers[i].index)
                   && forall j :: 0 <= j < i ==> !IsWormhole(t.sendTransceivers[j])
  {
    hide Kind;
    var found := FirstWormhole(t.sendTransceivers);
    if found.Some? {
      var i :| && 0 <= i < |t.sendTransceivers|
               && t.sendTransceivers[i] == found.value && IsWormhole(t.sendTransceivers[i])
               && forall j :: 0 <= j < i ==> !IsWormhole(t.sendTransceivers[j]);
      forall k | 0 <= k < |t.sendTransceivers| && IsWormhole(t.sendTransceivers[k])
                 && forall j :: 0 <= j < k ==> !IsWormhole(t.sendTransceivers[j])
        ensures k == i
      {
        assert !(k < i) && !(i < k);
      }
    }
  }

  // ---------- the code ----------

  /** The record every receipt of a transfer refers to, and which tracking updates in place. */
  class TransceiverAttested {
    var kinds: set<string>
  }

  function Content(r: Receipt<TransceiverAttested>, kinds: set<string>): Transfer
  {
    Receipt(r.state, r.originTxs, r.sendTransceivers, r.attestation, r.error, r.releaseTime, r.destinationTxs, kinds)
  }

  /** The receipts handed out are those of the log; they share one tracking record. */
  ghost predicate Delivered(ys: seq<Receipt<TransceiverAttested>>, info: TransceiverAttested, log: seq<Event>) {
    && |ys| == |Yields(log)|
    && forall i :: 0 <= i < |ys| ==> ys[i].attested == info && Content(ys[i], Yields(log)[i].attested) == Yields(log)[i]
  }

  lemma {:induction false} YieldsAppend(a: seq<Event>, b: seq<Event>)
    ensures Yields(a + b) == Yields(a) + Yields(b)
  {
    if a == [] {
      assert a + b == b && Yields(a) + Yields(b) == Yields(b);
    } else {
      assert (a + b)[1..] == a[1..] + b && (a + b)[0] == a[0];
      YieldsAppend(a[1..], b);
      var head := if a[0].Yielded? then [a[0].transfer] else [];
      assert Yields(a + b) == head + (Yields(a[1..]) + Yields(b));
    }
  }

  lemma TurnInParts(t: Transfer, o: Observation, isManual: bool, earlier: seq<Event>)
    ensures var turn, f := Turn(t, o, isManual), Fetch(t, o);
            if f.outcome.Err? then turn == f else
              var a := Approve(f.outcome.value, o, isManual);
              if a.outcome.Err? then
                turn.outcome == a.outcome && earlier + turn.events == (earlier + f.events) + a.events
              else
                var q := Settle(a.outcome.value, o);
                && turn.outcome == q.outcome
                && earlier + turn.events ==
                     ((earlier + f.events) + a.events) + q.events
                     + (if q.outcome.Ok? then [Yielded(q.outcome.value)] else [])
  {
    hide Fetch, Approve, Settle;
  }

  /** The generator: its receipt, what it has yielded, and the log of what it saw. */
  class Tracker {
    const info: TransceiverAttested
    const isManual: bool
    var receipt: Receipt<TransceiverAttested>
    var delivered: seq<Receipt<TransceiverAttested>>
    ghost var log: seq<Event>

    constructor (receipt: Receipt<TransceiverAttested>, isManual: bool)
      ensures Valid() && this.receipt == receipt && this.info == receipt.attested && this.isManual == isManual
      ensures log == []
    {
      info, this.isManual, this.receipt := receipt.attested, isManual, receipt;
      delivered, log := [], [];
    }

    ghost predicate Valid()
      reads this
    {
      receipt.attested == info && Delivered(delivered, info, log)
    }

    ghost function Now(): Transfer
      reads this, info
    {
      Content(receipt, info.kinds)
    }

    /** The receipt and the log are those the phase gives, run after the earlier events. */
    ghost predicate Did(p: Phase, earlier: seq<Event>, failure: Option<Failure>)
      reads this, info
    {
      && log == earlier + p.events
      && p.outcome == (match failure case None => Ok(Now()) case Some(f) => Err(f))
    }

    ghost method Note(e: Event)
      requires Valid() && !e.Yielded?
      modifies `log
      ensures Valid() && log == old(log) + [e]
    {
      YieldsAppend(log, [e]);
      log := log + [e];
    }

    method Yield()
      requires Valid()
      modifies `delivered, `log
      ensures Valid() && log == old(log) + [Yielded(Now())] && delivered == old(delivered) + [receipt]
    {
      YieldsAppend(log, [Yielded(Now())]);
      assert Yields([Yielded(Now())]) == [Now()];
      delivered := delivered + [receipt];
      log := log + [Yielded(Now())];
    }

    method FetchVaa(o: Observation) returns (failure: Option<Failure>)
      requires Valid()
      modifies this
      ensures Valid() && Did(Fetch(old(Now()), o), old(log), failure)
    {
      if receipt.state == SourceInitiated || receipt.state == SourceFinalized {
        if receipt.originTxs == [] {
          return Some(NoOrigin);
        }
        if !o.message {
          return Some(NoMessage);
        }
        if o.vaa == None {
          return Some(NoVaa);
        }
        Note(Fetched(o.vaa.value));
        receipt := receipt.(state := Attested, attestation := o.vaa);
        Yield();
      }
      return None;
    }

    /** The transceiver attested. */
    method Record(kind: string)
      requires Valid() && Chasing(receipt)
      modifies this, info
      ensures Valid() && Did(Recorded(old(Now()), kind), old(log), None)
    {
      info.kinds := info.kinds + {kind};
      if receipt.state == Failed {
        receipt := receipt.(state := Attested);
        Yield();
      }
    }

    /** The transceiver did not attest: its relayer is consulted. */
    method Relay(kind: string, o: Observation) returns (failure: Option<Failure>)
      requires Valid() && Chasing(receipt)
      modifies this
      ensures Valid() && Did(YieldIfOk(AskRelayer(old(Now()), kind, o, isManual)), old(log), failure)
    {
      hide Relayed, Delivered;
      if kind == "wormhole" {
        if !isManual {
          var tracked := TrackExecutor(receipt, o);
          ContentOfExecutor(receipt, info.kinds, o);
          if tracked.Err? {
            return Some(tracked.error);
          }
          Note(Executor(o.executorStatus.value));
          receipt := tracked.value;
        }
      } else if kind == "axelar" {
        var tracked := TrackAxelar(receipt, o);
        ContentOfAxelar(receipt, info.kinds, o);
        if tracked.Err? {
          return Some(tracked.error);
        }
        Note(Axelar(o.axelarError));
        receipt := tracked.value;
      } else {
        return Some(Unsupported(kind));
      }
      Yield();
      return None;
    }

    method CheckTransceivers(o: Observation) returns (failure: Option<Failure>)
      requires Valid() && Chasing(receipt)
      modifies this, info
      ensures Valid() && Did(CheckFrom(old(Now()), WormholeLast(old(Now()).sendTransceivers), 0, o, isManual),
                             old(log), failure)
    {
      hide Delivered, Recorded, AskRelayer, WormholeLast, Lower;
      var sorted := WormholeLast(receipt.sendTransceivers);
      ghost var whole := CheckFrom(Now(), sorted, 0, o, isManual);
      for k := 0 to |sorted|
        invariant Valid() && Chasing(receipt) && receipt.sendTransceivers == old(receipt.sendTransceivers)
        invariant CheckFrom(Now(), sorted, k, o, isManual).After(log) == whole.After(old(log))
      {
        var kind := Kind(sorted[k]);
        if kind in info.kinds {
          continue;
        }
        ghost var before, seen := log, Now();
        var attested := o.attests(k, sorted[k].index);
        Note(Asked(kind, sorted[k].index, attested));
        if attested {
          Record(kind);
          ghost var rest := CheckFrom(Recorded(seen, kind).outcome.value, sorted, k + 1, o, isManual).events;
          assert before + (([Asked(kind, sorted[k].index, true)] + Recorded(seen, kind).events) + rest) == log + rest;
          continue;
        }
        failure := Relay(kind, o);
        ghost var relayed := YieldIfOk(AskRelayer(seen, kind, o, isManual)).events;
        assert before + ([Asked(kind, sorted[k].index, false)] + relayed) == log;
        return;
      }
      return None;
    }

    method CheckApproval(o: Observation) returns (failure: Option<Failure>)
      requires Valid()
      modifies this, info
      ensures Valid() && Did(Approve(old(Now()), o, isManual), old(log), failure)
    {
      hide CheckFrom, Delivered;
      if receipt.state == Attested || receipt.state == Failed {
        if receipt.attestation == None {
          return Some(NoAttestation);
        }
        Note(Approval(o.approved));
        if o.approved {
          receipt := receipt.(state := DestinationInitiated);
          Yield();
        } else {
          ghost var seen := Now();
          failure := CheckTransceivers(o);
          ghost var checked := CheckFrom(seen, WormholeLast(seen.sendTransceivers), 0, o, isManual).events;
          assert old(log) + ([Approval(false)] + checked) == log;
          return;
        }
      }
      return None;
    }

    method CheckQueue(o: Observation) returns (failure: Option<Failure>)
      requires Valid()
      modifies this
      ensures Valid() && Did(Settle(old(Now()), o), old(log), failure)
    {
      hide Delivered;
      if receipt.state == DestinationInitiated || receipt.state == DestinationQueued {
        if receipt.attestation == None {
          return Some(NoAttestation);
        }
        Note(Queue(o.queued));
        if o.queued.Some? {
          receipt := receipt.(state := DestinationQueued, releaseTime := Some(o.queued.value * 1000));
        } else {
          Note(Executed(o.executed));
          if o.executed {
            receipt := receipt.(state := DestinationFinalized);
          }
        }
      }
      return None;
    }

    method TakeTurn(o: Observation) returns (failure: Option<Failure>)
      requires Valid()
      modifies this, info
      ensures Valid() && Did(Turn(old(Now()), o, isManual), old(log), failure)
    {
      hide Fetch, Approve, Settle, Turn, Delivered;
      TurnInParts(Now(), o, isManual, log);
      failure := FetchVaa(o);
      if failure.Some? {
        return;
      }
      failure := CheckApproval(o);
      if failure.Some? {
        return;
      }
      failure := CheckQueue(o);
      if failure.Some? {
        return;
      }
      Yield();
    }
  }

  lemma ContentOfExecutor(r: Receipt<TransceiverAttested>, kinds: set<string>, o: Observation)
    ensures TrackExecutor(Content(r, kinds), o) ==
              (match TrackExecutor(r, o) case Ok(x) => Ok(Content(x, kinds)) case Err(f) => Err(f))
    ensures TrackExecutor(r, o).Ok? ==> TrackExecutor(r, o).value.attested == r.attested
  {
  }

  lemma ContentOfAxelar(r: Receipt<TransceiverAttested>, kinds: set<string>, o: Observation)
    ensures TrackAxelar(Content(r, kinds), o) ==
              (match TrackAxelar(r, o) case Ok(x) => Ok(Content(x, kinds)) case Err(f) => Err(f))
    ensures TrackAxelar(r, o).Ok? ==> TrackAxelar(r, o).value.attested == r.attested
  {
  }

  /** The first turn of a run that goes on, after what was logged before. */
  lemma RunGoesOn(t: Transfer, told: seq<Observation>, leftover: int, isManual: bool, earlier: seq<Event>)
    requires leftover > 0 && t.state != DestinationFinalized && told != []
    ensures var turn := Turn(t, told[0], isManual);
            Run(t, told, leftover, isManual).After(earlier) ==
              if turn.outcome.Err? then turn.After(earlier)
              else Run(turn.outcome.value, told[1..], leftover - told[0].elapsed, isManual).After(earlier + turn.events)
  {
    hide Turn;
    var turn := Turn(t, told[0], isManual);
    if turn.outcome.Ok? {
      var rest := Run(turn.outcome.value, told[1..], leftover - told[0].elapsed, isManual);
      assert earlier + (turn.events + rest.events) == (earlier + turn.events) + rest.events;
    }
  }

  /** The loop over turns; the telling may stop anywhere, as a consumer of the generator may. */
  method TrackTransfer(first: Receipt<TransceiverAttested>, isManual: bool, timeout: Option<int>,
                       told: seq<Observation>)
    returns (delivered: seq<Receipt<TransceiverAttested>>, outcome: Result<Receipt<TransceiverAttested>, Failure>,
             ghost log: seq<Event>)
    modifies first.attested
    ensures var run := Run(old(Content(first, first.attested.kinds)), told, Budget(timeout), isManual);
            && log == run.events && Delivered(delivered, first.attested, log)
            && (outcome.Err? <==> run.outcome.Err?)
            && (outcome.Err? ==> outcome.error == run.outcome.error)
            && (outcome.Ok? ==> outcome.value.attested == first.attested)
            && (outcome.Ok? ==> Content(outcome.value, first.attested.kinds) == run.outcome.value)
  {
    hide Delivered, Turn, Run;
    var tracker := new Tracker(first, isManual);
    var leftover := Budget(timeout);
    ghost var whole := Run(tracker.Now(), told, leftover, isManual);
    assert told[0..] == told;
    var i := 0;
    while leftover > 0 && tracker.receipt.state != DestinationFinalized && i < |told|
      invariant i <= |told| && tracker.Valid()
      invariant Run(tracker.Now(), told[i..], leftover, isManual).After(tracker.log) == whole
      decreases |told| - i
    {
      RunGoesOn(tracker.Now(), told[i..], leftover, isManual, tracker.log);
      var failure := tracker.TakeTurn(told[i]);
      if failure.Some? {
        return tracker.delivered, Err(failure.value), tracker.log;
      }
      assert told[i..][1..] == told[i + 1..];
      leftover := leftover - told[i].elapsed;
      i := i + 1;
    }
    RunStops(tracker.Now(), told[i..], leftover, isManual);
    return tracker.delivered, Ok(tracker.receipt), tracker.log;
  }

  lemma RunStops(t: Transfer, told: seq<Observation>, leftover: int, isManual: bool)
    requires leftover <= 0 || t.state == DestinationFinalized || told == []
    ensures Run(t, told, leftover, isManual) == Phase([], Ok(t))
  {
  }
}

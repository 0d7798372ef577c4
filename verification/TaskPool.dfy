/**
 * The two-lane task pool as a transition system. One step resumes one worker, or the
 * sequential lane, and runs it up to its next await. A task is a run of segments separated
 * by awaits; segment 0 runs when the task is called.
 */
module TaskPool {
  import opened Outcomes

  /** Which lane each item is in, how many segments its task has, and what it resolves to. */
  datatype Config<R> = Config(inSequence: seq<bool>, segments: seq<nat>, values: seq<R>) {
    ghost predicate Valid() {
      && |inSequence| == |segments| == |values|
      && forall i :: 0 <= i < |segments| ==> segments[i] >= 1
    }

    function Pooled(): (idx: seq<nat>)
      ensures forall p :: 0 <= p < |idx| ==> idx[p] < |inSequence| && !inSequence[idx[p]]
    {
      Where(inSequence, false)
    }

    function Sequential(): (idx: seq<nat>)
      ensures forall p :: 0 <= p < |idx| ==> idx[p] < |inSequence| && inSequence[idx[p]]
    {
      Where(inSequence, true)
    }
  }

  datatype Status = Fresh | InTask(slot: nat, ran: nat) | Returned

  datatype Event = Segment(item: nat, step: nat)

  datatype State<R> = State(next: nat, workers: seq<Status>, lane: Status, results: seq<Option<R>>, log: seq<Event>)

  datatype Actor = Worker(w: nat) | Lane

  /** The indices that hold the flag, in order. */
  function Where(flags: seq<bool>, flag: bool): (idx: seq<nat>)
    ensures forall p :: 0 <= p < |idx| ==> idx[p] < |flags| && flags[idx[p]] == flag
    ensures forall p, q :: 0 <= p < q < |idx| ==> idx[p] < idx[q]
    ensures forall i :: 0 <= i < |flags| && flags[i] == flag ==> i in idx
  {
    if flags == [] then [] else
      var n := |flags| - 1;
      var shorter := Where(flags[..n], flag);
      assert forall i :: 0 <= i < n && flags[i] == flag ==> flags[..n][i] == flag && i in shorter;
      if flags[n] == flag then shorter + [n] else shorter
  }

  function Init<R>(c: Config<R>, workerCount: nat): State<R>
  {
    State(0, seq(workerCount, _ => Fresh), Fresh, seq(|c.values|, _ => None), [])
  }

  function TakeNext<R>(c: Config<R>, s: State<R>, w: nat): State<R>
    requires c.Valid() && w < |s.workers|
  {
    if s.next < |c.Pooled()| then
      s.(next := s.next + 1, workers := s.workers[w := InTask(s.next, 1)],
         log := s.log + [Segment(c.Pooled()[s.next], 0)])
    else
      s.(next := s.next + 1, workers := s.workers[w := Returned])
  }

  /** A worker's task resolves: its result is written, and the pool's own await comes before the next take. */
  function Release<R>(c: Config<R>, s: State<R>, w: nat): State<R>
    requires Shaped(c, s) && w < |s.workers| && s.workers[w].InTask?
  {
    var item := c.Pooled()[s.workers[w].slot];
    s.(results := s.results[item := Some(c.values[item])], workers := s.workers[w := Fresh])
  }

  function EnterLane<R>(c: Config<R>, s: State<R>, slot: nat): State<R>
    requires c.Valid()
  {
    if slot < |c.Sequential()| then
      s.(lane := InTask(slot, 1), log := s.log + [Segment(c.Sequential()[slot], 0)])
    else
      s.(lane := Returned)
  }

  ghost predicate Shaped<R>(c: Config<R>, s: State<R>) {
    && c.Valid()
    && |s.results| == |c.values|
    && (forall w :: 0 <= w < |s.workers| && s.workers[w].InTask? ==> s.workers[w].slot < |c.Pooled()|)
    && (s.lane.InTask? ==> s.lane.slot < |c.Sequential()|)
  }

  predicate Enabled<R>(s: State<R>, a: Actor) {
    match a
    case Worker(w) => w < |s.workers| && s.workers[w] != Returned
    case Lane => s.lane != Returned
  }

  function Resume<R>(c: Config<R>, s: State<R>, a: Actor): State<R>
    requires Shaped(c, s) && Enabled(s, a)
  {
    match a
    case Worker(w) =>
      if s.workers[w] == Fresh then TakeNext(c, s, w)
      else
        var InTask(slot, ran) := s.workers[w];
        var item := c.Pooled()[slot];
        if ran < c.segments[item] then
          s.(workers := s.workers[w := InTask(slot, ran + 1)], log := s.log + [Segment(item, ran)])
        else Release(c, s, w)
    case Lane =>
      if s.lane == Fresh then EnterLane(c, s, 0)
      else
        var InTask(slot, ran) := s.lane;
        var item := c.Sequential()[slot];
        if ran < c.segments[item] then
          s.(lane := InTask(slot, ran + 1), log := s.log + [Segment(item, ran)])
        else
          EnterLane(c, s.(results := s.results[item := Some(c.values[item])]), slot + 1)
  }

  predicate Done<R>(s: State<R>) {
    s.lane == Returned && forall w :: 0 <= w < |s.workers| ==> s.workers[w] == Returned
  }

  // ---------- what every schedule keeps ----------

  /** The segments of one item's task, in the order they ran. */
  function Steps(log: seq<Event>, item: nat): seq<nat>
  {
    if log == [] then [] else
      var n := |log| - 1;
      Steps(log[..n], item) + (if log[n].item == item then [log[n].step] else [])
  }

  function UpTo(k: nat): seq<nat> { seq(k, i => i) }

  lemma StepsAppend(log: seq<Event>, e: Event, item: nat)
    ensures Steps(log + [e], item) == Steps(log, item) + (if e.item == item then [e.step] else [])
  {
    assert (log + [e])[..|log|] == log;
  }

  /** What an item shows: the segments that have run, and its result. */
  datatype View<R> = View(steps: seq<nat>, result: Option<R>)

  function ViewOf<R>(s: State<R>, item: nat): View<R>
    requires item < |s.results|
  {
    View(Steps(s.log, item), s.results[item])
  }

  function Waiting<R>(): View<R> { View([], None) }

  function Running<R>(ran: nat): View<R> { View(UpTo(ran), None) }

  function Finished<R>(c: Config<R>, item: nat): View<R>
    requires c.Valid() && item < |c.values|
  {
    View(UpTo(c.segments[item]), Some(c.values[item]))
  }

  predicate Holds(workers: seq<Status>, w: nat, slot: nat) {
    w < |workers| && workers[w].InTask? && workers[w].slot == slot
  }

  ghost predicate Free(workers: seq<Status>, slot: nat) { forall w: nat :: !Holds(workers, w, slot) }

  ghost function Views<R>(s: State<R>): (views: seq<View<R>>)
    ensures |views| == |s.results|
    ensures forall i :: 0 <= i < |views| ==> views[i] == ViewOf(s, i)
  {
    seq(|s.results|, i requires 0 <= i < |s.results| => ViewOf(s, i))
  }

  ghost predicate Distinct(items: seq<nat>, n: nat) {
    && (forall p :: 0 <= p < |items| ==> items[p] < n)
    && (forall p, q :: 0 <= p < q < |items| ==> items[p] != items[q])
  }

  /** The pooled lane: slots from next on wait, held slots run, the others have finished. */
  ghost predicate PoolOk<R>(c: Config<R>, pooled: seq<nat>, next: nat, workers: seq<Status>, views: seq<View<R>>) {
    && c.Valid() && |views| == |c.values| && Distinct(pooled, |views|)
    && (forall w: nat, p: nat :: Holds(workers, w, p) ==>
          && p < next && p < |pooled|
          && 1 <= workers[w].ran <= c.segments[pooled[p]] && views[pooled[p]] == Running(workers[w].ran))
    && (forall w: nat, w': nat, p: nat :: Holds(workers, w, p) && Holds(workers, w', p) ==> w == w')
    && (forall p :: next <= p < |pooled| ==> views[pooled[p]] == Waiting())
    && (forall p :: 0 <= p < next && p < |pooled| && Free(workers, p) ==> views[pooled[p]] == Finished(c, pooled[p]))
    && (forall w :: 0 <= w < |workers| && workers[w] == Returned ==> |pooled| <= next)
  }

  /** The sequential lane: slots before the current one have finished, later ones wait. */
  ghost predicate LaneOk<R>(c: Config<R>, items: seq<nat>, lane: Status, views: seq<View<R>>) {
    && c.Valid() && |views| == |c.values| && Distinct(items, |views|)
    && (lane.InTask? ==>
          && lane.slot < |items|
          && 1 <= lane.ran <= c.segments[items[lane.slot]] && views[items[lane.slot]] == Running(lane.ran))
    && var slot := LaneSlot(items, lane);
    && (forall p :: 0 <= p < slot && p < |items| ==> views[items[p]] == Finished(c, items[p]))
    && (forall p :: (if lane.InTask? then slot + 1 else slot) <= p < |items| ==> views[items[p]] == Waiting())
  }

  function LaneSlot(items: seq<nat>, lane: Status): nat
  {
    match lane case Fresh => 0 case InTask(slot, _) => slot case Returned => |items|
  }

  ghost predicate Inv<R>(c: Config<R>, s: State<R>) {
    && Shaped(c, s)
    && PoolOk(c, c.Pooled(), s.next, s.workers, Views(s))
    && LaneOk(c, c.Sequential(), s.lane, Views(s))
  }

  lemma LanesDisjoint<R>(c: Config<R>)
    requires c.Valid()
    ensures Distinct(c.Pooled(), |c.values|) && Distinct(c.Sequential(), |c.values|)
    ensures forall p, q :: 0 <= p < |c.Pooled()| && 0 <= q < |c.Sequential()| ==> c.Pooled()[p] != c.Sequential()[q]
  {
  }

  // One worker's or the lane's move, as an update of one view.

  lemma PoolAdvances<R>(c: Config<R>, pooled: seq<nat>, next: nat, workers: seq<Status>, views: seq<View<R>>, w: nat,
                        p: nat)
    requires PoolOk(c, pooled, next, workers, views) && Holds(workers, w, p) && workers[w].ran < c.segments[pooled[p]]
    ensures PoolOk(c, pooled, next, workers[w := InTask(p, workers[w].ran + 1)],
                   views[pooled[p] := Running(workers[w].ran + 1)])
  {
    hide UpTo;
    var workers' := workers[w := InTask(p, workers[w].ran + 1)];
    assert forall v: nat, q: nat :: Holds(workers', v, q) <==> Holds(workers, v, q);
    SameHolders(workers, workers');
  }

  lemma PoolReleases<R>(c: Config<R>, pooled: seq<nat>, next: nat, workers: seq<Status>, views: seq<View<R>>, w: nat,
                        p: nat)
    requires PoolOk(c, pooled, next, workers, views) && Holds(workers, w, p)
    ensures PoolOk(c, pooled, next, workers[w := Fresh], views[pooled[p] := Finished(c, pooled[p])])
  {
    hide UpTo;
    var workers' := workers[w := Fresh];
    assert forall v: nat, q: nat :: Holds(workers', v, q) <==> Holds(workers, v, q) && v != w;
    forall q: nat | q != p && Free(workers', q)
      ensures Free(workers, q)
    {
      assert forall v: nat :: Holds(workers, v, q) ==> Holds(workers', v, q);
    }
  }

  lemma PoolTakes<R>(c: Config<R>, pooled: seq<nat>, next: nat, workers: seq<Status>, views: seq<View<R>>, w: nat)
    requires PoolOk(c, pooled, next, workers, views) && w < |workers| && workers[w] == Fresh && next < |pooled|
    ensures PoolOk(c, pooled, next + 1, workers[w := InTask(next, 1)], views[pooled[next] := Running(1)])
  {
    hide UpTo;
    var workers' := workers[w := InTask(next, 1)];
    assert Holds(workers', w, next);
    assert forall v: nat, q: nat :: Holds(workers', v, q) <==> Holds(workers, v, q) || (v == w && q == next);
    forall q: nat | q != next && Free(workers', q)
      ensures Free(workers, q)
    {
      assert forall v: nat :: Holds(workers, v, q) ==> Holds(workers', v, q);
    }
  }

  lemma PoolReturns<R>(c: Config<R>, pooled: seq<nat>, next: nat, workers: seq<Status>, views: seq<View<R>>, w: nat)
    requires PoolOk(c, pooled, next, workers, views) && w < |workers| && workers[w] == Fresh && next >= |pooled|
    ensures PoolOk(c, pooled, next + 1, workers[w := Returned], views)
  {
    hide UpTo;
    var workers' := workers[w := Returned];
    assert forall v: nat, q: nat :: Holds(workers', v, q) <==> Holds(workers, v, q);
    SameHolders(workers, workers');
  }

  lemma PoolFrame<R>(c: Config<R>, pooled: seq<nat>, next: nat, workers: seq<Status>, views: seq<View<R>>, item: nat,
                     v: View<R>)
    requires PoolOk(c, pooled, next, workers, views) && item < |views| && item !in pooled
    ensures PoolOk(c, pooled, next, workers, views[item := v])
  {
    hide UpTo;
  }

  lemma LaneFrame<R>(c: Config<R>, items: seq<nat>, lane: Status, views: seq<View<R>>, item: nat, v: View<R>)
    requires LaneOk(c, items, lane, views) && item < |views| && item !in items
    ensures LaneOk(c, items, lane, views[item := v])
  {
    hide UpTo;
  }

  lemma LaneAdvances<R>(c: Config<R>, items: seq<nat>, lane: Status, views: seq<View<R>>)
    requires LaneOk(c, items, lane, views) && lane.InTask? && lane.ran < c.segments[items[lane.slot]]
    ensures LaneOk(c, items, InTask(lane.slot, lane.ran + 1), views[items[lane.slot] := Running(lane.ran + 1)])
  {
    hide UpTo;
  }

  /** The lane between two tasks: it has finished the slots before the given one and begun no other. */
  ghost predicate LaneBetween<R>(c: Config<R>, items: seq<nat>, slot: nat, views: seq<View<R>>) {
    && c.Valid() && |views| == |c.values| && Distinct(items, |views|) && slot <= |items|
    && (forall p :: 0 <= p < slot ==> views[items[p]] == Finished(c, items[p]))
    && (forall p :: slot <= p < |items| ==> views[items[p]] == Waiting())
  }

  lemma LaneFinishes<R>(c: Config<R>, items: seq<nat>, lane: Status, views: seq<View<R>>)
    requires LaneOk(c, items, lane, views) && lane.InTask?
    ensures LaneBetween(c, items, lane.slot + 1, views[items[lane.slot] := Finished(c, items[lane.slot])])
  {
    hide UpTo;
  }

  lemma LaneEnters<R>(c: Config<R>, items: seq<nat>, slot: nat, views: seq<View<R>>)
    requires LaneBetween(c, items, slot, views)
    ensures slot < |items| ==>
              views[items[slot]] == Waiting() && LaneOk(c, items, InTask(slot, 1), views[items[slot] := Running(1)])
    ensures slot == |items| ==> LaneOk(c, items, Returned, views)
  {
    hide UpTo;
  }

  // The views after logging a segment and after writing a result.

  lemma LogSegment<R>(s: State<R>, s': State<R>, item: nat, step: nat)
    requires s'.log == s.log + [Segment(item, step)] && s'.results == s.results && item < |s.results|
    ensures Views(s') == Views(s)[item := View(Views(s)[item].steps + [step], Views(s)[item].result)]
  {
    var updated := Views(s)[item := View(Views(s)[item].steps + [step], Views(s)[item].result)];
    forall i | 0 <= i < |s.results|
      ensures Views(s')[i] == updated[i]
    {
      StepsAppend(s.log, Segment(item, step), i);
      assert Steps(s.log, i) + [] == Steps(s.log, i);
      assert Views(s')[i] == ViewOf(s', i);
    }
  }

  lemma WriteResult<R>(s: State<R>, s': State<R>, item: nat, value: R)
    requires item < |s.results| && s'.log == s.log && s'.results == s.results[item := Some(value)]
    ensures Views(s') == Views(s)[item := View(Views(s)[item].steps, Some(value))]
  {
  }

  lemma SameViews<R>(s: State<R>, s': State<R>)
    requires s'.log == s.log && s'.results == s.results
    ensures Views(s') == Views(s)
  {
  }

  lemma SameHolders(a: seq<Status>, b: seq<Status>)
    requires forall w: nat, p: nat :: Holds(a, w, p) <==> Holds(b, w, p)
    ensures forall p: nat :: Free(a, p) <==> Free(b, p)
  {
    forall p: nat
      ensures Free(a, p) <==> Free(b, p)
    {
      assert (forall w: nat :: !Holds(a, w, p)) <==> (forall w: nat :: !Holds(b, w, p));
    }
  }

  lemma UpToSteps(k: nat)
    ensures UpTo(k) + [k] == UpTo(k + 1)
    ensures [] + [0] == UpTo(1)
  {
  }

  lemma WorkerAdvances<R>(c: Config<R>, s: State<R>, w: nat)
    requires Inv(c, s) && w < |s.workers| && s.workers[w].InTask?
    requires s.workers[w].ran < c.segments[c.Pooled()[s.workers[w].slot]]
    ensures Inv(c, Resume(c, s, Worker(w)))
  {
    hide PoolOk, LaneOk, Views, UpTo, Where, Config.Pooled, Config.Sequential;
    LanesDisjoint(c);
    var InTask(slot, ran) := s.workers[w];
    var item, s' := c.Pooled()[slot], Resume(c, s, Worker(w));
    HeldRunning(c, s, w);
    LogSegment(s, s', item, ran);
    UpToSteps(ran);
    PoolAdvances(c, c.Pooled(), s.next, s.workers, Views(s), w, slot);
    LaneFrame(c, c.Sequential(), s.lane, Views(s), item, Running(ran + 1));
  }

  lemma ReleaseKeeps<R>(c: Config<R>, s: State<R>, w: nat)
    requires Inv(c, s) && w < |s.workers| && s.workers[w].InTask?
    requires s.workers[w].ran == c.segments[c.Pooled()[s.workers[w].slot]]
    ensures Inv(c, Release(c, s, w))
  {
    hide PoolOk, LaneOk, Views, UpTo, Where, Config.Pooled, Config.Sequential;
    LanesDisjoint(c);
    var InTask(slot, ran) := s.workers[w];
    var item, s' := c.Pooled()[slot], Release(c, s, w);
    HeldRunning(c, s, w);
    WriteResult(s, s', item, c.values[item]);
    PoolReleases(c, c.Pooled(), s.next, s.workers, Views(s), w, slot);
    LaneFrame(c, c.Sequential(), s.lane, Views(s), item, Finished(c, item));
  }

  lemma TakeNextKeeps<R>(c: Config<R>, s: State<R>, w: nat)
    requires Inv(c, s) && w < |s.workers| && s.workers[w] == Fresh
    ensures Inv(c, TakeNext(c, s, w))
  {
    hide PoolOk, LaneOk, Views, UpTo, Where, Config.Pooled, Config.Sequential;
    LanesDisjoint(c);
    var s' := TakeNext(c, s, w);
    if s.next < |c.Pooled()| {
      var item := c.Pooled()[s.next];
      NextItemWaits(c, s);
      LogSegment(s, s', item, 0);
      UpToSteps(0);
      PoolTakes(c, c.Pooled(), s.next, s.workers, Views(s), w);
      LaneFrame(c, c.Sequential(), s.lane, Views(s), item, Running(1));
    } else {
      SameViews(s, s');
      PoolReturns(c, c.Pooled(), s.next, s.workers, Views(s), w);
    }
  }

  lemma NextItemWaits<R>(c: Config<R>, s: State<R>)
    requires Inv(c, s) && s.next < |c.Pooled()|
    ensures Views(s)[c.Pooled()[s.next]] == Waiting()
  {
    hide Views, Where, LaneOk;
  }

  lemma LaneItemRuns<R>(c: Config<R>, s: State<R>)
    requires Inv(c, s) && s.lane.InTask?
    ensures Views(s)[c.Sequential()[s.lane.slot]] == Running(s.lane.ran)
  {
    hide Views, Where, PoolOk;
  }

  lemma LaneStepKeeps<R>(c: Config<R>, s: State<R>)
    requires Inv(c, s) && s.lane.InTask? && s.lane.ran < c.segments[c.Sequential()[s.lane.slot]]
    ensures Inv(c, Resume(c, s, Lane))
  {
    hide PoolOk, LaneOk, Views, Where, Config.Pooled, Config.Sequential;
    var item := c.Sequential()[s.lane.slot];
    LaneItemRuns(c, s);
    LaneLogs(c, s, Resume(c, s, Lane), item, s.lane.ran);
    LaneAdvances(c, c.Sequential(), s.lane, Views(s));
  }

  lemma EnterLaneKeeps<R>(c: Config<R>, s: State<R>, slot: nat)
    requires Shaped(c, s) && PoolOk(c, c.Pooled(), s.next, s.workers, Views(s))
    requires LaneBetween(c, c.Sequential(), slot, Views(s))
    ensures Inv(c, EnterLane(c, s, slot))
  {
    assert slot <= |c.Sequential()|;
    hide PoolOk, LaneOk, LaneBetween, Views, Where, UpTo, Config.Pooled, Config.Sequential;
    LaneEnters(c, c.Sequential(), slot, Views(s));
    UpToSteps(0);
    if slot < |c.Sequential()| {
      LaneLogs(c, s, EnterLane(c, s, slot), c.Sequential()[slot], 0);
    } else {
      SameViews(s, EnterLane(c, s, slot));
    }
  }

  lemma LaneFinishKeeps<R>(c: Config<R>, s: State<R>)
    requires Inv(c, s) && s.lane.InTask? && s.lane.ran == c.segments[c.Sequential()[s.lane.slot]]
    ensures Inv(c, Resume(c, s, Lane))
  {
    hide PoolOk, LaneOk, LaneBetween, Views, Where, UpTo, Config.Pooled, Config.Sequential;
    LanesDisjoint(c);
    var item := c.Sequential()[s.lane.slot];
    var s1 := s.(results := s.results[item := Some(c.values[item])]);
    LaneItemRuns(c, s);
    WriteResult(s, s1, item, c.values[item]);
    PoolFrame(c, c.Pooled(), s.next, s.workers, Views(s), item, Finished(c, item));
    LaneFinishes(c, c.Sequential(), s.lane, Views(s));
    EnterLaneKeeps(c, s1, s.lane.slot + 1);
  }

  lemma LaneLogs<R>(c: Config<R>, s: State<R>, s': State<R>, item: nat, k: nat)
    requires Shaped(c, s) && PoolOk(c, c.Pooled(), s.next, s.workers, Views(s))
    requires item < |c.values| && item in c.Sequential() && Views(s)[item] == View(UpTo(k), None)
    requires s'.log == s.log + [Segment(item, k)] &&
              s'.results == s.results && s'.workers == s.workers && s'.next == s.next
    ensures Views(s') == Views(s)[item := Running(k + 1)]
    ensures PoolOk(c, c.Pooled(), s'.next, s'.workers, Views(s'))
  {
    LanesDisjoint(c);
    hide PoolOk, LaneOk, Views, UpTo, Where, Config.Pooled, Config.Sequential;
    LogSegment(s, s', item, k);
    UpToSteps(k);
    PoolFrame(c, c.Pooled(), s.next, s.workers, Views(s), item, Running(k + 1));
  }

  lemma FreshLaneBetween<R>(c: Config<R>, s: State<R>)
    requires Inv(c, s) && s.lane == Fresh
    ensures LaneBetween(c, c.Sequential(), 0, Views(s))
  {
  }

  lemma HeldRunning<R>(c: Config<R>, s: State<R>, w: nat)
    requires Inv(c, s) && w < |s.workers| && s.workers[w].InTask?
    ensures var InTask(slot, ran) := s.workers[w];
            && Holds(s.workers, w, slot) && ran <= c.segments[c.Pooled()[slot]]
            && Views(s)[c.Pooled()[slot]] == Running(ran)
  {
    hide Views, Where, LaneOk;
    assert Holds(s.workers, w, s.workers[w].slot);
  }

  lemma ResumeKeeps<R>(c: Config<R>, s: State<R>, a: Actor)
    requires Inv(c, s) && Enabled(s, a)
    ensures Inv(c, Resume(c, s, a))
  {
    hide Config.Pooled, Config.Sequential, Where, PoolOk, LaneOk, Views;
    match a {
      case Worker(w) =>
        if s.workers[w] == Fresh {
          TakeNextKeeps(c, s, w);
        } else if s.workers[w].ran < c.segments[c.Pooled()[s.workers[w].slot]] {
          WorkerAdvances(c, s, w);
        } else {
          HeldRunning(c, s, w);
          ReleaseKeeps(c, s, w);
        }
      case Lane =>
        if s.lane.InTask? && s.lane.ran < c.segments[c.Sequential()[s.lane.slot]] {
          LaneStepKeeps(c, s);
        } else {
          LaneRanBound(c, s);
          if s.lane == Fresh {
            FreshLaneBetween(c, s);
            EnterLaneKeeps(c, s, 0);
          } else {
            LaneFinishKeeps(c, s);
          }
        }
    }
  }

  /** Nothing has run yet: every item waits. */
  lemma InitViews<R>(c: Config<R>, workerCount: nat)
    ensures |Views(Init(c, workerCount))| == |c.values|
    ensures forall i :: 0 <= i < |c.values| ==> Views(Init(c, workerCount))[i] == Waiting()
  {
  }

  lemma InitHolds<R>(c: Config<R>, workerCount: nat)
    requires c.Valid()
    ensures Inv(c, Init(c, workerCount))
  {
    LanesDisjoint(c);
    InitViews(c, workerCount);
    hide Views, Where, Waiting, Config.Pooled, Config.Sequential;
    var s := Init(c, workerCount);
    assert forall w: nat, p: nat :: !Holds(s.workers, w, p);
  }

  /** The state after a schedule; an actor that has returned is never resumed. */
  ghost function Run<R>(c: Config<R>, s: State<R>, schedule: seq<Actor>): State<R>
    requires Inv(c, s)
    decreases |schedule|
  {
    if schedule == [] then s
    else if Enabled(s, schedule[0]) then
      ResumeKeeps(c, s, schedule[0]);
      Run(c, Resume(c, s, schedule[0]), schedule[1..])
    else
      Run(c, s, schedule[1..])
  }

  lemma {:induction false} RunKeeps<R>(c: Config<R>, s: State<R>, schedule: seq<Actor>)
    requires Inv(c, s)
    ensures Inv(c, Run(c, s, schedule))
    decreases |schedule|
  {
    hide Inv, Resume;
    if schedule != [] {
      if Enabled(s, schedule[0]) {
        InvShaped(c, s);
        ResumeKeeps(c, s, schedule[0]);
        RunKeeps(c, Resume(c, s, schedule[0]), schedule[1..]);
      } else {
        RunKeeps(c, s, schedule[1..]);
      }
    }
  }

  /** When every worker has returned, the pool has computed the plain map, one task per item. */
  lemma PoolRefinesMap<R>(c: Config<R>, s: State<R>)
    requires Inv(c, s) && Done(s) && (c.Pooled() != [] ==> s.workers != [])
    ensures forall i :: 0 <= i < |c.values| ==> ViewOf(s, i) == Finished(c, i)
  {
    hide ViewOf, Where;
    forall i | 0 <= i < |c.values|
      ensures ViewOf(s, i) == Finished(c, i)
    {
      if c.inSequence[i] {
        AllPlaced(c, i);
        var p :| 0 <= p < |c.Sequential()| && c.Sequential()[p] == i;
      } else {
        AllPlaced(c, i);
        var p :| 0 <= p < |c.Pooled()| && c.Pooled()[p] == i;
        assert s.workers[0] == Returned;
        assert Free(s.workers, p);
      }
    }
  }

  lemma AllPlaced<R>(c: Config<R>, item: nat)
    requires item < |c.inSequence|
    ensures item in (if c.inSequence[item] then c.Sequential() else c.Pooled())
  {
  }

  lemma InvShaped<R>(c: Config<R>, s: State<R>)
    requires Inv(c, s)
    ensures Shaped(c, s)
  {
  }

  lemma LaneRanBound<R>(c: Config<R>, s: State<R>)
    requires Inv(c, s)
    ensures s.lane.InTask? ==> s.lane.ran <= c.segments[c.Sequential()[s.lane.slot]]
  {
  }
}

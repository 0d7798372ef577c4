/** What holds over whole schedules of the pool: they end, the sequential lane keeps its order, little is in flight. */
module PoolSchedules {
  import opened Outcomes
  import opened TaskPool

  // ---------- every schedule ends ----------

  /** Resumptions left for a task that has run some of its segments, and for one not begun. */
  function TaskWork<R>(c: Config<R>, item: nat, ran: nat): nat
    requires item < |c.segments|
  {
    if ran <= c.segments[item] then c.segments[item] - ran + 2 else 2
  }

  function LaneWork<R>(c: Config<R>, items: seq<nat>): nat
    requires forall p :: 0 <= p < |items| ==> items[p] < |c.segments|
  {
    if items == [] then 0 else TaskWork(c, items[0], 0) + LaneWork(c, items[1..])
  }

  function StatusWork<R>(c: Config<R>, items: seq<nat>, status: Status): nat
    requires forall p :: 0 <= p < |items| ==> items[p] < |c.segments|
    requires status.InTask? ==> status.slot < |items|
  {
    match status
    case Fresh => 1
    case Returned => 0
    case InTask(slot, ran) => TaskWork(c, items[slot], ran)
  }

  function WorkersWork<R>(c: Config<R>, workers: seq<Status>): nat
    requires c.Valid()
    requires forall w :: 0 <= w < |workers| && workers[w].InTask? ==> workers[w].slot < |c.Pooled()|
  {
    if workers == [] then 0 else StatusWork(c, c.Pooled(), workers[0]) + WorkersWork(c, workers[1..])
  }

  function Work<R>(c: Config<R>, s: State<R>): nat
    requires Shaped(c, s)
  {
    (if s.next <= |c.Pooled()| then LaneWork(c, c.Pooled()[s.next..]) else 0)
    + WorkersWork(c, s.workers)
    + (match s.lane
       case Fresh => 1 + LaneWork(c, c.Sequential())
       case Returned => 0
       case InTask(slot, ran) =>
         StatusWork(c, c.Sequential(), s.lane) + LaneWork(c, c.Sequential()[slot + 1..]))
  }

  lemma {:induction false} WorkersWorkUpdate<R>(c: Config<R>, workers: seq<Status>, w: nat, status: Status)
    requires c.Valid() && w < |workers|
    requires forall v :: 0 <= v < |workers| && workers[v].InTask? ==> workers[v].slot < |c.Pooled()|
    requires status.InTask? ==> status.slot < |c.Pooled()|
    ensures WorkersWork(c, workers[w := status]) + StatusWork(c, c.Pooled(), workers[w])
         == WorkersWork(c, workers) + StatusWork(c, c.Pooled(), status)
  {
    hide Config.Pooled, StatusWork;
    var updated := workers[w := status];
    if w == 0 {
      assert updated[1..] == workers[1..];
    } else {
      WorkersWorkUpdate(c, workers[1..], w - 1, status);
      assert updated[1..] == workers[1..][w - 1 := status];
    }
  }

  lemma LaneWorkStep<R>(c: Config<R>, items: seq<nat>, p: nat)
    requires p < |items| && forall q :: 0 <= q < |items| ==> items[q] < |c.segments|
    ensures LaneWork(c, items[p..]) == TaskWork(c, items[p], 0) + LaneWork(c, items[p + 1..])
  {
    assert items[p..][1..] == items[p + 1..];
  }

  lemma TakeNextWork<R>(c: Config<R>, s: State<R>, w: nat)
    requires Shaped(c, s) && w < |s.workers|
    ensures Shaped(c, TakeNext(c, s, w))
    ensures Work(c, TakeNext(c, s, w)) + StatusWork(c, c.Pooled(), s.workers[w]) <= Work(c, s)
  {
    hide Where, LaneWork, WorkersWork, Config.Pooled, Config.Sequential;
    var s' := TakeNext(c, s, w);
    WorkersWorkUpdate(c, s.workers, w, s'.workers[w]);
    assert s'.workers == s.workers[w := s'.workers[w]];
    if s.next < |c.Pooled()| {
      LaneWorkStep(c, c.Pooled(), s.next);
    } else if s.next == |c.Pooled()| {
      assert c.Pooled()[s.next..] == [];
    }
  }

  lemma EnterLaneWork<R>(c: Config<R>, s: State<R>, slot: nat)
    requires Shaped(c, s) && slot <= |c.Sequential()|
    ensures Shaped(c, EnterLane(c, s, slot))
    ensures Work(c, EnterLane(c, s, slot)) <= Work(c, s.(lane := Returned)) + LaneWork(c, c.Sequential()[slot..])
  {
    hide Where, LaneWork, WorkersWork, Config.Pooled, Config.Sequential;
    if slot < |c.Sequential()| {
      LaneWorkStep(c, c.Sequential(), slot);
    }
  }

  lemma WorkerDecreases<R>(c: Config<R>, s: State<R>, w: nat)
    requires Inv(c, s) && Enabled(s, Worker(w))
    ensures Shaped(c, Resume(c, s, Worker(w))) && Work(c, Resume(c, s, Worker(w))) < Work(c, s)
  {
    hide Where, LaneWork, WorkersWork, Config.Pooled, Config.Sequential, ViewOf;
    if s.workers[w] == Fresh {
      TakeNextWork(c, s, w);
    } else {
      var InTask(slot, ran) := s.workers[w];
      var item := c.Pooled()[slot];
      if ran < c.segments[item] {
        WorkersWorkUpdate(c, s.workers, w, InTask(slot, ran + 1));
      } else {
        WorkersWorkUpdate(c, s.workers, w, Fresh);
      }
    }
  }

  lemma LaneDecreases<R>(c: Config<R>, s: State<R>)
    requires Inv(c, s) && Enabled(s, Lane)
    ensures Shaped(c, Resume(c, s, Lane)) && Work(c, Resume(c, s, Lane)) < Work(c, s)
  {
    hide Where, LaneWork, WorkersWork, Config.Pooled, Config.Sequential, ViewOf;
    if s.lane == Fresh {
      EnterLaneWork(c, s, 0);
      assert c.Sequential()[0..] == c.Sequential();
    } else {
      var InTask(slot, ran) := s.lane;
      var item := c.Sequential()[slot];
      if ran >= c.segments[item] {
        EnterLaneWork(c, s.(results := s.results[item := Some(c.values[item])]), slot + 1);
      }
    }
  }

  /** Every resumption uses up work. */
  lemma ResumeDecreases<R>(c: Config<R>, s: State<R>, a: Actor)
    requires Inv(c, s) && Enabled(s, a)
    ensures Shaped(c, Resume(c, s, a)) && Work(c, Resume(c, s, a)) < Work(c, s)
  {
    if a == Lane {
      LaneDecreases(c, s);
    } else {
      WorkerDecreases(c, s, a.w);
    }
  }

  /** Every step of the schedule resumes an actor that can run. */
  ghost predicate Productive<R>(c: Config<R>, s: State<R>, schedule: seq<Actor>)
    requires Inv(c, s)
    decreases |schedule|
  {
    schedule != [] ==>
      && Enabled(s, schedule[0])
      && (ResumeKeeps(c, s, schedule[0]); Productive(c, Resume(c, s, schedule[0]), schedule[1..]))
  }

  lemma DoneWhenStuck<R>(s: State<R>)
    ensures Done(s) <==> forall a :: !Enabled(s, a)
  {
    if forall a :: !Enabled(s, a) {
      assert !Enabled(s, Lane);
      forall w | 0 <= w < |s.workers|
        ensures s.workers[w] == Returned
      {
        assert !Enabled(s, Worker(w));
      }
    }
  }

  /** A schedule is no longer than the work at hand, and one that cannot go on has finished it all. */
  lemma {:induction false} SchedulesEnd<R>(c: Config<R>, s: State<R>, schedule: seq<Actor>)
    requires Inv(c, s) && Productive(c, s, schedule)
    ensures |schedule| <= Work(c, s)
    ensures Done(Run(c, s, schedule)) <==> forall a :: !Enabled(Run(c, s, schedule), a)
    decreases |schedule|
  {
    DoneWhenStuck(Run(c, s, schedule));
    if schedule != [] {
      ResumeKeeps(c, s, schedule[0]);
      ResumeDecreases(c, s, schedule[0]);
      SchedulesEnd(c, Resume(c, s, schedule[0]), schedule[1..]);
    }
  }

  // ---------- the sequential lane's order, and how much is in flight ----------

  function LaneEvents(log: seq<Event>, inSequence: seq<bool>): seq<Event>
  {
    if log == [] then [] else
      var n := |log| - 1;
      LaneEvents(log[..n], inSequence) +
      (if log[n].item < |inSequence| && inSequence[log[n].item] then [log[n]] else [])
  }

  function TaskEvents(item: nat, k: nat): seq<Event> { seq(k, (step: nat) => Segment(item, step)) }

  /** One task after another, in input order: what a plain loop over the lane would log. */
  function PlainRun<R>(c: Config<R>, slots: nat): seq<Event>
    requires c.Valid() && slots <= |c.Sequential()|
  {
    if slots == 0 then [] else
      var item := c.Sequential()[slots - 1];
      PlainRun(c, slots - 1) + TaskEvents(item, c.segments[item])
  }

  function LaneTrace<R>(c: Config<R>, lane: Status): seq<Event>
    requires c.Valid() && (lane.InTask? ==> lane.slot < |c.Sequential()|)
  {
    match lane
    case Fresh => []
    case Returned => PlainRun(c, |c.Sequential()|)
    case InTask(slot, ran) => PlainRun(c, slot) + TaskEvents(c.Sequential()[slot], ran)
  }

  ghost predicate LaneInOrder<R>(c: Config<R>, s: State<R>)
    requires Shaped(c, s)
  {
    LaneEvents(s.log, c.inSequence) == LaneTrace(c, s.lane)
  }

  lemma LaneEventsAppend(log: seq<Event>, e: Event, inSequence: seq<bool>)
    ensures LaneEvents(log + [e], inSequence) ==
              LaneEvents(log, inSequence) + (if e.item < |inSequence| && inSequence[e.item] then [e] else [])
  {
    assert (log + [e])[..|log|] == log;
  }

  lemma MoreTaskEvents(item: nat, k: nat)
    ensures TaskEvents(item, k) + [Segment(item, k)] == TaskEvents(item, k + 1)
    ensures TaskEvents(item, 0) == []
  {
  }

  /** A worker's move logs at most one event, of a pooled item. */
  lemma WorkerLogs<R>(c: Config<R>, s: State<R>, w: nat)
    requires Shaped(c, s) && Enabled(s, Worker(w))
    ensures var s' := Resume(c, s, Worker(w));
            && s'.lane == s.lane
            && (s'.log == s.log || exists item: nat, k: nat ::
                  item < |c.inSequence| && !c.inSequence[item] && s'.log == s.log + [Segment(item, k)])
  {
    hide Where, Config.Pooled;
    var s' := Resume(c, s, Worker(w));
    if s.workers[w].InTask? {
      if s.workers[w].ran < c.segments[c.Pooled()[s.workers[w].slot]] {
        assert s'.log == s.log + [Segment(c.Pooled()[s.workers[w].slot], s.workers[w].ran)];
      }
    } else if s.next < |c.Pooled()| {
      assert s'.log == s.log + [Segment(c.Pooled()[s.next], 0)];
    }
  }

  lemma WorkerKeepsLaneOrder<R>(c: Config<R>, s: State<R>, w: nat)
    requires Inv(c, s) && Enabled(s, Worker(w)) && LaneInOrder(c, s)
    ensures Shaped(c, Resume(c, s, Worker(w))) && LaneInOrder(c, Resume(c, s, Worker(w)))
  {
    ResumeKeeps(c, s, Worker(w));
    InvShaped(c, s);
    WorkerLogs(c, s, w);
    hide Where, Resume, Inv, LaneEvents, LaneTrace, Config.Pooled, Config.Sequential;
    var s' := Resume(c, s, Worker(w));
    InvShaped(c, s');
    if s'.log != s.log {
      var item: nat, k: nat :| item < |c.inSequence| && !c.inSequence[item] && s'.log == s.log + [Segment(item, k)];
      LaneEventsAppend(s.log, Segment(item, k), c.inSequence);
    }
  }

  lemma EnterLaneInOrder<R>(c: Config<R>, s: State<R>, slot: nat)
    requires Shaped(c, s) && slot <= |c.Sequential()|
    requires LaneEvents(s.log, c.inSequence) == PlainRun(c, slot)
    ensures Shaped(c, EnterLane(c, s, slot)) && LaneInOrder(c, EnterLane(c, s, slot))
  {
    hide Where, LaneEvents, TaskEvents, PlainRun, Config.Pooled, Config.Sequential;
    if slot < |c.Sequential()| {
      LogsLaneEvent(c, s, EnterLane(c, s, slot), c.Sequential()[slot], 0);
    }
  }

  lemma LaneStepInOrder<R>(c: Config<R>, s: State<R>)
    requires Shaped(c, s) && LaneInOrder(c, s)
    requires s.lane.InTask? && s.lane.ran < c.segments[c.Sequential()[s.lane.slot]]
    ensures Shaped(c, Resume(c, s, Lane)) && LaneInOrder(c, Resume(c, s, Lane))
  {
    hide Where, LaneEvents, TaskEvents, PlainRun, Config.Pooled, Config.Sequential;
    LogsLaneEvent(c, s, Resume(c, s, Lane), c.Sequential()[s.lane.slot], s.lane.ran);
  }

  lemma LaneFinishInOrder<R>(c: Config<R>, s: State<R>)
    requires Shaped(c, s) && LaneInOrder(c, s)
    requires s.lane.InTask? && s.lane.ran == c.segments[c.Sequential()[s.lane.slot]]
    ensures Shaped(c, Resume(c, s, Lane)) && LaneInOrder(c, Resume(c, s, Lane))
  {
    hide Where, LaneEvents, TaskEvents, PlainRun, Config.Pooled, Config.Sequential;
    PlainRunStep(c, s.lane.slot + 1);
    var item := c.Sequential()[s.lane.slot];
    EnterLaneInOrder(c, s.(results := s.results[item := Some(c.values[item])]), s.lane.slot + 1);
  }

  lemma LaneKeepsLaneOrder<R>(c: Config<R>, s: State<R>)
    requires Inv(c, s) && Enabled(s, Lane) && LaneInOrder(c, s)
    ensures Shaped(c, Resume(c, s, Lane)) && LaneInOrder(c, Resume(c, s, Lane))
  {
    InvShaped(c, s);
    LaneRanBound(c, s);
    if s.lane == Fresh {
      PlainRunStep(c, 0);
      EnterLaneInOrder(c, s, 0);
    } else {
      hide Where, Inv, LaneInOrder, Config.Pooled, Config.Sequential;
      if s.lane.ran < c.segments[c.Sequential()[s.lane.slot]] {
        LaneStepInOrder(c, s);
      } else {
        LaneFinishInOrder(c, s);
      }
    }
  }

  lemma PlainRunStep<R>(c: Config<R>, slot: nat)
    requires c.Valid() && slot <= |c.Sequential()|
    ensures PlainRun(c, 0) == []
    ensures slot > 0 ==>
              var item := c.Sequential()[slot - 1];
              PlainRun(c, slot) == PlainRun(c, slot - 1) + TaskEvents(item, c.segments[item])
  {
  }

  lemma LogsLaneEvent<R>(c: Config<R>, s: State<R>, s': State<R>, item: nat, step: nat)
    requires s'.log == s.log + [Segment(item, step)] && item < |c.inSequence| && c.inSequence[item]
    ensures LaneEvents(s'.log, c.inSequence) == LaneEvents(s.log, c.inSequence) + [Segment(item, step)]
    ensures TaskEvents(item, step) + [Segment(item, step)] == TaskEvents(item, step + 1)
    ensures TaskEvents(item, 0) == []
  {
    LaneEventsAppend(s.log, Segment(item, step), c.inSequence);
    MoreTaskEvents(item, step);
    MoreTaskEvents(item, 0);
  }

  /** The sequential lane runs its tasks one at a time and in input order. */
  lemma LaneStaysInOrder<R>(c: Config<R>, s: State<R>, a: Actor)
    requires Inv(c, s) && Enabled(s, a) && LaneInOrder(c, s)
    ensures Shaped(c, Resume(c, s, a)) && LaneInOrder(c, Resume(c, s, a))
  {
    if a == Lane {
      LaneKeepsLaneOrder(c, s);
    } else {
      WorkerKeepsLaneOrder(c, s, a.w);
    }
  }

  ghost function InFlight<R>(s: State<R>): set<nat>
  {
    set i: nat | i < |s.results| && ViewOf(s, i).steps != [] && s.results[i] == None
  }

  function HeldItem<R>(c: Config<R>, workers: seq<Status>, w: nat): nat
    requires w < |workers|
  {
    if workers[w].InTask? && workers[w].slot < |c.Pooled()| then c.Pooled()[workers[w].slot] else 0
  }

  lemma {:induction false} MembersAtMostLength(f: seq<nat>, members: set<nat>)
    requires forall i :: i in members ==> i in f
    ensures |members| <= |f|
  {
    if f != [] {
      MembersAtMostLength(f[1..], members - {f[0]});
    } else {
      assert members == {};
    }
  }

  ghost function InFlightIn<R>(c: Config<R>, s: State<R>, inSequence: bool): set<nat>
    requires Shaped(c, s)
  {
    set i | i in InFlight(s) && c.inSequence[i] == inSequence
  }

  lemma PooledInFlight<R>(c: Config<R>, s: State<R>)
    requires Inv(c, s)
    ensures |InFlightIn(c, s, false)| <= |s.workers|
  {
    InvShaped(c, s);
    hide InFlight, Inv;
    var held := seq(|s.workers|, w requires 0 <= w < |s.workers| => HeldItem(c, s.workers, w));
    forall i | i in InFlightIn(c, s, false)
      ensures i in held
    {
      var w := Holder(c, s, i);
      assert held[w] == i;
    }
    MembersAtMostLength(held, InFlightIn(c, s, false));
  }

  lemma LaneInFlight<R>(c: Config<R>, s: State<R>)
    requires Inv(c, s)
    ensures |InFlightIn(c, s, true)| <= 1
  {
    InvShaped(c, s);
    hide InFlight, Inv;
    if s.lane.InTask? {
      forall i | i in InFlightIn(c, s, true)
        ensures i in [c.Sequential()[s.lane.slot]]
      {
        LaneHolds(c, s, i);
      }
      MembersAtMostLength([c.Sequential()[s.lane.slot]], InFlightIn(c, s, true));
    } else {
      forall i | i in InFlightIn(c, s, true)
        ensures false
      {
        LaneHolds(c, s, i);
      }
    }
  }

  lemma InFlightSplits<R>(c: Config<R>, s: State<R>)
    requires Shaped(c, s)
    ensures InFlight(s) == InFlightIn(c, s, false) + InFlightIn(c, s, true)
  {
    hide ViewOf;
  }

  /** At most one task per worker is in flight, and at most one in the sequential lane. */
  lemma InFlightBound<R>(c: Config<R>, s: State<R>)
    requires Inv(c, s)
    ensures |InFlightIn(c, s, false)| <= |s.workers| && |InFlightIn(c, s, true)| <= 1
    ensures |InFlight(s)| <= |s.workers| + 1
  {
    InvShaped(c, s);
    hide Inv, InFlight, InFlightIn;
    PooledInFlight(c, s);
    LaneInFlight(c, s);
    InFlightSplits(c, s);
  }

  lemma Holder<R>(c: Config<R>, s: State<R>, item: nat) returns (w: nat)
    requires Inv(c, s) && item in InFlight(s) && !c.inSequence[item]
    ensures w < |s.workers| && HeldItem(c, s.workers, w) == item
  {
    hide Where;
    AllPlaced(c, item);
    var p :| 0 <= p < |c.Pooled()| && c.Pooled()[p] == item;
    FinishedNotInFlight(c, s, item);
    assert !Free(s.workers, p);
    w :| Holds(s.workers, w, p);
  }

  lemma LaneHolds<R>(c: Config<R>, s: State<R>, item: nat)
    requires Inv(c, s) && item in InFlight(s) && c.inSequence[item]
    ensures s.lane.InTask? && c.Sequential()[s.lane.slot] == item
  {
    hide Where;
    AllPlaced(c, item);
    var p :| 0 <= p < |c.Sequential()| && c.Sequential()[p] == item;
    FinishedNotInFlight(c, s, item);
  }

  lemma FinishedNotInFlight<R>(c: Config<R>, s: State<R>, item: nat)
    requires Inv(c, s) && item in InFlight(s)
    ensures ViewOf(s, item) != Waiting() && ViewOf(s, item) != Finished(c, item)
  {
  }

  lemma {:induction false} RunsInOrder<R>(c: Config<R>, s: State<R>, schedule: seq<Actor>)
    requires Inv(c, s) && LaneInOrder(c, s)
    ensures Shaped(c, Run(c, s, schedule)) && LaneInOrder(c, Run(c, s, schedule))
    ensures |Run(c, s, schedule).workers| == |s.workers|
    decreases |schedule|
  {
    hide Inv, LaneInOrder, Where, Config.Pooled, Config.Sequential;
    InvShaped(c, s);
    if schedule != [] {
      if Enabled(s, schedule[0]) {
        ResumeKeeps(c, s, schedule[0]);
        LaneStaysInOrder(c, s, schedule[0]);
        RunsInOrder(c, Resume(c, s, schedule[0]), schedule[1..]);
      } else {
        RunsInOrder(c, s, schedule[1..]);
      }
    }
  }

  lemma InitInOrder<R>(c: Config<R>, workerCount: nat)
    requires c.Valid()
    ensures Shaped(c, Init(c, workerCount)) && LaneInOrder(c, Init(c, workerCount))
  {
  }

  /**
   * Every schedule, from the call on: the bounds on what is in flight hold, the sequential lane
   * has run in input order, and once all actors have returned every item has run exactly once,
   * segment by segment, and its result is in its own place.
   */
  lemma EverySchedule<R>(c: Config<R>, workerCount: nat, schedule: seq<Actor>)
    requires c.Valid() && (c.Pooled() != [] ==> workerCount > 0)
    ensures Inv(c, Init(c, workerCount))
    ensures var s := Run(c, Init(c, workerCount), schedule);
            && Shaped(c, s) && LaneInOrder(c, s)
            && |InFlightIn(c, s, false)| <= workerCount && |InFlightIn(c, s, true)| <= 1
            && (Done(s) ==> forall i :: 0 <= i < |c.values| ==>
                  Steps(s.log, i) == UpTo(c.segments[i]) && s.results[i] == Some(c.values[i]))
  {
    hide Inv, LaneInOrder, Done, Where, InFlight, InFlightIn, Run, Steps, Config.Pooled, Config.Sequential;
    InitHolds(c, workerCount);
    InitInOrder(c, workerCount);
    RunsInOrder(c, Init(c, workerCount), schedule);
    RunKeeps(c, Init(c, workerCount), schedule);
    var s := Run(c, Init(c, workerCount), schedule);
    InFlightBound(c, s);
    if Done(s) {
      PoolRefinesMap(c, s);
      forall i | 0 <= i < |c.values|
        ensures Steps(s.log, i) == UpTo(c.segments[i]) && s.results[i] == Some(c.values[i])
      {
        assert ViewOf(s, i) == Finished(c, i);
      }
    }
  }

  // ---------- told from a log alone ----------

  /** The tasks of a lane that have begun and not run all their segments. */
  ghost function Unfinished(log: seq<Event>, inSequence: seq<bool>, segments: seq<nat>, lane: bool): set<nat>
    requires |inSequence| == |segments|
  {
    set i: nat | i < |segments| && inSequence[i] == lane && 0 < |Steps(log, i)| < segments[i]
  }

  /** What a plain loop over the first n items logs of those that are flagged. */
  function PlainLoop(inSequence: seq<bool>, segments: seq<nat>, n: nat): seq<Event>
    requires n <= |inSequence| == |segments|
  {
    if n == 0 then []
    else PlainLoop(inSequence, segments, n - 1) + (if inSequence[n - 1] then TaskEvents(n - 1, segments[n - 1]) else [])
  }

  /**
   * At every moment at most one flagged task and so many others are under way, and the flagged ones have
   * gone as in a plain loop.
   */
  ghost predicate Disciplined(log: seq<Event>, inSequence: seq<bool>, segments: seq<nat>, workerCount: nat)
    requires |inSequence| == |segments|
  {
    && (forall k :: 0 <= k <= |log| ==> AtMoment(log[..k], inSequence, segments, workerCount))
    && LaneEvents(log, inSequence) <= PlainLoop(inSequence, segments, |segments|)
  }

  ghost predicate AtMoment(log: seq<Event>, inSequence: seq<bool>, segments: seq<nat>, workerCount: nat)
    requires |inSequence| == |segments|
  {
    |Unfinished(log, inSequence, segments, true)| <= 1 && |Unfinished(log, inSequence, segments, false)| <= workerCount
  }

  lemma UnfinishedInFlight<R>(c: Config<R>, s: State<R>, lane: bool)
    requires Inv(c, s)
    ensures Shaped(c, s) && |Unfinished(s.log, c.inSequence, c.segments, lane)| <= |InFlightIn(c, s, lane)|
  {
    InvShaped(c, s);
    hide Where, Inv;
    forall i | i in Unfinished(s.log, c.inSequence, c.segments, lane)
      ensures i in InFlightIn(c, s, lane)
    {
      if s.results[i].Some? {
        ResultMeansFinished(c, s, i);
      }
    }
    SubsetNoLarger(Unfinished(s.log, c.inSequence, c.segments, lane), InFlightIn(c, s, lane));
  }

  lemma ResultMeansFinished<R>(c: Config<R>, s: State<R>, i: nat)
    requires Inv(c, s) && Shaped(c, s) && i < |c.values| && s.results[i].Some?
    ensures Steps(s.log, i) == UpTo(c.segments[i])
  {
    hide Where, UpTo, Steps;
    AllPlaced(c, i);
    assert Views(s)[i] == ViewOf(s, i);
    if c.inSequence[i] {
      var p :| 0 <= p < |c.Sequential()| && c.Sequential()[p] == i;
    } else {
      var p :| 0 <= p < |c.Pooled()| && c.Pooled()[p] == i;
      assert Free(s.workers, p);
    }
  }

  lemma SubsetNoLarger(a: set<nat>, b: set<nat>)
    requires a <= b
    ensures |a| <= |b|
  {
    if a != {} {
      var x :| x in a;
      SubsetNoLarger(a - {x}, b - {x});
    }
  }

  lemma MomentHolds<R>(c: Config<R>, s: State<R>)
    requires Inv(c, s)
    ensures Shaped(c, s) && AtMoment(s.log, c.inSequence, c.segments, |s.workers|)
  {
    InvShaped(c, s);
    hide Inv, Unfinished, InFlight, InFlightIn;
    InFlightBound(c, s);
    UnfinishedInFlight(c, s, true);
    UnfinishedInFlight(c, s, false);
  }

  /** The lane's plain run over its own items is the plain loop over all. */
  lemma {:induction false} PlainRunIsLoop(inSequence: seq<bool>, segments: seq<nat>, n: nat)
    requires |inSequence| == |segments| && n <= |inSequence|
    ensures PlainLoop(inSequence, segments, n) == RunOf(Where(inSequence[..n], true), segments)
  {
    if n > 0 {
      PlainRunIsLoop(inSequence, segments, n - 1);
      assert inSequence[..n][..n - 1] == inSequence[..n - 1];
    }
  }

  function RunOf(items: seq<nat>, segments: seq<nat>): seq<Event>
    requires forall p :: 0 <= p < |items| ==> items[p] < |segments|
  {
    if items == [] then [] else
      var n := |items| - 1;
      RunOf(items[..n], segments) + TaskEvents(items[n], segments[items[n]])
  }

  lemma {:induction false} PlainRunIsRunOf<R>(c: Config<R>, slots: nat)
    requires c.Valid() && slots <= |c.Sequential()|
    ensures PlainRun(c, slots) == RunOf(c.Sequential()[..slots], c.segments)
  {
    hide Where, TaskEvents;
    if slots > 0 {
      PlainRunIsRunOf(c, slots - 1);
      assert c.Sequential()[..slots][..slots - 1] == c.Sequential()[..slots - 1];
    }
  }

  lemma {:induction false} RunsPrefix(items: seq<nat>, segments: seq<nat>, slots: nat)
    requires slots <= |items| && forall p :: 0 <= p < |items| ==> items[p] < |segments|
    ensures RunOf(items[..slots], segments) <= RunOf(items, segments)
    decreases |items|
  {
    hide TaskEvents;
    if slots < |items| {
      var n := |items| - 1;
      RunsPrefix(items[..n], segments, slots);
      assert items[..n][..slots] == items[..slots];
    } else {
      assert items[..slots] == items;
    }
  }

  lemma WholeLoop<R>(c: Config<R>)
    requires c.Valid()
    ensures PlainLoop(c.inSequence, c.segments, |c.segments|) == RunOf(c.Sequential(), c.segments)
    ensures PlainRun(c, |c.Sequential()|) == RunOf(c.Sequential(), c.segments)
  {
    var n := |c.Sequential()|;
    PlainRunIsLoop(c.inSequence, c.segments, |c.segments|);
    PlainRunIsRunOf(c, n);
    assert c.inSequence[..|c.segments|] == c.inSequence && c.Sequential()[..n] == c.Sequential();
  }

  lemma TracePrefix<R>(c: Config<R>, lane: Status)
    requires c.Valid()
    requires lane.InTask? ==> lane.slot < |c.Sequential()| && lane.ran <= c.segments[c.Sequential()[lane.slot]]
    ensures LaneTrace(c, lane) <= PlainLoop(c.inSequence, c.segments, |c.segments|)
    ensures lane == Returned ==> LaneTrace(c, lane) == PlainLoop(c.inSequence, c.segments, |c.segments|)
  {
    hide Where, PlainLoop, PlainRun, RunOf, TaskEvents, Config.Sequential;
    WholeLoop(c);
    match lane
    case Fresh =>
    case Returned =>
    case InTask(slot, ran) =>
      TaskPrefix(c, slot, ran);
      PlainRunIsRunOf(c, slot + 1);
      RunsPrefix(c.Sequential(), c.segments, slot + 1);
  }

  lemma TaskPrefix<R>(c: Config<R>, slot: nat, ran: nat)
    requires c.Valid() && slot < |c.Sequential()| && ran <= c.segments[c.Sequential()[slot]]
    ensures PlainRun(c, slot) + TaskEvents(c.Sequential()[slot], ran) <= PlainRun(c, slot + 1)
  {
    hide Where;
    var item := c.Sequential()[slot];
    assert TaskEvents(item, ran) <= TaskEvents(item, c.segments[item]);
  }

  /** A log is disciplined as long as every state it went through kept the invariant. */
  lemma StaysDisciplined<R>(c: Config<R>, s: State<R>, before: seq<Event>)
    requires Inv(c, s) && Shaped(c, s) && LaneInOrder(c, s)
    requires Disciplined(before, c.inSequence, c.segments, |s.workers|)
    requires s.log == before || (s.log != [] && s.log[..|s.log| - 1] == before)
    ensures Disciplined(s.log, c.inSequence, c.segments, |s.workers|)
    ensures s.lane == Returned ==>
              LaneEvents(s.log, c.inSequence) == PlainLoop(c.inSequence, c.segments, |c.segments|)
  {
    MomentHolds(c, s);
    LaneRanBound(c, s);
    hide Where, Inv, AtMoment, PlainLoop, LaneEvents, LaneTrace;
    TracePrefix(c, s.lane);
    MomentsExtend(before, s.log, c.inSequence, c.segments, |s.workers|);
  }

  lemma MomentsExtend(before: seq<Event>, log: seq<Event>, inSequence: seq<bool>, segments: seq<nat>, workerCount: nat)
    requires |inSequence| == |segments| && AtMoment(log, inSequence, segments, workerCount)
    requires forall k :: 0 <= k <= |before| ==> AtMoment(before[..k], inSequence, segments, workerCount)
    requires log == before || (log != [] && log[..|log| - 1] == before)
    ensures forall k :: 0 <= k <= |log| ==> AtMoment(log[..k], inSequence, segments, workerCount)
  {
    hide AtMoment;
    forall k | 0 <= k <= |log|
      ensures AtMoment(log[..k], inSequence, segments, workerCount)
    {
      if k == |log| {
        assert log[..k] == log;
      } else {
        assert log[..k] == before[..k];
      }
    }
  }

  lemma StartsDisciplined<R>(c: Config<R>, workerCount: nat)
    requires c.Valid()
    ensures Disciplined([], c.inSequence, c.segments, workerCount)
  {
    assert Unfinished([], c.inSequence, c.segments, true) == {};
    assert Unfinished([], c.inSequence, c.segments, false) == {};
  }
}

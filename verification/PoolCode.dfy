/** The pool's own code: the workers and the lane as methods over the variables they share. */
module PoolCode {
  import opened Outcomes
  import opened PoolSchedules
  import opened TaskPool

  /** The concurrency argument: any JavaScript number. */
  datatype Number = NaN | PosInfinity | NegInfinity | Finite(value: real)

  /** So many at a time are within the concurrency; one always is. */
  predicate Allowed(n: nat, concurrency: Number) {
    n <= 1 || concurrency.PosInfinity? || (concurrency.Finite? && n as real <= concurrency.value)
  }

  /** min(max(1, floor(concurrency) || 1), length): the largest count within both. */
  function WorkerCount(concurrency: Number, length: nat): (n: nat)
    ensures n <= length && Allowed(n, concurrency)
    ensures n < length ==> !Allowed(n + 1, concurrency)
  {
    match concurrency
    case NaN => if length < 1 then length else 1
    case NegInfinity => if length < 1 then length else 1
    case PosInfinity => length
    case Finite(v) =>
      var normalized := if v.Floor < 1 then 1 else v.Floor;
      if length < normalized then length else normalized
  }

  function Ran(event: Option<Event>): seq<Event>
  {
    match event case None => [] case Some(e) => [e]
  }

  /** A resumption keeps the log disciplined. */
  lemma NextDisciplined<R>(c: Config<R>, s: State<R>, a: Actor)
    requires Inv(c, s) && Shaped(c, s) && Enabled(s, a) && LaneInOrder(c, s)
    requires Disciplined(s.log, c.inSequence, c.segments, |s.workers|)
    ensures Shaped(c, Resume(c, s, a))
    ensures Disciplined(Resume(c, s, a).log, c.inSequence, c.segments, |Resume(c, s, a).workers|)
  {
    hide Disciplined, LaneInOrder, Inv, Resume, Where;
    ResumeKeeps(c, s, a);
    LaneStaysInOrder(c, s, a);
    LogsOne(c, s, a);
    StaysDisciplined(c, Resume(c, s, a), s.log);
  }

  lemma LogsOne<R>(c: Config<R>, s: State<R>, a: Actor)
    requires Shaped(c, s) && Enabled(s, a)
    ensures var s' := Resume(c, s, a);
            && |s'.workers| == |s.workers|
            && (s'.log == s.log || (s'.log != [] && s'.log[..|s'.log| - 1] == s.log))
  {
    hide Where;
  }

  /** The closures' shared variables, and the workers that resume over them. */
  class TwoLanePool<R> {
    const pooled: seq<nat>
    const sequential: seq<nat>
    const segments: seq<nat>
    const values: seq<R>
    var nextIndex: nat
    var workers: seq<Status>
    var lane: Status
    var results: seq<Option<R>>
    ghost var log: seq<Event>
    ghost const config: Config<R>

    ghost predicate Valid()
      reads this
    {
      && config == Config(config.inSequence, segments, values)
      && pooled == config.Pooled() && sequential == config.Sequential()
      && Inv(config, Snapshot()) && Shaped(config, Snapshot()) && LaneInOrder(config, Snapshot())
      && Disciplined(log, config.inSequence, config.segments, |workers|)
    }

    ghost function Snapshot(): State<R>
      reads this
    {
      State(nextIndex, workers, lane, results, log)
    }

    constructor (pooled: seq<nat>, sequential: seq<nat>, segments: seq<nat>, values: seq<R>,
                 workerCount: nat, ghost config: Config<R>)
      requires config.Valid() && config.segments == segments && config.values == values
      requires pooled == config.Pooled() && sequential == config.Sequential()
      ensures Valid() && this.config == config && Snapshot() == Init(config, workerCount)
    {
      this.pooled, this.sequential, this.segments, this.values := pooled, sequential, segments, values;
      nextIndex, lane := 0, Fresh;
      workers := seq(workerCount, _ => Fresh);
      results := seq(|values|, _ => None);
      log := [];
      this.config := config;
      InitHolds(config, workerCount);
      InitInOrder(config, workerCount);
      StartsDisciplined(config, workerCount);
    }

    /** A worker's loop, from one await to the next: the task segment it ran, if any. */
    method ResumeWorker(w: nat) returns (ran: Option<Event>)
      requires Valid() && Enabled(Snapshot(), Worker(w))
      modifies this
      ensures Valid() && Snapshot() == Resume(config, old(Snapshot()), Worker(w))
      ensures |workers| == old(|workers|) && log == old(log) + Ran(ran)
      ensures ran.Some? ==> ran.value.item < |values|
    {
      hide Where, Views, PoolOk, LaneOk, Disciplined, LaneInOrder, Inv;
      ResumeKeeps(config, Snapshot(), Worker(w));
      LaneStaysInOrder(config, Snapshot(), Worker(w));
      NextDisciplined(config, Snapshot(), Worker(w));
      assert Shaped(config, Snapshot()) by { InvShaped(config, Snapshot()); }
      if workers[w].InTask? {
        var InTask(slot, done) := workers[w];
        var item := pooled[slot];
        if done < segments[item] {
          workers := workers[w := InTask(slot, done + 1)];
          log := log + [Segment(item, done)];
          return Some(Segment(item, done));
        }
        results := results[item := Some(values[item])];
        workers := workers[w := Fresh];
        return None;
      }
      var index := nextIndex;
      nextIndex := nextIndex + 1;
      if index >= |pooled| {
        workers := workers[w := Returned];
        return None;
      }
      workers := workers[w := InTask(index, 1)];
      log := log + [Segment(pooled[index], 0)];
      return Some(Segment(pooled[index], 0));
    }

    /** The sequential lane's loop, from one await to the next: the task segment it ran, if any. */
    method ResumeLane() returns (ran: Option<Event>)
      requires Valid() && Enabled(Snapshot(), Lane)
      modifies this
      ensures Valid() && Snapshot() == Resume(config, old(Snapshot()), Lane)
      ensures |workers| == old(|workers|) && log == old(log) + Ran(ran)
      ensures ran.Some? ==> ran.value.item < |values|
    {
      hide Where, Views, PoolOk, LaneOk, Disciplined, LaneInOrder, Inv;
      ResumeKeeps(config, Snapshot(), Lane);
      LaneStaysInOrder(config, Snapshot(), Lane);
      NextDisciplined(config, Snapshot(), Lane);
      assert Shaped(config, Snapshot()) by { InvShaped(config, Snapshot()); }
      var next := 0;
      if lane.InTask? {
        var InTask(slot, done) := lane;
        var item := sequential[slot];
        if done < segments[item] {
          lane := InTask(slot, done + 1);
          log := log + [Segment(item, done)];
          return Some(Segment(item, done));
        }
        results := results[item := Some(values[item])];
        next := slot + 1;
      }
      if next >= |sequential| {
        lane := Returned;
        return None;
      }
      lane := InTask(next, 1);
      log := log + [Segment(sequential[next], 0)];
      return Some(Segment(sequential[next], 0));
    }
  }

  /** The forEach that splits the items between the lanes. */
  method Partition(inSequence: seq<bool>) returns (pooled: seq<nat>, sequential: seq<nat>)
    ensures pooled == Where(inSequence, false) && sequential == Where(inSequence, true)
  {
    pooled, sequential := [], [];
    for i := 0 to |inSequence|
      invariant pooled == Where(inSequence[..i], false) && sequential == Where(inSequence[..i], true)
    {
      assert inSequence[..i + 1][..i] == inSequence[..i];
      if inSequence[i] {
        sequential := sequential + [i];
      } else {
        pooled := pooled + [i];
      }
    }
    assert inSequence[..|inSequence|] == inSequence;
  }

  /** Resumes some actor that can run: any choice is possible. */
  method ResumeAny<R>(pool: TwoLanePool<R>) returns (ran: Option<Event>)
    requires pool.Valid() && !Done(pool.Snapshot())
    modifies pool
    ensures pool.Valid() && pool.log == old(pool.log) + Ran(ran)
    ensures ran.Some? ==> ran.value.item < |pool.values|
    ensures |pool.workers| == old(|pool.workers|)
    ensures Shaped(pool.config, old(pool.Snapshot())) && Shaped(pool.config, pool.Snapshot())
    ensures Work(pool.config, pool.Snapshot()) < Work(pool.config, old(pool.Snapshot()))
  {
    hide Work, Where, Views, PoolOk, LaneOk, Resume;
    InvShaped(pool.config, pool.Snapshot());
    var preferLane: bool := *;
    if pool.lane != Returned && (preferLane || forall w :: 0 <= w < |pool.workers| ==> pool.workers[w] == Returned) {
      ResumeDecreases(pool.config, pool.Snapshot(), Lane);
      ran := pool.ResumeLane();
    } else {
      var w: nat :| w < |pool.workers| && pool.workers[w] != Returned;
      ResumeDecreases(pool.config, pool.Snapshot(), Worker(w));
      ran := pool.ResumeWorker(w);
    }
  }

  method RunToCompletion<R>(pool: TwoLanePool<R>)
    requires pool.Valid()
    modifies pool
    ensures pool.Valid() && Done(pool.Snapshot()) && |pool.workers| == old(|pool.workers|)
  {
    hide Work, Where, Views, PoolOk, LaneOk, Resume;
    InvShaped(pool.config, pool.Snapshot());
    while !(pool.lane == Returned && forall w :: 0 <= w < |pool.workers| ==> pool.workers[w] == Returned)
      invariant pool.Valid() && |pool.workers| == old(|pool.workers|)
      invariant Shaped(pool.config, pool.Snapshot())
      decreases Work(pool.config, pool.Snapshot())
    {
      var _ := ResumeAny(pool);
    }
  }

  /** The set-up before the first resumption: the items are split and the workers counted. */
  method NewPool<R>(inSequence: seq<bool>, segments: seq<nat>, values: seq<R>, concurrency: Number)
    returns (pool: TwoLanePool<R>)
    requires Config(inSequence, segments, values).Valid()
    ensures fresh(pool) && pool.Valid() && pool.config == Config(inSequence, segments, values) && pool.log == []
    ensures |pool.workers| == WorkerCount(concurrency, |pool.pooled|)
  {
    hide Where, Inv;
    var pooled, sequential := Partition(inSequence);
    var workerCount := WorkerCount(concurrency, |pooled|);
    pool := new TwoLanePool(pooled, sequential, segments, values, workerCount, Config(inSequence, segments, values));
  }

  /** When all actors have returned, every task of the log has run exactly its segments. */
  lemma DoneIsComplete<R>(pool: TwoLanePool<R>, concurrency: Number)
    requires pool.Valid() && Done(pool.Snapshot()) && |pool.workers| == WorkerCount(concurrency, |pool.pooled|)
    ensures forall i :: 0 <= i < |pool.values| ==>
              Steps(pool.log, i) == UpTo(pool.segments[i]) && pool.results[i] == Some(pool.values[i])
  {
    hide Where, Done, Inv, Steps;
    InvShaped(pool.config, pool.Snapshot());
    PoolRefinesMap(pool.config, pool.Snapshot());
    forall i | 0 <= i < |pool.values|
      ensures Steps(pool.log, i) == UpTo(pool.segments[i]) && pool.results[i] == Some(pool.values[i])
    {
      assert ViewOf(pool.Snapshot(), i) == Finished(pool.config, i);
    }
  }

  /**
   * A pool's log, from the call to the end: at every moment at most one flagged task, and others within the
   * concurrency, are under way; the flagged tasks went as in a plain loop; every task ran all its segments.
   */
  ghost predicate PoolRan(log: seq<Event>, inSequence: seq<bool>, segments: seq<nat>, concurrency: Number)
    requires |inSequence| == |segments|
  {
    && PoolRanTo(log, inSequence, segments, concurrency)
    && LaneEvents(log, inSequence) == PlainLoop(inSequence, segments, |segments|)
    && forall i :: 0 <= i < |segments| ==> Steps(log, i) == UpTo(segments[i])
  }

  /** The same of a log that may have been cut short. */
  ghost predicate PoolRanTo(log: seq<Event>, inSequence: seq<bool>, segments: seq<nat>, concurrency: Number)
    requires |inSequence| == |segments|
  {
    && LaneEvents(log, inSequence) <= PlainLoop(inSequence, segments, |segments|)
    && forall k :: 0 <= k <= |log| ==>
         && |Unfinished(log[..k], inSequence, segments, true)| <= 1
         && Allowed(|Unfinished(log[..k], inSequence, segments, false)|, concurrency)
  }

  /** One value per item, from the item and its index. */
  function Each<T, U>(items: seq<T>, value: (T, nat) -> U): (values: seq<U>)
    ensures |values| == |items| && forall i :: 0 <= i < |items| ==> values[i] == value(items[i], i)
  {
    seq(|items|, i requires 0 <= i < |items| => value(items[i], i))
  }

  lemma FewerAllowed(n: nat, m: nat, concurrency: Number)
    requires n <= m && Allowed(m, concurrency)
    ensures Allowed(n, concurrency)
  {
  }

  lemma PoolRanSoFar<R>(pool: TwoLanePool<R>, concurrency: Number)
    requires pool.Valid() && |pool.workers| == WorkerCount(concurrency, |pool.pooled|)
    ensures PoolRanTo(pool.log, pool.config.inSequence, pool.config.segments, concurrency)
  {
    hide Where, Inv, LaneInOrder, LaneEvents, PlainLoop, Unfinished;
    forall k | 0 <= k <= |pool.log|
      ensures Allowed(|Unfinished(pool.log[..k], pool.config.inSequence, pool.config.segments, false)|, concurrency)
    {
      assert AtMoment(pool.log[..k], pool.config.inSequence, pool.config.segments, |pool.workers|);
      FewerAllowed(|Unfinished(pool.log[..k], pool.config.inSequence, pool.config.segments, false)|, |pool.workers|,
                   concurrency);
    }
  }

  lemma PoolRanAll<R>(pool: TwoLanePool<R>, concurrency: Number)
    requires pool.Valid() && Done(pool.Snapshot()) && |pool.workers| == WorkerCount(concurrency, |pool.pooled|)
    ensures PoolRan(pool.log, pool.config.inSequence, pool.config.segments, concurrency)
  {
    PoolRanSoFar(pool, concurrency);
    DoneIsComplete(pool, concurrency);
    hide Where, PoolRanTo, Disciplined, Steps, UpTo;
    StaysDisciplined(pool.config, pool.Snapshot(), pool.log);
  }

  /** The flagged tasks run one at a time and in order, the others as many at a time as the concurrency allows. */
  method RunTaskPoolWithSequential<T, R>(items: seq<T>, concurrency: Number, shouldRunSequential: (T, nat) -> bool,
                                         task: (T, nat) -> R, segments: (T, nat) -> nat)
    returns (results: seq<R>, ghost log: seq<Event>)
    requires forall i: nat :: i < |items| ==> segments(items[i], i) >= 1
    ensures |results| == |items|
    ensures forall i: nat :: i < |items| ==> results[i] == task(items[i], i)
    ensures PoolRan(log, Each(items, shouldRunSequential), Each(items, segments), concurrency)
  {
    var inSequence, lengths := Each(items, shouldRunSequential), Each(items, segments);
    if |items| == 0 {
      NothingRan(inSequence, lengths, concurrency);
      return [], [];
    }
    hide Where, Inv, PoolRan;
    var pool := NewPool(inSequence, lengths, Each(items, task), concurrency);
    RunToCompletion(pool);
    PoolRanAll(pool, concurrency);
    log := pool.log;
    results := Collect(pool, concurrency);
  }

  lemma NothingRan(inSequence: seq<bool>, segments: seq<nat>, concurrency: Number)
    requires |inSequence| == |segments| == 0
    ensures PoolRan([], inSequence, segments, concurrency)
  {
    assert Unfinished([], inSequence, segments, true) == {} && Unfinished([], inSequence, segments, false) == {};
  }

  method Collect<R>(pool: TwoLanePool<R>, ghost concurrency: Number) returns (results: seq<R>)
    requires pool.Valid() && Done(pool.Snapshot()) && |pool.workers| == WorkerCount(concurrency, |pool.pooled|)
    ensures results == pool.values
  {
    hide Where, Steps;
    DoneIsComplete(pool, concurrency);
    results := [];
    for i := 0 to |pool.values|
      invariant results == pool.values[..i]
    {
      results := results + [pool.results[i].value];
    }
  }
}

/**
 * What the tasks of a pool push into shared lists, read off the log of segments. Each task
 * pushes at one marked segment, so a complete log of any schedule gathers the same pushes as
 * running the tasks one after another, up to order.
 */
module TaskEffects {
  import opened Sequences
  import opened TaskPool

  /** What the events of items lo..hi push, in the order they ran. */
  function Gather<T>(log: seq<Event>, push: Event -> seq<T>, lo: nat, hi: nat): seq<T>
  {
    if log == [] then [] else
      var e := log[|log| - 1];
      Gather(log[..|log| - 1], push, lo, hi) + (if lo <= e.item < hi then push(e) else [])
  }

  lemma {:induction false} GatherSplits<T>(log: seq<Event>, push: Event -> seq<T>, lo: nat, mid: nat, hi: nat)
    requires lo <= mid <= hi
    ensures multiset(Gather(log, push, lo, hi)) ==
              multiset(Gather(log, push, lo, mid)) + multiset(Gather(log, push, mid, hi))
  {
    if log != [] {
      GatherSplits(log[..|log| - 1], push, lo, mid, hi);
    }
  }

  function GatherSteps<T>(item: nat, steps: seq<nat>, push: Event -> seq<T>): seq<T>
  {
    if steps == [] then [] else
      var n := |steps| - 1;
      GatherSteps(item, steps[..n], push) + push(Segment(item, steps[n]))
  }

  lemma {:induction false} GatherOneItem<T>(log: seq<Event>, push: Event -> seq<T>, item: nat)
    ensures Gather(log, push, item, item + 1) == GatherSteps(item, Steps(log, item), push)
  {
    if log != [] {
      var n := |log| - 1;
      GatherOneItem(log[..n], push, item);
      if log[n].item == item {
        assert Steps(log, item)[..|Steps(log, item)| - 1] == Steps(log[..n], item);
        assert log[n] == Segment(item, log[n].step);
      } else {
        assert Steps(log, item) == Steps(log[..n], item);
      }
    }
  }

  lemma {:induction false} GatherMarked<T>(item: nat, k: nat, mark: nat, push: Event -> seq<T>)
    requires forall step: nat :: step != mark ==> push(Segment(item, step)) == []
    ensures GatherSteps(item, UpTo(k), push) == if mark < k then push(Segment(item, mark)) else []
  {
    if k > 0 {
      GatherMarked(item, k - 1, mark, push);
      assert UpTo(k)[..k - 1] == UpTo(k - 1);
    }
  }

  /** The pushes of the items in order, each at its marked segment. */
  function InOrder<T>(marks: seq<nat>, push: Event -> seq<T>): seq<T>
  {
    if marks == [] then [] else
      var n := |marks| - 1;
      InOrder(marks[..n], push) + push(Segment(n, marks[n]))
  }

  /** Whatever the schedule, a complete log gathers what the plain loop over the items gathers. */
  lemma {:induction false} CompleteLogGathers<T>(log: seq<Event>, push: Event -> seq<T>, segments: seq<nat>,
                                                 marks: seq<nat>)
    requires |segments| == |marks|
    requires forall i :: 0 <= i < |marks| ==> marks[i] < segments[i] && Steps(log, i) == UpTo(segments[i])
    requires forall i: nat, step: nat :: i < |marks| && step != marks[i] ==> push(Segment(i, step)) == []
    ensures multiset(Gather(log, push, 0, |marks|)) == multiset(InOrder(marks, push))
  {
    var n := |marks|;
    if n == 0 {
      NothingGathered(log, push, 0);
    } else {
      CompleteLogGathers(log, push, segments[..n - 1], marks[..n - 1]);
      GatherSplits(log, push, 0, n - 1, n);
      GatherOneItem(log, push, n - 1);
      GatherMarked(n - 1, segments[n - 1], marks[n - 1], push);
    }
  }

  lemma {:induction false} NothingGathered<T>(log: seq<Event>, push: Event -> seq<T>, at: nat)
    ensures Gather(log, push, at, at) == []
  {
    if log != [] {
      NothingGathered(log[..|log| - 1], push, at);
    }
  }

  lemma {:induction false} InOrderIsConcat<A, T>(xs: seq<A>, list: A -> seq<T>, marks: seq<nat>, push: Event -> seq<T>)
    requires |xs| == |marks|
    requires forall i: nat :: i < |xs| ==> push(Segment(i, marks[i])) == list(xs[i])
    ensures InOrder(marks, push) == Concat(xs, list)
  {
    if xs != [] {
      InOrderIsConcat(xs[..|xs| - 1], list, marks[..|xs| - 1], push);
    }
  }
}

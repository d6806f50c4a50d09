/** The asynchronous presenter: a bounded queue that is replaced when it overflows, shared by the
    thread that encodes frames and the thread that presents them. Each method is one locked section. */
module Presenter {
  import opened Wrappers

  datatype Job = Job(logicalFrame: nat, slot: nat, presentAt: int, slidPeriods: nat)

  const MAX_INTERPOLATED_FRAMES := 3

  /** The bound scales with the group that is handed over. */
  function MaximumQueuedJobs(groupSize: nat): (maximum: nat)
    ensures 8 <= maximum && 3 * groupSize <= maximum && (maximum == 8 || maximum == 3 * groupSize)
  {
    if 2 * (MAX_INTERPOLATED_FRAMES + 1) >= 3 * groupSize then 2 * (MAX_INTERPOLATED_FRAMES + 1) else 3 * groupSize
  }

  ghost function Span(low: nat, high: nat): (r: set<nat>)
    ensures forall n: nat :: n in r <==> low <= n < high
  {
    if low >= high then {} else Span(low, high - 1) + {high - 1}
  }

  /** Every job is in one place: the first `next` were taken or dropped, the others are queued. */
  ghost predicate Places(accepted: seq<Job>, presented: seq<nat>, inFlight: Option<nat>, dropped: set<nat>, next: nat) {
    && next <= |accepted|
    && (forall i, j | 0 <= i < j < |presented| :: presented[i] < presented[j])
    && (forall i | 0 <= i < |presented| :: presented[i] < next && presented[i] !in dropped)
    && (inFlight.Some? ==>
          && inFlight.value < next && inFlight.value !in dropped
          && forall i | 0 <= i < |presented| :: presented[i] < inFlight.value)
    && (forall d | d in dropped :: d < next)
    && (forall n | 0 <= n < next :: n in presented || inFlight == Some(n) || n in dropped)
  }

  lemma QueueDropped(accepted: seq<Job>, presented: seq<nat>, inFlight: Option<nat>, dropped: set<nat>, next: nat)
    requires Places(accepted, presented, inFlight, dropped, next)
    ensures Places(accepted, presented, inFlight, dropped + Span(next, |accepted|), |accepted|)
  {
  }

  lemma GroupAppended(accepted: seq<Job>, presented: seq<nat>, inFlight: Option<nat>, dropped: set<nat>, next: nat,
                      group: seq<Job>)
    requires Places(accepted, presented, inFlight, dropped, next)
    ensures Places(accepted + group, presented, inFlight, dropped, next)
  {
  }

  class PresenterQueue {
    var jobs: seq<Job>
    var started: bool
    var stop: bool
    var presenting: Option<Job>
    var running: bool               // the presenter thread has not left its loop

    // All jobs ever accepted, and what became of them by position.
    ghost var accepted: seq<Job>
    ghost var lastGroup: nat
    ghost var presented: seq<nat>
    ghost var inFlight: Option<nat>
    ghost var dropped: set<nat>

    ghost predicate Valid()
      reads this
    {
      && |jobs| <= |accepted|
      && jobs == accepted[|accepted| - |jobs|..]
      && Places(accepted, presented, inFlight, dropped, |accepted| - |jobs|)
      && |jobs| <= MaximumQueuedJobs(lastGroup)
      && presenting.Some? == inFlight.Some?
      && (inFlight.Some? ==> presenting.value == accepted[inFlight.value])
      && (!started ==> !running && jobs == [])
      && (!running ==> jobs == [] && presenting.None?)
      && (started && !running ==> stop)
    }

    constructor ()
      ensures Valid() && jobs == [] && !started && !stop && accepted == [] && presented == [] && dropped == {}
    {
      jobs, started, stop, presenting, running := [], false, false, None, false;
      accepted, lastGroup, presented, inFlight, dropped := [], 0, [], None, {};
    }

    method EnsureStarted()
      requires Valid()
      modifies this
      ensures Valid() && started && jobs == old(jobs) && accepted == old(accepted)
      ensures presented == old(presented) && dropped == old(dropped) && inFlight == old(inFlight)
      ensures old(started) ==> stop == old(stop) && running == old(running)
      ensures !old(started) ==> !stop && running
    {
      if started { return; }
      stop := false;
      running := true;
      started := true;
    }

    /** Hands over a group. A group that does not fit replaces everything that waits. */
    method Enqueue(group: seq<Job>)
      requires Valid()
      requires started || stop
      modifies this
      ensures Valid() && stop == old(stop) && started == old(started)
      ensures presented == old(presented) && inFlight == old(inFlight)
      ensures old(stop) ==> jobs == old(jobs) && accepted == old(accepted) && dropped == old(dropped)
      ensures !old(stop) ==>
                && accepted == old(accepted) + group && lastGroup == |group|
                && jobs == (if |old(jobs)| + |group| <= 8 || |old(jobs)| <= 2 * |group|
                            then old(jobs) + group else group)
                && dropped == old(dropped) + Span(|old(accepted)| - |old(jobs)|, |accepted| - |jobs|)
    {
      if stop { return; }
      var maximum := MaximumQueuedJobs(|group|);
      if |jobs| + |group| > maximum {
        Clear();
      }
      Append(group);
    }

    /** Real-time presentation drops obsolete images rather than wait for room. */
    method Clear()
      requires Valid()
      modifies this
      ensures Valid() && accepted == old(accepted) && presented == old(presented) && inFlight == old(inFlight)
      ensures jobs == [] && dropped == old(dropped) + Span(|accepted| - |old(jobs)|, |accepted|)
      ensures stop == old(stop) && started == old(started) && running == old(running)
    {
      QueueDropped(accepted, presented, inFlight, dropped, |accepted| - |jobs|);
      dropped := dropped + Span(|accepted| - |jobs|, |accepted|);
      jobs := [];
    }

    method Append(group: seq<Job>)
      requires Valid() && started && !stop && |jobs| + |group| <= MaximumQueuedJobs(|group|)
      modifies this
      ensures Valid() && jobs == old(jobs) + group && accepted == old(accepted) + group && lastGroup == |group|
      ensures dropped == old(dropped) && presented == old(presented) && inFlight == old(inFlight)
      ensures stop == old(stop) && started == old(started)
    {
      var i := 0;
      while i < |group|
        modifies `jobs
        invariant 0 <= i <= |group|
        invariant jobs == old(jobs) + group[..i]
      {
        jobs := jobs + [group[i]];
        i := i + 1;
      }
      assert jobs == old(jobs) + group;
      GroupAppended(accepted, presented, inFlight, dropped, |accepted| - |old(jobs)|, group);
      assert jobs == (accepted + group)[|accepted + group| - |jobs|..];
      accepted := accepted + group;
      lastGroup := |group|;
    }

    /** The presenter takes the oldest job. */
    method Dequeue() returns (job: Job)
      requires Valid() && running && presenting.None? && jobs != []
      modifies this
      ensures Valid() && running && job == old(jobs)[0] && jobs == old(jobs)[1..] && presenting == Some(job)
      ensures inFlight == Some(|old(accepted)| - |old(jobs)|)
      ensures accepted == old(accepted) && presented == old(presented) && dropped == old(dropped)
      ensures stop == old(stop) && started == old(started)
    {
      job := jobs[0];
      inFlight := Some(|accepted| - |jobs|);
      jobs := jobs[1..];
      presenting := Some(job);
    }

    method FinishPresenting()
      requires Valid() && running && presenting.Some?
      modifies this
      ensures Valid() && running && presenting.None? && jobs == old(jobs) && accepted == old(accepted)
      ensures presented == old(presented) + [old(inFlight).value] && dropped == old(dropped)
      ensures stop == old(stop) && started == old(started)
    {
      presenting := None;
      presented := presented + [inFlight.value];
      inFlight := None;
    }

    /** The presenter leaves its loop, which it does only when nothing waits. */
    method Leave()
      requires Valid() && running && presenting.None? && stop && jobs == []
      modifies `running
      ensures Valid() && !running
    {
      running := false;
    }

    method RequestStop()
      requires Valid() && started
      modifies `stop
      ensures Valid() && stop
    {
      stop := true;
    }

    /** The end of `stop_presenter`, after the thread has been joined: nothing is lost there. */
    method FinishStop()
      requires Valid() && started && stop && !running
      modifies this
      ensures Valid() && !started && jobs == old(jobs) == [] && accepted == old(accepted)
      ensures dropped == old(dropped) && presented == old(presented)
      ensures EveryJobSettled(accepted, presented, dropped)
    {
      jobs := [];
      started := false;
      presenting := None;
      AllPlaced(accepted, presented, dropped);
    }
  }

  /** Each accepted job was presented once or dropped, and not both. */
  ghost predicate EveryJobSettled(accepted: seq<Job>, presented: seq<nat>, dropped: set<nat>) {
    forall n | 0 <= n < |accepted| :: (n in presented) != (n in dropped)
  }

  lemma AllPlaced(accepted: seq<Job>, presented: seq<nat>, dropped: set<nat>)
    requires Places(accepted, presented, None, dropped, |accepted|)
    ensures EveryJobSettled(accepted, presented, dropped)
  {
  }

  /** The jobs presented are a subsequence of the jobs accepted, in their order. */
  lemma PresentedInOrder(accepted: seq<Job>, presented: seq<nat>, inFlight: Option<nat>, dropped: set<nat>, next: nat)
    requires Places(accepted, presented, inFlight, dropped, next)
    ensures IsSubsequence(seq(|presented|, i requires 0 <= i < |presented| => accepted[presented[i]]), accepted)
  {
    TakenInOrder(accepted, presented);
  }

  ghost predicate IsSubsequence(a: seq<Job>, b: seq<Job>) {
    if a == [] then true
    else if b == [] then false
    else if a[|a| - 1] == b[|b| - 1] && IsSubsequence(a[..|a| - 1], b[..|b| - 1]) then true
    else IsSubsequence(a, b[..|b| - 1])
  }

  lemma {:induction false} TakenInOrder(all: seq<Job>, picks: seq<nat>)
    requires forall i | 0 <= i < |picks| :: picks[i] < |all|
    requires forall i, j | 0 <= i < j < |picks| :: picks[i] < picks[j]
    ensures IsSubsequence(seq(|picks|, i requires 0 <= i < |picks| => all[picks[i]]), all)
  {
    var a := seq(|picks|, i requires 0 <= i < |picks| => all[picks[i]]);
    if picks != [] {
      assert picks[0] < |all|;
      var last, n := |picks| - 1, |all| - 1;
      var shorter := all[..n];
      if picks[last] == n {
        var b := seq(last, i requires 0 <= i < last => shorter[picks[..last][i]]);
        assert a[..last] == b;
        TakenInOrder(shorter, picks[..last]);
      } else {
        var b := seq(|picks|, i requires 0 <= i < |picks| => shorter[picks[i]]);
        assert a == b;
        TakenInOrder(shorter, picks);
      }
    }
  }
}

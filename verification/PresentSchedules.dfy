/** When the images of a frame group are to be presented: slot deadlines, and the slide of a group
    that was encoded too late. Times are nanoseconds, as integers. */
module PresentSchedules {
  import opened Wrappers
  import opened Presenter

  /** Slot `k` of `count` in the period that starts at `base`. */
  function SlotDeadline(base: nat, interval: nat, count: nat, k: nat): nat
    requires count > 0
  {
    base + interval * k / count
  }

  /** The first point of the group's own grid after `now`. */
  function Late(first: int, interval: nat, now: int): int
    requires interval > 0
  {
    if now > first then first + ((now - first) / interval + 1) * interval else first
  }

  /** Where a group is anchored: never on the anchor of the group before, or earlier. */
  function Anchor(first: int, interval: nat, now: int, last: Option<int>): int
    requires interval > 0
  {
    if last.Some? && Late(first, interval, now) <= last.value then last.value + interval else Late(first, interval, now)
  }

  function SlidPeriods(shift: int, interval: nat): nat
    requires interval > 0
  {
    if shift > 0 then (shift + interval - 1) / interval else 0
  }

  function Slid(job: Job, shift: int, interval: nat): Job
    requires interval > 0
  {
    if shift > 0 then job.(presentAt := job.presentAt + shift, slidPeriods := SlidPeriods(shift, interval)) else job
  }

  const NATIVE_PRESENT_OFFSET := 6_500_000

  /** `slotPresentDeadline`: no time at all without a schedule, and one near the boundary that just
      passed without interpolation. */
  function PresentDeadline(base: nat, interval: nat, interpolated: nat, slot: nat): int {
    if base == 0 || interval == 0 then 0
    else if interpolated == 0 then base - interval + NATIVE_PRESENT_OFFSET
    else SlotDeadline(base, interval, interpolated + 1, slot)
  }

  function PresentTimes(jobs: seq<Job>): (times: seq<int>)
    ensures |times| == |jobs|
    ensures forall k | 0 <= k < |jobs| :: times[k] == jobs[k].presentAt
  {
    if jobs == [] then [] else PresentTimes(jobs[..|jobs| - 1]) + [jobs[|jobs| - 1].presentAt]
  }

  ghost predicate Increasing(times: seq<int>) {
    forall j, k | 0 <= j < k < |times| :: times[j] < times[k]
  }

  /** Times that increase and end within the period of the group's anchor. */
  ghost predicate EndsInPeriod(times: seq<int>, anchor: Option<int>, interval: nat) {
    && Increasing(times)
    && (anchor.None? ==> times == [])
    && (anchor.Some? ==> forall t | t in times :: t < anchor.value + interval)
  }

  class FrameEncoder {
    var lastGroupAnchor: Option<int>
    /** When each job is to be presented, of all groups since the cursor was last forgotten. */
    ghost var times: seq<int>

    constructor ()
      ensures lastGroupAnchor == None && times == []
    {
      lastGroupAnchor, times := None, [];
    }

    /** The schedule of one frame group: the slot deadlines of its jobs, moved as a whole to the
        group's anchor. If the cursor is on the grid of the new group and every slot has a
        nanosecond, the times of this group increase and continue those of the groups before it,
        however late it is encoded. */
    method EncodeSealedFrame(logicalFrame: nat, base: nat, interval: nat, interpolated: nat, now: int)
      returns (jobs: array<Job>)
      modifies this
      ensures fresh(jobs) && jobs.Length == interpolated + 1
      ensures forall k | 0 <= k < jobs.Length :: jobs[k].logicalFrame == logicalFrame && jobs[k].slot == k
      ensures interpolated == 0 || base == 0 || interval == 0 ==>
                && lastGroupAnchor == None && times == []
                && forall k | 0 <= k < jobs.Length ::
                     jobs[k].slidPeriods == 0
                     && jobs[k].presentAt == if base > 0 && interval > 0 then base - interval + 6_500_000 else 0
      ensures interpolated > 0 && base > 0 && interval > 0 ==>
                var anchor := Anchor(base, interval, now, old(lastGroupAnchor));
                && lastGroupAnchor == Some(anchor) && times == old(times) + PresentTimes(jobs[..])
                && forall k | 0 <= k < jobs.Length ::
                     jobs[k].slidPeriods == SlidPeriods(anchor - base, interval)
                     && jobs[k].presentAt == anchor + interval * k / jobs.Length
      ensures interpolated > 0 && base > 0 && interval > interpolated
              && EndsInPeriod(old(times), old(lastGroupAnchor), interval)
              && (old(lastGroupAnchor).Some? ==> old(lastGroupAnchor).value % interval == base % interval) ==>
                EndsInPeriod(times, lastGroupAnchor, interval) && lastGroupAnchor.value % interval == base % interval
    {
      var count := interpolated + 1;
      jobs := new Job[count](k requires 0 <= k < count => Job(logicalFrame, k, PresentDeadline(base, interval, interpolated, k), 0));
      assert interval * 0 / count == 0;
      ScheduleGroup(jobs, base, interval, interpolated > 0, now);
      if interpolated > 0 && base > 0 && interval > 0 {
        ghost var anchor := Anchor(base, interval, now, old(lastGroupAnchor));
        AnchorAdvances(base, interval, now, old(lastGroupAnchor));
        times := times + PresentTimes(jobs[..]);
        if interval > interpolated && EndsInPeriod(old(times), old(lastGroupAnchor), interval)
           && (old(lastGroupAnchor).Some? ==> old(lastGroupAnchor).value % interval == base % interval) {
          GroupContinues(old(times), old(lastGroupAnchor), base, interval, now, PresentTimes(jobs[..]));
        }
      } else {
        times := [];
      }
    }

    /** Anchors a group of jobs. Without a schedule the grid is gone, and the cursor with it. */
    method ScheduleGroup(jobs: array<Job>, base: nat, interval: nat, interpolationActive: bool, now: int)
      requires jobs.Length > 0
      requires interpolationActive && base != 0 && interval != 0 ==> jobs[0].presentAt == base
      requires interpolationActive && interval != 0 && base == 0 ==> jobs[0].presentAt == 0
      modifies `lastGroupAnchor, jobs
      ensures interpolationActive && base != 0 && interval != 0 ==>
                var anchor := Anchor(base, interval, now, old(lastGroupAnchor));
                && lastGroupAnchor == Some(anchor)
                && forall k | 0 <= k < jobs.Length :: jobs[k] == Slid(old(jobs[k]), anchor - base, interval)
      ensures !(interpolationActive && base != 0 && interval != 0) ==> lastGroupAnchor == None && jobs[..] == old(jobs[..])
    {
      if interpolationActive && interval != 0 && jobs[0].presentAt != 0 {
        var first := jobs[0].presentAt;
        var anchor := first;
        if now > anchor {
          var behind := now - anchor;
          var periods := behind / interval + 1;
          anchor := anchor + periods * interval;
        }
        if lastGroupAnchor.Some? && anchor <= lastGroupAnchor.value {
          anchor := lastGroupAnchor.value + interval;
        }
        assert anchor == Anchor(base, interval, now, lastGroupAnchor);
        var shift := anchor - first;
        if shift > 0 {
          var slidPeriods := (shift + interval - 1) / interval;
          var i := 0;
          while i < jobs.Length
            modifies jobs
            invariant 0 <= i <= jobs.Length
            invariant forall k | 0 <= k < jobs.Length ::
                        jobs[k] == if k < i then Slid(old(jobs[k]), shift, interval) else old(jobs[k])
          {
            jobs[i] := jobs[i].(presentAt := jobs[i].presentAt + shift, slidPeriods := slidPeriods);
            i := i + 1;
          }
        }
        lastGroupAnchor := Some(anchor);
      } else {
        lastGroupAnchor := None;
      }
    }
  }

  // ---- Anchors ----

  lemma DivideBounds(a: int, b: nat)
    requires b > 0
    ensures a / b * b <= a < (a / b + 1) * b
  {
  }

  /** A group that is late moves strictly past `now`, by one period beyond it at most, and whole
      periods from where it was. */
  lemma LateIsNextPeriod(first: int, interval: nat, now: int)
    requires interval > 0 && now > first
    ensures now < Late(first, interval, now) <= now + interval
  {
    DivideBounds(now - first, interval);
    var q := (now - first) / interval;
    assert (q + 1) * interval == q * interval + interval;
  }

  /** Consecutive scheduled groups get strictly increasing anchors, never before their base. */
  lemma AnchorAdvances(first: int, interval: nat, now: int, last: Option<int>)
    requires interval > 0
    ensures Anchor(first, interval, now, last) >= first
    ensures last.Some? ==> Anchor(first, interval, now, last) > last.value
  {
    if now > first { LateIsNextPeriod(first, interval, now); }
  }

  lemma LateStaysOnGrid(origin: int, interval: nat, m: int, now: int) returns (q: nat)
    requires interval > 0
    ensures Late(origin + m * interval, interval, now) == origin + (m + q) * interval
  {
    var first := origin + m * interval;
    q := if now > first then (now - first) / interval + 1 else 0;
    Distribute(m, q, interval);
  }

  lemma Distribute(a: int, b: int, c: int)
    ensures (a + b) * c == a * c + b * c
  {
  }

  /** On a grid of `interval`, with the base at step `m` and the last anchor at step `l`, the new
      anchor is a later step of the same grid. */
  lemma AnchorStaysOnGrid(origin: int, interval: nat, m: int, l: Option<int>, now: int) returns (a: int)
    requires interval > 0
    ensures var last := if l.Some? then Some(origin + l.value * interval) else None;
            Anchor(origin + m * interval, interval, now, last) == origin + a * interval
    ensures a >= m && (l.Some? ==> a > l.value)
  {
    var q := LateStaysOnGrid(origin, interval, m, now);
    a := m + q;
    if l.Some? {
      StepsOrder(m + q, l.value, interval);
      Distribute(l.value, 1, interval);
      if m + q <= l.value { a := l.value + 1; }
    }
  }

  lemma StepsOrder(a: int, b: int, c: nat)
    requires c > 0
    ensures a <= b <==> a * c <= b * c
  {
    if a <= b {
      MultiplyKeepsOrder(a, b, c);
    } else {
      MultiplyKeepsOrder(b + 1, a, c);
      Distribute(b, 1, c);
    }
  }

  lemma MultiplyKeepsOrder(a: int, b: int, c: nat)
    requires a <= b
    ensures a * c <= b * c
  {
    assert b * c - a * c == (b - a) * c;
  }

  /** On the grid, the shift of a group is exactly the number of whole periods it reports. */
  lemma ShiftIsWholePeriods(interval: nat, periods: nat)
    requires interval > 0
    ensures SlidPeriods(periods * interval, interval) == periods
  {
    if periods > 0 {
      var x := periods * interval + interval - 1;
      assert x == periods * interval + (interval - 1);
      DivideExactly(x, interval, periods, interval - 1);
    }
  }

  lemma DivideExactly(x: int, b: nat, q: int, r: nat)
    requires b > 0 && x == q * b + r && r < b
    ensures x / b == q
  {
    var d := x / b;
    DivideBounds(x, b);
    Distribute(q, 1, b);
    StepsOrder(d + 1, q, b);
    StepsOrder(q + 1, d, b);
  }

  // ---- Deadlines ----

  lemma SlotWithinPeriod(interval: nat, count: nat, k: nat)
    requires k < count
    ensures interval * k / count <= interval
    ensures interval > 0 ==> interval * k / count < interval
  {
    DivideBounds(interval * k, count);
    var q := interval * k / count;
    if q >= interval && interval > 0 {
      MultiplyKeepsOrder(interval, q, count);
      assert interval * k == interval * count - interval * (count - k);
      MultiplyKeepsOrder(1, count - k, interval);
    }
  }

  lemma NextSlotLater(interval: nat, count: nat, k: nat)
    requires count > 0 && interval >= count
    ensures interval * k / count < interval * (k + 1) / count
  {
    var q := interval * k / count;
    DivideBounds(interval * k, count);
    DivideBounds(interval * (k + 1), count);
    var p := interval * (k + 1) / count;
    assert interval * (k + 1) == interval * k + interval;
    Distribute(q, 1, count);
    StepsOrder(p + 1, q + 1, count);
  }

  lemma {:induction false} SlotsLater(interval: nat, count: nat, j: nat, k: nat)
    requires count > 0 && interval >= count && j < k
    ensures interval * j / count < interval * k / count
    decreases k
  {
    NextSlotLater(interval, count, k - 1);
    if j < k - 1 { SlotsLater(interval, count, j, k - 1); }
  }

  /** Strictly increasing numbers are at least as far apart as their positions. */
  lemma {:induction false} IncreasingSpread(f: nat -> nat, k: nat)
    requires forall i: nat | i < k :: f(i) < f(i + 1)
    ensures f(k) >= f(0) + k
  {
    if k > 0 { IncreasingSpread(f, k - 1); }
  }

  /** The deadlines of one group strictly increase if and only if the interval has a nanosecond
      for each slot. */
  lemma DeadlinesIncrease(base: nat, interval: nat, count: nat)
    requires count > 0 && interval > 0
    ensures interval >= count <==>
            forall j: nat, k: nat | j < k < count ::
              SlotDeadline(base, interval, count, j) < SlotDeadline(base, interval, count, k)
  {
    if interval >= count {
      forall j: nat, k: nat | j < k < count
        ensures SlotDeadline(base, interval, count, j) < SlotDeadline(base, interval, count, k)
      {
        SlotsLater(interval, count, j, k);
      }
    } else if forall j: nat, k: nat | j < k < count ::
                SlotDeadline(base, interval, count, j) < SlotDeadline(base, interval, count, k) {
      var f := (k: nat) => SlotDeadline(base, interval, count, k);
      forall i: nat | i < count - 1
        ensures f(i) < f(i + 1)
      {
        assert i < i + 1 < count;
      }
      IncreasingSpread(f, count - 1);
      assert f(0) == base by { assert interval * 0 == 0; }
      SlotWithinPeriod(interval, count, count - 1);
    }
  }

  // ---- From group to group ----

  lemma DividesBack(a: int, n: nat)
    requires n > 0
    ensures a == a / n * n + a % n
  {
  }

  lemma WholePeriodsKeepPhase(a: int, q: int, n: nat)
    requires n > 0
    ensures (a + q * n) % n == a % n
  {
    var b := a + q * n;
    DividesBack(a, n);
    DividesBack(b, n);
    Distribute(a / n, q, n);
    DivideExactly(b, n, a / n + q, a % n);
  }

  lemma SamePhaseIsPeriodApart(a: int, b: int, n: nat)
    requires n > 0 && a % n == b % n && a < b
    ensures a + n <= b
  {
    DividesBack(a, n);
    DividesBack(b, n);
    StepsOrder(b / n, a / n, n);
    LaterPeriod(a / n, b / n, n);
  }

  lemma LaterPeriod(x: int, y: int, interval: nat)
    requires x < y
    ensures x * interval + interval <= y * interval
  {
    MultiplyKeepsOrder(x + 1, y, interval);
    Distribute(x, 1, interval);
  }

  lemma AnchorKeepsPhase(first: int, interval: nat, now: int, last: Option<int>)
    requires interval > 0 && (last.Some? ==> last.value % interval == first % interval)
    ensures Anchor(first, interval, now, last) % interval == first % interval
  {
    if now > first { WholePeriodsKeepPhase(first, (now - first) / interval + 1, interval); }
    if last.Some? { WholePeriodsKeepPhase(last.value, 1, interval); }
  }

  /** A group on the grid of the cursor starts after everything the groups before it present. */
  lemma GroupContinues(times: seq<int>, last: Option<int>, base: int, interval: nat, now: int, group: seq<int>)
    requires 0 < |group| <= interval && EndsInPeriod(times, last, interval)
    requires last.Some? ==> last.value % interval == base % interval
    requires forall k | 0 <= k < |group| :: group[k] == Anchor(base, interval, now, last) + interval * k / |group|
    ensures EndsInPeriod(times + group, Some(Anchor(base, interval, now, last)), interval)
    ensures Anchor(base, interval, now, last) % interval == base % interval
  {
    hide Anchor;
    var anchor := Anchor(base, interval, now, last);
    AnchorKeepsPhase(base, interval, now, last);
    AnchorAdvances(base, interval, now, last);
    if last.Some? { SamePhaseIsPeriodApart(last.value, anchor, interval); }
    assert forall t | t in times :: t < anchor;
    GroupInPeriod(anchor, interval, group);
    IncreasingConcat(times, group, anchor);
  }

  lemma IncreasingConcat(times: seq<int>, group: seq<int>, anchor: int)
    requires Increasing(times) && forall t | t in times :: t < anchor
    requires Increasing(group) && forall t | t in group :: anchor <= t
    ensures Increasing(times + group)
  {
    var all := times + group;
    forall j, k | 0 <= j < k < |all|
      ensures all[j] < all[k]
    {
      if j < |times| <= k {
        assert times[j] in times && group[k - |times|] in group;
      }
    }
  }

  lemma GroupInPeriod(anchor: int, interval: nat, group: seq<int>)
    requires 0 < |group| <= interval
    requires forall k | 0 <= k < |group| :: group[k] == anchor + interval * k / |group|
    ensures Increasing(group) && forall t | t in group :: anchor <= t < anchor + interval
  {
    forall j, k | 0 <= j < k < |group|
      ensures group[j] < group[k]
    {
      SlotsLater(interval, |group|, j, k);
    }
    forall k | 0 <= k < |group|
      ensures anchor <= group[k] < anchor + interval
    {
      SlotWithinPeriod(interval, |group|, k);
      DivideBounds(interval * k, |group|);
    }
  }
}

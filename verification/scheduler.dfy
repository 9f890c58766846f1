/**
 The fixed-interval schedule of `run`.  The first deadline is one interval
 after start; after every cycle the loop sleeps until the deadline (not at all
 if it has passed) and then moves the deadline on by exactly one interval.
 Time is exact: seconds as reals.
 */
module Scheduler {

  function Max(a: real, b: real): real {
    if a < b then b else a
  }

  /** The deadline the loop starts with, one interval after `start`. */
  function FirstDeadline(start: real, interval: real): real {
    start + interval
  }

  /** How long the loop sleeps when the clock reads `now` after a cycle's
      work: until the deadline, or not at all when it has passed. */
  function SleepFor(deadline: real, now: real): (s: real)
    ensures s >= 0.0
    ensures s > 0.0 <==> now < deadline
    ensures now + s == Max(now, deadline)
  {
    var sleepTime := deadline - now;
    if sleepTime > 0.0 then sleepTime else 0.0
  }

  /** The deadline for the next cycle: one interval later, whatever the clock
      reads. */
  function NextDeadline(deadline: real, interval: real): real {
    deadline + interval
  }

  /** The reference schedule: slot `k` lies `k` intervals after `start`. */
  function Slot(start: real, interval: real, k: nat): real {
    if k == 0 then start else Slot(start, interval, k - 1) + interval
  }

  /** The deadline cycle `k` sleeps towards: the start of slot `k + 1`. */
  function Anchor(start: real, interval: real, k: nat): real {
    Slot(start, interval, k + 1)
  }

  /** Slot `k` in closed form. */
  lemma {:induction false} SlotClosedForm(start: real, interval: real, k: nat)
    ensures Slot(start, interval, k) == start + (k as real) * interval
  {
    if k > 0 {
      SlotClosedForm(start, interval, k - 1);
      assert (k as real) * interval == ((k - 1) as real) * interval + interval;
    }
  }

  /** When each cycle starts, given how long each cycle's work takes, and the
      deadline held after the last of them. */
  datatype Timeline = Timeline(starts: seq<real>, deadline: real)

  /** Replays the loop over work durations: cycle 0 starts at `start`; cycle
      `k + 1` starts when cycle `k`'s sleep ends.  The deadline stays anchored
      whatever the durations. */
  function Replay(start: real, interval: real, works: seq<real>): (r: Timeline)
    ensures |r.starts| == |works| + 1
    ensures r.starts[0] == start
    ensures r.deadline == Anchor(start, interval, |works|)
  {
    if |works| == 0 then
      assert Slot(start, interval, 0) == start;
      Timeline([start], FirstDeadline(start, interval))
    else
      var prev := Replay(start, interval, works[..|works| - 1]);
      var now := prev.starts[|works| - 1] + works[|works| - 1];
      Timeline(prev.starts + [now + SleepFor(prev.deadline, now)], NextDeadline(prev.deadline, interval))
  }

  /** Cycle `k + 1` starts at the later of cycle `k`'s anchored deadline and
      the end of cycle `k`'s work. */
  lemma {:induction false} NextStart(start: real, interval: real, works: seq<real>, k: nat)
    requires k < |works|
    ensures var s := Replay(start, interval, works).starts;
            s[k + 1] == Max(s[k] + works[k], Anchor(start, interval, k))
  {
    var n := |works|;
    var prev := Replay(start, interval, works[..n - 1]);
    if k == n - 1 {
    } else {
      NextStart(start, interval, works[..n - 1], k);
      assert Replay(start, interval, works).starts[..n] == prev.starts;
    }
  }

  /** No drift: when no cycle's work outlasts the interval, cycle `k` starts
      exactly `k` intervals after `start`. */
  lemma {:induction false} NoDrift(start: real, interval: real, works: seq<real>)
    requires forall k | 0 <= k < |works| :: works[k] <= interval
    ensures var s := Replay(start, interval, works).starts;
            forall k | 0 <= k < |s| :: s[k] == start + (k as real) * interval
  {
    var s := Replay(start, interval, works).starts;
    forall k | 0 <= k < |s|
      ensures s[k] == start + (k as real) * interval
    {
      StartOnSlot(start, interval, works, k);
      SlotClosedForm(start, interval, k);
    }
  }

  /** Cycle `k` starts exactly on slot `k` while no cycle outlasts the interval. */
  lemma {:induction false} StartOnSlot(start: real, interval: real, works: seq<real>, k: nat)
    requires forall j | 0 <= j < |works| :: works[j] <= interval
    requires k <= |works|
    ensures Replay(start, interval, works).starts[k] == Slot(start, interval, k)
  {
    if k > 0 {
      StartOnSlot(start, interval, works, k - 1);
      NextStart(start, interval, works, k - 1);
    }
  }

  /** Never early: with non-negative work durations, no cycle starts before its
      slot. */
  lemma {:induction false} NeverEarly(start: real, interval: real, works: seq<real>, k: nat)
    requires forall j | 0 <= j < |works| :: works[j] >= 0.0
    requires k <= |works|
    ensures Replay(start, interval, works).starts[k] >= Slot(start, interval, k)
  {
    if k > 0 {
      NeverEarly(start, interval, works, k - 1);
      NextStart(start, interval, works, k - 1);
    }
  }

  /** The loop's sleep and the replay agree: when the clock reads the end of
      cycle `k`'s work, sleeping `max(0, deadline - now)` towards the anchored
      deadline ends exactly when the replay starts cycle `k + 1`. */
  lemma SleepEndsAtNextStart(start: real, interval: real, works: seq<real>, k: nat)
    requires k < |works|
    ensures var s := Replay(start, interval, works).starts;
            var now := s[k] + works[k];
            now + Max(0.0, Anchor(start, interval, k) - now) == s[k + 1]
  {
    NextStart(start, interval, works, k);
  }

  /** An overrun does not reset the schedule: a cycle whose work ends at or
      after its deadline is followed immediately by the next cycle, and the
      deadlines after it stay on the original grid. */
  lemma BackToBackAfterOverrun(start: real, interval: real, works: seq<real>, k: nat)
    requires k < |works|
    requires Replay(start, interval, works).starts[k] + works[k] >= Anchor(start, interval, k)
    ensures Replay(start, interval, works).starts[k + 1] == Replay(start, interval, works).starts[k] + works[k]
    ensures Replay(start, interval, works).deadline == Anchor(start, interval, |works|)
  {
    NextStart(start, interval, works, k);
  }

  /** The catch-up burst: with a 30 s interval, a 70 s cycle followed by a 5 s
      one makes the next cycle start only 5 s after the previous one. */
  lemma CatchUpBurst()
    ensures Replay(0.0, 30.0, [70.0, 5.0]).starts == [0.0, 70.0, 75.0]
  {
    assert [70.0, 5.0][..1] == [70.0];
    assert [70.0][..0] == [];
  }
}

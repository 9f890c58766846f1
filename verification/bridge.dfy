/**
 The whole `run` loop: cycles one after another, each followed by its sleep,
 until an uncaught error ends the loop or the process is interrupted.
 */
module Bridge {

  import opened Messages
  import opened Topics
  import opened Poll
  import opened Cycle
  import opened Scheduler

  /** What the outside world supplies to one cycle: the request's outcome
      and the clock reading taken after the cycle's work. */
  datatype CycleInput = CycleInput(outcome: PollOutcome, now: real)

  /** How the loop ended: the inputs ran out (an interrupt between cycles),
      or a cycle raised an uncaught error. */
  datatype Ending = Interrupted | Crashed

  /** The bridge's cycle body for a prefix and broker. */
  function Plan(prefix: string, ack: Publish -> int): PollOutcome -> CycleResult {
    o => RunCycle(prefix, o, ack)
  }

  /** Everything the first `n` cycles of `inputs` publish, in order, under the
      cycle body `plan`. */
  function Trace(plan: PollOutcome -> CycleResult, inputs: seq<CycleInput>, n: nat): seq<Publish>
    requires n <= |inputs|
  {
    if n == 0 then []
    else Trace(plan, inputs, n - 1) + plan(inputs[n - 1].outcome).publishes
  }

  /** The loop of `run` around a cycle body `plan`: the deadline starts one
      interval after `start`; each cycle publishes its plan, and unless it
      crashed, sleeps towards the deadline, which then moves on one interval. */
  method Loop(plan: PollOutcome -> CycleResult, start: real, interval: real, inputs: seq<CycleInput>)
    returns (published: seq<Publish>, sleeps: seq<real>, ending: Ending)
    ensures |sleeps| <= |inputs|
    ensures forall j | 0 <= j < |sleeps| :: plan(inputs[j].outcome).fate == Continues
    ensures forall k | 0 <= k < |sleeps| :: sleeps[k] == Max(0.0, Anchor(start, interval, k) - inputs[k].now)
    ensures ending == Interrupted ==> |sleeps| == |inputs| && published == Trace(plan, inputs, |inputs|)
    ensures ending == Crashed ==>
              && |sleeps| < |inputs|
              && plan(inputs[|sleeps|].outcome).fate == Crashes
              && published == Trace(plan, inputs, |sleeps| + 1)
  {
    var nextRunTime := FirstDeadline(start, interval);
    assert Slot(start, interval, 0) == start;
    published := [];
    sleeps := [];
    var k := 0;
    while k < |inputs|
      invariant 0 <= k <= |inputs|
      invariant |sleeps| == k
      invariant nextRunTime == Anchor(start, interval, k)
      invariant published == Trace(plan, inputs, k)
      invariant forall j | 0 <= j < k :: plan(inputs[j].outcome).fate == Continues
      invariant forall j | 0 <= j < k :: sleeps[j] == Max(0.0, Anchor(start, interval, j) - inputs[j].now)
    {
      var cycle := plan(inputs[k].outcome);
      published := published + cycle.publishes;
      if cycle.fate == Crashes {
        ending := Crashed;
        return;
      }
      var sleepTime := SleepFor(nextRunTime, inputs[k].now);
      sleeps := sleeps + [sleepTime];
      nextRunTime := NextDeadline(nextRunTime, interval);
      k := k + 1;
    }
    ending := Interrupted;
  }

  /** `run`: the loop around the bridge's own cycle body.  It stops at the
      first cycle whose body is truthy but not a dict, after that cycle and
      before its sleep. */
  method Run(prefix: string, start: real, interval: real, inputs: seq<CycleInput>, ack: Publish -> int)
    returns (published: seq<Publish>, sleeps: seq<real>, ending: Ending)
    ensures |sleeps| <= |inputs|
    ensures forall j | 0 <= j < |sleeps| :: !CrashesOn(inputs[j].outcome)
    ensures forall k | 0 <= k < |sleeps| :: sleeps[k] == Max(0.0, Anchor(start, interval, k) - inputs[k].now)
    ensures ending == Interrupted ==> |sleeps| == |inputs| && published == Trace(Plan(prefix, ack), inputs, |inputs|)
    ensures ending == Crashed ==>
              && |sleeps| < |inputs|
              && CrashesOn(inputs[|sleeps|].outcome)
              && published == Trace(Plan(prefix, ack), inputs, |sleeps| + 1)
  {
    published, sleeps, ending := Loop(Plan(prefix, ack), start, interval, inputs);
  }

  /** Nothing the loop publishes is retained or goes to `online`: liveness is
      left entirely to the will and the connect callback. */
  lemma {:induction false} RunLeavesOnlineAlone(prefix: string, inputs: seq<CycleInput>, n: nat, ack: Publish -> int)
    requires n <= |inputs|
    ensures forall p | p in Trace(Plan(prefix, ack), inputs, n) ::
              !p.retain && p.qos == QoS && p.topic != Topic(prefix, Online)
  {
    if n > 0 {
      var plan := Plan(prefix, ack);
      var earlier := Trace(plan, inputs, n - 1);
      var last := plan(inputs[n - 1].outcome).publishes;
      RunLeavesOnlineAlone(prefix, inputs, n - 1, ack);
      CyclePublishesConfined(prefix, inputs[n - 1].outcome, ack);
      OnlineNotACycleTopic(prefix);
      assert last == RunCycle(prefix, inputs[n - 1].outcome, ack).publishes;
      forall p: Publish | p in earlier + last
        ensures !p.retain && p.qos == QoS && p.topic != Topic(prefix, Online)
      {
        if p !in earlier {
          assert p in last;
        }
      }
    }
  }

  /** Each failed poll of a run contributes exactly one `"false"` to
      `server_online`, so a run of only failed polls publishes nothing else. */
  lemma {:induction false} FailingRunPublishesOnlyOffline(prefix: string, inputs: seq<CycleInput>, n: nat, ack: Publish -> int)
    requires n <= |inputs|
    requires forall k | 0 <= k < n :: !Succeeded(inputs[k].outcome)
    ensures |Trace(Plan(prefix, ack), inputs, n)| == n
    ensures forall i | 0 <= i < n :: Trace(Plan(prefix, ack), inputs, n)[i] == StatusReport(prefix, false)
  {
    if n > 0 {
      FailingRunPublishesOnlyOffline(prefix, inputs, n - 1, ack);
      FailedPollReportsOffline(prefix, inputs[n - 1].outcome, ack);
    }
  }
}

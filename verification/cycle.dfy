/**
 The publication plan of one poll cycle: the body of the `run` loop up to the
 sleep.  Given what the request produced, it fixes which messages the cycle
 publishes, in which order, and whether the loop survives the cycle.
 */
module Cycle {

  import opened Wrappers
  import opened Json
  import opened Messages
  import opened Topics
  import opened Poll

  /** Whether the loop goes on after the cycle.  A truthy body that is not a
      dict makes `.get` raise `AttributeError`, which nothing catches. */
  datatype Fate = Continues | Crashes

  /** The request succeeded with a body that is truthy yet not a dict. */
  predicate CrashesOn(o: PollOutcome) {
    Succeeded(o) && Truthy(o.body.value) && !o.body.value.JObject?
  }

  /** The request succeeded with a non-empty dict, so the cycle reports the
      source online. */
  predicate CycleReportsOnline(o: PollOutcome) {
    Succeeded(o) && Truthy(o.body.value) && o.body.value.JObject?
  }

  datatype CycleResult = CycleResult(publishes: seq<Publish>, log: seq<LogLine>, fate: Fate)

  /** `publish_to_mqtt`: publish with quality of service 1, not retained.  The
      broker's return code `rc` only chooses the log line. */
  function PublishToMqtt(topic: string, message: Payload, rc: int): (r: (Publish, LogLine))
    ensures r.0.topic == topic && r.0.payload == message && r.0.qos == QoS && !r.0.retain
    ensures r.1.Sent? <==> rc == 0
  {
    var p := Publish(topic, message, QoS, false);
    (p, if rc == 0 then Sent(topic, message) else SendFailed(topic))
  }

  /** The forwarding of one sub-document: nothing when it is `None`, else its
      JSON text to the channel's topic.  `ack` is the return code the broker
      client gives for a publish. */
  function Forward(prefix: string, c: Channel, value: Json, ack: Publish -> int): (r: (seq<Publish>, seq<LogLine>))
    ensures |r.0| == |r.1| <= 1
    ensures value == JNull <==> r.0 == []
    ensures forall p | p in r.0 :: p.topic == Topic(prefix, c) && p.payload == Dump(value) && p.qos == QoS && !p.retain
    ensures value != JNull ==> (r.1[0].Sent? <==> ack(r.0[0]) == 0)
  {
    if value == JNull then ([], [])
    else
      var topic := Topic(prefix, c);
      var (p, line) := PublishToMqtt(topic, Dump(value), ack(Publish(topic, Dump(value), QoS, false)));
      ([p], [line])
  }

  /** The publishes of a cycle whose document is a non-empty dict: `printer`
      if not `None`, then `job` if not `None`, then `"true"` to
      `server_online`. */
  function ReportDocument(prefix: string, fields: map<string, Json>, ack: Publish -> int): (r: CycleResult)
    ensures r.fate == Continues
    ensures |r.publishes| > 0 && r.publishes[|r.publishes| - 1] == StatusReport(prefix, true)
  {
    var printer := DictGet(fields, "printer");
    var job := DictGet(fields, "job");
    var (printerPublishes, printerLog) := Forward(prefix, Printer, printer, ack);
    var (jobPublishes, jobLog) := Forward(prefix, Job, job, ack);
    CycleResult(printerPublishes + jobPublishes + [StatusReport(prefix, true)], printerLog + jobLog, Continues)
  }

  /** One cycle of `run`: fetch, then on a truthy dict forward `printer`, then
      `job`, then report the source online. */
  function RunCycle(prefix: string, o: PollOutcome, ack: Publish -> int): (r: CycleResult)
    ensures r.fate == Crashes <==> CrashesOn(o)
  {
    var fetched := GetPrinterData(prefix, o);
    if !Truthy(fetched.data) then
      CycleResult(fetched.publishes, fetched.log, Continues)
    else if !fetched.data.JObject? then
      CycleResult(fetched.publishes, fetched.log, Crashes)
    else
      var report := ReportDocument(prefix, fetched.data.fields, ack);
      CycleResult(fetched.publishes + report.publishes, fetched.log + report.log, report.fate)
  }

  /** The three topics a cycle may publish to. */
  function CycleTopics(prefix: string): set<string> {
    {Topic(prefix, ServerOnline), Topic(prefix, Printer), Topic(prefix, Job)}
  }

  /** A dict's report publishes only to `printer`, `job` and `server_online`,
      never retained, at quality of service 1. */
  lemma DocumentConfined(prefix: string, fields: map<string, Json>, ack: Publish -> int)
    ensures forall p | p in ReportDocument(prefix, fields, ack).publishes ::
              !p.retain && p.qos == QoS && p.topic in CycleTopics(prefix)
  {
    var pp := Forward(prefix, Printer, DictGet(fields, "printer"), ack).0;
    var jp := Forward(prefix, Job, DictGet(fields, "job"), ack).0;
    assert ReportDocument(prefix, fields, ack).publishes == pp + jp + [StatusReport(prefix, true)];
  }

  /** `online` is not among the topics a cycle may publish to. */
  lemma OnlineNotACycleTopic(prefix: string)
    ensures Topic(prefix, Online) !in CycleTopics(prefix)
  {
    TopicsDistinct(prefix, Online, ServerOnline);
    TopicsDistinct(prefix, Online, Printer);
    TopicsDistinct(prefix, Online, Job);
  }

  /** A cycle publishes only to `server_online`, `printer` and `job`, always
      with quality of service 1 and never retained. */
  lemma CyclePublishesConfined(prefix: string, o: PollOutcome, ack: Publish -> int)
    ensures forall p | p in RunCycle(prefix, o, ack).publishes ::
              !p.retain && p.qos == QoS && p.topic in CycleTopics(prefix)
  {
    var ps := RunCycle(prefix, o, ack).publishes;
    if !Succeeded(o) {
      FailedPollReportsOffline(prefix, o, ack);
      assert ps == [StatusReport(prefix, false)];
    } else if Truthy(o.body.value) && o.body.value.JObject? {
      DocumentConfined(prefix, o.body.value.fields, ack);
      assert ps == ReportDocument(prefix, o.body.value.fields, ack).publishes;
    } else {
      assert ps == [];
    }
  }

  /** The topic of every publish, in order. */
  function TopicsOf(ps: seq<Publish>): seq<string> {
    seq(|ps|, i requires 0 <= i < |ps| => ps[i].topic)
  }

  /** The topic sequence a successful cycle on a non-empty dict produces:
      `printer` if present and not null, then `job` likewise, then
      `server_online`. */
  function ExpectedTopics(prefix: string, fields: map<string, Json>): seq<string> {
    (if DictGet(fields, "printer") != JNull then [Topic(prefix, Printer)] else [])
    + (if DictGet(fields, "job") != JNull then [Topic(prefix, Job)] else [])
    + [Topic(prefix, ServerOnline)]
  }

  /** A failed poll (exception, non-200 status, unreadable body) publishes
      exactly one non-retained `"false"` to `server_online` and nothing else. */
  lemma FailedPollReportsOffline(prefix: string, o: PollOutcome, ack: Publish -> int)
    requires !Succeeded(o)
    ensures RunCycle(prefix, o, ack).publishes == [StatusReport(prefix, false)]
    ensures RunCycle(prefix, o, ack).fate == Continues
  {
  }

  /** A 200 whose body is falsy (`{}`, `[]`, `null`, `false`, `0`, `""`)
      publishes nothing at all, not even `server_online`. */
  lemma FalsyBodyPublishesNothing(prefix: string, o: PollOutcome, ack: Publish -> int)
    requires Succeeded(o) && !Truthy(o.body.value)
    ensures RunCycle(prefix, o, ack).publishes == []
    ensures RunCycle(prefix, o, ack).fate == Continues
  {
  }

  /** A truthy body that is not a dict publishes nothing and ends the loop. */
  lemma NonObjectBodyCrashes(prefix: string, o: PollOutcome, ack: Publish -> int)
    requires Succeeded(o) && Truthy(o.body.value) && !o.body.value.JObject?
    ensures RunCycle(prefix, o, ack).publishes == []
    ensures RunCycle(prefix, o, ack).fate == Crashes
  {
  }

  /** The topics of a non-empty dict's report are `ExpectedTopics`, and only
      its last publish goes to `server_online`. */
  lemma DocumentTopics(prefix: string, fields: map<string, Json>, ack: Publish -> int)
    ensures TopicsOf(ReportDocument(prefix, fields, ack).publishes) == ExpectedTopics(prefix, fields)
    ensures var ps := ReportDocument(prefix, fields, ack).publishes;
            forall i | 0 <= i < |ps| - 1 :: ps[i].topic != Topic(prefix, ServerOnline)
  {
    var pp := Forward(prefix, Printer, DictGet(fields, "printer"), ack).0;
    var jp := Forward(prefix, Job, DictGet(fields, "job"), ack).0;
    var ps := ReportDocument(prefix, fields, ack).publishes;
    assert ps == pp + jp + [StatusReport(prefix, true)];
    TopicsDistinct(prefix, ServerOnline, Printer);
    TopicsDistinct(prefix, ServerOnline, Job);
    forall i | 0 <= i < |ps| - 1
      ensures ps[i].topic != Topic(prefix, ServerOnline)
    {
      if i < |pp| {
        assert ps[i] == pp[i];
      } else {
        assert ps[i] == jp[i - |pp|];
      }
    }
  }

  /** A successful cycle on a non-empty dict publishes to exactly the topics
      `ExpectedTopics` lists, in that order: `printer` iff the key holds a
      non-null value, likewise `job`, then `server_online` with `"true"`.  That
      last publish is the cycle's only one to `server_online`. */
  lemma SuccessfulCyclePlan(prefix: string, o: PollOutcome, ack: Publish -> int)
    requires Succeeded(o) && o.body.value.JObject? && |o.body.value.fields| > 0
    ensures var r := RunCycle(prefix, o, ack);
            && TopicsOf(r.publishes) == ExpectedTopics(prefix, o.body.value.fields)
            && r.publishes[|r.publishes| - 1] == StatusReport(prefix, true)
            && (forall i | 0 <= i < |r.publishes| - 1 :: r.publishes[i].topic != Topic(prefix, ServerOnline))
            && r.fate == Continues
  {
    var report := ReportDocument(prefix, o.body.value.fields, ack);
    assert RunCycle(prefix, o, ack).publishes == report.publishes;
    DocumentTopics(prefix, o.body.value.fields, ack);
  }

  /** In a dict's report, each JSON payload is the value under the key its
      topic names, and conversely every publish to `printer` (or `job`)
      carries exactly the value under that key. */
  lemma DocumentPayloads(prefix: string, fields: map<string, Json>, ack: Publish -> int)
    ensures forall p | p in ReportDocument(prefix, fields, ack).publishes && p.payload.Dump? ::
              || (p.topic == Topic(prefix, Printer) && DictGet(fields, "printer") == p.payload.value)
              || (p.topic == Topic(prefix, Job) && DictGet(fields, "job") == p.payload.value)
    ensures forall p | p in ReportDocument(prefix, fields, ack).publishes && p.topic == Topic(prefix, Printer) ::
              p.payload == Dump(DictGet(fields, "printer"))
    ensures forall p | p in ReportDocument(prefix, fields, ack).publishes && p.topic == Topic(prefix, Job) ::
              p.payload == Dump(DictGet(fields, "job"))
  {
    var pp := Forward(prefix, Printer, DictGet(fields, "printer"), ack).0;
    var jp := Forward(prefix, Job, DictGet(fields, "job"), ack).0;
    assert ReportDocument(prefix, fields, ack).publishes == pp + jp + [StatusReport(prefix, true)];
    TopicsDistinct(prefix, Printer, Job);
    TopicsDistinct(prefix, Printer, ServerOnline);
    TopicsDistinct(prefix, Job, ServerOnline);
  }

  /** Each forwarded payload is the sub-document its topic names, exactly as
      found under the `printer` or `job` key, and every publish to `printer`
      (or `job`) carries that key's value. */
  lemma ForwardedPayloads(prefix: string, o: PollOutcome, ack: Publish -> int)
    requires Succeeded(o) && o.body.value.JObject?
    ensures forall p | p in RunCycle(prefix, o, ack).publishes && p.payload.Dump? ::
              || (p.topic == Topic(prefix, Printer) && DictGet(o.body.value.fields, "printer") == p.payload.value)
              || (p.topic == Topic(prefix, Job) && DictGet(o.body.value.fields, "job") == p.payload.value)
    ensures forall p | p in RunCycle(prefix, o, ack).publishes && p.topic == Topic(prefix, Printer) ::
              p.payload == Dump(DictGet(o.body.value.fields, "printer"))
    ensures forall p | p in RunCycle(prefix, o, ack).publishes && p.topic == Topic(prefix, Job) ::
              p.payload == Dump(DictGet(o.body.value.fields, "job"))
  {
    var fields := o.body.value.fields;
    if |fields| > 0 {
      DocumentPayloads(prefix, fields, ack);
      assert RunCycle(prefix, o, ack).publishes == ReportDocument(prefix, fields, ack).publishes;
    } else {
      assert RunCycle(prefix, o, ack).publishes == [];
    }
  }

  /** Line `i` of a dict's report log is the broker's answer to publish `i`:
      same topic, and "sent" exactly when the broker returned 0 for it. */
  predicate AnswersPublishes(log: seq<LogLine>, publishes: seq<Publish>, ack: Publish -> int) {
    forall i | 0 <= i < |log| ::
      && i < |publishes|
      && (log[i].Sent? || log[i].SendFailed?)
      && log[i].topic == publishes[i].topic
      && (log[i].Sent? <==> ack(publishes[i]) == 0)
  }

  /** A dict's report logs one broker answer per forwarded publish, in the
      order of the publishes. */
  lemma DocumentLog(prefix: string, fields: map<string, Json>, ack: Publish -> int)
    ensures var r := ReportDocument(prefix, fields, ack);
            && |r.log| == |r.publishes| - 1
            && AnswersPublishes(r.log, r.publishes, ack)
  {
    var (pp, pl) := Forward(prefix, Printer, DictGet(fields, "printer"), ack);
    var (jp, jl) := Forward(prefix, Job, DictGet(fields, "job"), ack);
    var r := ReportDocument(prefix, fields, ack);
    assert r.log == pl + jl;
    assert r.publishes == pp + jp + [StatusReport(prefix, true)];
    forall i | 0 <= i < |r.log|
      ensures i < |r.publishes|
      ensures r.log[i].Sent? || r.log[i].SendFailed?
      ensures r.log[i].topic == r.publishes[i].topic
      ensures r.log[i].Sent? <==> ack(r.publishes[i]) == 0
    {
      if i < |pl| {
        assert r.log[i] == pl[i] && r.publishes[i] == pp[i];
      } else {
        assert r.log[i] == jl[i - |pl|] && r.publishes[i] == jp[i - |pl|];
      }
    }
  }

  /** The log of a cycle: a failed poll logs exactly what the fetch logged;
      otherwise line `i` is the broker's answer to publish `i`, one line per
      forwarded sub-document. */
  lemma CycleLog(prefix: string, o: PollOutcome, ack: Publish -> int)
    ensures !Succeeded(o) ==> RunCycle(prefix, o, ack).log == GetPrinterData(prefix, o).log
    ensures forall l | l in RunCycle(prefix, o, ack).log :: Succeeded(o) <==> (l.Sent? || l.SendFailed?)
    ensures Succeeded(o) ==>
              |RunCycle(prefix, o, ack).log| == |RunCycle(prefix, o, ack).publishes| - (if CycleReportsOnline(o) then 1 else 0)
    ensures Succeeded(o) ==> AnswersPublishes(RunCycle(prefix, o, ack).log, RunCycle(prefix, o, ack).publishes, ack)
  {
    if CycleReportsOnline(o) {
      var r := ReportDocument(prefix, o.body.value.fields, ack);
      DocumentLog(prefix, o.body.value.fields, ack);
      assert RunCycle(prefix, o, ack).log == r.log;
      assert RunCycle(prefix, o, ack).publishes == r.publishes;
    }
  }

  /** What the broker answers to individual publishes changes only the log:
      the publishes of the cycle, their order and the loop's fate are the same
      whether every publish succeeds or every one fails. */
  lemma AcksOnlyChangeTheLog(prefix: string, o: PollOutcome, ack: Publish -> int, ack': Publish -> int)
    ensures RunCycle(prefix, o, ack).publishes == RunCycle(prefix, o, ack').publishes
    ensures RunCycle(prefix, o, ack).fate == RunCycle(prefix, o, ack').fate
    ensures |RunCycle(prefix, o, ack).log| == |RunCycle(prefix, o, ack').log|
  {
  }

  /** For the `printer` and `job` decisions, a key holding `null` is the same as
      a missing key, as long as the dict stays truthy without it. */
  lemma NullKeyLikeMissingKey(prefix: string, fields: map<string, Json>, key: string, ack: Publish -> int)
    requires key == "printer" || key == "job"
    requires |fields - {key}| > 0
    ensures RunCycle(prefix, Response(200, Some(JObject(fields[key := JNull]))), ack).publishes
         == RunCycle(prefix, Response(200, Some(JObject(fields - {key}))), ack).publishes
  {
    var withNull := fields[key := JNull];
    var without := fields - {key};
    assert |withNull| > 0 by {
      var k :| k in without;
      assert k in withNull;
    }
    assert DictGet(withNull, "printer") == DictGet(without, "printer");
    assert DictGet(withNull, "job") == DictGet(without, "job");
  }

  /** The exception to the above: a dict whose only key holds `null` is truthy,
      so the cycle still reports the source online, while `{}` publishes
      nothing. */
  lemma OnlyNullKeyStillReportsOnline(prefix: string, ack: Publish -> int)
    ensures RunCycle(prefix, Response(200, Some(JObject(map["printer" := JNull]))), ack).publishes
         == [StatusReport(prefix, true)]
    ensures RunCycle(prefix, Response(200, Some(JObject(map[]))), ack).publishes == []
  {
    assert |map["printer" := JNull]| == 1;
  }
}

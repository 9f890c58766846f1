/**
 Bridge liveness on `<prefix>/online`: the last will registered before
 connecting, and the re-announcement made by the connect callback.
 */
module Liveness {

  import opened Wrappers
  import opened Messages
  import opened Topics

  /** The will armed before `connect`: the broker publishes it, retained, if
      the bridge disappears without a clean disconnect. */
  function Will(prefix: string): (w: Publish)
    ensures ChannelOf(prefix, w.topic) == Some(Online)
    ensures w.payload == Text("false") && w.retain && w.qos == QoS
  {
    Publish(Topic(prefix, Online), Text("false"), QoS, true)
  }

  /** The retained `"true"` a successful connect publishes. */
  function Announcement(prefix: string): Publish {
    Publish(Topic(prefix, Online), Text("true"), QoS, true)
  }

  /** The connect callback: return code 0 re-asserts liveness with one retained
      publish; any other code only logs the failure. */
  function OnConnect(prefix: string, rc: int): (r: (seq<Publish>, LogLine))
    ensures |r.0| <= 1
    ensures |r.0| == 1 <==> rc == 0
    ensures forall p | p in r.0 ::
              ChannelOf(prefix, p.topic) == Some(Online) && p.payload == Text("true") && p.retain
    ensures r.1 == Connected <==> rc == 0
    ensures rc != 0 ==> r.1 == ConnectFailed(rc)
  {
    if rc == 0 then ([Announcement(prefix)], Connected)
    else ([], ConnectFailed(rc))
  }

  /** The announcement undoes the will: same topic, quality of service and
      retain flag, opposite payload, so whichever came last is what a new
      subscriber sees. */
  lemma AnnouncementOverridesWill(prefix: string)
    ensures OnConnect(prefix, 0).0 == [Will(prefix).(payload := Text("true"))]
  {
  }

  /** How many connect attempts succeeded. */
  function Successes(rcs: seq<int>): nat {
    if |rcs| == 0 then 0
    else Successes(rcs[..|rcs| - 1]) + (if rcs[|rcs| - 1] == 0 then 1 else 0)
  }

  /** The publishes of a series of connect callbacks (the first connect and
      every reconnect the client performs), in order. */
  function Reconnects(prefix: string, rcs: seq<int>): (r: seq<Publish>)
    ensures |r| == Successes(rcs)
    ensures forall i | 0 <= i < |r| :: r[i] == Announcement(prefix)
  {
    if |rcs| == 0 then []
    else Reconnects(prefix, rcs[..|rcs| - 1]) + OnConnect(prefix, rcs[|rcs| - 1]).0
  }
}

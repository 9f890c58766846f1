/**
 Topic derivation.  Every topic the bridge uses is the configured prefix
 (`mqtt_topic`) followed by one of four fixed suffixes; `ChannelOf` recovers the
 channel from a topic, so no two channels ever share a topic.
 */
module Topics {

  import opened Wrappers

  /** The four channels: bridge liveness, HTTP source reachability, and the two
      forwarded sub-documents. */
  datatype Channel = Online | ServerOnline | Printer | Job

  function Suffix(c: Channel): string {
    match c
    case Online => "/online"
    case ServerOnline => "/server_online"
    case Printer => "/printer"
    case Job => "/job"
  }

  /** The topic of a channel under a prefix, as the f-strings build it. */
  function Topic(prefix: string, c: Channel): string {
    prefix + Suffix(c)
  }

  /** The channel a suffix names, if any. */
  function SuffixChannel(s: string): (r: Option<Channel>)
    ensures forall c :: r == Some(c) <==> s == Suffix(c)
  {
    if s == "/online" then Some(Online)
    else if s == "/server_online" then Some(ServerOnline)
    else if s == "/printer" then Some(Printer)
    else if s == "/job" then Some(Job)
    else None
  }

  /** The channel whose topic under `prefix` is `topic`, or `None` when
      `topic` is not one of the bridge's topics. */
  function ChannelOf(prefix: string, topic: string): (r: Option<Channel>)
    ensures forall c :: r == Some(c) <==> topic == Topic(prefix, c)
  {
    if |prefix| <= |topic| && topic[..|prefix|] == prefix then
      var r := SuffixChannel(topic[|prefix|..]);
      assert forall c :: topic == Topic(prefix, c) ==> topic[|prefix|..] == Suffix(c);
      assert forall c :: topic[|prefix|..] == Suffix(c) ==> topic == Topic(prefix, c) by {
        assert topic == topic[..|prefix|] + topic[|prefix|..];
      }
      r
    else
      None
  }

  /** Distinct channels never share a topic, whatever the prefix. */
  lemma TopicsDistinct(prefix: string, c: Channel, d: Channel)
    ensures Topic(prefix, c) == Topic(prefix, d) <==> c == d
  {
    if Topic(prefix, c) == Topic(prefix, d) {
      assert ChannelOf(prefix, Topic(prefix, c)) == Some(c);
    }
  }
}

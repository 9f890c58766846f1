/**
 What the bridge hands to the MQTT client and to the logger.
 */
module Messages {

  import opened Json

  /** Every publish, and the will, use MQTT quality-of-service level 1. */
  const QoS: nat := 1

  /** A publish payload: a literal text such as `"true"`, or the JSON text
      `json.dumps` makes of a sub-document (kept opaque: the value itself). */
  datatype Payload =
    | Text(text: string)
    | Dump(value: Json)

  /** One call of `client.publish(topic, payload, qos, retain)` (or the will
      registered with `will_set`, which has the same fields). */
  datatype Publish = Publish(topic: string, payload: Payload, qos: nat, retain: bool)

  /** The log lines whose presence depends on what happened; their exact
      wording is not modelled. */
  datatype LogLine =
    | Connected
    | ConnectFailed(rc: int)
    | RequestFailed
    | BadStatus(code: int)
    | Sent(topic: string, payload: Payload)
    | SendFailed(topic: string)
}

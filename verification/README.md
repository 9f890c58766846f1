# PrusaLink MQTT bridge — a verified model

The bridge polls a Prusa printer's local HTTP status endpoint
(`/api/v1/status`) at a fixed interval and republishes the `printer` and `job`
parts of the answer on an MQTT broker. It also reports on two status topics:

- its own liveness on `<prefix>/online`, retained, with a last will of `"false"`;
- the reachability of the HTTP source on `<prefix>/server_online`, not retained.

Three sequential rules remain once the HTTP and MQTT clients are removed. This
project models them as pure Dafny functions and proves their properties.

- **Per-cycle publication plan** (`cycle.dfy`, `poll.dfy`, `json.dfy`). A poll
  outcome is a request error, a non-200 status, or a 200 response. The parsed
  body of a 200 is a JSON value with Python truthiness. From the outcome the
  plan computes the cycle's publishes, its log lines, and whether the loop
  survives the cycle.
- **Anchored deadline scheduler** (`scheduler.dfy`, `bridge.dfy`). Time is
  exact, as Dafny reals. The first deadline is one interval after start. After
  each cycle the loop sleeps `max(0, deadline - now)` and then moves the
  deadline on by one interval. So deadline `k` is always `start + (k+1)·interval`,
  however long each cycle took.
- **Liveness** (`liveness.dfy`). The will is a retained `"false"` on
  `<prefix>/online`. A connect with return code 0 publishes one retained
  `"true"` there. Any other code publishes nothing.

Topics are the configured prefix plus one of four suffixes (`topics.dfy`).
`ChannelOf` turns a topic back into its channel, which shows that the four
topics differ for every prefix.

Behaviours of the code that the model keeps on purpose:

- A 200 whose body is falsy (`{}`, `null`, `[]`, `0`, `""`, `false`)
  publishes nothing in that cycle, not even `server_online`.
- A JSON `null` under `printer` or `job` counts as a missing key. There is one
  exception: `{"printer": null}` is a non-empty dict and so truthy. It still
  reports `server_online = "true"`, while `{}` reports nothing
  (`Cycle.OnlyNullKeyStillReportsOnline`).
- A truthy body that is not a dict (a non-empty list, a non-empty string,
  `true`, a non-zero number) makes `.get` raise `AttributeError`. Nothing
  catches it, so the loop ends. The model records this as the `Crashes` fate.
- A 200 whose body is not valid JSON raises `requests.exceptions.JSONDecodeError`,
  a `RequestException` since requests 2.27. It is therefore reported like a
  transport failure: `"false"` on `server_online`.

Two consequences of the loop's structure that the model states explicitly:

- An overrun cycle does not reset the deadline, so later cycles run
  back-to-back until they are on schedule again (`Scheduler.BackToBackAfterOverrun`;
  `Scheduler.CatchUpBurst`: a 30 s interval with work of 70 s then 5 s gives
  starts at 0, 70 and 75).
- A `KeyboardInterrupt` ends the loop wherever it lands. The model ends a run
  only between cycles: see "Left out".

## Model

| member | source | states |
|---|---|---|
| `Json.Truthy` | prusalink_mqtt_bridge.py:92 | definition: Python truthiness of a parsed JSON value, as `if printer_data:` tests it |
| `Json.DictGet` | prusalink_mqtt_bridge.py:94-95 | `dict.get` gives a non-None value exactly when the key is present and its value is not JSON null, and that value is the stored one |
| `Json.ObjectTruthiness` | prusalink_mqtt_bridge.py:92 | a parsed dict passes `if printer_data:` exactly when it has at least one key, whatever the key holds |
| `Topics.Topic` | prusalink_mqtt_bridge.py:31-32 | definition: a channel's topic is the configured prefix followed by the channel's suffix |
| `Topics.SuffixChannel` | prusalink_mqtt_bridge.py:31-32 | a topic suffix names a channel exactly when it is that channel's suffix |
| `Topics.ChannelOf` | prusalink_mqtt_bridge.py:31-32 | a topic classifies as channel `c` if and only if it equals prefix + suffix of `c`, so deriving and classifying topics are inverses |
| `Topics.TopicsDistinct` | prusalink_mqtt_bridge.py:100-106 | for every prefix, the four derived topics are pairwise distinct |
| `Liveness.Will` | prusalink_mqtt_bridge.py:42 | the will goes to the `online` channel with payload `"false"`, retained, at quality of service 1 |
| `Liveness.Announcement` | prusalink_mqtt_bridge.py:52 | definition: the retained `"true"` on `online` at quality of service 1 |
| `Liveness.OnConnect` | prusalink_mqtt_bridge.py:48-54 | return code 0 gives exactly one retained `"true"` on `online` and a success log; any other code gives no publish and a failure log |
| `Liveness.AnnouncementOverridesWill` | prusalink_mqtt_bridge.py:42-52 | the connect announcement is the will with its payload flipped to `"true"`: same topic, quality of service and retain flag |
| `Liveness.Reconnects` | prusalink_mqtt_bridge.py:48-54 | over a series of connect callbacks, exactly one retained `"true"` is published per successful connect and nothing else |
| `Poll.StatusReport` | prusalink_mqtt_bridge.py:62 | definition: the non-retained `"true"` or `"false"` on `server_online` at quality of service 1 |
| `Poll.GetPrinterData` | prusalink_mqtt_bridge.py:56-77 | a 200 with a parseable body publishes nothing and returns the document; an exception, a non-200 status or an unreadable body publishes exactly one `"false"` status report and returns None |
| `Poll.FailureClassification` | prusalink_mqtt_bridge.py:56-77 | a failure is logged as a request failure exactly for an exception or an unreadable 200 body, and as a bad status exactly for a non-200 code |
| `Cycle.PublishToMqtt` | prusalink_mqtt_bridge.py:79-85 | the publish carries the given topic and payload at quality of service 1, not retained; the log line is "sent" exactly when the broker returns 0 |
| `Cycle.Forward` | prusalink_mqtt_bridge.py:97-107 | a sub-document is published exactly when it is not None, to its channel's topic, with its own value as payload, at quality of service 1 and not retained; its log line reflects the broker's answer |
| `Cycle.ReportDocument` | prusalink_mqtt_bridge.py:94-110 | the report of a non-empty dict always ends with `"true"` on `server_online` and the loop continues |
| `Cycle.RunCycle` | prusalink_mqtt_bridge.py:91-110 | a cycle ends the loop exactly when the request succeeded with a truthy body that is not a dict |
| `Cycle.DocumentConfined` | prusalink_mqtt_bridge.py:94-110 | the report of a dict publishes only to `printer`, `job` and `server_online`, never retained, at quality of service 1 |
| `Cycle.OnlineNotACycleTopic` | prusalink_mqtt_bridge.py:31-32 | for every prefix, the `online` topic differs from the three topics the loop publishes to |
| `Cycle.CyclePublishesConfined` | prusalink_mqtt_bridge.py:98-110 | a cycle publishes only to `server_online`, `printer` and `job`, never retained, always at quality of service 1 |
| `Cycle.FailedPollReportsOffline` | prusalink_mqtt_bridge.py:56-92 | a failed poll publishes exactly one `"false"` to `server_online` and nothing to `printer` or `job`, and the loop goes on |
| `Cycle.FalsyBodyPublishesNothing` | prusalink_mqtt_bridge.py:92 | a successful poll with a falsy body publishes nothing at all and the loop goes on |
| `Cycle.NonObjectBodyCrashes` | prusalink_mqtt_bridge.py:92-95 | a truthy body that is not a dict publishes nothing and ends the loop |
| `Cycle.SuccessfulCyclePlan` | prusalink_mqtt_bridge.py:94-110 | on a non-empty dict the topic sequence is `printer` (iff present and not null), then `job` (likewise), then `server_online` with `"true"`, last and only once |
| `Cycle.DocumentTopics` | prusalink_mqtt_bridge.py:94-110 | the publishes for a dict go to `printer` and `job` exactly when those keys hold non-null values, in that order, and only the final one goes to `server_online` |
| `Cycle.DocumentPayloads` | prusalink_mqtt_bridge.py:94-107 | in the report of a dict, each JSON payload is the value stored under the key its topic names, and every publish to `printer` (or `job`) carries exactly that key's value |
| `Cycle.ForwardedPayloads` | prusalink_mqtt_bridge.py:97-107 | each forwarded payload is the value under the key its topic names, and every publish to `printer` (or `job`) carries exactly that key's value |
| `Cycle.DocumentLog` | prusalink_mqtt_bridge.py:79-107 | the report of a dict logs one line per forwarded publish, in order; line `i` names publish `i`'s topic and says "sent" exactly when the broker returned 0 for that publish |
| `Cycle.CycleLog` | prusalink_mqtt_bridge.py:56-110 | a failed poll logs exactly what the fetch logged; after a successful poll line `i` of the log is the broker's answer to publish `i` (same topic, "sent" exactly when the broker returned 0), one line per forwarded sub-document |
| `Cycle.AcksOnlyChangeTheLog` | prusalink_mqtt_bridge.py:79-85 | the broker's answers to individual publishes change neither the publishes of a cycle, nor their order, nor the loop's fate |
| `Cycle.NullKeyLikeMissingKey` | prusalink_mqtt_bridge.py:92-104 | a `printer` or `job` key holding null gives the same publishes as the key being absent, provided the dict stays non-empty |
| `Cycle.OnlyNullKeyStillReportsOnline` | prusalink_mqtt_bridge.py:92-110 | `{"printer": null}` still reports the source online, while `{}` publishes nothing |
| `Scheduler.FirstDeadline` | prusalink_mqtt_bridge.py:89 | definition: the first deadline is one interval after the start |
| `Scheduler.NextDeadline` | prusalink_mqtt_bridge.py:116 | definition: each cycle moves the deadline on by exactly one interval |
| `Scheduler.SleepFor` | prusalink_mqtt_bridge.py:113-115 | the sleep is never negative, is positive exactly when the deadline lies ahead, and ends at the later of now and the deadline |
| `Scheduler.SlotClosedForm` | prusalink_mqtt_bridge.py:89-116 | slot `k` of the schedule is `start + k·interval` |
| `Scheduler.Replay` | prusalink_mqtt_bridge.py:89-116 | replayed over arbitrary work durations, the first cycle starts at `start` and the deadline after `n` cycles is still the anchored one |
| `Scheduler.NextStart` | prusalink_mqtt_bridge.py:113-116 | cycle `k+1` starts at the later of the end of cycle `k`'s work and cycle `k`'s anchored deadline |
| `Scheduler.StartOnSlot` | prusalink_mqtt_bridge.py:113-116 | while no cycle outlasts the interval, cycle `k` starts exactly on slot `k` |
| `Scheduler.NoDrift` | prusalink_mqtt_bridge.py:89-116 | when no cycle's work exceeds the interval, cycle `k` starts at exactly `start + k·interval`, with no accumulated drift |
| `Scheduler.NeverEarly` | prusalink_mqtt_bridge.py:113-115 | with non-negative work durations, no cycle starts before its slot |
| `Scheduler.SleepEndsAtNextStart` | prusalink_mqtt_bridge.py:113-116 | the loop's sleep `max(0, deadline - now)` taken at the end of cycle `k`'s work ends exactly when the replayed schedule starts cycle `k + 1` |
| `Scheduler.BackToBackAfterOverrun` | prusalink_mqtt_bridge.py:113-116 | a cycle that overruns its deadline is followed by the next cycle without any sleep, and the deadline stays on the anchored grid |
| `Scheduler.CatchUpBurst` | prusalink_mqtt_bridge.py:113-116 | with a 30 s interval and work of 70 s then 5 s, the cycles start at 0, 70 and 75, so two starts lie 5 s apart |
| `Bridge.Loop` | prusalink_mqtt_bridge.py:87-116 | the loop publishes the cycles' plans in order, stops right after the first crashing cycle and before its sleep, and sleeps towards the anchored deadline after every other cycle |
| `Bridge.Run` | prusalink_mqtt_bridge.py:87-120 | the bridge's run stops exactly at the first poll whose body is truthy but not a dict, and its trace is the concatenation of the cycle plans up to that point |
| `Bridge.RunLeavesOnlineAlone` | prusalink_mqtt_bridge.py:88-116 | nothing the loop publishes is retained or goes to `online` |
| `Bridge.FailingRunPublishesOnlyOffline` | prusalink_mqtt_bridge.py:88-116 | a run of failed polls publishes exactly one `"false"` status report per cycle and nothing else |

## Left out

- The HTTP request itself (URL, `X-Api-Key` header, timeout) and JSON parsing. A poll is an abstract `PollOutcome`: an exception, or a status code with a parsed body or "not JSON".
- `json.dumps`: a forwarded payload carries the sub-document itself (`Payload.Dump`), not its text.
- The paho MQTT client: `connect`, `loop_start`/`loop_stop`, reconnection, and the background thread that runs `on_connect` concurrently with the loop. Connect return codes and broker answers to publishes are parameters.
- Wall-clock reads and `time.sleep`: clock readings and work durations are parameters, and a sleep is assumed to last exactly as asked. Python floats are modelled as exact reals, so rounding is not modelled.
- JSON numbers are exact reals. The non-standard `NaN`/`Infinity` that Python's parser accepts, and whose truthiness differs from zero's, are not modelled.
- Log message wording and levels. Only which kind of log line appears is recorded (`LogLine`).
- `KeyboardInterrupt` and the `finally: loop_stop()` clean-up. A run ends at a cycle boundary when its inputs run out. An interrupt in the middle of a cycle, for example during the HTTP request, is not modelled.
- The `__main__` start-up and config.py, which is a literal settings dict with no logic.
- The credentials, broker address and port stored by `__init__`: only the library calls use them.
- Broker answers as one function: `Bridge.Plan` gives every cycle of a run the same `ack`, so an identical publish in two cycles gets the same return code. Only the cycles' log lines depend on it, and `Bridge.Loop` does not return those.

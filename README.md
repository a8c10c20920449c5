# MQTT-to-InfluxDB message handler, modelled in Dafny

The backend of the IoT monitoring station subscribes to every topic of an MQTT broker.
It turns each message into time-series points for InfluxDB. All of its logic lives in the
`on_message` callback that `create_mqtt_receiver` registers. This project models that
callback and proves what it does.

- **Topic routing** (`Topic`). The topic is split on `/`, as Python's `str.split` does.
  It is accepted only when this gives exactly two parts: the location and the station.
  Empty parts are accepted, so `"/x"` and `"a/"` route.
- **Point building** (`Records`). The decoded payload is a JSON object mapping measurement
  names to entries, iterated in the order the keys appear in the message. The loop skips an entry without a `timestamp`.
  It also skips an entry whose `value` is absent or not a Python `float`; ints, bools,
  strings, `null` and objects are all skipped. Every other entry gets its timestamp parsed
  and yields one point: timestamp, measurement = key, tags = location and station, and
  fields = the value copied unchanged. Python's own exceptions are modelled as an error
  result that aborts the loop:
  - `'timestamp' in v` on a number, bool or `null` raises;
  - `v['timestamp']` on a string or list raises (the `in` test there finds a substring or
    an element);
  - `strptime` raises on a timestamp that is not a string or does not parse.
- **The callback** (`Receiver`). `OnMessage` is the callback as a function of the message.
  `Handle` is the same callback as a method: it runs the loop (`Records.BuildPoints`) and
  calls `write_points` on a `Sink` that records every list it is handed. It writes once,
  with the whole list, exactly when the list is not empty.

`Json` holds the decoded-value datatype and the Python operators the callback uses (`in`,
subscription, `dict.get`). `Wrappers` holds `Option` and `Result`.

Three behaviours of the code are worth noting:
- A topic with an empty location or station is accepted, because the code has no emptiness
  check.
- A JSON integer value is skipped like a string, because the code tests for `float`.
- An entry whose timestamp does not parse is not dropped on its own. It aborts the whole
  message, so nothing from that message is written.

## Model

| member | source | states |
|---|---|---|
| `Topic.Split` | lesson5/homework5/backend/backend.py:125 | `topic.split("/")` always gives at least one part, empty parts included |
| `Topic.SplitCount` | lesson5/homework5/backend/backend.py:125 | a split has one part more than there are `/` in the topic |
| `Topic.SplitPartsFree` | lesson5/homework5/backend/backend.py:125 | no part of a split contains `/` |
| `Topic.JoinSplit` | lesson5/homework5/backend/backend.py:125 | joining the parts of a split with the separator gives the topic back |
| `Topic.SplitJoin` | lesson5/homework5/backend/backend.py:125 | splitting undoes joining whenever no part contains the separator |
| `Topic.Route` | lesson5/homework5/backend/backend.py:124-130 | a topic is accepted iff it contains exactly one `/`; the location is the text before it and the station the text after it, neither contains `/`, and either may be empty |
| `Topic.RouteOfTopic` | lesson5/homework5/backend/backend.py:125-130 | every location and station free of `/` is routed back from the topic `location/station` |
| `Json.Lookup` | lesson5/homework5/backend/backend.py:137-144 | `key in d`, `d[key]` and `d.get(key)` on a decoded object: the value found is stored under that key, and a value is found iff some item has that key |
| `Json.IsSubstring` | lesson5/homework5/backend/backend.py:137 | `'timestamp' in s` on a string holds iff `'timestamp'` occurs in `s` at some position |
| `Json.Contains` | lesson5/homework5/backend/backend.py:137 | `'timestamp' in v` raises exactly on numbers, bools and `None`; it tests the keys of a dict, searches a str for a substring and compares the items of a list |
| `Records.Inspect` | lesson5/homework5/backend/backend.py:137-148 | an entry is kept iff it is an object with a `timestamp` key and a `float` under `value`, and the kept timestamp and value are the ones stored there; a number, bool or `None` raises, a str or list raises exactly when `'timestamp'` is in it and is skipped otherwise; an object without a timestamp, or with one but no float value, is skipped |
| `Records.ParseTimestamp` | lesson5/homework5/backend/backend.py:151 | `strptime` gives a time only for a string timestamp, and then exactly what the parser gives for that string; any other timestamp raises |
| `Records.EntryPoints` | lesson5/homework5/backend/backend.py:137-160 | one loop iteration raises iff the entry fails, and then with that entry's exception; it yields nothing iff the entry is skipped; otherwise it yields one point, with the parsed time, the key as measurement, the identity as tags and the value unchanged |
| `Records.Points` | lesson5/homework5/backend/backend.py:135-160 | the built list has at most as many points as the payload has entries, and every point carries the message's identity as its tags |
| `Records.BuildPoints` | lesson5/homework5/backend/backend.py:135-160 | the loop with its `continue` skips and `append` returns exactly the list, or the exception, that `Points` defines |
| `Records.ErrorIsFinal` | lesson5/homework5/backend/backend.py:136-151 | once an exception is raised at some entry, the later entries cannot change the outcome |
| `Records.PointsAppend` | lesson5/homework5/backend/backend.py:136-160 | the loop over `a + b` is the loop over `a` followed by the loop over `b`; the first exception wins |
| `Records.SkippedEntryDropsOut` | lesson5/homework5/backend/backend.py:137-148 | an entry without a timestamp or a float value yields no point, and the entries after it are still processed |
| `Records.AllSkippedYieldNothing` | lesson5/homework5/backend/backend.py:135-148 | when every entry is skipped the list is empty |
| `Records.AllAcceptedOnePerEntry` | lesson5/homework5/backend/backend.py:136-160 | when every entry has a parsable timestamp and a float value there is exactly one point per entry, in payload order, with the entry's key and value |
| `Records.NoFailureCompletes` | lesson5/homework5/backend/backend.py:136-160 | without a failing entry the loop completes |
| `Records.FirstFailureAborts` | lesson5/homework5/backend/backend.py:137-151 | the first failing entry aborts the loop with its exception, even after accepted entries, so no list is produced |
| `Records.ParseOnlyForKept` | lesson5/homework5/backend/backend.py:142-151 | timestamps are parsed only for entries that passed both checks: parsers that agree on those give the same outcome |
| `Records.PointsCount` | lesson5/homework5/backend/backend.py:135-160 | a completed loop builds exactly one point per entry that passed both checks |
| `Records.PointsFollowEntries` | lesson5/homework5/backend/backend.py:135-160 | the points keep payload order: point `j` is the one point entry `idx[j]` yields, and the indices increase; with `PointsCount` they are exactly the entries that passed both checks |
| `Records.AcceptedEntryHasPoint` | lesson5/homework5/backend/backend.py:135-160 | when the loop completes, every entry that passed both checks has its point, with its key, identity, parsed time and value, somewhere in the list |
| `Records.DistinctMeasurements` | lesson5/homework5/backend/backend.py:136-152 | because the keys of a decoded object are distinct, no two points of a message share a measurement |
| `Receiver.Sink.constructor` | lesson5/homework5/backend/backend.py:199-204 | a new database client has received no writes |
| `Receiver.Sink.WritePoints` | lesson5/homework5/backend/backend.py:163 | `write_points` records the list it is handed, after the earlier ones |
| `Receiver.OnMessage` | lesson5/homework5/backend/backend.py:121-163 | a message is rejected iff its topic does not have exactly one `/`, whatever its payload; a completed message has at most one point per entry, and each point's tags rebuild the topic |
| `Receiver.Handle` | lesson5/homework5/backend/backend.py:121-163 | the callback ends as `OnMessage` says, and calls `write_points` exactly once with the whole list when the list is non-empty; otherwise it writes nothing |
| `Receiver.AllFilteredBuiltEmpty` | lesson5/homework5/backend/backend.py:135-163 | a routed message whose entries are all skipped completes with an empty list, which `Handle` does not write |
| `Receiver.AllValidAllBuilt` | lesson5/homework5/backend/backend.py:124-160 | a routed message whose entries are all valid builds one point per entry, in order, tagged with the topic's location and station (`Handle` then writes that list when it is non-empty) |
| `Receiver.ReadingKept` | lesson5/homework5/backend/backend.py:137-160 | any object whose `timestamp` is a text the parser accepts and whose `value` is a float, whatever other keys it has, yields exactly one point with that time, the key as measurement, the identity as tags and that value |
| `Receiver.SingleReading` | lesson5/homework5/backend/backend.py:121-163 | a message from `location/station` carrying one reading becomes one point with those tags and the reading's key and value |
| `Receiver.ReadingWithoutValueSkipped` | lesson5/homework5/backend/backend.py:144-160 | of two readings, the one without a value is skipped and the other is still kept |

## Left out

- MQTT client construction, callback registration, `connect`, `subscribe("#")` and `loop_forever` (backend.py:25-81, 169-178, 207-219): network I/O through the paho library.
- The `on_connect` and `on_disconnect` callbacks: they only log.
- Logging (`setup_logger` and every `logger` call), `parse_arguments` and `main`.
- `message.payload.decode()` and `json.loads`: the payload arrives already decoded, with `None` standing for a decoding exception. A payload whose top-level JSON value is not an object is not modelled.
- The internals of `datetime.strptime` with `"%Y-%m-%d %H:%M:%S"`: the parser is a parameter returning the time or `None`. A non-string timestamp makes it raise.
- The InfluxDB client (backend.py:199-204) and the internals of `write_points`: the sink accepts and records every list. A failing database write is not modelled.
- What paho does with an exception that leaves the callback: the model ends the call with `Raised`.
- Floating point: the code only checks the type of the value and copies it, so it is carried as its 64-bit pattern.
- `lesson4/homework4/sender/sender.py` and `lesson4/homework4/receiver/receiver.py`: they only connect, publish or subscribe, print and loop.
- Batching across messages, retry with backoff, spooling to disk, bounded queues and a reconnect state machine, which a reader might expect of such a bridge: the code does none of these, so there is nothing of them to model. Each message is written in its own single call, with no retry.

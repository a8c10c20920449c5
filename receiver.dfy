/** The MQTT `on_message` callback of the backend: it routes the topic, decodes the payload,
    builds the points and hands them to the time-series database in one write when there is
    at least one. */
module Receiver {
  import opened Wrappers
  import opened Json
  import opened Topic
  import opened Records

  /** How one call of the callback ends. */
  datatype Outcome =
    | InvalidTopic                  // logged; returns before the payload is decoded
    | Raised(error: HandlerError)   // an exception leaves the callback
    | Built(points: seq<Point>)     // the loop completed with this list

  /** The database client passed to the callback as `userdata`. Only `write_points` is
      used; the sink records every list it is handed, in call order. */
  class Sink {
    var batches: seq<seq<Point>>

    constructor ()
      ensures batches == []
    {
      batches := [];
    }

    method WritePoints(points: seq<Point>)
      modifies this
      ensures batches == old(batches) + [points]
    {
      batches := batches + [points];
    }
  }

  /** The callback on a message with this topic and payload (`None` when decoding the
      payload raises). A topic without exactly one "/" is rejected whatever the payload;
      every point built carries the location and station the topic names. */
  function OnMessage(topic: string, payload: Option<Fields>, parse: TimestampParser): (o: Outcome)
    ensures o == InvalidTopic <==> multiset(topic)['/'] != 1
    ensures o.Built? ==> payload.Some? && |o.points| <= |payload.value|
    ensures o.Built? ==> forall p <- o.points :: topic == p.tags.location + "/" + p.tags.station
  {
    match Route(topic)
    case None => InvalidTopic
    case Some(id) =>
      match payload
      case None => Raised(Undecodable)
      case Some(entries) =>
        match Points(id, entries, parse)
        case Err(e) => Raised(e)
        case Ok(points) => Built(points)
  }

  /** The callback itself: route the topic, build the list with the loop, and call
      `write_points` once with the whole list when it is not empty. */
  method Handle(topic: string, payload: Option<Fields>, parse: TimestampParser, sink: Sink) returns (o: Outcome)
    modifies sink
    ensures o == OnMessage(topic, payload, parse)
    ensures if o.Built? && o.points != [] then sink.batches == old(sink.batches) + [o.points]
            else sink.batches == old(sink.batches)
  {
    var identity := Route(topic);
    if identity.None? {
      return InvalidTopic;
    }
    if payload.None? {
      return Raised(Undecodable);
    }
    var messages := BuildPoints(identity.value, payload.value, parse);
    if messages.Err? {
      return Raised(messages.error);
    }
    if messages.value != [] {
      sink.WritePoints(messages.value);
    }
    return Built(messages.value);
  }

  /** A routed message whose entries are all skipped completes with an empty list; by
      `Handle`'s ensures, the sink is then left unchanged. */
  lemma AllFilteredBuiltEmpty(topic: string, entries: Fields, parse: TimestampParser)
    requires multiset(topic)['/'] == 1
    requires forall i :: 0 <= i < |entries| ==> Skipped(entries[i])
    ensures OnMessage(topic, Some(entries), parse) == Built([])
  {
    AllSkippedYieldNothing(Route(topic).value, entries, parse);
  }

  /** A routed message whose entries all have a parsable timestamp and a float value builds
      one point per entry, in order, each tagged with the topic's location and station;
      `Handle` then writes that list to the sink as one batch when it is non-empty. */
  lemma AllValidAllBuilt(topic: string, entries: Fields, parse: TimestampParser)
    requires multiset(topic)['/'] == 1
    requires forall i :: 0 <= i < |entries| ==> Accepted(entries[i], parse)
    ensures OnMessage(topic, Some(entries), parse).Built?
    ensures |OnMessage(topic, Some(entries), parse).points| == |entries|
    ensures forall i :: 0 <= i < |entries| ==>
              PointOf(Route(topic).value, entries[i], parse, OnMessage(topic, Some(entries), parse).points[i])
  {
    AllAcceptedOnePerEntry(Route(topic).value, entries, parse);
  }

  /** Builds the entry shape that the loop body reads: an object whose "timestamp" is a
      text and whose "value" is a float, both found by a lookup of their key. */
  function Reading(timestamp: string, value: Float): (v: JsonValue)
    ensures v.JObject?
    ensures Lookup(v.fields, "timestamp") == Some(JString(timestamp))
    ensures Lookup(v.fields, "value") == Some(JFloat(value))
  {
    var fields := [("timestamp", JString(timestamp)), ("value", JFloat(value))];
    assert fields[1..][0].0 == "value" != "timestamp";
    JObject(fields)
  }

  /** Any object under `key` whose "timestamp" is a text the parser accepts and whose "value"
      is a float becomes exactly one point, whatever other keys it carries. */
  lemma ReadingKept(id: Identity, key: string, fields: Fields, timestamp: string, value: Float,
                    parse: TimestampParser, t: DateTime)
    requires Lookup(fields, "timestamp") == Some(JString(timestamp))
    requires Lookup(fields, "value") == Some(JFloat(value))
    requires parse(timestamp) == Some(t)
    ensures EntryPoints(id, (key, JObject(fields)), parse) == Ok([Point(t, key, id, PointFields(value))])
  {
    assert Inspect(key, JObject(fields)) == Keep(JString(timestamp), value);
  }

  /** A message from `location/station` carrying one reading becomes one point, tagged with
      that location and station, whose measurement is the reading's key. */
  lemma SingleReading(location: string, station: string, key: string, timestamp: string, value: Float,
                      parse: TimestampParser, t: DateTime)
    requires '/' !in location && '/' !in station
    requires parse(timestamp) == Some(t)
    ensures OnMessage(location + "/" + station, Some([(key, Reading(timestamp, value))]), parse)
            == Built([Point(t, key, Identity(location, station), PointFields(value))])
  {
    var id := Identity(location, station);
    RouteOfTopic(location, station);
    var entries := [(key, Reading(timestamp, value))];
    ReadingKept(id, key, Reading(timestamp, value).fields, timestamp, value, parse, t);
    assert entries[..0] == [];
    assert Points(id, entries, parse) == Then(Ok([]), EntryPoints(id, entries[0], parse));
  }

  /** Of two readings, one without a value is skipped and the other one is still kept. */
  lemma ReadingWithoutValueSkipped(location: string, station: string, first: string, second: string,
                                   timestamp: string, value: Float, parse: TimestampParser, t: DateTime)
    requires '/' !in location && '/' !in station
    requires parse(timestamp) == Some(t)
    ensures OnMessage(location + "/" + station,
                      Some([(first, JObject([("timestamp", JString(timestamp))])), (second, Reading(timestamp, value))]),
                      parse)
            == Built([Point(t, second, Identity(location, station), PointFields(value))])
  {
    var id := Identity(location, station);
    RouteOfTopic(location, station);
    var partial := JObject([("timestamp", JString(timestamp))]);
    var entries := [(first, partial), (second, Reading(timestamp, value))];
    assert Lookup(partial.fields, "value") == None;
    assert Inspect(first, partial) == NotFloat;
    ReadingKept(id, second, Reading(timestamp, value).fields, timestamp, value, parse, t);
    assert entries[..1] == [entries[0]] && entries[..1][..0] == [];
    assert Points(id, entries[..1], parse) == Then(Ok([]), Ok([]));
    assert Points(id, entries, parse) == Then(Ok([]), EntryPoints(id, entries[1], parse));
  }
}

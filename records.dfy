/** Building time-series points from the measurements of one message: the loop of the MQTT
    `on_message` callback over the decoded payload, which skips entries without a
    timestamp or without a float value and turns every other entry into one point. */
module Records {
  import opened Wrappers
  import opened Json
  import opened Topic

  /** A naive date and time, as `datetime.strptime` returns it. */
  datatype DateTime = DateTime(year: int, month: int, day: int, hour: int, minute: int, second: int)

  /** `datetime.strptime(text, "%Y-%m-%d %H:%M:%S")`: the parsed time, or `None` when it
      raises. Its internals are not part of this model, so it is a parameter. */
  type TimestampParser = string -> Option<DateTime>

  /** The fields of a point: the measured value, copied unchanged from the payload. */
  datatype PointFields = PointFields(value: Float)

  /** One point handed to the time-series database: its time, its measurement name, the
      `location` and `station` tags, and its fields. */
  datatype Point = Point(timestamp: DateTime, measurement: string, tags: Identity, fields: PointFields)

  /** The exceptions that abort the callback. */
  datatype HandlerError =
    | NotAContainer(measurement: string)    // `'timestamp' in v` on a number, a bool or None
    | NotAMapping(measurement: string)      // `v['timestamp']` on a str or a list
    | BadTimestamp(measurement: string)     // `strptime` on the entry's timestamp
    | Undecodable                           // `payload.decode()` or `json.loads`

  /** What the loop body decides about one entry before it parses any timestamp. */
  datatype Verdict =
    | NoTimestamp                           // skipped: no "timestamp"
    | NotFloat                              // skipped: "value" absent or not a float
    | Keep(timestamp: JsonValue, value: Float)
    | Raise(error: HandlerError)

  /** The two checks of the loop body on the entry `v` stored under `measurement`:
      `'timestamp' in v`, then `isinstance(v.get('value'), float)`. */
  function Inspect(measurement: string, v: JsonValue): (d: Verdict)
    ensures d.Keep? <==> v.JObject? && Lookup(v.fields, "timestamp").Some?
                         && Lookup(v.fields, "value").Some? && Lookup(v.fields, "value").value.JFloat?
    ensures d.Keep? ==> Some(d.timestamp) == Lookup(v.fields, "timestamp")
                        && Some(JFloat(d.value)) == Lookup(v.fields, "value")
    ensures d.Raise? ==> !v.JObject? && !d.error.Undecodable? && d.error.measurement == measurement
    ensures (v.JNull? || v.JBool? || v.JInt? || v.JFloat?) ==> d == Raise(NotAContainer(measurement))
    ensures v.JString? ==>
              d == if IsSubstring("timestamp", v.s) then Raise(NotAMapping(measurement)) else NoTimestamp
    ensures v.JArray? ==>
              d == if JString("timestamp") in v.items then Raise(NotAMapping(measurement)) else NoTimestamp
    ensures v.JObject? && Lookup(v.fields, "timestamp").None? ==> d == NoTimestamp
    ensures d == NotFloat <==> v.JObject? && Lookup(v.fields, "timestamp").Some?
                               && !(Lookup(v.fields, "value").Some? && Lookup(v.fields, "value").value.JFloat?)
  {
    match Contains(v, "timestamp")
    case None => Raise(NotAContainer(measurement))
    case Some(false) => NoTimestamp
    case Some(true) =>
      if !v.JObject? then Raise(NotAMapping(measurement))
      else
        var value := Lookup(v.fields, "value");
        if value.Some? && value.value.JFloat? then
          Keep(Lookup(v.fields, "timestamp").value, value.value.f)
        else NotFloat
  }

  /** `strptime` on the decoded timestamp: only a str can be parsed; any other type raises. */
  function ParseTimestamp(parse: TimestampParser, timestamp: JsonValue): (r: Option<DateTime>)
    ensures r.Some? ==> timestamp.JString? && r == parse(timestamp.s)
    ensures timestamp.JString? ==> r == parse(timestamp.s)
  {
    if timestamp.JString? then parse(timestamp.s) else None
  }

  /** The entry is skipped: it has no timestamp, or its value is absent or not a float. */
  predicate Skipped(entry: (string, JsonValue))
  {
    Inspect(entry.0, entry.1).NoTimestamp? || Inspect(entry.0, entry.1).NotFloat?
  }

  /** The entry passes both checks and its timestamp parses. */
  predicate Accepted(entry: (string, JsonValue), parse: TimestampParser)
  {
    var d := Inspect(entry.0, entry.1);
    d.Keep? && ParseTimestamp(parse, d.timestamp).Some?
  }

  /** The entry makes the loop body raise: `in` or the subscription raises, or it passes
      both checks and its timestamp does not parse. */
  predicate Fails(entry: (string, JsonValue), parse: TimestampParser)
  {
    var d := Inspect(entry.0, entry.1);
    d.Raise? || (d.Keep? && ParseTimestamp(parse, d.timestamp).None?)
  }

  /** The exception a failing entry raises. */
  function ErrorOf(entry: (string, JsonValue), parse: TimestampParser): (e: HandlerError)
    requires Fails(entry, parse)
  {
    var d := Inspect(entry.0, entry.1);
    if d.Raise? then d.error else BadTimestamp(entry.0)
  }

  /** `p` is the point built from an entry that has a timestamp and a float value: its time
      is the parsed timestamp, its measurement the entry's key, its tags the identity and
      its value the entry's value, unchanged. */
  predicate PointOf(id: Identity, entry: (string, JsonValue), parse: TimestampParser, p: Point)
  {
    && entry.1.JObject?
    && Lookup(entry.1.fields, "timestamp").Some?
    && ParseTimestamp(parse, Lookup(entry.1.fields, "timestamp").value) == Some(p.timestamp)
    && p.measurement == entry.0
    && p.tags == id
    && Lookup(entry.1.fields, "value") == Some(JFloat(p.fields.value))
  }

  /** The result of the loop body for one entry: no point, one point, or an exception. */
  function EntryPoints(id: Identity, entry: (string, JsonValue), parse: TimestampParser): (r: Result<seq<Point>, HandlerError>)
    ensures r.Err? <==> Fails(entry, parse)
    ensures r.Err? ==> r.error == ErrorOf(entry, parse)
    ensures r == Ok([]) <==> Skipped(entry)
    ensures r.Ok? && r.value != [] ==> Accepted(entry, parse) && |r.value| == 1
    ensures r.Ok? && r.value != [] ==> PointOf(id, entry, parse, r.value[0])
  {
    match Inspect(entry.0, entry.1)
    case NoTimestamp => Ok([])
    case NotFloat => Ok([])
    case Raise(e) => Err(e)
    case Keep(timestamp, value) =>
      match ParseTimestamp(parse, timestamp)
      case None => Err(BadTimestamp(entry.0))
      case Some(t) => Ok([Point(t, entry.0, id, PointFields(value))])
  }

  /** Sequencing two stages of the loop: the first exception wins, points accumulate. */
  function Then(first: Result<seq<Point>, HandlerError>, second: Result<seq<Point>, HandlerError>): (r: Result<seq<Point>, HandlerError>)
  {
    match first
    case Err(e) => Err(e)
    case Ok(ps) =>
      match second
      case Err(e) => Err(e)
      case Ok(qs) => Ok(ps + qs)
  }

  /** The list the loop builds from `entries`, or the exception that aborts it. Every point
      carries the message's identity as its tags, and there are at most as many points as
      entries. */
  function Points(id: Identity, entries: Fields, parse: TimestampParser): (r: Result<seq<Point>, HandlerError>)
    ensures r.Ok? ==> |r.value| <= |entries|
    ensures r.Ok? ==> forall p <- r.value :: p.tags == id
  {
    if entries == [] then Ok([])
    else Then(Points(id, entries[..|entries| - 1], parse), EntryPoints(id, entries[|entries| - 1], parse))
  }

  /** The loop of the callback: `messages` starts empty, an entry without a timestamp or a
      float value is skipped with `continue`, any other entry appends one point, and an
      exception leaves the loop. */
  method BuildPoints(id: Identity, entries: Fields, parse: TimestampParser) returns (r: Result<seq<Point>, HandlerError>)
    ensures r == Points(id, entries, parse)
  {
    var messages: seq<Point> := [];
    var i := 0;
    while i < |entries|
      invariant 0 <= i <= |entries|
      invariant Points(id, entries[..i], parse) == Ok(messages)
    {
      var (measurement, entry) := entries[i];
      assert entries[..i + 1][..i] == entries[..i];
      i := i + 1;
      assert Points(id, entries[..i], parse) == Then(Ok(messages), EntryPoints(id, (measurement, entry), parse));
      assert messages + [] == messages;
      var hasTimestamp := Contains(entry, "timestamp");
      if hasTimestamp.None? {
        ErrorIsFinal(id, entries, i, parse);
        return Err(NotAContainer(measurement));
      }
      if !hasTimestamp.value {
        continue;
      }
      if !entry.JObject? {
        ErrorIsFinal(id, entries, i, parse);
        return Err(NotAMapping(measurement));
      }
      var timestamp := Lookup(entry.fields, "timestamp").value;
      var value := Lookup(entry.fields, "value");
      if !(value.Some? && value.value.JFloat?) {
        continue;
      }
      var t := ParseTimestamp(parse, timestamp);
      if t.None? {
        ErrorIsFinal(id, entries, i, parse);
        return Err(BadTimestamp(measurement));
      }
      messages := messages + [Point(t.value, measurement, id, PointFields(value.value.f))];
    }
    assert entries[..i] == entries;
    return Ok(messages);
  }

  /** Once a prefix of the entries raises, the whole loop raises the same exception. */
  lemma {:induction false} ErrorIsFinal(id: Identity, entries: Fields, k: nat, parse: TimestampParser)
    requires k <= |entries|
    requires Points(id, entries[..k], parse).Err?
    ensures Points(id, entries, parse) == Points(id, entries[..k], parse)
  {
    if k < |entries| {
      var n := |entries|;
      assert entries[..n - 1][..k] == entries[..k];
      ErrorIsFinal(id, entries[..n - 1], k, parse);
    } else {
      assert entries[..k] == entries;
    }
  }

  /** Sequencing is associative. */
  lemma ThenAssoc(x: Result<seq<Point>, HandlerError>, y: Result<seq<Point>, HandlerError>, z: Result<seq<Point>, HandlerError>)
    ensures Then(Then(x, y), z) == Then(x, Then(y, z))
  {
    if x.Ok? && y.Ok? && z.Ok? {
      assert x.value + y.value + z.value == x.value + (y.value + z.value);
    }
  }

  /** The loop over `a + b` is the loop over `a` followed by the loop over `b`. */
  lemma {:induction false} PointsAppend(id: Identity, a: Fields, b: Fields, parse: TimestampParser)
    ensures Points(id, a + b, parse) == Then(Points(id, a, parse), Points(id, b, parse))
  {
    if b == [] {
      assert a + b == a;
      if Points(id, a, parse).Ok? {
        assert Points(id, a, parse).value + [] == Points(id, a, parse).value;
      }
    } else {
      var n := |b|;
      assert (a + b)[..|a + b| - 1] == a + b[..n - 1];
      assert (a + b)[|a + b| - 1] == b[n - 1];
      PointsAppend(id, a, b[..n - 1], parse);
      ThenAssoc(Points(id, a, parse), Points(id, b[..n - 1], parse), EntryPoints(id, b[n - 1], parse));
    }
  }

  /** A skipped entry contributes nothing, and the entries after it are still processed:
      the loop over `before + [entry] + after` is the loop over `before + after`. */
  lemma SkippedEntryDropsOut(id: Identity, before: Fields, entry: (string, JsonValue), after: Fields, parse: TimestampParser)
    requires Skipped(entry)
    ensures Points(id, before + [entry] + after, parse) == Points(id, before + after, parse)
  {
    PointsAppend(id, before + [entry], after, parse);
    PointsAppend(id, before, [entry], parse);
    PointsAppend(id, before, after, parse);
    assert Points(id, [entry], parse) == Then(Ok([]), EntryPoints(id, entry, parse));
    if Points(id, before, parse).Ok? {
      assert Points(id, before, parse).value + [] == Points(id, before, parse).value;
    }
  }

  /** When every entry is skipped the loop builds an empty list. */
  lemma {:induction false} AllSkippedYieldNothing(id: Identity, entries: Fields, parse: TimestampParser)
    requires forall i :: 0 <= i < |entries| ==> Skipped(entries[i])
    ensures Points(id, entries, parse) == Ok([])
  {
    if entries != [] {
      var n := |entries|;
      AllSkippedYieldNothing(id, entries[..n - 1], parse);
    }
  }

  /** When every entry has a timestamp that parses and a float value, the loop yields
      exactly one point per entry, in order, each with the entry's key as measurement and
      the entry's value unchanged. */
  lemma {:induction false} AllAcceptedOnePerEntry(id: Identity, entries: Fields, parse: TimestampParser)
    requires forall i :: 0 <= i < |entries| ==> Accepted(entries[i], parse)
    ensures Points(id, entries, parse).Ok?
    ensures |Points(id, entries, parse).value| == |entries|
    ensures forall i :: 0 <= i < |entries| ==> PointOf(id, entries[i], parse, Points(id, entries, parse).value[i])
  {
    if entries != [] {
      var n := |entries|;
      AllAcceptedOnePerEntry(id, entries[..n - 1], parse);
      var ps := Points(id, entries[..n - 1], parse).value;
      var last := EntryPoints(id, entries[n - 1], parse).value;
      assert Points(id, entries, parse).value == ps + last;
      assert |last| == 1;
      forall i | 0 <= i < n
        ensures PointOf(id, entries[i], parse, Points(id, entries, parse).value[i])
      {
        if i < n - 1 {
          assert entries[..n - 1][i] == entries[i];
          assert (ps + last)[i] == ps[i];
        } else {
          assert (ps + last)[i] == last[0];
        }
      }
    }
  }

  /** With no failing entry the loop completes. */
  lemma {:induction false} NoFailureCompletes(id: Identity, entries: Fields, parse: TimestampParser)
    requires forall i :: 0 <= i < |entries| ==> !Fails(entries[i], parse)
    ensures Points(id, entries, parse).Ok?
  {
    if entries != [] {
      var n := |entries|;
      NoFailureCompletes(id, entries[..n - 1], parse);
    }
  }

  /** The first failing entry aborts the loop with its exception: no list is produced, so
      nothing from the message is written, even when earlier entries were accepted. */
  lemma FirstFailureAborts(id: Identity, entries: Fields, parse: TimestampParser, k: nat)
    requires k < |entries| && Fails(entries[k], parse)
    requires forall j :: 0 <= j < k ==> !Fails(entries[j], parse)
    ensures Points(id, entries, parse) == Err(ErrorOf(entries[k], parse))
  {
    assert forall j :: 0 <= j < k ==> entries[..k][j] == entries[j];
    NoFailureCompletes(id, entries[..k], parse);
    assert entries[..k + 1][..k] == entries[..k];
    ErrorIsFinal(id, entries, k + 1, parse);
  }

  /** `strptime` is called only on the timestamps of entries that passed both checks: two
      parsers that agree on those give the same outcome. */
  lemma {:induction false} ParseOnlyForKept(id: Identity, entries: Fields, parse: TimestampParser, parse': TimestampParser)
    requires forall i :: 0 <= i < |entries| && Inspect(entries[i].0, entries[i].1).Keep? ==>
               ParseTimestamp(parse, Inspect(entries[i].0, entries[i].1).timestamp)
               == ParseTimestamp(parse', Inspect(entries[i].0, entries[i].1).timestamp)
    ensures Points(id, entries, parse) == Points(id, entries, parse')
  {
    if entries != [] {
      var n := |entries|;
      assert forall i :: 0 <= i < n - 1 ==> entries[..n - 1][i] == entries[i];
      ParseOnlyForKept(id, entries[..n - 1], parse, parse');
    }
  }

  /** The number of entries that pass both checks of the loop body. */
  function CountKept(entries: Fields): (n: nat)
  {
    if entries == [] then 0
    else CountKept(entries[..|entries| - 1]) + (if Inspect(entries[|entries| - 1].0, entries[|entries| - 1].1).Keep? then 1 else 0)
  }

  /** A completed loop builds one point per entry that passed both checks. */
  lemma {:induction false} PointsCount(id: Identity, entries: Fields, parse: TimestampParser)
    requires Points(id, entries, parse).Ok?
    ensures |Points(id, entries, parse).value| == CountKept(entries)
  {
    if entries != [] {
      var n := |entries|;
      PointsCount(id, entries[..n - 1], parse);
    }
  }

  /** Conversely, every entry that passes both checks has its point among the points built. */
  lemma AcceptedEntryHasPoint(id: Identity, entries: Fields, parse: TimestampParser, i: nat) returns (j: nat)
    requires Points(id, entries, parse).Ok?
    requires i < |entries| && Accepted(entries[i], parse)
    ensures j < |Points(id, entries, parse).value|
    ensures PointOf(id, entries[i], parse, Points(id, entries, parse).value[j])
  {
    var before, entry, after := entries[..i], entries[i], entries[i + 1..];
    assert entries == before + ([entry] + after);
    PointsAppend(id, before, [entry] + after, parse);
    PointsAppend(id, [entry], after, parse);
    var mine := SingleEntryPoints(id, entry, parse);
    var prior := Points(id, before, parse).value;
    var rest := Points(id, [entry] + after, parse).value;
    assert rest == mine + Points(id, after, parse).value;
    j := |prior|;
    assert (prior + rest)[j] == mine[0];
  }

  /** The loop over one accepted entry yields exactly that entry's point. */
  lemma SingleEntryPoints(id: Identity, entry: (string, JsonValue), parse: TimestampParser) returns (ps: seq<Point>)
    requires Accepted(entry, parse)
    ensures Points(id, [entry], parse) == Ok(ps) == EntryPoints(id, entry, parse)
    ensures |ps| == 1 && PointOf(id, entry, parse, ps[0])
  {
    var mine := EntryPoints(id, entry, parse);
    assert [entry][..0] == [];
    assert mine.Ok? && mine.value != [];
    ps := mine.value;
    assert [] + ps == ps;
  }

  /** `idx` maps the points `ps` to the entries that yield them, in increasing order. */
  predicate Follows(id: Identity, entries: Fields, parse: TimestampParser, ps: seq<Point>, idx: seq<nat>)
  {
    && |idx| == |ps|
    && (forall j :: 0 <= j < |idx| ==> idx[j] < |entries| && EntryPoints(id, entries[idx[j]], parse) == Ok([ps[j]]))
    && (forall j, k :: 0 <= j < k < |idx| ==> idx[j] < idx[k])
  }

  /** An index map for a prefix of the entries is one for the whole entries too. */
  lemma FollowsPrefix(id: Identity, entries: Fields, k: nat, parse: TimestampParser, ps: seq<Point>, idx: seq<nat>)
    requires k <= |entries|
    requires Follows(id, entries[..k], parse, ps, idx)
    ensures Follows(id, entries, parse, ps, idx)
  {
    forall j | 0 <= j < |idx|
      ensures idx[j] < |entries| && EntryPoints(id, entries[idx[j]], parse) == Ok([ps[j]])
    {
      assert entries[..k][idx[j]] == entries[idx[j]];
    }
  }

  /** An entry yielding point `p` after the entries already mapped extends the map by its index. */
  lemma FollowsExtend(id: Identity, entries: Fields, parse: TimestampParser, ps: seq<Point>, idx: seq<nat>, p: Point)
    requires entries != []
    requires Follows(id, entries, parse, ps, idx)
    requires forall j :: 0 <= j < |idx| ==> idx[j] < |entries| - 1
    requires EntryPoints(id, entries[|entries| - 1], parse) == Ok([p])
    ensures Follows(id, entries, parse, ps + [p], idx + [|entries| - 1])
  {
    var idx', ps' := idx + [|entries| - 1], ps + [p];
    forall j | 0 <= j < |idx'|
      ensures idx'[j] < |entries| && EntryPoints(id, entries[idx'[j]], parse) == Ok([ps'[j]])
    {
      if j < |idx| {
        assert idx'[j] == idx[j] && ps'[j] == ps[j];
      }
    }
    forall j, k | 0 <= j < k < |idx'|
      ensures idx'[j] < idx'[k]
    {
      if k == |idx| {
        assert idx'[j] == idx[j];
      }
    }
  }

  /** An index map from the points built to the entries that yield them exists. */
  lemma {:induction false} IndexPoints(id: Identity, entries: Fields, parse: TimestampParser) returns (idx: seq<nat>)
    requires Points(id, entries, parse).Ok?
    ensures Follows(id, entries, parse, Points(id, entries, parse).value, idx)
  {
    if entries == [] {
      idx := [];
    } else {
      var n := |entries|;
      var ps := Points(id, entries[..n - 1], parse).value;
      var last := EntryPoints(id, entries[n - 1], parse).value;
      var prior := IndexPoints(id, entries[..n - 1], parse);
      assert Points(id, entries, parse).value == ps + last;
      FollowsPrefix(id, entries, n - 1, parse, ps, prior);
      if last == [] {
        assert ps + last == ps;
        idx := prior;
      } else {
        FollowsExtend(id, entries, parse, ps, prior, last[0]);
        assert last == [last[0]];
        idx := prior + [n - 1];
      }
      assert Follows(id, entries, parse, Points(id, entries, parse).value, idx);
    }
  }

  /** The points follow the payload order: point `j` comes from entry `idx[j]`, the indices
      increase, and every point is the one point its entry yields (so `PointOf` holds of
      them). With `PointsCount`, the indices are exactly those of the entries that passed
      both checks. */
  lemma PointsFollowEntries(id: Identity, entries: Fields, parse: TimestampParser) returns (idx: seq<nat>)
    requires Points(id, entries, parse).Ok?
    ensures |idx| == |Points(id, entries, parse).value|
    ensures forall j :: 0 <= j < |idx| ==>
              idx[j] < |entries| && EntryPoints(id, entries[idx[j]], parse) == Ok([Points(id, entries, parse).value[j]])
    ensures forall j, k :: 0 <= j < k < |idx| ==> idx[j] < idx[k]
  {
    idx := IndexPoints(id, entries, parse);
  }

  /** With distinct keys, as in a decoded JSON object, no two points share a measurement. */
  lemma DistinctMeasurements(id: Identity, entries: Fields, parse: TimestampParser)
    requires DistinctKeys(entries)
    requires Points(id, entries, parse).Ok?
    ensures forall j, k :: 0 <= j < k < |Points(id, entries, parse).value| ==>
              Points(id, entries, parse).value[j].measurement != Points(id, entries, parse).value[k].measurement
  {
    var idx := PointsFollowEntries(id, entries, parse);
    var ps := Points(id, entries, parse).value;
    forall j, k | 0 <= j < k < |ps|
      ensures ps[j].measurement != ps[k].measurement
    {
      assert PointOf(id, entries[idx[j]], parse, ps[j]) && PointOf(id, entries[idx[k]], parse, ps[k]);
    }
  }
}

/** Topic routing: the first step of the MQTT `on_message` callback, which splits the topic
    on "/" and accepts it only when that yields exactly two parts, the location and the
    station of the sensor that published the message. */
module Topic {
  import opened Wrappers

  /** The identity a topic names; it becomes the tags of every point built from the message. */
  datatype Identity = Identity(location: string, station: string)

  /** Python's `sep.join(parts)`. */
  function Join(parts: seq<string>, sep: char): (s: string)
  {
    if parts == [] then ""
    else if |parts| == 1 then parts[0]
    else parts[0] + [sep] + Join(parts[1..], sep)
  }

  /** Python's `s.split(sep)` for a one-character separator: the maximal runs of `s` between
      occurrences of `sep`, empty runs included, so there is always at least one part. */
  function Split(s: string, sep: char): (parts: seq<string>)
    ensures |parts| >= 1
  {
    if s == [] then [""]
    else
      var rest := Split(s[1..], sep);
      if s[0] == sep then [""] + rest
      else [[s[0]] + rest[0]] + rest[1..]
  }

  /** A split has one part more than the separator occurs in the text. */
  lemma {:induction false} SplitCount(s: string, sep: char)
    ensures |Split(s, sep)| == multiset(s)[sep] + 1
  {
    if s != [] {
      SplitCount(s[1..], sep);
      assert s == [s[0]] + s[1..];
      assert multiset(s) == multiset([s[0]]) + multiset(s[1..]);
    }
  }

  /** No part of a split contains the separator. */
  lemma {:induction false} SplitPartsFree(s: string, sep: char)
    ensures forall p <- Split(s, sep) :: sep !in p
  {
    if s != [] {
      SplitPartsFree(s[1..], sep);
      var rest := Split(s[1..], sep);
      if s[0] != sep {
        assert sep !in rest[0];
        assert forall p <- rest[1..] :: p in rest;
      }
    }
  }

  /** Joining the parts of a split with the separator gives back the text. */
  lemma {:induction false} JoinSplit(s: string, sep: char)
    ensures Join(Split(s, sep), sep) == s
  {
    if s != [] {
      var rest := Split(s[1..], sep);
      JoinSplit(s[1..], sep);
      if s[0] == sep {
        assert Split(s, sep) == [""] + rest;
        JoinEmptyFirst(rest, sep);
      } else {
        assert Split(s, sep) == [[s[0]] + rest[0]] + rest[1..];
        JoinGrowsFirst(s[0], rest, sep);
      }
      assert [s[0]] + s[1..] == s;
    }
  }

  /** An empty first part contributes only the separator that follows it. */
  lemma JoinEmptyFirst(parts: seq<string>, sep: char)
    requires |parts| >= 1
    ensures Join([""] + parts, sep) == [sep] + Join(parts, sep)
  {
    assert ([""] + parts)[1..] == parts;
  }

  /** Putting a character in front of the first part puts it in front of the joined text. */
  lemma JoinGrowsFirst(c: char, parts: seq<string>, sep: char)
    requires |parts| >= 1
    ensures Join([[c] + parts[0]] + parts[1..], sep) == [c] + Join(parts, sep)
  {
  }

  /** Splitting text that begins with a separator-free run `a` adds `a` to the first part. */
  lemma {:induction false} SplitAfterRun(a: string, rest: string, sep: char)
    requires sep !in a
    ensures Split(a + rest, sep) == [a + Split(rest, sep)[0]] + Split(rest, sep)[1..]
  {
    if a != [] {
      var text := a + rest;
      assert text[0] == a[0] && text[1..] == a[1..] + rest;
      assert a[0] in a && a[0] != sep && sep !in a[1..];
      SplitAfterRun(a[1..], rest, sep);
      var parts, inner := Split(rest, sep), Split(text[1..], sep);
      assert inner[0] == a[1..] + parts[0] && inner[1..] == parts[1..];
      assert Split(text, sep) == [[a[0]] + inner[0]] + inner[1..];
      assert [a[0]] + (a[1..] + parts[0]) == a + parts[0];
    } else {
      var parts := Split(rest, sep);
      assert a + rest == rest && a + parts[0] == parts[0];
      assert parts == [parts[0]] + parts[1..];
    }
  }

  /** `Split` undoes `Join` whenever no part contains the separator. */
  lemma {:induction false} SplitJoin(parts: seq<string>, sep: char)
    requires |parts| >= 1
    requires forall p <- parts :: sep !in p
    ensures Split(Join(parts, sep), sep) == parts
  {
    if |parts| == 1 {
      SplitAfterRun(parts[0], "", sep);
      assert parts[0] + "" == parts[0];
    } else {
      var tail := Join(parts[1..], sep);
      SplitJoin(parts[1..], sep);
      assert Join(parts, sep) == parts[0] + ([sep] + tail);
      SplitAfterRun(parts[0], [sep] + tail, sep);
      assert ([sep] + tail)[1..] == tail;
      assert parts[0] + "" == parts[0];
      assert parts == [parts[0]] + parts[1..];
    }
  }

  /** The topic check and split of the callback: a topic is routed iff splitting it on "/"
      gives exactly two parts, that is iff it contains exactly one "/"; the location is the
      text before it and the station the text after it. Either may be empty. */
  function Route(topic: string): (r: Option<Identity>)
    ensures r.Some? <==> multiset(topic)['/'] == 1
    ensures r.Some? ==> topic == r.value.location + "/" + r.value.station
    ensures r.Some? ==> '/' !in r.value.location && '/' !in r.value.station
  {
    var parts := Split(topic, '/');
    SplitCount(topic, '/');
    SplitPartsFree(topic, '/');
    JoinSplit(topic, '/');
    if |parts| != 2 then None
    else
      assert parts[1..] == [parts[1]];
      assert Join(parts, '/') == parts[0] + "/" + parts[1];
      Some(Identity(parts[0], parts[1]))
  }

  /** Every location and station without a "/" is routed from the topic "location/station". */
  lemma RouteOfTopic(location: string, station: string)
    requires '/' !in location && '/' !in station
    ensures Route(location + "/" + station) == Some(Identity(location, station))
  {
    var parts := [location, station];
    assert parts[1..] == [station];
    assert Join(parts, '/') == location + "/" + station;
    SplitJoin(parts, '/');
  }
}

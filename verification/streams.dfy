/**
 * Activity data as it arrives from Strava: the summary record, the per-activity stream
 * arrays, the decoder that turns dynamically typed stream values into typed arrays, and the
 * filter that keeps rides. Instants are whole seconds; RFC 3339 parsing is a given partial function.
 */
module Streams {
  import opened Wrappers

  /** An ActivitySummary, reduced to the fields the modelled logic reads. */
  datatype ActivitySummary = ActivitySummary(
    id: int, athleteId: int, name: string, activityType: string,
    distance: real, movingTime: real, elapsedTime: real, totalElevationGain: real,
    startDate: string, startTime: int,
    averageSpeed: real, averageHeartrate: real)

  /** A value of a decoded JSON array, by its dynamic Go type. */
  datatype JsonValue =
    | JInt(i: int)          // Go int
    | JInt64(i: int)        // Go int64
    | JFloat(f: real)       // Go float64
    | JBool(b: bool)
    | JArray(items: seq<JsonValue>)
    | JOther                // string, nil, object

  datatype RawStream = RawStream(streamType: string, data: seq<JsonValue>)

  /** The outcome of decoding one value: a value, a type error, or a run-time panic. */
  datatype Decoded<T> = Value(value: T) | Mismatch | Panic

  /** Conversion of a float64 to an integer type: truncation toward zero. */
  function Trunc(v: real): (n: int)
    ensures v >= 0.0 ==> n as real <= v < n as real + 1.0
    ensures v < 0.0 ==> n as real - 1.0 < v <= n as real
  {
    if v >= 0.0 then v.Floor else -((-v).Floor)
  }

  /** A time offset: int64 as is, float64 truncated, anything else rejected. */
  function TimeOffset(v: JsonValue): Decoded<int> {
    match v
    case JInt64(n) => Value(n)
    case JFloat(f) => Value(Trunc(f))
    case _ => Mismatch
  }

  /** heartrate, watts, cadence: int as is, float64 truncated, anything else rejected. */
  function IntValue(v: JsonValue): Decoded<int> {
    match v
    case JInt(n) => Value(n)
    case JFloat(f) => Value(Trunc(f))
    case _ => Mismatch
  }

  /** altitude, velocity_smooth, grade_smooth: only float64. */
  function FloatValue(v: JsonValue): Decoded<real> {
    match v
    case JFloat(f) => Value(f)
    case _ => Mismatch
  }

  function BoolValue(v: JsonValue): Decoded<bool> {
    match v
    case JBool(b) => Value(b)
    case _ => Mismatch
  }

  /**
   * latlng: the value must be an array (else an error); its first two items are then asserted
   * to be float64 without checks, so a short array or a non-float item panics.
   */
  function LatLngValue(v: JsonValue): Decoded<seq<real>> {
    match v
    case JArray(items) =>
      if |items| < 2 || !items[0].JFloat? || !items[1].JFloat? then Panic
      else Value([items[0].f, items[1].f])
    case _ => Mismatch
  }

  function AtTime(start: int, d: Decoded<int>): Decoded<int> {
    match d
    case Value(o) => Value(start + o)
    case Mismatch => Mismatch
    case Panic => Panic
  }

  /** The whole array decoded, or the outcome of its first value that does not decode. */
  function DecodeAll<T>(data: seq<JsonValue>, f: JsonValue -> Decoded<T>): (r: Decoded<seq<T>>)
    ensures r.Value? <==> forall i :: 0 <= i < |data| ==> f(data[i]).Value?
    ensures r.Value? ==> |r.value| == |data| && forall i :: 0 <= i < |data| ==> f(data[i]) == Value(r.value[i])
    ensures !r.Value? ==> exists i :: 0 <= i < |data| && (forall j :: 0 <= j < i ==> f(data[j]).Value?)
                                      && !f(data[i]).Value? && (r.Panic? <==> f(data[i]).Panic?)
  {
    if data == [] then Value([])
    else
      var init := data[..|data| - 1];
      assert forall i :: 0 <= i < |data| - 1 ==> data[i] == init[i];
      match DecodeAll(init, f)
      case Mismatch => Mismatch
      case Panic => Panic
      case Value(xs) =>
        match f(data[|data| - 1])
        case Value(x) => Value(xs + [x])
        case Mismatch => Mismatch
        case Panic => Panic
  }

  /** Once a prefix fails, the whole array fails the same way. */
  lemma {:induction false} FailureExtends<T>(data: seq<JsonValue>, f: JsonValue -> Decoded<T>, n: nat)
    requires n <= |data| && !DecodeAll(data[..n], f).Value?
    ensures DecodeAll(data, f) == DecodeAll(data[..n], f)
    decreases |data| - n
  {
    if n < |data| {
      assert data[..n + 1][..n] == data[..n];
      FailureExtends(data, f, n + 1);
    } else {
      assert data[..n] == data;
    }
  }

  /** One stream's loop: fill a fresh array of the data's length, stopping at the first bad value. */
  method DecodeStream<T(0)>(data: seq<JsonValue>, f: JsonValue -> Decoded<T>) returns (r: Decoded<seq<T>>)
    ensures r == DecodeAll(data, f)
  {
    var out := new T[|data|];
    var i := 0;
    while i < |data|
      invariant 0 <= i <= |data|
      invariant DecodeAll(data[..i], f) == Value(out[..i])
    {
      assert data[..i + 1][..i] == data[..i];
      var d := f(data[i]);
      if !d.Value? {
        FailureExtends(data, f, i + 1);
        return if d.Panic? then Panic else Mismatch;
      }
      out[i] := d.value;
      assert out[..i + 1] == out[..i] + [d.value];
      i := i + 1;
    }
    assert data[..i] == data;
    assert out[..] == out[..i];
    return Value(out[..]);
  }

  /** The typed streams of one activity. */
  datatype StreamSet = StreamSet(
    time: seq<int>, latlng: seq<seq<real>>, altitude: seq<real>, heartrate: seq<int>, speed: seq<real>,
    watts: seq<int>, cadence: seq<int>, grade: seq<real>, moving: seq<bool>)

  datatype StreamError = Invalid(streamType: string) | Panicked(streamType: string)

  function Failure<T>(streamType: string, d: Decoded<T>): StreamError
    requires !d.Value?
  {
    if d.Panic? then Panicked(streamType) else Invalid(streamType)
  }

  /** The effect of one raw stream: its own field is replaced when all its values decode. */
  function ApplyStream(s: StreamSet, start: int, raw: RawStream): (r: Result<StreamSet, StreamError>)
    ensures r.Err? ==> r.error.streamType == raw.streamType
  {
    var t := raw.streamType;
    if t == "time" then
      var d := DecodeAll(raw.data, v => AtTime(start, TimeOffset(v)));
      if d.Value? then Ok(s.(time := d.value)) else Err(Failure(t, d))
    else if t == "latlng" then
      var d := DecodeAll(raw.data, LatLngValue);
      if d.Value? then Ok(s.(latlng := d.value)) else Err(Failure(t, d))
    else if t == "altitude" then
      var d := DecodeAll(raw.data, FloatValue);
      if d.Value? then Ok(s.(altitude := d.value)) else Err(Failure(t, d))
    else if t == "heartrate" then
      var d := DecodeAll(raw.data, IntValue);
      if d.Value? then Ok(s.(heartrate := d.value)) else Err(Failure(t, d))
    else if t == "velocity_smooth" then
      var d := DecodeAll(raw.data, FloatValue);
      if d.Value? then Ok(s.(speed := d.value)) else Err(Failure(t, d))
    else if t == "watts" then
      var d := DecodeAll(raw.data, IntValue);
      if d.Value? then Ok(s.(watts := d.value)) else Err(Failure(t, d))
    else if t == "cadence" then
      var d := DecodeAll(raw.data, IntValue);
      if d.Value? then Ok(s.(cadence := d.value)) else Err(Failure(t, d))
    else if t == "grade_smooth" then
      var d := DecodeAll(raw.data, FloatValue);
      if d.Value? then Ok(s.(grade := d.value)) else Err(Failure(t, d))
    else if t == "moving" then
      var d := DecodeAll(raw.data, BoolValue);
      if d.Value? then Ok(s.(moving := d.value)) else Err(Failure(t, d))
    else Ok(s)
  }

  /** The streams after applying a list in order; at the first error, the streams applied so far and that error. */
  function ApplyStreams(s: StreamSet, start: int, raws: seq<RawStream>): (StreamSet, Option<StreamError>)
    decreases |raws|
  {
    if raws == [] then (s, None)
    else
      match ApplyStream(s, start, raws[0])
      case Err(e) => (s, Some(e))
      case Ok(s') => ApplyStreams(s', start, raws[1..])
  }

  /** Decoding one raw stream into the set, as the switch of AddStreams does for each stream type. */
  method DecodeInto(cur: StreamSet, start: int, raw: RawStream) returns (next: Result<StreamSet, StreamError>)
    ensures next == ApplyStream(cur, start, raw)
  {
    var t := raw.streamType;
    if t == "time" {
      var d := DecodeStream(raw.data, v => AtTime(start, TimeOffset(v)));
      next := if d.Value? then Ok(cur.(time := d.value)) else Err(Failure(t, d));
    } else if t == "latlng" {
      var d := DecodeStream(raw.data, LatLngValue);
      next := if d.Value? then Ok(cur.(latlng := d.value)) else Err(Failure(t, d));
    } else if t == "altitude" {
      var d := DecodeStream(raw.data, FloatValue);
      next := if d.Value? then Ok(cur.(altitude := d.value)) else Err(Failure(t, d));
    } else if t == "heartrate" {
      var d := DecodeStream(raw.data, IntValue);
      next := if d.Value? then Ok(cur.(heartrate := d.value)) else Err(Failure(t, d));
    } else if t == "velocity_smooth" {
      var d := DecodeStream(raw.data, FloatValue);
      next := if d.Value? then Ok(cur.(speed := d.value)) else Err(Failure(t, d));
    } else if t == "watts" {
      var d := DecodeStream(raw.data, IntValue);
      next := if d.Value? then Ok(cur.(watts := d.value)) else Err(Failure(t, d));
    } else if t == "cadence" {
      var d := DecodeStream(raw.data, IntValue);
      next := if d.Value? then Ok(cur.(cadence := d.value)) else Err(Failure(t, d));
    } else if t == "grade_smooth" {
      var d := DecodeStream(raw.data, FloatValue);
      next := if d.Value? then Ok(cur.(grade := d.value)) else Err(Failure(t, d));
    } else if t == "moving" {
      var d := DecodeStream(raw.data, BoolValue);
      next := if d.Value? then Ok(cur.(moving := d.value)) else Err(Failure(t, d));
    } else {
      next := Ok(cur);
    }
  }

  /** One step of applying a list: the stream at i, then the rest. */
  lemma ApplyStreamsStep(s: StreamSet, start: int, raws: seq<RawStream>, i: int)
    requires 0 <= i < |raws|
    ensures ApplyStream(s, start, raws[i]).Err?
            ==> ApplyStreams(s, start, raws[i..]) == (s, Some(ApplyStream(s, start, raws[i]).error))
    ensures ApplyStream(s, start, raws[i]).Ok?
            ==> ApplyStreams(s, start, raws[i..]) == ApplyStreams(ApplyStream(s, start, raws[i]).value, start, raws[i + 1..])
  {
    assert raws[i..][0] == raws[i];
    assert raws[i..][1..] == raws[i + 1..];
  }

  predicate KnownStreamType(t: string) {
    t in {"time", "latlng", "altitude", "heartrate", "velocity_smooth", "watts", "cadence", "grade_smooth", "moving"}
  }

  /** An unrecognised stream type changes nothing. */
  lemma UnknownStreamIgnored(s: StreamSet, start: int, raw: RawStream)
    requires !KnownStreamType(raw.streamType)
    ensures ApplyStream(s, start, raw) == Ok(s)
  {
  }

  /**
   * A decoded stream has exactly as many values as its raw array, and each time is the start
   * instant plus the truncated offset.
   */
  lemma TimeStreamDecoded(s: StreamSet, start: int, raw: RawStream)
    requires raw.streamType == "time"
    requires ApplyStream(s, start, raw).Ok?
    ensures var t := ApplyStream(s, start, raw).value;
            |t.time| == |raw.data|
            && (forall i :: 0 <= i < |raw.data| ==>
                  (raw.data[i].JInt64? && t.time[i] == start + raw.data[i].i)
                  || (raw.data[i].JFloat? && t.time[i] == start + Trunc(raw.data[i].f)))
            && t == s.(time := t.time)
  {
    var f := (v: JsonValue) => AtTime(start, TimeOffset(v));
    var d := DecodeAll(raw.data, f);
    forall i | 0 <= i < |raw.data|
      ensures (raw.data[i].JInt64? && d.value[i] == start + raw.data[i].i)
              || (raw.data[i].JFloat? && d.value[i] == start + Trunc(raw.data[i].f))
    {
      assert f(raw.data[i]) == Value(d.value[i]);
    }
  }

  /** heartrate accepts Go ints and truncated float64 values and nothing else; it replaces only its own field. */
  lemma HeartrateStreamDecoded(s: StreamSet, start: int, raw: RawStream)
    requires raw.streamType == "heartrate"
    ensures ApplyStream(s, start, raw).Ok? <==> forall i :: 0 <= i < |raw.data| ==> raw.data[i].JInt? || raw.data[i].JFloat?
    ensures ApplyStream(s, start, raw).Ok? ==>
              var t := ApplyStream(s, start, raw).value;
              |t.heartrate| == |raw.data| && t == s.(heartrate := t.heartrate)
              && forall i :: 0 <= i < |raw.data| ==>
                   t.heartrate[i] == (if raw.data[i].JInt? then raw.data[i].i else Trunc(raw.data[i].f))
  {
    var d := DecodeAll(raw.data, IntValue);
    assert forall i :: 0 <= i < |raw.data| ==> (IntValue(raw.data[i]).Value? <==> raw.data[i].JInt? || raw.data[i].JFloat?);
  }

  /** latlng keeps exactly the first two coordinates of each pair. */
  lemma LatLngStreamDecoded(s: StreamSet, start: int, raw: RawStream)
    requires raw.streamType == "latlng"
    ensures ApplyStream(s, start, raw).Ok? ==>
              var t := ApplyStream(s, start, raw).value;
              |t.latlng| == |raw.data| && t == s.(latlng := t.latlng)
              && forall i :: 0 <= i < |raw.data| ==>
                   (|t.latlng[i]| == 2 && raw.data[i].JArray?
                    && t.latlng[i][0] == raw.data[i].items[0].f && t.latlng[i][1] == raw.data[i].items[1].f)
  {
  }

  /** A pair shorter than two coordinates panics, when every value before it decodes. */
  lemma LatLngShortPairPanics(s: StreamSet, start: int, raw: RawStream, i: int)
    requires raw.streamType == "latlng"
    requires 0 <= i < |raw.data| && raw.data[i].JArray? && |raw.data[i].items| < 2
    requires forall j :: 0 <= j < i ==> LatLngValue(raw.data[j]).Value?
    ensures ApplyStream(s, start, raw) == Err(Panicked("latlng"))
  {
    var d := DecodeAll(raw.data, LatLngValue);
    assert !d.Value?;
    var k :| 0 <= k < |raw.data| && (forall j :: 0 <= j < k ==> LatLngValue(raw.data[j]).Value?)
             && !LatLngValue(raw.data[k]).Value? && (d.Panic? <==> LatLngValue(raw.data[k]).Panic?);
    assert k == i;
  }

  /**
   * On an error, the streams left are exactly those after the streams before the failing one,
   * and the error is that stream's own.
   */
  lemma {:induction false} EarlierStreamsKept(s: StreamSet, start: int, raws: seq<RawStream>)
    ensures ApplyStreams(s, start, raws).1.Some? ==>
              exists k :: 0 <= k < |raws| && ApplyStreams(s, start, raws[..k]) == (ApplyStreams(s, start, raws).0, None)
                          && ApplyStream(ApplyStreams(s, start, raws).0, start, raws[k]) == Err(ApplyStreams(s, start, raws).1.value)
    decreases |raws|
  {
    if raws != [] && ApplyStreams(s, start, raws).1.Some? {
      match ApplyStream(s, start, raws[0])
      case Err(e) =>
        assert raws[..0] == [];
      case Ok(s') =>
        EarlierStreamsKept(s', start, raws[1..]);
        var k :| 0 <= k < |raws[1..]| && ApplyStreams(s', start, raws[1..][..k]) == (ApplyStreams(s', start, raws[1..]).0, None)
                 && ApplyStream(ApplyStreams(s', start, raws[1..]).0, start, raws[1..][k]) == Err(ApplyStreams(s', start, raws[1..]).1.value);
        assert raws[..k + 1][0] == raws[0];
        assert raws[..k + 1][1..] == raws[1..][..k];
        assert 0 <= k + 1 < |raws| && ApplyStreams(s, start, raws[..k + 1]) == (ApplyStreams(s, start, raws).0, None);
    }
  }

  class BikeActivity {
    var summary: ActivitySummary
    var time: seq<int>
    var latlng: seq<seq<real>>
    var altitude: seq<real>
    var heartrate: seq<int>
    var speed: seq<real>
    var watts: seq<int>
    var cadence: seq<int>
    var grade: seq<real>
    var moving: seq<bool>

    constructor (summary: ActivitySummary)
      ensures this.summary == summary
      ensures Streams() == StreamSet([], [], [], [], [], [], [], [], [])
    {
      this.summary := summary;
      time, latlng, altitude, heartrate, speed := [], [], [], [], [];
      watts, cadence, grade, moving := [], [], [], [];
    }

    function Streams(): StreamSet
      reads this
    {
      StreamSet(time, latlng, altitude, heartrate, speed, watts, cadence, grade, moving)
    }

    method Assign(s: StreamSet)
      modifies this
      ensures Streams() == s && summary == old(summary)
    {
      time, latlng, altitude, heartrate, speed := s.time, s.latlng, s.altitude, s.heartrate, s.speed;
      watts, cadence, grade, moving := s.watts, s.cadence, s.grade, s.moving;
    }

    /**
     * AddStreams: each raw stream in turn is decoded into a fresh array and assigned to its
     * field; the first value that does not decode stops the method with an error (or a panic),
     * leaving the streams assigned so far in place.
     */
    method AddStreams(raws: seq<RawStream>) returns (err: Option<StreamError>)
      modifies this
      ensures summary == old(summary)
      ensures (Streams(), err) == ApplyStreams(old(Streams()), summary.startTime, raws)
    {
      var start := summary.startTime;
      var i := 0;
      while i < |raws|
        invariant 0 <= i <= |raws|
        invariant summary == old(summary)
        invariant ApplyStreams(old(Streams()), start, raws) == ApplyStreams(Streams(), start, raws[i..])
      {
        var raw := raws[i];
        var next := DecodeInto(Streams(), start, raw);
        ApplyStreamsStep(Streams(), start, raws, i);
        if next.Err? {
          return Some(next.error);
        }
        Assign(next.value);
        i := i + 1;
      }
      return None;
    }
  }

  // ---------------------------------------------------------------------------
  // The ride filter of FetchBikeActivities

  /** The rides of the list, in order, each with its parsed start; None when some ride's start does not parse. */
  function Rides(all: seq<ActivitySummary>, parse: string -> Option<int>): (r: Option<seq<ActivitySummary>>)
    ensures r.None? <==> exists a :: a in all && a.activityType == "Ride" && parse(a.startDate).None?
    ensures r.Some? ==> forall x :: x in r.value ==> x.activityType == "Ride" && Some(x.startTime) == parse(x.startDate)
    ensures r.Some? ==> forall a :: a in all && a.activityType == "Ride" ==> a.(startTime := parse(a.startDate).value) in r.value
    ensures |r.GetOr([])| <= |all|
  {
    if all == [] then Some([])
    else
      var a := all[0];
      var rest := Rides(all[1..], parse);
      assert forall x :: x in all <==> x == a || x in all[1..];
      if a.activityType != "Ride" then rest
      else
        match parse(a.startDate)
        case None => None
        case Some(t) => if rest.None? then None else Some([a.(startTime := t)] + rest.value)
  }

  function Prepend(kept: seq<ActivitySummary>, r: Option<seq<ActivitySummary>>): Option<seq<ActivitySummary>> {
    if r.None? then None else Some(kept + r.value)
  }

  /** One visit of the filter loop, stated on what is still to be filtered. */
  lemma FilterStep(all: seq<ActivitySummary>, parse: string -> Option<int>, kept: seq<ActivitySummary>, i: int)
    requires 0 <= i < |all|
    ensures all[i].activityType != "Ride"
            ==> Prepend(kept, Rides(all[i..], parse)) == Prepend(kept, Rides(all[i + 1..], parse))
    ensures all[i].activityType == "Ride" && parse(all[i].startDate).None? ==> Rides(all[i..], parse).None?
    ensures all[i].activityType == "Ride" && parse(all[i].startDate).Some?
            ==> Prepend(kept, Rides(all[i..], parse))
                == Prepend(kept + [all[i].(startTime := parse(all[i].startDate).value)], Rides(all[i + 1..], parse))
  {
    var a := all[i];
    assert all[i..][0] == a;
    assert all[i..][1..] == all[i + 1..];
    var rest := Rides(all[i + 1..], parse);
    if a.activityType == "Ride" && parse(a.startDate).Some? && rest.Some? {
      var b := a.(startTime := parse(a.startDate).value);
      assert kept + ([b] + rest.value) == (kept + [b]) + rest.value;
    }
  }

  /** The filter loop: append each ride with its parsed start, failing on the first start that does not parse. */
  method FilterRides(all: seq<ActivitySummary>, parse: string -> Option<int>) returns (r: Option<seq<ActivitySummary>>)
    ensures r == Rides(all, parse)
  {
    var kept: seq<ActivitySummary> := [];
    var i := 0;
    assert all[0..] == all;
    assert Prepend(kept, Rides(all, parse)) == Rides(all, parse) by {
      if Rides(all, parse).Some? {
        assert [] + Rides(all, parse).value == Rides(all, parse).value;
      }
    }
    while i < |all|
      invariant 0 <= i <= |all|
      invariant Rides(all, parse) == Prepend(kept, Rides(all[i..], parse))
    {
      var a := all[i];
      FilterStep(all, parse, kept, i);
      if a.activityType == "Ride" {
        var t := parse(a.startDate);
        if t.None? {
          return None;
        }
        kept := kept + [a.(startTime := t.value)];
      }
      i := i + 1;
    }
    assert all[i..] == [];
    assert kept + [] == kept;
    return Some(kept);
  }
}

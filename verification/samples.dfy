/**
 * A stored point sample (one row of `point_samples`) and the aggregates that are
 * computed over runs of samples in more than one place: the positive elevation gain
 * (segment creation and the per-activity segment metrics), the path length between
 * consecutive locations, and averages that skip absent sensor values.
 */
module Samples {
  import opened Wrappers
  import opened Geo

  /** One `point_samples` row. Optional sensor fields are None when the stream lacked them. */
  datatype PointSample = PointSample(
    activityId: int,
    athleteId: int,
    pointIndex: int,
    time: int,
    location: LatLng,
    altitude: Option<real>,
    heartrate: Option<int>,
    speed: Option<real>,
    watts: Option<int>,
    cadence: Option<int>,
    grade: Option<real>,
    moving: Option<bool>,
    cumulativeDistance: Option<real>)

  // ---------------------------------------------------------------------------
  // Positive elevation gain

  /** What one pair of consecutive samples adds: the rise, when both altitudes are known and it is positive. */
  function Rise(prev: Option<real>, cur: Option<real>): real {
    if prev.Some? && cur.Some? && cur.value > prev.value then cur.value - prev.value else 0.0
  }

  /** Sum of the positive rises between consecutive altitudes; pairs with a missing altitude add nothing. */
  function PositiveGain(alts: seq<Option<real>>): (gain: real)
    ensures gain >= 0.0
  {
    if |alts| < 2 then 0.0
    else PositiveGain(alts[..|alts| - 1]) + Rise(alts[|alts| - 2], alts[|alts| - 1])
  }

  function Altitudes(samples: seq<PointSample>): (alts: seq<Option<real>>)
    ensures |alts| == |samples|
    ensures forall i :: 0 <= i < |samples| ==> alts[i] == samples[i].altitude
  {
    if samples == [] then [] else Altitudes(samples[..|samples| - 1]) + [samples[|samples| - 1].altitude]
  }

  /** Descents never subtract: extending a run of altitudes never lowers its gain. */
  lemma {:induction false} PositiveGainMonotone(alts: seq<Option<real>>, n: nat)
    requires n <= |alts|
    ensures PositiveGain(alts[..n]) <= PositiveGain(alts)
    decreases |alts| - n
  {
    if n < |alts| {
      var longer := alts[..n + 1];
      assert longer[..n] == alts[..n];
      if n + 1 >= 2 {
        assert longer[..|longer| - 1] == alts[..n];
      }
      assert PositiveGain(alts[..n]) <= PositiveGain(longer);
      PositiveGainMonotone(alts, n + 1);
      assert alts[..n + 1][..] == longer;
      if n + 1 == |alts| { assert longer == alts; }
    } else {
      assert alts[..n] == alts;
    }
  }

  /** When every altitude is known, the gain is at least the net climb from the first to the last sample. */
  lemma {:induction false} GainAtLeastNetClimb(alts: seq<Option<real>>)
    requires |alts| >= 1
    requires forall i :: 0 <= i < |alts| ==> alts[i].Some?
    ensures PositiveGain(alts) >= alts[|alts| - 1].value - alts[0].value
  {
    if |alts| >= 2 {
      var init := alts[..|alts| - 1];
      GainAtLeastNetClimb(init);
      assert init[0] == alts[0];
      assert init[|init| - 1] == alts[|alts| - 2];
    }
  }

  // ---------------------------------------------------------------------------
  // Path length

  /** Sum of the distances between consecutive locations. */
  function PathLength(g: Geodesy, locs: seq<LatLng>): real {
    if |locs| < 2 then 0.0
    else PathLength(g, locs[..|locs| - 1]) + g.pointToPoint(locs[|locs| - 2], locs[|locs| - 1])
  }

  function Locations(samples: seq<PointSample>): (locs: seq<LatLng>)
    ensures |locs| == |samples|
    ensures forall i :: 0 <= i < |samples| ==> locs[i] == samples[i].location
  {
    if samples == [] then [] else Locations(samples[..|samples| - 1]) + [samples[|samples| - 1].location]
  }

  lemma {:induction false} PathLengthNonNegative(g: Geodesy, locs: seq<LatLng>)
    requires NonNegative(g)
    ensures PathLength(g, locs) >= 0.0
  {
    if |locs| >= 2 {
      PathLengthNonNegative(g, locs[..|locs| - 1]);
      assert g.pointToPoint(locs[|locs| - 2], locs[|locs| - 1]) >= 0.0;
    }
  }

  // ---------------------------------------------------------------------------
  // Averages over present values (SQL's AVG ... FILTER (WHERE x IS NOT NULL))

  function PresentSum(xs: seq<Option<real>>): real {
    if xs == [] then 0.0 else (if xs[0].Some? then xs[0].value else 0.0) + PresentSum(xs[1..])
  }

  function PresentCount(xs: seq<Option<real>>): (n: nat)
    ensures n == 0 <==> forall i :: 0 <= i < |xs| ==> xs[i].None?
    ensures n <= |xs|
  {
    if xs == [] then 0 else (if xs[0].Some? then 1 else 0) + PresentCount(xs[1..])
  }

  /** Mean of the present values; None (SQL NULL) when no value is present. */
  function Average(xs: seq<Option<real>>): (avg: Option<real>)
    ensures avg.None? <==> forall i :: 0 <= i < |xs| ==> xs[i].None?
  {
    var n := PresentCount(xs);
    if n == 0 then None else Some(PresentSum(xs) / n as real)
  }

  /** `c` counted once per present value: the sum the present values would have if all were `c`. */
  function PresentConst(xs: seq<Option<real>>, c: real): real {
    if xs == [] then 0.0 else (if xs[0].Some? then c else 0.0) + PresentConst(xs[1..], c)
  }

  /** `c` added up `n` times. */
  function Repeated(n: nat, c: real): real {
    if n == 0 then 0.0 else Repeated(n - 1, c) + c
  }

  lemma {:induction false} RepeatedIsProduct(n: nat, c: real)
    ensures Repeated(n, c) == n as real * c
  {
    if n > 0 {
      RepeatedIsProduct(n - 1, c);
      assert n as real * c == (n - 1) as real * c + c;
    }
  }

  lemma {:induction false} PresentConstIsRepeated(xs: seq<Option<real>>, c: real)
    ensures PresentConst(xs, c) == Repeated(PresentCount(xs), c)
  {
    if xs != [] {
      PresentConstIsRepeated(xs[1..], c);
    }
  }

  lemma PresentConstIsScaledCount(xs: seq<Option<real>>, c: real)
    ensures PresentConst(xs, c) == PresentCount(xs) as real * c
  {
    PresentConstIsRepeated(xs, c);
    RepeatedIsProduct(PresentCount(xs), c);
  }

  /** Every present value lies in [lo, hi], stated element by element from the front. */
  predicate PresentWithin(xs: seq<Option<real>>, lo: real, hi: real) {
    xs == [] || ((xs[0].Some? ==> lo <= xs[0].value <= hi) && PresentWithin(xs[1..], lo, hi))
  }

  lemma {:induction false} PresentWithinOfAll(xs: seq<Option<real>>, lo: real, hi: real)
    requires forall i :: 0 <= i < |xs| && xs[i].Some? ==> lo <= xs[i].value <= hi
    ensures PresentWithin(xs, lo, hi)
  {
    if xs != [] {
      var rest := xs[1..];
      forall i | 0 <= i < |rest| && rest[i].Some? ensures lo <= rest[i].value <= hi {
        assert rest[i] == xs[i + 1];
      }
      PresentWithinOfAll(rest, lo, hi);
    }
  }

  lemma {:induction false} PresentSumBounds(xs: seq<Option<real>>, lo: real, hi: real)
    requires PresentWithin(xs, lo, hi)
    ensures PresentConst(xs, lo) <= PresentSum(xs) <= PresentConst(xs, hi)
  {
    if xs != [] {
      PresentSumBounds(xs[1..], lo, hi);
    }
  }

  lemma DivisionWithinBounds(s: real, n: nat, lo: real, hi: real)
    requires n > 0
    requires n as real * lo <= s
    requires s <= n as real * hi
    ensures lo <= s / n as real <= hi
  {
    assert s / n as real * n as real == s;
  }

  /** The sum of the present values is at least `lo` per present value. */
  lemma PresentSumAtLeast(xs: seq<Option<real>>, lo: real, hi: real)
    requires PresentWithin(xs, lo, hi)
    ensures PresentCount(xs) as real * lo <= PresentSum(xs)
  {
    PresentSumBounds(xs, lo, hi);
    PresentConstIsScaledCount(xs, lo);
  }

  /** The sum of the present values is at most `hi` per present value. */
  lemma PresentSumAtMost(xs: seq<Option<real>>, lo: real, hi: real)
    requires PresentWithin(xs, lo, hi)
    ensures PresentSum(xs) <= PresentCount(xs) as real * hi
  {
    PresentSumBounds(xs, lo, hi);
    PresentConstIsScaledCount(xs, hi);
  }

  /** The mean of present values lies between any bounds that all present values respect. */
  lemma PresentMeanWithinBounds(xs: seq<Option<real>>, lo: real, hi: real)
    requires PresentWithin(xs, lo, hi)
    requires PresentCount(xs) > 0
    ensures lo <= PresentSum(xs) / PresentCount(xs) as real <= hi
  {
    PresentSumAtLeast(xs, lo, hi);
    PresentSumAtMost(xs, lo, hi);
    DivisionWithinBounds(PresentSum(xs), PresentCount(xs), lo, hi);
  }

  /** The average of present values lies between any bounds that all present values respect. */
  lemma AverageWithinBounds(xs: seq<Option<real>>, lo: real, hi: real)
    requires forall i :: 0 <= i < |xs| && xs[i].Some? ==> lo <= xs[i].value <= hi
    requires Average(xs).Some?
    ensures lo <= Average(xs).value <= hi
  {
    PresentWithinOfAll(xs, lo, hi);
    PresentMeanWithinBounds(xs, lo, hi);
  }

  lemma {:induction false} PresentSumCountConcat(a: seq<Option<real>>, b: seq<Option<real>>)
    ensures PresentSum(a + b) == PresentSum(a) + PresentSum(b)
    ensures PresentCount(a + b) == PresentCount(a) + PresentCount(b)
  {
    if a != [] {
      assert (a + b)[1..] == a[1..] + b;
      PresentSumCountConcat(a[1..], b);
    } else {
      assert a + b == b;
    }
  }

  /** A sensor dropout (an absent value) anywhere in the run leaves the average unchanged. */
  lemma AverageIgnoresAbsent(a: seq<Option<real>>, b: seq<Option<real>>)
    ensures Average(a + [None] + b) == Average(a + b)
  {
    var none: seq<Option<real>> := [None];
    PresentSumCountConcat(a + none, b);
    PresentSumCountConcat(a, none);
    PresentSumCountConcat(a, b);
    assert none[1..] == [];
    assert PresentCount(none) == 0 && PresentSum(none) == 0.0;
  }
}

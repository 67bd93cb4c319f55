/** Timed travels, interpolation and the calibrated stop position
    (custom_components/nice_bidiwifi/calibration_estimator.py,
    custom_components/nice_bidiwifi/calibration.py). */
module Calibration {
  import opened Prelude
  import opened Sorting

  // ----- medians -----

  /** A full-travel sample; `duration` is None when it is missing or not an integer. */
  datatype Travel = Travel(attempt: Option<int>, duration: Option<int>)

  predicate Timed(t: Travel) { t.duration.Some? && t.duration.value > 0 }

  function Ms(t: Travel): int { if t.duration.Some? then t.duration.value else 0 }

  function Key(t: Travel): real { Ms(t) as real }

  function Itself(d: int): real { d as real }

  function TimedOnly(samples: seq<Travel>): (r: seq<Travel>)
    ensures forall i :: 0 <= i < |r| ==> Timed(r[i])
  {
    if samples == [] then []
    else TimedOnly(samples[..|samples| - 1])
         + if Timed(samples[|samples| - 1]) then [samples[|samples| - 1]] else []
  }

  function Durations(timed: seq<Travel>): seq<int>
  {
    seq(|timed|, i requires 0 <= i < |timed| => Ms(timed[i]))
  }

  /** `median_time_travel_duration_ms`. */
  function MedianDuration(samples: seq<Travel>): Option<int>
  {
    var durations := Durations(TimedOnly(samples));
    if durations == [] then None
    else
      SortSorts(durations, Itself);
      Some(SortBy(durations, Itself)[|durations| / 2])
  }

  /** `select_time_travel_sample`; None stands for the NiceCalibrationError. */
  function SelectTravel(samples: seq<Travel>): Option<Travel>
  {
    var timed := TimedOnly(samples);
    if timed == [] then None
    else
      SortSorts(timed, Key);
      Some(SortBy(timed, Key)[|timed| / 2])
  }

  lemma {:induction false} InsertCommutes(x: Travel, s: seq<Travel>)
    ensures Durations(Insert(x, s, Key)) == Insert(Ms(x), Durations(s), Itself)
  {
    if s == [] {
    } else if Key(x) < Key(s[0]) {
      assert Durations([x] + s) == [Ms(x)] + Durations(s);
    } else {
      InsertCommutes(x, s[1..]);
      assert Durations(s)[1..] == Durations(s[1..]);
      assert Durations([s[0]] + Insert(x, s[1..], Key)) == [Durations(s)[0]] + Durations(Insert(x, s[1..], Key));
    }
  }

  /** Sorting samples by duration sorts their durations. */
  lemma {:induction false} SortCommutes(s: seq<Travel>)
    ensures Durations(SortBy(s, Key)) == SortBy(Durations(s), Itself)
  {
    if s != [] {
      var front := s[..|s| - 1];
      SortCommutes(front);
      SortSorts(front, Key);
      InsertCommutes(s[|s| - 1], SortBy(front, Key));
      assert Durations(s)[..|s| - 1] == Durations(front);
    }
  }

  function AtMost(s: seq<int>, m: int): nat
  {
    if s == [] then 0 else AtMost(s[..|s| - 1], m) + if s[|s| - 1] <= m then 1 else 0
  }

  function AtLeast(s: seq<int>, m: int): nat
  {
    if s == [] then 0 else AtLeast(s[..|s| - 1], m) + if s[|s| - 1] >= m then 1 else 0
  }

  lemma {:induction false} CountsAppend(a: seq<int>, b: seq<int>, m: int)
    ensures AtMost(a + b, m) == AtMost(a, m) + AtMost(b, m)
    ensures AtLeast(a + b, m) == AtLeast(a, m) + AtLeast(b, m)
  {
    if b == [] {
      assert a + b == a;
    } else {
      assert (a + b)[..|a + b| - 1] == a + b[..|b| - 1];
      CountsAppend(a, b[..|b| - 1], m);
    }
  }

  lemma {:induction false} InsertCounts(x: int, s: seq<int>, m: int)
    ensures AtMost(Insert(x, s, Itself), m) == AtMost(s, m) + AtMost([x], m)
    ensures AtLeast(Insert(x, s, Itself), m) == AtLeast(s, m) + AtLeast([x], m)
  {
    if s != [] {
      CountsAppend([x], s, m);
      InsertCounts(x, s[1..], m);
      CountsAppend([s[0]], Insert(x, s[1..], Itself), m);
      CountsAppend([s[0]], s[1..], m);
      assert [s[0]] + s[1..] == s;
    }
  }

  lemma {:induction false} SortCounts(s: seq<int>, m: int)
    ensures AtMost(SortBy(s, Itself), m) == AtMost(s, m)
    ensures AtLeast(SortBy(s, Itself), m) == AtLeast(s, m)
  {
    if s != [] {
      SortCounts(s[..|s| - 1], m);
      InsertCounts(s[|s| - 1], SortBy(s[..|s| - 1], Itself), m);
      CountsAppend(s[..|s| - 1], [s[|s| - 1]], m);
      assert s[..|s| - 1] + [s[|s| - 1]] == s;
    }
  }

  lemma {:induction false} AllCounted(s: seq<int>, m: int)
    ensures (forall i :: 0 <= i < |s| ==> s[i] <= m) ==> AtMost(s, m) == |s|
    ensures (forall i :: 0 <= i < |s| ==> s[i] >= m) ==> AtLeast(s, m) == |s|
  {
    if s != [] {
      AllCounted(s[..|s| - 1], m);
    }
  }

  /** The middle of an ordered list has more than half of it at or below, half at or above. */
  lemma {:induction false} MiddleSplits(sorted: seq<int>)
    requires sorted != [] && SortedBy(sorted, Itself)
    ensures 2 * AtMost(sorted, sorted[|sorted| / 2]) > |sorted|
    ensures 2 * AtLeast(sorted, sorted[|sorted| / 2]) >= |sorted|
  {
    hide AtMost, AtLeast, SortedBy;
    var half := |sorted| / 2;
    var m := sorted[half];
    var low, high := sorted[..half + 1], sorted[half..];
    OrderedAround(sorted, half, low, high);
    AllCounted(low, m);
    AllCounted(high, m);
    CountsAppend(low, sorted[half + 1..], m);
    CountsAppend(sorted[..half], high, m);
    assert low + sorted[half + 1..] == sorted;
    assert sorted[..half] + high == sorted;
  }

  lemma {:induction false} OrderedAround(sorted: seq<int>, half: nat, low: seq<int>, high: seq<int>)
    requires half < |sorted| && SortedBy(sorted, Itself)
    requires low == sorted[..half + 1] && high == sorted[half..]
    ensures forall i :: 0 <= i < |low| ==> low[i] <= sorted[half]
    ensures forall i :: 0 <= i < |high| ==> high[i] >= sorted[half]
  {
    assert forall i :: 0 <= i < |sorted| ==> Itself(sorted[i]) == sorted[i] as real;
  }

  /** The selected sample is one of the timed samples and lasts as long as the median; more than
      half of the valid samples last at most as long, and at least half at least as long. */
  lemma {:induction false} MedianSelected(samples: seq<Travel>)
    ensures SelectTravel(samples).Some? <==> MedianDuration(samples).Some?
    ensures SelectTravel(samples).Some? <==> exists i :: 0 <= i < |samples| && Timed(samples[i])
    ensures SelectTravel(samples).Some? ==>
              var chosen := SelectTravel(samples).value;
              var durations := Durations(TimedOnly(samples));
              var m := MedianDuration(samples).value;
              && chosen in TimedOnly(samples) && chosen.duration == Some(m)
              && 2 * AtMost(durations, m) > |durations|
              && 2 * AtLeast(durations, m) >= |durations|
  {
    hide SortBy, AtMost, AtLeast;
    var timed := TimedOnly(samples);
    var durations := Durations(timed);
    TimedIsFilter(samples);
    SortSorts(timed, Key);
    SortCommutes(timed);
    SortSorts(durations, Itself);
    if timed != [] {
      var half := |durations| / 2;
      var chosen := SortBy(timed, Key)[half];
      assert chosen in multiset(SortBy(timed, Key));
      assert chosen in timed;
      assert Durations(SortBy(timed, Key))[half] == Ms(chosen);
      SortCounts(durations, Ms(chosen));
      MiddleSplits(SortBy(durations, Itself));
    }
  }

  /** The timed samples, all of them and in order: `kept` names their places. */
  lemma {:induction false} TimedAll(samples: seq<Travel>) returns (kept: seq<nat>)
    ensures |kept| == |TimedOnly(samples)|
    ensures forall i :: 0 <= i < |kept| ==> kept[i] < |samples| && samples[kept[i]] == TimedOnly(samples)[i]
    ensures forall i, j :: 0 <= i < j < |kept| ==> kept[i] < kept[j]
    ensures forall n: nat :: n in kept <==> n < |samples| && samples[n].duration.Some? && samples[n].duration.value > 0
  {
    kept := [];
    if samples != [] {
      var front := samples[..|samples| - 1];
      kept := TimedAll(front);
      assert forall n :: 0 <= n < |front| ==> samples[n] == front[n];
      if Timed(samples[|front|]) {
        kept := kept + [|front|];
      }
    }
  }

  lemma {:induction false} TimedIsFilter(samples: seq<Travel>)
    ensures TimedOnly(samples) != [] <==> exists i :: 0 <= i < |samples| && Timed(samples[i])
  {
    if samples != [] {
      var front := samples[..|samples| - 1];
      TimedIsFilter(front);
      if TimedOnly(front) != [] {
        var i :| 0 <= i < |front| && Timed(front[i]);
        assert Timed(samples[i]);
      }
      if Timed(samples[|samples| - 1]) {
        assert TimedOnly(samples) != [];
      } else if exists i :: 0 <= i < |samples| && Timed(samples[i]) {
        var i :| 0 <= i < |samples| && Timed(samples[i]);
        assert front[i] == samples[i];
      }
    }
  }

  // ----- interpolation -----

  /** A calibration point: a target percentage and the percentage to stop at. */
  type Point = (real, real)

  /** How far the target is along the way from `p` to `q`. */
  function Ratio(target: real, p: Point, q: Point): real
    requires p.0 != q.0
  {
    (target - p.0) / (q.0 - p.0)
  }

  function Blend(from: real, till: real, ratio: real): real { from + (till - from) * ratio }

  /** Linear interpolation between two neighbouring points; equal targets take the later stop. */
  function Segment(target: real, p: Point, q: Point): real
  {
    if q.0 == p.0 then Clamp(q.1)
    else Clamp(Blend(p.1, q.1, Ratio(target, p, q)))
  }

  /** `interpolate_stop_percent` from point `i` on; the loop compares with each next target. */
  function Scan(target: real, points: seq<Point>, i: nat): real
    requires 1 <= i <= |points|
    decreases |points| - i
  {
    if i == |points| then Clamp(points[i - 1].1)
    else if target <= points[i].0 then Segment(target, points[i - 1], points[i])
    else Scan(target, points, i + 1)
  }

  /** None stands for the NiceCalibrationError of an empty list. */
  function Interpolated(target: real, points: seq<Point>): Option<real>
  {
    if points == [] then None else Some(Scan(target, points, 1))
  }

  method InterpolateStopPercent(target: real, points: seq<Point>) returns (stop: Option<real>)
    ensures stop == Interpolated(target, points)
    ensures OptionalPercent(stop)
  {
    if points == [] {
      return None;
    }
    var previous := points[0];
    for i := 1 to |points|
      invariant previous == points[i - 1]
      invariant Scan(target, points, 1) == Scan(target, points, i)
    {
      if target <= points[i].0 {
        return Some(Segment(target, previous, points[i]));
      }
      previous := points[i];
    }
    return Some(Clamp(points[|points| - 1].1));
  }

  predicate Ascending(points: seq<Point>)
  {
    forall i, j :: 0 <= i < j < |points| ==> points[i].0 <= points[j].0
  }

  predicate StrictlyAscending(points: seq<Point>)
  {
    forall i, j :: 0 <= i < j < |points| ==> points[i].0 < points[j].0
  }

  predicate StopsAscend(points: seq<Point>)
  {
    forall i, j :: 0 <= i < j < |points| ==> points[i].1 <= points[j].1
  }

  lemma {:induction false} ScanStopsAt(target: real, points: seq<Point>, i: nat, k: nat)
    requires 1 <= i <= k < |points|
    requires target <= points[k].0 && forall j :: i <= j < k ==> target > points[j].0
    ensures Scan(target, points, i) == Segment(target, points[k - 1], points[k])
    decreases k - i
  {
    if i < k {
      ScanStopsAt(target, points, i + 1, k);
    }
  }

  /** With strictly increasing targets, interpolation passes through every point (clamped). */
  lemma {:induction false} PassesThroughPoints(points: seq<Point>, k: nat)
    requires StrictlyAscending(points) && k < |points|
    ensures Interpolated(points[k].0, points) == Some(Clamp(points[k].1))
  {
    var target := points[k].0;
    if |points| == 1 {
    } else if k == 0 {
      ScanStopsAt(target, points, 1, 1);
      RatioOrder(target, target, points[0], points[1]);
      BlendOrder(points[0].1, points[1].1, 0.0, 0.0);
    } else {
      ScanStopsAt(target, points, 1, k);
      RatioOrder(target, target, points[k - 1], points[k]);
      BlendOrder(points[k - 1].1, points[k].1, 1.0, 1.0);
    }
  }

  lemma RatioOrder(t1: real, t2: real, p: Point, q: Point)
    requires p.0 < q.0 && t1 <= t2
    ensures Ratio(p.0, p, q) == 0.0 && Ratio(q.0, p, q) == 1.0
    ensures Ratio(t1, p, q) <= Ratio(t2, p, q)
  {
    var width := q.0 - p.0;
    Quotient(t1 - p.0, width);
    Quotient(t2 - p.0, width);
    Quotient(width, width);
    ProductOrder(Ratio(t1, p, q), Ratio(t2, p, q), width);
    ProductOrder(width / width, 1.0, width);
    ProductOrder(1.0, width / width, width);
  }

  lemma BlendOrder(from: real, till: real, r1: real, r2: real)
    requires r1 <= r2
    ensures Blend(from, till, 0.0) == from && Blend(from, till, 1.0) == till
    ensures from <= till ==> Blend(from, till, r1) <= Blend(from, till, r2)
  {
    if from < till {
      ProductOrder(r1, r2, till - from);
      assert (till - from) * r1 == r1 * (till - from);
      assert (till - from) * r2 == r2 * (till - from);
    }
  }

  /** Along one segment with rising stops the result rises, from the first stop to the second. */
  lemma SegmentMonotone(t1: real, t2: real, p: Point, q: Point)
    requires p.0 <= q.0 && p.1 <= q.1 && t1 <= t2
    ensures Segment(t1, p, q) <= Segment(t2, p, q)
    ensures t1 <= q.0 ==> Segment(t1, p, q) <= Clamp(q.1)
    ensures t2 > p.0 ==> Segment(t2, p, q) >= Clamp(p.1)
  {
    if p.0 != q.0 {
      hide Ratio, Blend;
      RatioOrder(t1, t2, p, q);
      BlendOrder(p.1, q.1, Ratio(t1, p, q), Ratio(t2, p, q));
      if t1 <= q.0 {
        RatioOrder(t1, q.0, p, q);
        BlendOrder(p.1, q.1, Ratio(t1, p, q), 1.0);
      }
      if t2 > p.0 {
        RatioOrder(p.0, t2, p, q);
        BlendOrder(p.1, q.1, 0.0, Ratio(t2, p, q));
      }
    }
  }

  /** From point `i` on the result is at least the stop before it, if the target lies beyond. */
  lemma {:induction false} ScanAbove(target: real, points: seq<Point>, i: nat)
    requires 1 <= i <= |points| && Ascending(points) && StopsAscend(points) && target > points[i - 1].0
    ensures Scan(target, points, i) >= Clamp(points[i - 1].1)
    decreases |points| - i
  {
    hide Segment;
    if i < |points| {
      if target <= points[i].0 {
        SegmentMonotone(target, target, points[i - 1], points[i]);
      } else {
        ScanAbove(target, points, i + 1);
      }
    }
  }

  lemma {:induction false} ScanMonotone(t1: real, t2: real, points: seq<Point>, i: nat)
    requires 1 <= i <= |points| && Ascending(points) && StopsAscend(points) && t1 <= t2
    ensures Scan(t1, points, i) <= Scan(t2, points, i)
    decreases |points| - i
  {
    hide Segment;
    if i < |points| {
      SegmentMonotone(t1, t2, points[i - 1], points[i]);
      if t2 > points[i].0 {
        if t1 <= points[i].0 {
          ScanAbove(t2, points, i + 1);
        } else {
          ScanMonotone(t1, t2, points, i + 1);
        }
      }
    }
  }

  /** With targets in order and stops that never fall, a farther target never stops earlier. */
  lemma {:induction false} InterpolationMonotone(t1: real, t2: real, points: seq<Point>)
    requires points != [] && Ascending(points) && StopsAscend(points) && t1 <= t2
    ensures Interpolated(t1, points).value <= Interpolated(t2, points).value
  {
    ScanMonotone(t1, t2, points, 1);
  }

  /** Where interpolation between two neighbours ends up, on the line through them. */
  lemma SegmentIsLine(target: real, p: Point, q: Point) returns (v: real)
    requires p.0 != q.0
    ensures Segment(target, p, q) == Clamp(v)
    ensures (v - p.1) * (q.0 - p.0) == (target - p.0) * (q.1 - p.1)
  {
    var ratio, width, rise := Ratio(target, p, q), q.0 - p.0, q.1 - p.1;
    v := Blend(p.1, q.1, ratio);
    Quotient(target - p.0, width);
    Reorder(rise, ratio, width);
    assert ratio * width == target - p.0;
    assert v - p.1 == rise * ratio;
  }

  lemma Reorder(rise: real, ratio: real, width: real)
    ensures (rise * ratio) * width == (ratio * width) * rise
  {
  }

  /** The law of interpolation.  A target between two neighbours stops on the line through them; one
      before the first point on the line through the first two; one behind the last point where the
      last one does. */
  lemma {:induction false} InterpolatesLinearly(target: real, points: seq<Point>, k: nat) returns (v: real)
    requires Ascending(points) && 1 <= k < |points| && points[k - 1].0 < points[k].0
    requires target <= points[k].0 && (k == 1 || points[k - 1].0 < target)
    ensures Interpolated(target, points) == Some(Clamp(v))
    ensures (v - points[k - 1].1) * (points[k].0 - points[k - 1].0)
            == (target - points[k - 1].0) * (points[k].1 - points[k - 1].1)
  {
    hide Segment;
    ScanStopsAt(target, points, 1, k);
    v := SegmentIsLine(target, points[k - 1], points[k]);
  }

  lemma {:induction false} InterpolatesPastTheEnd(target: real, points: seq<Point>)
    requires Ascending(points) && points != [] && (|points| == 1 || target > points[|points| - 1].0)
    ensures Interpolated(target, points) == Some(Clamp(points[|points| - 1].1))
  {
    ScanPastTheEnd(target, points, 1);
  }

  lemma {:induction false} ScanPastTheEnd(target: real, points: seq<Point>, i: nat)
    requires 1 <= i <= |points| && Ascending(points) && (i < |points| ==> target > points[|points| - 1].0)
    ensures Scan(target, points, i) == Clamp(points[|points| - 1].1)
    decreases |points| - i
  {
    hide Segment;
    if i < |points| {
      assert points[i].0 <= points[|points| - 1].0;
      ScanPastTheEnd(target, points, i + 1);
    }
  }

  // ----- the calibrated stop position -----

  const OUTLIER_PERCENT: real := 15.0

  /** A stored sample; an absent number is one that is missing or not numeric. */
  datatype Sample = Sample(
    valid: bool, noValidAttempt: bool, target: Option<real>, stop: Option<real>, error: Option<real>)

  predicate Accepted(s: Sample)
  {
    && s.valid && !s.noValidAttempt
    && s.error.Some? && Abs(s.error.value) <= OUTLIER_PERCENT
    && s.target.Some? && s.stop.Some?
  }

  function AcceptedPoints(samples: seq<Sample>): seq<Point>
  {
    if samples == [] then []
    else
      var last := samples[|samples| - 1];
      AcceptedPoints(samples[..|samples| - 1]) + if Accepted(last) then [(last.target.value, last.stop.value)] else []
  }

  function TargetOf(p: Point): real { p.0 }

  /** The closed and open ends, then the accepted samples, in order of their targets. */
  function StopPoints(samples: seq<Sample>): seq<Point>
  {
    SortBy([(0.0, 0.0), (100.0, 100.0)] + AcceptedPoints(samples), TargetOf)
  }

  /** `_calibrated_stop_percent` for the samples of one direction. */
  method CalibratedStopPercent(target: real, samples: seq<Sample>) returns (stop: Option<real>)
    ensures stop.None? <==> forall i :: 0 <= i < |samples| ==> !Accepted(samples[i])
    ensures stop.Some? ==> Percent(stop.value) && stop == Interpolated(target, StopPoints(samples))
  {
    var points: seq<Point> := [(0.0, 0.0), (100.0, 100.0)];
    for i := 0 to |samples|
      invariant points == [(0.0, 0.0), (100.0, 100.0)] + AcceptedPoints(samples[..i])
      invariant |points| <= 2 <==> forall j :: 0 <= j < i ==> !Accepted(samples[j])
    {
      assert samples[..i + 1][..i] == samples[..i];
      if Accepted(samples[i]) {
        points := points + [(samples[i].target.value, samples[i].stop.value)];
      }
    }
    assert samples[..|samples|] == samples;
    if |points| <= 2 {
      return None;
    }
    SortSorts(points, TargetOf);
    stop := InterpolateStopPercent(target, SortBy(points, TargetOf));
  }

  /** The ends and the accepted samples with one target, in list order. */
  function AtTarget(samples: seq<Sample>, target: real): seq<Point>
  {
    WithKey([(0.0, 0.0), (100.0, 100.0)] + AcceptedPoints(samples), TargetOf, target)
  }

  /** The one of them that decides: the first, but the second at the least target of all. */
  function Deciding(points: seq<Point>, group: seq<Point>): Point
    requires group != []
  {
    if |group| > 1 && forall i :: 0 <= i < |points| ==> TargetOf(group[0]) <= TargetOf(points[i]) then group[1]
    else group[0]
  }

  /** Interpolating at the target of some points of an ordered list: the scan stops at the first
      of them, and behind it when that is the first of the list. */
  lemma {:induction false} ScanDecides(points: seq<Point>, lo: nat, n: nat, target: real)
    requires lo + n <= |points| && n >= 1
    requires forall i :: 0 <= i < lo ==> points[i].0 < target
    requires forall i :: lo <= i < lo + n ==> points[i].0 == target
    requires forall i :: lo + n <= i < |points| ==> points[i].0 > target
    ensures Interpolated(target, points) == Some(Clamp(points[if lo == 0 && n > 1 then 1 else lo].1))
  {
    if lo > 0 {
      ScanStopsAt(target, points, 1, lo);
      AtSecond(target, points[lo - 1], points[lo]);
    } else if |points| > 1 {
      ScanStopsAt(target, points, 1, 1);
      if n == 1 {
        AtFirst(target, points[0], points[1]);
      }
    }
  }

  lemma AtFirst(target: real, p: Point, q: Point)
    requires p.0 == target < q.0
    ensures Segment(target, p, q) == Clamp(p.1)
  {
    hide Ratio, Blend, Clamp;
    RatioOrder(target, target, p, q);
    BlendOrder(p.1, q.1, 0.0, 0.0);
  }

  lemma AtSecond(target: real, p: Point, q: Point)
    requires p.0 < target == q.0
    ensures Segment(target, p, q) == Clamp(q.1)
  {
    hide Ratio, Blend, Clamp;
    RatioOrder(target, target, p, q);
    BlendOrder(p.1, q.1, 1.0, 1.0);
  }

  /** The exact law at every target a sample or an end has: of those with that target the first
      in list order decides, or the second when no target is smaller. */
  lemma {:induction false} CalibratedStopHitsSamples(samples: seq<Sample>, target: real)
    requires AtTarget(samples, target) != []
    ensures var points := [(0.0, 0.0), (100.0, 100.0)] + AcceptedPoints(samples);
            Interpolated(target, StopPoints(samples)) == Some(Clamp(Deciding(points, AtTarget(samples, target)).1))
  {
    hide Interpolated, Clamp, SortBy, WithKey;
    var points: seq<Point> := [(0.0, 0.0), (100.0, 100.0)] + AcceptedPoints(samples);
    var sorted := StopPoints(samples);
    SortSorts(points, TargetOf);
    SortStable(points, TargetOf, target);
    var group := AtTarget(samples, target);
    var lo, hi := KeyBlock(sorted, TargetOf, target);
    BlockIsWithKey(sorted, TargetOf, target, lo, hi);
    assert group == sorted[lo..hi];
    ScanDecides(sorted, lo, |group|, target);
    LeastFirst(points, sorted, lo, target);
  }

  /** No target is smaller exactly when none stands before. */
  lemma {:induction false} LeastFirst(points: seq<Point>, sorted: seq<Point>, lo: nat, target: real)
    requires multiset(points) == multiset(sorted) && lo < |sorted|
    requires forall i :: 0 <= i < lo ==> TargetOf(sorted[i]) < target
    requires forall i :: lo <= i < |sorted| ==> TargetOf(sorted[i]) >= target
    ensures lo == 0 <==> forall i :: 0 <= i < |points| ==> target <= TargetOf(points[i])
  {
    hide TargetOf;
    if lo > 0 {
      assert sorted[0] in multiset(points);
      var i :| 0 <= i < |points| && points[i] == sorted[0];
      assert TargetOf(points[i]) < target;
    } else {
      forall i | 0 <= i < |points| ensures target <= TargetOf(points[i]) {
        assert points[i] in multiset(sorted);
      }
    }
  }

  /** No earlier sample with the same target was accepted. */
  predicate FirstAccepted(samples: seq<Sample>, i: nat)
    requires i < |samples|
  {
    Accepted(samples[i])
    && forall j :: 0 <= j < i && Accepted(samples[j]) ==> samples[j].target != samples[i].target
  }

  lemma {:induction false} FirstWithTarget(samples: seq<Sample>, i: nat)
    requires i < |samples| && FirstAccepted(samples, i)
    ensures var group := WithKey(AcceptedPoints(samples), TargetOf, samples[i].target.value);
            group != [] && group[0] == (samples[i].target.value, samples[i].stop.value)
  {
    var front, last := samples[..|samples| - 1], samples[|samples| - 1];
    var target := samples[i].target.value;
    var tail: seq<Point> := if Accepted(last) then [(last.target.value, last.stop.value)] else [];
    WithKeyAppend(AcceptedPoints(front), tail, TargetOf, target);
    if i < |front| {
      FirstWithTarget(front, i);
    } else {
      NoneWithTarget(front, target);
      assert tail[..0] == [];
    }
  }

  lemma {:induction false} NoneWithTarget(samples: seq<Sample>, target: real)
    requires forall j :: 0 <= j < |samples| && Accepted(samples[j]) ==> samples[j].target != Some(target)
    ensures WithKey(AcceptedPoints(samples), TargetOf, target) == []
  {
    if samples != [] {
      var front, last := samples[..|samples| - 1], samples[|samples| - 1];
      var tail: seq<Point> := if Accepted(last) then [(last.target.value, last.stop.value)] else [];
      WithKeyAppend(AcceptedPoints(front), tail, TargetOf, target);
      NoneWithTarget(front, target);
      if tail != [] {
        assert tail[..0] == [];
      }
    }
  }

  lemma EndsWithTarget(samples: seq<Sample>, target: real)
    ensures var ends: seq<Point> := [(0.0, 0.0), (100.0, 100.0)];
            && WithKey(ends, TargetOf, target)
               == (if target == 0.0 then [(0.0, 0.0)] else if target == 100.0 then [(100.0, 100.0)] else [])
            && AtTarget(samples, target)
               == WithKey(ends, TargetOf, target) + WithKey(AcceptedPoints(samples), TargetOf, target)
  {
    hide WithKey;
    var closed: Point, open: Point := (0.0, 0.0), (100.0, 100.0);
    var ends: seq<Point> := [closed, open];
    WithKeyOne(closed, TargetOf, target);
    WithKeyOne(open, TargetOf, target);
    WithKeyAppend([closed], [open], TargetOf, target);
    assert [closed] + [open] == ends;
    WithKeyAppend(ends, AcceptedPoints(samples), TargetOf, target);
  }

  /** So the first accepted sample of a target above 0 decides the stop, except at 100, where the
      open end does; and at 0 the first one decides instead of the closed end, if no accepted
      sample has a negative target. */
  lemma {:induction false} CalibratedStopOfSample(samples: seq<Sample>, i: nat)
    requires i < |samples| && FirstAccepted(samples, i)
    ensures var target, stop := samples[i].target.value, Some(Clamp(samples[i].stop.value));
            && (target > 0.0 && target != 100.0 ==> Interpolated(target, StopPoints(samples)) == stop)
            && (target == 100.0 ==> Interpolated(target, StopPoints(samples)) == Some(100.0))
            && (target == 0.0 ==>
                  Interpolated(target, StopPoints(samples))
                  == if forall j :: 0 <= j < |samples| && Accepted(samples[j]) ==> samples[j].target.value >= 0.0
                     then stop else Some(0.0))
  {
    hide Interpolated, StopPoints, WithKey;
    var target := samples[i].target.value;
    var points: seq<Point> := [(0.0, 0.0), (100.0, 100.0)] + AcceptedPoints(samples);
    FirstWithTarget(samples, i);
    EndsWithTarget(samples, target);
    CalibratedStopHitsSamples(samples, target);
    var group := AtTarget(samples, target);
    var own := WithKey(AcceptedPoints(samples), TargetOf, target);
    assert points[0] == (0.0, 0.0);
    if target == 0.0 {
      assert group == [(0.0, 0.0)] + own && group[1] == own[0];
      PointsBelow(samples);
      assert forall k :: 0 <= k < |AcceptedPoints(samples)| ==> points[k + 2] == AcceptedPoints(samples)[k];
      assert forall k :: 2 <= k < |points| ==> points[k] == AcceptedPoints(samples)[k - 2];
    }
  }

  /** The points with negative targets are the accepted samples with negative targets. */
  lemma {:induction false} PointsBelow(samples: seq<Sample>)
    ensures (forall j :: 0 <= j < |samples| && Accepted(samples[j]) ==> samples[j].target.value >= 0.0)
            <==> forall k :: 0 <= k < |AcceptedPoints(samples)| ==> TargetOf(AcceptedPoints(samples)[k]) >= 0.0
  {
    if samples != [] {
      var front, last := samples[..|samples| - 1], samples[|samples| - 1];
      PointsBelow(front);
      var points := AcceptedPoints(samples);
      assert forall k :: 0 <= k < |AcceptedPoints(front)| ==> points[k] == AcceptedPoints(front)[k];
      if Accepted(last) {
        assert points[|points| - 1] == (last.target.value, last.stop.value);
      }
    }
  }

  // ----- travel speed -----

  /** A legacy sample of a timed movement, with the numbers it holds. */
  datatype Movement = Movement(usable: bool, start: Option<real>, final: Option<real>, durationMs: Option<real>)

  function SpeedOf(m: Movement): Option<real>
  {
    if m.usable && m.start.Some? && m.final.Some? && m.durationMs.Some? && m.durationMs.value > 0.0
       && m.start.value != m.final.value
    then Some(Abs(m.final.value - m.start.value) / (m.durationMs.value / 1000.0))
    else None
  }

  function Speeds(movements: seq<Movement>): seq<real>
  {
    if movements == [] then []
    else
      var speed := SpeedOf(movements[|movements| - 1]);
      Speeds(movements[..|movements| - 1]) + if speed.Some? && speed.value > 0.0 then [speed.value] else []
  }

  function Sum(s: seq<real>): real { if s == [] then 0.0 else Sum(s[..|s| - 1]) + s[|s| - 1] }

  lemma {:induction false} SpeedsPositive(movements: seq<Movement>)
    ensures var s := Speeds(movements);
            (forall i :: 0 <= i < |s| ==> s[i] > 0.0) && (s != [] ==> Sum(s) > 0.0)
  {
    if movements != [] {
      SpeedsPositive(movements[..|movements| - 1]);
      var front := Speeds(movements[..|movements| - 1]);
      var s := Speeds(movements);
      assert s != front ==> s[..|s| - 1] == front;
    }
  }

  /** `_calibrated_travel_speed_percent_per_second`: the measured speed, else the average of the
      sampled ones.  It is never zero or negative, so a planned delay is always finite. */
  function TravelSpeed(measured: Option<real>, movements: seq<Movement>): (speed: Option<real>)
    ensures speed.Some? ==> speed.value > 0.0
    ensures speed.None? <==> (measured.None? || measured.value <= 0.0) && Speeds(movements) == []
  {
    if measured.Some? && measured.value > 0.0 then measured
    else
      var speeds := Speeds(movements);
      if speeds == [] then None
      else
        SpeedsPositive(movements);
        QuotientPositive(Sum(speeds), |speeds| as real);
        Some(Sum(speeds) / |speeds| as real)
  }

  /** A sampled movement counts as its distance over its time in seconds. */
  predicate MovedAt(m: Movement, speed: real)
  {
    && m.usable && m.start.Some? && m.final.Some? && m.durationMs.Some?
    && m.durationMs.value > 0.0 && m.start.value != m.final.value
    && speed * m.durationMs.value == 1000.0 * (if m.final.value > m.start.value then m.final.value - m.start.value
                                               else m.start.value - m.final.value)
  }

  lemma SpeedMeans(m: Movement)
    ensures SpeedOf(m).Some? <==> m.usable && m.start.Some? && m.final.Some? && m.durationMs.Some?
                                  && m.durationMs.value > 0.0 && m.start.value != m.final.value
    ensures SpeedOf(m).Some? ==> SpeedOf(m).value > 0.0 && MovedAt(m, SpeedOf(m).value)
  {
    if SpeedOf(m).Some? {
      var way, time := Abs(m.final.value - m.start.value), m.durationMs.value;
      Quotient(way, time / 1000.0);
      QuotientPositive(way, time / 1000.0);
      Thousand(way / (time / 1000.0), time);
    }
  }

  lemma Thousand(speed: real, time: real)
    ensures speed * (time / 1000.0) * 1000.0 == speed * time
  {
  }

  /** The speeds averaged are those of all usable movements, in order. */
  lemma {:induction false} SpeedsAll(movements: seq<Movement>) returns (kept: seq<nat>)
    ensures |kept| == |Speeds(movements)|
    ensures forall i :: 0 <= i < |kept| ==> kept[i] < |movements| && MovedAt(movements[kept[i]], Speeds(movements)[i])
    ensures forall i, j :: 0 <= i < j < |kept| ==> kept[i] < kept[j]
    ensures forall n: nat :: n in kept <==> n < |movements| && SpeedOf(movements[n]).Some?
  {
    hide SpeedOf, MovedAt, Speeds;
    kept := [];
    SpeedsGrow(movements);
    if movements != [] {
      var front, last := movements[..|movements| - 1], movements[|movements| - 1];
      kept := SpeedsAll(front);
      assert forall n :: 0 <= n < |front| ==> movements[n] == front[n];
      if SpeedOf(last).Some? {
        kept := kept + [|front|];
      }
    }
  }

  lemma SpeedsGrow(movements: seq<Movement>)
    ensures movements == [] ==> Speeds(movements) == []
    ensures movements != [] ==>
              var front, last := movements[..|movements| - 1], movements[|movements| - 1];
              && (SpeedOf(last).None? ==> Speeds(movements) == Speeds(front))
              && (SpeedOf(last).Some? ==> Speeds(movements) == Speeds(front) + [SpeedOf(last).value]
                                          && MovedAt(last, SpeedOf(last).value))
  {
    if movements != [] {
      hide SpeedOf, MovedAt;
      SpeedMeans(movements[|movements| - 1]);
    }
  }

  lemma SumAdds(s: seq<real>, x: real)
    ensures Sum([]) == 0.0 && Sum(s + [x]) == Sum(s) + x
  {
    assert (s + [x])[..|s|] == s;
  }

  /** The calibrated speed is the measured one, else the average: as many times it as there are
      speeds is their sum. */
  lemma TravelSpeedAverages(measured: Option<real>, movements: seq<Movement>)
    ensures var speed := TravelSpeed(measured, movements);
            if measured.Some? && measured.value > 0.0 then speed == measured
            else speed.Some? ==> speed.value * |Speeds(movements)| as real == Sum(Speeds(movements))
  {
    hide Speeds, Sum;
    if !(measured.Some? && measured.value > 0.0) && Speeds(movements) != [] {
      Quotient(Sum(Speeds(movements)), |Speeds(movements)| as real);
    }
  }
}

/** Calibration samples (custom_components/nice_bidiwifi/calibration_estimator.py): selection of
    the attempt to store, medians of timed travels, and interpolation of stop percentages. */
module Estimator {
  import opened Prelude
  import opened Sorting

  // ----- attempts -----

  /** `error` is None when `error_percent` is missing or not a number. */
  datatype Attempt = Attempt(id: Option<int>, valid: bool, error: Option<real>)

  function AbsError(a: Attempt): (e: real)
    ensures e >= 0.0
  {
    if !a.valid || a.error.None? then 1000.0 else Abs(a.error.value)
  }

  /** The error of a valid attempt counts without its sign; an attempt without one counts as 1000. */
  lemma AbsErrorMeans(a: Attempt)
    ensures a.valid && a.error.Some? ==> AbsError(a) == if a.error.value > 0.0 then a.error.value else -a.error.value
    ensures !a.valid || a.error.None? ==> AbsError(a) == 1000.0
  {
  }

  predicate Successful(a: Attempt, tolerance: real)
  {
    a.valid && AbsError(a) <= tolerance
  }

  function SuccessCount(attempts: seq<Attempt>, tolerance: real): nat
  {
    if attempts == [] then 0
    else SuccessCount(attempts[..|attempts| - 1], tolerance)
         + if Successful(attempts[|attempts| - 1], tolerance) then 1 else 0
  }

  /** All attempts of the window of length `k` at `start` are successful. */
  predicate StableAt(attempts: seq<Attempt>, tolerance: real, k: nat, start: nat)
  {
    start + k <= |attempts| && forall i :: start <= i < start + k ==> Successful(attempts[i], tolerance)
  }

  ghost predicate Stable(attempts: seq<Attempt>, tolerance: real, k: nat)
  {
    exists start: nat :: StableAt(attempts, tolerance, k, start)
  }

  lemma {:induction false} CountIsAll(window: seq<Attempt>, tolerance: real)
    ensures SuccessCount(window, tolerance) <= |window|
    ensures SuccessCount(window, tolerance) == |window|
            <==> forall i :: 0 <= i < |window| ==> Successful(window[i], tolerance)
  {
    if window != [] {
      CountIsAll(window[..|window| - 1], tolerance);
    }
  }

  lemma {:induction false} WindowCount(attempts: seq<Attempt>, tolerance: real, k: nat, start: nat)
    requires start + k <= |attempts|
    ensures SuccessCount(attempts[start..start + k], tolerance) == k <==> StableAt(attempts, tolerance, k, start)
  {
    var window := attempts[start..start + k];
    CountIsAll(window, tolerance);
    if SuccessCount(window, tolerance) == k {
      forall i | start <= i < start + k ensures Successful(attempts[i], tolerance) {
        assert attempts[i] == window[i - start];
      }
    }
  }

  /** `calibration_attempts_stable`. */
  method AttemptsStable(attempts: seq<Attempt>, tolerance: real, k: nat) returns (stable: bool)
    ensures stable <==> Stable(attempts, tolerance, k)
  {
    if |attempts| < k {
      return false;
    }
    for start := 0 to |attempts| - k + 1
      invariant forall s :: 0 <= s < start ==> !StableAt(attempts, tolerance, k, s)
    {
      WindowCount(attempts, tolerance, k, start);
      if SuccessCount(attempts[start..start + k], tolerance) == k {
        return true;
      }
    }
    return false;
  }

  function ErrorSum(attempts: seq<Attempt>): (sum: real)
    ensures sum >= 0.0
  {
    if attempts == [] then 0.0 else ErrorSum(attempts[..|attempts| - 1]) + AbsError(attempts[|attempts| - 1])
  }

  function AverageError(attempts: seq<Attempt>, k: nat, start: nat): real
    requires 0 < k && start + k <= |attempts|
  {
    ErrorSum(attempts[start..start + k]) / k as real
  }

  /** The average of a window: `k` times it is the sum of the errors in it. */
  lemma {:induction false} AverageTimesLength(attempts: seq<Attempt>, k: nat, start: nat)
    requires 0 < k && start + k <= |attempts|
    ensures AverageError(attempts, k, start) * k as real == ErrorSum(attempts[start..start + k])
    ensures ErrorSum(attempts[start..start + k])
            == ErrorSum(attempts[start..start + k - 1]) + AbsError(attempts[start + k - 1])
    ensures ErrorSum([]) == 0.0
  {
    Quotient(ErrorSum(attempts[start..start + k]), k as real);
    assert attempts[start..start + k][..k - 1] == attempts[start..start + k - 1];
  }

  /** The groups of attempts the selection looks at. */
  datatype Group =
    Window(k: nat, start: nat) | NonOutliers(limit: real) | Outliers(limit: real) | ValidOnes | InvalidOnes

  predicate Member(attempts: seq<Attempt>, group: Group, i: nat)
    requires i < |attempts|
  {
    match group
    case Window(k, start) => start <= i < start + k
    case NonOutliers(limit) => attempts[i].valid && AbsError(attempts[i]) <= limit
    case Outliers(limit) => attempts[i].valid && AbsError(attempts[i]) > limit
    case ValidOnes => attempts[i].valid
    case InvalidOnes => !attempts[i].valid
  }

  predicate Nobody(attempts: seq<Attempt>, group: Group)
  {
    forall i :: 0 <= i < |attempts| ==> !Member(attempts, group, i)
  }

  /** The first attempt of least error in a group. */
  predicate LeastIn(attempts: seq<Attempt>, group: Group, best: nat)
  {
    && best < |attempts| && Member(attempts, group, best)
    && (forall i :: 0 <= i < |attempts| && Member(attempts, group, i) ==>
          AbsError(attempts[best]) <= AbsError(attempts[i]))
    && (forall i :: 0 <= i < best && Member(attempts, group, i) ==> AbsError(attempts[best]) < AbsError(attempts[i]))
  }

  /** The stable window of least average error, the latest one on ties. */
  ghost predicate BestWindow(attempts: seq<Attempt>, tolerance: real, k: nat, best: nat)
    requires k > 0
  {
    && StableAt(attempts, tolerance, k, best)
    && forall s: nat :: StableAt(attempts, tolerance, k, s) ==>
         || AverageError(attempts, k, best) < AverageError(attempts, k, s)
         || (AverageError(attempts, k, best) == AverageError(attempts, k, s) && s <= best)
  }

  datatype Strategy = StableWindow(start: nat) | BestNonOutlier | BestAttempt | NoValidAttempt

  /** The selected attempt by position, why it was selected, and the numbers reported with it. */
  datatype Selection = Selection(
    sample: nat, strategy: Strategy, selectedAttempts: seq<Option<int>>,
    windowAverage: Option<real>, absError: Option<real>,
    ignoredOutliers: seq<int>, ignoredInvalid: seq<int>)

  datatype Choice = Selected(selection: Selection) | NoAttempts | DivisionByZero

  function Ids(attempts: seq<Attempt>): seq<Option<int>>
  {
    seq(|attempts|, i requires 0 <= i < |attempts| => attempts[i].id)
  }

  /** The numbers of the first `n` attempts that belong to a group and have one. */
  function Numbers(attempts: seq<Attempt>, group: Group, n: nat): seq<int>
    requires n <= |attempts|
  {
    if n == 0 then []
    else Numbers(attempts, group, n - 1)
         + if Member(attempts, group, n - 1) && attempts[n - 1].id.Some? then [attempts[n - 1].id.value] else []
  }

  /** What `select_calibration_sample` promises, branch by branch. */
  ghost predicate SelectionOk(attempts: seq<Attempt>, tolerance: real, k: nat, outlier: real, r: Selection)
    requires k > 0
  {
    && r.sample < |attempts|
    && r.ignoredOutliers == Numbers(attempts, Outliers(outlier), |attempts|)
    && r.ignoredInvalid == Numbers(attempts, InvalidOnes, |attempts|)
    && (r.strategy.StableWindow? <==> Stable(attempts, tolerance, k))
    && match r.strategy
       case StableWindow(start) =>
         && BestWindow(attempts, tolerance, k, start)
         && LeastIn(attempts, Window(k, start), r.sample)
         && r.selectedAttempts == Ids(attempts[start..start + k])
         && r.windowAverage == Some(Round2(AverageError(attempts, k, start)))
         && r.absError == Some(Round2(AbsError(attempts[r.sample])))
       case BestNonOutlier =>
         && LeastIn(attempts, NonOutliers(outlier), r.sample)
         && PlainReport(attempts, r)
       case BestAttempt =>
         && Nobody(attempts, NonOutliers(outlier))
         && LeastIn(attempts, ValidOnes, r.sample)
         && PlainReport(attempts, r)
       case NoValidAttempt =>
         && Nobody(attempts, ValidOnes)
         && r.sample == |attempts| - 1
         && r.selectedAttempts == [] && r.windowAverage.None? && r.absError.None?
  }

  ghost predicate PlainReport(attempts: seq<Attempt>, r: Selection)
    requires r.sample < |attempts|
  {
    && r.selectedAttempts == [attempts[r.sample].id]
    && r.windowAverage.None?
    && r.absError == Some(Round2(AbsError(attempts[r.sample])))
  }

  /** Python's `min` over the attempts of a group. */
  method LeastError(attempts: seq<Attempt>, group: Group) returns (best: Option<nat>)
    ensures best.Some? ==> LeastIn(attempts, group, best.value)
    ensures best.None? <==> Nobody(attempts, group)
  {
    best := None;
    for i := 0 to |attempts|
      invariant best.None? ==> forall j :: 0 <= j < i ==> !Member(attempts, group, j)
      invariant best.Some? ==> best.value < i && Member(attempts, group, best.value)
      invariant best.Some? ==>
                  forall j :: 0 <= j < i && Member(attempts, group, j) ==>
                    AbsError(attempts[best.value]) <= AbsError(attempts[j])
      invariant best.Some? ==>
                  forall j :: 0 <= j < best.value && Member(attempts, group, j) ==>
                    AbsError(attempts[best.value]) < AbsError(attempts[j])
    {
      if Member(attempts, group, i) && (best.None? || AbsError(attempts[i]) < AbsError(attempts[best.value])) {
        best := Some(i);
      }
    }
  }

  /** The loop that collects stable windows, with the `min` over them folded in. */
  method FindBestWindow(attempts: seq<Attempt>, tolerance: real, k: nat) returns (best: Option<nat>)
    requires k > 0
    ensures best.Some? ==> BestWindow(attempts, tolerance, k, best.value)
    ensures best.None? <==> !Stable(attempts, tolerance, k)
  {
    hide SuccessCount, AverageError;
    best := None;
    var starts := if |attempts| < k then 0 else |attempts| - k + 1;
    for start := 0 to starts
      invariant best.None? ==> forall s :: 0 <= s < start ==> !StableAt(attempts, tolerance, k, s)
      invariant best.Some? ==> best.value < start && StableAt(attempts, tolerance, k, best.value)
      invariant best.Some? ==>
                  forall s :: 0 <= s < start && StableAt(attempts, tolerance, k, s) ==>
                    || AverageError(attempts, k, best.value) < AverageError(attempts, k, s)
                    || (AverageError(attempts, k, best.value) == AverageError(attempts, k, s) && s <= best.value)
    {
      WindowCount(attempts, tolerance, k, start);
      if SuccessCount(attempts[start..start + k], tolerance) == k {
        if best.None? || AverageError(attempts, k, start) <= AverageError(attempts, k, best.value) {
          best := Some(start);
        }
      }
    }
  }

  /** `select_calibration_sample`. */
  method SelectSample(attempts: seq<Attempt>, tolerance: real, k: nat, outlier: real) returns (choice: Choice)
    ensures choice.NoAttempts? <==> attempts == []
    ensures choice.DivisionByZero? <==> attempts != [] && k == 0
    ensures choice.Selected? ==> SelectionOk(attempts, tolerance, k, outlier, choice.selection)
  {
    if attempts == [] {
      return NoAttempts;
    }
    if k == 0 {
      return DivisionByZero;
    }
    var outliers := Numbers(attempts, Outliers(outlier), |attempts|);
    var invalid := Numbers(attempts, InvalidOnes, |attempts|);
    var window := FindBestWindow(attempts, tolerance, k);
    if window.Some? {
      var start := window.value;
      var inWindow := LeastError(attempts, Window(k, start));
      assert Member(attempts, Window(k, start), start);
      var sample := inWindow.value;
      return Selected(Selection(sample, StableWindow(start), Ids(attempts[start..start + k]),
                                Some(Round2(AverageError(attempts, k, start))),
                                Some(Round2(AbsError(attempts[sample]))), outliers, invalid));
    }
    var best := LeastError(attempts, NonOutliers(outlier));
    var strategy := BestNonOutlier;
    if best.None? {
      best := LeastError(attempts, ValidOnes);
      strategy := BestAttempt;
    }
    if best.None? {
      return Selected(Selection(|attempts| - 1, NoValidAttempt, [], None, None, outliers, invalid));
    }
    return Selected(Selection(best.value, strategy, [attempts[best.value].id], None,
                              Some(Round2(AbsError(attempts[best.value]))), outliers, invalid));
  }

  /** The promise leaves no freedom: two selections that keep it are the same. */
  lemma SelectionUnique(attempts: seq<Attempt>, tolerance: real, k: nat, outlier: real, r1: Selection, r2: Selection)
    requires k > 0
    requires SelectionOk(attempts, tolerance, k, outlier, r1) && SelectionOk(attempts, tolerance, k, outlier, r2)
    ensures r1 == r2
  {
    hide AverageError, Numbers, Round2;
    StrategyUnique(attempts, tolerance, k, outlier, r1, r2);
    match r1.strategy
    case StableWindow(start) => LeastUnique(attempts, Window(k, start), r1.sample, r2.sample);
    case BestNonOutlier => LeastUnique(attempts, NonOutliers(outlier), r1.sample, r2.sample);
    case BestAttempt => LeastUnique(attempts, ValidOnes, r1.sample, r2.sample);
    case NoValidAttempt =>
  }

  lemma StrategyUnique(attempts: seq<Attempt>, tolerance: real, k: nat, outlier: real, r1: Selection, r2: Selection)
    requires k > 0
    requires SelectionOk(attempts, tolerance, k, outlier, r1) && SelectionOk(attempts, tolerance, k, outlier, r2)
    ensures r1.strategy == r2.strategy
  {
    hide AverageError, Numbers, Round2, AbsError, StableAt;
    NonOutlierIsValid(attempts, outlier, r1.sample);
    NonOutlierIsValid(attempts, outlier, r2.sample);
  }

  lemma NonOutlierIsValid(attempts: seq<Attempt>, outlier: real, i: nat)
    requires i < |attempts|
    ensures Member(attempts, NonOutliers(outlier), i) ==> Member(attempts, ValidOnes, i)
  {
  }

  lemma LeastUnique(attempts: seq<Attempt>, group: Group, a: nat, b: nat)
    requires LeastIn(attempts, group, a) && LeastIn(attempts, group, b)
    ensures a == b
  {
  }

  lemma SameWindow(attempts: seq<Attempt>, more: seq<Attempt>, k: nat, start: nat)
    requires 0 < k && start + k <= |attempts|
    ensures AverageError(attempts + more, k, start) == AverageError(attempts, k, start)
  {
    assert (attempts + more)[start..start + k] == attempts[start..start + k];
  }

  /** One more attempt keeps stability and never raises the average of the chosen window. */
  lemma AppendNeverHurts(attempts: seq<Attempt>, one: Attempt, tolerance: real, k: nat, before: nat, after: nat)
    requires k > 0 && BestWindow(attempts, tolerance, k, before)
    requires BestWindow(attempts + [one], tolerance, k, after)
    ensures Stable(attempts + [one], tolerance, k)
    ensures AverageError(attempts + [one], k, after) <= AverageError(attempts, k, before)
  {
    SameWindow(attempts, [one], k, before);
    assert StableAt(attempts + [one], tolerance, k, before) by {
      forall i | before <= i < before + k ensures Successful((attempts + [one])[i], tolerance) {
        assert (attempts + [one])[i] == attempts[i];
      }
    }
  }

  lemma AppendKeepsStable(attempts: seq<Attempt>, one: Attempt, tolerance: real, k: nat)
    requires Stable(attempts, tolerance, k)
    ensures Stable(attempts + [one], tolerance, k)
  {
    var start: nat :| StableAt(attempts, tolerance, k, start);
    assert StableAt(attempts + [one], tolerance, k, start) by {
      forall i | start <= i < start + k ensures Successful((attempts + [one])[i], tolerance) {
        assert (attempts + [one])[i] == attempts[i];
      }
    }
  }

  // ----- the promise in plain terms -----

  /** A valid attempt whose error, without its sign, is at most `limit`. */
  predicate Within(a: Attempt, limit: real)
  {
    a.valid && (if a.error.Some? then -limit <= a.error.value <= limit else 1000.0 <= limit)
  }

  /** Stability: some `k` attempts in a row are all within the tolerance. */
  lemma StableMeans(attempts: seq<Attempt>, tolerance: real, k: nat)
    ensures Stable(attempts, tolerance, k)
            <==> exists start: nat :: Row(attempts, tolerance, k, start)
  {
    if Stable(attempts, tolerance, k) {
      var start: nat :| StableAt(attempts, tolerance, k, start);
      assert Row(attempts, tolerance, k, start);
    }
    if exists start: nat :: Row(attempts, tolerance, k, start) {
      var start: nat :| Row(attempts, tolerance, k, start);
      assert StableAt(attempts, tolerance, k, start);
    }
  }

  predicate Row(attempts: seq<Attempt>, tolerance: real, k: nat, start: nat)
  {
    start + k <= |attempts| && forall i :: start <= i < start + k ==> Within(attempts[i], tolerance)
  }

  /** What was selected, and why: from a stable window the least error in it; otherwise the least
      error of the attempts that are no outliers; if all are, of the valid ones; if there are none of
      those either, the last attempt. */
  lemma SelectionMeans(attempts: seq<Attempt>, tolerance: real, k: nat, outlier: real, r: Selection)
    requires k > 0 && SelectionOk(attempts, tolerance, k, outlier, r)
    ensures match r.strategy
            case StableWindow(start) =>
              && Row(attempts, tolerance, k, start) && start <= r.sample < start + k
              && (forall i :: start <= i < start + k ==> AbsError(attempts[r.sample]) <= AbsError(attempts[i]))
              && (forall i :: start <= i < r.sample ==> AbsError(attempts[r.sample]) < AbsError(attempts[i]))
            case BestNonOutlier =>
              && Within(attempts[r.sample], outlier)
              && forall i :: 0 <= i < |attempts| && Within(attempts[i], outlier) ==>
                   AbsError(attempts[r.sample]) <= AbsError(attempts[i])
            case BestAttempt =>
              && attempts[r.sample].valid
              && forall i :: 0 <= i < |attempts| && attempts[i].valid ==>
                   !Within(attempts[i], outlier) && AbsError(attempts[r.sample]) <= AbsError(attempts[i])
            case NoValidAttempt => r.sample == |attempts| - 1 && forall i :: 0 <= i < |attempts| ==> !attempts[i].valid
  {
    hide BestWindow, PlainReport, Numbers, Round2;
    forall i | 0 <= i < |attempts|
      ensures Member(attempts, NonOutliers(outlier), i) <==> Within(attempts[i], outlier)
      ensures Member(attempts, ValidOnes, i) <==> attempts[i].valid
    {
    }
    if r.strategy.StableWindow? {
      WindowMeans(attempts, tolerance, k, r.strategy.start, r.sample);
    }
  }

  lemma WindowMeans(attempts: seq<Attempt>, tolerance: real, k: nat, start: nat, best: nat)
    requires k > 0 && BestWindow(attempts, tolerance, k, start) && LeastIn(attempts, Window(k, start), best)
    ensures Row(attempts, tolerance, k, start) && start <= best < start + k
    ensures forall i :: start <= i < start + k ==> AbsError(attempts[best]) <= AbsError(attempts[i])
    ensures forall i :: start <= i < best ==> AbsError(attempts[best]) < AbsError(attempts[i])
  {
    forall i | 0 <= i < |attempts|
      ensures Member(attempts, Window(k, start), i) <==> start <= i < start + k
    {
    }
  }

  /** The numbers reported as ignored: of the valid attempts that are outliers, and of the invalid ones,
      each once and in order, as far as they have one. */
  lemma {:induction false} IgnoredAll(attempts: seq<Attempt>, limit: real, outliers: bool, n: nat)
    returns (kept: seq<nat>)
    requires n <= |attempts|
    ensures var numbers := Numbers(attempts, if outliers then Outliers(limit) else InvalidOnes, n);
            && |kept| == |numbers|
            && (forall i :: 0 <= i < |kept| ==> kept[i] < n && attempts[kept[i]].id == Some(numbers[i]))
    ensures forall i, j :: 0 <= i < j < |kept| ==> kept[i] < kept[j]
    ensures forall m: nat :: m in kept <==> m < n && attempts[m].id.Some? && Ignored(attempts[m], limit, outliers)
  {
    kept := [];
    if n > 0 {
      kept := IgnoredAll(attempts, limit, outliers, n - 1);
      if attempts[n - 1].id.Some? && Ignored(attempts[n - 1], limit, outliers) {
        kept := kept + [n - 1];
      }
    }
  }

  predicate Ignored(a: Attempt, limit: real, outliers: bool)
  {
    if outliers then a.valid && !Within(a, limit) else !a.valid
  }
}

/**
 The CI failure-rate control chart (ops/ci-failure-rate.py with the parameters of
 ops/bands.yaml): bucketing, the baseline/series split, sigma units and the rule
 cascade, over exact reals.
 */
module ControlChart {
  import opened Wrappers

  const SERIES_POINTS := 8
  const MIN_POINT_RUNS := 1
  const MIN_BASELINE_DAYS := 10
  const MIN_BASELINE_RUNS := 30
  const ZERO_FAILURE_FLOOR := 0.5

  /** `counted` and `failed` are membership of the conclusion in the two configured sets. */
  datatype WorkflowRun = WorkflowRun(day: int, completed: bool, counted: bool, failed: bool)

  datatype Bucket = Bucket(runs: nat, failures: nat)

  /** A day of the chart. */
  datatype Point = Point(day: int, runs: nat, failures: nat)

  // ---- bucketing ------------------------------------------------------------------------

  /** Positions, in the fetched list, of the completed runs of the window whose conclusion is one of those counted. */
  ghost function Counted(runs: seq<WorkflowRun>, first: int, last: int): set<int> {
    set i | 0 <= i < |runs| && runs[i].completed && runs[i].counted && first <= runs[i].day <= last
  }

  ghost function Failing(runs: seq<WorkflowRun>, of: set<int>): set<int> {
    set i | i in of && 0 <= i < |runs| && runs[i].failed
  }

  /** The counted runs of one day. */
  ghost function OnDay(runs: seq<WorkflowRun>, first: int, last: int, day: int): set<int> {
    set i | i in Counted(runs, first, last) && runs[i].day == day
  }

  /** How many runs these positions are, and how many of them failed. */
  ghost function Tally(runs: seq<WorkflowRun>, of: set<int>): Bucket {
    Bucket(|of|, |Failing(runs, of)|)
  }

  lemma OnDayStep(init: seq<WorkflowRun>, r: WorkflowRun, first: int, last: int, day: int)
    ensures var of, next := OnDay(init, first, last, day), OnDay(init + [r], first, last, day);
      if r.completed && r.counted && first <= r.day <= last && r.day == day
      then |init| !in of && next == of + {|init|}
      else next == of
  {
  }

  /** One more run counts for its own day only, and as a failure exactly when it failed. */
  lemma TallyStep(init: seq<WorkflowRun>, r: WorkflowRun, first: int, last: int, day: int)
    ensures var of, next := OnDay(init, first, last, day), OnDay(init + [r], first, last, day);
      Tally(init + [r], next) ==
      if r.completed && r.counted && first <= r.day <= last && r.day == day
      then Bucket(|of| + 1, |Failing(init, of)| + if r.failed then 1 else 0)
      else Tally(init, of)
  {
    OnDayStep(init, r, first, last, day);
    var of, next := OnDay(init, first, last, day), OnDay(init + [r], first, last, day);
    if next == of || !r.failed {
      assert Failing(init + [r], next) == Failing(init, of);
    } else {
      assert Failing(init + [r], next) == Failing(init, of) + {|init|};
    }
  }

  /** Exactly the days with counted runs have a bucket, which holds their number and how many of them failed. */
  ghost predicate Buckets(buckets: map<int, Bucket>, runs: seq<WorkflowRun>, first: int, last: int) {
    && (forall d :: d in buckets <==> OnDay(runs, first, last, d) != {})
    && (forall d :: d in buckets ==> buckets[d] == Tally(runs, OnDay(runs, first, last, d)))
  }

  lemma BucketsStep(
      buckets: map<int, Bucket>, init: seq<WorkflowRun>, r: WorkflowRun, first: int, last: int, next: map<int, Bucket>)
    requires Buckets(buckets, init, first, last)
    requires var b := if r.day in buckets then buckets[r.day] else Bucket(0, 0);
      next == if r.completed && r.counted && first <= r.day <= last
              then buckets[r.day := Bucket(b.runs + 1, b.failures + if r.failed then 1 else 0)] else buckets
    ensures Buckets(next, init + [r], first, last)
  {
    assert Failing(init, {}) == {};
    forall d ensures d in next <==> OnDay(init + [r], first, last, d) != {} {
      OnDayStep(init, r, first, last, d);
    }
    forall d | d in next ensures next[d] == Tally(init + [r], OnDay(init + [r], first, last, d)) {
      TallyStep(init, r, first, last, d);
    }
  }

  method FillBuckets(runs: seq<WorkflowRun>, first: int, last: int) returns (buckets: map<int, Bucket>)
    ensures Buckets(buckets, runs, first, last)
  {
    buckets := map[];
    for i := 0 to |runs|
      invariant Buckets(buckets, runs[..i], first, last)
    {
      var run := runs[i];
      ghost var before := buckets;
      assert runs[..i + 1] == runs[..i] + [run];
      if !run.completed || !run.counted || !(first <= run.day <= last) {
        BucketsStep(before, runs[..i], run, first, last, before);
        continue;
      }
      var b := if run.day in buckets then buckets[run.day] else Bucket(0, 0);
      b := b.(runs := b.runs + 1);
      if run.failed { b := b.(failures := b.failures + 1); }
      buckets := buckets[run.day := b];
      BucketsStep(before, runs[..i], run, first, last, buckets);
    }
    assert runs[..|runs|] == runs;
  }

  function PointsFrom(buckets: map<int, Bucket>, day: int, last: int): seq<Point>
    decreases last + 1 - day
  {
    if day > last then []
    else
      (if day in buckets && buckets[day].runs >= MIN_POINT_RUNS
       then [Point(day, buckets[day].runs, buckets[day].failures)] else [])
      + PointsFrom(buckets, day + 1, last)
  }

  lemma PointsStep(buckets: map<int, Bucket>, day: int, last: int, before: seq<Point>)
    requires day <= last
    ensures before + PointsFrom(buckets, day, last) ==
      (if day in buckets && buckets[day].runs >= MIN_POINT_RUNS
       then before + [Point(day, buckets[day].runs, buckets[day].failures)] else before) +
         PointsFrom(buckets, day + 1, last)
  {
  }

  /** Buckets in date order. */
  method MakePoints(buckets: map<int, Bucket>, first: int, last: int) returns (points: seq<Point>)
    ensures points == PointsFrom(buckets, first, last)
  {
    points := [];
    var day := first;
    while day <= last
      invariant first <= day && PointsFrom(buckets, first, last) == points + PointsFrom(buckets, day, last)
      decreases last + 1 - day
    {
      PointsStep(buckets, day, last, points);
      if day in buckets && !(buckets[day].runs < MIN_POINT_RUNS) {
        points := points + [Point(day, buckets[day].runs, buckets[day].failures)];
      }
      day := day + 1;
    }
  }

  /** What every chart starts from: at least one run a day, never more failures than runs, dates ascending. */
  ghost predicate ValidPoints(points: seq<Point>) {
    && (forall i :: 0 <= i < |points| ==> points[i].runs >= 1 && points[i].failures <= points[i].runs)
    && (forall i, j :: 0 <= i < j < |points| ==> points[i].day < points[j].day)
  }

  lemma BucketsAreValid(buckets: map<int, Bucket>, runs: seq<WorkflowRun>, first: int, last: int)
    requires Buckets(buckets, runs, first, last)
    ensures forall d :: d in buckets ==>
      buckets[d].failures <= buckets[d].runs && buckets[d].runs >= 1 && first <= d <= last
  {
    forall d | d in buckets
      ensures buckets[d].failures <= buckets[d].runs && buckets[d].runs >= 1 && first <= d <= last
    {
      var of := OnDay(runs, first, last, d);
      assert Failing(runs, of) <= of;
      SubsetSize(Failing(runs, of), of);
    }
  }

  lemma SubsetSize(a: set<int>, b: set<int>)
    requires a <= b
    ensures |a| <= |b|
  {
    assert b == a + (b - a);
  }

  lemma {:induction false} PointsAreValid(buckets: map<int, Bucket>, day: int, last: int)
    requires forall d :: d in buckets ==> buckets[d].failures <= buckets[d].runs
    ensures ValidPoints(PointsFrom(buckets, day, last))
    ensures forall p :: p in PointsFrom(buckets, day, last) ==> day <= p.day <= last
    decreases last + 1 - day
  {
    if day <= last { PointsAreValid(buckets, day + 1, last); }
  }

  // ---- the statistics -------------------------------------------------------------------

  function Rate(p: Point): real
    requires p.runs >= 1
  {
    p.failures as real / p.runs as real
  }

  function Series(points: seq<Point>): seq<Point> {
    if |points| <= SERIES_POINTS then points else points[|points| - SERIES_POINTS..]
  }

  function Baseline(points: seq<Point>): seq<Point> {
    points[..|points| - |Series(points)|]
  }

  function SumRuns(points: seq<Point>): nat {
    if points == [] then 0 else SumRuns(points[..|points| - 1]) + points[|points| - 1].runs
  }

  function SumFailures(points: seq<Point>): nat {
    if points == [] then 0 else SumFailures(points[..|points| - 1]) + points[|points| - 1].failures
  }

  function Centre(runs: nat, failures: nat): real
    requires runs >= 1
  {
    if failures == 0 then ZERO_FAILURE_FLOOR / runs as real else failures as real / runs as real
  }

  /** What math.sqrt is taken to be on the values it is given here. */
  ghost predicate IsSqrt(sqrt: real -> real) {
    forall x: real :: x > 0.0 ==> sqrt(x) > 0.0 && sqrt(x) * sqrt(x) == x
  }

  function Sigma(c: real, runs: nat, sqrt: real -> real): real
    requires runs >= 1
  {
    sqrt(c * (1.0 - c) / runs as real)
  }

  function Units(p: Point, c: real, sqrt: real -> real): real
    requires p.runs >= 1 && Sigma(c, p.runs, sqrt) != 0.0
  {
    (Rate(p) - c) / Sigma(c, p.runs, sqrt)
  }

  /** How many of the last `window` values exceed `k`. */
  function CountAbove(us: seq<real>, window: nat, k: real): nat
    decreases |us|
  {
    if us == [] || window == 0 then 0
    else CountAbove(us[..|us| - 1], window - 1, k) + if us[|us| - 1] > k then 1 else 0
  }

  datatype Rule = WE1 | WE2 | WE3 | WE4 | NoRule

  function Severity(r: Rule): nat {
    match r case WE1 => 3 case WE2 => 2 case WE3 => 1 case WE4 => 1 case NoRule => 0
  }

  predicate LastEightAbove(series: seq<Point>, c: real)
    requires forall i :: 0 <= i < |series| ==> series[i].runs >= 1
  {
    |series| >= 8 && forall i :: |series| - 8 <= i < |series| ==> Rate(series[i]) > c
  }

  function Cascade(us: seq<real>, series: seq<Point>, c: real): Rule
    requires us != [] && forall i :: 0 <= i < |series| ==> series[i].runs >= 1
  {
    var latest := us[|us| - 1];
    if latest > 3.0 then WE1
    else if latest > 2.0 && CountAbove(us, 3, 2.0) >= 2 then WE2
    else if latest > 1.0 && CountAbove(us, 5, 1.0) >= 4 then WE3
    else if LastEightAbove(series, c) then WE4
    else NoRule
  }

  ghost function AllUnits(series: seq<Point>, c: real, sqrt: real -> real): seq<real>
    requires IsSqrt(sqrt) && 0.0 < c < 1.0 && ValidPoints(series)
  {
    seq(|series|, i requires 0 <= i < |series| => SigmaPositive(c, series[i].runs, sqrt); Units(series[i], c, sqrt))
  }

  lemma SigmaPositive(c: real, runs: nat, sqrt: real -> real)
    requires IsSqrt(sqrt) && 0.0 < c < 1.0 && runs >= 1
    ensures Sigma(c, runs, sqrt) > 0.0
    ensures Sigma(c, runs, sqrt) * Sigma(c, runs, sqrt) * runs as real == c * (1.0 - c)
  {
    var v := c * (1.0 - c);
    assert v > 0.0;
    assert v / runs as real > 0.0;
  }

  lemma SigmaZero(runs: nat, sqrt: real -> real)
    requires runs >= 1 && sqrt(0.0) == 0.0
    ensures Sigma(1.0, runs, sqrt) == 0.0
  {
    assert 1.0 * (1.0 - 1.0) / runs as real == 0.0;
  }

  // ---- the square-root-free test --------------------------------------------------------------

  /** The exact comparison: no square root, no division by sigma. */
  predicate Exceeds(p: Point, c: real, k: real)
    requires p.runs >= 1
  {
    Rate(p) > c && p.runs as real * ((Rate(p) - c) * (Rate(p) - c)) > k * k * (c * (1.0 - c))
  }

  lemma Squares(x: real, y: real)
    requires x > 0.0 && y > 0.0
    ensures x > y <==> x * x > y * y
  {
    if x > y {
      assert x * x > x * y > y * y;
    } else {
      assert x * x <= x * y <= y * y;
    }
  }

  lemma QuotientAbove(d: real, s: real, k: real)
    requires s > 0.0
    ensures d / s > k <==> d > k * s
  {
    var q := d / s;
    assert d == q * s;
    if q > k { assert q * s > k * s; } else { assert q * s <= k * s; }
  }

  lemma Scaled(n: real, x: real, y: real)
    requires n > 0.0
    ensures x > y <==> n * x > n * y
  {
    if x > y { assert n * x > n * y; } else { assert n * x <= n * y; }
  }

  lemma SquaredTest(d: real, s: real, n: real, k: real, v: real)
    requires d > 0.0 && s > 0.0 && n > 0.0 && k > 0.0 && s * s * n == v
    ensures d > k * s <==> n * (d * d) > k * k * v
  {
    assert k * s > 0.0;
    Squares(d, k * s);
    Scaled(n, d * d, (k * s) * (k * s));
    assert n * ((k * s) * (k * s)) == k * k * (s * s * n);
  }

  lemma RealTest(d: real, s: real, n: real, k: real, v: real)
    requires s > 0.0 && n > 0.0 && k > 0.0 && s * s * n == v
    ensures d / s > k <==> d > 0.0 && n * (d * d) > k * k * v
  {
    QuotientAbove(d, s, k);
    assert k * s > 0.0;
    if d > 0.0 { SquaredTest(d, s, n, k, v); }
  }

  /** Each `sigma_units > k` test is the exact one. */
  lemma UnitsTest(p: Point, c: real, k: real, sqrt: real -> real)
    requires IsSqrt(sqrt) && 0.0 < c < 1.0 && p.runs >= 1 && k > 0.0
    ensures Sigma(c, p.runs, sqrt) > 0.0
    ensures Units(p, c, sqrt) > k <==> Exceeds(p, c, k)
  {
    SigmaPositive(c, p.runs, sqrt);
    var d, s, n, v := Rate(p) - c, Sigma(c, p.runs, sqrt), p.runs as real, c * (1.0 - c);
    assert Units(p, c, sqrt) > k <==> d > 0.0 && n * (d * d) > k * k * v by { RealTest(d, s, n, k, v); }
  }

  function CountExceeding(series: seq<Point>, window: nat, c: real, k: real): nat
    requires forall i :: 0 <= i < |series| ==> series[i].runs >= 1
    decreases |series|
  {
    if series == [] || window == 0 then 0
    else CountExceeding(series[..|series| - 1], window - 1, c, k) + if Exceeds(series[|series| - 1], c, k) then 1 else 0
  }

  /** The cascade on the exact tests. */
  function ExactRule(series: seq<Point>, c: real): Rule
    requires series != [] && forall i :: 0 <= i < |series| ==> series[i].runs >= 1
  {
    var latest := series[|series| - 1];
    if Exceeds(latest, c, 3.0) then WE1
    else if Exceeds(latest, c, 2.0) && CountExceeding(series, 3, c, 2.0) >= 2 then WE2
    else if Exceeds(latest, c, 1.0) && CountExceeding(series, 5, c, 1.0) >= 4 then WE3
    else if LastEightAbove(series, c) then WE4
    else NoRule
  }

  /** Positions among the last `window` days that exceed `k` sigma. */
  ghost function Beyond(series: seq<Point>, window: nat, c: real, k: real): set<int>
    requires forall i :: 0 <= i < |series| ==> series[i].runs >= 1
  {
    set i | 0 <= i < |series| && |series| - window <= i && Exceeds(series[i], c, k)
  }

  lemma {:induction false} CountIsBeyond(series: seq<Point>, window: nat, c: real, k: real)
    requires forall i :: 0 <= i < |series| ==> series[i].runs >= 1
    ensures CountExceeding(series, window, c, k) == |Beyond(series, window, c, k)|
    decreases |series|
  {
    if series == [] || window == 0 {
      assert Beyond(series, window, c, k) == {};
    } else {
      var init, n := series[..|series| - 1], |series| - 1;
      CountIsBeyond(init, window - 1, c, k);
      assert Beyond(series, window, c, k) ==
        Beyond(init, window - 1, c, k) + if Exceeds(series[n], c, k) then {n} else {};
    }
  }

  /** Which rule is reported: the first that fires, each by the number of days beyond its limit. */
  lemma RuleExactly(series: seq<Point>, c: real)
    requires series != [] && forall i :: 0 <= i < |series| ==> series[i].runs >= 1
    ensures var rule, latest := ExactRule(series, c), series[|series| - 1];
      && (rule == WE1 <==> Exceeds(latest, c, 3.0))
      && (rule == WE2 <==> rule != WE1 && Exceeds(latest, c, 2.0) && |Beyond(series, 3, c, 2.0)| >= 2)
      && (rule == WE3 <==> rule !in {WE1, WE2} && Exceeds(latest, c, 1.0) && |Beyond(series, 5, c, 1.0)| >= 4)
      && (rule == WE4 <==> rule !in {WE1, WE2, WE3} && LastEightAbove(series, c))
  {
    CountIsBeyond(series, 3, c, 2.0);
    CountIsBeyond(series, 5, c, 1.0);
  }

  /** The fourth rule: eight days in a row with a larger share of failures than the centre line. */
  lemma LastEightExactly(series: seq<Point>, c: real)
    requires forall i :: 0 <= i < |series| ==> series[i].runs >= 1
    ensures LastEightAbove(series, c) <==>
      && |series| >= 8
      && forall i :: |series| - 8 <= i < |series| ==> series[i].failures as real > c * series[i].runs as real
  {
    forall i | 0 <= i < |series|
      ensures Rate(series[i]) > c <==> series[i].failures as real > c * series[i].runs as real
    {
      RateAbove(series[i], c);
    }
  }

  lemma RateAbove(p: Point, c: real)
    requires p.runs >= 1
    ensures Rate(p) > c <==> p.failures as real > c * p.runs as real
  {
    QuotientAbove(p.failures as real, p.runs as real, c);
  }

  lemma {:induction false} CountsAgree(series: seq<Point>, window: nat, c: real, k: real, sqrt: real -> real)
    requires IsSqrt(sqrt) && 0.0 < c < 1.0 && ValidPoints(series) && k > 0.0
    ensures CountAbove(AllUnits(series, c, sqrt), window, k) == CountExceeding(series, window, c, k)
    decreases |series|
  {
    if series != [] && window > 0 {
      var init := series[..|series| - 1];
      CountsAgree(init, window - 1, c, k, sqrt);
      UnitsTest(series[|series| - 1], c, k, sqrt);
      assert AllUnits(series, c, sqrt)[..|series| - 1] == AllUnits(init, c, sqrt);
    }
  }

  /** The whole cascade over sigma units fires the same rule as the cascade over exact comparisons. */
  lemma CascadeIsExact(series: seq<Point>, c: real, sqrt: real -> real)
    requires IsSqrt(sqrt) && 0.0 < c < 1.0 && ValidPoints(series) && series != []
    ensures Cascade(AllUnits(series, c, sqrt), series, c) == ExactRule(series, c)
  {
    var latest := series[|series| - 1];
    UnitsTest(latest, c, 3.0, sqrt);
    UnitsTest(latest, c, 2.0, sqrt);
    UnitsTest(latest, c, 1.0, sqrt);
    CountsAgree(series, 3, c, 2.0, sqrt);
    CountsAgree(series, 5, c, 1.0, sqrt);
  }

  // ---- more failures never look better ----------------------------------------------------------

  /** The same days and runs, with at least as many failures on each. */
  ghost predicate NoFewerFailures(a: seq<Point>, b: seq<Point>) {
    |a| == |b| && forall i :: 0 <= i < |a| ==> a[i].runs == b[i].runs && a[i].failures <= b[i].failures
  }

  lemma RateGrows(p: Point, q: Point, c: real)
    requires p.runs == q.runs >= 1 && p.failures <= q.failures
    ensures Rate(p) <= Rate(q)
    ensures forall k :: Exceeds(p, c, k) ==> Exceeds(q, c, k)
  {
    var n := p.runs as real;
    assert Rate(p) * n == p.failures as real && Rate(q) * n == q.failures as real;
    Scaled(n, Rate(p), Rate(q));
    var x, y := Rate(p) - c, Rate(q) - c;
    if x > 0.0 {
      assert y * y >= x * y >= x * x;
      assert n * (y * y) >= n * (x * x);
    }
  }

  lemma {:induction false} CountGrows(a: seq<Point>, b: seq<Point>, window: nat, c: real, k: real)
    requires NoFewerFailures(a, b) && forall i :: 0 <= i < |a| ==> a[i].runs >= 1
    ensures CountExceeding(a, window, c, k) <= CountExceeding(b, window, c, k)
    decreases |a|
  {
    if a != [] && window > 0 {
      CountGrows(a[..|a| - 1], b[..|b| - 1], window - 1, c, k);
      RateGrows(a[|a| - 1], b[|b| - 1], c);
    }
  }

  /** With runs and baseline fixed, raising failures on any series days never lowers the reported severity. */
  lemma SeverityIsMonotone(a: seq<Point>, b: seq<Point>, c: real)
    requires NoFewerFailures(a, b) && a != [] && forall i :: 0 <= i < |a| ==> a[i].runs >= 1
    ensures Severity(ExactRule(a, c)) <= Severity(ExactRule(b, c))
  {
    RateGrows(a[|a| - 1], b[|b| - 1], c);
    CountGrows(a, b, 3, c, 2.0);
    CountGrows(a, b, 5, c, 1.0);
    forall i | 0 <= i < |a| ensures Rate(a[i]) <= Rate(b[i]) { RateGrows(a[i], b[i], c); }
  }

  // ---- the script from its points on ---------------------------------------------------------------

  datatype Report = NoPoints | TooFewDays | TooFewRuns | DivisionByZero | Measured(rule: Rule)

  lemma {:induction false} FailuresAtMostRuns(points: seq<Point>)
    requires ValidPoints(points)
    ensures SumFailures(points) <= SumRuns(points)
    ensures SumFailures(points) == SumRuns(points) <==> forall i :: 0 <= i < |points| ==>
      points[i].failures == points[i].runs
  {
    if points != [] { FailuresAtMostRuns(points[..|points| - 1]); }
  }

  lemma CentreRange(runs: nat, failures: nat)
    requires runs >= MIN_BASELINE_RUNS && failures <= runs
    ensures 0.0 < Centre(runs, failures) <= 1.0 && (Centre(runs, failures) == 1.0 <==> failures == runs)
  {
    var n := runs as real;
    if failures > 0 {
      assert Centre(runs, failures) * n == failures as real;
    } else {
      assert Centre(runs, failures) * n == ZERO_FAILURE_FLOOR;
    }
  }

  /** The result the script reports, in terms of its points only. */
  function Expected(points: seq<Point>): Report
    requires forall i :: 0 <= i < |points| ==> points[i].runs >= 1
  {
    var runs, failures := SumRuns(Baseline(points)), SumFailures(Baseline(points));
    if points == [] then NoPoints
    else if |Baseline(points)| < MIN_BASELINE_DAYS then TooFewDays
    else if runs < MIN_BASELINE_RUNS then TooFewRuns
    else if failures == runs then DivisionByZero
    else Measured(ExactRule(Series(points), Centre(runs, failures)))
  }

  /** The centre line is the baseline's failure rate, or half a failure where there was none. */
  lemma CentreExactly(runs: nat, failures: nat)
    requires runs >= 1
    ensures Centre(runs, failures) * runs as real == if failures == 0 then 0.5 else failures as real
  {
  }

  /**
   The last eight days are tested against all days before them: ten days and thirty
   runs of these are needed, and one run that did not fail.
   */
  lemma ReportExactly(points: seq<Point>)
    requires ValidPoints(points)
    ensures var report, n := Expected(points), |points|;
      && (report == NoPoints <==> n == 0)
      && (report == TooFewDays <==> 0 < n < 18)
      && (n >= 18 ==>
            var before := points[..n - 8];
            var runs, failures := SumRuns(before), SumFailures(before);
            && (report == TooFewRuns <==> runs < 30)
            && (report == DivisionByZero <==> runs >= 30 && forall p :: p in before ==> p.failures == p.runs)
            && (report.Measured? ==> report.rule == ExactRule(points[n - 8..], Centre(runs, failures))))
  {
    var n := |points|;
    SplitExactly(points);
    if n >= 18 {
      var before := points[..n - 8];
      FailuresAtMostRuns(before);
      assert (forall p :: p in before ==> p.failures == p.runs) <==> SumFailures(before) == SumRuns(before);
    }
  }

  /** The series is the last eight days, or all of them; the baseline is the rest. */
  lemma SplitExactly(points: seq<Point>)
    ensures |Series(points)| == (if |points| < 8 then |points| else 8) && Baseline(points) + Series(points) == points
    ensures |points| >= 8 ==> Baseline(points) == points[..|points| - 8] && Series(points) == points[|points| - 8..]
  {
  }

  /** Severity of a report; one without a measurement alerts nobody. */
  function ReportSeverity(r: Report): nat {
    if r.Measured? then Severity(r.rule) else 0
  }

  /**
   On the reported result: with days, runs and baseline fixed, more failures on any
   series days change neither whether a rule is measured nor lower its severity.
   */
  lemma ReportIsMonotone(a: seq<Point>, b: seq<Point>)
    requires ValidPoints(a) && ValidPoints(b) && NoFewerFailures(a, b) && Baseline(a) == Baseline(b)
    ensures Expected(a).Measured? <==> Expected(b).Measured?
    ensures !Expected(a).Measured? ==> Expected(a) == Expected(b)
    ensures ReportSeverity(Expected(a)) <= ReportSeverity(Expected(b))
  {
    if Expected(a).Measured? {
      var n := |a| - |Series(a)|;
      assert forall i :: 0 <= i < |Series(a)| ==> Series(a)[i] == a[n + i] && Series(b)[i] == b[n + i];
      SeverityIsMonotone(Series(a), Series(b), Centre(SumRuns(Baseline(a)), SumFailures(Baseline(a))));
    }
  }

  method BaselineTotals(baseline: seq<Point>) returns (runs: nat, failures: nat)
    ensures runs == SumRuns(baseline) && failures == SumFailures(baseline)
  {
    runs, failures := 0, 0;
    for i := 0 to |baseline|
      invariant runs == SumRuns(baseline[..i]) && failures == SumFailures(baseline[..i])
    {
      assert baseline[..i + 1][..i] == baseline[..i];
      runs := runs + baseline[i].runs;
      failures := failures + baseline[i].failures;
    }
    assert baseline[..|baseline|] == baseline;
  }

  /** The `sigma_units` of every series day; nothing when a sigma is zero and the division fails. */
  method SeriesUnits(series: seq<Point>, c: real, sqrt: real -> real) returns (us: Option<seq<real>>)
    requires ValidPoints(series) && series != [] && IsSqrt(sqrt) && sqrt(0.0) == 0.0 && 0.0 < c <= 1.0
    ensures c == 1.0 ==> us == None
    ensures c < 1.0 ==> us == Some(AllUnits(series, c, sqrt))
  {
    var done: seq<real> := [];
    for i := 0 to |series|
      invariant c == 1.0 ==> i == 0
      invariant c < 1.0 ==> done == AllUnits(series, c, sqrt)[..i]
    {
      var sigma := Sigma(c, series[i].runs, sqrt);
      if c < 1.0 { SigmaPositive(c, series[i].runs, sqrt); } else { SigmaZero(series[i].runs, sqrt); }
      if sigma == 0.0 { return None; }
      done := done + [(Rate(series[i]) - c) / sigma];
    }
    assert c < 1.0 ==> done == AllUnits(series, c, sqrt);
    return Some(done);
  }

  /**
   Totals, centre, sigma units and cascade as the script computes them; it fails
   exactly when every baseline run failed.
   */
  method Detect(points: seq<Point>, sqrt: real -> real) returns (report: Report)
    requires ValidPoints(points) && IsSqrt(sqrt) && sqrt(0.0) == 0.0
    ensures report == Expected(points)
  {
    if points == [] { return NoPoints; }
    var series, baseline := Series(points), Baseline(points);
    var runs, failures := BaselineTotals(baseline);
    if |baseline| < MIN_BASELINE_DAYS { return TooFewDays; }
    if runs < MIN_BASELINE_RUNS { return TooFewRuns; }
    FailuresAtMostRuns(baseline);
    CentreRange(runs, failures);
    var c := Centre(runs, failures);
    var us := SeriesUnits(series, c, sqrt);
    if us == None { return DivisionByZero; }
    CascadeIsExact(series, c, sqrt);
    report := Measured(Cascade(us.value, series, c));
  }

  // ---- every counted run is in one point -------------------------------------------------------------

  /** The points are the days with counted runs, each with its own numbers. */
  ghost predicate Charts(points: seq<Point>, runs: seq<WorkflowRun>, first: int, last: int) {
    forall p :: p in points <==>
      var today := OnDay(runs, first, last, p.day);
      today != {} && Bucket(p.runs, p.failures) == Tally(runs, today)
  }

  lemma {:induction false} PointsOfBuckets(buckets: map<int, Bucket>, day: int, last: int)
    ensures forall p :: p in PointsFrom(buckets, day, last) <==>
      day <= p.day <= last && p.day in buckets && 1 <= p.runs && buckets[p.day] == Bucket(p.runs, p.failures)
    decreases last + 1 - day
  {
    if day <= last { PointsOfBuckets(buckets, day + 1, last); }
  }

  lemma {:induction false} SumsAppend(a: seq<Point>, b: seq<Point>)
    ensures SumRuns(a + b) == SumRuns(a) + SumRuns(b) && SumFailures(a + b) == SumFailures(a) + SumFailures(b)
  {
    if b == [] {
      assert a + b == a;
    } else {
      SumsAppend(a, b[..|b| - 1]);
      assert (a + b)[..|a + b| - 1] == a + b[..|b| - 1];
    }
  }

  /** The counted runs of this day or later. */
  ghost function Since(runs: seq<WorkflowRun>, first: int, last: int, day: int): set<int> {
    set i | i in Counted(runs, first, last) && runs[i].day >= day
  }

  lemma SinceStep(runs: seq<WorkflowRun>, first: int, last: int, day: int)
    ensures var today := Tally(runs, OnDay(runs, first, last, day));
      var later := Tally(runs, Since(runs, first, last, day + 1));
      Tally(runs, Since(runs, first, last, day)) == Bucket(today.runs + later.runs, today.failures + later.failures)
  {
    var a, b := OnDay(runs, first, last, day), Since(runs, first, last, day + 1);
    assert a !! b && Since(runs, first, last, day) == a + b;
    assert Failing(runs, a + b) == Failing(runs, a) + Failing(runs, b);
  }

  /** The points from a day on add up to the counted runs since then, failures to failures. */
  lemma {:induction false} PointsTally(
      buckets: map<int, Bucket>, runs: seq<WorkflowRun>, first: int, last: int, day: int)
    requires Buckets(buckets, runs, first, last)
    ensures var points := PointsFrom(buckets, day, last);
      Bucket(SumRuns(points), SumFailures(points)) == Tally(runs, Since(runs, first, last, day))
    decreases last + 1 - day
  {
    if day > last {
      assert Since(runs, first, last, day) == {} && Failing(runs, {}) == {};
    } else {
      var later := PointsFrom(buckets, day + 1, last);
      PointsTally(buckets, runs, first, last, day + 1);
      SinceStep(runs, first, last, day);
      BucketsAreValid(buckets, runs, first, last);
      if day in buckets {
        var head := [Point(day, buckets[day].runs, buckets[day].failures)];
        SumsAppend(head, later);
        assert head[..0] == [] && SumRuns(head) == head[0].runs && SumFailures(head) == head[0].failures;
      } else {
        assert [] + later == later && Failing(runs, {}) == {};
      }
    }
  }

  /** From fetched runs to the report. */
  method Chart(runs: seq<WorkflowRun>, first: int, last: int, sqrt: real -> real)
    returns (points: seq<Point>, report: Report)
    requires IsSqrt(sqrt) && sqrt(0.0) == 0.0
    ensures ValidPoints(points) && Charts(points, runs, first, last)
    ensures Bucket(SumRuns(points), SumFailures(points)) == Tally(runs, Counted(runs, first, last))
    ensures report == Expected(points)
  {
    var buckets := FillBuckets(runs, first, last);
    points := MakePoints(buckets, first, last);
    BucketsAreValid(buckets, runs, first, last);
    PointsAreValid(buckets, first, last);
    PointsOfBuckets(buckets, first, last);
    PointsTally(buckets, runs, first, last, first);
    assert Since(runs, first, last, first) == Counted(runs, first, last);
    report := Detect(points, sqrt);
  }
}

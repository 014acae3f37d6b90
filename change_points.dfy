/**
 * Rolling-window change-point scan and alert decision of the image-quality
 * metrics example (`get_change_points` in custom-metrics-example/image_quality.py).
 *
 * The CUSUM detector is an external statistical library; it is modelled as an
 * arbitrary function `Detector` from a window of samples and the arguments of the
 * detector call to the change points it reports. The wall clock is the parameter `now`.
 */
module ChangePoints {

  /** An instant on one absolute time line, in whole seconds. */
  type Instant = int

  const SecondsPerDay: int := 86400

  /** Change points whose end lies more than this many days before `now` suppress the alert. */
  const AlertWindowDays: int := 5

  datatype Direction = Increase | Decrease

  /** One row of the metric time series. */
  datatype Sample = Sample(time: Instant, value: real)

  datatype ChangePoint = ChangePoint(startTime: Instant, endTime: Instant, direction: Direction)

  /** The arguments of one detector call: the interest window and the change directions asked for. */
  datatype DetectorRequest = DetectorRequest(interestStart: int, interestEnd: int, directions: seq<Direction>)

  /** The CUSUM detector, run on one window of the series. */
  type Detector = (seq<Sample>, DetectorRequest) -> seq<ChangePoint>

  /**
   * The values of a Python `range(start, stop, step)` with a positive step, in order:
   * it is empty exactly when `stop <= start`, starts at `start`, stays within
   * `[start, stop)`, and ends only when the next value would reach `stop`. The
   * closed form of each value is `RangeAt`.
   */
  function Range(start: int, stop: int, step: int): (r: seq<int>)
    requires step >= 1
    ensures forall i :: 0 <= i < |r| ==> start <= r[i] < stop
    ensures |r| == 0 <==> stop <= start
    ensures |r| > 0 ==> r[0] == start && r[|r| - 1] + step >= stop
    decreases stop - start
  {
    if start < stop then [start] + Range(start + step, stop, step) else []
  }

  /** The slice `series[endIdx - width : endIdx]` handed to the detector. */
  function Window(series: seq<Sample>, endIdx: int, width: int): seq<Sample>
    requires 0 <= width <= endIdx <= |series|
  {
    series[endIdx - width .. endIdx]
  }

  /** Every detector call asks for decreases inside the interest window `[historical, historical + scan]`. */
  function Request(historicalWindow: nat, scanWindow: nat): DetectorRequest
  {
    DetectorRequest(historicalWindow, historicalWindow + scanWindow, [Decrease])
  }

  /** The detector outputs for the windows ending at `ends`, concatenated in order. */
  function DetectAll(series: seq<Sample>, historicalWindow: nat, scanWindow: nat,
                     ends: seq<int>, detect: Detector): seq<ChangePoint>
    requires forall i :: 0 <= i < |ends| ==> historicalWindow + scanWindow <= ends[i] <= |series|
  {
    if ends == [] then []
    else
      var last := ends[|ends| - 1];
      DetectAll(series, historicalWindow, scanWindow, ends[..|ends| - 1], detect)
      + detect(Window(series, last, historicalWindow + scanWindow), Request(historicalWindow, scanWindow))
  }

  /** The window end indices the scan visits. */
  function WindowEnds(nRows: int, historicalWindow: nat, scanWindow: nat, step: int): seq<int>
    requires step >= 1
  {
    Range(historicalWindow + scanWindow, nRows, step)
  }

  /** Everything the scan accumulates in `change_points`. */
  function Scan(series: seq<Sample>, historicalWindow: nat, scanWindow: nat, step: int,
                detect: Detector): seq<ChangePoint>
    requires step >= 1
  {
    DetectAll(series, historicalWindow, scanWindow, WindowEnds(|series|, historicalWindow, scanWindow, step), detect)
  }

  /** The loop of `get_change_points` that slides the window and collects the detector's findings. */
  method ScanChangePoints(series: seq<Sample>, historicalWindow: nat, scanWindow: nat, step: int,
                          detect: Detector) returns (changePoints: seq<ChangePoint>)
    requires step >= 1
    ensures changePoints == Scan(series, historicalWindow, scanWindow, step, detect)
  {
    changePoints := [];
    var nRows := |series|;
    var width := historicalWindow + scanWindow;
    var ends := Range(width, nRows, step);
    for i := 0 to |ends|
      invariant changePoints == DetectAll(series, historicalWindow, scanWindow, ends[..i], detect)
    {
      var endIdx := ends[i];
      var tsd := series[endIdx - width .. endIdx];
      assert ends[..i + 1][..i] == ends[..i];
      changePoints := changePoints + detect(tsd, DetectorRequest(historicalWindow, historicalWindow + scanWindow, [Decrease]));
    }
    assert ends[..|ends|] == ends;
  }

  /** `end_check_date`: the earliest end time that still counts as recent. */
  function AlertThreshold(now: Instant): Instant
  {
    now - AlertWindowDays * SecondsPerDay
  }

  /** `cpt_dates`: the end times of the change points, in order. */
  function EndTimes(changePoints: seq<ChangePoint>): (dates: seq<Instant>)
    ensures |dates| == |changePoints|
    ensures forall i :: 0 <= i < |dates| ==> dates[i] == changePoints[i].endTime
  {
    seq(|changePoints|, i requires 0 <= i < |changePoints| => changePoints[i].endTime)
  }

  /** Python's `all(x >= threshold for x in dates)`, consuming the dates front to back. */
  function AllAtOrAfter(dates: seq<Instant>, threshold: Instant): bool
  {
    if dates == [] then true else dates[0] >= threshold && AllAtOrAfter(dates[1..], threshold)
  }

  /** The decision at the end of `get_change_points`. */
  function ShouldAlert(changePoints: seq<ChangePoint>, now: Instant): bool
  {
    changePoints != [] && AllAtOrAfter(EndTimes(changePoints), AlertThreshold(now))
  }

  /** `get_change_points` without plotting: scan, then decide. */
  method GetChangePoints(series: seq<Sample>, historicalWindow: nat, scanWindow: nat, step: int,
                         detect: Detector, now: Instant) returns (alert: bool)
    requires step >= 1
    ensures alert == ShouldAlert(Scan(series, historicalWindow, scanWindow, step, detect), now)
  {
    var changePoints := ScanChangePoints(series, historicalWindow, scanWindow, step, detect);
    alert := false;
    if changePoints != [] {
      var endCheckDate := AlertThreshold(now);
      var cptDates := EndTimes(changePoints);
      if AllAtOrAfter(cptDates, endCheckDate) {
        alert := true;
      }
    }
  }

  // ---------------------------------------------------------------------------
  // Properties of the window enumeration
  // ---------------------------------------------------------------------------

  lemma StepDistributes(k: int, step: int)
    ensures k * step + step == (k + 1) * step
  {
  }

  lemma RangeAtShift(start: int, step: int, r: seq<int>, rest: seq<int>)
    requires r == [start] + rest
    requires forall k :: 0 <= k < |rest| ==> rest[k] == start + step + k * step
    ensures forall k :: 0 <= k < |r| ==> r[k] == start + k * step
  {
    forall k | 0 < k < |r|
      ensures r[k] == start + k * step
    {
      StepDistributes(k - 1, step);
      assert r[k] == rest[k - 1];
    }
  }

  /** Value `k` of a range is `start + k * step`, and the range holds every such value below `stop`. */
  lemma {:induction false} RangeAt(start: int, stop: int, step: int)
    requires step >= 1
    ensures var r := Range(start, stop, step);
            (forall k :: 0 <= k < |r| ==> r[k] == start + k * step) &&
            start + |r| * step >= stop
    decreases stop - start
  {
    if start < stop {
      RangeAt(start + step, stop, step);
      var r := Range(start, stop, step);
      var rest := Range(start + step, stop, step);
      assert r == [start] + rest;
      RangeAtShift(start, step, r, rest);
      StepDistributes(|rest|, step);
    }
  }

  /** Every value `start + k * step` below `stop` is visited. */
  lemma {:induction false} RangeContainsStep(start: int, stop: int, step: int, k: nat)
    requires step >= 1
    requires start + k * step < stop
    ensures start + k * step in Range(start, stop, step)
    decreases k
  {
    var rest := Range(start + step, stop, step);
    assert Range(start, stop, step) == [start] + rest;
    if k > 0 {
      var e := start + k * step;
      StepDistributes(k - 1, step);
      assert e == (start + step) + (k - 1) * step;
      RangeContainsStep(start + step, stop, step, k - 1);
      assert e in rest;
    }
  }

  /** A value is visited by the range exactly when it is `start` plus a whole number of steps and lies below `stop`. */
  lemma RangeMembership(start: int, stop: int, step: int, e: int)
    requires step >= 1
    ensures e in Range(start, stop, step) <==> e < stop && exists k: nat :: e == start + k * step
  {
    var r := Range(start, stop, step);
    if e in r {
      RangeAt(start, stop, step);
      var i :| 0 <= i < |r| && r[i] == e;
      var k: nat := i;
      assert e == start + k * step;
    }
    if e < stop && exists k: nat :: e == start + k * step {
      var k: nat :| e == start + k * step;
      RangeContainsStep(start, stop, step, k);
    }
  }

  /** A series no longer than `historical_window + scan_window` is never scanned and never alerts. */
  lemma ShortSeriesNeverAlerts(series: seq<Sample>, historicalWindow: nat, scanWindow: nat, step: int,
                               detect: Detector, now: Instant)
    requires step >= 1
    requires |series| <= historicalWindow + scanWindow
    ensures WindowEnds(|series|, historicalWindow, scanWindow, step) == []
    ensures Scan(series, historicalWindow, scanWindow, step, detect) == []
    ensures !ShouldAlert(Scan(series, historicalWindow, scanWindow, step, detect), now)
  {
  }

  /** Window `k` ends at `W + k * step` with `W = historical_window + scan_window`, and the ends stop below `n_rows`. */
  lemma WindowEndsAreSteps(nRows: int, historicalWindow: nat, scanWindow: nat, step: int)
    requires step >= 1
    ensures var ends := WindowEnds(nRows, historicalWindow, scanWindow, step);
            (forall k :: 0 <= k < |ends| ==> ends[k] == historicalWindow + scanWindow + k * step) &&
            (forall k :: 0 <= k < |ends| ==> ends[k] < nRows) &&
            historicalWindow + scanWindow + |ends| * step >= nRows &&
            (|ends| == 0 <==> nRows <= historicalWindow + scanWindow)
  {
    RangeAt(historicalWindow + scanWindow, nRows, step);
  }

  /**
   * Each scanned window has exactly `historical_window + scan_window` samples, lies
   * inside the series and ends just before `end_idx`; the detector's interest window
   * covers exactly its last `scan_window` samples, and only decreases are asked for.
   */
  lemma ScannedWindowShape(series: seq<Sample>, historicalWindow: nat, scanWindow: nat, step: int, endIdx: int)
    requires step >= 1
    requires endIdx in WindowEnds(|series|, historicalWindow, scanWindow, step)
    ensures historicalWindow + scanWindow <= endIdx < |series|
    ensures |Window(series, endIdx, historicalWindow + scanWindow)| == historicalWindow + scanWindow
    ensures Request(historicalWindow, scanWindow).interestEnd == historicalWindow + scanWindow
    ensures Request(historicalWindow, scanWindow).interestEnd - Request(historicalWindow, scanWindow).interestStart
            == scanWindow
    ensures Request(historicalWindow, scanWindow).directions == [Decrease]
    ensures Window(series, endIdx, historicalWindow + scanWindow)[historicalWindow ..]
            == series[endIdx - scanWindow .. endIdx]
  {
    var ends := WindowEnds(|series|, historicalWindow, scanWindow, step);
    var i :| 0 <= i < |ends| && ends[i] == endIdx;
    var w := Window(series, endIdx, historicalWindow + scanWindow);
    assert w[historicalWindow ..] == series[endIdx - scanWindow .. endIdx];
  }

  /**
   * The newest sample is never scanned: every window is the slice ending before its
   * `end_idx`, and every `end_idx` is at most `n_rows - 1`, so index `n_rows - 1` lies
   * in no window.
   */
  lemma NewestSampleNeverScanned(series: seq<Sample>, historicalWindow: nat, scanWindow: nat, step: int)
    requires step >= 1
    ensures forall e :: e in WindowEnds(|series|, historicalWindow, scanWindow, step) ==>
              historicalWindow + scanWindow <= e <= |series| - 1 &&
              Window(series, e, historicalWindow + scanWindow)
              == series[e - (historicalWindow + scanWindow) .. e]
  {
  }

  /**
   * A change point is reported by the scan exactly when the detector reports it for
   * one of the scanned windows.
   */
  lemma {:induction false} DetectAllMembership(series: seq<Sample>, historicalWindow: nat, scanWindow: nat,
                                               ends: seq<int>, detect: Detector, c: ChangePoint)
    requires forall i :: 0 <= i < |ends| ==> historicalWindow + scanWindow <= ends[i] <= |series|
    ensures c in DetectAll(series, historicalWindow, scanWindow, ends, detect) <==>
            exists e :: e in ends &&
              c in detect(Window(series, e, historicalWindow + scanWindow), Request(historicalWindow, scanWindow))
  {
    if ends != [] {
      var init := ends[..|ends| - 1];
      var last := ends[|ends| - 1];
      DetectAllMembership(series, historicalWindow, scanWindow, init, detect, c);
      var width := historicalWindow + scanWindow;
      var req := Request(historicalWindow, scanWindow);
      assert ends == init + [last];
      if exists e :: e in ends && c in detect(Window(series, e, width), req) {
        var e :| e in ends && c in detect(Window(series, e, width), req);
        if e != last {
          assert e in init;
        }
      }
    }
  }

  lemma ScanMembership(series: seq<Sample>, historicalWindow: nat, scanWindow: nat, step: int,
                       detect: Detector, c: ChangePoint)
    requires step >= 1
    ensures c in Scan(series, historicalWindow, scanWindow, step, detect) <==>
            exists endIdx :: endIdx in WindowEnds(|series|, historicalWindow, scanWindow, step) &&
              c in detect(Window(series, endIdx, historicalWindow + scanWindow), Request(historicalWindow, scanWindow))
  {
    var ends := WindowEnds(|series|, historicalWindow, scanWindow, step);
    DetectAllMembership(series, historicalWindow, scanWindow, ends, detect, c);
  }

  // ---------------------------------------------------------------------------
  // Properties of the alert decision
  // ---------------------------------------------------------------------------

  lemma {:induction false} AllAtOrAfterIff(dates: seq<Instant>, threshold: Instant)
    ensures AllAtOrAfter(dates, threshold) <==> forall i :: 0 <= i < |dates| ==> dates[i] >= threshold
  {
    if dates != [] {
      AllAtOrAfterIff(dates[1..], threshold);
      assert forall i :: 1 <= i < |dates| ==> dates[i] == dates[1..][i - 1];
    }
  }

  /** The alert fires exactly when there is a change point and every one ends at or after `now - 5 days`. */
  lemma AlertIff(changePoints: seq<ChangePoint>, now: Instant)
    ensures ShouldAlert(changePoints, now) <==>
            changePoints != [] &&
            forall i :: 0 <= i < |changePoints| ==> changePoints[i].endTime >= now - 5 * 86400
  {
    AllAtOrAfterIff(EndTimes(changePoints), AlertThreshold(now));
  }

  /** A single change point older than the alert window suppresses the alert. */
  lemma OneOldChangePointSuppresses(changePoints: seq<ChangePoint>, now: Instant, k: int)
    requires 0 <= k < |changePoints|
    requires changePoints[k].endTime < now - 5 * 86400
    ensures !ShouldAlert(changePoints, now)
  {
    AlertIff(changePoints, now);
  }

  /** An alert raised at `now` is also raised at any earlier `now`. */
  lemma AlertAtEarlierNow(changePoints: seq<ChangePoint>, now: Instant, earlier: Instant)
    requires earlier <= now
    requires ShouldAlert(changePoints, now)
    ensures ShouldAlert(changePoints, earlier)
  {
    AlertIff(changePoints, now);
    AlertIff(changePoints, earlier);
  }

  /** The alert over two consecutive groups of change points needs both groups to be all recent. */
  lemma AlertOfConcatenation(a: seq<ChangePoint>, b: seq<ChangePoint>, now: Instant)
    requires a != [] && b != []
    ensures ShouldAlert(a + b, now) <==> ShouldAlert(a, now) && ShouldAlert(b, now)
  {
    AlertIff(a, now);
    AlertIff(b, now);
    AlertIff(a + b, now);
    var t := now - 5 * 86400;
    if ShouldAlert(a, now) && ShouldAlert(b, now) {
      forall i | 0 <= i < |a + b|
        ensures (a + b)[i].endTime >= t
      {
        if i >= |a| {
          assert (a + b)[i] == b[i - |a|];
        }
      }
    }
    if ShouldAlert(a + b, now) {
      forall i | 0 <= i < |b|
        ensures b[i].endTime >= t
      {
        assert (a + b)[|a| + i] == b[i];
      }
      forall i | 0 <= i < |a|
        ensures a[i].endTime >= t
      {
        assert (a + b)[i] == a[i];
      }
    }
  }
}

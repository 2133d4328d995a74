/** The website's copy of the score arithmetic and its decay projection. */
module WebScore {
  import opened Words
  import opened Wrappers
  import opened Score

  datatype ScoreMath = ScoreMath(
    net: nat,
    halvings: nat,
    scoreEquivalent: nat,
    decayed: bool,
    elapsedSecs: nat,
    nextHalvingInSecs: int,
    periodSecs: int)

  function Compute(completions: nat, disputes: nat, lastActivity: int, now: int, period: int): ScoreMath {
    var periodSecs := if period > 0 then period else DEFAULT_PERIOD;
    var net := Max(0, completions - disputes);
    if net == 0 || lastActivity <= 0 then
      ScoreMath(net, 0, net, false, 0, periodSecs, periodSecs)
    else
      var elapsedSecs := Max(0, now - lastActivity);
      var halvings := if elapsedSecs <= periodSecs then 0 else Min(63, elapsedSecs / periodSecs);
      var next := Max(1, (halvings + 1) * periodSecs + 1 - elapsedSecs);
      ScoreMath(net, halvings, HalveU64(net, halvings), halvings > 0, elapsedSecs, next, periodSecs)
  }

  /** The website and the SDK differ only on a non-positive period, where the website decays by
      thirty days and the SDK does not decay at all. The net it shows is the SDK's score at the last activity. */
  lemma WebAgreesWithSdk(completions: nat, disputes: nat, lastActivity: int, now: int, period: int)
    ensures var web := Compute(completions, disputes, lastActivity, now, period);
            var sdk := SdkScore(completions, disputes, lastActivity, now, Some(period));
            (web.scoreEquivalent == sdk.score && web.decayed == sdk.decayed && web.halvings == sdk.halvings)
            <==> (period > 0 || completions <= disputes || lastActivity <= 0
                  || now - lastActivity <= DEFAULT_PERIOD)
    ensures var web := Compute(completions, disputes, lastActivity, now, period);
            && web.net == SdkScore(completions, disputes, lastActivity, lastActivity, Some(period)).score
            && web.periodSecs == (if period > 0 then period else DEFAULT_PERIOD)
            && web.elapsedSecs == if completions > disputes && 0 < lastActivity <= now then now - lastActivity else 0
  {
    var periodSecs := if period > 0 then period else DEFAULT_PERIOD;
    if completions > disputes && lastActivity > 0 && now - lastActivity > periodSecs {
      QuotientBounds(now - lastActivity, periodSecs);
    }
  }

  /** `nextHalvingInSecs` against the halvings it predicts, for every input and every wait `d`. Another
      halving comes only for a positive net with an activity on record and halvings to spare: in the
      first period exactly then, delayed by what the activity lies in the future, and in later periods
      one second earlier. */
  lemma NextHalvingIsDue(completions: nat, disputes: nat, lastActivity: int, now: int, period: int, d: nat)
    ensures var m := Compute(completions, disputes, lastActivity, now, period);
            var later := Compute(completions, disputes, lastActivity, now + d, period);
            && later.halvings >= m.halvings
            && (later.halvings > m.halvings <==>
                && completions > disputes && lastActivity > 0 && m.halvings < 63
                && d >= if m.halvings == 0 then m.nextHalvingInSecs + Max(0, lastActivity - now)
                        else m.nextHalvingInSecs - 1)
  {
    var m := Compute(completions, disputes, lastActivity, now, period);
    if completions > disputes && lastActivity > 0 {
      var e, e' := Max(0, now - lastActivity), Max(0, now + d - lastActivity);
      assert m.halvings == Halvings(e, m.periodSecs);
      HalvingsMonotone(e, e', m.periodSecs);
      if m.halvings < 63 {
        HalvingsExceed(e, m.periodSecs, m.halvings);
        HalvingsExceed(e', m.periodSecs, m.halvings);
      }
    }
  }

  /** After the first period the announced wait is at least two seconds. */
  lemma AnnouncedWaitIsLate(completions: nat, disputes: nat, lastActivity: int, now: int, period: int)
    ensures var m := Compute(completions, disputes, lastActivity, now, period);
            m.nextHalvingInSecs >= 1 && (0 < m.halvings < 63 ==> m.nextHalvingInSecs >= 2)
  {
    var m := Compute(completions, disputes, lastActivity, now, period);
    if 0 < m.halvings < 63 { HalvingsExceed(m.elapsedSecs, m.periodSecs, m.halvings); }
  }

  /** Whether another halving has come after waiting `d` seconds. */
  predicate HalvedAfter(completions: nat, disputes: nat, lastActivity: int, now: int, period: int, d: nat) {
    Compute(completions, disputes, lastActivity, now + d, period).halvings
      > Compute(completions, disputes, lastActivity, now, period).halvings
  }

  /** The announced wait is the true one exactly in the first period after a recorded activity that
      does not lie in the future. */
  lemma AnnouncedHalvingIsExact(completions: nat, disputes: nat, lastActivity: int, now: int, period: int)
    ensures var m := Compute(completions, disputes, lastActivity, now, period);
            (forall d: nat :: HalvedAfter(completions, disputes, lastActivity, now, period, d)
                <==> d >= m.nextHalvingInSecs)
            <==> completions > disputes && 0 < lastActivity <= now && m.halvings == 0
  {
    var m := Compute(completions, disputes, lastActivity, now, period);
    AnnouncedWaitIsLate(completions, disputes, lastActivity, now, period);
    if completions > disputes && 0 < lastActivity <= now && m.halvings == 0 {
      forall d: nat
        ensures HalvedAfter(completions, disputes, lastActivity, now, period, d) <==> d >= m.nextHalvingInSecs
      {
        NextHalvingIsDue(completions, disputes, lastActivity, now, period, d);
      }
    } else {
      var d: nat := if 0 < m.halvings < 63 then m.nextHalvingInSecs - 1 else m.nextHalvingInSecs;
      NextHalvingIsDue(completions, disputes, lastActivity, now, period, d);
      assert !(HalvedAfter(completions, disputes, lastActivity, now, period, d) <==> d >= m.nextHalvingInSecs);
    }
  }

  /** Inside the first period, but with an activity fifty seconds ahead of the clock: 51 seconds are
      announced, and no halving comes after them. */
  lemma FutureActivityMissesHalving()
    ensures var m, later := Compute(1, 0, 1000, 950, 50), Compute(1, 0, 1000, 950 + 51, 50);
            m.halvings == 0 && m.nextHalvingInSecs == 51 && later.halvings == 0
  {
  }

  /** The halvings due pass `h` once more than one period, and then `h + 1` whole periods, are over. */
  lemma HalvingsExceed(elapsed: int, period: int, h: nat)
    requires period > 0 && h < 63
    ensures Halvings(elapsed, period) > h <==> (if h == 0 then elapsed > period else elapsed >= (h + 1) * period)
  {
    if elapsed > period {
      QuotientBounds(elapsed, period);
      var q := elapsed / period;
      assert elapsed == period * q + elapsed % period;
      assert (h + 1) * period == period * h + period;
      if q > h + 1 { StepMultiple(period, h + 1, q); }
      if q < h + 1 { StepMultiple(period, q, h + 1); }
    } else {
      assert h > 0 ==> (h + 1) * period >= 2 * period;
    }
  }

  /** A point of the chart, or the not-a-number that zero divided by zero gives. */
  datatype DecayPoint = DecayPoint(offset: int, score: nat) | NotANumber

  /** Seconds from the start of the chart to point `i` of `points`. */
  function OffsetAt(i: nat, points: int, horizon: real): real
    requires points >= 2
  {
    horizon * i as real / (points - 1) as real
  }

  function HalvingsAt(elapsed: real, period: int): int
    requires period > 0
  {
    if elapsed <= period as real then 0 else Min(63, (elapsed / period as real).Floor)
  }

  /** JavaScript rounding: halves go up. */
  function Round(x: real): int {
    (x + 0.5).Floor
  }

  /** A half is the furthest a number is from its rounding, and it is then rounded up. */
  lemma RoundIsNearest(x: real)
    ensures x - 0.5 < Round(x) as real <= x + 0.5
  {
  }

  function Positive(x: real): real {
    if x < 0.0 then 0.0 else x
  }

  /** The chart value at one point: the base halved once per whole period since the start. */
  function PointAt(base: nat, start: int, now: int, i: nat, points: int, period: int, horizon: real): DecayPoint
    requires points >= 2 && period > 0
  {
    var at := OffsetAt(i, points, horizon);
    DecayPoint(Round(start as real + at - now as real), HalveU64(base, HalvingsAt(Positive(at), period)))
  }

  /** From `p` to a later point `q` the score does not rise, and the offset follows the horizon's sign. */
  predicate Falls(base: nat, horizon: real, p: DecayPoint, q: DecayPoint) {
    && p.DecayPoint? && q.DecayPoint?
    && q.score <= p.score <= base
    && if horizon >= 0.0 then p.offset <= q.offset else q.offset <= p.offset
  }

  method ChartPoint(base: nat, start: int, now: int, i: nat, points: int, period: int, horizon: real)
    returns (p: DecayPoint)
    requires points >= 2 && period > 0
    ensures p == PointAt(base, start, now, i, points, period, horizon)
  {
    var at := start as real + horizon * i as real / (points - 1) as real;
    var elapsed := Positive(at - start as real);
    assert elapsed == Positive(OffsetAt(i, points, horizon));
    var halvings := if elapsed <= period as real then 0 else Min(63, (elapsed / period as real).Floor);
    p := DecayPoint(Round(at - now as real), HalveU64(base, halvings));
  }

  /** The first `n` points of the chart. */
  function Chart(base: nat, start: int, now: int, n: nat, points: int, period: int, horizon: real): (q: seq<DecayPoint>)
    requires points >= 2 && period > 0
    ensures |q| == n
    ensures forall i: nat | i < n :: q[i] == PointAt(base, start, now, i, points, period, horizon)
  {
    if n == 0 then []
    else
      Chart(base, start, now, n - 1, points, period, horizon)
      + [PointAt(base, start, now, n - 1, points, period, horizon)]
  }

  method FillChart(base: nat, start: int, now: int, points: int, period: int, horizon: real)
    returns (series: seq<DecayPoint>)
    requires period > 0
    ensures if points >= 2 then series == Chart(base, start, now, points, points, period, horizon)
            else series == if points == 1 then [NotANumber] else []
  {
    series := [];
    var i := 0;
    while i < points
      invariant 0 <= i <= Max(0, points)
      invariant if points >= 2 then series == Chart(base, start, now, i, points, period, horizon)
                else series == if i == 1 then [NotANumber] else []
    {
      if points == 1 {
        series := series + [NotANumber];
      } else {
        var p := ChartPoint(base, start, now, i, points, period, horizon);
        series := series + [p];
      }
      i := i + 1;
    }
  }

  ghost predicate Decays(base: nat, horizon: real, series: seq<DecayPoint>) {
    forall i, j | 0 <= i <= j < |series| :: Falls(base, horizon, series[i], series[j])
  }

  function ChartHorizon(period: int, horizonPeriods: real): real {
    period as real * horizonPeriods
  }

  /** The chart starts at the last activity, or now if there is none, and spans so many periods of at least
      one second. */
  method DecaySeries(base: nat, lastActivity: int, decayPeriodSecs: int, now: int, points: int, horizonPeriods: real)
    returns (series: seq<DecayPoint>)
    ensures |series| == Max(0, points)
    ensures points == 1 ==> series == [NotANumber]
    ensures points >= 2 ==>
              var start := if lastActivity > 0 then lastActivity else now;
              var period := if decayPeriodSecs >= 1 then decayPeriodSecs else 1;
              var horizon := ChartHorizon(period, horizonPeriods);
              && series == Chart(base, start, now, points, points, period, horizon)
              && series[0] == DecayPoint(start - now, base)
              && series[points - 1] == EndPoint(base, start, now, period, horizon)
              && Decays(base, horizon, series)
  {
    var period := Max(1, decayPeriodSecs);
    var start := if lastActivity > 0 then lastActivity else now;
    var horizon := ChartHorizon(period, horizonPeriods);
    series := FillChart(base, start, now, points, period, horizon);
    if points >= 2 {
      ChartDecays(base, start, now, points, period, horizon);
      LastPoint(base, start, now, points, period, horizon);
    }
  }

  /** The chart at its horizon. */
  function EndPoint(base: nat, start: int, now: int, period: int, horizon: real): DecayPoint
    requires period > 0
  {
    DecayPoint(Round(start as real + horizon - now as real), HalveU64(base, HalvingsAt(Positive(horizon), period)))
  }

  /** The points are evenly spaced from the start to the horizon. */
  lemma OffsetsAreEven(i: nat, points: int, horizon: real)
    requires points >= 2
    ensures OffsetAt(i, points, horizon) * (points - 1) as real == horizon * i as real
    ensures i == points - 1 ==> OffsetAt(i, points, horizon) == horizon
  {
    var d := (points - 1) as real;
    if i == points - 1 { WholeQuotient(horizon, d); }
  }

  lemma WholeQuotient(x: real, d: real)
    requires d > 0.0
    ensures x * d / d == x
  {
  }

  lemma LastPoint(base: nat, start: int, now: int, points: int, period: int, horizon: real)
    requires points >= 2 && period > 0
    ensures PointAt(base, start, now, points - 1, points, period, horizon)
         == EndPoint(base, start, now, period, horizon)
  {
    OffsetsAreEven(points - 1, points, horizon);
  }

  lemma ChartDecays(base: nat, start: int, now: int, points: int, period: int, horizon: real)
    requires points >= 2 && period > 0
    ensures var series := Chart(base, start, now, points, points, period, horizon);
            series[0] == DecayPoint(start - now, base) && Decays(base, horizon, series)
  {
    var series := Chart(base, start, now, points, points, period, horizon);
    FirstPoint(base, start, now, points, period, horizon);
    forall i: nat, j: nat | i <= j < points ensures Falls(base, horizon, series[i], series[j]) {
      PointsFall(base, start, now, i, j, points, period, horizon);
    }
  }

  lemma FirstPoint(base: nat, start: int, now: int, points: int, period: int, horizon: real)
    requires points >= 2 && period > 0
    ensures PointAt(base, start, now, 0, points, period, horizon) == DecayPoint(start - now, base)
  {
    assert OffsetAt(0, points, horizon) == 0.0;
  }

  lemma PointsFall(base: nat, start: int, now: int, i: nat, j: nat, points: int, period: int, horizon: real)
    requires i <= j && points >= 2 && period > 0
    ensures Falls(base, horizon, PointAt(base, start, now, i, points, period, horizon),
              PointAt(base, start, now, j, points, period, horizon))
  {
    var a, b := OffsetAt(i, points, horizon), OffsetAt(j, points, horizon);
    OffsetGrows(i, j, points, horizon);
    HalvingsGrow(Positive(a), Positive(b), period);
    HalvedBelow(base, HalvingsAt(Positive(a), period), HalvingsAt(Positive(b), period));
  }

  lemma OffsetGrows(i: nat, j: nat, points: int, horizon: real)
    requires i <= j && points >= 2
    ensures var a, b := OffsetAt(i, points, horizon), OffsetAt(j, points, horizon);
            if horizon >= 0.0 then 0.0 <= a <= b else b <= a <= 0.0
  {
    var d := (points - 1) as real;
    if horizon >= 0.0 {
      RealProducts(horizon, i, j);
      RealDivisionMonotone(horizon * i as real, horizon * j as real, d);
      RealDivisionMonotone(0.0, horizon * i as real, d);
    } else {
      RealProducts(-horizon, i, j);
      RealDivisionMonotone(horizon * j as real, horizon * i as real, d);
      RealDivisionMonotone(horizon * i as real, 0.0, d);
    }
  }

  lemma RealProducts(h: real, i: nat, j: nat)
    requires h >= 0.0 && i <= j
    ensures 0.0 <= h * i as real <= h * j as real
  {
    assert h * (j - i) as real >= 0.0;
  }

  lemma RealDivisionMonotone(a: real, b: real, d: real)
    requires a <= b && d > 0.0
    ensures a / d <= b / d
  {
    var x, y := a / d, b / d;
    assert x * d == a && y * d == b;
    assert x > y ==> (x - y) * d > 0.0;
  }

  lemma HalvingsGrow(a: real, b: real, period: int)
    requires 0.0 <= a <= b && period > 0
    ensures 0 <= HalvingsAt(a, period) <= HalvingsAt(b, period)
  {
    RealDivisionMonotone(a, b, period as real);
    RealDivisionMonotone(0.0, a, period as real);
  }

  lemma HalvedBelow(base: nat, a: int, b: int)
    requires a <= b
    ensures HalveU64(base, b) <= HalveU64(base, a) <= base
  {
    if 0 < a && b < 53 {
      HalveIsShift(base, a);
      HalveIsShift(base, b);
      ShrAntitone(base, a, b);
      ShrBelow(base, a);
    } else if 0 < a < 53 {
      HalveIsShift(base, a);
      ShrBelow(base, a);
    } else if 0 < b < 53 {
      HalveIsShift(base, b);
      ShrBelow(base, b);
    }
  }

  /** At every whole second the chart shows the SDK's own score. */
  lemma SeriesFollowsSdk(base: nat, lastActivity: int, period: int, elapsed: nat)
    requires lastActivity > 0 && period > 0
    ensures HalveU64(base, HalvingsAt(elapsed as real, period))
         == SdkScore(base, 0, lastActivity, lastActivity + elapsed, Some(period)).score
  {
    FloorOfQuotient(elapsed, period);
    HalvedBelow(0, 0, HalvingsAt(elapsed as real, period));
  }

  lemma FloorOfQuotient(a: nat, d: int)
    requires d > 0
    ensures (a as real / d as real).Floor == a / d
  {
    var q, x := a / d, a as real / d as real;
    assert a == d * q + a % d;
    assert x * d as real == a as real;
    assert (d * q) as real <= a as real < (d * q + d) as real;
    assert x < q as real ==> (q as real - x) * d as real > 0.0;
    assert x >= (q + 1) as real ==> (x - (q + 1) as real) * d as real >= 0.0;
  }

  /** Over a whole number of periods, the chart ends with the SDK's own score at that time. */
  lemma ChartEndsWithSdk(base: nat, lastActivity: int, period: int, periods: nat, now: int)
    requires lastActivity > 0 && period > 0
    ensures EndPoint(base, lastActivity, now, period, ChartHorizon(period, periods as real))
         == DecayPoint(lastActivity + period * periods - now,
              SdkScore(base, 0, lastActivity, lastActivity + period * periods, Some(period)).score)
  {
    var elapsed := period * periods;
    assert elapsed >= 0 && ChartHorizon(period, periods as real) == elapsed as real;
    SeriesFollowsSdk(base, lastActivity, period, elapsed);
  }
}

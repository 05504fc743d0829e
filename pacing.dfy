/** The scenario side of the dashboard: the edge-clamped lookup on a pacing curve
    (`np.interp` with `left`/`right` set to the end values), the ticket forecast, and the
    three-way pacing status. */
module Pacing {
  import opened Numeric
  import opened Weights
  import opened Momentum

  /** One row of a pacing curve: the 25th, 50th and 75th percentile of cumulative share on a day. */
  datatype Knot = Knot(day: real, p25: real, median: real, p75: real)

  datatype Band = P25 | Median | P75

  function Value(k: Knot, b: Band): real
  {
    match b
    case P25 => k.p25
    case Median => k.median
    case P75 => k.p75
  }

  /** A curve the dashboard interpolates on: non-empty (an empty one stops the page) with
      strictly increasing days (one row per grouped and sorted day). */
  predicate ValidCurve(c: seq<Knot>)
  {
    |c| > 0 && forall i, j :: 0 <= i < j < |c| ==> c[i].day < c[j].day
  }

  /** The line through two knots, evaluated at x. */
  function Segment(a: Knot, b: Knot, band: Band, x: real): real
    requires a.day < b.day
  {
    Value(a, band) + (Value(b, band) - Value(a, band)) / (b.day - a.day) * (x - a.day)
  }

  /** `np.interp(x, days, values, left=values[0], right=values[-1])`. */
  function Lookup(c: seq<Knot>, band: Band, x: real): (r: real)
    requires ValidCurve(c)
    ensures x <= c[0].day ==> r == Value(c[0], band)
    ensures c[|c| - 1].day <= x ==> r == Value(c[|c| - 1], band)
    decreases |c|
  {
    if x <= c[0].day || |c| == 1 then Value(c[0], band)
    else if x < c[1].day then Segment(c[0], c[1], band, x)
    else Lookup(c[1..], band, x)
  }

  lemma SegmentBetween(a: Knot, b: Knot, band: Band, x: real)
    requires a.day <= x <= b.day && a.day < b.day
    ensures Value(a, band) <= Value(b, band) ==>
      Value(a, band) <= Segment(a, b, band, x) <= Value(b, band)
    ensures Value(b, band) <= Value(a, band) ==>
      Value(b, band) <= Segment(a, b, band, x) <= Value(a, band)
  {
    var d := b.day - a.day;
    var slope := (Value(b, band) - Value(a, band)) / d;
    var t := x - a.day;
    assert slope * d == Value(b, band) - Value(a, band);
    if slope >= 0.0 {
      assert 0.0 <= slope * t <= slope * d;
    } else {
      assert slope * d <= slope * t <= 0.0;
    }
  }

  lemma SegmentMonotone(a: Knot, b: Knot, band: Band, x: real, y: real)
    requires a.day < b.day && x <= y && Value(a, band) <= Value(b, band)
    ensures Segment(a, b, band, x) <= Segment(a, b, band, y)
  {
    var slope := (Value(b, band) - Value(a, band)) / (b.day - a.day);
    assert slope >= 0.0;
    assert slope * (y - a.day) - slope * (x - a.day) == slope * (y - x);
  }

  /** A day exactly on a knot returns that knot's value. */
  lemma {:induction false} LookupAtKnot(c: seq<Knot>, band: Band, k: nat)
    requires ValidCurve(c) && k < |c|
    ensures Lookup(c, band, c[k].day) == Value(c[k], band)
    decreases |c|
  {
    if k > 0 {
      assert c[0].day < c[k].day;
      if k > 1 {
        assert c[1].day < c[k].day;
      }
      assert c[1..][k - 1] == c[k];
      LookupAtKnot(c[1..], band, k - 1);
    }
  }

  /** A day between two neighbouring knots returns a value between theirs. */
  lemma {:induction false} LookupBetweenKnots(c: seq<Knot>, band: Band, k: nat, x: real)
    requires ValidCurve(c) && k + 1 < |c| && c[k].day <= x <= c[k + 1].day
    ensures Value(c[k], band) <= Value(c[k + 1], band) ==>
      Value(c[k], band) <= Lookup(c, band, x) <= Value(c[k + 1], band)
    ensures Value(c[k + 1], band) <= Value(c[k], band) ==>
      Value(c[k + 1], band) <= Lookup(c, band, x) <= Value(c[k], band)
    decreases |c|
  {
    if k == 0 {
      if x == c[0].day {
      } else if x < c[1].day {
        SegmentBetween(c[0], c[1], band, x);
      } else {
        LookupAtKnot(c, band, 1);
      }
    } else {
      assert c[0].day < c[k].day;
      assert c[1..][k - 1] == c[k] && c[1..][k] == c[k + 1];
      LookupBetweenKnots(c[1..], band, k - 1, x);
    }
  }

  /** The segment is the straight line through its two knots, written without division. */
  lemma SegmentLinear(a: Knot, b: Knot, band: Band, x: real)
    requires a.day < b.day
    ensures Segment(a, b, band, x) * (b.day - a.day)
         == Value(a, band) * (b.day - x) + Value(b, band) * (x - a.day)
  {
    var d := b.day - a.day;
    var va, vb := Value(a, band), Value(b, band);
    assert (vb - va) / d * (x - a.day) * d == (vb - va) * (x - a.day);
  }

  /** Between two neighbouring knots, ends included, the lookup is the line through them. */
  lemma {:induction false} LookupLinear(c: seq<Knot>, band: Band, k: nat, x: real)
    requires ValidCurve(c) && k + 1 < |c| && c[k].day <= x <= c[k + 1].day
    ensures Lookup(c, band, x) == Segment(c[k], c[k + 1], band, x)
    decreases |c|
  {
    if k == 0 {
      assert c[k] == c[0] && c[k + 1] == c[1];
      var d := c[1].day - c[0].day;
      var slope := (Value(c[1], band) - Value(c[0], band)) / d;
      if x == c[0].day {
        assert slope * (x - c[0].day) == 0.0;
        assert Segment(c[0], c[1], band, x) == Value(c[0], band);
      } else if x == c[1].day {
        Numeric.QuotientTimesDivisor(Value(c[1], band) - Value(c[0], band), d);
        assert slope * (x - c[0].day) == slope * d;
      }
    } else {
      assert c[0].day < c[k].day;
      assert c[1..][k - 1] == c[k] && c[1..][k] == c[k + 1];
      LookupLinear(c[1..], band, k - 1, x);
    }
  }

  /** The band's values never decrease along the curve. */
  predicate NonDecreasingBand(c: seq<Knot>, band: Band)
  {
    forall i, j :: 0 <= i < j < |c| ==> Value(c[i], band) <= Value(c[j], band)
  }

  lemma {:induction false} LookupAtLeastFirst(c: seq<Knot>, band: Band, x: real)
    requires ValidCurve(c) && NonDecreasingBand(c, band)
    ensures Value(c[0], band) <= Lookup(c, band, x)
    decreases |c|
  {
    if x <= c[0].day || |c| == 1 {
    } else if x < c[1].day {
      SegmentBetween(c[0], c[1], band, x);
    } else {
      LookupAtLeastFirst(c[1..], band, x);
    }
  }

  /** On a band that never decreases, the lookup never decreases as the day grows. */
  lemma {:induction false} LookupMonotone(c: seq<Knot>, band: Band, x: real, y: real)
    requires ValidCurve(c) && NonDecreasingBand(c, band) && x <= y
    ensures Lookup(c, band, x) <= Lookup(c, band, y)
    decreases |c|
  {
    if x <= c[0].day || |c| == 1 {
      LookupAtLeastFirst(c, band, y);
    } else if x < c[1].day {
      if y < c[1].day {
        SegmentMonotone(c[0], c[1], band, x, y);
      } else {
        SegmentBetween(c[0], c[1], band, x);
        LookupAtLeastFirst(c[1..], band, y);
      }
    } else {
      LookupMonotone(c[1..], band, x, y);
    }
  }

  /** The segment as a weighted mix of its two end values. */
  lemma SegmentAsMix(a: Knot, b: Knot, band: Band, x: real, w: real)
    requires a.day < b.day && w == (x - a.day) / (b.day - a.day)
    ensures Segment(a, b, band, x) == (1.0 - w) * Value(a, band) + w * Value(b, band)
  {
    var va, vb := Value(a, band), Value(b, band);
    assert (vb - va) / (b.day - a.day) * (x - a.day) == (vb - va) * w;
  }

  lemma MixOrdered(w: real, p: real, q: real, p': real, q': real)
    requires 0.0 <= w <= 1.0 && p <= p' && q <= q'
    ensures (1.0 - w) * p + w * q <= (1.0 - w) * p' + w * q'
  {
    assert (1.0 - w) * (p' - p) >= 0.0;
    assert w * (q' - q) >= 0.0;
  }

  lemma SegmentOrdered(a: Knot, b: Knot, lo: Band, hi: Band, x: real)
    requires a.day <= x <= b.day && a.day < b.day
    requires Value(a, lo) <= Value(a, hi) && Value(b, lo) <= Value(b, hi)
    ensures Segment(a, b, lo, x) <= Segment(a, b, hi, x)
  {
    var d := b.day - a.day;
    var w := (x - a.day) / d;
    DivideMonotone(0.0, x - a.day, d);
    DivideMonotone(x - a.day, d, d);
    SegmentAsMix(a, b, lo, x, w);
    SegmentAsMix(a, b, hi, x, w);
    MixOrdered(w, Value(a, lo), Value(b, lo), Value(a, hi), Value(b, hi));
  }

  /** Interpolation keeps the order of two bands that are ordered at every knot, so the
      interpolated P25 <= median <= P75 whenever every knot has them in that order. */
  lemma {:induction false} LookupOrdered(c: seq<Knot>, lo: Band, hi: Band, x: real)
    requires ValidCurve(c) && forall i :: 0 <= i < |c| ==> Value(c[i], lo) <= Value(c[i], hi)
    ensures Lookup(c, lo, x) <= Lookup(c, hi, x)
    decreases |c|
  {
    if x <= c[0].day || |c| == 1 {
    } else if x < c[1].day {
      SegmentOrdered(c[0], c[1], lo, hi, x);
    } else {
      LookupOrdered(c[1..], lo, hi, x);
    }
  }

  // ---- Forecast ----

  const GoalTickets: real := 2500.0

  /** The pace blend `0.70 + 0.60 * pace_med`. */
  function PaceAdjustment(paceMed: real): real
  {
    0.70 + 0.60 * paceMed
  }

  /** `txns * avg * tier_w * give_w * dow_w * (0.70 + 0.60 * pace_med)`. */
  function ForecastTickets(txns: real, avgTix: real, tierW: real, giveW: real, dowW: real, paceMed: real): real
  {
    txns * avgTix * tierW * giveW * dowW * PaceAdjustment(paceMed)
  }

  /** `clip(forecast / GOAL * 100, 0, 100)`. */
  function ProgressPct(tickets: real): (p: real)
    ensures 0.0 <= p <= 100.0
    ensures p == 100.0 <==> tickets >= GoalTickets
    ensures p == 0.0 <==> tickets <= 0.0
    ensures 0.0 <= tickets <= GoalTickets ==> p * GoalTickets == tickets * 100.0
  {
    Clip(tickets / GoalTickets * 100.0, 0.0, 100.0)
  }

  datatype Forecast = Forecast(tickets: real, gap: real, progressPct: real)

  /** The forecast, its gap to the goal and the goal progress shown beside it. */
  function MakeForecast(txns: real, avgTix: real, tierW: real, giveW: real, dowW: real, paceMed: real): (f: Forecast)
    ensures f.tickets == ForecastTickets(txns, avgTix, tierW, giveW, dowW, paceMed)
    ensures f.progressPct == ProgressPct(f.tickets)
    ensures f.tickets + f.gap == GoalTickets
    ensures 0.0 <= f.progressPct <= 100.0
    ensures f.gap <= 0.0 <==> f.progressPct == 100.0
  {
    var tickets := ForecastTickets(txns, avgTix, tierW, giveW, dowW, paceMed);
    Forecast(tickets, GoalTickets - tickets, ProgressPct(tickets))
  }

  lemma ProductMonotone(a: real, b: real, k: real)
    requires a <= b && k >= 0.0
    ensures a * k <= b * k
  {
    assert b * k - a * k == (b - a) * k;
  }

  /** With non-negative factors, more transactions never forecast fewer tickets. */
  lemma ForecastMonotoneInTxns(txns: real, txns': real, avgTix: real, tierW: real, giveW: real, dowW: real, paceMed: real)
    requires txns <= txns' && avgTix >= 0.0 && tierW >= 0.0 && giveW >= 0.0 && dowW >= 0.0
    requires PaceAdjustment(paceMed) >= 0.0
    ensures ForecastTickets(txns, avgTix, tierW, giveW, dowW, paceMed)
         <= ForecastTickets(txns', avgTix, tierW, giveW, dowW, paceMed)
  {
    var rest := avgTix * tierW * giveW * dowW * PaceAdjustment(paceMed);
    assert rest >= 0.0 by {
      assert avgTix * tierW >= 0.0;
      assert avgTix * tierW * giveW >= 0.0;
      assert avgTix * tierW * giveW * dowW >= 0.0;
    }
    ProductMonotone(txns, txns', rest);
    assert txns * avgTix * tierW * giveW * dowW * PaceAdjustment(paceMed) == txns * rest;
    assert txns' * avgTix * tierW * giveW * dowW * PaceAdjustment(paceMed) == txns' * rest;
  }

  /** With non-negative factors, a higher median pace never forecasts fewer tickets. */
  lemma ForecastMonotoneInPace(txns: real, avgTix: real, tierW: real, giveW: real, dowW: real, paceMed: real, paceMed': real)
    requires paceMed <= paceMed' && txns >= 0.0 && avgTix >= 0.0 && tierW >= 0.0 && giveW >= 0.0 && dowW >= 0.0
    ensures ForecastTickets(txns, avgTix, tierW, giveW, dowW, paceMed)
         <= ForecastTickets(txns, avgTix, tierW, giveW, dowW, paceMed')
  {
    var base := txns * avgTix * tierW * giveW * dowW;
    assert base >= 0.0 by {
      assert txns * avgTix >= 0.0;
      assert txns * avgTix * tierW >= 0.0;
      assert txns * avgTix * tierW * giveW >= 0.0;
    }
    ProductMonotone(PaceAdjustment(paceMed), PaceAdjustment(paceMed'), base);
  }

  /** A larger forecast never shows less progress. */
  lemma ProgressMonotone(tickets: real, tickets': real)
    requires tickets <= tickets'
    ensures ProgressPct(tickets) <= ProgressPct(tickets')
  {
    DivideMonotone(tickets, tickets', GoalTickets);
    ClipMonotone(tickets / GoalTickets * 100.0, tickets' / GoalTickets * 100.0, 0.0, 100.0);
  }

  // ---- Status ----

  datatype Status = Danger | OnPace | Strong

  /** The if/elif on the scenario share against P25 and P75: below P25 is Danger, in
      [P25, P75) On Pace, everything else Strong. */
  function Classify(share: real, p25: real, p75: real): (s: Status)
    ensures s == Danger <==> share < p25
    ensures s == OnPace <==> p25 <= share < p75
    ensures s == Strong <==> p25 <= share && p75 <= share
  {
    if share < p25 then Danger
    else if share < p75 then OnPace
    else Strong
  }

  function StatusRank(s: Status): nat
  {
    match s
    case Danger => 0
    case OnPace => 1
    case Strong => 2
  }

  /** Ties go to the higher band: a share equal to P25 is On Pace (when P25 < P75) and one
      equal to P75 is Strong (when P25 <= P75). */
  lemma ClassifyTies(p25: real, p75: real)
    ensures p25 < p75 ==> Classify(p25, p25, p75) == OnPace
    ensures p25 <= p75 ==> Classify(p75, p25, p75) == Strong
  {
  }

  /** A higher share never gets a lower status. */
  lemma ClassifyMonotone(share: real, share': real, p25: real, p75: real)
    requires share <= share'
    ensures StatusRank(Classify(share, p25, p75)) <= StatusRank(Classify(share', p25, p75))
  {
  }

  // ---- One evaluation of the scenario controls ----

  datatype Outcome = Outcome(
    paceMed: real,
    forecast: Forecast,
    share: real,
    p25: real,
    p75: real,
    status: Status)

  /** Everything the page computes from the controls, the weights and the selected curve. */
  function EvaluateScenario(
    c: seq<Knot>, tierWeights: map<string, real>, giveawayWeights: map<string, real>, dowWeights: map<string, real>,
    day: real, txns: real, avgTix: real, tier: string, giveaway: string, dayOfWeek: string): (o: Outcome)
    requires ValidCurve(c)
    ensures o.paceMed == Lookup(c, Median, day) && o.p25 == Lookup(c, P25, day) && o.p75 == Lookup(c, P75, day)
    ensures o.share == ScenarioCumShare(day, txns, avgTix,
      WeightOf(tierWeights, tier), WeightOf(giveawayWeights, giveaway), WeightOf(dowWeights, dayOfWeek))
    ensures ShareFloor <= o.share <= ShareCeiling
    ensures o.forecast == MakeForecast(txns, avgTix,
      WeightOf(tierWeights, tier), WeightOf(giveawayWeights, giveaway), WeightOf(dowWeights, dayOfWeek), o.paceMed)
    ensures o.forecast.tickets + o.forecast.gap == GoalTickets
    ensures 0.0 <= o.forecast.progressPct <= 100.0
    ensures o.status == Danger <==> o.share < o.p25
    ensures o.status == OnPace <==> o.p25 <= o.share < o.p75
    ensures o.status == Strong <==> o.p25 <= o.share && o.p75 <= o.share
  {
    var tierW := WeightOf(tierWeights, tier);
    var giveW := WeightOf(giveawayWeights, giveaway);
    var dowW := WeightOf(dowWeights, dayOfWeek);
    var paceMed := Lookup(c, Median, day);
    var share := ScenarioCumShare(day, txns, avgTix, tierW, giveW, dowW);
    var p25 := Lookup(c, P25, day);
    var p75 := Lookup(c, P75, day);
    Outcome(paceMed, MakeForecast(txns, avgTix, tierW, giveW, dowW, paceMed), share, p25, p75, Classify(share, p25, p75))
  }

  /** A Medium cohort curve with P25 0.35 and P75 0.65 on day 60: a share of 0.40 there is
      On Pace and a share of 0.30 is Danger. */
  lemma MediumCohortExample(c: seq<Knot>, k: nat)
    requires ValidCurve(c) && k < |c| && c[k] == Knot(60.0, 0.35, 0.50, 0.65)
    ensures Classify(0.40, Lookup(c, P25, 60.0), Lookup(c, P75, 60.0)) == OnPace
    ensures Classify(0.30, Lookup(c, P25, 60.0), Lookup(c, P75, 60.0)) == Danger
  {
    LookupAtKnot(c, P25, k);
    LookupAtKnot(c, P75, k);
  }
}

/** `scenario_cum_share`: the scenario controls blended into a cumulative-share-like momentum
    score that is compared against the pacing band. */
module Momentum {
  import opened Numeric
  import opened Weights

  // Ranges each control is normalised by.
  const DayRange: real := 240.0
  const TxnRange: real := 800.0
  const AvgTixRange: real := 6.0

  /** The score never reaches 0 or 1. */
  const ShareFloor: real := 0.02
  const ShareCeiling: real := 0.999

  /** A category weight moved from [WeightLo, WeightHi] onto [0, 1]. */
  function NormalizeWeight(w: real): (r: real)
    ensures 0.0 <= r <= 1.0
    ensures w <= WeightLo ==> r == 0.0
    ensures w >= WeightHi ==> r == 1.0
    ensures WeightLo <= w <= WeightHi ==> r * (WeightHi - WeightLo) == w - WeightLo
  {
    Clip((w - WeightLo) / (WeightHi - WeightLo), 0.0, 1.0)
  }

  /** The weighted blend of the normalised controls; the weights sum to 1. */
  function Blend(day: real, txns: real, avgTix: real, tierW: real, giveW: real, dowW: real): (m: real)
    ensures 0.0 <= m <= 1.0
  {
    0.40 * Clip(day / DayRange, 0.0, 1.0)
    + 0.20 * Clip(txns / TxnRange, 0.0, 1.0)
    + 0.15 * Clip(avgTix / AvgTixRange, 0.0, 1.0)
    + 0.15 * NormalizeWeight(tierW)
    + 0.05 * NormalizeWeight(giveW)
    + 0.05 * NormalizeWeight(dowW)
  }

  /** `scenario_cum_share(day, txns, avg_tix, tier_w, give_w, dow_w)`: always within
      [ShareFloor, ShareCeiling]. */
  function ScenarioCumShare(day: real, txns: real, avgTix: real, tierW: real, giveW: real, dowW: real): (r: real)
    ensures ShareFloor <= r <= ShareCeiling
  {
    Clip(Blend(day, txns, avgTix, tierW, giveW, dowW), ShareFloor, ShareCeiling)
  }

  /** The score is non-decreasing in each control: raising any of them never lowers it. */
  lemma ScenarioCumShareMonotone(
    day: real, txns: real, avgTix: real, tierW: real, giveW: real, dowW: real,
    day': real, txns': real, avgTix': real, tierW': real, giveW': real, dowW': real)
    requires day <= day' && txns <= txns' && avgTix <= avgTix'
    requires tierW <= tierW' && giveW <= giveW' && dowW <= dowW'
    ensures ScenarioCumShare(day, txns, avgTix, tierW, giveW, dowW)
         <= ScenarioCumShare(day', txns', avgTix', tierW', giveW', dowW')
  {
    DivideMonotone(day, day', DayRange);
    DivideMonotone(txns, txns', TxnRange);
    DivideMonotone(avgTix, avgTix', AvgTixRange);
    var span := WeightHi - WeightLo;
    DivideMonotone(tierW - WeightLo, tierW' - WeightLo, span);
    DivideMonotone(giveW - WeightLo, giveW' - WeightLo, span);
    DivideMonotone(dowW - WeightLo, dowW' - WeightLo, span);
    ClipMonotone(day / DayRange, day' / DayRange, 0.0, 1.0);
    ClipMonotone(txns / TxnRange, txns' / TxnRange, 0.0, 1.0);
    ClipMonotone(avgTix / AvgTixRange, avgTix' / AvgTixRange, 0.0, 1.0);
    ClipMonotone((tierW - WeightLo) / span, (tierW' - WeightLo) / span, 0.0, 1.0);
    ClipMonotone((giveW - WeightLo) / span, (giveW' - WeightLo) / span, 0.0, 1.0);
    ClipMonotone((dowW - WeightLo) / span, (dowW' - WeightLo) / span, 0.0, 1.0);
    ClipMonotone(Blend(day, txns, avgTix, tierW, giveW, dowW), Blend(day', txns', avgTix', tierW', giveW', dowW'),
      ShareFloor, ShareCeiling);
  }

  /** Every control at or past the top of its range gives the ceiling; every control at or
      below the bottom of its range gives the floor. */
  lemma ScenarioCumShareExtremes(day: real, txns: real, avgTix: real, tierW: real, giveW: real, dowW: real)
    ensures day >= DayRange && txns >= TxnRange && avgTix >= AvgTixRange
         && tierW >= WeightHi && giveW >= WeightHi && dowW >= WeightHi
         ==> ScenarioCumShare(day, txns, avgTix, tierW, giveW, dowW) == ShareCeiling
    ensures day <= 0.0 && txns <= 0.0 && avgTix <= 0.0
         && tierW <= WeightLo && giveW <= WeightLo && dowW <= WeightLo
         ==> ScenarioCumShare(day, txns, avgTix, tierW, giveW, dowW) == ShareFloor
  {
    var span := WeightHi - WeightLo;
    if day >= DayRange && txns >= TxnRange && avgTix >= AvgTixRange
       && tierW >= WeightHi && giveW >= WeightHi && dowW >= WeightHi {
      DivideMonotone(DayRange, day, DayRange);
      DivideMonotone(TxnRange, txns, TxnRange);
      DivideMonotone(AvgTixRange, avgTix, AvgTixRange);
      DivideMonotone(span, tierW - WeightLo, span);
      DivideMonotone(span, giveW - WeightLo, span);
      DivideMonotone(span, dowW - WeightLo, span);
    }
    if day <= 0.0 && txns <= 0.0 && avgTix <= 0.0
       && tierW <= WeightLo && giveW <= WeightLo && dowW <= WeightLo {
      DivideMonotone(day, 0.0, DayRange);
      DivideMonotone(txns, 0.0, TxnRange);
      DivideMonotone(avgTix, 0.0, AvgTixRange);
      DivideMonotone(tierW - WeightLo, 0.0, span);
      DivideMonotone(giveW - WeightLo, 0.0, span);
      DivideMonotone(dowW - WeightLo, 0.0, span);
    }
  }
}

# Ticket-sales pacing and forecast engine

A Dafny model of the computation inside the Cleveland Cavaliers ticket-sales dashboard
(`cavs_dashboard_interactive.py`). The dashboard:

- loads per-event daily ticket rows;
- gives each row its event's running ticket total, total and cumulative share;
- buckets each event into a Short/Medium/Long sales-window cohort;
- turns per-category mean ticket ratios into weights in [0.75, 1.25];
- for a scenario (days on sale, transactions, tickets per transaction, tier, giveaway, weekday), forecasts tickets against a goal of 2500;
- scores the scenario's momentum and classifies it against the P25/P75 band of a pacing curve.

Quantities are `real`, so floating-point rounding is not modelled. The 1e-12 spread threshold is the named constant `Weights.Epsilon`.

Modules, one per part of the engine:

- `Rows` (rows.dfy): parsed rows (`RawRow`, `RawTable`), the column defaults and `dropna`.
- `Ordering` (ordering.dfy): the (event, day) sort. Event names compare character by character, as Python compares strings. The sort is an insertion sort proved sorted and a permutation.
- `Loader` (loader.dfy): `load_data`. One loop keeps a running total and a running maximum day per event in maps keyed by event name, which is what `groupby(...).cumsum()`, `transform("sum")` and `max()` compute. A second loop writes the derived columns. Also the `bucket` function.
- `Weights` (weights.dfy): `minmax_scale_dict`, the per-category means of `compute_weights`, its `setdefault` loops (a map-update loop), and the `.get(label, 1.0)` lookups.
- `Momentum` (momentum.dfy): `scenario_cum_share`.
- `Pacing` (pacing.dfy): the edge-clamped `np.interp` lookup, the forecast, the progress percentage, the status classifier, and one full scenario evaluation.
- `Numeric` (numeric.dfy): `np.clip` on a scalar. `Wrappers` (wrappers.dfy): `Option`.

The code does not do the following, and neither does the model:

- Drop rows with negative days or tickets.
- Smooth pacing curves with a running maximum. Monotonicity of the lookup in the day is therefore proved only for a band that is already non-decreasing (`Pacing.LookupMonotone`).
- Weigh a theme dimension.
- Give each row of a table without `event_name` its own identifier. Every such row goes into the one event `Unknown_Event`.
- Fill an empty ratio map with 1.0 for a known label set. The empty map is returned unchanged.
- Replace non-finite ratios.

## Model

| member | source | states |
|---|---|---|
| Weights.MinMaxScale | cavs_dashboard_interactive.py:19-32 | the key set is unchanged; an empty map comes back empty; a spread below 1e-12 sends every key to 1.0 |
| Weights.MinMaxScaleBounds | cavs_dashboard_interactive.py:28-32 | outside the degenerate cases every value lies in [lo, hi], a minimum-ratio key maps to exactly lo and a maximum-ratio key to exactly hi |
| Weights.MinMaxScaleOrder | cavs_dashboard_interactive.py:28-32 | the scaled values keep the order of the ratios, strictly when lo < hi and the spread is not degenerate |
| Weights.MinMaxScaleLinear | cavs_dashboard_interactive.py:21-32 | outside the degenerate cases, every weight is `ScaleValue` of its ratio between the smallest and the largest ratio, and those two differ |
| Weights.ScaleValueEnds | cavs_dashboard_interactive.py:31 | `ScaleValue`, the linear rescale of one ratio, sends the minimum ratio to exactly lo and the maximum to exactly hi |
| Weights.ScaleValueMonotone | cavs_dashboard_interactive.py:31 | `ScaleValue` never reverses the order of two ratios when lo <= hi |
| Weights.ScaleValueGap | cavs_dashboard_interactive.py:31 | the rescale is linear: the gap between two rescaled ratios times the spread is the gap between the ratios times (hi - lo) |
| Weights.MinMaxScaleWithin | cavs_dashboard_interactive.py:19-32 | when 1.0 lies in [lo, hi], every scaled value lies in [lo, hi], degenerate or not |
| Weights.SetMin | cavs_dashboard_interactive.py:28 | `np.min` of the ratios: a member of the set no larger than any other |
| Weights.SetMax | cavs_dashboard_interactive.py:28 | `np.max` of the ratios: a member of the set no smaller than any other |
| Weights.Base | cavs_dashboard_interactive.py:114 | the divisor is always positive, so every group ratio is defined |
| Weights.Relative | cavs_dashboard_interactive.py:113-118 | a mean relative to the positive base: the value that, times the base, gives the mean |
| Weights.RelativeOrder | cavs_dashboard_interactive.py:116-118 | a larger mean never gives a smaller relative value, and the other way round |
| Weights.RawRatios | cavs_dashboard_interactive.py:116-118 | one ratio per group label present in the rows, each the label's mean daily tickets relative to the base |
| Weights.RawRatiosOrder | cavs_dashboard_interactive.py:116-118 | a label's ratio is at most another's exactly when its mean daily tickets are at most the other's |
| Weights.WeightFollowsMean | cavs_dashboard_interactive.py:116-122 | a label with higher mean daily tickets never gets a lower scaled weight |
| Weights.UniformTicketsGiveNeutralWeights | cavs_dashboard_interactive.py:112-122 | when every row sold the same number of tickets, every label of a category gets weight 1.0 |
| Weights.AddDefaults | cavs_dashboard_interactive.py:124-130 | after the `setdefault` loop every listed label is present, labels that were missing get exactly 1.0, present labels keep their scaled value, no key is removed |
| Weights.ComputeWeights | cavs_dashboard_interactive.py:112-132 | the three weight maps are the scaled ratios with the fixed tier, giveaway and weekday labels filled in, and every weight lies in [0.75, 1.25] |
| Weights.WeightOf | cavs_dashboard_interactive.py:197-199 | the label's weight, or 1.0 for a missing label; within [0.75, 1.25] when the map is |
| Numeric.Clip | cavs_dashboard_interactive.py:40-45 | the clipped value lies in [lo, hi], equals x inside the interval and the nearer end outside it |
| Numeric.ClipMonotone | cavs_dashboard_interactive.py:56 | clipping never reverses the order of two inputs |
| Momentum.NormalizeWeight | cavs_dashboard_interactive.py:43-45 | a category weight mapped onto [0, 1]: 0 at or below 0.75, 1 at or above 1.25, and linear in between |
| Momentum.Blend | cavs_dashboard_interactive.py:39-55 | the weighted blend of the six normalised controls lies in [0, 1] |
| Momentum.ScenarioCumShare | cavs_dashboard_interactive.py:34-56 | the score always lies in [0.02, 0.999] |
| Momentum.ScenarioCumShareMonotone | cavs_dashboard_interactive.py:34-56 | the score is non-decreasing in each of day, txns, avg_tix, tier_w, give_w and dow_w |
| Momentum.ScenarioCumShareExtremes | cavs_dashboard_interactive.py:40-56 | controls at the top of their ranges give exactly 0.999; controls at the bottom give exactly 0.02 |
| Rows.CompleteIndices | cavs_dashboard_interactive.py:79 | the positions of exactly the rows with both numeric cells present, in increasing order |
| Rows.DropIncomplete | cavs_dashboard_interactive.py:68-79 | the j-th kept row is the j-th row with both numeric cells present, so exactly those rows are kept, each as often as it occurs and in table order, each with an absent event, tier, giveaway or day_of_sale column filled with Unknown_Event, Unknown, None or Unknown |
| Rows.AllCompleteKeepsAll | cavs_dashboard_interactive.py:79 | when no numeric cell is missing, every row is kept, row j as the j-th kept row |
| Ordering.SortSales | cavs_dashboard_interactive.py:80 | the rows come back sorted by (event, day) and as a permutation of the input |
| Ordering.Insert | cavs_dashboard_interactive.py:80 | inserting into a sorted sequence keeps it sorted and adds exactly the one row |
| Ordering.StrLeTransitive | cavs_dashboard_interactive.py:80 | the string order used for event names is transitive |
| Ordering.KeyLeTotal | cavs_dashboard_interactive.py:80 | any two rows are comparable under the (event, day) key |
| Loader.Accumulate | cavs_dashboard_interactive.py:83-84 | the first pass writes each row's running event total and ends with every event's total and largest day |
| Loader.LoadData | cavs_dashboard_interactive.py:62-101 | the loaded rows are the cleaned rows in (event, day) order, each with its running total, event total, cumulative share (0 for a zero total), sales window and cohort |
| Loader.RunningTotalStep | cavs_dashboard_interactive.py:83 | `RunningTotal`, the `groupby("event_name").cumsum()` column: the running total of a row is its own tickets for the event's first row, and otherwise the previous same-event row's running total plus its own tickets |
| Loader.CumTicketsRunningSum | cavs_dashboard_interactive.py:83 | cum_tickets is the previous row of the same event's value plus the row's own tickets, or the row's own tickets for the event's first row |
| Loader.ShareInUnitInterval | cavs_dashboard_interactive.py:83-88 | with non-negative tickets, 0 <= cum_tickets <= total_tickets, the share lies in [0, 1], and a zero total gives share 0 |
| Loader.Share | cavs_dashboard_interactive.py:86-88 | `cum_share`: 0 when the event total is 0, and otherwise the value whose product with the total is cum_tickets |
| Loader.ZeroTotalShareIsZero | cavs_dashboard_interactive.py:86-88 | for tickets of any sign, a zero event total gives share 0, and otherwise share times total is cum_tickets |
| Loader.LastRowShareIsOne | cavs_dashboard_interactive.py:83-88 | the last row of an event with a non-zero total has cum_tickets equal to the total and share exactly 1 |
| Loader.ShareNonDecreasing | cavs_dashboard_interactive.py:83-88 | with non-negative tickets, cum_tickets and the share never drop from one row of an event to a later one |
| Loader.ShareNonDecreasingInDay | cavs_dashboard_interactive.py:80-88 | after loading, with non-negative tickets, an event's share never drops as days since on-sale grow |
| Loader.EventTotalAfterLast | cavs_dashboard_interactive.py:84 | `EventTotal`, the `transform("sum")` column: a prefix that reaches past the event's last row already has the whole event's total |
| Loader.EventTotalPrefixMonotone | cavs_dashboard_interactive.py:84 | `EventTotal`: with non-negative tickets, a longer prefix never has a smaller event total |
| Loader.MaxDayIsMaximum | cavs_dashboard_interactive.py:91 | `MaxDay`, the `groupby("event_name")["days_since_onsale"].max()` window: it exists exactly when the event has a row, equals one of its days, and is at least each of them |
| Loader.WindowIsEventMaximum | cavs_dashboard_interactive.py:91-100 | every loaded row carries its event's largest day as sales window, so its cohort is the one covering that window and never Unknown |
| Loader.CohortLabelInjective | cavs_dashboard_interactive.py:94-99 | the four `sales_window_group` labels are distinct, so the label determines the cohort |
| Loader.Bucket | cavs_dashboard_interactive.py:94-99 | `bucket`: the cohort is Unknown exactly when the window is missing, and otherwise covers the window (<=30 Short, (30, 90] Medium, >90 Long) |
| Loader.BucketExact | cavs_dashboard_interactive.py:94-99 | a missing window is Unknown; a present window lands in exactly the cohort whose interval covers it (<=30 Short, (30, 90] Medium, >90 Long) |
| Loader.BucketMonotone | cavs_dashboard_interactive.py:94-99 | a longer window never lands in a shorter cohort |
| Pacing.Lookup | cavs_dashboard_interactive.py:202-206 | a day at or below the first knot gives the first value; a day at or above the last knot gives the last value |
| Pacing.LookupAtKnot | cavs_dashboard_interactive.py:202-206 | a day exactly on a knot gives that knot's value |
| Pacing.LookupBetweenKnots | cavs_dashboard_interactive.py:202-206 | a day between two neighbouring knots gives a value between theirs |
| Pacing.SegmentLinear | cavs_dashboard_interactive.py:201-206 | the segment between two knots is the straight line through them: value times the knot gap equals the two knot values weighted by the distances to the other knot |
| Pacing.LookupLinear | cavs_dashboard_interactive.py:201-206 | between two neighbouring knots, ends included, the lookup is the segment through them, which is the linear interpolation `np.interp` computes |
| Pacing.LookupMonotone | cavs_dashboard_interactive.py:202-206 | on a band whose values never decrease along the curve, the lookup never decreases as the day grows |
| Pacing.LookupOrdered | cavs_dashboard_interactive.py:265-274 | interpolation keeps two bands ordered when they are ordered at every knot, e.g. P25 <= P75 |
| Pacing.ProgressPct | cavs_dashboard_interactive.py:211 | progress lies in [0, 100], is 100 exactly when the forecast reaches the goal and 0 exactly when the forecast is <= 0, and is forecast/goal*100 in between |
| Pacing.MakeForecast | cavs_dashboard_interactive.py:209-211 | the forecast is txns * avg_tix * tier_w * give_w * dow_w * (0.70 + 0.60 * pace_med), its progress is `ProgressPct` of it, forecast plus gap is the goal, progress lies in [0, 100], and the gap is <= 0 exactly when progress is 100 |
| Pacing.ForecastMonotoneInTxns | cavs_dashboard_interactive.py:209 | `ForecastTickets`, the line-209 product: with non-negative factors, more transactions never forecast fewer tickets |
| Pacing.ForecastMonotoneInPace | cavs_dashboard_interactive.py:209 | `ForecastTickets`: with non-negative factors, a higher median pace never forecasts fewer tickets |
| Pacing.ProgressMonotone | cavs_dashboard_interactive.py:211 | a larger forecast never shows less progress |
| Pacing.Classify | cavs_dashboard_interactive.py:276-281 | Danger exactly when the share is below P25, On Pace exactly when it lies in [P25, P75), Strong otherwise |
| Pacing.ClassifyTies | cavs_dashboard_interactive.py:276-281 | a share equal to P25 is On Pace (when P25 < P75); one equal to P75 is Strong |
| Pacing.ClassifyMonotone | cavs_dashboard_interactive.py:276-281 | a higher share never gets a lower status |
| Pacing.EvaluateScenario | cavs_dashboard_interactive.py:197-281 | the scenario's median pace, P25 and P75 are the lookups at the chosen day; the share is `ScenarioCumShare` of the controls and of the tier, giveaway and weekday weights looked up with default 1.0, and lies in [0.02, 0.999]; the forecast is `MakeForecast` of the same controls and weights and the median pace; forecast plus gap is the goal; progress lies in [0, 100]; the status compares the share with the interpolated band |
| Pacing.MediumCohortExample | cavs_dashboard_interactive.py:265-281 | on a curve with P25 0.35 and P75 0.65 at day 60, a share of 0.40 is On Pace and 0.30 is Danger |

## Left out

- Streamlit page setup, sidebar widgets, `st.error`/`st.stop` and `@st.cache_data` (lines 10-12, 103-106, 157-178, 190-192). These are UI and framework plumbing. The curve precondition `Pacing.ValidCurve` (non-empty) stands for the `st.stop` on an empty curve.
- `pd.read_csv` and `pd.to_numeric` (lines 63-66). Rows arrive parsed, with each numeric cell `Some(value)` or `None`. A missing required column amounts to every cell of it being `None`, so every row is dropped.
- Cells of a present categorical column that are NaN. pandas `groupby` drops them, but the model assumes every text cell of a present column holds a value.
- `precompute_pacing` (lines 140-150): the pandas `groupby(...).quantile` internals. The "All Games" mean of the cohort curves (line 185) and the cohort filter (line 188) are left out too. The selected curve is taken as a given sequence of `(day, p25, median, p75)` knots with strictly increasing days.
- Plotly gauge and line charts, the feature-importance table and the markdown insights (lines 224-342). These are presentation only. So is the `int(round(...))` of the KPI cards.
- Ordering.SortSales: the contract does not state the order of rows with the same (event, day) key. The insertion places each row before the rows with an equal key that follow it in the table, so ties keep table order as pandas' stable sort does, but no ensures says so. Every property proved here holds for any order of such rows.
- Loader.LoadData: the `total_tickets` column holds NaN in the source when an event's total is 0. The model keeps 0 there and applies the NaN-then-0 rule inside `Loader.Share`.
- IEEE floating-point rounding, overflow and NaN propagation. The model uses `real` arithmetic.

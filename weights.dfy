/** Data-driven category weights: `minmax_scale_dict` and `compute_weights`. */
module Weights {
  import opened Rows
  import Numeric

  /** Spread below which a ratio map counts as all-equal (1e-12). */
  const Epsilon: real := 0.000000000001
  const WeightLo: real := 0.75
  const WeightHi: real := 1.25
  /** The weight of a label nothing is known about. */
  const Neutral: real := 1.0

  // Labels `compute_weights` guarantees a weight for.
  const TierDefaults: seq<string> := ["A+", "A", "B", "C", "D", "Unknown"]
  const GiveawayDefaults: seq<string> := ["None", "T-Shirt", "Bobblehead", "Poster", "Unknown"]
  const DayOfSaleDefaults: seq<string> :=
    ["Sunday", "Monday", "Tuesday", "Wednesday", "Thursday", "Friday", "Saturday", "Unknown"]

  // ---- Minimum and maximum of the ratios (np.min, np.max) ----

  lemma HasElement(s: set<real>)
    requires s != {}
    ensures exists y :: y in s
  {
    if forall y :: y !in s {
      assert false;
    }
  }

  lemma {:induction false} HasLeast(s: set<real>)
    requires s != {}
    ensures exists m :: m in s && forall x :: x in s ==> m <= x
    decreases |s|
  {
    HasElement(s);
    var y :| y in s;
    var rest := s - {y};
    if rest != {} {
      HasLeast(rest);
      var m :| m in rest && forall x :: x in rest ==> m <= x;
      var b := if y < m then y else m;
      forall x | x in s ensures b <= x {
        if x != y { assert x in rest; }
      }
      assert b in s;
    } else {
      forall x | x in s ensures y <= x {
        assert x == y || x in rest;
      }
    }
  }

  lemma {:induction false} HasGreatest(s: set<real>)
    requires s != {}
    ensures exists m :: m in s && forall x :: x in s ==> x <= m
    decreases |s|
  {
    HasElement(s);
    var y :| y in s;
    var rest := s - {y};
    if rest != {} {
      HasGreatest(rest);
      var m :| m in rest && forall x :: x in rest ==> x <= m;
      var b := if m < y then y else m;
      forall x | x in s ensures x <= b {
        if x != y { assert x in rest; }
      }
      assert b in s;
    } else {
      forall x | x in s ensures x <= y {
        assert x == y || x in rest;
      }
    }
  }

  function SetMin(s: set<real>): (m: real)
    requires s != {}
    ensures m in s && forall x :: x in s ==> m <= x
  {
    HasLeast(s);
    var m :| m in s && forall x :: x in s ==> m <= x;
    m
  }

  function SetMax(s: set<real>): (m: real)
    requires s != {}
    ensures m in s && forall x :: x in s ==> x <= m
  {
    HasGreatest(s);
    var m :| m in s && forall x :: x in s ==> x <= m;
    m
  }

  lemma ValuesNonEmpty(m: map<string, real>)
    requires m != map[]
    ensures m.Values != {}
  {
    var k :| k in m;
    assert m[k] in m.Values;
  }

  /** `vmax - vmin` over the ratios of a non-empty map. */
  function Spread(m: map<string, real>): (d: real)
    requires m != map[]
    ensures d >= 0.0
    ensures forall a, b :: a in m && b in m ==> m[b] - m[a] <= d
  {
    ValuesNonEmpty(m);
    assert forall k :: k in m ==> m[k] in m.Values;
    SetMax(m.Values) - SetMin(m.Values)
  }

  // ---- minmax_scale_dict ----

  /** `lo + (v - vmin) * (hi - lo) / (vmax - vmin)`. */
  function ScaleValue(v: real, vmin: real, vmax: real, lo: real, hi: real): real
    requires vmin < vmax
  {
    lo + (v - vmin) * (hi - lo) / (vmax - vmin)
  }

  /** `minmax_scale_dict(values, lo, hi)`: an empty map comes back unchanged, a map whose
      ratios are all within Epsilon of each other maps every label to Neutral, and otherwise
      each ratio is rescaled linearly so the smallest becomes lo and the largest hi. */
  function MinMaxScale(m: map<string, real>, lo: real, hi: real): (r: map<string, real>)
    ensures r.Keys == m.Keys
    ensures m == map[] ==> r == map[]
    ensures m != map[] && Spread(m) < Epsilon ==> forall k :: k in r ==> r[k] == Neutral
  {
    if m == map[] then m
    else
      ValuesNonEmpty(m);
      var vmin := SetMin(m.Values);
      var vmax := SetMax(m.Values);
      if vmax - vmin < Epsilon then map k | k in m :: Neutral
      else map k | k in m :: ScaleValue(m[k], vmin, vmax, lo, hi)
  }

  lemma ScaleValueMonotone(u: real, v: real, vmin: real, vmax: real, lo: real, hi: real)
    requires vmin < vmax && lo <= hi && u <= v
    ensures ScaleValue(u, vmin, vmax, lo, hi) <= ScaleValue(v, vmin, vmax, lo, hi)
    ensures lo < hi && u < v ==> ScaleValue(u, vmin, vmax, lo, hi) < ScaleValue(v, vmin, vmax, lo, hi)
  {
    var d := vmax - vmin;
    assert (v - vmin) * (hi - lo) - (u - vmin) * (hi - lo) == (v - u) * (hi - lo);
    assert (v - u) * (hi - lo) >= 0.0;
    assert lo < hi && u < v ==> (v - u) * (hi - lo) > 0.0;
    assert (v - vmin) * (hi - lo) / d - (u - vmin) * (hi - lo) / d == (v - u) * (hi - lo) / d;
  }

  lemma ScaleValueEnds(vmin: real, vmax: real, lo: real, hi: real)
    requires vmin < vmax
    ensures ScaleValue(vmin, vmin, vmax, lo, hi) == lo
    ensures ScaleValue(vmax, vmin, vmax, lo, hi) == hi
  {
    var d := vmax - vmin;
    assert d * (hi - lo) / d == hi - lo;
  }

  /** Outside the degenerate cases: every weight lies in [lo, hi], a label with the smallest
      ratio gets exactly lo and one with the largest ratio exactly hi. */
  lemma MinMaxScaleBounds(m: map<string, real>, lo: real, hi: real)
    requires lo <= hi && m != map[] && Spread(m) >= Epsilon
    ensures forall k :: k in m ==> lo <= MinMaxScale(m, lo, hi)[k] <= hi
    ensures forall k :: k in m && (forall j :: j in m ==> m[k] <= m[j]) ==> MinMaxScale(m, lo, hi)[k] == lo
    ensures forall k :: k in m && (forall j :: j in m ==> m[j] <= m[k]) ==> MinMaxScale(m, lo, hi)[k] == hi
  {
    var r := MinMaxScale(m, lo, hi);
    ValuesNonEmpty(m);
    var vmin, vmax := SetMin(m.Values), SetMax(m.Values);
    ScaleValueEnds(vmin, vmax, lo, hi);
    forall k | k in m
      ensures lo <= r[k] <= hi
      ensures (forall j :: j in m ==> m[k] <= m[j]) ==> r[k] == lo
      ensures (forall j :: j in m ==> m[j] <= m[k]) ==> r[k] == hi
    {
      assert m[k] in m.Values;
      ScaleValueMonotone(vmin, m[k], vmin, vmax, lo, hi);
      ScaleValueMonotone(m[k], vmax, vmin, vmax, lo, hi);
      var kmin :| kmin in m && m[kmin] == vmin;
      var kmax :| kmax in m && m[kmax] == vmax;
    }
  }

  /** The weights keep the order of the ratios, strictly when lo < hi outside the degenerate case. */
  lemma MinMaxScaleOrder(m: map<string, real>, lo: real, hi: real, a: string, b: string)
    requires lo <= hi && a in m && b in m && m[a] <= m[b]
    ensures MinMaxScale(m, lo, hi)[a] <= MinMaxScale(m, lo, hi)[b]
    ensures lo < hi && m[a] < m[b] && Spread(m) >= Epsilon ==>
      MinMaxScale(m, lo, hi)[a] < MinMaxScale(m, lo, hi)[b]
  {
    ValuesNonEmpty(m);
    var vmin, vmax := SetMin(m.Values), SetMax(m.Values);
    if vmax - vmin >= Epsilon {
      ScaleValueMonotone(m[a], m[b], vmin, vmax, lo, hi);
    }
  }

  /** The rescale is linear: the gap between two rescaled ratios, times the spread, is the gap
      between the ratios times (hi - lo). */
  lemma ScaleValueGap(u: real, v: real, vmin: real, vmax: real, lo: real, hi: real)
    requires vmin < vmax
    ensures (ScaleValue(v, vmin, vmax, lo, hi) - ScaleValue(u, vmin, vmax, lo, hi)) * (vmax - vmin)
         == (v - u) * (hi - lo)
  {
    var d := vmax - vmin;
    var p, q := (v - vmin) * (hi - lo), (u - vmin) * (hi - lo);
    Numeric.QuotientTimesDivisor(p, d);
    Numeric.QuotientTimesDivisor(q, d);
    assert (lo + p / d - (lo + q / d)) * d == p / d * d - q / d * d;
    assert p - q == (v - u) * (hi - lo);
  }

  /** Outside the degenerate cases every weight is the linear rescale of its ratio between the
      smallest ratio (kmin's) and the largest (kmax's). */
  lemma MinMaxScaleLinear(m: map<string, real>, lo: real, hi: real, k: string, kmin: string, kmax: string)
    requires m != map[] && Spread(m) >= Epsilon && k in m && kmin in m && kmax in m
    requires forall j :: j in m ==> m[kmin] <= m[j] <= m[kmax]
    ensures m[kmin] < m[kmax]
    ensures MinMaxScale(m, lo, hi)[k] == ScaleValue(m[k], m[kmin], m[kmax], lo, hi)
  {
    ValuesNonEmpty(m);
    var vmin, vmax := SetMin(m.Values), SetMax(m.Values);
    assert m[kmin] in m.Values && m[kmax] in m.Values;
    var j :| j in m && m[j] == vmin;
    var i :| i in m && m[i] == vmax;
    assert vmin == m[kmin] && vmax == m[kmax];
  }

  /** When Neutral lies in [lo, hi], every weight does, degenerate or not. */
  lemma MinMaxScaleWithin(m: map<string, real>, lo: real, hi: real)
    requires lo <= Neutral <= hi
    ensures forall k :: k in MinMaxScale(m, lo, hi) ==> lo <= MinMaxScale(m, lo, hi)[k] <= hi
  {
    if m != map[] && Spread(m) >= Epsilon {
      MinMaxScaleBounds(m, lo, hi);
    }
  }

  // ---- Per-category means relative to the global mean ----

  function TotalTickets(s: seq<Sale>): real
  {
    if s == [] then 0.0 else TotalTickets(s[..|s| - 1]) + s[|s| - 1].tickets
  }

  /** pandas `mean()` of `daily_tickets` over a non-empty selection. */
  function Mean(s: seq<Sale>): real
    requires s != []
  {
    TotalTickets(s) / (|s| as real)
  }

  /** The rows of one category group, in order. */
  function Select(s: seq<Sale>, d: Dimension, key: string): (r: seq<Sale>)
    ensures forall x :: x in r <==> x in s && Category(x, d) == key
  {
    if s == [] then []
    else (if Category(s[0], d) == key then [s[0]] else []) + Select(s[1..], d, key)
  }

  /** The group keys of `groupby(column)`. */
  function Labels(s: seq<Sale>, d: Dimension): set<string>
  {
    set x | x in s :: Category(x, d)
  }

  function GroupMean(s: seq<Sale>, d: Dimension, key: string): real
    requires key in Labels(s, d)
  {
    var x :| x in s && Category(x, d) == key;
    assert x in Select(s, d, key);
    Mean(Select(s, d, key))
  }

  /** The divisor: the global mean when positive, else 1.0 (the mean of no rows is NaN). */
  function Base(s: seq<Sale>): (b: real)
    ensures b > 0.0
  {
    if s != [] && Mean(s) > 0.0 then Mean(s) else 1.0
  }

  /** `groupby(column)["daily_tickets"].mean() / base`, as a map from label to ratio. */
  /** A mean relative to a positive base: the value that, times the base, gives the mean. A
      larger mean is never relatively smaller, and the other way round. */
  function Relative(mean: real, base: real): (r: real)
    requires base > 0.0
    ensures r * base == mean
  {
    Numeric.QuotientTimesDivisor(mean, base);
    mean / base
  }

  lemma RelativeOrder(x: real, y: real, base: real)
    requires base > 0.0
    ensures x <= y <==> Relative(x, base) <= Relative(y, base)
  {
    if x <= y {
      Numeric.DivideMonotone(x, y, base);
    } else {
      assert x / base - y / base == (x - y) / base;
    }
  }

  function RawRatios(s: seq<Sale>, d: Dimension): (m: map<string, real>)
    ensures m.Keys == Labels(s, d)
    ensures forall k :: k in m ==> m[k] == Relative(GroupMean(s, d, k), Base(s))
  {
    map k | k in Labels(s, d) :: Relative(GroupMean(s, d, k), Base(s))
  }

  /** A label whose rows sell more tickets per day on average never gets a smaller ratio, and
      the other way round. */
  lemma RawRatiosOrder(s: seq<Sale>, d: Dimension, a: string, b: string)
    requires a in Labels(s, d) && b in Labels(s, d)
    ensures GroupMean(s, d, a) <= GroupMean(s, d, b) <==> RawRatios(s, d)[a] <= RawRatios(s, d)[b]
  {
    RelativeOrder(GroupMean(s, d, a), GroupMean(s, d, b), Base(s));
  }

  /** So a label with higher mean daily tickets never gets a lower weight. */
  lemma WeightFollowsMean(s: seq<Sale>, d: Dimension, a: string, b: string)
    requires a in Labels(s, d) && b in Labels(s, d) && GroupMean(s, d, a) <= GroupMean(s, d, b)
    ensures MinMaxScale(RawRatios(s, d), WeightLo, WeightHi)[a] <= MinMaxScale(RawRatios(s, d), WeightLo, WeightHi)[b]
  {
    RawRatiosOrder(s, d, a, b);
    MinMaxScaleOrder(RawRatios(s, d), WeightLo, WeightHi, a, b);
  }

  lemma {:induction false} TotalOfConstant(s: seq<Sale>, c: real)
    requires forall x :: x in s ==> x.tickets == c
    ensures TotalTickets(s) == (|s| as real) * c
    decreases |s|
  {
    if s != [] {
      var p := s[..|s| - 1];
      assert forall x :: x in p ==> x in s;
      TotalOfConstant(p, c);
    }
  }

  lemma MeanOfConstant(s: seq<Sale>, c: real)
    requires s != [] && forall x :: x in s ==> x.tickets == c
    ensures Mean(s) == c
  {
    TotalOfConstant(s, c);
    var n := |s| as real;
    assert n * c / n == c;
  }

  /** When every row sold the same number of tickets, every label of every category is
      weighted Neutral. */
  lemma UniformTicketsGiveNeutralWeights(s: seq<Sale>, c: real, d: Dimension, lo: real, hi: real)
    requires forall i :: 0 <= i < |s| ==> s[i].tickets == c
    ensures forall k :: k in MinMaxScale(RawRatios(s, d), lo, hi) ==> MinMaxScale(RawRatios(s, d), lo, hi)[k] == Neutral
  {
    var m := RawRatios(s, d);
    if m != map[] {
      forall k | k in m
        ensures m[k] == c / Base(s)
      {
        var sel := Select(s, d, k);
        var x :| x in s && Category(x, d) == k;
        assert x in sel;
        MeanOfConstant(sel, c);
      }
      var a, b := SetMin(m.Values), SetMax(m.Values);
      assert a == c / Base(s) && b == c / Base(s);
    }
  }

  // ---- compute_weights ----

  /** w is `scaled` after a `setdefault(label, 1.0)` for each label: the labels are added,
      only the missing ones get Neutral, nothing is removed and no present value changes. */
  ghost predicate Defaulted(scaled: map<string, real>, labels: seq<string>, w: map<string, real>)
  {
    && w.Keys == scaled.Keys + (set k | k in labels)
    && (forall k :: k in scaled ==> w[k] == scaled[k])
    && (forall k :: k in w && k !in scaled ==> w[k] == Neutral)
  }

  /** One `for k in labels: w.setdefault(k, 1.0)` loop. */
  method AddDefaults(scaled: map<string, real>, labels: seq<string>) returns (w: map<string, real>)
    ensures Defaulted(scaled, labels, w)
  {
    w := scaled;
    for i := 0 to |labels|
      invariant w.Keys == scaled.Keys + (set j | 0 <= j < i :: labels[j])
      invariant forall k :: k in scaled ==> w[k] == scaled[k]
      invariant forall k :: k in w && k !in scaled ==> w[k] == Neutral
    {
      if labels[i] !in w {
        w := w[labels[i] := Neutral];
      }
    }
    assert (set j | 0 <= j < |labels| :: labels[j]) == (set k | k in labels);
  }

  /** Every weight of w lies in [WeightLo, WeightHi]. */
  predicate InBand(w: map<string, real>)
  {
    forall k :: k in w ==> WeightLo <= w[k] <= WeightHi
  }

  lemma DefaultedInBand(scaled: map<string, real>, labels: seq<string>, w: map<string, real>)
    requires Defaulted(scaled, labels, w) && InBand(scaled)
    ensures InBand(w)
  {
  }

  /** `compute_weights(df)` over the sale fields of the loaded rows: per tier, giveaway and
      day-of-sale label, the scaled ratio of its mean daily tickets to the global mean, with the
      fixed label lists filled in at Neutral; every weight ends in [WeightLo, WeightHi]. */
  method ComputeWeights(s: seq<Sale>) returns (tierW: map<string, real>, giveW: map<string, real>, dowW: map<string, real>)
    ensures Defaulted(MinMaxScale(RawRatios(s, TierDim), WeightLo, WeightHi), TierDefaults, tierW)
    ensures Defaulted(MinMaxScale(RawRatios(s, GiveawayDim), WeightLo, WeightHi), GiveawayDefaults, giveW)
    ensures Defaulted(MinMaxScale(RawRatios(s, DayOfSaleDim), WeightLo, WeightHi), DayOfSaleDefaults, dowW)
    ensures InBand(tierW) && InBand(giveW) && InBand(dowW)
  {
    var tierScaled := MinMaxScale(RawRatios(s, TierDim), WeightLo, WeightHi);
    var giveScaled := MinMaxScale(RawRatios(s, GiveawayDim), WeightLo, WeightHi);
    var dowScaled := MinMaxScale(RawRatios(s, DayOfSaleDim), WeightLo, WeightHi);
    MinMaxScaleWithin(RawRatios(s, TierDim), WeightLo, WeightHi);
    MinMaxScaleWithin(RawRatios(s, GiveawayDim), WeightLo, WeightHi);
    MinMaxScaleWithin(RawRatios(s, DayOfSaleDim), WeightLo, WeightHi);
    tierW := AddDefaults(tierScaled, TierDefaults);
    giveW := AddDefaults(giveScaled, GiveawayDefaults);
    dowW := AddDefaults(dowScaled, DayOfSaleDefaults);
    DefaultedInBand(tierScaled, TierDefaults, tierW);
    DefaultedInBand(giveScaled, GiveawayDefaults, giveW);
    DefaultedInBand(dowScaled, DayOfSaleDefaults, dowW);
  }

  /** `weights.get(label, 1.0)`: the label's weight, or Neutral for a label without one. */
  function WeightOf(w: map<string, real>, key: string): (r: real)
    ensures key in w ==> r == w[key]
    ensures key !in w ==> r == Neutral
    ensures InBand(w) ==> WeightLo <= r <= WeightHi
  {
    if key in w then w[key] else Neutral
  }
}

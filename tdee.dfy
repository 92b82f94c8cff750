/**
 * `estimate_tdee_from_logs`: re-estimates daily energy expenditure from logged intake and weight
 * with 7-row rolling windows (7700 kcal per kg of body mass), clamped to 70 %..130 % of a baseline.
 */
module Tdee {
  import opened Wrappers
  import opened Numerics
  import opened Logs

  const KcalPerKg: real := 7700.0

  /** A row `dropna(subset=["kcal_in", "weight_kg"])` keeps. */
  predicate HasIntakeAndWeight(e: LogEntry) {
    e.kcalIn.Some? && e.weightKg.Some?
  }

  /** The (kcal_in, weight_kg) pair of a kept row. */
  function IntakeAndWeight(e: LogEntry): (real, real)
    requires HasIntakeAndWeight(e)
  {
    (e.kcalIn.value as real, e.weightKg.value)
  }

  /**
   * `dropna(subset=["kcal_in", "weight_kg"])`: the (kcal_in, weight_kg) of the rows having both,
   * in order (see `CompleteRowsAppend`).
   */
  function CompleteRows(rows: seq<LogEntry>): (c: seq<(real, real)>)
    ensures |c| <= |rows|
    ensures forall e | e in rows && HasIntakeAndWeight(e) :: IntakeAndWeight(e) in c
    ensures forall x | x in c :: exists e | e in rows :: HasIntakeAndWeight(e) && x == IntakeAndWeight(e)
  {
    if rows == [] then []
    else
      var e := rows[0];
      assert forall d | d in rows[1..] :: d in rows;
      (if HasIntakeAndWeight(e) then [IntakeAndWeight(e)] else []) + CompleteRows(rows[1..])
  }

  /** The filter keeps the order of the rows: it distributes over concatenation. */
  lemma {:induction false} CompleteRowsAppend(a: seq<LogEntry>, b: seq<LogEntry>)
    ensures CompleteRows(a + b) == CompleteRows(a) + CompleteRows(b)
  {
    if a != [] {
      assert (a + b)[1..] == a[1..] + b;
      CompleteRowsAppend(a[1..], b);
    } else {
      assert a + b == b;
    }
  }

  function Kcals(c: seq<(real, real)>): (xs: seq<real>)
    ensures |xs| == |c|
  {
    seq(|c|, j requires 0 <= j < |c| => c[j].0)
  }

  function Weights(c: seq<(real, real)>): (xs: seq<real>)
    ensures |xs| == |c|
  {
    seq(|c|, j requires 0 <= j < |c| => c[j].1)
  }

  /** `xs[lo] + ... + xs[hi - 1]`. */
  function Sum(xs: seq<real>, lo: int, hi: int): real
    requires 0 <= lo <= hi <= |xs|
    decreases hi - lo
  {
    if lo == hi then 0.0 else Sum(xs, lo, hi - 1) + xs[hi - 1]
  }

  /** `rolling(7)` has a value at row `i` when rows `i - 6 .. i` exist. */
  predicate RollingDefined(i: int) {
    i >= 6
  }

  /**
   * Row `i` survives the final `dropna`: its 7-row sum and mean exist and so does the
   * mean 7 rows later (`shift(-7)`).
   */
  predicate WindowKept(i: int, n: int) {
    RollingDefined(i) && i + 7 < n && RollingDefined(i + 7)
  }

  /** The kept rows among `0 .. k - 1` of a frame of `n` rows, in order. */
  function KeptWindows(n: int, k: nat): (w: seq<int>)
    ensures forall i :: i in w <==> 0 <= i < k && WindowKept(i, n)
    ensures |w| == (var hi := if k < n - 7 then k else n - 7; if hi > 6 then hi - 6 else 0)
  {
    if k == 0 then []
    else KeptWindows(n, k - 1) + (if WindowKept(k - 1, n) then [k - 1] else [])
  }

  /** The 7-row intake sum ending at row `i` (`kcal_in_7d`). */
  function KcalWeek(c: seq<(real, real)>, i: int): real
    requires 6 <= i < |c|
  {
    Sum(Kcals(c), i - 6, i + 1)
  }

  /** The 7-row mean weight ending at row `i` (`wt_7d`). */
  function WeightWeek(c: seq<(real, real)>, i: int): real
    requires 6 <= i < |c|
  {
    Sum(Weights(c), i - 6, i + 1) / 7.0
  }

  /** The implied 7-day expenditure at row `i`: intake minus the energy of the weight change. */
  function ImpliedWeek(c: seq<(real, real)>, i: int): real
    requires WindowKept(i, |c|)
  {
    KcalWeek(c, i) - KcalPerKg * (WeightWeek(c, i + 7) - WeightWeek(c, i))
  }

  function SumImplied(c: seq<(real, real)>, w: seq<int>): real
    requires forall i :: i in w ==> WindowKept(i, |c|)
  {
    if w == [] then 0.0 else SumImplied(c, w[..|w| - 1]) + ImpliedWeek(c, w[|w| - 1])
  }

  /** The unclamped estimate: the mean implied weekly expenditure over the kept rows, per day. */
  function RawTdee(c: seq<(real, real)>): real
    requires |c| >= 14
  {
    var w := KeptWindows(|c|, |c|);
    SumImplied(c, w) / |w| as real / 7.0
  }

  /**
   * Exactly `|c| - 13` rows are kept, and the unclamped estimate is the sum of their implied weekly
   * expenditures spread over that many weeks of 7 days.
   */
  lemma RawTdeeIsDailyMean(c: seq<(real, real)>)
    requires |c| >= 14
    ensures |KeptWindows(|c|, |c|)| == |c| - 13
    ensures 7.0 * (|c| - 13) as real * RawTdee(c) == SumImplied(c, KeptWindows(|c|, |c|))
  {
    var w := KeptWindows(|c|, |c|);
    DailyMeanTimesDays(SumImplied(c, w), |w|);
  }

  lemma DailyMeanTimesDays(sum: real, n: nat)
    requires n > 0
    ensures 7.0 * n as real * (sum / n as real / 7.0) == sum
  {
  }

  /** `max(base * 0.7, min(base * 1.3, x))`. */
  function Clamp(x: real, base: int): (r: real)
    ensures base >= 0 ==> 0.7 * base as real <= r <= 1.3 * base as real
    ensures base >= 0 && 0.7 * base as real <= x <= 1.3 * base as real ==> r == x
    ensures x <= 0.7 * base as real ==> r == 0.7 * base as real
    ensures base >= 0 && x >= 1.3 * base as real ==> r == 1.3 * base as real
  {
    MaxReal(base as real * 0.7, MinReal(base as real * 1.3, x))
  }

  /** For a non-negative baseline the rounded clamp lies between the rounded band ends. */
  lemma RoundedClampBounds(x: real, base: int)
    ensures base >= 0 ==>
              RoundHalfEven(0.7 * base as real) <= RoundHalfEven(Clamp(x, base)) <= RoundHalfEven(1.3 * base as real)
  {
    if base >= 0 {
      RoundHalfEvenMonotone(0.7 * base as real, Clamp(x, base));
      RoundHalfEvenMonotone(Clamp(x, base), 1.3 * base as real);
    }
  }

  /**
   * `estimate_tdee_from_logs(df, base)` over frame rows already in date order. The code asks for
   * 10 complete rows, but a row is only kept with 7 rows of history and 7 rows ahead, so fewer
   * than 14 complete rows always give `None`. Otherwise the clamped estimate, rounded half to even.
   */
  function EstimateTdee(rows: seq<LogEntry>, base: int): (r: Option<int>)
    ensures r.Some? <==> |CompleteRows(rows)| >= 14
    ensures r.Some? ==> r.value == RoundHalfEven(Clamp(RawTdee(CompleteRows(rows)), base))
    ensures r.Some? && base >= 0 ==>
              RoundHalfEven(0.7 * base as real) <= r.value <= RoundHalfEven(1.3 * base as real)
  {
    var c := CompleteRows(rows);
    if |c| < 10 then None
    else
      var w := KeptWindows(|c|, |c|);
      if w == [] then None
      else
        var tdee := SumImplied(c, w) / |w| as real / 7.0;
        var clamped := Clamp(tdee, base);
        RoundedClampBounds(tdee, base);
        Some(RoundHalfEven(clamped))
  }

  /** Ten to thirteen complete rows pass the explicit length check and still give `None`. */
  lemma TenToThirteenRowsGiveNone(rows: seq<LogEntry>, base: int)
    requires 10 <= |CompleteRows(rows)| < 14
    ensures EstimateTdee(rows, base).None?
  {
  }

  lemma {:induction false} SumConstant(xs: seq<real>, lo: int, hi: int, v: real)
    requires 0 <= lo <= hi <= |xs|
    requires forall j :: lo <= j < hi ==> xs[j] == v
    ensures Sum(xs, lo, hi) == (hi - lo) as real * v
  {
    if lo < hi {
      SumConstant(xs, lo, hi - 1, v);
    }
  }

  predicate Step7(xs: seq<real>, j: int, delta: real)
    requires 0 <= j && j + 7 < |xs|
  {
    xs[j + 7] - xs[j] == delta
  }

  /** Shifting a sum by 7 rows adds `delta` per term when every term grows by `delta` over 7 rows. */
  lemma {:induction false} SumShift(xs: seq<real>, lo: int, hi: int, delta: real)
    requires 0 <= lo <= hi && hi + 7 <= |xs|
    requires forall j :: lo <= j < hi ==> Step7(xs, j, delta)
    ensures Sum(xs, lo + 7, hi + 7) - Sum(xs, lo, hi) == (hi - lo) as real * delta
  {
    if lo < hi {
      SumShift(xs, lo, hi - 1, delta);
      assert Step7(xs, hi - 1, delta);
    }
  }

  /** Weight changes by `delta` kg from complete row `j` to row `j + 7`. */
  predicate WeightTrend(c: seq<(real, real)>, j: int, delta: real)
    requires 0 <= j < |c| - 7
  {
    c[j + 7].1 - c[j].1 == delta
  }

  /** One kept row under a steady trend: the implied week is `7 * k - 7700 * delta`. */
  lemma ImpliedWeekOfTrend(c: seq<(real, real)>, i: int, k: real, delta: real)
    requires WindowKept(i, |c|)
    requires forall j :: 0 <= j < |c| ==> c[j].0 == k
    requires forall j :: 0 <= j < |c| - 7 ==> WeightTrend(c, j, delta)
    ensures ImpliedWeek(c, i) == 7.0 * k - KcalPerKg * delta
  {
    var ks, ws := Kcals(c), Weights(c);
    assert forall j :: i - 6 <= j < i + 1 ==> ks[j] == k;
    SumConstant(ks, i - 6, i + 1, k);
    forall j | i - 6 <= j < i + 1
      ensures Step7(ws, j, delta)
    {
      assert WeightTrend(c, j, delta);
    }
    SumShift(ws, i - 6, i + 1, delta);
    var later, now := Sum(ws, i + 1, i + 8), Sum(ws, i - 6, i + 1);
    assert later - now == 7.0 * delta;
    assert WeightWeek(c, i + 7) - WeightWeek(c, i) == later / 7.0 - now / 7.0;
  }

  /** `n` copies of `v` added up. */
  function Repeat(v: real, n: nat): real {
    if n == 0 then 0.0 else Repeat(v, n - 1) + v
  }

  lemma {:induction false} RepeatIsProduct(v: real, n: nat)
    ensures Repeat(v, n) == n as real * v
  {
    if n > 0 {
      RepeatIsProduct(v, n - 1);
      assert (n - 1) as real * v + v == n as real * v;
    }
  }

  /** The mean of `n` copies of `v` is `v`. */
  lemma RepeatMean(v: real, n: nat)
    requires n > 0
    ensures Repeat(v, n) / n as real == v
  {
    RepeatIsProduct(v, n);
  }

  lemma {:induction false} TrendSumImplied(c: seq<(real, real)>, w: seq<int>, k: real, delta: real, v: real)
    requires v == 7.0 * k - KcalPerKg * delta
    requires forall i :: i in w ==> WindowKept(i, |c|)
    requires forall j :: 0 <= j < |c| ==> c[j].0 == k
    requires forall j :: 0 <= j < |c| - 7 ==> WeightTrend(c, j, delta)
    ensures SumImplied(c, w) == Repeat(v, |w|)
  {
    if w != [] {
      TrendSumImplied(c, w[..|w| - 1], k, delta, v);
      ImpliedWeekOfTrend(c, w[|w| - 1], k, delta);
    }
  }

  lemma MeanOfTrend(c: seq<(real, real)>, w: seq<int>, k: real, delta: real)
    requires w != []
    requires forall i :: i in w ==> WindowKept(i, |c|)
    requires forall j :: 0 <= j < |c| ==> c[j].0 == k
    requires forall j :: 0 <= j < |c| - 7 ==> WeightTrend(c, j, delta)
    ensures SumImplied(c, w) / |w| as real / 7.0 == k - KcalPerKg * delta / 7.0
  {
    var v := 7.0 * k - KcalPerKg * delta;
    TrendSumImplied(c, w, k, delta, v);
    RepeatMean(v, |w|);
  }

  lemma RawTdeeOfTrend(c: seq<(real, real)>, k: real, delta: real)
    requires |c| >= 14
    requires forall j :: 0 <= j < |c| ==> c[j].0 == k
    requires forall j :: 0 <= j < |c| - 7 ==> WeightTrend(c, j, delta)
    ensures RawTdee(c) == k - KcalPerKg * delta / 7.0
  {
    MeanOfTrend(c, KeptWindows(|c|, |c|), k, delta);
  }

  /**
   * Energy balance: with the same intake `k` on every complete row and weight changing by `delta`
   * kg every 7 rows, the estimate is `k - 7700 * delta / 7` clamped and rounded; with steady weight
   * it is the intake itself.
   */
  lemma SteadyTrendEstimate(rows: seq<LogEntry>, base: int, k: real, delta: real)
    requires |CompleteRows(rows)| >= 14
    requires forall j :: 0 <= j < |CompleteRows(rows)| ==> CompleteRows(rows)[j].0 == k
    requires forall j :: 0 <= j < |CompleteRows(rows)| - 7 ==> WeightTrend(CompleteRows(rows), j, delta)
    ensures EstimateTdee(rows, base) == Some(RoundHalfEven(Clamp(k - KcalPerKg * delta / 7.0, base)))
  {
    var c := CompleteRows(rows);
    RawTdeeOfTrend(c, k, delta);
    var x := k - KcalPerKg * delta / 7.0;
    assert RawTdee(c) == x;
    assert EstimateTdee(rows, base).value == RoundHalfEven(Clamp(RawTdee(c), base));
  }
}

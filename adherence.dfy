/**
 * `adherence_tune`: how often the recent logs met the kcal and protein goals, and the calorie
 * adjustment that follows. The window is the last 14 rows in `utils.py` and `new.py` and the last
 * 7 rows in `healthylife_app/utils.py`; it is a parameter here.
 */
module Adherence {
  import opened Wrappers
  import opened Numerics
  import opened Logs

  datatype Adherence = Adherence(kcalRate: real, proteinRate: real, kcalAdjust: int)

  /** The rows `df.tail(n)` keeps: the last `n`, or all of them when there are fewer. */
  function Tail<T>(rows: seq<T>, n: nat): (r: seq<T>)
    ensures |r| == if |rows| <= n then |rows| else n
    ensures r == rows[|rows| - |r|..]
  {
    if |rows| <= n then rows else rows[|rows| - n..]
  }

  /** A row `dropna(subset=["kcal_in", "protein_g"])` keeps. */
  predicate HasIntakeAndProtein(e: LogEntry) {
    e.kcalIn.Some? && e.proteinG.Some?
  }

  /** The (kcal_in, protein_g) pair of a kept row. */
  function IntakeAndProtein(e: LogEntry): (int, int)
    requires HasIntakeAndProtein(e)
  {
    (e.kcalIn.value, e.proteinG.value)
  }

  /**
   * `dropna(subset=["kcal_in", "protein_g"])`: the (kcal_in, protein_g) of the rows having both,
   * in order (see `CompleteIntakeAppend`).
   */
  function CompleteIntake(rows: seq<LogEntry>): (c: seq<(int, int)>)
    ensures |c| <= |rows|
    ensures forall e | e in rows && HasIntakeAndProtein(e) :: IntakeAndProtein(e) in c
    ensures forall x | x in c :: exists e | e in rows :: HasIntakeAndProtein(e) && x == IntakeAndProtein(e)
  {
    if rows == [] then []
    else
      var e := rows[0];
      assert forall d | d in rows[1..] :: d in rows;
      (if HasIntakeAndProtein(e) then [IntakeAndProtein(e)] else []) + CompleteIntake(rows[1..])
  }

  /** The filter keeps the order of the rows: it distributes over concatenation. */
  lemma {:induction false} CompleteIntakeAppend(a: seq<LogEntry>, b: seq<LogEntry>)
    ensures CompleteIntake(a + b) == CompleteIntake(a) + CompleteIntake(b)
  {
    if a != [] {
      assert (a + b)[1..] == a[1..] + b;
      CompleteIntakeAppend(a[1..], b);
    } else {
      assert a + b == b;
    }
  }

  /** `goals.get(key)` read as a target: a missing key and 0 are both "no target". */
  function Target(goals: map<string, int>, key: string): int {
    if key in goals then goals[key] else 0
  }

  /** `kcal_in.between(0.95 * t, 1.05 * t)`: inclusive at both ends. */
  predicate KcalInBand(kcal: int, target: int) {
    0.95 * target as real <= kcal as real <= 1.05 * target as real
  }

  /** `protein_g >= 0.9 * p`. */
  predicate ProteinMet(protein: int, target: int) {
    protein as real >= 0.9 * target as real
  }

  /** The number of rows whose kcal is in the band (see `CountInBandCounts`). */
  function CountInBand(c: seq<(int, int)>, target: int): (n: nat)
    ensures n <= |c|
  {
    if c == [] then 0 else CountInBand(c[..|c| - 1], target) + (if KcalInBand(c[|c| - 1].0, target) then 1 else 0)
  }

  /** The number of rows meeting the protein target (see `CountProteinMetCounts`). */
  function CountProteinMet(c: seq<(int, int)>, target: int): (n: nat)
    ensures n <= |c|
  {
    if c == [] then 0 else CountProteinMet(c[..|c| - 1], target) + (if ProteinMet(c[|c| - 1].1, target) then 1 else 0)
  }

  /** The positions of the rows whose kcal is in the band. */
  ghost function InBandDays(c: seq<(int, int)>, target: int): set<int> {
    set i | 0 <= i < |c| && KcalInBand(c[i].0, target)
  }

  /** The positions of the rows meeting the protein target. */
  ghost function ProteinMetDays(c: seq<(int, int)>, target: int): set<int> {
    set i | 0 <= i < |c| && ProteinMet(c[i].1, target)
  }

  /** `CountInBand` is the number of in-band rows, wherever they are. */
  lemma {:induction false} CountInBandCounts(c: seq<(int, int)>, target: int)
    ensures CountInBand(c, target) == |InBandDays(c, target)|
  {
    if c == [] {
      assert InBandDays(c, target) == {};
    } else {
      var p := c[..|c| - 1];
      CountInBandCounts(p, target);
      var last := if KcalInBand(c[|c| - 1].0, target) then {|c| - 1} else {};
      assert InBandDays(c, target) == InBandDays(p, target) + last;
      assert InBandDays(p, target) !! last;
    }
  }

  /** `CountProteinMet` is the number of rows meeting the protein target, wherever they are. */
  lemma {:induction false} CountProteinMetCounts(c: seq<(int, int)>, target: int)
    ensures CountProteinMet(c, target) == |ProteinMetDays(c, target)|
  {
    if c == [] {
      assert ProteinMetDays(c, target) == {};
    } else {
      var p := c[..|c| - 1];
      CountProteinMetCounts(p, target);
      var last := if ProteinMet(c[|c| - 1].1, target) then {|c| - 1} else {};
      assert ProteinMetDays(c, target) == ProteinMetDays(p, target) + last;
      assert ProteinMetDays(p, target) !! last;
    }
  }

  /** Counting is additive over consecutive stretches of rows. */
  lemma {:induction false} CountInBandAppend(a: seq<(int, int)>, b: seq<(int, int)>, target: int)
    ensures CountInBand(a + b, target) == CountInBand(a, target) + CountInBand(b, target)
  {
    if b == [] {
      assert a + b == a;
    } else {
      assert (a + b)[..|a + b| - 1] == a + b[..|b| - 1];
      CountInBandAppend(a, b[..|b| - 1], target);
    }
  }

  lemma {:induction false} CountProteinMetAppend(a: seq<(int, int)>, b: seq<(int, int)>, target: int)
    ensures CountProteinMet(a + b, target) == CountProteinMet(a, target) + CountProteinMet(b, target)
  {
    if b == [] {
      assert a + b == a;
    } else {
      assert (a + b)[..|a + b| - 1] == a + b[..|b| - 1];
      CountProteinMetAppend(a, b[..|b| - 1], target);
    }
  }

  /** `series.mean()` of a boolean series: the share of true rows. */
  function Rate(hits: nat, total: nat): (r: real)
    requires hits <= total && total > 0
    ensures 0.0 <= r <= 1.0
    ensures r * total as real == hits as real
    ensures r == 1.0 <==> hits == total
    ensures r == 0.0 <==> hits == 0
  {
    RateBounds(hits, total);
    hits as real / total as real
  }

  lemma RateBounds(hits: nat, total: nat)
    requires hits <= total && total > 0
    ensures 0.0 <= hits as real / total as real <= 1.0
    ensures hits as real / total as real == 1.0 <==> hits == total
    ensures hits as real / total as real == 0.0 <==> hits == 0
  {
    var q := hits as real / total as real;
    assert q * total as real == hits as real;
  }

  /**
   * -100 kcal when fewer than 40 % of the days were in the band, +100 when more than 80 % were,
   * nothing in between. Both tests are made, and at most one of them can hold.
   */
  function KcalAdjust(rate: real): (a: int)
    ensures a == -100 || a == 0 || a == 100
    ensures a == -100 <==> rate < 0.4
    ensures a == 100 <==> rate > 0.8
  {
    (if rate < 0.4 then -100 else 0) + (if rate > 0.8 then 100 else 0)
  }

  /** A higher adherence rate never gives a lower adjustment. */
  lemma KcalAdjustMonotone(r1: real, r2: real)
    requires r1 <= r2
    ensures KcalAdjust(r1) <= KcalAdjust(r2)
  {
  }

  /**
   * `adherence_tune(df, goals)` with a window of `window` rows. `None` for an empty frame, empty
   * goals, a missing or zero kcal or protein target, or no complete row among the last `window`
   * rows (the window is taken first and filtered second). Otherwise the shares of the complete
   * rows within 5 % of the kcal target and at 90 % of the protein target, and the adjustment.
   */
  function AdherenceTune(rows: seq<LogEntry>, goals: map<string, int>, window: nat): (r: Option<Adherence>)
    ensures r.None? <==> rows == [] || goals == map[] || CompleteIntake(Tail(rows, window)) == []
                         || Target(goals, "kcal") == 0 || Target(goals, "protein_g") == 0
    ensures r.Some? ==> 0.0 <= r.value.kcalRate <= 1.0 && 0.0 <= r.value.proteinRate <= 1.0
    ensures r.Some? ==> r.value.kcalAdjust == KcalAdjust(r.value.kcalRate)
    ensures r.Some? ==>
              var c := CompleteIntake(Tail(rows, window));
              && c != []
              && r.value.kcalRate == Rate(CountInBand(c, Target(goals, "kcal")), |c|)
              && r.value.proteinRate == Rate(CountProteinMet(c, Target(goals, "protein_g")), |c|)
    ensures r.Some? ==> "kcal" in goals && goals["kcal"] != 0
  {
    if rows == [] || goals == map[] then None
    else
      var c := CompleteIntake(Tail(rows, window));
      if c == [] then None
      else
        var kcalTarget := Target(goals, "kcal");
        var proteinTarget := Target(goals, "protein_g");
        if kcalTarget == 0 || proteinTarget == 0 then None
        else
          var kcalRate := Rate(CountInBand(c, kcalTarget), |c|);
          var proteinRate := Rate(CountProteinMet(c, proteinTarget), |c|);
          Some(Adherence(kcalRate, proteinRate, KcalAdjust(kcalRate)))
  }

  /**
   * Only the last `window` rows matter: a row older than those, complete or not, never changes the
   * result, so an incomplete recent row is not replaced by an older complete one.
   */
  lemma OlderRowsIgnored(older: seq<LogEntry>, rows: seq<LogEntry>, goals: map<string, int>, window: nat)
    requires |rows| >= window
    ensures AdherenceTune(older + rows, goals, window) == AdherenceTune(rows, goals, window)
  {
    assert Tail(older + rows, window) == Tail(rows, window);
  }

  /**
   * The two rates are the shares of the complete rows of the window that are within 5 % of the
   * kcal target and at 90 % of the protein target.
   */
  lemma AdherenceRatesAreShares(rows: seq<LogEntry>, goals: map<string, int>, window: nat, c: seq<(int, int)>)
    requires AdherenceTune(rows, goals, window).Some?
    requires c == CompleteIntake(Tail(rows, window))
    ensures 0 < |c| && |InBandDays(c, Target(goals, "kcal"))| <= |c| && |ProteinMetDays(c, Target(goals, "protein_g"))| <= |c|
    ensures AdherenceTune(rows, goals, window).value.kcalRate == Rate(|InBandDays(c, Target(goals, "kcal"))|, |c|)
    ensures AdherenceTune(rows, goals, window).value.proteinRate
            == Rate(|ProteinMetDays(c, Target(goals, "protein_g"))|, |c|)
  {
    CountInBandCounts(c, Target(goals, "kcal"));
    CountProteinMetCounts(c, Target(goals, "protein_g"));
  }

  lemma {:induction false} CountInBandAll(c: seq<(int, int)>, target: int)
    requires forall i :: 0 <= i < |c| ==> KcalInBand(c[i].0, target)
    ensures CountInBand(c, target) == |c|
  {
    if c != [] {
      CountInBandAll(c[..|c| - 1], target);
    }
  }

  lemma {:induction false} CountInBandNone(c: seq<(int, int)>, target: int)
    requires forall i :: 0 <= i < |c| ==> !KcalInBand(c[i].0, target)
    ensures CountInBand(c, target) == 0
  {
    if c != [] {
      CountInBandNone(c[..|c| - 1], target);
    }
  }

  /**
   * When every complete row `c` of the window is within 5 % of the kcal target, the target goes up
   * by 100.
   */
  lemma FullAdherenceRaisesTarget(rows: seq<LogEntry>, goals: map<string, int>, window: nat, c: seq<(int, int)>)
    requires AdherenceTune(rows, goals, window).Some?
    requires c == CompleteIntake(Tail(rows, window))
    requires forall i :: 0 <= i < |c| ==> KcalInBand(c[i].0, goals["kcal"])
    ensures AdherenceTune(rows, goals, window).value.kcalRate == 1.0
    ensures AdherenceTune(rows, goals, window).value.kcalAdjust == 100
  {
    CountInBandAll(c, goals["kcal"]);
  }

  /** When no complete row `c` of the window is within 5 % of the kcal target, it goes down by 100. */
  lemma NoAdherenceLowersTarget(rows: seq<LogEntry>, goals: map<string, int>, window: nat, c: seq<(int, int)>)
    requires AdherenceTune(rows, goals, window).Some?
    requires c == CompleteIntake(Tail(rows, window))
    requires forall i :: 0 <= i < |c| ==> !KcalInBand(c[i].0, goals["kcal"])
    ensures AdherenceTune(rows, goals, window).value.kcalRate == 0.0
    ensures AdherenceTune(rows, goals, window).value.kcalAdjust == -100
  {
    CountInBandNone(c, goals["kcal"]);
  }
}

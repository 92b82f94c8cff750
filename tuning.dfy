/**
 * The "Smart Tuning" apply steps of the tracker page: the baseline kcal, the TDEE re-estimate over
 * a user's stored logs turned into new goals, and the adherence nudge of the kcal goal.
 */
module Tuning {
  import opened Wrappers
  import opened Numerics
  import opened Dates
  import opened Goals
  import opened Logs
  import opened Tdee
  import Adherence

  /** A stored goals record, `None` when never set; `None` and an empty record are both falsy. */
  predicate HasGoals(goals: Option<map<string, int>>) {
    goals.Some? && goals.value != map[]
  }

  /** `users[email].get("goals") or {}`. */
  function GoalsOrEmpty(goals: Option<map<string, int>>): (g: map<string, int>)
    ensures HasGoals(goals) <==> g != map[]
    ensures HasGoals(goals) ==> g == goals.value
  {
    if HasGoals(goals) then goals.value else map[]
  }

  /**
   * `(goals or auto_goals(profile))["kcal"]`: the stored kcal goal, or the automatic one when no
   * goals are stored; a stored record without "kcal" raises `KeyError`, shown as `None`.
   */
  function BaseKcal(goals: Option<map<string, int>>, p: Profile, today: Date): (r: Option<int>)
    ensures r.None? <==> HasGoals(goals) && "kcal" !in goals.value
    ensures !HasGoals(goals) ==> r == Some(AutoGoals(p, today).kcal)
    ensures HasGoals(goals) && "kcal" in goals.value ==> r == Some(goals.value["kcal"])
  {
    if !HasGoals(goals) then Some(AutoGoals(p, today).kcal)
    else if "kcal" in goals.value then Some(goals.value["kcal"])
    else None
  }

  /** `int(round(target_change * 7700 / 7))`: the daily kcal shift for a weekly weight change. */
  function DailyShift(targetChange: real): (d: int)
    ensures d == RoundHalfEven(1100.0 * targetChange)
    ensures 1100.0 * targetChange - 0.5 <= d as real <= 1100.0 * targetChange + 0.5
  {
    assert targetChange * 7700.0 / 7.0 == 1100.0 * targetChange;
    RoundHalfEven(targetChange * 7700.0 / 7.0)
  }

  /** Losing half a kilogram a week takes 550 kcal a day off the estimate. */
  lemma HalfKiloAWeek()
    ensures DailyShift(-0.5) == -550
  {
    assert -0.5 * 7700.0 / 7.0 == -550.0;
  }

  /** `int((0.30 * new_kcal) / 9)`: 30 % of the energy as fat grams, truncated. */
  function TdeeFat(kcal: int): (f: int)
    ensures kcal >= 0 ==> 0 <= 9 * f <= Trunc(0.30 * kcal as real)
    ensures kcal >= 0 ==> 9.0 * f as real <= 0.30 * kcal as real < 9.0 * (f + 1) as real
    ensures kcal < 0 ==> 9.0 * (f - 1) as real < 0.30 * kcal as real <= 9.0 * f as real
  {
    var f := Trunc(0.30 * kcal as real / 9.0);
    NinthFits(0.30 * kcal as real);
    f
  }

  /** For `x >= 0`, nine times the truncated ninth never exceeds the truncation of `x`. */
  lemma NinthFits(x: real)
    ensures x >= 0.0 ==> 9 * Trunc(x / 9.0) <= Trunc(x)
  {
    if x >= 0.0 {
      assert (9 * Trunc(x / 9.0)) as real <= x;
    }
  }

  /** The kcal left for carbs after `protein` grams and 30 % of `kcal` as fat. */
  function CarbsRemainder(kcal: int, protein: int): int {
    kcal - (protein * 4 + Trunc(0.30 * kcal as real))
  }

  /**
   * The carbs of the TDEE step: the remainder in grams at 4 kcal per gram, truncated toward zero;
   * a negative remainder gives negative carbs, there is no clamp.
   */
  function TdeeCarbs(kcal: int, protein: int): (c: int)
    ensures var rem := CarbsRemainder(kcal, protein);
            rem >= 0 ==> 0 <= 4 * c <= rem < 4 * c + 4
    ensures var rem := CarbsRemainder(kcal, protein);
            rem < 0 ==> rem <= 4 * c <= 0 && 4 * c < rem + 4
  {
    Trunc(CarbsRemainder(kcal, protein) as real / 4.0)
  }

  /**
   * The TDEE apply step as intended: kcal becomes `kcal`, protein 1.8 g per kg of body weight,
   * fat 30 % of kcal and carbs the remainder after the new protein and fat; other goals stay.
   */
  function TdeeGoals(stored: Option<map<string, int>>, weight: real, kcal: int): (g: map<string, int>)
    ensures g.Keys == GoalsOrEmpty(stored).Keys + {"kcal", "protein_g", "fat_g", "carbs_g"}
    ensures forall k :: k in GoalsOrEmpty(stored) && k !in {"kcal", "protein_g", "fat_g", "carbs_g"} ==>
              g[k] == GoalsOrEmpty(stored)[k]
    ensures g["kcal"] == kcal && g["protein_g"] == RoundHalfEven(1.8 * weight)
    ensures g["fat_g"] == TdeeFat(kcal) && g["carbs_g"] == TdeeCarbs(kcal, g["protein_g"])
  {
    var protein := RoundHalfEven(1.8 * weight);
    GoalsOrEmpty(stored)["kcal" := kcal]["protein_g" := protein]["fat_g" := TdeeFat(kcal)]
      ["carbs_g" := TdeeCarbs(kcal, protein)]
  }

  /** The energy of a goals record's macros at 4, 9 and 4 kcal per gram. */
  function MacroEnergy(g: map<string, int>): int
    requires "protein_g" in g && "fat_g" in g && "carbs_g" in g
  {
    4 * g["protein_g"] + 9 * g["fat_g"] + 4 * g["carbs_g"]
  }

  /**
   * The intended goals fit their own kcal goal: whenever the remainder for carbs is not negative,
   * protein, fat and carbs together use at most the kcal goal.
   */
  lemma TdeeGoalsFitBudget(stored: Option<map<string, int>>, weight: real, kcal: int)
    requires kcal >= 0
    requires kcal - (RoundHalfEven(1.8 * weight) * 4 + Trunc(0.30 * kcal as real)) >= 0
    ensures MacroEnergy(TdeeGoals(stored, weight, kcal)) <= kcal
  {
    var g := TdeeGoals(stored, weight, kcal);
    var p := g["protein_g"];
    var rest := kcal - (p * 4 + Trunc(0.30 * kcal as real));
    assert 4 * g["carbs_g"] <= rest;
  }

  /** The outcome of the step as written: the stored goals afterwards, and whether it raised. */
  datatype TdeeApplied = TdeeApplied(goals: Option<map<string, int>>, raised: bool)

  /**
   * The TDEE apply step as written: the dictionary display that updates the goals is built
   * before the update, so the carbs read the protein goal stored BEFORE the step, and raise
   * `KeyError` when there is none. The stored record is updated in place, so on that error a
   * non-empty stored record keeps the new kcal goal while an unset or empty one stays as it was.
   */
  function TdeeGoalsAsWritten(stored: Option<map<string, int>>, weight: real, kcal: int): (r: TdeeApplied)
    ensures r.raised <==> "protein_g" !in GoalsOrEmpty(stored)
    ensures r.raised && !HasGoals(stored) ==> r.goals == stored
    ensures !r.raised ==> r.goals.Some? && {"kcal", "protein_g", "fat_g", "carbs_g"} <= r.goals.value.Keys
                          && r.goals.value["kcal"] == kcal
                          && r.goals.value["protein_g"] == RoundHalfEven(1.8 * weight)
                          && r.goals.value["carbs_g"] == TdeeCarbs(kcal, GoalsOrEmpty(stored)["protein_g"])
                          && r.goals.value["fat_g"] == TdeeFat(kcal)
    ensures !r.raised ==> r.goals.Some?
                          && r.goals.value.Keys == GoalsOrEmpty(stored).Keys + {"kcal", "protein_g", "fat_g", "carbs_g"}
                          && forall k :: k in GoalsOrEmpty(stored) && k !in {"kcal", "protein_g", "fat_g", "carbs_g"} ==>
                               r.goals.value[k] == GoalsOrEmpty(stored)[k]
    ensures r.raised && HasGoals(stored) ==> r.goals == Some(GoalsOrEmpty(stored)["kcal" := kcal])
  {
    var g := GoalsOrEmpty(stored)["kcal" := kcal];
    if "protein_g" !in g then
      TdeeApplied(if HasGoals(stored) then Some(g) else stored, true)
    else
      TdeeApplied(Some(g["protein_g" := RoundHalfEven(1.8 * weight)]["fat_g" := TdeeFat(kcal)]
                    ["carbs_g" := TdeeCarbs(kcal, g["protein_g"])]), false)
  }

  /** Goals of 2000 kcal and 100 g protein for a user of 70 kg. */
  const StaleGoals: map<string, int> := map["kcal" := 2000, "protein_g" := 100, "fat_g" := 66, "carbs_g" := 300]

  lemma RoundProteinAt70()
    ensures RoundHalfEven(1.8 * 70.0) == 126
  {
    assert 1.8 * 70.0 == 126.0;
  }

  lemma EnergyShareAt2000()
    ensures Trunc(0.30 * 2000 as real) == 600 && TdeeFat(2000) == 66
  {
    assert 0.30 * 2000 as real == 600.0;
    assert 0.30 * 2000 as real / 9.0 == 600.0 / 9.0;
  }

  /**
   * Stale protein: with 100 g of protein stored, 70 kg and a new kcal goal of 2000, the step as
   * written stores protein 126 g but carbs 250 g computed from 100 g, 2098 kcal of macros for a
   * 2000 kcal goal; the intended step stores 224 g of carbs, 1994 kcal.
   */
  lemma StaleProteinOverBudget()
    ensures var r := TdeeGoalsAsWritten(Some(StaleGoals), 70.0, 2000);
            !r.raised && r.goals.value["protein_g"] == 126 && r.goals.value["carbs_g"] == 250
            && MacroEnergy(r.goals.value) == 2098
    ensures var g := TdeeGoals(Some(StaleGoals), 70.0, 2000);
            g["carbs_g"] == 224 && MacroEnergy(g) == 1994
  {
    RoundProteinAt70();
    EnergyShareAt2000();
    assert TdeeCarbs(2000, 100) == 250 by {
      assert (2000 - (100 * 4 + 600)) as real / 4.0 == 250.0;
    }
    assert TdeeCarbs(2000, 126) == 224 by {
      assert (2000 - (126 * 4 + 600)) as real / 4.0 == 224.0;
    }
  }

  /** With no goals stored the step as written raises and stores nothing. */
  lemma NoGoalsRaises(weight: real, kcal: int)
    ensures TdeeGoalsAsWritten(None, weight, kcal) == TdeeApplied(None, true)
  {
  }

  /** When the stored protein already equals the new one, the step as written is the intended one. */
  lemma AsWrittenAgreesWhenProteinUnchanged(stored: Option<map<string, int>>, weight: real, kcal: int)
    requires "protein_g" in GoalsOrEmpty(stored) && GoalsOrEmpty(stored)["protein_g"] == RoundHalfEven(1.8 * weight)
    ensures TdeeGoalsAsWritten(stored, weight, kcal) == TdeeApplied(Some(TdeeGoals(stored, weight, kcal)), false)
  {
    var g := GoalsOrEmpty(stored)["kcal" := kcal];
    assert g["protein_g"] == RoundHalfEven(1.8 * weight);
  }

  /** `estimate_tdee_from_logs(email, base)`: the estimate over the user's logs in date order. */
  function StoredTdee(logs: seq<LogEntry>, base: int): (r: Option<int>)
    ensures r == EstimateTdee(LogsToFrame(logs), base)
    ensures r.Some? <==> |CompleteRows(LogsToFrame(logs))| >= 14
  {
    EstimateTdee(LogsToFrame(logs), base)
  }

  lemma {:induction false} InsertKeepsCompleteCount(e: LogEntry, s: seq<LogEntry>)
    requires SortedByDate(s)
    ensures |CompleteRows(InsertByDate(e, s))| == |CompleteRows([e])| + |CompleteRows(s)|
  {
    if s != [] && !DateLe(e.date, s[0].date) {
      assert SortedByDate(s[1..]) by {
        forall i, j | 0 <= i < j < |s[1..]| ensures DateLe(s[1..][i].date, s[1..][j].date) {
          assert s[1..][i] == s[i + 1] && s[1..][j] == s[j + 1];
        }
      }
      InsertKeepsCompleteCount(e, s[1..]);
      CompleteRowsAppend([s[0]], InsertByDate(e, s[1..]));
      CompleteRowsAppend([s[0]], s[1..]);
      assert s == [s[0]] + s[1..];
    } else {
      CompleteRowsAppend([e], s);
    }
  }

  /** Sorting by date keeps the number of complete rows: the order logs were added in does not matter. */
  lemma {:induction false} CompleteCountIgnoresOrder(logs: seq<LogEntry>)
    ensures |CompleteRows(LogsToFrame(logs))| == |CompleteRows(logs)|
  {
    if logs != [] {
      CompleteCountIgnoresOrder(logs[1..]);
      InsertKeepsCompleteCount(logs[0], LogsToFrame(logs[1..]));
      CompleteRowsAppend([logs[0]], logs[1..]);
      assert logs == [logs[0]] + logs[1..];
    }
  }

  /** The stored-log estimate exists exactly when at least 14 logged days have both intake and weight. */
  lemma StoredTdeeNeeds14Days(logs: seq<LogEntry>, base: int)
    ensures StoredTdee(logs, base).Some? <==> |CompleteRows(logs)| >= 14
  {
    CompleteCountIgnoresOrder(logs);
  }

  /** `max(1000, int(goals["kcal"] + kcal_adjust))`: the nudged kcal goal, never below 1000. */
  function NudgedKcal(kcal: int, adjust: int): (k: int)
    ensures k >= 1000
    ensures k == kcal + adjust || (k == 1000 && kcal + adjust < 1000)
  {
    MaxInt(1000, kcal + adjust)
  }

  /**
   * The adherence apply step on a user's logs and goals: with a result whose adjustment is not 0
   * the kcal goal is nudged; otherwise nothing is stored (`None`).
   */
  function AdherenceGoals(logs: seq<LogEntry>, stored: Option<map<string, int>>): (r: Option<map<string, int>>)
    ensures r.Some? ==> HasGoals(stored) && "kcal" in stored.value && "kcal" in r.value
                        && r.value == stored.value["kcal" := r.value["kcal"]]
                        && r.value["kcal"] >= 1000
    ensures r.Some? <==> (var a := Adherence.AdherenceTune(LogsToFrame(logs), GoalsOrEmpty(stored), 14);
                          a.Some? && a.value.kcalAdjust != 0)
    ensures r.Some? ==>
              r.value["kcal"] == NudgedKcal(stored.value["kcal"],
                                            Adherence.AdherenceTune(LogsToFrame(logs), GoalsOrEmpty(stored), 14).value.kcalAdjust)
  {
    var a := Adherence.AdherenceTune(LogsToFrame(logs), GoalsOrEmpty(stored), 14);
    if a.Some? && a.value.kcalAdjust != 0 then
      var g := GoalsOrEmpty(stored);
      Some(g["kcal" := NudgedKcal(g["kcal"], a.value.kcalAdjust)])
    else None
  }

  /**
   * A nudge happens only for a kcal adherence rate above 80 % or below 40 %; it raises the kcal
   * goal by exactly 100 for the former and lowers it by 100 for the latter, down to the 1000 kcal
   * floor.
   */
  lemma NudgeIsSmall(logs: seq<LogEntry>, stored: Option<map<string, int>>)
    requires AdherenceGoals(logs, stored).Some?
    ensures var rate := Adherence.AdherenceTune(LogsToFrame(logs), GoalsOrEmpty(stored), 14).value.kcalRate;
            var k, k' := stored.value["kcal"], AdherenceGoals(logs, stored).value["kcal"];
            && (rate < 0.4 || rate > 0.8)
            && (rate > 0.8 ==> k' == MaxInt(1000, k + 100))
            && (rate < 0.4 ==> k' == MaxInt(1000, k - 100))
  {
    var a := Adherence.AdherenceTune(LogsToFrame(logs), GoalsOrEmpty(stored), 14);
    assert a.value.kcalAdjust == -100 || a.value.kcalAdjust == 100;
  }

  /** `(goals or {}).get("kcal", base)`: the kcal the scenario macros are computed for. */
  function ScenarioKcal(stored: Option<map<string, int>>, base: int): (k: int)
    ensures HasGoals(stored) && "kcal" in stored.value ==> k == stored.value["kcal"]
    ensures !(HasGoals(stored) && "kcal" in stored.value) ==> k == base
  {
    var g := GoalsOrEmpty(stored);
    if "kcal" in g then g["kcal"] else base
  }

  /**
   * The scenario-macro apply step: the page first computes the baseline kcal (which raises,
   * `None`, for a goals record without "kcal"), then writes the recommended protein, fat and carbs
   * for the stored kcal, or the baseline when none is stored, over `goals or {}`.
   */
  function ScenarioGoals(stored: Option<map<string, int>>, p: Profile, today: Date, goal: string)
    : (r: Option<map<string, int>>)
    ensures r.Some? <==> BaseKcal(stored, p, today).Some?
    ensures r.Some? ==> r.value.Keys == GoalsOrEmpty(stored).Keys + {"protein_g", "fat_g", "carbs_g"}
    ensures r.Some? ==> forall k :: k in GoalsOrEmpty(stored) && k !in {"protein_g", "fat_g", "carbs_g"} ==>
                          r.value[k] == GoalsOrEmpty(stored)[k]
    ensures r.Some? ==> r.value["protein_g"] >= 0 && r.value["fat_g"] >= 0 && r.value["carbs_g"] >= 0
    ensures r.Some? ==>
              var m := RecommendedMacros(p, ScenarioKcal(stored, BaseKcal(stored, p, today).value), goal);
              r.value["protein_g"] == m.proteinG && r.value["fat_g"] == m.fatG && r.value["carbs_g"] == m.carbsG
  {
    var base := BaseKcal(stored, p, today);
    if base.None? then None
    else
      var m := RecommendedMacros(p, ScenarioKcal(stored, base.value), goal);
      Some(GoalsOrEmpty(stored)["protein_g" := m.proteinG]["fat_g" := m.fatG]["carbs_g" := m.carbsG])
  }

  /**
   * The stored macros are those recommended for the kcal goal in force; when their unclamped
   * remainder is not negative they fit that kcal goal.
   */
  lemma ScenarioGoalsFitBudget(stored: Option<map<string, int>>, p: Profile, today: Date, goal: string)
    requires HasGoals(stored) && "kcal" in stored.value && stored.value["kcal"] >= 0 && WeightOf(p) >= 0.0
    requires 4 * RawProtein(p, goal) + 9 * RawFat(stored.value["kcal"], goal) <= stored.value["kcal"]
    ensures ScenarioGoals(stored, p, today, goal).Some?
    ensures var g := ScenarioGoals(stored, p, today, goal).value;
            g["kcal"] == stored.value["kcal"] && MacroEnergy(g) <= g["kcal"] < MacroEnergy(g) + 4
  {
    MacroBudget(p, stored.value["kcal"], goal);
  }

  /**
   * With no goals stored, the step stores a record without "kcal": from then on the baseline
   * `(goals or auto_goals(profile))["kcal"]` raises, so no later apply step succeeds.
   */
  lemma ScenarioWithoutGoalsLosesKcal(stored: Option<map<string, int>>, p: Profile, today: Date, goal: string)
    requires !HasGoals(stored)
    ensures ScenarioGoals(stored, p, today, goal).Some?
    ensures BaseKcal(ScenarioGoals(stored, p, today, goal), p, today).None?
  {
    var g := ScenarioGoals(stored, p, today, goal).value;
    assert g.Keys == {"protein_g", "fat_g", "carbs_g"};
    assert "protein_g" in g;
  }
}

/**
 * Baseline daily goals from a profile (`auto_goals`, Mifflin-St Jeor with an activity factor) and
 * the goal-scenario macro split (`recommended_macros`).
 */
module Goals {
  import opened Wrappers
  import opened Numerics
  import opened Text
  import opened Dates

  /**
   * A user's profile. Every field may be unset. `dob` is the parsed ISO date string; `None` stands
   * for an unset, empty or unparseable one.
   */
  datatype Profile = Profile(
    name: string,
    sex: Option<string>,
    dob: Option<Date>,
    heightCm: Option<real>,
    weightKg: Option<real>,
    activityLevel: Option<string>)

  /** The daily goals record. */
  datatype DailyGoals = DailyGoals(kcal: int, proteinG: int, carbsG: int, fatG: int, fiberG: int, waterMl: int)

  /** The scenario macro split. */
  datatype Macros = Macros(proteinG: int, fatG: int, carbsG: int)

  /** Python's `x or default` for a number: an unset value and 0 both give the default. */
  function NumberOr(x: Option<real>, default: real): (r: real)
    ensures r == default || x == Some(r)
    ensures r == default <== x.None? || x == Some(0.0)
    ensures x.Some? && x.value != 0.0 ==> r == x.value
  {
    if x.None? || x.value == 0.0 then default else x.value
  }

  /** Python's `s or default` for a string: an unset value and "" both give the default. */
  function TextOr(x: Option<string>, default: string): string {
    if x.None? || x.value == "" then default else x.value
  }

  /** `ACTIVITY_FACTORS.get(level, 1.375)`; the keys are matched exactly. */
  function ActivityFactor(level: string): real {
    if level == "sedentary" then 1.2
    else if level == "light" then 1.375
    else if level == "moderate" then 1.55
    else if level == "active" then 1.725
    else 1.375
  }

  /** The weight used by the formulas: 70 kg when unset or 0. */
  function WeightOf(p: Profile): real {
    NumberOr(p.weightKg, 70.0)
  }

  /** The height used by the formulas: 170 cm when unset or 0. */
  function HeightOf(p: Profile): real {
    NumberOr(p.heightCm, 170.0)
  }

  /** The age used by the formulas: 25 when `parse_age` gives None or 0. */
  function AgeOf(p: Profile, today: Date): int {
    var age := ParseAge(p.dob, today);
    if age.None? || age.value == 0 then 25 else age.value
  }

  /** The sex used by the formulas, lower-cased, "other" when unset or empty. */
  function SexOf(p: Profile): string {
    Lower(TextOr(p.sex, "other"))
  }

  /** Mifflin-St Jeor: +5 for "male", -161 for "female", nothing for any other value. */
  function MifflinStJeor(w: real, h: real, a: int, sex: string): real {
    var base := 10.0 * w + 6.25 * h - 5.0 * a as real;
    if sex == "male" then base + 5.0
    else if sex == "female" then base - 161.0
    else base
  }

  /** The basal metabolic rate after the defaults. */
  function Bmr(p: Profile, today: Date): real {
    MifflinStJeor(WeightOf(p), HeightOf(p), AgeOf(p, today), SexOf(p))
  }

  /** The daily energy expenditure estimate before truncation: BMR times the activity factor. */
  function DailyEnergy(p: Profile, today: Date): real {
    Bmr(p, today) * ActivityFactor(TextOr(p.activityLevel, "light"))
  }

  /**
   * `auto_goals(profile)` on day `today`: kcal is the truncated daily energy; protein, carbs and
   * fat take 25 %, 45 % and 30 % of it (4, 4 and 9 kcal per gram), each truncated, so together
   * they never exceed the kcal goal; fiber and water are fixed.
   */
  function AutoGoals(p: Profile, today: Date): (g: DailyGoals)
    ensures g.fiberG == 25 && g.waterMl == 2000
    ensures g.kcal == Trunc(DailyEnergy(p, today))
    ensures g.proteinG == Trunc(0.25 * g.kcal as real / 4.0) && g.carbsG == Trunc(0.45 * g.kcal as real / 4.0)
            && g.fatG == Trunc(0.30 * g.kcal as real / 9.0)
    ensures DailyEnergy(p, today) >= 0.0 ==>
              0 <= g.kcal && g.kcal as real <= DailyEnergy(p, today) < g.kcal as real + 1.0
    ensures g.kcal >= 0 ==> 0 <= g.proteinG && 0 <= g.carbsG && 0 <= g.fatG
    ensures g.kcal >= 0 ==> 4 * g.proteinG + 4 * g.carbsG + 9 * g.fatG <= g.kcal
    ensures g.kcal >= 0 ==>
              (0.25 * g.kcal as real < 4.0 * g.proteinG as real + 4.0 &&
               0.45 * g.kcal as real < 4.0 * g.carbsG as real + 4.0 &&
               0.30 * g.kcal as real < 9.0 * g.fatG as real + 9.0)
  {
    var kcal := Trunc(DailyEnergy(p, today));
    DailyGoals(
      kcal,
      Trunc(0.25 * kcal as real / 4.0),
      Trunc(0.45 * kcal as real / 4.0),
      Trunc(0.30 * kcal as real / 9.0),
      25,
      2000)
  }

  /** The profile with every field unset, `{}` in the source. */
  const EmptyProfile := Profile("", None, None, None, None, None)

  /** `auto_goals({})`: 70 kg, 170 cm, age 25, sex "other", light activity. */
  lemma EmptyProfileGoals(today: Date)
    ensures AutoGoals(EmptyProfile, today) == DailyGoals(2251, 140, 253, 75, 25, 2000)
  {
    assert Lower("other") == "other";
    assert Bmr(EmptyProfile, today) == 1637.5;
  }

  /** A 25-year-old woman of 60 kg and 165 cm with light activity: BMR 1345.25, 1849 kcal. */
  lemma FemaleExample(today: Date)
    ensures var p := Profile("", Some("female"), Some(Date(today.year - 25, today.month, today.day)),
                             Some(165.0), Some(60.0), Some("light"));
            Bmr(p, today) == 1345.25 && AutoGoals(p, today) == DailyGoals(1849, 115, 208, 61, 25, 2000)
  {
    assert Lower("female") == "female";
  }

  /** Two profiles that agree on every value the formulas use get the same goals. */
  lemma SameInputsSameGoals(p1: Profile, p2: Profile, today: Date)
    requires WeightOf(p1) == WeightOf(p2) && HeightOf(p1) == HeightOf(p2)
    requires AgeOf(p1, today) == AgeOf(p2, today) && SexOf(p1) == SexOf(p2)
    requires ActivityFactor(TextOr(p1.activityLevel, "light")) == ActivityFactor(TextOr(p2.activityLevel, "light"))
    ensures AutoGoals(p1, today) == AutoGoals(p2, today)
  {
    assert Bmr(p1, today) == Bmr(p2, today);
    assert DailyEnergy(p1, today) == DailyEnergy(p2, today);
  }

  /** A weight of 0 counts as missing: the formulas use 70 kg. */
  lemma ZeroWeightIsDefault(p: Profile, today: Date)
    ensures AutoGoals(p.(weightKg := Some(0.0)), today) == AutoGoals(p.(weightKg := Some(70.0)), today)
  {
    SameInputsSameGoals(p.(weightKg := Some(0.0)), p.(weightKg := Some(70.0)), today);
  }

  /** A height of 0 counts as missing, like an unset one. */
  lemma ZeroHeightIsDefault(p: Profile, today: Date)
    ensures AutoGoals(p.(heightCm := Some(0.0)), today) == AutoGoals(p.(heightCm := None), today)
  {
    SameInputsSameGoals(p.(heightCm := Some(0.0)), p.(heightCm := None), today);
  }

  /** An age of 0 (born today) counts as missing: the formulas use 25 years. */
  lemma ZeroAgeIsDefault(p: Profile, today: Date)
    ensures AutoGoals(p.(dob := Some(today)), today) == AutoGoals(p.(dob := None), today)
  {
    SameInputsSameGoals(p.(dob := Some(today)), p.(dob := None), today);
  }

  /** Sex is compared after lower-casing: any spelling gives the goals of its lower-case form. */
  lemma SexIgnoresCase(p: Profile, today: Date, sex: string)
    ensures AutoGoals(p.(sex := Some(sex)), today) == AutoGoals(p.(sex := Some(Lower(sex))), today)
  {
    SexTextIgnoresCase(sex);
    SameInputsSameGoals(p.(sex := Some(sex)), p.(sex := Some(Lower(sex))), today);
  }

  lemma SexTextIgnoresCase(sex: string)
    ensures Lower(TextOr(Some(sex), "other")) == Lower(TextOr(Some(Lower(sex)), "other"))
  {
    if sex == "" {
      assert Lower(sex) == "";
    } else {
      assert |Lower(sex)| > 0;
      LowerIdempotent(sex);
    }
  }

  /** An unknown activity level uses the light factor, like an unset one. */
  lemma UnknownActivityIsLight(p: Profile, today: Date)
    ensures AutoGoals(p.(activityLevel := Some("extreme")), today) == AutoGoals(p.(activityLevel := None), today)
  {
    SameInputsSameGoals(p.(activityLevel := Some("extreme")), p.(activityLevel := None), today);
  }

  /** The protein factor (g per kg) and fat share of the scenario; anything unknown is maintenance. */
  function ScenarioFactors(goal: string): (real, real) {
    if goal == "muscle_gain" then (2.0, 0.25)
    else if goal == "fat_loss" then (1.8, 0.30)
    else (1.6, 0.28)
  }

  /** Protein before the zero clamp: the scenario factor times the weight, rounded. */
  function RawProtein(p: Profile, goal: string): int {
    RoundHalfEven(ScenarioFactors(goal).0 * WeightOf(p))
  }

  /** Fat before the zero clamp: the scenario share of kcal at 9 kcal per gram, truncated. */
  function RawFat(kcal: int, goal: string): int {
    Trunc(ScenarioFactors(goal).1 * kcal as real / 9.0)
  }

  /** Carbs before the zero clamp: what is left of kcal at 4 kcal per gram, truncated toward zero. */
  function RawCarbs(p: Profile, kcal: int, goal: string): int {
    Trunc((kcal - (RawProtein(p, goal) * 4 + RawFat(kcal, goal) * 9)) as real / 4.0)
  }

  /**
   * `recommended_macros(profile, kcal, goal)`: protein from body weight, fat from a share of
   * kcal, carbs from the remainder; each value clamped at 0.
   */
  function RecommendedMacros(p: Profile, kcal: int, goal: string): (m: Macros)
    ensures m.proteinG >= 0 && m.fatG >= 0 && m.carbsG >= 0
    ensures m.proteinG == MaxInt(RawProtein(p, goal), 0)
    ensures m.fatG == MaxInt(RawFat(kcal, goal), 0) && m.carbsG == MaxInt(RawCarbs(p, kcal, goal), 0)
    ensures kcal >= 0 ==> m.fatG as real <= ScenarioFactors(goal).1 * kcal as real / 9.0 < m.fatG as real + 1.0
  {
    Macros(MaxInt(RawProtein(p, goal), 0), MaxInt(RawFat(kcal, goal), 0), MaxInt(RawCarbs(p, kcal, goal), 0))
  }

  /** Protein depends on the weight and scenario only, never on the kcal target. */
  lemma ProteinIgnoresKcal(p: Profile, kcal1: int, kcal2: int, goal: string)
    ensures RecommendedMacros(p, kcal1, goal).proteinG == RecommendedMacros(p, kcal2, goal).proteinG
  {
  }

  /**
   * When protein and fat fit in the kcal target, the three macros use at most the target and
   * leave less than 4 kcal (one gram of carbs) unused.
   */
  lemma MacroBudget(p: Profile, kcal: int, goal: string)
    requires kcal >= 0 && WeightOf(p) >= 0.0
    requires 4 * RawProtein(p, goal) + 9 * RawFat(kcal, goal) <= kcal
    ensures var m := RecommendedMacros(p, kcal, goal);
            4 * m.proteinG + 9 * m.fatG + 4 * m.carbsG <= kcal < 4 * m.proteinG + 9 * m.fatG + 4 * m.carbsG + 4
  {
    var (f, r) := ScenarioFactors(goal);
    assert f * WeightOf(p) >= 0.0;
    assert RawProtein(p, goal) >= 0;
    assert RawFat(kcal, goal) >= 0;
  }

  /** 70 kg, 2000 kcal, fat loss: 126 g protein, 66 g fat, 225 g carbs. */
  lemma FatLossExample()
    ensures RecommendedMacros(EmptyProfile.(weightKg := Some(70.0)), 2000, "fat_loss") == Macros(126, 66, 225)
  {
    assert RoundHalfEven(126.0) == 126;
  }

  /**
   * Truncation toward zero turns a remainder between -4 and 0 kcal into 0 g of carbs, so the split
   * can exceed the target: 70 kg at 710 kcal for fat loss gives 126/23/0, which is 711 kcal.
   */
  lemma TruncatedRemainderExceedsBudget()
    ensures var m := RecommendedMacros(EmptyProfile.(weightKg := Some(70.0)), 710, "fat_loss");
            m == Macros(126, 23, 0) && 4 * m.proteinG + 9 * m.fatG + 4 * m.carbsG == 711
  {
    assert RoundHalfEven(126.0) == 126;
  }
}

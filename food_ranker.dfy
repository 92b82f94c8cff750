/**
 * `suggest_meals`: scores every catalog food against the user's macro goals and a meal size, sorts
 * by score (lower is better) and keeps the first `topn`.
 */
module MealRanker {
  import opened Wrappers
  import opened Numerics
  import opened FoodCatalog

  /** `float(goals.get(key) or default)`: a missing or zero goal takes the default. */
  function GoalOr(goals: map<string, int>, key: string, default: int): (r: real)
    ensures key in goals && goals[key] != 0 ==> r == goals[key] as real
    ensures !(key in goals && goals[key] != 0) ==> r == default as real
  {
    if key in goals && goals[key] != 0 then goals[key] as real else default as real
  }

  /** The share of energy each macro contributes. */
  datatype Ratios = Ratios(protein: real, carbs: real, fat: real)

  /**
   * `_goal_ratios(goals)`: protein, carbs and fat goals (120, 200 and 60 g when missing or 0) as
   * kcal (4, 4 and 9 per gram), each divided by their total, or by 1 when the total is below 1.
   */
  function GoalRatios(goals: map<string, int>): (r: Ratios)
    ensures var p, c, f := GoalOr(goals, "protein_g", 120), GoalOr(goals, "carbs_g", 200), GoalOr(goals, "fat_g", 60);
            p >= 0.0 && c >= 0.0 && f >= 0.0 ==> r.protein >= 0.0 && r.carbs >= 0.0 && r.fat >= 0.0
    ensures var p, c, f := GoalOr(goals, "protein_g", 120), GoalOr(goals, "carbs_g", 200), GoalOr(goals, "fat_g", 60);
            4.0 * p + 4.0 * c + 9.0 * f >= 1.0 ==> r.protein + r.carbs + r.fat == 1.0
  {
    var p, c, f := GoalOr(goals, "protein_g", 120), GoalOr(goals, "carbs_g", 200), GoalOr(goals, "fat_g", 60);
    var pk, ck, fk := 4.0 * p, 4.0 * c, 9.0 * f;
    var total := MaxReal(pk + ck + fk, 1.0);
    SharesSumToOne(pk, ck, fk, total);
    Ratios(pk / total, ck / total, fk / total)
  }

  /**
   * Each goal share is that macro's goal energy over the total goal energy (or over 1 when the
   * total is below 1).
   */
  lemma GoalRatiosAreShares(goals: map<string, int>, p: real, c: real, f: real, total: real)
    requires p == GoalOr(goals, "protein_g", 120) && c == GoalOr(goals, "carbs_g", 200) && f == GoalOr(goals, "fat_g", 60)
    requires total == MaxReal(4.0 * p + 4.0 * c + 9.0 * f, 1.0)
    ensures IsShareOf(GoalRatios(goals).protein, 4.0 * p, total)
    ensures IsShareOf(GoalRatios(goals).carbs, 4.0 * c, total)
    ensures IsShareOf(GoalRatios(goals).fat, 9.0 * f, total)
  {
    GoalRatiosDivide(goals, p, c, f, total);
    SharesOfTotal(GoalRatios(goals), 4.0 * p, 4.0 * c, 9.0 * f, total);
  }

  /** `share` is the part `part` of `total`: `share * total == part`. */
  predicate IsShareOf(share: real, part: real, total: real) {
    share * total == part
  }

  lemma SharesOfTotal(r: Ratios, a: real, b: real, c: real, total: real)
    requires total > 0.0 && r == Ratios(a / total, b / total, c / total)
    ensures IsShareOf(r.protein, a, total) && IsShareOf(r.carbs, b, total) && IsShareOf(r.fat, c, total)
  {
  }

  lemma GoalRatiosDivide(goals: map<string, int>, p: real, c: real, f: real, total: real)
    requires p == GoalOr(goals, "protein_g", 120) && c == GoalOr(goals, "carbs_g", 200) && f == GoalOr(goals, "fat_g", 60)
    requires total == MaxReal(4.0 * p + 4.0 * c + 9.0 * f, 1.0)
    ensures total > 0.0 && GoalRatios(goals) == Ratios(4.0 * p / total, 4.0 * c / total, 9.0 * f / total)
  {
  }

  lemma SharesSumToOne(a: real, b: real, c: real, total: real)
    requires total > 0.0
    ensures total == a + b + c ==> a / total + b / total + c / total == 1.0
    ensures a >= 0.0 && b >= 0.0 && c >= 0.0 ==> a / total >= 0.0 && b / total >= 0.0 && c / total >= 0.0
  {
    assert a / total + b / total + c / total == (a + b + c) / total;
  }

  /** Shares of a non-zero total add up to 1, whatever their signs. */
  lemma SharesOfNonZeroTotal(a: real, b: real, c: real)
    requires a + b + c != 0.0
    ensures a / (a + b + c) + b / (a + b + c) + c / (a + b + c) == 1.0
  {
    var t := a + b + c;
    assert a / t + b / t + c / t == (a + b + c) / t;
  }

  /** With no goals stored the defaults give 480 : 800 : 540 kcal out of 1820. */
  lemma DefaultGoalRatios()
    ensures GoalRatios(map[]) == Ratios(480.0 / 1820.0, 800.0 / 1820.0, 540.0 / 1820.0)
  {
  }

  /** Three energy amounts as shares of their sum, or all 0 when the sum is 0. */
  function Shares(a: real, b: real, c: real): (r: Ratios)
    ensures r == Ratios(0.0, 0.0, 0.0) || r.protein + r.carbs + r.fat == 1.0
  {
    var total := a + b + c;
    if total == 0.0 then Ratios(0.0, 0.0, 0.0)
    else
      SharesOfNonZeroTotal(a, b, c);
      Ratios(a / total, b / total, c / total)
  }

  /**
   * The energy shares of a food scaled to `meal` kcal: all 0 when its kcal is 0, or when the scaled
   * macro energy is 0 (a meal of 0 kcal, or a food without macros).
   */
  function FoodRatios(r: FoodRow, meal: int): (f: Ratios)
    ensures r.kcal == 0.0 || meal == 0 ==> f == Ratios(0.0, 0.0, 0.0)
    ensures f == Ratios(0.0, 0.0, 0.0) || f.protein + f.carbs + f.fat == 1.0
  {
    if r.kcal == 0.0 then Ratios(0.0, 0.0, 0.0)
    else
      var scale := meal as real / r.kcal;
      Shares(r.proteinG * 4.0 * scale, r.carbsG * 4.0 * scale, r.fatG * 9.0 * scale)
  }

  /** The unscaled energy shares of a food's macros. */
  function MacroShares(r: FoodRow): Ratios {
    Shares(r.proteinG * 4.0, r.carbsG * 4.0, r.fatG * 9.0)
  }

  lemma ScaleCancels(a: real, total: real, s: real)
    requires total != 0.0 && s != 0.0
    ensures (a * s) / (total * s) == a / total
  {
  }

  /** Scaling every amount by the same non-zero factor leaves the shares as they are. */
  lemma SharesIgnoreScale(a: real, b: real, c: real, s: real)
    requires s != 0.0
    ensures Shares(a * s, b * s, c * s) == Shares(a, b, c)
  {
    var total := a + b + c;
    assert a * s + b * s + c * s == total * s;
    if total != 0.0 {
      ScaleCancels(a, total, s);
      ScaleCancels(b, total, s);
      ScaleCancels(c, total, s);
    }
  }

  /** For a non-zero meal size the scale cancels: a food's shares do not depend on the meal size. */
  lemma FoodRatiosIgnoreMealSize(r: FoodRow, meal: int)
    requires meal != 0 && r.kcal != 0.0
    ensures FoodRatios(r, meal) == MacroShares(r)
  {
    QuotientNonZero(meal as real, r.kcal);
    SharesIgnoreScale(r.proteinG * 4.0, r.carbsG * 4.0, r.fatG * 9.0, meal as real / r.kcal);
  }

  lemma QuotientNonZero(x: real, y: real)
    requires x != 0.0 && y != 0.0
    ensures x / y != 0.0
  {
  }

  /** `ratio_mse`: the squared distance between a food's shares and the goal shares. */
  function RatioDistance(food: Ratios, goal: Ratios): (d: real)
    ensures d >= 0.0
    ensures d == 0.0 <==> food == goal
  {
    Square(food.protein - goal.protein) + Square(food.carbs - goal.carbs) + Square(food.fat - goal.fat)
  }

  /** `x * y` together with the sign rules of a product. */
  function Product(x: real, y: real): (r: real)
    ensures x > 0.0 && y > 0.0 ==> r > 0.0
    ensures x < 0.0 && y < 0.0 ==> r > 0.0
    ensures x == 0.0 || y == 0.0 ==> r == 0.0
  {
    x * y
  }

  /** `x ** 2`: never negative, and 0 only for 0. */
  function Square(x: real): (r: real)
    ensures r >= 0.0
    ensures r == 0.0 <==> x == 0.0
  {
    Product(x, x)
  }

  /** `kcal_pen`: how far a serving is from the meal size, relative to the meal size (at least 1). */
  function KcalPenalty(kcal: real, meal: int): (pen: real)
    ensures pen >= 0.0
    ensures pen == 0.0 <==> kcal == meal as real
    ensures pen * MaxInt(meal, 1) as real == AbsReal(kcal - meal as real)
  {
    AbsReal(kcal - meal as real) / MaxInt(meal, 1) as real
  }

  /**
   * The score of one food for a strategy: `"high_protein"` rewards protein per 100 kcal,
   * `"low_carb"` penalises carbs per 100 kcal, and any other strategy is `"balanced"`, the distance
   * to the goal shares; all add a fifth of the kcal penalty.
   */
  function Score(r: FoodRow, goal: Ratios, meal: int, strategy: string): (s: real)
    ensures strategy == "high_protein" ==>
              s >= -r.proteinPer100kcal && (s == -r.proteinPer100kcal <==> r.kcal == meal as real)
    ensures strategy == "low_carb" ==>
              s >= r.carbsPer100kcal && (s == r.carbsPer100kcal <==> r.kcal == meal as real)
    ensures strategy != "high_protein" && strategy != "low_carb" ==>
              var d := RatioDistance(FoodRatios(r, meal), goal);
              s >= d && (s == d <==> r.kcal == meal as real)
  {
    var pen := KcalPenalty(r.kcal, meal);
    if strategy == "high_protein" then -r.proteinPer100kcal + 0.2 * pen
    else if strategy == "low_carb" then r.carbsPer100kcal + 0.2 * pen
    else RatioDistance(FoodRatios(r, meal), goal) + 0.2 * pen
  }

  /** A balanced score is never negative; it is 0 exactly for a food matching the goal shares and the meal size. */
  lemma BalancedScoreBounds(r: FoodRow, goal: Ratios, meal: int, strategy: string)
    requires strategy != "high_protein" && strategy != "low_carb"
    ensures Score(r, goal, meal, strategy) >= 0.0
    ensures Score(r, goal, meal, strategy) == 0.0 <==> FoodRatios(r, meal) == goal && r.kcal == meal as real
  {
  }

  /** With equal kcal, a food with more protein per 100 kcal ranks strictly better for "high_protein". */
  lemma HighProteinPrefersDenser(a: FoodRow, b: FoodRow, goal: Ratios, meal: int)
    requires a.kcal == b.kcal && a.proteinPer100kcal > b.proteinPer100kcal
    ensures Score(a, goal, meal, "high_protein") < Score(b, goal, meal, "high_protein")
  {
  }

  /** With equal kcal, a food with fewer carbs per 100 kcal ranks strictly better for "low_carb". */
  lemma LowCarbPrefersLeaner(a: FoodRow, b: FoodRow, goal: Ratios, meal: int)
    requires a.kcal == b.kcal && a.carbsPer100kcal < b.carbsPer100kcal
    ensures Score(a, goal, meal, "low_carb") < Score(b, goal, meal, "low_carb")
  {
  }

  /** One row of the result: the catalog columns kept, plus the score. */
  datatype Suggestion = Suggestion(food: FoodRow, score: real)

  function Scored(foods: seq<FoodRow>, goal: Ratios, meal: int, strategy: string): (s: seq<Suggestion>)
    ensures |s| == |foods|
    ensures forall i :: 0 <= i < |foods| ==> s[i] == Suggestion(foods[i], Score(foods[i], goal, meal, strategy))
  {
    seq(|foods|, i requires 0 <= i < |foods| => Suggestion(foods[i], Score(foods[i], goal, meal, strategy)))
  }

  predicate SortedByScore(s: seq<Suggestion>) {
    forall i, j :: 0 <= i < j < |s| ==> s[i].score <= s[j].score
  }

  lemma SortedScoreCons(x: Suggestion, r: seq<Suggestion>)
    requires SortedByScore(r)
    requires forall y | y in r :: x.score <= y.score
    ensures SortedByScore([x] + r)
  {
    forall i, j | 0 <= i < j < |[x] + r|
      ensures ([x] + r)[i].score <= ([x] + r)[j].score
    {
      assert ([x] + r)[j] == r[j - 1];
      if i > 0 {
        assert ([x] + r)[i] == r[i - 1];
      } else {
        assert r[j - 1] in r;
      }
    }
  }

  /** A sorted sequence starts with its lowest score. */
  lemma SortedFirstIsLeast(s: seq<Suggestion>)
    requires SortedByScore(s) && s != []
    ensures forall y | y in s :: s[0].score <= y.score
  {
    forall y | y in s ensures s[0].score <= y.score {
      var k :| 0 <= k < |s| && s[k] == y;
    }
  }

  /** Putting a suggestion no worse than the first in front keeps the order. */
  lemma InsertFrontSorted(x: Suggestion, s: seq<Suggestion>)
    requires SortedByScore(s) && (s == [] || x.score <= s[0].score)
    ensures SortedByScore([x] + s)
  {
    if s != [] {
      SortedFirstIsLeast(s);
    }
    SortedScoreCons(x, s);
  }

  /** The first suggestion stays in front of the rest with a worse `x` inserted. */
  lemma InsertBehindFirst(x: Suggestion, s: seq<Suggestion>, rest: seq<Suggestion>)
    requires SortedByScore(s) && s != [] && s[0].score < x.score
    requires SortedByScore(rest) && forall y :: y in rest <==> y in s[1..] || y == x
    ensures SortedByScore([s[0]] + rest)
  {
    SortedFirstIsLeast(s);
    forall y | y in rest ensures s[0].score <= y.score {
      if y != x {
        assert y in s[1..];
        var k :| 0 <= k < |s[1..]| && s[1..][k] == y;
        assert s[k + 1] == y;
      }
    }
    SortedScoreCons(s[0], rest);
  }

  /** Places `x` before the first suggestion with a higher score. */
  function InsertByScore(x: Suggestion, s: seq<Suggestion>): (r: seq<Suggestion>)
    requires SortedByScore(s)
    ensures SortedByScore(r)
    ensures multiset(r) == multiset(s) + multiset{x}
    ensures forall y :: y in r <==> y in s || y == x
  {
    if s == [] || x.score <= s[0].score then
      InsertFrontSorted(x, s);
      [x] + s
    else
      var rest := InsertByScore(x, s[1..]);
      InsertBehindFirst(x, s, rest);
      assert s == [s[0]] + s[1..];
      [s[0]] + rest
  }

  /**
   * `sort_values("score")`: a sorted permutation. pandas does not promise an order among equal
   * scores; this insertion sort keeps the input order among them, one of the allowed outcomes.
   */
  function SortByScore(s: seq<Suggestion>): (r: seq<Suggestion>)
    ensures SortedByScore(r)
    ensures multiset(r) == multiset(s)
  {
    if s == [] then []
    else
      assert s == [s[0]] + s[1..];
      InsertByScore(s[0], SortByScore(s[1..]))
  }

  /** `head(n)`: the first `n` rows, or for a negative `n` all but the last `-n`. */
  function Head<T>(s: seq<T>, n: int): (r: seq<T>)
    ensures n >= 0 ==> |r| == (if n < |s| then n else |s|)
    ensures n < 0 ==> |r| == (if |s| + n > 0 then |s| + n else 0)
    ensures r == s[..|r|]
  {
    if n >= 0 then (if n < |s| then s[..n] else s)
    else if |s| + n > 0 then s[..|s| + n] else []
  }

  /**
   * `suggest_meals(foods, goals, meal_kcal, strategy, topn)`: an empty catalog gives an empty
   * result; otherwise every food is scored, the scores are sorted ascending and the first `topn`
   * rows are kept. The scaled `est_*_g` columns and `meal_kcal_target` are computed by the source
   * but not returned, so they are not modelled.
   */
  function SuggestMeals(foods: seq<FoodRow>, goals: map<string, int>, meal: int, strategy: string, topn: int)
    : (r: seq<Suggestion>)
    ensures foods == [] ==> r == []
    ensures topn >= 0 ==> |r| == (if topn < |foods| then topn else |foods|)
    ensures topn < 0 ==> |r| == (if |foods| + topn > 0 then |foods| + topn else 0)
    ensures SortedByScore(r)
    ensures multiset(r) <= multiset(Scored(foods, GoalRatios(goals), meal, strategy))
    ensures forall x, i :: x in multiset(Scored(foods, GoalRatios(goals), meal, strategy)) - multiset(r) && 0 <= i < |r|
              ==> r[i].score <= x.score
  {
    if foods == [] then []
    else
      var all := SortByScore(Scored(foods, GoalRatios(goals), meal, strategy));
      HeadOfSortedIsSmallest(all, topn);
      Head(all, topn)
  }

  /** Cutting a sorted sequence keeps it sorted and keeps suggestions no worse than every one it drops. */
  lemma HeadOfSortedIsSmallest(s: seq<Suggestion>, n: int)
    requires SortedByScore(s)
    ensures SortedByScore(Head(s, n))
    ensures multiset(Head(s, n)) <= multiset(s)
    ensures forall x, i :: x in multiset(s) - multiset(Head(s, n)) && 0 <= i < |Head(s, n)| ==> Head(s, n)[i].score <= x.score
  {
    PrefixOfSortedIsSmallest(s, |Head(s, n)|);
  }

  lemma PrefixOfSortedIsSmallest(s: seq<Suggestion>, k: nat)
    requires SortedByScore(s) && k <= |s|
    ensures SortedByScore(s[..k])
    ensures multiset(s[..k]) <= multiset(s)
    ensures forall x, i :: x in multiset(s) - multiset(s[..k]) && 0 <= i < k ==> s[i].score <= x.score
  {
    assert s == s[..k] + s[k..];
    assert multiset(s) == multiset(s[..k]) + multiset(s[k..]);
    forall x, i | x in multiset(s) - multiset(s[..k]) && 0 <= i < k ensures s[i].score <= x.score {
      var m := DroppedIsLater(s, k, x);
    }
  }

  /** A suggestion the prefix `s[..k]` does not hold sits at or after `k`. */
  lemma DroppedIsLater(s: seq<Suggestion>, k: nat, x: Suggestion) returns (m: nat)
    requires k <= |s| && x in multiset(s) - multiset(s[..k])
    ensures k <= m < |s| && s[m] == x
  {
    assert s == s[..k] + s[k..];
    assert multiset(s) == multiset(s[..k]) + multiset(s[k..]);
    assert x in multiset(s[k..]);
    var j :| 0 <= j < |s[k..]| && s[k..][j] == x;
    m := k + j;
  }
}

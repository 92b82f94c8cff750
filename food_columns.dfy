/**
 * Header matching for uploaded food tables: each standard field has a list of accepted spellings,
 * and `_find_col` looks for them among the table's headers after stripping and lower-casing.
 */
module FoodColumns {
  import opened Wrappers
  import opened Text

  /** `STANDARD_COLS`: each standard field with its accepted header spellings, in priority order. */
  const StandardCols: seq<(string, seq<string>)> := [
    ("food", ["food", "name", "item", "食品", "食物"]),
    ("kcal", ["kcal", "calories", "calorie", "熱量", "卡路里", "calories (kcal)", "kcal/serving"]),
    ("protein_g", ["protein", "protein_g", "蛋白質", "蛋白(g)", "蛋白質(g)", "protein (g)", "prot(g)"]),
    ("carbs_g", ["carb", "carbs", "carbohydrate", "carbohydrates", "碳水", "碳水化合物", "碳水(g)", "carbs (g)"]),
    ("fat_g", ["fat", "fat_g", "脂肪", "脂肪(g)", "fat (g)"])
  ]

  /** The header as `_find_col` compares it: stripped, then lower-cased. */
  function Normalize(header: string): string {
    Lower(Strip(header))
  }

  /** The normalised headers, `lc` in `_find_col`. */
  function NormalizeAll(cols: seq<string>): (lc: seq<string>)
    ensures |lc| == |cols|
    ensures forall i :: 0 <= i < |cols| ==> lc[i] == Normalize(cols[i])
  {
    seq(|cols|, i requires 0 <= i < |cols| => Normalize(cols[i]))
  }

  /** The candidates as `_find_col` compares them: lower-cased. */
  function LowerAll(cands: seq<string>): (keys: seq<string>)
    ensures |keys| == |cands|
    ensures forall k :: 0 <= k < |cands| ==> keys[k] == Lower(cands[k])
  {
    seq(|cands|, k requires 0 <= k < |cands| => Lower(cands[k]))
  }

  /** `lc.index(key)`: the first position holding `key`. */
  function IndexOf(lc: seq<string>, key: string): (r: Option<nat>)
    ensures r.Some? ==> r.value < |lc| && lc[r.value] == key
    ensures r.Some? ==> forall j :: 0 <= j < r.value ==> lc[j] != key
    ensures r.None? ==> key !in lc
  {
    if lc == [] then None
    else if lc[0] == key then Some(0)
    else
      match IndexOf(lc[1..], key)
      case Some(i) => Some(i + 1)
      case None => None
  }

  /** The keys are tried in order; the first one found in `lc` gives the header at its first position. */
  function FirstHit(cols: seq<string>, lc: seq<string>, keys: seq<string>): (r: Option<string>)
    requires |lc| == |cols|
  {
    if keys == [] then None
    else
      match IndexOf(lc, keys[0])
      case Some(i) => Some(cols[i])
      case None => FirstHit(cols, lc, keys[1..])
  }

  /**
   * The header `_find_col` returns: the candidates are tried in order, and the first one that
   * matches any header wins, with the leftmost such header, as written (unstripped).
   */
  function ResolveColumn(cols: seq<string>, cands: seq<string>): Option<string> {
    FirstHit(cols, NormalizeAll(cols), LowerAll(cands))
  }

  lemma {:induction false} FirstHitNoneIff(cols: seq<string>, lc: seq<string>, keys: seq<string>)
    requires |lc| == |cols|
    ensures FirstHit(cols, lc, keys).None? <==> forall k :: 0 <= k < |keys| ==> keys[k] !in lc
    decreases |keys|
  {
    if keys != [] {
      FirstHitNoneIff(cols, lc, keys[1..]);
      if IndexOf(lc, keys[0]).None? {
        forall k | 0 < k < |keys| ensures keys[k] == keys[1..][k - 1] {
        }
      }
    }
  }

  lemma {:induction false} FirstHitPicks(cols: seq<string>, lc: seq<string>, keys: seq<string>, k: nat, j: nat)
    requires |lc| == |cols| && k < |keys| && j < |lc|
    requires lc[j] == keys[k]
    requires forall i :: 0 <= i < j ==> lc[i] != keys[k]
    requires forall k' :: 0 <= k' < k ==> keys[k'] !in lc
    ensures FirstHit(cols, lc, keys) == Some(cols[j])
    decreases k
  {
    if k == 0 {
      assert IndexOf(lc, keys[0]) == Some(j);
    } else {
      assert keys[0] !in lc;
      assert keys[1..][k - 1] == keys[k];
      FirstHitPicks(cols, lc, keys[1..], k - 1, j);
    }
  }

  /** No header is returned exactly when no header matches any candidate. */
  lemma ResolveColumnNoneIff(cols: seq<string>, cands: seq<string>)
    ensures ResolveColumn(cols, cands).None? <==>
              forall k, j :: 0 <= k < |cands| && 0 <= j < |cols| ==> Normalize(cols[j]) != Lower(cands[k])
  {
    var lc, keys := NormalizeAll(cols), LowerAll(cands);
    FirstHitNoneIff(cols, lc, keys);
    if !ResolveColumn(cols, cands).None? {
      var k :| 0 <= k < |keys| && keys[k] in lc;
      var j :| 0 <= j < |lc| && lc[j] == keys[k];
      assert Normalize(cols[j]) == Lower(cands[k]);
    }
  }

  /**
   * Candidate order beats column order: when candidate `k` is the first candidate matching any
   * header and header `j` is the leftmost one it matches, header `j` is returned, as written.
   */
  lemma ResolveColumnFirstHit(cols: seq<string>, cands: seq<string>, k: nat, j: nat)
    requires k < |cands| && j < |cols|
    requires Normalize(cols[j]) == Lower(cands[k])
    requires forall i :: 0 <= i < j ==> Normalize(cols[i]) != Lower(cands[k])
    requires forall k', i :: 0 <= k' < k && 0 <= i < |cols| ==> Normalize(cols[i]) != Lower(cands[k'])
    ensures ResolveColumn(cols, cands) == Some(cols[j])
  {
    var lc, keys := NormalizeAll(cols), LowerAll(cands);
    forall k' | 0 <= k' < k ensures keys[k'] !in lc {
      assert forall i :: 0 <= i < |lc| ==> lc[i] != keys[k'];
    }
    FirstHitPicks(cols, lc, keys, k, j);
  }

  lemma FirstHitStep(cols: seq<string>, lc: seq<string>, keys: seq<string>, k: nat)
    requires |lc| == |cols| && k < |keys|
    ensures IndexOf(lc, keys[k]).Some? ==> FirstHit(cols, lc, keys[k..]) == Some(cols[IndexOf(lc, keys[k]).value])
    ensures IndexOf(lc, keys[k]).None? ==> FirstHit(cols, lc, keys[k..]) == FirstHit(cols, lc, keys[k + 1..])
  {
    assert keys[k..][0] == keys[k] && keys[k..][1..] == keys[k + 1..];
  }

  /** `key in lc` followed by `lc.index(key)`: a left-to-right search; `|lc|` when absent. */
  method Search(lc: seq<string>, key: string) returns (i: nat)
    ensures IndexOf(lc, key).Some? ==> i == IndexOf(lc, key).value
    ensures IndexOf(lc, key).None? ==> i == |lc|
  {
    i := 0;
    while i < |lc| && lc[i] != key
      invariant i <= |lc|
      invariant forall j :: 0 <= j < i ==> lc[j] != key
    {
      i := i + 1;
    }
  }

  /**
   * `_find_col(cols, candidates)`: normalises every header once, then tries the candidates in
   * order, returning on the first header that matches.
   */
  method FindCol(cols: seq<string>, cands: seq<string>) returns (r: Option<string>)
    ensures r == ResolveColumn(cols, cands)
  {
    var lc := NormalizeAll(cols);
    var keys := LowerAll(cands);
    for k := 0 to |keys|
      invariant FirstHit(cols, lc, keys) == FirstHit(cols, lc, keys[k..])
    {
      var i := Search(lc, keys[k]);
      FirstHitStep(cols, lc, keys, k);
      if i < |lc| {
        return Some(cols[i]);
      }
    }
    return None;
  }

  /** Headers whose normal form differs in length from a candidate never match it. */
  lemma LengthMismatchNeverMatches(h: string, c: string)
    requires |Normalize(h)| != |c|
    ensures Normalize(h) != Lower(c)
  {
  }

  /** The header `carbs_g` is already in normal form. */
  lemma NormalizeCarbsG()
    ensures Normalize("carbs_g") == "carbs_g"
  {
    NormalizeOfClean("carbs_g");
  }

  /** A header without surrounding whitespace or capitals is its own normal form. */
  lemma NormalizeOfClean(s: string)
    requires s != [] && !IsSpace(s[0]) && !IsSpace(s[|s| - 1])
    requires forall k :: 0 <= k < |s| ==> !('A' <= s[k] <= 'Z')
    ensures Normalize(s) == s
  {
    StripNoSpaceEnds(s);
    LowerOfLowerCase(s);
  }

  /** No accepted spelling of the carbs field has seven characters, the length of `carbs_g`. */
  lemma CarbsSpellingLengths()
    ensures StandardCols[3].0 == "carbs_g"
    ensures forall c :: c in StandardCols[3].1 ==> |c| != 7
  {
  }
}

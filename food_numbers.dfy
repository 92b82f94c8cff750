/**
 * `_to_number`: the number scanner `load_foods` applies to every kcal and macro cell. Blank and
 * missing cells give NaN; otherwise commas are deleted and the leftmost match of the pattern
 * `-?\d+(\.\d+)?` is read as a number.
 */
module FoodNumbers {
  import opened Wrappers
  import opened Text

  predicate AllDigits(d: string) {
    forall k :: 0 <= k < |d| ==> IsDigit(d[k])
  }

  predicate HasDigit(s: string) {
    exists k :: 0 <= k < |s| && IsDigit(s[k])
  }

  /** The length of the run of digits that starts at position `i` (`\d+` is greedy). */
  function DigitRun(s: string, i: nat): (n: nat)
    requires i <= |s|
    ensures i + n <= |s|
    ensures AllDigits(s[i..i + n])
    ensures i + n == |s| || !IsDigit(s[i + n])
    decreases |s| - i
  {
    if i < |s| && IsDigit(s[i]) then
      var n := 1 + DigitRun(s, i + 1);
      assert s[i..i + n] == [s[i]] + s[i + 1..i + n];
      n
    else 0
  }

  function DigitValue(c: char): nat
    requires IsDigit(c)
  {
    c as int - '0' as int
  }

  /** A digit string read in base 10. */
  function Decimal(d: string): nat
    requires AllDigits(d)
  {
    if d == [] then 0 else Decimal(d[..|d| - 1]) * 10 + DigitValue(d[|d| - 1])
  }

  /** A digit string read as the digits after a decimal point. */
  function Fraction(d: string): (r: real)
    requires AllDigits(d)
    ensures 0.0 <= r <= 1.0
  {
    if d == [] then 0.0 else (DigitValue(d[0]) as real + Fraction(d[1..])) / 10.0
  }

  /** The pattern matches starting at `i`: a digit, or a minus sign directly followed by one. */
  predicate MatchesAt(s: string, i: int) {
    0 <= i < |s| && (IsDigit(s[i]) || (s[i] == '-' && i + 1 < |s| && IsDigit(s[i + 1])))
  }

  /** The number `\d+(\.\d+)?` reads at the digit `start`: the integer digits, and the fraction when a point is followed by a digit. */
  function Magnitude(s: string, start: nat): real
    requires start < |s| && IsDigit(s[start])
  {
    var e := start + DigitRun(s, start);
    var whole := Decimal(s[start..e]) as real;
    if e + 1 < |s| && s[e] == '.' && IsDigit(s[e + 1]) then whole + Fraction(s[e + 1..e + 1 + DigitRun(s, e + 1)])
    else whole
  }

  /** The number the pattern reads at `i`: the magnitude, negated after a minus sign. */
  function ValueAt(s: string, i: int): real
    requires MatchesAt(s, i)
  {
    if s[i] == '-' then -Magnitude(s, i + 1) else Magnitude(s, i)
  }

  /** `re.search`: the leftmost position at or after `i` where the pattern matches. */
  function FirstMatch(s: string, i: nat): (r: Option<nat>)
    requires i <= |s|
    ensures r.Some? ==> i <= r.value && MatchesAt(s, r.value) && forall k :: i <= k < r.value ==> !MatchesAt(s, k)
    ensures r.None? ==> forall k :: i <= k < |s| ==> !MatchesAt(s, k)
    decreases |s| - i
  {
    if i == |s| then None
    else if MatchesAt(s, i) then Some(i)
    else FirstMatch(s, i + 1)
  }

  /** The value of the leftmost match in `s`, or NaN when there is none. */
  function ScanNumber(s: string): Option<real> {
    match FirstMatch(s, 0)
    case Some(i) => Some(ValueAt(s, i))
    case None => None
  }

  /** `_to_number(x)`: `None` stands for NaN on both sides. */
  function ToNumber(cell: Option<string>): (r: Option<real>)
    ensures cell.None? ==> r.None?
  {
    match cell
    case None => None
    case Some(x) =>
      var s := Strip(x);
      if s == [] then None
      else ScanNumber(RemoveChar(s, ','))
  }

  /** The pattern matches somewhere exactly when some character is a digit. */
  lemma ScanNumberNoneIff(s: string)
    ensures ScanNumber(s).None? <==> !HasDigit(s)
  {
    if HasDigit(s) {
      var k :| 0 <= k < |s| && IsDigit(s[k]);
      assert MatchesAt(s, k);
    } else {
      assert forall k :: 0 <= k < |s| ==> !MatchesAt(s, k) by {
        forall k | 0 <= k < |s| ensures !MatchesAt(s, k) {
          assert !IsDigit(s[k]);
          if k + 1 < |s| { assert !IsDigit(s[k + 1]); }
        }
      }
    }
  }

  lemma HasDigitIffMember(s: string)
    ensures HasDigit(s) <==> exists c :: c in s && IsDigit(c)
  {
    if exists c :: c in s && IsDigit(c) {
      var c :| c in s && IsDigit(c);
      var k :| 0 <= k < |s| && s[k] == c;
    }
  }

  /** A cell gives NaN exactly when it is missing or holds no ASCII digit at all. */
  lemma ToNumberNoneIff(cell: Option<string>)
    ensures ToNumber(cell).None? <==> cell.None? || !HasDigit(cell.value)
  {
    if cell.Some? {
      var x := cell.value;
      var s := Strip(x);
      var t := RemoveChar(s, ',');
      HasDigitIffMember(x);
      HasDigitIffMember(s);
      HasDigitIffMember(t);
      forall c | IsDigit(c) ensures c in x <==> c in t {
        StripKeepsNonSpace(x, c);
      }
      if s != [] {
        ScanNumberNoneIff(t);
      }
    }
  }

  lemma {:induction false} DigitRunIs(s: string, i: nat, n: nat)
    requires i + n <= |s|
    requires forall k :: i <= k < i + n ==> IsDigit(s[k])
    requires i + n == |s| || !IsDigit(s[i + n])
    ensures DigitRun(s, i) == n
    decreases n
  {
    if n > 0 {
      DigitRunIs(s, i + 1, n - 1);
    }
  }

  lemma NoMatchBefore(s: string, p: nat)
    requires p <= |s|
    requires forall k :: 0 <= k < p ==> !IsDigit(s[k])
    requires p == 0 || s[p - 1] != '-'
    ensures forall k :: 0 <= k < p ==> !MatchesAt(s, k)
  {
    forall k | 0 <= k < p ensures !MatchesAt(s, k) {
      if k + 1 < p {
        assert !IsDigit(s[k + 1]);
      }
    }
  }

  /** A match starting at a digit whose run is not followed by a point is just that run's value. */
  lemma ValueOfDigitRun(s: string, p: nat)
    requires p < |s| && IsDigit(s[p])
    requires p + DigitRun(s, p) == |s| || s[p + DigitRun(s, p)] != '.'
    ensures ValueAt(s, p) == Decimal(s[p..p + DigitRun(s, p)]) as real
  {
  }

  /**
   * A run of `n` digits at `p`, with no digit before it, no minus sign right before it and neither
   * a digit nor a point right after it.
   */
  predicate DigitsAt(s: string, p: nat, n: nat) {
    && 0 < n && p + n <= |s|
    && (forall k :: 0 <= k < p ==> !IsDigit(s[k]))
    && (p == 0 || s[p - 1] != '-')
    && (forall k :: p <= k < p + n ==> IsDigit(s[k]))
    && (p + n == |s| || (!IsDigit(s[p + n]) && s[p + n] != '.'))
  }

  /** Such a run is the leftmost match, and the scan reads that integer. */
  lemma ScanDigitsAt(s: string, p: nat, n: nat, v: real)
    requires DigitsAt(s, p, n) && v == Decimal(s[p..p + n]) as real
    ensures ScanNumber(s) == Some(v)
  {
    NoMatchBefore(s, p);
    assert MatchesAt(s, p);
    assert FirstMatch(s, 0) == Some(p);
    DigitRunIs(s, p, n);
    ValueOfDigitRun(s, p);
  }

  /** The digits `d` sit at `p` in `s` as such a run. */
  predicate DigitsTextAt(s: string, p: nat, d: string) {
    AllDigits(d) && DigitsAt(s, p, |d|) && s[p..p + |d|] == d
  }

  /** `ScanDigitsAt` where the run of digits is `d`. */
  lemma ScanDigitsOf(s: string, p: nat, d: string)
    requires DigitsTextAt(s, p, d)
    ensures ScanNumber(s) == Some(Decimal(d) as real)
  {
    DigitsOfSlice(s, p, d);
    ScanDigitsAt(s, p, |d|, Decimal(d) as real);
  }

  lemma DigitsOfSlice(s: string, p: nat, d: string)
    requires DigitsTextAt(s, p, d)
    ensures Decimal(s[p..p + |d|]) as real == Decimal(d) as real
  {
  }

  /**
   * A run of digits preceded by text without digits (and not ending in a minus sign) and followed
   * by text that does not continue the number is read as exactly that integer.
   */
  lemma ScanDigitsAfterText(prefix: string, d: string, suffix: string)
    requires !HasDigit(prefix) && (prefix == [] || prefix[|prefix| - 1] != '-')
    requires d != [] && AllDigits(d)
    requires suffix == [] || (!IsDigit(suffix[0]) && suffix[0] != '.')
    ensures ScanNumber(prefix + d + suffix) == Some(Decimal(d) as real)
  {
    DigitsAfterTextShape(prefix, d, suffix);
    ScanDigitsOf(prefix + d + suffix, |prefix|, d);
  }

  lemma DigitsAfterTextShape(prefix: string, d: string, suffix: string)
    requires !HasDigit(prefix) && (prefix == [] || prefix[|prefix| - 1] != '-')
    requires d != [] && AllDigits(d)
    requires suffix == [] || (!IsDigit(suffix[0]) && suffix[0] != '.')
    ensures DigitsTextAt(prefix + d + suffix, |prefix|, d)
  {
    PartsOfConcat(prefix, d, suffix);
  }

  /** Where `prefix`, `d` and `suffix` sit in `prefix + d + suffix`. */
  lemma PartsOfConcat(prefix: string, d: string, suffix: string)
    ensures var s, p := prefix + d + suffix, |prefix|;
      && (forall k :: 0 <= k < p ==> s[k] == prefix[k])
      && (forall k :: p <= k < p + |d| ==> s[k] == d[k - p])
      && (p + |d| < |s| ==> s[p + |d|] == suffix[0])
      && s[p..p + |d|] == d
  {
    var s, p := prefix + d + suffix, |prefix|;
    assert s[p..p + |d|] == d;
  }

  /** For text without whitespace at its ends the scanner sees the text with every comma deleted. */
  lemma ToNumberOfTrimmed(x: string)
    requires x != [] && !IsSpace(x[0]) && !IsSpace(x[|x| - 1])
    ensures ToNumber(Some(x)) == ScanNumber(RemoveChar(x, ','))
  {
    StripNoSpaceEnds(x);
  }

  lemma AllDigitsHaveNoComma(d: string)
    requires AllDigits(d)
    ensures ',' !in d
  {
    forall k | 0 <= k < |d| ensures d[k] != ',' {
      assert IsDigit(d[k]);
    }
  }

  /** A unit after the number is ignored: digits followed by text such as " kcal" read as the digits. */
  lemma UnitSuffixIgnored(d: string, unit: string)
    requires d != [] && AllDigits(d)
    requires unit != [] && !IsDigit(unit[0]) && unit[0] != '.' && ',' !in unit && !IsSpace(unit[|unit| - 1])
    ensures ToNumber(Some(d + unit)) == Some(Decimal(d) as real)
  {
    UnitTextTrimmed(d, unit);
    UnitTextHasNoComma(d, unit);
    UnitTextScan(d, unit);
  }

  lemma UnitTextTrimmed(d: string, unit: string)
    requires d != [] && AllDigits(d) && unit != [] && !IsSpace(unit[|unit| - 1])
    ensures ToNumber(Some(d + unit)) == ScanNumber(RemoveChar(d + unit, ','))
  {
    var x := d + unit;
    assert x[0] == d[0] && x[|x| - 1] == unit[|unit| - 1];
    ToNumberOfTrimmed(x);
  }

  lemma UnitTextHasNoComma(d: string, unit: string)
    requires AllDigits(d) && ',' !in unit
    ensures RemoveChar(d + unit, ',') == d + unit
  {
    AllDigitsHaveNoComma(d);
    assert ',' !in d + unit;
    RemoveAbsentChar(d + unit, ',');
  }

  lemma UnitTextScan(d: string, unit: string)
    requires d != [] && AllDigits(d)
    requires unit != [] && !IsDigit(unit[0]) && unit[0] != '.'
    ensures ScanNumber(d + unit) == Some(Decimal(d) as real)
  {
    DigitsAfterTextShape([], d, unit);
    assert [] + d + unit == d + unit;
    ScanDigitsOf(d + unit, 0, d);
  }

  /** A leading point is skipped: ".5" reads as 5, not 0.5. */
  lemma LeadingPointSkipped(d: string)
    requires d != [] && AllDigits(d)
    ensures ToNumber(Some("." + d)) == Some(Decimal(d) as real)
  {
    var x := "." + d;
    assert ToNumber(Some(x)) == ScanNumber(RemoveChar(x, ',')) by {
      assert x[0] == '.' && x[|x| - 1] == d[|d| - 1];
      ToNumberOfTrimmed(x);
    }
    assert RemoveChar(x, ',') == x by {
      AllDigitsHaveNoComma(d);
      assert ',' !in x;
      RemoveAbsentChar(x, ',');
    }
    assert ScanNumber(x) == Some(Decimal(d) as real) by {
      assert !HasDigit(".");
      ScanDigitsAfterText(".", d, "");
      assert "." + d + "" == x;
    }
  }

  /** Deleting the commas of two digit runs joined by one comma joins the runs. */
  lemma RemoveJoiningComma(a: string, b: string)
    requires AllDigits(a) && AllDigits(b)
    ensures RemoveChar(a + "," + b, ',') == a + b
  {
    AllDigitsHaveNoComma(a);
    AllDigitsHaveNoComma(b);
    RemoveCharAppend(a + ",", b, ',');
    RemoveCharAppend(a, ",", ',');
    RemoveAbsentChar(a, ',');
    RemoveAbsentChar(b, ',');
    assert RemoveChar(",", ',') == [];
  }

  lemma AllDigitsAppend(a: string, b: string)
    requires AllDigits(a) && AllDigits(b)
    ensures AllDigits(a + b)
  {
    assert forall k :: 0 <= k < |a + b| ==> (a + b)[k] == (if k < |a| then a[k] else b[k - |a|]);
  }

  /**
   * Every comma is deleted before scanning, whether it separates thousands ("1,234" reads as 1234)
   * or is a decimal comma ("1,5" reads as 15, not 1.5).
   */
  lemma CommaDeleted(a: string, b: string)
    requires a != [] && b != [] && AllDigits(a) && AllDigits(b)
    ensures ToNumber(Some(a + "," + b)) == Some(Decimal(a + b) as real)
  {
    CommaTextTrimmed(a, b);
    RemoveJoiningComma(a, b);
    AllDigitsAppend(a, b);
    DigitsScan(a + b);
  }

  lemma CommaTextTrimmed(a: string, b: string)
    requires a != [] && b != [] && AllDigits(a) && AllDigits(b)
    ensures ToNumber(Some(a + "," + b)) == ScanNumber(RemoveChar(a + "," + b, ','))
  {
    var x := a + "," + b;
    assert x[0] == a[0] && x[|x| - 1] == b[|b| - 1];
    ToNumberOfTrimmed(x);
  }

  /** Text made only of digits reads as their integer. */
  lemma DigitsScan(d: string)
    requires d != [] && AllDigits(d)
    ensures ScanNumber(d) == Some(Decimal(d) as real)
  {
    DigitsAfterTextShape([], d, []);
    assert [] + d + [] == d;
    ScanDigitsOf(d, 0, d);
  }

  /** `s` starts with a run of `n` digits, a point and a run of `m` digits not followed by a digit. */
  predicate DecimalAtStart(s: string, n: nat, m: nat) {
    && 0 < n && 0 < m && n + 1 + m <= |s| && s[n] == '.'
    && (forall k :: 0 <= k < n ==> IsDigit(s[k]))
    && (forall k :: n + 1 <= k < n + 1 + m ==> IsDigit(s[k]))
    && (n + 1 + m == |s| || !IsDigit(s[n + 1 + m]))
  }

  /** Text that starts with digits, a point and digits reads as the integer part plus the fraction. */
  lemma ScanDecimalAt(s: string, n: nat, m: nat, v: real)
    requires DecimalAtStart(s, n, m) && v == Decimal(s[..n]) as real + Fraction(s[n + 1..n + 1 + m])
    ensures ScanNumber(s) == Some(v)
  {
    DigitRunIs(s, 0, n);
    DigitRunIs(s, n + 1, m);
    ValueOfDecimal(s, n, m);
    FirstMatchIs(s, 0);
  }

  /** `re.search` finds the first position where the pattern matches. */
  lemma FirstMatchIs(s: string, p: nat)
    requires MatchesAt(s, p) && forall k :: 0 <= k < p ==> !MatchesAt(s, k)
    ensures ScanNumber(s) == Some(ValueAt(s, p))
  {
    assert FirstMatch(s, 0) == Some(p);
  }

  /** A match at a run of `n` digits followed by a point and a run of `m` digits reads both runs. */
  lemma ValueOfDecimal(s: string, n: nat, m: nat)
    requires 0 < m && n + 1 + m <= |s| && IsDigit(s[0]) && IsDigit(s[n + 1])
    requires DigitRun(s, 0) == n && s[n] == '.' && DigitRun(s, n + 1) == m
    ensures ValueAt(s, 0) == Decimal(s[..n]) as real + Fraction(s[n + 1..n + 1 + m])
  {
    assert s[0..0 + n] == s[..n];
  }

  /**
   * A minus sign at `p` and a run of `n` digits, with no digit before it and neither a digit nor a
   * point after it.
   */
  predicate NegativeAt(s: string, p: nat, n: nat) {
    && 0 < n && p + 1 + n <= |s| && s[p] == '-'
    && (forall k :: 0 <= k < p ==> !IsDigit(s[k]))
    && (forall k :: p + 1 <= k < p + 1 + n ==> IsDigit(s[k]))
    && (p + 1 + n == |s| || (!IsDigit(s[p + 1 + n]) && s[p + 1 + n] != '.'))
  }

  /** Such a sign and run is the leftmost match, and the scan reads the negated integer. */
  lemma ScanNegativeAt(s: string, p: nat, n: nat, v: real)
    requires NegativeAt(s, p, n) && v == -(Decimal(s[p + 1..p + 1 + n]) as real)
    ensures ScanNumber(s) == Some(v)
  {
    DigitRunIs(s, p + 1, n);
    ValueOfNegative(s, p, n);
    NoMatchBeforeMinus(s, p);
    FirstMatchIs(s, p);
  }

  /** Before a minus sign preceded by no digit the pattern does not match. */
  lemma NoMatchBeforeMinus(s: string, p: nat)
    requires p < |s| && s[p] == '-'
    requires forall k :: 0 <= k < p ==> !IsDigit(s[k])
    ensures forall k :: 0 <= k < p ==> !MatchesAt(s, k)
  {
    forall k | 0 <= k < p ensures !MatchesAt(s, k) {
      if k + 1 < p {
        assert !IsDigit(s[k + 1]);
      } else {
        assert s[k + 1] == '-';
      }
    }
  }

  /** A minus sign followed by a run of `n` digits without a point after it reads the negated run. */
  lemma ValueOfNegative(s: string, p: nat, n: nat)
    requires 0 < n && p + 1 + n <= |s| && s[p] == '-' && IsDigit(s[p + 1]) && DigitRun(s, p + 1) == n
    requires p + 1 + n == |s| || s[p + 1 + n] != '.'
    ensures MatchesAt(s, p) && ValueAt(s, p) == -(Decimal(s[p + 1..p + 1 + n]) as real)
  {
  }

  /** A point between two runs of digits is a decimal point: `'12.5'` reads as 12 + 0.5. */
  lemma DecimalPointRead(a: string, b: string)
    requires a != [] && b != [] && AllDigits(a) && AllDigits(b)
    ensures ToNumber(Some(a + "." + b)) == Some(Decimal(a) as real + Fraction(b))
  {
    DecimalTextPlain(a, b);
    ScanOfPlainText(a + "." + b);
    DecimalTextScan(a, b);
  }

  lemma DecimalTextPlain(a: string, b: string)
    requires a != [] && b != [] && AllDigits(a) && AllDigits(b)
    ensures var x := a + "." + b; !IsSpace(x[0]) && !IsSpace(x[|x| - 1]) && ',' !in x
  {
    var x := a + "." + b;
    assert x[0] == a[0] && x[|x| - 1] == b[|b| - 1];
    AllDigitsHaveNoComma(a);
    AllDigitsHaveNoComma(b);
  }

  lemma DecimalTextScan(a: string, b: string)
    requires a != [] && b != [] && AllDigits(a) && AllDigits(b)
    ensures ScanNumber(a + "." + b) == Some(Decimal(a) as real + Fraction(b))
  {
    DecimalTextShape(a, b);
    SlicesOfDecimalText(a, b);
    ScanDecimalOf(a + "." + b, a, b);
  }

  /** `s` starts with the digits `a`, a point and the digits `b`, not followed by a digit. */
  predicate DecimalTextAt(s: string, a: string, b: string) {
    && AllDigits(a) && AllDigits(b) && DecimalAtStart(s, |a|, |b|)
    && s[..|a|] == a && s[|a| + 1..|a| + 1 + |b|] == b
  }

  /** `ScanDecimalAt` where the two runs of digits are `a` and `b`. */
  lemma ScanDecimalOf(s: string, a: string, b: string)
    requires DecimalTextAt(s, a, b)
    ensures ScanNumber(s) == Some(Decimal(a) as real + Fraction(b))
  {
    DecimalOfSlices(s, a, b);
    ScanDecimalAt(s, |a|, |b|, Decimal(a) as real + Fraction(b));
  }

  lemma DecimalOfSlices(s: string, a: string, b: string)
    requires DecimalTextAt(s, a, b)
    ensures Decimal(s[..|a|]) as real + Fraction(s[|a| + 1..|a| + 1 + |b|]) == Decimal(a) as real + Fraction(b)
  {
  }

  /** Where the digits and the point sit in `a + "." + b`. */
  lemma DecimalTextShape(a: string, b: string)
    requires a != [] && b != [] && AllDigits(a) && AllDigits(b)
    ensures DecimalAtStart(a + "." + b, |a|, |b|)
  {
    var x := a + "." + b;
    assert forall k :: 0 <= k < |a| ==> x[k] == a[k];
    assert forall k :: |a| + 1 <= k < |a| + 1 + |b| ==> x[k] == b[k - |a| - 1];
  }

  /** The two runs of digits in `a + "." + b` are `a` and `b`. */
  lemma SlicesOfDecimalText(a: string, b: string)
    ensures var x := a + "." + b; x[..|a|] == a && x[|a| + 1..|a| + 1 + |b|] == b
  {
    var x := a + "." + b;
    assert x[..|a|] == a;
    assert x[|a| + 1..|a| + 1 + |b|] == b;
  }

  /** Text without commas and without whitespace at its ends is scanned as it is. */
  lemma ScanOfPlainText(x: string)
    requires x != [] && !IsSpace(x[0]) && !IsSpace(x[|x| - 1]) && ',' !in x
    ensures ToNumber(Some(x)) == ScanNumber(x)
  {
    ToNumberOfTrimmed(x);
    RemoveAbsentChar(x, ',');
  }

  /** A minus sign directly before a run of digits is read: `'-3'` reads as -3. */
  lemma MinusSignRead(d: string)
    requires d != [] && AllDigits(d)
    ensures ToNumber(Some("-" + d)) == Some(-(Decimal(d) as real))
  {
    NegativeTextPlain(d);
    ScanOfPlainText("-" + d);
    NegativeTextScan(d);
  }

  lemma NegativeTextPlain(d: string)
    requires d != [] && AllDigits(d)
    ensures var x := "-" + d; !IsSpace(x[0]) && !IsSpace(x[|x| - 1]) && ',' !in x
  {
    var x := "-" + d;
    assert x[0] == '-' && x[|x| - 1] == d[|d| - 1];
    AllDigitsHaveNoComma(d);
  }

  lemma NegativeTextScan(d: string)
    requires d != [] && AllDigits(d)
    ensures ScanNumber("-" + d) == Some(-(Decimal(d) as real))
  {
    NegativeTextShape(d);
    ScanNegativeOf("-" + d, d);
  }

  /** `s` is a minus sign followed by the digits `d`. */
  predicate NegativeTextAt(s: string, d: string) {
    AllDigits(d) && NegativeAt(s, 0, |d|) && s[1..1 + |d|] == d
  }

  /** `ScanNegativeAt` where the run of digits is `d`. */
  lemma ScanNegativeOf(s: string, d: string)
    requires NegativeTextAt(s, d)
    ensures ScanNumber(s) == Some(-(Decimal(d) as real))
  {
    NegativeOfSlice(s, d);
    ScanNegativeAt(s, 0, |d|, -(Decimal(d) as real));
  }

  lemma NegativeOfSlice(s: string, d: string)
    requires NegativeTextAt(s, d)
    ensures -(Decimal(s[1..1 + |d|]) as real) == -(Decimal(d) as real)
  {
  }

  /** Where the minus sign and the digits sit in `"-" + d`. */
  lemma NegativeTextShape(d: string)
    requires d != [] && AllDigits(d)
    ensures NegativeTextAt("-" + d, d)
  {
    var x := "-" + d;
    assert forall k :: 1 <= k < 1 + |d| ==> x[k] == d[k - 1];
    assert x[1..1 + |d|] == d;
  }

  /** Text without a digit reads as NaN: `'abc'`. */
  lemma LettersAreNaN()
    ensures ToNumber(Some("abc")) == None
  {
    ToNumberOfTrimmed("abc");
    RemoveAbsentChar("abc", ',');
    assert !IsDigit("abc"[0]) && !IsDigit("abc"[1]) && !IsDigit("abc"[2]);
    ScanNumberNoneIff("abc");
  }
}

/**
 * The sign-up validators: `validate_email` (a full match of `[^@\s]+@[^@\s]+\.[^@\s]+`) and
 * `strong_password` (at least 8 characters, with an ASCII letter and a digit).
 */
module Validators {
  import opened Wrappers
  import opened Text

  /** A character of the class `[^@\s]`. */
  predicate Plain(c: char) {
    c != '@' && !IsSpace(c)
  }

  predicate AllPlain(s: string) {
    forall k :: 0 <= k < |s| ==> Plain(s[k])
  }

  /**
   * The whole of `s` matches `[^@\s]+@[^@\s]+\.[^@\s]+`: an '@' at `i` and a '.' at `j` split it
   * into three non-empty runs of plain characters.
   */
  ghost predicate EmailPattern(s: string) {
    exists i, j :: 0 < i && i + 1 < j && j + 1 < |s| && s[i] == '@' && s[j] == '.'
                   && AllPlain(s[..i]) && AllPlain(s[i + 1..j]) && AllPlain(s[j + 1..])
  }

  /** The position of the first '@', or `|s|` when there is none. */
  function AtIndex(s: string): (i: nat)
    ensures i <= |s|
    ensures forall k :: 0 <= k < i ==> s[k] != '@'
    ensures i < |s| ==> s[i] == '@'
  {
    if s == [] || s[0] == '@' then 0 else 1 + AtIndex(s[1..])
  }

  /** A '.' that is neither the first nor the last character. */
  predicate HasInnerDot(d: string) {
    exists j :: 0 < j < |d| - 1 && d[j] == '.'
  }

  /**
   * `validate_email(email)`: `email or ""` must match the pattern. The domain part after the one
   * '@' is all plain and has an inner '.', and so does the part before it.
   */
  function ValidateEmail(email: Option<string>): (ok: bool)
    ensures ok <==> email.Some? && EmailPattern(email.value)
  {
    var s := email.GetOr("");
    EmailPatternIff(s);
    ScanAccepts(s)
  }

  /** The scan's verdict, stated on the first '@'. */
  predicate ScanAccepts(s: string) {
    var i := AtIndex(s);
    0 < i < |s| && AllPlain(s[..i]) && AllPlain(s[i + 1..]) && HasInnerDot(s[i + 1..])
  }

  lemma EmailPatternIff(s: string)
    ensures EmailPattern(s) <==> ScanAccepts(s)
  {
    if ScanAccepts(s) {
      ScanGivesPattern(s);
    }
    if EmailPattern(s) {
      var i, j :| 0 < i && i + 1 < j && j + 1 < |s| && s[i] == '@' && s[j] == '.'
                  && AllPlain(s[..i]) && AllPlain(s[i + 1..j]) && AllPlain(s[j + 1..]);
      PatternGivesScan(s, i, j);
    }
  }

  lemma ScanGivesPattern(s: string)
    requires ScanAccepts(s)
    ensures EmailPattern(s)
  {
    var i := AtIndex(s);
    var d := s[i + 1..];
    var j' :| 0 < j' < |d| - 1 && d[j'] == '.';
    var j := i + 1 + j';
    assert s[i + 1..j] == d[..j'];
    assert s[j + 1..] == d[j' + 1..];
    assert s[j] == '.';
  }

  lemma PatternGivesScan(s: string, i: int, j: int)
    requires 0 < i && i + 1 < j && j + 1 < |s| && s[i] == '@' && s[j] == '.'
    requires AllPlain(s[..i]) && AllPlain(s[i + 1..j]) && AllPlain(s[j + 1..])
    ensures ScanAccepts(s)
  {
    var a := AtIndex(s);
    assert a == i;
    var d := s[i + 1..];
    forall k | 0 <= k < |d| ensures Plain(d[k]) {
      if k < j - i - 1 {
        assert d[k] == s[i + 1..j][k];
      } else if k > j - i - 1 {
        assert d[k] == s[j + 1..][k - (j - i)];
      }
    }
    assert d[j - i - 1] == '.';
  }

  /** A valid address has exactly one '@' and no whitespace. */
  lemma ValidEmailShape(s: string)
    requires ValidateEmail(Some(s))
    ensures forall k :: 0 <= k < |s| ==> !IsSpace(s[k])
    ensures exists i :: 0 < i < |s| - 1 && s[i] == '@' && forall k :: 0 <= k < |s| && s[k] == '@' ==> k == i
  {
    var i := AtIndex(s);
    forall k | 0 <= k < |s| ensures !IsSpace(s[k]) && (s[k] == '@' ==> k == i) {
      if k < i {
        assert s[..i][k] == s[k];
      } else if k > i {
        assert s[i + 1..][k - i - 1] == s[k];
      }
    }
  }

  lemma {:induction false} AtIndexOfPlain(s: string)
    requires AllPlain(s)
    ensures AtIndex(s) == |s|
  {
    if s != [] {
      assert AllPlain(s[1..]) by {
        forall k | 0 <= k < |s[1..]| ensures Plain(s[1..][k]) {
          assert s[1..][k] == s[k + 1];
        }
      }
      AtIndexOfPlain(s[1..]);
    }
  }

  /** A local part, an '@', a name and a top-level domain around one '.' always validate. */
  lemma ThreePartsValidate(local: string, name: string, tld: string)
    requires local != [] && name != [] && tld != []
    requires AllPlain(local) && AllPlain(name) && AllPlain(tld)
    ensures ValidateEmail(Some(local + "@" + name + "." + tld))
  {
    var s := local + "@" + name + "." + tld;
    var i, j := |local|, |local| + 1 + |name|;
    assert s[..i] == local;
    assert s[i + 1..j] == name;
    assert s[j + 1..] == tld;
    assert s[i] == '@' && s[j] == '.';
  }

  /** Without an '@' an address never validates. */
  lemma NoAtIsInvalid(s: string)
    requires AllPlain(s)
    ensures !ValidateEmail(Some(s))
  {
    AtIndexOfPlain(s);
  }

  /** The outcome of `strong_password`. */
  datatype PasswordVerdict = Strong | TooShort | LacksLetterOrDigit

  predicate HasLetter(s: string) {
    exists k :: 0 <= k < |s| && IsLetter(s[k])
  }

  predicate HasDigitChar(s: string) {
    exists k :: 0 <= k < |s| && IsDigit(s[k])
  }

  /**
   * `strong_password(pw)`: an unset, empty or shorter than 8 characters password is too short
   * (checked first); otherwise it must contain an ASCII letter and a digit.
   */
  function StrongPassword(pw: Option<string>): (v: PasswordVerdict)
    ensures v == TooShort <==> |pw.GetOr("")| < 8
    ensures v == Strong <==> |pw.GetOr("")| >= 8 && HasLetter(pw.GetOr("")) && HasDigitChar(pw.GetOr(""))
  {
    var s := pw.GetOr("");
    if |s| < 8 then TooShort
    else if !HasLetter(s) || !HasDigitChar(s) then LacksLetterOrDigit
    else Strong
  }

  /** Eight letters are not enough; one digit among eight characters with a letter is. */
  lemma PasswordExamples()
    ensures StrongPassword(Some("abcdefgh")) == LacksLetterOrDigit
    ensures StrongPassword(Some("abcdefg1")) == Strong
    ensures StrongPassword(Some("a1")) == TooShort
    ensures StrongPassword(None) == TooShort
  {
    var weak := "abcdefgh";
    assert !HasDigitChar(weak) by {
      forall k | 0 <= k < |weak| ensures !IsDigit(weak[k]) {
      }
    }
    var ok := "abcdefg1";
    assert IsLetter(ok[0]) && IsDigit(ok[7]);
  }
}

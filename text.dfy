/**
 * The string helpers the tracker's Python code uses, restricted to ASCII:
 * `str.lower`, `str.strip`, the regex classes `\s`, `\d` and `[A-Za-z]`.
 */
module Text {

  /** Python's `\s` / `str.isspace` on ASCII: tab to carriage return, the four separators 0x1C-0x1F, space. */
  predicate IsSpace(c: char) {
    (9 <= c as int <= 13) || (28 <= c as int <= 32)
  }

  /** `\d` on ASCII. */
  predicate IsDigit(c: char) {
    '0' <= c <= '9'
  }

  /** `[A-Za-z]`. */
  predicate IsLetter(c: char) {
    ('a' <= c <= 'z') || ('A' <= c <= 'Z')
  }

  function LowerChar(c: char): (r: char)
    ensures !('A' <= r <= 'Z')
    ensures !('A' <= c <= 'Z') ==> r == c
  {
    if 'A' <= c <= 'Z' then (c as int + 32) as char else c
  }

  /** `str.lower()` on ASCII letters; other characters are kept. */
  function Lower(s: string): (r: string)
    ensures |r| == |s|
    ensures forall i :: 0 <= i < |s| ==> r[i] == LowerChar(s[i])
  {
    if s == [] then [] else [LowerChar(s[0])] + Lower(s[1..])
  }

  /** The position of the first character that is not whitespace, or `|s|`. */
  function FirstNonSpace(s: string): (i: nat)
    ensures i <= |s|
    ensures forall k :: 0 <= k < i ==> IsSpace(s[k])
    ensures i < |s| ==> !IsSpace(s[i])
  {
    if s == [] || !IsSpace(s[0]) then 0 else 1 + FirstNonSpace(s[1..])
  }

  /** One past the last character that is not whitespace, or 0. */
  function EndNonSpace(s: string): (j: nat)
    ensures j <= |s|
    ensures forall k :: j <= k < |s| ==> IsSpace(s[k])
    ensures 0 < j ==> !IsSpace(s[j - 1])
  {
    if s == [] || !IsSpace(s[|s| - 1]) then |s| else EndNonSpace(s[..|s| - 1])
  }

  /** `str.strip()`: whitespace removed at both ends. */
  function Strip(s: string): (r: string)
    ensures |r| <= |s|
    ensures r == [] || (!IsSpace(r[0]) && !IsSpace(r[|r| - 1]))
  {
    var i, j := FirstNonSpace(s), EndNonSpace(s);
    if i < j then s[i..j] else []
  }

  /** The stripped string is the slice of `s` between the first and the last non-space character. */
  lemma StripIsSlice(s: string) returns (i: nat)
    ensures i + |Strip(s)| <= |s| && Strip(s) == s[i..i + |Strip(s)|]
  {
    i := if FirstNonSpace(s) < EndNonSpace(s) then FirstNonSpace(s) else 0;
  }

  /** Stripping a string without capitals leaves none. */
  lemma StripKeepsNoCapitals(s: string)
    requires forall k :: 0 <= k < |s| ==> !('A' <= s[k] <= 'Z')
    ensures forall k :: 0 <= k < |Strip(s)| ==> !('A' <= Strip(s)[k] <= 'Z')
  {
    var i := StripIsSlice(s);
    assert forall k :: 0 <= k < |Strip(s)| ==> Strip(s)[k] == s[i + k];
  }

  /** Stripping removes whitespace only: every other character occurs in the stripped string. */
  lemma StripKeepsNonSpace(s: string, c: char)
    requires !IsSpace(c)
    ensures c in Strip(s) <==> c in s
  {
    var i, j := FirstNonSpace(s), EndNonSpace(s);
    var r := Strip(s);
    if c in s {
      var k :| 0 <= k < |s| && s[k] == c;
      assert i <= k < j;
      assert r[k - i] == c;
    }
    if c in r {
      var k :| 0 <= k < |r| && r[k] == c;
      assert s[i + k] == c;
    }
  }

  /** Stripping a string whose end characters are not whitespace changes nothing. */
  lemma StripNoSpaceEnds(s: string)
    requires s != [] && !IsSpace(s[0]) && !IsSpace(s[|s| - 1])
    ensures Strip(s) == s
  {
    assert FirstNonSpace(s) == 0 && EndNonSpace(s) == |s|;
  }

  /** Lower-casing a string without capitals changes nothing. */
  lemma LowerOfLowerCase(s: string)
    requires forall k :: 0 <= k < |s| ==> !('A' <= s[k] <= 'Z')
    ensures Lower(s) == s
  {
    assert forall k :: 0 <= k < |s| ==> Lower(s)[k] == s[k];
  }

  /** Lower-casing twice is lower-casing once. */
  lemma LowerIdempotent(s: string)
    ensures Lower(Lower(s)) == Lower(s)
  {
    LowerOfLowerCase(Lower(s));
  }

  /** Lower-casing works character by character, so it distributes over concatenation. */
  lemma LowerAppend(a: string, b: string)
    ensures Lower(a + b) == Lower(a) + Lower(b)
  {
    assert forall k :: 0 <= k < |a + b| ==> Lower(a + b)[k] == (Lower(a) + Lower(b))[k];
  }

  /** `FirstNonSpace` is the only position with its defining properties. */
  lemma FirstNonSpaceUnique(s: string, i: nat)
    requires i <= |s| && (forall k :: 0 <= k < i ==> IsSpace(s[k])) && (i < |s| ==> !IsSpace(s[i]))
    ensures FirstNonSpace(s) == i
  {
  }

  /** `EndNonSpace` is the only position with its defining properties. */
  lemma EndNonSpaceUnique(s: string, j: nat)
    requires j <= |s| && (forall k :: j <= k < |s| ==> IsSpace(s[k])) && (0 < j ==> !IsSpace(s[j - 1]))
    ensures EndNonSpace(s) == j
  {
  }

  /** A leading whitespace character does not survive stripping. */
  lemma StripLeadingSpace(c: char, s: string)
    requires IsSpace(c)
    ensures Strip([c] + s) == Strip(s)
  {
    var t := [c] + s;
    var i, j := FirstNonSpace(s), EndNonSpace(s);
    assert t[1..] == s;
    assert FirstNonSpace(t) == i + 1;
    EndNonSpaceCons(c, s);
    if i < j {
      assert t[i + 1..j + 1] == s[i..j];
    }
  }

  lemma EndNonSpaceCons(c: char, s: string)
    requires IsSpace(c)
    ensures FirstNonSpace(s) < EndNonSpace(s) ==> EndNonSpace([c] + s) == EndNonSpace(s) + 1
    ensures FirstNonSpace(s) >= EndNonSpace(s) ==> EndNonSpace([c] + s) == 0
  {
    var t := [c] + s;
    var i, j := FirstNonSpace(s), EndNonSpace(s);
    assert forall k :: 1 <= k < |t| ==> t[k] == s[k - 1];
    if i < j {
      EndNonSpaceUnique(t, j + 1);
    } else {
      assert i == |s|;
      EndNonSpaceUnique(t, 0);
    }
  }

  /** A trailing whitespace character does not survive stripping. */
  lemma StripTrailingSpace(c: char, s: string)
    requires IsSpace(c)
    ensures Strip(s + [c]) == Strip(s)
  {
    var t := s + [c];
    var i, j := FirstNonSpace(s), EndNonSpace(s);
    EndNonSpaceUnique(t, j);
    if i < j {
      FirstNonSpaceUnique(t, i);
      assert t[i..j] == s[i..j];
    } else {
      assert j == 0;
      FirstNonSpaceUnique(t, |t|);
    }
  }

  /** Stripping twice is stripping once. */
  lemma StripIdempotent(s: string)
    ensures Strip(Strip(s)) == Strip(s)
  {
    var r := Strip(s);
    if r != [] {
      StripNoSpaceEnds(r);
    }
  }

  /** `s.replace(c, "")`. */
  function RemoveChar(s: string, c: char): (r: string)
    ensures c !in r
    ensures |r| <= |s|
    ensures forall x :: x in r <==> x in s && x != c
  {
    if s == [] then []
    else if s[0] == c then RemoveChar(s[1..], c)
    else [s[0]] + RemoveChar(s[1..], c)
  }

  /** Removing a character that does not occur changes nothing. */
  lemma RemoveAbsentChar(s: string, c: char)
    requires c !in s
    ensures RemoveChar(s, c) == s
  {
  }

  lemma RemoveCharAppend(a: string, b: string, c: char)
    ensures RemoveChar(a + b, c) == RemoveChar(a, c) + RemoveChar(b, c)
  {
    if a != [] {
      assert (a + b)[1..] == a[1..] + b;
      RemoveCharAppend(a[1..], b, c);
    } else {
      assert a + b == b;
    }
  }
}

/**
 * The few string operations the mirror relies on: `str::contains`,
 * `str::ends_with` and `str::replace("%20", " ")`.
 * Characters stand for the bytes of the Rust strings.
 */
module Strings {

  predicate StartsWith(s: string, prefix: string) {
    |prefix| <= |s| && s[..|prefix|] == prefix
  }

  predicate EndsWith(s: string, suffix: string) {
    |suffix| <= |s| && s[|s| - |suffix|..] == suffix
  }

  /** `s.contains(sub)`: some position of `s` starts an occurrence of `sub`. */
  predicate Contains(s: string, sub: string)
    decreases |s|
  {
    StartsWith(s, sub) || (|s| > 0 && Contains(s[1..], sub))
  }

  /** An occurrence of `sub` at position `i` is a witness for `Contains`. */
  lemma {:induction false} ContainsAt(s: string, sub: string, i: nat)
    requires i + |sub| <= |s| && s[i..i + |sub|] == sub
    ensures Contains(s, sub)
    decreases i
  {
    if i > 0 {
      assert s[1..][i - 1..i - 1 + |sub|] == s[i..i + |sub|];
      ContainsAt(s[1..], sub, i - 1);
    }
  }

  /** `Contains` holds only when there is such a position. */
  lemma {:induction false} ContainsWitness(s: string, sub: string) returns (i: nat)
    requires Contains(s, sub)
    ensures i + |sub| <= |s| && s[i..i + |sub|] == sub
    decreases |s|
  {
    if StartsWith(s, sub) {
      i := 0;
    } else {
      var j := ContainsWitness(s[1..], sub);
      assert s[1..][j..j + |sub|] == s[j + 1..j + 1 + |sub|];
      i := j + 1;
    }
  }

  /**
   * `s.replace("%20", " ")`: occurrences of "%20" are found from left to
   * right, without overlap, and each becomes one space. No other
   * percent-decoding takes place.
   */
  function DecodeSpaces(s: string): (r: string)
    ensures |r| <= |s|
    ensures forall c :: c in r && c != ' ' ==> c in s
    decreases |s|
  {
    if StartsWith(s, "%20") then " " + DecodeSpaces(s[3..])
    else if s == [] then []
    else [s[0]] + DecodeSpaces(s[1..])
  }

  /** After decoding no "%20" is left: the space put in cannot start or complete a new one. */
  lemma {:induction false} DecodeSpacesLeavesNoEscape(s: string)
    ensures !Contains(DecodeSpaces(s), "%20")
    decreases |s|
  {
    if s == [] {
    } else if StartsWith(s, "%20") {
      DecodeSpacesLeavesNoEscape(s[3..]);
      var r := DecodeSpaces(s[3..]);
      assert DecodeSpaces(s) == " " + r;
      assert (" " + r)[1..] == r;
      assert (" " + r)[0] == ' ';
      assert |" " + r| >= 3 ==> (" " + r)[..3][0] != "%20"[0];
    } else {
      DecodeSpacesLeavesNoEscape(s[1..]);
      var r := DecodeSpaces(s[1..]);
      assert DecodeSpaces(s) == [s[0]] + r;
      assert ([s[0]] + r)[1..] == r;
      // a "%20" at the head of the result would need r to begin with "20",
      // hence s[1..] to begin with "20" and s itself with "%20"
      assert !StartsWith([s[0]] + r, "%20") by {
        DecodeSpacesHead(s[1..]);
        if |s| > 2 {
          DecodeSpacesHead(s[2..]);
          assert s[1..][1..] == s[2..];
        }
      }
    }
  }

  /** The first character of the decoded string is a space or the input's own first character. */
  lemma DecodeSpacesHead(s: string)
    ensures |DecodeSpaces(s)| > 0 <==> |s| > 0
    ensures |s| > 0 && !StartsWith(s, "%20") ==> DecodeSpaces(s)[0] == s[0]
    ensures |s| > 0 && StartsWith(s, "%20") ==> DecodeSpaces(s)[0] == ' '
  {
  }

  /** A string without "%20" is left as it is. */
  lemma {:induction false} DecodeSpacesIdentity(s: string)
    requires !Contains(s, "%20")
    ensures DecodeSpaces(s) == s
    decreases |s|
  {
    if s != [] {
      assert !StartsWith(s, "%20");
      DecodeSpacesIdentity(s[1..]);
      assert [s[0]] + s[1..] == s;
    }
  }

  /** A leading '/' survives decoding, so dropping the first character drops it. */
  lemma DecodeSpacesKeepsSlash(s: string)
    requires StartsWith(s, "/")
    ensures DecodeSpaces(s) == "/" + DecodeSpaces(s[1..])
  {
    assert s[0] == '/';
  }
}

/**
 * The string operations the link rules use: ASCII case mapping and
 * `str::replace` (every non-overlapping occurrence, scanned left to right).
 */
module Text {

  predicate IsAsciiUpper(c: char) { 'A' <= c <= 'Z' }

  predicate IsAsciiLower(c: char) { 'a' <= c <= 'z' }

  function LowerChar(c: char): (r: char)
    ensures !IsAsciiUpper(r)
    ensures !IsAsciiUpper(c) ==> r == c
  {
    if IsAsciiUpper(c) then (c as int + 32) as char else c
  }

  function UpperChar(c: char): (r: char)
    ensures !IsAsciiLower(r)
    ensures !IsAsciiLower(c) ==> r == c
  {
    if IsAsciiLower(c) then (c as int - 32) as char else c
  }

  /** `to_lowercase`, restricted to the ASCII letters. */
  function ToLower(s: string): (r: string)
    ensures |r| == |s|
    ensures forall i :: 0 <= i < |r| ==> r[i] == LowerChar(s[i])
  {
    if s == [] then [] else [LowerChar(s[0])] + ToLower(s[1..])
  }

  /** `to_ascii_uppercase`. */
  function ToAsciiUpper(s: string): (r: string)
    ensures |r| == |s|
    ensures forall i :: 0 <= i < |r| ==> r[i] == UpperChar(s[i])
  {
    if s == [] then [] else [UpperChar(s[0])] + ToAsciiUpper(s[1..])
  }

  /** Lower-casing twice is lower-casing once. */
  lemma ToLowerIdempotent(s: string)
    ensures ToLower(ToLower(s)) == ToLower(s)
  {
  }

  /** `pat` occurs in `s` at position `i`. */
  predicate OccursAt(s: string, pat: string, i: nat)
  {
    i + |pat| <= |s| && s[i..i + |pat|] == pat
  }

  ghost predicate Contains(s: string, pat: string)
  {
    exists i: nat :: OccursAt(s, pat, i)
  }

  /** `s.replace(pat, rep)` for a non-empty pattern. */
  function Replace(s: string, pat: string, rep: string): (r: string)
    requires |pat| > 0
    ensures |pat| == |rep| ==> |r| == |s|
    decreases |s|
  {
    if |s| < |pat| then s
    else if s[..|pat|] == pat then rep + Replace(s[|pat|..], pat, rep)
    else [s[0]] + Replace(s[1..], pat, rep)
  }

  /** A string in which the pattern does not occur is left unchanged. */
  lemma {:induction false} ReplaceAbsent(s: string, pat: string, rep: string)
    requires |pat| > 0 && !Contains(s, pat)
    ensures Replace(s, pat, rep) == s
    decreases |s|
  {
    if |s| >= |pat| {
      assert !OccursAt(s, pat, 0);
      assert !Contains(s[1..], pat) by {
        if Contains(s[1..], pat) {
          var i: nat :| OccursAt(s[1..], pat, i);
          assert s[i + 1..i + 1 + |pat|] == s[1..][i..i + |pat|];
          assert OccursAt(s, pat, i + 1);
        }
      }
      ReplaceAbsent(s[1..], pat, rep);
    }
  }

  /** The characters `ghsa` start at position `i` of `r`. */
  predicate GhsaAt(r: string, i: nat)
  {
    i + 3 < |r| && r[i] == 'g' && r[i + 1] == 'h' && r[i + 2] == 's' && r[i + 3] == 'a'
  }

  /** No `ghsa` starts at any position of `r`. */
  predicate NoGhsa(r: string)
  {
    forall i: nat :: i < |r| ==> !GhsaAt(r, i)
  }

  lemma ReplaceKeepsFront(s: string)
    requires |s| >= 4 && s[..4] != "ghsa"
    ensures Replace(s, "ghsa", "GHSA") == [s[0]] + Replace(s[1..], "ghsa", "GHSA")
  {
  }

  /**
   * Upper-casing the characters inside every `ghsa` leaves no `ghsa`: a
   * lower-case character was kept, so a `ghsa` in the result was already
   * one in the input, and its characters would have been upper-cased.
   */
  lemma UpperCasedNoGhsa(s: string, r: string)
    requires GhsaUpperCased(s, r)
    ensures NoGhsa(r)
  {
    forall k: nat | k < |r|
      ensures !GhsaAt(r, k)
    {
      if k + 3 < |r| {
        if InGhsa(s, k) {
          assert !IsAsciiLower(r[k]);
        } else if InGhsa(s, k + 1) {
          assert !IsAsciiLower(r[k + 1]);
        } else if InGhsa(s, k + 2) {
          assert !IsAsciiLower(r[k + 2]);
        } else if InGhsa(s, k + 3) {
          assert !IsAsciiLower(r[k + 3]);
        } else {
          assert r[k] == s[k] && r[k + 1] == s[k + 1] && r[k + 2] == s[k + 2] && r[k + 3] == s[k + 3];
          assert !GhsaAt(s, k);
        }
      }
    }
  }

  /** After upper-casing every `ghsa`, the string does not contain `ghsa`. */
  lemma ReplaceGhsaLeavesNone(s: string)
    ensures !Contains(Replace(s, "ghsa", "GHSA"), "ghsa")
  {
    var r := Replace(s, "ghsa", "GHSA");
    ReplaceGhsaPointwise(s);
    UpperCasedNoGhsa(s, r);
    if Contains(r, "ghsa") {
      var i: nat :| OccursAt(r, "ghsa", i);
      assert r[i..i + 4][0] == r[i] && r[i..i + 4][1] == r[i + 1] && r[i..i + 4][2] == r[i + 2] && r[i..i + 4][3] == r[i + 3];
      assert GhsaAt(r, i);
    }
  }

  /** Position `i` of `s` lies inside an occurrence of `ghsa`. */
  predicate InGhsa(s: string, i: nat)
  {
    GhsaAt(s, i) || (i >= 1 && GhsaAt(s, i - 1)) || (i >= 2 && GhsaAt(s, i - 2)) || (i >= 3 && GhsaAt(s, i - 3))
  }

  /**
   * `r` is `s` with exactly the characters inside an occurrence of `ghsa`
   * upper-cased and every other character kept.
   */
  predicate GhsaUpperCased(s: string, r: string)
  {
    |r| == |s| &&
    forall i: nat :: i < |s| ==> r[i] == (if InGhsa(s, i) then UpperChar(s[i]) else s[i])
  }

  lemma GhsaAtFront(s: string)
    requires |s| >= 4
    ensures GhsaAt(s, 0) <==> s[..4] == "ghsa"
  {
    if GhsaAt(s, 0) {
      assert s[..4] == [s[0], s[1], s[2], s[3]];
    }
    if s[..4] == "ghsa" {
      assert s[0] == s[..4][0] && s[1] == s[..4][1] && s[2] == s[..4][2] && s[3] == s[..4][3];
    }
  }

  /** Dropping a prefix of `d` characters shifts every occurrence by `d`. */
  lemma GhsaShiftAt(s: string, d: nat, k: nat)
    requires d <= |s|
    ensures GhsaAt(s[d..], k) <==> GhsaAt(s, k + d)
  {
  }

  /**
   * When no occurrence starts among the first `d` positions or overlaps
   * them, a position past them lies inside an occurrence exactly when it
   * does after the prefix is dropped.
   */
  lemma InGhsaShift(s: string, d: nat, i: nat)
    requires d <= i < |s|
    requires forall k: nat :: k < d && i <= k + 3 ==> !GhsaAt(s, k)
    ensures InGhsa(s, i) <==> InGhsa(s[d..], i - d)
  {
    GhsaShiftAt(s, d, i - d);
    if i - d >= 1 { GhsaShiftAt(s, d, i - d - 1); }
    if i - d >= 2 { GhsaShiftAt(s, d, i - d - 2); }
    if i - d >= 3 { GhsaShiftAt(s, d, i - d - 3); }
  }

  lemma UpperCasedAfterReplaced(s: string, rest: string)
    requires GhsaAt(s, 0)
    requires GhsaUpperCased(s[4..], rest)
    ensures GhsaUpperCased(s, "GHSA" + rest)
  {
    var r := "GHSA" + rest;
    assert !GhsaAt(s, 1) && !GhsaAt(s, 2) && !GhsaAt(s, 3);
    forall i: nat | i < |s|
      ensures r[i] == (if InGhsa(s, i) then UpperChar(s[i]) else s[i])
    {
      if i < 4 {
        assert InGhsa(s, i);
      } else {
        InGhsaShift(s, 4, i);
        assert r[i] == rest[i - 4] && s[4..][i - 4] == s[i];
      }
    }
  }

  lemma UpperCasedAfterKept(s: string, rest: string)
    requires |s| >= 1 && !GhsaAt(s, 0)
    requires GhsaUpperCased(s[1..], rest)
    ensures GhsaUpperCased(s, [s[0]] + rest)
  {
    var r := [s[0]] + rest;
    forall i: nat | i < |s|
      ensures r[i] == (if InGhsa(s, i) then UpperChar(s[i]) else s[i])
    {
      if i >= 1 {
        InGhsaShift(s, 1, i);
        assert r[i] == rest[i - 1] && s[1..][i - 1] == s[i];
      }
    }
  }

  /**
   * `s.replace("ghsa", "GHSA")` upper-cases exactly the characters that lie
   * inside an occurrence of `ghsa` and keeps every other character.
   */
  lemma {:induction false} ReplaceGhsaPointwise(s: string)
    ensures GhsaUpperCased(s, Replace(s, "ghsa", "GHSA"))
    decreases |s|
  {
    if |s| < 4 {
      assert Replace(s, "ghsa", "GHSA") == s;
    } else {
      GhsaAtFront(s);
      if s[..4] == "ghsa" {
        ReplaceGhsaPointwise(s[4..]);
        assert Replace(s, "ghsa", "GHSA") == "GHSA" + Replace(s[4..], "ghsa", "GHSA");
        UpperCasedAfterReplaced(s, Replace(s[4..], "ghsa", "GHSA"));
      } else {
        ReplaceGhsaPointwise(s[1..]);
        ReplaceKeepsFront(s);
        UpperCasedAfterKept(s, Replace(s[1..], "ghsa", "GHSA"));
      }
    }
  }
}

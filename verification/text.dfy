/** The pieces of System.String the loader relies on: char.IsWhiteSpace,
    string.IsNullOrWhiteSpace, Trim and IndexOf(char). */
module Text {

  /** The characters char.IsWhiteSpace accepts: the Unicode space, line and
      paragraph separators plus the control characters U+0009..U+000D and U+0085. */
  const WhiteSpaceChars: set<char> := {
    '\t', '\n', '\U{B}', '\U{C}', '\r', ' ', '\U{85}', '\U{A0}', '\U{1680}',
    '\U{2000}', '\U{2001}', '\U{2002}', '\U{2003}', '\U{2004}', '\U{2005}',
    '\U{2006}', '\U{2007}', '\U{2008}', '\U{2009}', '\U{200A}',
    '\U{2028}', '\U{2029}', '\U{202F}', '\U{205F}', '\U{3000}'
  }

  /** char.IsWhiteSpace. */
  predicate IsWhiteSpace(c: char) {
    c in WhiteSpaceChars
  }

  /** string.IsNullOrWhiteSpace on a non-null string: empty or only white space. */
  predicate IsWhiteSpaceOnly(s: string) {
    forall i :: 0 <= i < |s| ==> IsWhiteSpace(s[i])
  }

  /** A string that Trim leaves alone: empty, or neither end is white space. */
  predicate IsTrimmed(s: string) {
    s == [] || (!IsWhiteSpace(s[0]) && !IsWhiteSpace(s[|s| - 1]))
  }

  /** r is what remains of s after removing white space at both ends. */
  ghost predicate IsTrimOf(r: string, s: string) {
    && IsTrimmed(r)
    && exists lo, hi :: 0 <= lo <= hi <= |s| && r == s[lo..hi]
                        && IsWhiteSpaceOnly(s[..lo]) && IsWhiteSpaceOnly(s[hi..])
  }

  /** The length of the white-space prefix of s. */
  function LeadingWhiteSpace(s: string): (n: nat)
    ensures n <= |s|
    ensures n == |s| || !IsWhiteSpace(s[n])
  {
    if |s| == 0 || !IsWhiteSpace(s[0]) then 0 else 1 + LeadingWhiteSpace(s[1..])
  }

  /** Everything LeadingWhiteSpace counts is white space. */
  lemma {:induction false} LeadingWhiteSpaceIsWhiteSpace(s: string)
    ensures IsWhiteSpaceOnly(s[..LeadingWhiteSpace(s)])
  {
    if |s| > 0 && IsWhiteSpace(s[0]) {
      LeadingWhiteSpaceIsWhiteSpace(s[1..]);
      assert s[..LeadingWhiteSpace(s)] == [s[0]] + s[1..][..LeadingWhiteSpace(s[1..])];
    }
  }

  /** The index where the white-space suffix of s begins. */
  function TrailingWhiteSpaceStart(s: string): (n: nat)
    ensures n <= |s|
    ensures n == 0 || !IsWhiteSpace(s[n - 1])
  {
    if |s| == 0 || !IsWhiteSpace(s[|s| - 1]) then |s| else TrailingWhiteSpaceStart(s[..|s| - 1])
  }

  /** Everything from TrailingWhiteSpaceStart on is white space. */
  lemma {:induction false} TrailingWhiteSpaceIsWhiteSpace(s: string)
    ensures IsWhiteSpaceOnly(s[TrailingWhiteSpaceStart(s)..])
  {
    if |s| > 0 && IsWhiteSpace(s[|s| - 1]) {
      var n := TrailingWhiteSpaceStart(s[..|s| - 1]);
      TrailingWhiteSpaceIsWhiteSpace(s[..|s| - 1]);
      assert s[n..] == s[..|s| - 1][n..] + [s[|s| - 1]];
    }
  }

  /** string.Trim(). */
  function Trim(s: string): (r: string)
    ensures IsTrimmed(r)
    ensures |r| <= |s|
  {
    var lo := LeadingWhiteSpace(s);
    var hi := lo + TrailingWhiteSpaceStart(s[lo..]);
    s[lo..hi]
  }

  /** Trim removes white space, and only white space, from both ends. */
  lemma TrimRemovesOuterWhiteSpace(s: string)
    ensures IsTrimOf(Trim(s), s)
  {
    var lo := LeadingWhiteSpace(s);
    var hi := lo + TrailingWhiteSpaceStart(s[lo..]);
    LeadingWhiteSpaceIsWhiteSpace(s);
    assert IsWhiteSpaceOnly(s[hi..]) by {
      TrailingWhiteSpaceIsWhiteSpace(s[lo..]);
      assert s[hi..] == s[lo..][hi - lo..];
    }
    assert Trim(s) == s[lo..hi];
    assert 0 <= lo <= hi <= |s|;
  }

  /** Trim only removes characters: one absent from s is absent from the result. */
  lemma TrimKeepsAbsent(s: string, c: char)
    requires c !in s
    ensures c !in Trim(s)
  {
    var lo := LeadingWhiteSpace(s);
    var hi := lo + TrailingWhiteSpaceStart(s[lo..]);
    assert Trim(s) == s[lo..hi];
  }

  /** Any way of cutting white space off both ends of s that leaves a
      trimmed string cuts at the same places Trim does. */
  lemma TrimCutIsCanonical(s: string, lo: nat, hi: nat)
    requires lo <= hi <= |s|
    requires IsWhiteSpaceOnly(s[..lo]) && IsWhiteSpaceOnly(s[hi..])
    requires IsTrimmed(s[lo..hi])
    ensures Trim(s) == s[lo..hi]
  {
    var l := LeadingWhiteSpace(s);
    LeadingWhiteSpaceIsWhiteSpace(s);
    if lo == hi {
      assert forall i | 0 <= i < |s| :: IsWhiteSpace(s[i]) by {
        forall i | 0 <= i < |s| ensures IsWhiteSpace(s[i]) {
          if i < lo { assert s[..lo][i] == s[i]; } else { assert s[hi..][i - hi] == s[i]; }
        }
      }
      assert l == |s|;
    } else {
      assert !IsWhiteSpace(s[lo]);
      if l < lo {
        assert false;
      } else if lo < l {
        assert false;
      }
      assert l == lo;
      var t := TrailingWhiteSpaceStart(s[lo..]);
      TrailingWhiteSpaceIsWhiteSpace(s[lo..]);
      assert !IsWhiteSpace(s[hi - 1]);
      if lo + t < hi {
        assert false;
      } else if hi < lo + t {
        assert false;
      }
      assert lo + t == hi;
    }
  }

  /** Trimming has exactly one possible outcome: whatever satisfies
      IsTrimOf is the result of Trim. */
  lemma TrimIsUnique(r: string, s: string)
    requires IsTrimOf(r, s)
    ensures r == Trim(s)
  {
    var lo, hi :| 0 <= lo <= hi <= |s| && r == s[lo..hi]
                  && IsWhiteSpaceOnly(s[..lo]) && IsWhiteSpaceOnly(s[hi..]);
    TrimCutIsCanonical(s, lo, hi);
  }

  /** Trim leaves an already trimmed string unchanged. */
  lemma TrimOfTrimmed(s: string)
    requires IsTrimmed(s)
    ensures Trim(s) == s
  {
    assert s == s[0..|s|];
    assert IsWhiteSpaceOnly(s[..0]) && IsWhiteSpaceOnly(s[|s|..]);
    TrimIsUnique(s, s);
  }

  /** string.IndexOf(char): the first position of c, or -1. */
  function IndexOf(s: string, c: char): (i: int)
    ensures -1 <= i < |s|
    ensures i == -1 <==> c !in s
    ensures i >= 0 ==> s[i] == c && c !in s[..i]
  {
    if |s| == 0 then -1
    else if s[0] == c then 0
    else
      var j := IndexOf(s[1..], c);
      if j == -1 then -1
      else
        assert s[..j + 1] == [s[0]] + s[1..][..j];
        j + 1
  }

  /** Any position holding c, with no c before it, is the one IndexOf finds. */
  lemma IndexOfFirst(s: string, c: char, i: nat)
    requires i < |s| && s[i] == c && c !in s[..i]
    ensures IndexOf(s, c) == i
  {
  }
}

/**
 * The string operations the step bindings rely on: String.Trim (with the
 * white-space set of char.IsWhiteSpace), ASCII case folding, and String.IndexOf,
 * which the case-insensitive "contains" constraint is built on.
 */
module Text {

  /**
   * char.IsWhiteSpace: the Unicode White_Space characters. No ASCII letter or
   * digit is one of them, so trimming never removes card data.
   */
  predicate IsWhiteSpace(c: char)
    ensures IsWhiteSpace(c) ==> !('0' <= c <= '9' || 'A' <= c <= 'Z' || 'a' <= c <= 'z')
  {
    var n := c as int;
    (0x09 <= n <= 0x0D) || n == 0x20 || n == 0x85 || n == 0xA0 || n == 0x1680
    || (0x2000 <= n <= 0x200A) || n == 0x2028 || n == 0x2029 || n == 0x202F
    || n == 0x205F || n == 0x3000
  }

  predicate AllWhiteSpace(s: string) {
    forall k :: 0 <= k < |s| ==> IsWhiteSpace(s[k])
  }

  /** Neither end of `s` is white space (the empty string included). */
  predicate IsTrimmed(s: string) {
    s == [] || (!IsWhiteSpace(s[0]) && !IsWhiteSpace(s[|s| - 1]))
  }

  /** The number of white-space characters `s` starts with. */
  function LeadingWhiteSpace(s: string): (n: nat)
    ensures n <= |s|
    ensures forall k :: 0 <= k < n ==> IsWhiteSpace(s[k])
    ensures n == |s| || !IsWhiteSpace(s[n])
  {
    if s != [] && IsWhiteSpace(s[0]) then 1 + LeadingWhiteSpace(s[1..]) else 0
  }

  /** The number of white-space characters `s` ends with. */
  function TrailingWhiteSpace(s: string): (n: nat)
    ensures n <= |s|
    ensures forall k :: |s| - n <= k < |s| ==> IsWhiteSpace(s[k])
    ensures n == |s| || !IsWhiteSpace(s[|s| - n - 1])
  {
    if s != [] && IsWhiteSpace(s[|s| - 1]) then 1 + TrailingWhiteSpace(s[..|s| - 1]) else 0
  }

  /** String.TrimStart(): drops the leading white space, and only that. */
  function TrimStart(s: string): (r: string)
    ensures |r| <= |s| && r == s[|s| - |r|..]
    ensures AllWhiteSpace(s[..|s| - |r|])
    ensures r == [] || !IsWhiteSpace(r[0])
  {
    s[LeadingWhiteSpace(s)..]
  }

  /** String.TrimEnd(): drops the trailing white space, and only that. */
  function TrimEnd(s: string): (r: string)
    ensures |r| <= |s| && r == s[..|r|]
    ensures AllWhiteSpace(s[|r|..])
    ensures r == [] || !IsWhiteSpace(r[|r| - 1])
  {
    s[..|s| - TrailingWhiteSpace(s)]
  }

  /** String.Trim(): drops white space at both ends. */
  function Trim(s: string): (r: string)
    ensures |r| <= |s| && IsTrimmed(r)
  {
    TrimEnd(TrimStart(s))
  }

  /**
   * Trim keeps a middle slice of its input: what it drops is white space and
   * what it keeps starts and ends with something else.
   */
  lemma TrimIsMiddleSlice(s: string) returns (i: nat, j: nat)
    ensures i <= j <= |s| && Trim(s) == s[i..j]
    ensures AllWhiteSpace(s[..i]) && AllWhiteSpace(s[j..])
  {
    var t := TrimStart(s);
    var r := TrimEnd(t);
    i, j := |s| - |t|, |s| - |t| + |r|;
    assert t == s[i..];
    assert r == s[i..j] by {
      assert r == t[..|r|];
    }
    assert AllWhiteSpace(s[j..]) by {
      assert t[|r|..] == s[j..];
    }
  }

  /** White space followed by a string that does not start with white space: the count is the prefix. */
  lemma LeadingWhiteSpaceOfPrefix(a: string, t: string)
    requires AllWhiteSpace(a)
    requires t == [] || !IsWhiteSpace(t[0])
    ensures LeadingWhiteSpace(a + t) == |a|
  {
    var s := a + t;
    assert forall k :: 0 <= k < |a| ==> IsWhiteSpace(s[k]);
    assert t != [] ==> !IsWhiteSpace(s[|a|]);
  }

  lemma TrimStartOfWhiteSpacePrefix(a: string, t: string)
    requires AllWhiteSpace(a)
    requires t == [] || !IsWhiteSpace(t[0])
    ensures TrimStart(a + t) == t
  {
    LeadingWhiteSpaceOfPrefix(a, t);
    assert (a + t)[|a|..] == t;
  }

  /** A string that does not end in white space, then white space: the count is the suffix. */
  lemma TrailingWhiteSpaceOfSuffix(m: string, b: string)
    requires AllWhiteSpace(b)
    requires m == [] || !IsWhiteSpace(m[|m| - 1])
    ensures TrailingWhiteSpace(m + b) == |b|
  {
    var s := m + b;
    assert forall k :: |m| <= k < |s| ==> IsWhiteSpace(s[k]);
    assert m != [] ==> !IsWhiteSpace(s[|m| - 1]);
  }

  lemma TrimEndOfWhiteSpaceSuffix(m: string, b: string)
    requires AllWhiteSpace(b)
    requires m == [] || !IsWhiteSpace(m[|m| - 1])
    ensures TrimEnd(m + b) == m
  {
    TrailingWhiteSpaceOfSuffix(m, b);
    assert (m + b)[..|m|] == m;
  }

  /**
   * The reference characterisation of Trim: a string made of white space, then a
   * trimmed middle, then white space, trims to exactly that middle.
   */
  lemma TrimOfPadded(a: string, m: string, b: string)
    requires AllWhiteSpace(a) && AllWhiteSpace(b) && IsTrimmed(m)
    ensures Trim(a + m + b) == m
  {
    if m == [] {
      assert a + m + b == a + b;
      assert AllWhiteSpace(a + b);
      assert TrimStart(a + b) == [];
    } else {
      assert a + m + b == a + (m + b);
      TrimStartOfWhiteSpacePrefix(a, m + b);
      TrimEndOfWhiteSpaceSuffix(m, b);
    }
  }

  /** Trimming twice is trimming once. */
  lemma TrimIdempotent(s: string)
    ensures Trim(Trim(s)) == Trim(s)
  {
    var t := Trim(s);
    assert LeadingWhiteSpace(t) == 0;
    assert TrailingWhiteSpace(t) == 0;
  }

  /** ASCII case folding of one character: 'A'..'Z' become 'a'..'z'. */
  function ToLowerChar(c: char): (d: char)
    ensures !('A' <= d <= 'Z')
    ensures 'A' <= c <= 'Z' ==> d as int == c as int - 'A' as int + 'a' as int
    ensures 'a' <= c <= 'z' ==> d == c
    ensures !('A' <= c <= 'Z' || 'a' <= c <= 'z') ==> d == c
  {
    if 'A' <= c <= 'Z' then (c as int - 'A' as int + 'a' as int) as char else c
  }

  /** ASCII case folding of a string, character by character. */
  function ToLower(s: string): (r: string)
    ensures |r| == |s|
    ensures forall k :: 0 <= k < |s| ==> r[k] == ToLowerChar(s[k])
  {
    if s == [] then [] else [ToLowerChar(s[0])] + ToLower(s[1..])
  }

  /** Folding commutes with taking a slice. */
  lemma ToLowerSlice(s: string, i: nat, j: nat)
    requires i <= j <= |s|
    ensures ToLower(s)[i..j] == ToLower(s[i..j])
  {
    assert forall k :: 0 <= k < j - i ==> ToLower(s)[i..j][k] == ToLower(s[i..j])[k];
  }

  /** Folding is idempotent: a folded string has nothing left to fold. */
  lemma ToLowerIdempotent(s: string)
    ensures ToLower(ToLower(s)) == ToLower(s)
  {
    assert forall k :: 0 <= k < |s| ==> ToLower(ToLower(s))[k] == ToLower(s)[k];
  }

  /** `sub` occurs in `s` starting at index `i`. */
  predicate OccursAt(s: string, sub: string, i: nat) {
    i + |sub| <= |s| && s[i..i + |sub|] == sub
  }

  /**
   * String.IndexOf with ordinal comparison: the first index at which `sub`
   * occurs in `s`, at or after `from`, or -1 when there is none.
   */
  function IndexOfFrom(s: string, sub: string, from: nat): (r: int)
    ensures r == -1 || (from <= r && OccursAt(s, sub, r))
    ensures r == -1 ==> forall k: nat :: from <= k ==> !OccursAt(s, sub, k)
    ensures r != -1 ==> forall k: nat :: from <= k < r ==> !OccursAt(s, sub, k)
    decreases |s| - from
  {
    if from + |sub| > |s| then -1
    else if s[from..from + |sub|] == sub then from
    else IndexOfFrom(s, sub, from + 1)
  }

  function IndexOf(s: string, sub: string): (r: int)
    ensures r == -1 || (0 <= r && OccursAt(s, sub, r))
    ensures r == -1 <==> forall k: nat :: !OccursAt(s, sub, k)
    ensures r != -1 ==> forall k: nat :: k < r ==> !OccursAt(s, sub, k)
  {
    IndexOfFrom(s, sub, 0)
  }

  /** Two strings of one length that are equal once both are case folded. */
  predicate EqualIgnoringCase(a: string, b: string) {
    |a| == |b| && forall k :: 0 <= k < |a| ==> ToLowerChar(a[k]) == ToLowerChar(b[k])
  }

  /** The reference meaning of a case-insensitive substring test. */
  ghost predicate OccursIgnoringCase(s: string, sub: string) {
    exists i: nat :: OccursIgnoringCaseAt(s, sub, i)
  }

  /** `sub` occurs in `s` at index `i` up to case. */
  predicate OccursIgnoringCaseAt(s: string, sub: string, i: nat) {
    i + |sub| <= |s| && EqualIgnoringCase(s[i..i + |sub|], sub)
  }

  /**
   * The "contains, ignoring case" constraint: the folded expected text has an
   * index in the folded actual text.
   */
  function ContainsIgnoreCase(s: string, sub: string): (r: bool)
    ensures r <==> OccursIgnoringCase(s, sub)
  {
    FoldedIndexOfMeaning(s, sub);
    IndexOf(ToLower(s), ToLower(sub)) != -1
  }

  /** The folded text has an index in the folded body exactly when it occurs there up to case. */
  lemma FoldedIndexOfMeaning(s: string, sub: string)
    ensures IndexOf(ToLower(s), ToLower(sub)) != -1 <==> OccursIgnoringCase(s, sub)
  {
    var found := IndexOf(ToLower(s), ToLower(sub));
    if found != -1 {
      FoldedOccurrence(s, sub, found);
    } else {
      forall i: nat | i + |sub| <= |s|
        ensures !OccursIgnoringCaseAt(s, sub, i)
      {
        FoldedOccurrence(s, sub, i);
      }
    }
  }

  /** An occurrence in the folded strings is an occurrence up to case, and back. */
  lemma FoldedOccurrence(s: string, sub: string, i: nat)
    requires i + |sub| <= |s|
    ensures OccursAt(ToLower(s), ToLower(sub), i) <==> OccursIgnoringCaseAt(s, sub, i)
  {
    ToLowerSlice(s, i, i + |sub|);
    FoldedEqual(s[i..i + |sub|], sub);
  }

  /** Two strings are equal up to case exactly when they fold to the same string. */
  lemma FoldedEqual(a: string, b: string)
    ensures EqualIgnoringCase(a, b) <==> ToLower(a) == ToLower(b)
  {
    if EqualIgnoringCase(a, b) {
      assert forall k :: 0 <= k < |a| ==> ToLower(a)[k] == ToLower(b)[k];
    }
  }

  /** The empty text is contained in every string. */
  lemma EmptyIsContained(s: string)
    ensures ContainsIgnoreCase(s, "")
  {
    assert OccursAt(ToLower(s), ToLower(""), 0);
  }

  /** An exact occurrence is in particular an occurrence ignoring case. */
  lemma ExactOccurrenceIsContained(s: string, sub: string, i: nat)
    requires OccursAt(s, sub, i)
    ensures ContainsIgnoreCase(s, sub)
  {
    assert OccursIgnoringCaseAt(s, sub, i);
  }

  /** Changing the case of the body or of the expected text changes nothing. */
  lemma ContainsIgnoreCaseOfFolded(s: string, sub: string)
    ensures ContainsIgnoreCase(ToLower(s), sub) == ContainsIgnoreCase(s, sub)
    ensures ContainsIgnoreCase(s, ToLower(sub)) == ContainsIgnoreCase(s, sub)
  {
    ToLowerIdempotent(s);
    ToLowerIdempotent(sub);
  }
}

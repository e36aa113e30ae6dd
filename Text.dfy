/** Ordinal text search shared by the filters and the proxy (String.IndexOf with one char or a string). */
module Text {

  /** Index of the first c in s, or -1. */
  function IndexOfChar(s: string, c: char): (r: int)
    ensures -1 <= r < |s|
    ensures r >= 0 ==> s[r] == c
    ensures forall i :: 0 <= i < |s| && (r == -1 || i < r) ==> s[i] != c
  {
    if |s| == 0 then -1
    else if s[0] == c then 0
    else
      var r := IndexOfChar(s[1..], c);
      if r == -1 then -1 else r + 1
  }

  /** The pattern p occurs in s at index i. */
  predicate MatchAt(s: string, p: string, i: nat)
  {
    i + |p| <= |s| && s[i..i + |p|] == p
  }

  /** Index of the first occurrence of the non-empty pattern p in s, or -1. */
  function IndexOfText(s: string, p: string): (r: int)
    requires |p| > 0
    ensures r == -1 || (0 <= r && MatchAt(s, p, r))
    ensures forall i: nat :: (r == -1 || i < r) ==> !MatchAt(s, p, i)
    decreases |s|
  {
    if |s| < |p| then -1
    else if s[..|p|] == p then 0
    else
      var r := IndexOfText(s[1..], p);
      assert s[0..|p|] == s[..|p|];
      assert forall i: nat :: i >= 1 ==> MatchAt(s, p, i) == MatchAt(s[1..], p, i - 1);
      if r == -1 then -1 else r + 1
  }

  /** A slice inside a known prefix is the slice of that prefix. */
  lemma SliceInPrefix(s: string, p: string, a: nat, b: nat)
    requires |p| <= |s| && s[..|p|] == p && a <= b <= |p|
    ensures s[a..b] == p[a..b]
  {
    forall k | a <= k < b
      ensures s[k] == p[k]
    {
      assert s[..|p|][k] == s[k];
    }
    assert s[a..b] == p[a..b];
  }

  /** A char found in a prefix is found at the same place in any extension of it. */
  lemma IndexOfCharInPrefix(x: string, y: string, c: char)
    requires IndexOfChar(x, c) >= 0
    ensures IndexOfChar(x + y, c) == IndexOfChar(x, c)
  {
    var r := IndexOfChar(x, c);
    assert (x + y)[r] == c;
    forall i | 0 <= i < r
      ensures (x + y)[i] != c
    {
      assert (x + y)[i] == x[i];
    }
  }

  /** Within a prefix, matching is unaffected by what follows it. */
  lemma MatchInPrefix(x: string, y: string, p: string, i: nat)
    requires i + |p| <= |x|
    ensures MatchAt(x + y, p, i) <==> MatchAt(x, p, i)
  {
    assert (x + y)[i..i + |p|] == x[i..i + |p|];
  }

  /** A pattern found in a prefix is found at the same place in any extension of it. */
  lemma IndexOfTextInPrefix(x: string, y: string, p: string)
    requires |p| > 0 && IndexOfText(x, p) >= 0
    ensures IndexOfText(x + y, p) == IndexOfText(x, p)
  {
    var r := IndexOfText(x, p);
    MatchInPrefix(x, y, p, r);
    var r' := IndexOfText(x + y, p);
    if r' < r {
      MatchInPrefix(x, y, p, r');
    }
  }
}

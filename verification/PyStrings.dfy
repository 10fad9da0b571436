/** The Python string operations the agents rely on, on sequences of characters. */
module PyStrings {

  /** Pattern `p` stands in `s` at offset `k`. */
  predicate MatchesAt(s: string, p: string, k: int) {
    0 <= k && k + |p| <= |s| && s[k..k + |p|] == p
  }

  /** `p in s` */
  ghost predicate Contains(s: string, p: string) {
    exists k :: MatchesAt(s, p, k)
  }

  lemma MatchCovers(s: string, p: string, k: int, i: nat)
    requires MatchesAt(s, p, k) && i < |s|
    ensures k <= i < k + |p| ==> s[i] in p
  {
    if k <= i < k + |p| {
      assert s[i] == s[k..k + |p|][i - k];
    }
  }

  lemma SliceOfLeft(a: string, b: string, i: nat, j: nat)
    requires i <= j <= |a|
    ensures (a + b)[i..j] == a[i..j]
  {
  }

  lemma SliceOfRight(a: string, b: string, i: nat, j: nat)
    requires i <= j <= |b|
    ensures (a + b)[|a| + i..|a| + j] == b[i..j]
  {
  }

  /** A match in two texts lies in the first, or in the second, or across. */
  lemma MatchInParts(a: string, b: string, p: string, k: int)
    ensures k + |p| <= |a| ==> (MatchesAt(a + b, p, k) <==> MatchesAt(a, p, k))
    ensures |a| <= k ==> (MatchesAt(a + b, p, k) <==> MatchesAt(b, p, k - |a|))
  {
    if 0 <= k && k + |p| <= |a| {
      SliceOfLeft(a, b, k, k + |p|);
    }
    if |a| <= k && k + |p| <= |a + b| {
      SliceOfRight(a, b, k - |a|, k - |a| + |p|);
    }
  }

  /** What either text contains both together contain. */
  lemma ContainsEither(a: string, b: string, p: string)
    ensures Contains(a, p) || Contains(b, p) ==> Contains(a + b, p)
  {
    forall k | MatchesAt(a, p, k)
      ensures MatchesAt(a + b, p, k)
    {
      MatchInParts(a, b, p, k);
    }
    forall k | MatchesAt(b, p, k)
      ensures MatchesAt(a + b, p, k + |a|)
    {
      MatchInParts(a, b, p, k + |a|);
    }
  }

  /** Two texts on either side of a character that the word does not have. */
  lemma ContainsAround(a: string, c: char, b: string, p: string)
    requires p != "" && c !in p
    ensures Contains(a + [c] + b, p) <==> Contains(a, p) || Contains(b, p)
  {
    var s := a + [c] + b;
    assert s == a + ([c] + b);
    forall k | MatchesAt(s, p, k)
      ensures MatchesAt(a, p, k) || MatchesAt(b, p, k - |a| - 1)
    {
      MatchCovers(s, p, k, |a|);
      MatchInParts(a, [c] + b, p, k);
      MatchInParts(a + [c], b, p, k);
    }
    ContainsEither(a, [c] + b, p);
    ContainsEither([c], b, p);
  }

  lemma ContainsNext(c: char, s: string, p: string)
    requires p != ""
    ensures Contains([c] + s, p) <==> p <= [c] + s || Contains(s, p)
  {
    var t := [c] + s;
    forall k | MatchesAt(t, p, k)
      ensures p <= t || MatchesAt(s, p, k - 1)
    {
      MatchInParts([c], s, p, k);
    }
    ContainsEither([c], s, p);
    if p <= t {
      assert MatchesAt(t, p, 0);
    }
  }

  lemma ContainedFirst(s: string, p: string)
    requires p != ""
    ensures Contains(s, p) ==> p[0] in s
  {
    forall k | MatchesAt(s, p, k)
      ensures p[0] in s
    {
      assert s[k..k + |p|][0] == s[k];
    }
  }

  /** The least matching offset at or after `from`, or -1. */
  function FindFrom(s: string, p: string, from: nat): (r: int)
    requires from <= |s|
    ensures r == -1 || (from <= r && MatchesAt(s, p, r))
    ensures forall k :: from <= k && (r == -1 || k < r) ==> !MatchesAt(s, p, k)
    decreases |s| - from
  {
    if MatchesAt(s, p, from) then from
    else if from == |s| then -1
    else FindFrom(s, p, from + 1)
  }

  /** `s.find(p)` */
  function Find(s: string, p: string): (r: int)
    ensures r == -1 || (0 <= r && MatchesAt(s, p, r))
    ensures forall k :: r == -1 || k < r ==> !MatchesAt(s, p, k)
  {
    FindFrom(s, p, 0)
  }

  /** `s[0:n]`; a negative bound counts from the end and an excessive one is clamped. */
  function SliceTo(s: string, n: int): string {
    if n < 0 then s[..if |s| + n < 0 then 0 else |s| + n]
    else s[..if n > |s| then |s| else n]
  }

  /** `s[n:]`, with the same treatment of the bound. */
  function SliceFrom(s: string, n: int): string {
    if n < 0 then s[if |s| + n < 0 then 0 else |s| + n..]
    else s[if n > |s| then |s| else n..]
  }

  lemma SliceAtBoundary(x: string, y: string)
    ensures SliceTo(x + y, |x|) == x
    ensures SliceFrom(x + y, |x|) == y
  {
  }

  /** Offset of the first `c`, or the length of `s`. */
  function IndexOf(s: string, c: char): (n: nat)
    ensures n <= |s|
    ensures c !in s[..n]
    ensures n < |s| ==> s[n] == c
  {
    if s == "" || s[0] == c then 0
    else
      assert s == [s[0]] + s[1..];
      var n := IndexOf(s[1..], c);
      assert s[..n + 1] == [s[0]] + s[1..][..n];
      n + 1
  }

  lemma {:induction false} IndexOfLeast(s: string, c: char, i: nat)
    requires i < |s| && s[i] == c
    ensures IndexOf(s, c) <= i
  {
    if i > 0 && s[0] != c {
      IndexOfLeast(s[1..], c, i - 1);
    }
  }

  lemma IndexOfAppend(x: string, c: char, y: string)
    requires c !in x
    ensures IndexOf(x + [c] + y, c) == |x|
  {
    var s := x + [c] + y;
    assert s[|x|] == c;
    assert forall i | 0 <= i < |x| :: s[i] == x[i];
  }

  lemma IndexOfAbsent(x: string, c: char)
    requires c !in x
    ensures IndexOf(x, c) == |x|
  {
  }

  /** `s.split(c)` */
  function Split(s: string, c: char): (parts: seq<string>)
    ensures |parts| > 0
    decreases |s|
  {
    var n := IndexOf(s, c);
    if n == |s| then [s] else [s[..n]] + Split(s[n + 1..], c)
  }

  /** The first part ends at the first separator. */
  lemma SplitHead(s: string, c: char)
    ensures Split(s, c)[0] == s[..IndexOf(s, c)]
    ensures |Split(s, c)| == 1 <==> c !in s
  {
    var n := IndexOf(s, c);
    assert s == s[..n] + s[n..];
  }

  lemma {:induction false} IndexOfSkip(x: string, y: string, c: char)
    requires c !in x
    ensures IndexOf(x + y, c) == |x| + IndexOf(y, c)
  {
    if x == "" {
      assert x + y == y;
    } else {
      assert (x + y)[1..] == x[1..] + y;
      IndexOfSkip(x[1..], y, c);
    }
  }

  /** `s.split(c, 1)` */
  function Split1(s: string, c: char): (parts: seq<string>)
    ensures 1 <= |parts| <= 2
  {
    var n := IndexOf(s, c);
    if n == |s| then [s] else [s[..n], s[n + 1..]]
  }

  lemma Split1At(x: string, c: char, y: string)
    requires c !in x
    ensures Split1(x + [c] + y, c) == [x, y]
  {
    IndexOfAppend(x, c, y);
    var s := x + [c] + y;
    assert s[..|x|] == x;
    assert s[|x| + 1..] == y;
  }

  /** No part of a split contains the separator. */
  lemma {:induction false} SplitPartsFree(s: string, c: char)
    ensures forall part <- Split(s, c) :: c !in part
    decreases |s|
  {
    var n := IndexOf(s, c);
    if n == |s| {
      assert s[..n] == s;
    } else {
      SplitPartsFree(s[n + 1..], c);
    }
  }

  /** Splitting peels off a part that is free of the separator. */
  lemma SplitCons(x: string, c: char, y: string)
    requires c !in x
    ensures Split(x + [c] + y, c) == [x] + Split(y, c)
  {
    IndexOfAppend(x, c, y);
    var s := x + [c] + y;
    assert s[..|x|] == x;
    assert s[|x| + 1..] == y;
  }

  /** Two texts around a separator are split apart. */
  lemma {:induction false} SplitConcat(x: string, c: char, y: string)
    ensures Split(x + [c] + y, c) == Split(x, c) + Split(y, c)
    decreases |x|
  {
    hide Split;
    var n := IndexOf(x, c);
    if n == |x| {
      assert x[..n] == x;
      SplitCons(x, c, y);
      SplitFree(x, c);
    } else {
      var more := x[n + 1..];
      assert x == x[..n] + [c] + more;
      assert x + [c] + y == x[..n] + [c] + (more + [c] + y);
      SplitConcat(more, c, y);
      SplitCons(x[..n], c, more + [c] + y);
      SplitCons(x[..n], c, more);
    }
  }

  lemma SplitFree(x: string, c: char)
    requires c !in x
    ensures Split(x, c) == [x]
  {
    IndexOfAbsent(x, c);
  }
}

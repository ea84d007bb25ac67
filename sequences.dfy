/** Order-preserving selection from sequences: what `Array.prototype.filter` and
    `String.prototype.replace` with an empty replacement leave behind. */
module Sequences {

  /** `a` is obtained from `b` by deleting zero or more elements. */
  predicate IsSubsequence<T(==)>(a: seq<T>, b: seq<T>)
    decreases |b|
  {
    a == [] || (b != [] && ((a[0] == b[0] && IsSubsequence(a[1..], b[1..])) || IsSubsequence(a, b[1..])))
  }

  lemma {:induction false} SubsequenceReflexive<T>(a: seq<T>)
    ensures IsSubsequence(a, a)
    decreases |a|
  {
    if a != [] {
      SubsequenceReflexive(a[1..]);
    }
  }

  lemma {:induction false} SubsequenceMembers<T>(a: seq<T>, b: seq<T>)
    requires IsSubsequence(a, b)
    ensures forall x :: x in a ==> x in b
    ensures |a| <= |b|
    decreases |b|
  {
    if a != [] {
      if a[0] == b[0] && IsSubsequence(a[1..], b[1..]) {
        SubsequenceMembers(a[1..], b[1..]);
        assert forall x :: x in a ==> x == a[0] || x in a[1..];
      } else {
        SubsequenceMembers(a, b[1..]);
      }
    }
  }

  lemma {:induction false} SubsequenceTransitive<T>(a: seq<T>, b: seq<T>, c: seq<T>)
    requires IsSubsequence(a, b) && IsSubsequence(b, c)
    ensures IsSubsequence(a, c)
    decreases |c|
  {
    if a == [] {
    } else if b == [] {
    } else if IsSubsequence(b, c[1..]) {
      SubsequenceTransitive(a, b, c[1..]);
    } else {
      assert b[0] == c[0] && IsSubsequence(b[1..], c[1..]);
      if a[0] == b[0] && IsSubsequence(a[1..], b[1..]) {
        SubsequenceTransitive(a[1..], b[1..], c[1..]);
      } else {
        SubsequenceTransitive(a, b[1..], c[1..]);
      }
    }
  }

  /** Dropping a prefix of `b` leaves a subsequence of `b`. */
  lemma {:induction false} SuffixIsSubsequence<T>(b: seq<T>, j: nat)
    requires j <= |b|
    ensures IsSubsequence(b[j..], b)
    decreases j
  {
    if j == 0 {
      SubsequenceReflexive(b);
    } else {
      SuffixIsSubsequence(b[1..], j - 1);
      assert b[1..][j - 1..] == b[j..];
    }
  }

  /** A prefix of `b` is a subsequence of `b`. */
  lemma {:induction false} PrefixIsSubsequence<T>(b: seq<T>, n: nat)
    requires n <= |b|
    ensures IsSubsequence(b[..n], b)
    decreases |b|
  {
    if n == |b| {
      assert b[..n] == b;
      SubsequenceReflexive(b);
    } else {
      PrefixIsSubsequence(b[..|b| - 1], n);
      assert b[..|b| - 1][..n] == b[..n];
      DeleteBlockIsSubsequence(b, |b| - 1, |b|);
      assert b[..|b| - 1] + b[|b|..] == b[..|b| - 1];
      SubsequenceTransitive(b[..n], b[..|b| - 1], b);
    }
  }

  /** A common prefix can be put in front of both sides of the relation. */
  lemma {:induction false} PrefixPreservesSubsequence<T>(p: seq<T>, a: seq<T>, b: seq<T>)
    requires IsSubsequence(a, b)
    ensures IsSubsequence(p + a, p + b)
    decreases |p|
  {
    if p != [] {
      PrefixPreservesSubsequence(p[1..], a, b);
      assert (p + a)[1..] == p[1..] + a;
      assert (p + b)[1..] == p[1..] + b;
      assert (p + a)[0] == (p + b)[0];
    } else {
      assert p + a == a && p + b == b;
    }
  }

  /** Deleting the block `s[i..j]` leaves a subsequence of `s`. */
  lemma DeleteBlockIsSubsequence<T>(s: seq<T>, i: nat, j: nat)
    requires i <= j <= |s|
    ensures IsSubsequence(s[..i] + s[j..], s)
  {
    SuffixIsSubsequence(s[i..], j - i);
    assert s[i..][j - i..] == s[j..];
    PrefixPreservesSubsequence(s[..i], s[j..], s[i..]);
    assert s[..i] + s[i..] == s;
  }

  /** Slicing a slice is slicing the original at shifted bounds. */
  lemma SliceOfSlice<T>(s: seq<T>, a: nat, b: nat, c: nat)
    requires a <= b <= |s| && c <= b - a
    ensures s[a..b][..c] == s[a..a + c] && s[a..b][c..] == s[a + c..b]
  {
  }

  /** Splitting a suffix at offset `j` is splitting the original at `b == a + j`. */
  lemma DropSplit<T>(s: seq<T>, a: nat, j: nat, b: nat)
    requires a + j == b <= |s|
    ensures s[a..][..j] == s[a..b] && s[a..][j..] == s[b..]
  {
  }

  /** A block splits around any element inside it. */
  lemma SliceAround<T>(s: seq<T>, a: nat, m: nat, b: nat, rest: seq<T>)
    requires a <= m < b <= |s|
    ensures s[a..b] + rest == s[a..m] + ([s[m]] + (s[m + 1..b] + rest))
  {
    assert s[a..b] == s[a..m] + ([s[m]] + s[m + 1..b]);
  }

  /** A value absent from a suffix is absent from every shorter suffix. */
  lemma NotInSuffix<T>(s: seq<T>, x: T, a: nat, b: nat)
    requires a <= b <= |s| && x !in s[a..]
    ensures x !in s[b..]
  {
    forall k | b <= k < |s| ensures s[k] != x {
      assert s[k] == s[a..][k - a];
    }
  }

  /** Every element of `s` that satisfies `p`, in order. */
  function Filter<T(!new)>(s: seq<T>, p: T -> bool): (r: seq<T>)
    ensures forall x :: x in r <==> x in s && p(x)
    ensures IsSubsequence(r, s)
    decreases |s|
  {
    if s == [] then []
    else if p(s[0]) then [s[0]] + Filter(s[1..], p)
    else Filter(s[1..], p)
  }
}

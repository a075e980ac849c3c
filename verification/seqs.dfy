/**
 Sequence facts shared by the filter and the option lists: order-preserving
 subsequences, duplicate-free lists, and the first-seen distinct values of a
 column.
 */
module Seqs {

  /** `a` can be obtained from `b` by deleting elements, keeping the order. */
  predicate IsSubseq<T(==)>(a: seq<T>, b: seq<T>)
    decreases |b|
  {
    if |a| == 0 then true
    else if |b| == 0 then false
    else if a[|a| - 1] == b[|b| - 1] then IsSubseq(a[..|a| - 1], b[..|b| - 1])
    else IsSubseq(a, b[..|b| - 1])
  }

  /** No value occurs twice. */
  predicate NoDups<T(==)>(s: seq<T>)
  {
    forall i, j :: 0 <= i < j < |s| ==> s[i] != s[j]
  }

  /** A subsequence of `b` stays one when `b` is extended at the end. */
  lemma {:induction false} SubseqExtend<T>(a: seq<T>, b: seq<T>, x: T)
    requires IsSubseq(a, b)
    ensures IsSubseq(a, b + [x])
    decreases |b|, 1
  {
    var b' := b + [x];
    assert b'[..|b'| - 1] == b;
    if |a| > 0 && a[|a| - 1] == x {
      // Matching `x` would need the rest of `a` inside `b`, which holds because
      // the prefix of a subsequence is a subsequence.
      SubseqPrefix(a, b);
    }
  }

  /** Dropping the last element of a subsequence keeps it a subsequence. */
  lemma {:induction false} SubseqPrefix<T>(a: seq<T>, b: seq<T>)
    requires |a| > 0 && IsSubseq(a, b)
    ensures IsSubseq(a[..|a| - 1], b)
    decreases |b|, 0
  {
    var a' := a[..|a| - 1];
    if a[|a| - 1] == b[|b| - 1] {
      SubseqExtend(a', b[..|b| - 1], b[|b| - 1]);
      assert b[..|b| - 1] + [b[|b| - 1]] == b;
    } else {
      SubseqPrefix(a, b[..|b| - 1]);
      SubseqExtend(a', b[..|b| - 1], b[|b| - 1]);
      assert b[..|b| - 1] + [b[|b| - 1]] == b;
    }
  }

  /** The position where `x` first occurs in `s`. */
  function FirstIndex<T(==)>(s: seq<T>, x: T): (i: nat)
    requires x in s
    ensures i < |s| && s[i] == x
    ensures forall j :: 0 <= j < i ==> s[j] != x
  {
    if s[0] == x then 0
    else
      assert x in s[1..];
      1 + FirstIndex(s[1..], x)
  }

  /** Extending a sequence does not move a first occurrence inside it. */
  lemma FirstIndexExtend<T>(s: seq<T>, y: T, x: T)
    requires x in s
    ensures FirstIndex(s + [y], x) == FirstIndex(s, x)
  {
    var i := FirstIndex(s, x);
    var k := FirstIndex(s + [y], x);
    assert (s + [y])[i] == x;
    assert forall j :: 0 <= j < |s| ==> (s + [y])[j] == s[j];
  }

  /**
   The distinct values of `s` in order of first appearance, as pandas'
   `unique()` lists them.
   */
  function Unique<T(==,!new)>(s: seq<T>): (u: seq<T>)
    ensures NoDups(u)
    ensures forall x :: x in u <==> x in s
    ensures |u| == 0 <==> |s| == 0
    decreases |s|
  {
    if |s| == 0 then []
    else
      var prefix := Unique(s[..|s| - 1]);
      var x := s[|s| - 1];
      assert s == s[..|s| - 1] + [x];
      if x in prefix then prefix else prefix + [x]
  }

  /** `unique()` lists values in the order in which they first occur. */
  lemma {:induction false} UniqueKeepsFirstSeenOrder<T(!new)>(s: seq<T>)
    ensures forall i, j :: 0 <= i < j < |Unique(s)| ==> FirstIndex(s, Unique(s)[i]) < FirstIndex(s, Unique(s)[j])
    decreases |s|
  {
    if |s| > 0 {
      var front := s[..|s| - 1];
      var x := s[|s| - 1];
      var prefix := Unique(front);
      UniqueKeepsFirstSeenOrder(front);
      assert s == front + [x];
      forall y | y in front ensures FirstIndex(s, y) == FirstIndex(front, y) {
        FirstIndexExtend(front, x, y);
      }
      if x !in prefix {
        assert FirstIndex(s, x) == |s| - 1;
      }
    }
  }

  /** Appending the same element to both sides keeps the subsequence relation. */
  lemma SubseqPrefixOfAppend<T>(a: seq<T>, b: seq<T>, x: T)
    requires IsSubseq(a, b)
    ensures IsSubseq(a + [x], b + [x])
  {
    assert (a + [x])[..|a + [x]| - 1] == a;
    assert (b + [x])[..|b + [x]| - 1] == b;
  }

  /** Removing one matched element from two permutations of each other
      leaves permutations of each other. */
  lemma RemoveMatched<T>(a: seq<T>, b: seq<T>, i: int)
    requires multiset(a) == multiset(b)
    requires |a| > 0 && 0 <= i < |b| && b[i] == a[0]
    ensures multiset(a[1..]) == multiset(b[..i] + b[i + 1..])
  {
    assert a == [a[0]] + a[1..];
    assert b == b[..i] + [b[i]] + b[i + 1..];
    assert multiset(a[1..]) == multiset(a) - multiset{a[0]};
    assert multiset(b[..i] + b[i + 1..]) == multiset(b) - multiset{b[i]};
  }

  /** A position in `b` holding the first element of its permutation `a`. */
  lemma MatchIndex<T>(a: seq<T>, b: seq<T>) returns (i: nat)
    requires |a| > 0 && multiset(a) == multiset(b)
    ensures i < |b| && b[i] == a[0]
  {
    assert a[0] in multiset(a);
    i :| 0 <= i < |b| && b[i] == a[0];
  }

  lemma SplitAt<T>(s: seq<T>, i: int)
    requires 0 <= i < |s|
    ensures s == s[..i] + ([s[i]] + s[i + 1..])
  {
  }

  /** Permutations of each other have the same members. */
  lemma SameMembers<T>(a: seq<T>, b: seq<T>)
    requires multiset(a) == multiset(b)
    ensures forall x :: x in a <==> x in b
  {
    forall x ensures x in a <==> x in b {
      assert x in a <==> x in multiset(a);
      assert x in b <==> x in multiset(b);
    }
  }

  /** The members of `b` with `e` added. */
  lemma MembersWithOneMore<T>(a: seq<T>, b: seq<T>, e: T)
    requires multiset(a) == multiset(b) + multiset{e}
    ensures forall x :: x in a ==> x in b || x == e
  {
    forall x | x in a ensures x in b || x == e {
      assert x in multiset(a);
    }
  }

  lemma EmptyIffNoMembers<T>(s: seq<T>)
    ensures |s| == 0 <==> forall x :: x !in s
  {
    if |s| > 0 {
      assert s[0] in s;
    }
  }
}

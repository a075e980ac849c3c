/**
 Group-by-sum over (key, measure) entries, as `groupby(column).sum()` computes
 it: one entry per distinct key, keys in ascending string order, each holding
 the sum of the measure over its group.
 */
module Grouping {

  import Lex
  import opened Seqs

  /** A group key with an amount: an input measure or a group total. */
  type Entry = (string, int)

  /** The keys of a list of entries, in order. */
  function Keys(kv: seq<Entry>): (ks: seq<string>)
    ensures |ks| == |kv|
    ensures forall i :: 0 <= i < |kv| ==> ks[i] == kv[i].0
  {
    seq(|kv|, i requires 0 <= i < |kv| => kv[i].0)
  }

  lemma KeysCons(e: Entry, kv: seq<Entry>)
    ensures Keys([e] + kv) == [e.0] + Keys(kv)
  {
  }

  /** The sum of the amounts filed under key `k`. */
  function SumFor(kv: seq<Entry>, k: string): int
  {
    if |kv| == 0 then 0
    else (if kv[0].0 == k then kv[0].1 else 0) + SumFor(kv[1..], k)
  }

  /** The sum of all amounts. */
  function Total(kv: seq<Entry>): int
  {
    if |kv| == 0 then 0 else kv[0].1 + Total(kv[1..])
  }

  /** Keys strictly ascending: sorted, and so each key occurs once. */
  predicate Sorted(g: seq<Entry>)
  {
    forall i, j :: 0 <= i < j < |g| ==> Lex.Less(g[i].0, g[j].0)
  }

  /** A key below every key of a sorted list can be put in front of it. */
  lemma SortedCons(e: Entry, g: seq<Entry>)
    requires Sorted(g)
    requires forall x :: x in Keys(g) ==> Lex.Less(e.0, x)
    ensures Sorted([e] + g)
  {
    forall i, j | 0 <= i < j < |[e] + g| ensures Lex.Less(([e] + g)[i].0, ([e] + g)[j].0) {
      if i == 0 {
        assert ([e] + g)[j].0 == Keys(g)[j - 1];
      }
    }
  }

  /** The head of a sorted list is below every key after it. */
  lemma SortedHead(g: seq<Entry>)
    requires Sorted(g) && |g| > 0
    ensures Sorted(g[1..])
    ensures forall x :: x in Keys(g[1..]) ==> Lex.Less(g[0].0, x)
  {
    forall x | x in Keys(g[1..]) ensures Lex.Less(g[0].0, x) {
      var j :| 0 <= j < |g[1..]| && Keys(g[1..])[j] == x;
      assert g[j + 1].0 == x;
    }
  }

  /** Adds amount `v` under key `k` to a sorted group list. */
  function AddTo(g: seq<Entry>, k: string, v: int): (g': seq<Entry>)
    requires Sorted(g)
    ensures Sorted(g')
    ensures forall x :: x in Keys(g') <==> x in Keys(g) || x == k
    ensures forall x :: SumFor(g', x) == SumFor(g, x) + (if x == k then v else 0)
    ensures Total(g') == Total(g) + v
    decreases |g|
  {
    if |g| == 0 then
      assert Keys([(k, v)]) == [k];
      [(k, v)]
    else if g[0].0 == k then
      SortedHead(g);
      SortedCons((k, g[0].1 + v), g[1..]);
      assert g == [g[0]] + g[1..];
      KeysCons((k, g[0].1 + v), g[1..]);
      KeysCons(g[0], g[1..]);
      [(k, g[0].1 + v)] + g[1..]
    else if Lex.Less(k, g[0].0) then
      SortedHead(g);
      forall x | x in Keys(g) ensures Lex.Less(k, x) {
        if x != g[0].0 {
          Lex.Transitive(k, g[0].0, x);
        }
      }
      SortedCons((k, v), g);
      KeysCons((k, v), g);
      [(k, v)] + g
    else
      Lex.Total(k, g[0].0);
      SortedHead(g);
      var rest := AddTo(g[1..], k, v);
      SortedCons(g[0], rest);
      KeysCons(g[0], rest);
      KeysCons(g[0], g[1..]);
      assert g == [g[0]] + g[1..];
      [g[0]] + rest
  }

  /**
   Groups the entries by key: the result is sorted by key and holds, for
   every key, the same sum as the input, so the grand total is unchanged.
   */
  function Group(kv: seq<Entry>): (g: seq<Entry>)
    ensures Sorted(g)
    ensures NoDups(Keys(g))
    ensures forall x :: x in Keys(g) <==> x in Keys(kv)
    ensures forall x :: SumFor(g, x) == SumFor(kv, x)
    ensures forall i :: 0 <= i < |g| ==> g[i].1 == SumFor(kv, g[i].0)
    ensures Total(g) == Total(kv)
    decreases |kv|
  {
    if |kv| == 0 then []
    else
      var g := AddTo(Group(kv[1..]), kv[0].0, kv[0].1);
      assert kv == [kv[0]] + kv[1..];
      SortedDistinct(g);
      SortedEntryIsKeySum(g);
      g
  }

  /** In a sorted list no key repeats. */
  lemma SortedDistinct(g: seq<Entry>)
    requires Sorted(g)
    ensures NoDups(Keys(g))
  {
    forall i, j | 0 <= i < j < |g| ensures Keys(g)[i] != Keys(g)[j] {
      if Keys(g)[i] == Keys(g)[j] {
        Lex.Irreflexive(g[i].0);
      }
    }
  }

  /** In a sorted list each entry holds the whole sum for its key. */
  lemma {:induction false} SortedEntryIsKeySum(g: seq<Entry>)
    requires Sorted(g)
    ensures forall i :: 0 <= i < |g| ==> g[i].1 == SumFor(g, g[i].0)
    decreases |g|
  {
    if |g| > 0 {
      SortedHead(g);
      SortedEntryIsKeySum(g[1..]);
      if g[0].0 in Keys(g[1..]) {
        Lex.Irreflexive(g[0].0);
        assert false;
      }
      AbsentKeySumsToZero(g[1..], g[0].0);
      forall i | 1 <= i < |g| ensures g[i].1 == SumFor(g, g[i].0) {
        assert g[i] == g[1..][i - 1];
        assert g[0].0 != g[i].0 by {
          Lex.Irreflexive(g[0].0);
        }
      }
    }
  }

  /** A key that never occurs sums to zero. */
  lemma {:induction false} AbsentKeySumsToZero(kv: seq<Entry>, k: string)
    requires k !in Keys(kv)
    ensures SumFor(kv, k) == 0
    decreases |kv|
  {
    if |kv| > 0 {
      assert Keys(kv) == [kv[0].0] + Keys(kv[1..]);
      AbsentKeySumsToZero(kv[1..], k);
    }
  }

  /** The keys of a grouping depend only on the input keys, not on the amounts. */
  lemma {:induction false} GroupKeysIgnoreAmounts(kv1: seq<Entry>, kv2: seq<Entry>)
    requires Keys(kv1) == Keys(kv2)
    ensures Keys(Group(kv1)) == Keys(Group(kv2))
    decreases |kv1|
  {
    if |kv1| > 0 {
      assert Keys(kv1[1..]) == Keys(kv1)[1..] && Keys(kv2[1..]) == Keys(kv2)[1..];
      GroupKeysIgnoreAmounts(kv1[1..], kv2[1..]);
      assert kv1[0].0 == Keys(kv1)[0] == Keys(kv2)[0] == kv2[0].0;
      AddToKeysIgnoreAmounts(Group(kv1[1..]), Group(kv2[1..]), kv1[0].0, kv1[0].1, kv2[0].1);
    }
  }

  lemma {:induction false} AddToKeysIgnoreAmounts(g1: seq<Entry>, g2: seq<Entry>, k: string, v1: int, v2: int)
    requires Sorted(g1) && Sorted(g2) && Keys(g1) == Keys(g2)
    ensures Keys(AddTo(g1, k, v1)) == Keys(AddTo(g2, k, v2))
    decreases |g1|
  {
    if |g1| > 0 {
      assert g1[0].0 == Keys(g1)[0] == Keys(g2)[0] == g2[0].0;
      assert Keys(g1[1..]) == Keys(g1)[1..] && Keys(g2[1..]) == Keys(g2)[1..];
      SortedHead(g1);
      SortedHead(g2);
      if g1[0].0 != k && !Lex.Less(k, g1[0].0) {
        AddToKeysIgnoreAmounts(g1[1..], g2[1..], k, v1, v2);
      }
    }
  }
}

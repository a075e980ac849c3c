/**
 Sums of a measure over the rows of a view, overall and per group, and the
 group-by-sum of a view on one key column.
 */
module Aggregate {

  import opened Sales
  import opened Months
  import opened Grouping
  import opened Seqs

  /** The numeric columns that get summed; `Occurrence` counts each row once,
      which is what finding the most frequent value tallies. */
  datatype Measure = SalesAmount | TotalProductCost | OrderQuantity | Occurrence

  function AmountOf(r: Row, m: Measure): int
  {
    match m
    case SalesAmount => r.salesAmount
    case TotalProductCost => r.totalProductCost
    case OrderQuantity => r.orderQuantity
    case Occurrence => 1
  }

  /** The columns views are grouped by. The month column holds month names. */
  datatype GroupKey = CountryKey | GenderKey | CategoryKey | MonthKey

  function KeyOf(r: Row, k: GroupKey): string
  {
    match k
    case CountryKey => r.country
    case GenderKey => r.gender
    case CategoryKey => r.category
    case MonthKey => Name(r.month)
  }

  /** Some row of `v` has key `x` in column `k`. */
  predicate Present(v: Dataset, k: GroupKey, x: string)
  {
    exists i :: 0 <= i < |v| && KeyOf(v[i], k) == x
  }

  /** The sum of measure `m` over all rows of `v`. */
  function AmountOver(v: Dataset, m: Measure): int
  {
    if |v| == 0 then 0 else AmountOf(v[0], m) + AmountOver(v[1..], m)
  }

  /** The sum of measure `m` over the rows of `v` whose key in column `k` is `x`. */
  function AmountWhere(v: Dataset, k: GroupKey, x: string, m: Measure): int
  {
    if |v| == 0 then 0
    else (if KeyOf(v[0], k) == x then AmountOf(v[0], m) else 0) + AmountWhere(v[1..], k, x, m)
  }

  /** One (key, amount) entry per row, in row order. */
  function Entries(v: Dataset, k: GroupKey, m: Measure): (kv: seq<Entry>)
    ensures |kv| == |v|
    ensures forall i :: 0 <= i < |v| ==> kv[i] == (KeyOf(v[i], k), AmountOf(v[i], m))
  {
    if |v| == 0 then [] else [(KeyOf(v[0], k), AmountOf(v[0], m))] + Entries(v[1..], k, m)
  }

  /** The entries of a view carry exactly its keys, per-key sums and total. */
  lemma {:induction false} EntriesAgree(v: Dataset, k: GroupKey, m: Measure)
    ensures Total(Entries(v, k, m)) == AmountOver(v, m)
    ensures forall x :: SumFor(Entries(v, k, m), x) == AmountWhere(v, k, x, m)
    ensures forall x :: x in Keys(Entries(v, k, m)) <==> Present(v, k, x)
    decreases |v|
  {
    if |v| > 0 {
      EntriesAgree(v[1..], k, m);
      var kv := Entries(v, k, m);
      assert kv[1..] == Entries(v[1..], k, m);
      forall x ensures x in Keys(kv) <==> Present(v, k, x) {
        if x in Keys(kv) {
          var i :| 0 <= i < |kv| && Keys(kv)[i] == x;
          assert KeyOf(v[i], k) == x;
        }
        if Present(v, k, x) {
          var i :| 0 <= i < |v| && KeyOf(v[i], k) == x;
          assert Keys(kv)[i] == x;
        }
      }
    }
  }

  /**
   `view.groupby(k).sum()[[m]]`: one entry per key present in the view, in
   ascending key order, each with the sum of `m` over its group; the group
   sums add up to the sum of `m` over the whole view.
   */
  function GroupSum(v: Dataset, k: GroupKey, m: Measure): (g: seq<Entry>)
    ensures Sorted(g)
    ensures NoDups(Keys(g))
    ensures forall x :: x in Keys(g) <==> Present(v, k, x)
    ensures forall i :: 0 <= i < |g| ==> g[i].1 == AmountWhere(v, k, g[i].0, m)
    ensures Total(g) == AmountOver(v, m)
  {
    EntriesAgree(v, k, m);
    Group(Entries(v, k, m))
  }

  /** Every key of a group-by sum occurs in the view. */
  lemma GroupLabelIsPresent(v: Dataset, k: GroupKey, m: Measure, i: nat)
    requires i < |GroupSum(v, k, m)|
    ensures Present(v, k, GroupSum(v, k, m)[i].0)
  {
  }

  /** Two group-by-sums of one view on one key have the same keys in the same order. */
  lemma GroupSumKeysShared(v: Dataset, k: GroupKey, m1: Measure, m2: Measure)
    ensures Keys(GroupSum(v, k, m1)) == Keys(GroupSum(v, k, m2))
  {
    var kv1 := Entries(v, k, m1);
    var kv2 := Entries(v, k, m2);
    assert Keys(kv1) == Keys(kv2);
    GroupKeysIgnoreAmounts(kv1, kv2);
  }

  /** A measure that is never negative has non-negative group sums. */
  lemma {:induction false} AmountWhereNonNegative(v: Dataset, k: GroupKey, x: string, m: Measure)
    requires m == OrderQuantity || m == Occurrence
    ensures AmountWhere(v, k, x, m) >= 0
    ensures m == Occurrence && Present(v, k, x) ==> AmountWhere(v, k, x, m) >= 1
    decreases |v|
  {
    if |v| > 0 {
      AmountWhereNonNegative(v[1..], k, x, m);
      if m == Occurrence && Present(v, k, x) && KeyOf(v[0], k) != x {
        var i :| 0 <= i < |v| && KeyOf(v[i], k) == x;
        assert KeyOf(v[1..][i - 1], k) == x;
      }
    }
  }

  /** Summing over a concatenation sums the parts. */
  lemma {:induction false} AmountWhereAppend(a: Dataset, b: Dataset, k: GroupKey, x: string, m: Measure)
    ensures AmountWhere(a + b, k, x, m) == AmountWhere(a, k, x, m) + AmountWhere(b, k, x, m)
    decreases |a|
  {
    if |a| == 0 {
      assert a + b == b;
    } else {
      assert (a + b)[0] == a[0];
      assert (a + b)[1..] == a[1..] + b;
      AmountWhereAppend(a[1..], b, k, x, m);
    }
  }

  /** A group sum does not depend on the order of the rows. */
  lemma {:induction false} AmountWhereReorder(v1: Dataset, v2: Dataset, k: GroupKey, x: string, m: Measure)
    requires multiset(v1) == multiset(v2)
    ensures AmountWhere(v1, k, x, m) == AmountWhere(v2, k, x, m)
    decreases |v1|
  {
    if |v1| == 0 {
      assert |v2| == |multiset(v2)| == 0;
    } else {
      var i := MatchIndex(v1, v2);
      var pre, post := v2[..i], v2[i + 1..];
      RemoveMatched(v1, v2, i);
      AmountWhereReorder(v1[1..], pre + post, k, x, m);
      SplitAt(v2, i);
      AmountWhereAppend(pre, [v2[i]] + post, k, x, m);
      AmountWhereAppend(pre, post, k, x, m);
      assert ([v2[i]] + post)[1..] == post;
    }
  }
}

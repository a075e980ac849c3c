/**
 The four headline figures of the dashboard, all computed on the main view:
 the number of sales, the total sales amount, the average sales amount and
 the most frequent product category.
 */
module Kpis {

  import opened Wrappers
  import opened Sales
  import opened Grouping
  import opened Aggregate
  import Lex

  /** An exact mean: `sum` divided by `count`, never rounded. */
  datatype Ratio = Ratio(sum: int, count: nat)

  /** Sums of `Occurrence` count rows. */
  lemma {:induction false} OccurrencesCountRows(v: Dataset)
    ensures AmountOver(v, Occurrence) == |v|
    decreases |v|
  {
    if |v| > 0 {
      OccurrencesCountRows(v[1..]);
    }
  }

  /**
   `SalesAmount.count()`: one per row of the view holding a sales amount,
   which in this model is every row.
   */
  function TotalSales(main: Dataset): (n: int)
    ensures n == |main|
  {
    OccurrencesCountRows(main);
    AmountOver(main, Occurrence)
  }

  /** `SalesAmount.sum()`: equal to the sum of the per-group sums on any key. */
  function TotalSalesAmount(main: Dataset): (s: int)
    ensures forall k :: s == Total(GroupSum(main, k, SalesAmount))
  {
    AmountOver(main, SalesAmount)
  }

  /**
   `SalesAmount.mean()`: the total over the count, kept as an exact ratio;
   there is none for an empty view, where pandas yields NaN.
   */
  function AverageSales(main: Dataset): (a: Option<Ratio>)
    ensures a.Some? <==> |main| > 0
    ensures a.Some? ==> a.value.count == TotalSales(main) && a.value.sum == TotalSalesAmount(main)
  {
    if |main| == 0 then None else Some(Ratio(TotalSalesAmount(main), |main|))
  }

  /** How many rows of the view carry category `c`. */
  function Frequency(v: Dataset, c: string): int
  {
    AmountWhere(v, CategoryKey, c, Occurrence)
  }

  /** A category absent from the view has frequency zero. */
  lemma {:induction false} AbsentHasZeroFrequency(v: Dataset, c: string)
    requires !Present(v, CategoryKey, c)
    ensures Frequency(v, c) == 0
    decreases |v|
  {
    if |v| > 0 {
      AbsentHasZeroFrequency(v[1..], c);
    }
  }

  /** The position of the first entry with the largest amount. */
  function FirstMax(g: seq<Entry>): (i: nat)
    requires |g| > 0
    ensures i < |g|
    ensures forall j :: 0 <= j < |g| ==> g[j].1 <= g[i].1
    ensures forall j :: 0 <= j < i ==> g[j].1 < g[i].1
    decreases |g|
  {
    if |g| == 1 then 0
    else
      var i := FirstMax(g[..|g| - 1]);
      assert forall j :: 0 <= j < |g| - 1 ==> g[..|g| - 1][j] == g[j];
      if g[|g| - 1].1 > g[i].1 then |g| - 1 else i
  }

  /**
   The category that `mode()[0]` picks: one that occurs in the view, occurs
   at least as often as any other category, and occurs strictly more often
   than every category that sorts before it.
   */
  ghost predicate IsLeastMode(v: Dataset, c: string)
  {
    && Present(v, CategoryKey, c)
    && (forall x :: Frequency(v, x) <= Frequency(v, c))
    && (forall x :: Lex.Less(x, c) ==> Frequency(v, x) < Frequency(v, c))
  }

  /**
   `category.mode()[0]`: `mode` lists the most frequent categories in
   ascending order and the first is taken; on an empty view there is none
   and indexing fails, which is `None` here.
   */
  function TopCategory(main: Dataset): (t: Option<string>)
    ensures t.Some? <==> |main| > 0
    ensures t.Some? ==> IsLeastMode(main, t.value)
  {
    if |main| == 0 then None
    else
      var g := GroupSum(main, CategoryKey, Occurrence);
      assert main[0].category in Keys(g) by {
        assert KeyOf(main[0], CategoryKey) == main[0].category;
      }
      var i := FirstMax(g);
      TopIsLeastMode(main, g, i);
      Some(g[i].0)
  }

  lemma TopIsLeastMode(v: Dataset, g: seq<Entry>, i: nat)
    requires g == GroupSum(v, CategoryKey, Occurrence) && i < |g|
    requires forall j :: 0 <= j < |g| ==> g[j].1 <= g[i].1
    requires forall j :: 0 <= j < i ==> g[j].1 < g[i].1
    ensures IsLeastMode(v, g[i].0)
  {
    var c := g[i].0;
    assert c == Keys(g)[i];
    AmountWhereNonNegative(v, CategoryKey, c, Occurrence);
    forall x ensures Frequency(v, x) <= Frequency(v, c)
      && (Lex.Less(x, c) ==> Frequency(v, x) < Frequency(v, c))
    {
      if Present(v, CategoryKey, x) {
        var j :| 0 <= j < |g| && Keys(g)[j] == x;
        if Lex.Less(x, c) && j >= i {
          if j == i {
            Lex.Irreflexive(c);
          } else {
            Lex.Asymmetric(c, x);
          }
        }
      } else {
        AbsentHasZeroFrequency(v, x);
      }
    }
  }

  /** At most one category is the least mode of a view. */
  lemma LeastModeUnique(v: Dataset, c1: string, c2: string)
    requires IsLeastMode(v, c1) && IsLeastMode(v, c2)
    ensures c1 == c2
  {
    if c1 != c2 {
      Lex.Total(c1, c2);
    }
  }

  /** The top category is exactly the least mode, when the view is not empty. */
  lemma TopCategoryIsLeastMode(v: Dataset, c: string)
    ensures TopCategory(v) == Some(c) <==> IsLeastMode(v, c)
  {
    if IsLeastMode(v, c) {
      var i :| 0 <= i < |v| && KeyOf(v[i], CategoryKey) == c;
      LeastModeUnique(v, TopCategory(v).value, c);
    }
  }

  /** A category no other category outnumbers in the view. */
  ghost predicate IsMode(v: Dataset, c: string)
  {
    Present(v, CategoryKey, c) && forall x :: Frequency(v, x) <= Frequency(v, c)
  }

  /** The keys whose amount is `a`, in the order of `g`. */
  function KeysWith(g: seq<Entry>, a: int): (ks: seq<string>)
    ensures forall x :: x in ks <==> exists i :: 0 <= i < |g| && g[i].0 == x && g[i].1 == a
    ensures forall i :: 0 <= i < |g| && g[i].1 == a && (forall j :: 0 <= j < i ==> g[j].1 != a) ==>
              |ks| > 0 && ks[0] == g[i].0
    decreases |g|
  {
    if |g| == 0 then []
    else
      var rest := KeysWith(g[1..], a);
      assert forall i :: 1 <= i < |g| ==> g[i] == g[1..][i - 1];
      (if g[0].1 == a then [g[0].0] else []) + rest
  }

  /** Picking keys out of a list sorted by key leaves them in ascending order. */
  lemma {:induction false} KeysWithAscending(g: seq<Entry>, a: int)
    requires Sorted(g)
    ensures forall i, j :: 0 <= i < j < |KeysWith(g, a)| ==> Lex.Less(KeysWith(g, a)[i], KeysWith(g, a)[j])
    decreases |g|
  {
    if |g| > 0 {
      SortedHead(g);
      KeysWithAscending(g[1..], a);
      var rest := KeysWith(g[1..], a);
      forall x | x in rest ensures Lex.Less(g[0].0, x) {
        var k :| 0 <= k < |g[1..]| && g[1..][k].0 == x && g[1..][k].1 == a;
        assert x == Keys(g[1..])[k];
      }
    }
  }

  /**
   `category.mode()`: every most frequent category, in ascending order, and
   nothing at all for an empty view.
   */
  function Modes(main: Dataset): (ms: seq<string>)
    ensures |ms| == 0 <==> |main| == 0
    ensures forall x :: x in ms <==> IsMode(main, x)
    ensures forall i, j :: 0 <= i < j < |ms| ==> Lex.Less(ms[i], ms[j])
    ensures |ms| > 0 ==> TopCategory(main) == Some(ms[0])
  {
    if |main| == 0 then []
    else
      var g := GroupSum(main, CategoryKey, Occurrence);
      assert main[0].category in Keys(g) by {
        assert KeyOf(main[0], CategoryKey) == main[0].category;
      }
      var i := FirstMax(g);
      TopIsLeastMode(main, g, i);
      ModesAreTheMaxima(main, g, i);
      KeysWithAscending(g, g[i].1);
      KeysWith(g, g[i].1)
  }

  lemma ModesAreTheMaxima(v: Dataset, g: seq<Entry>, i: nat)
    requires g == GroupSum(v, CategoryKey, Occurrence) && i < |g|
    requires forall j :: 0 <= j < |g| ==> g[j].1 <= g[i].1
    ensures forall x :: IsMode(v, x) <==> exists j :: 0 <= j < |g| && g[j].0 == x && g[j].1 == g[i].1
  {
    forall x ensures IsMode(v, x) <==> exists j :: 0 <= j < |g| && g[j].0 == x && g[j].1 == g[i].1 {
      ModeIsAMaximum(v, g, i, x);
    }
  }

  lemma ModeIsAMaximum(v: Dataset, g: seq<Entry>, i: nat, x: string)
    requires g == GroupSum(v, CategoryKey, Occurrence) && i < |g|
    requires forall j :: 0 <= j < |g| ==> g[j].1 <= g[i].1
    ensures IsMode(v, x) <==> exists j :: 0 <= j < |g| && g[j].0 == x && g[j].1 == g[i].1
  {
    if IsMode(v, x) {
      var top := g[i].0;
      assert top == Keys(g)[i];
      assert Frequency(v, top) == g[i].1;
      var j :| 0 <= j < |g| && Keys(g)[j] == x;
      assert Frequency(v, top) <= Frequency(v, x);
    }
    if exists j :: 0 <= j < |g| && g[j].0 == x && g[j].1 == g[i].1 {
      var j :| 0 <= j < |g| && g[j].0 == x && g[j].1 == g[i].1;
      MaximumIsAMode(v, g, j);
    }
  }

  lemma MaximumIsAMode(v: Dataset, g: seq<Entry>, j: nat)
    requires g == GroupSum(v, CategoryKey, Occurrence) && j < |g|
    requires forall k :: 0 <= k < |g| ==> g[k].1 <= g[j].1
    ensures IsMode(v, g[j].0)
  {
    var x := g[j].0;
    assert Keys(g)[j] == x;
    AmountWhereNonNegative(v, CategoryKey, x, Occurrence);
    forall y ensures Frequency(v, y) <= Frequency(v, x) {
      if Present(v, CategoryKey, y) {
        var k :| 0 <= k < |g| && Keys(g)[k] == y;
      } else {
        AbsentHasZeroFrequency(v, y);
      }
    }
  }

  /**
   `top_category[0]` as the page reads it: the first of the modes, which
   exists only when the main view has a row.
   */
  function TopCategoryAsWritten(main: Dataset): (c: string)
    requires |Modes(main)| > 0
    ensures IsLeastMode(main, c)
  {
    Modes(main)[0]
  }

  /** Every row falls in exactly one category, so the category counts add up to the row count. */
  lemma CategoryCountsAddUp(v: Dataset)
    ensures Total(GroupSum(v, CategoryKey, Occurrence)) == TotalSales(v)
  {
    OccurrencesCountRows(v);
  }

  /** The four figures shown above the charts. */
  datatype Figures = Figures(
    totalSales: int,
    totalSalesAmount: int,
    averageSales: Option<Ratio>,
    topCategory: Option<string>)

  function HeadlineFigures(main: Dataset): (f: Figures)
    ensures f.totalSales == |main|
    ensures f.totalSalesAmount == AmountOver(main, SalesAmount)
    ensures forall k :: f.totalSalesAmount == Total(GroupSum(main, k, SalesAmount))
    ensures f.averageSales.Some? <==> |main| > 0
    ensures f.averageSales.Some? <==> f.topCategory.Some?
    ensures f.averageSales.Some? ==> f.averageSales.value == Ratio(f.totalSalesAmount, f.totalSales)
    ensures f.topCategory.Some? ==> IsLeastMode(main, f.topCategory.value)
  {
    Figures(TotalSales(main), TotalSalesAmount(main), AverageSales(main), TopCategory(main))
  }
}

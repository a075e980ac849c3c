/**
 The series behind the four charts: sales amount and product cost by country,
 order quantity by category and by gender, and order quantity by month in
 descending calendar order.
 */
module Charts {

  import opened Sales
  import opened Months
  import opened Wrappers
  import opened Grouping
  import opened Aggregate
  import opened Seqs

  /** The grouped bar chart's two series; they share their country labels. */
  datatype SalesVsCost = SalesVsCost(sales: seq<Entry>, cost: seq<Entry>)

  /** Sales amount and total product cost summed per country. */
  function CountryChart(view: Dataset): (c: SalesVsCost)
    ensures Keys(c.sales) == Keys(c.cost)
    ensures Sorted(c.sales) && NoDups(Keys(c.sales))
    ensures forall x :: x in Keys(c.sales) <==> Present(view, CountryKey, x)
    ensures forall i :: 0 <= i < |c.sales| ==>
              c.sales[i].1 == AmountWhere(view, CountryKey, c.sales[i].0, SalesAmount)
    ensures forall i :: 0 <= i < |c.cost| ==>
              c.cost[i].1 == AmountWhere(view, CountryKey, c.cost[i].0, TotalProductCost)
    ensures Total(c.sales) == AmountOver(view, SalesAmount)
    ensures Total(c.cost) == AmountOver(view, TotalProductCost)
  {
    GroupSumKeysShared(view, CountryKey, SalesAmount, TotalProductCost);
    SalesVsCost(GroupSum(view, CountryKey, SalesAmount), GroupSum(view, CountryKey, TotalProductCost))
  }

  /** A bar of the month chart: the categorical month (None for a name outside
      the twelve categories) and its order quantity. */
  type MonthBar = (Option<Month>, int)

  /** Calendar position of a categorical month; a missing one sorts last. */
  function RankOf(k: Option<Month>): int
  {
    match k
    case Some(m) => Rank(m)
    case None => 0
  }

  /** The total order quantity of the rows of `v` in month `m`. */
  function MonthQuantity(v: Dataset, m: Month): int
  {
    AmountWhere(v, MonthKey, Name(m), OrderQuantity)
  }

  /** Some row of `v` falls in month `m`. */
  predicate HasMonth(v: Dataset, m: Month)
  {
    Present(v, MonthKey, Name(m))
  }

  /** The categorical conversion of the month labels. */
  function Categorize(g: seq<Entry>): (c: seq<MonthBar>)
    ensures |c| == |g|
    ensures forall i :: 0 <= i < |g| ==> c[i] == (FromName(g[i].0), g[i].1)
  {
    if |g| == 0 then [] else [(FromName(g[0].0), g[0].1)] + Categorize(g[1..])
  }

  predicate NonIncreasing(c: seq<MonthBar>)
  {
    forall i, j :: 0 <= i < j < |c| ==> RankOf(c[i].0) >= RankOf(c[j].0)
  }

  predicate Decreasing(c: seq<MonthBar>)
  {
    forall i, j :: 0 <= i < j < |c| ==> RankOf(c[i].0) > RankOf(c[j].0)
  }

  predicate DistinctRanks(c: seq<MonthBar>)
  {
    forall i, j :: 0 <= i < j < |c| ==> RankOf(c[i].0) != RankOf(c[j].0)
  }

  /** A bar ranked at least as high as every bar of a sorted list can lead it. */
  lemma ConsSorted(h: MonthBar, rest: seq<MonthBar>)
    requires NonIncreasing(rest)
    requires forall x :: x in rest ==> RankOf(x.0) <= RankOf(h.0)
    ensures NonIncreasing([h] + rest)
    ensures Decreasing(rest) && (forall x :: x in rest ==> RankOf(x.0) < RankOf(h.0)) ==> Decreasing([h] + rest)
  {
    forall j | 1 <= j < |[h] + rest| ensures ([h] + rest)[j] in rest {
      assert ([h] + rest)[j] == rest[j - 1];
    }
  }

  /** Inserts a bar into a list sorted by descending rank. */
  function Insert(c: seq<MonthBar>, e: MonthBar): (r: seq<MonthBar>)
    requires NonIncreasing(c)
    ensures NonIncreasing(r)
    ensures multiset(r) == multiset(c) + multiset{e}
    decreases |c|
  {
    assert |c| > 0 ==> c == [c[0]] + c[1..];
    if |c| == 0 then [e]
    else if RankOf(e.0) >= RankOf(c[0].0) then
      ConsSorted(e, c);
      [e] + c
    else
      var rest := Insert(c[1..], e);
      MembersWithOneMore(rest, c[1..], e);
      ConsSorted(c[0], rest);
      [c[0]] + rest
  }

  /** Inserting a bar of a new rank into a strictly descending list keeps it strict. */
  lemma {:induction false} InsertKeepsDecreasing(c: seq<MonthBar>, e: MonthBar)
    requires NonIncreasing(c)
    ensures Decreasing(c) && (forall x :: x in c ==> RankOf(x.0) != RankOf(e.0)) ==> Decreasing(Insert(c, e))
    decreases |c|
  {
    if |c| > 0 && Decreasing(c) && (forall x :: x in c ==> RankOf(x.0) != RankOf(e.0)) {
      assert c[0] in c;
      if RankOf(e.0) < RankOf(c[0].0) {
        assert forall x :: x in c[1..] ==> x in c;
        InsertKeepsDecreasing(c[1..], e);
        var rest := Insert(c[1..], e);
        MembersWithOneMore(rest, c[1..], e);
        ConsSorted(c[0], rest);
      } else {
        ConsSorted(e, c);
      }
    }
  }

  /** The inductive step of the sort: a list of distinct ranks sorts strictly. */
  lemma SortStep(c: seq<MonthBar>, rest: seq<MonthBar>)
    requires |c| > 0 && multiset(rest) == multiset(c[1..]) && NonIncreasing(rest)
    requires DistinctRanks(c[1..]) ==> Decreasing(rest)
    ensures DistinctRanks(c) ==> Decreasing(Insert(rest, c[0]))
  {
    if DistinctRanks(c) {
      SameMembers(rest, c[1..]);
      forall x | x in rest ensures RankOf(x.0) != RankOf(c[0].0) {
        var j :| 0 <= j < |c[1..]| && c[1..][j] == x;
        assert c[j + 1] == x;
      }
      assert DistinctRanks(c[1..]) by {
        forall i, j | 0 <= i < j < |c[1..]| ensures RankOf(c[1..][i].0) != RankOf(c[1..][j].0) {
          assert c[1..][i] == c[i + 1] && c[1..][j] == c[j + 1];
        }
      }
      InsertKeepsDecreasing(rest, c[0]);
    }
  }

  /** `sort_values(ascending=False)` on the categorical month. */
  function SortDescending(c: seq<MonthBar>): (r: seq<MonthBar>)
    ensures NonIncreasing(r)
    ensures multiset(r) == multiset(c)
    ensures DistinctRanks(c) ==> Decreasing(r)
    decreases |c|
  {
    if |c| == 0 then []
    else
      var rest := SortDescending(c[1..]);
      assert c == [c[0]] + c[1..];
      SortStep(c, rest);
      Insert(rest, c[0])
  }

  /**
   `groupby("Month").sum()` on the main view, converted to the calendar
   categories and sorted descending: each month that occurs appears once, with
   its total order quantity, December first and January last.
   */
  function MonthChart(view: Dataset): (c: seq<MonthBar>)
    ensures Decreasing(c)
    ensures forall e :: e in c ==> e.0.Some? && e.1 == MonthQuantity(view, e.0.value)
    ensures forall m :: (Some(m), MonthQuantity(view, m)) in c <==> HasMonth(view, m)
  {
    var c0 := Categorize(GroupSum(view, MonthKey, OrderQuantity));
    CategorizedMonths(view);
    var c := SortDescending(c0);
    SameMembers(c, c0);
    c
  }

  /** The categorized month groups have distinct months, each with its quantity. */
  lemma CategorizedMonths(view: Dataset)
    ensures var c0 := Categorize(GroupSum(view, MonthKey, OrderQuantity));
            && DistinctRanks(c0)
            && (forall e :: e in c0 ==> e.0.Some? && e.1 == MonthQuantity(view, e.0.value))
            && (forall m :: (Some(m), MonthQuantity(view, m)) in c0 <==> HasMonth(view, m))
  {
    var g := GroupSum(view, MonthKey, OrderQuantity);
    var c0 := Categorize(g);
    MonthLabelsAreNames(view, g);
    assert forall i :: 0 <= i < |g| ==> c0[i].0 == FromName(g[i].0);
    CategorizedRanksDistinct(g, c0);
    CategorizedBars(view, g, c0);
  }

  /** Every label of the month groups is the name of a month that occurs. */
  lemma MonthLabelsAreNames(view: Dataset, g: seq<Entry>)
    requires g == GroupSum(view, MonthKey, OrderQuantity)
    ensures forall i :: 0 <= i < |g| ==> FromName(g[i].0).Some? && Name(FromName(g[i].0).value) == g[i].0
  {
    forall i | 0 <= i < |g| ensures FromName(g[i].0).Some? && Name(FromName(g[i].0).value) == g[i].0 {
      GroupLabelIsPresent(view, MonthKey, OrderQuantity, i);
      var m := MonthOfLabel(view, g[i].0);
      NameRoundTrip(m);
    }
  }

  /** A month label that occurs in a view is the name of some month. */
  lemma MonthOfLabel(view: Dataset, x: string) returns (m: Month)
    requires Present(view, MonthKey, x)
    ensures x == Name(m)
  {
    var j :| 0 <= j < |view| && KeyOf(view[j], MonthKey) == x;
    m := view[j].month;
  }



  /** Distinct month labels give distinct calendar ranks. */
  lemma CategorizedRanksDistinct(g: seq<Entry>, c0: seq<MonthBar>)
    requires NoDups(Keys(g)) && |c0| == |g|
    requires forall i :: 0 <= i < |g| ==> c0[i].0.Some? && Name(c0[i].0.value) == g[i].0
    ensures DistinctRanks(c0)
  {
    forall i, j | 0 <= i < j < |c0| ensures RankOf(c0[i].0) != RankOf(c0[j].0) {
      var m1, m2 := c0[i].0.value, c0[j].0.value;
      assert Name(m1) != Name(m2) by {
        assert Keys(g)[i] != Keys(g)[j];
      }
      RankInjective(m1, m2);
    }
  }

  /** The categorized bars are exactly the occurring months with their quantities. */
  lemma CategorizedBars(view: Dataset, g: seq<Entry>, c0: seq<MonthBar>)
    requires g == GroupSum(view, MonthKey, OrderQuantity) && c0 == Categorize(g)
    requires forall i :: 0 <= i < |g| ==> FromName(g[i].0).Some? && Name(FromName(g[i].0).value) == g[i].0
    ensures forall e :: e in c0 ==> e.0.Some? && e.1 == MonthQuantity(view, e.0.value)
    ensures forall m :: (Some(m), MonthQuantity(view, m)) in c0 <==> HasMonth(view, m)
  {
    forall m ensures (Some(m), MonthQuantity(view, m)) in c0 <==> HasMonth(view, m) {
      if HasMonth(view, m) {
        var i :| 0 <= i < |g| && Keys(g)[i] == Name(m);
        NameRoundTrip(m);
        assert c0[i] == (Some(m), MonthQuantity(view, m));
      }
      if (Some(m), MonthQuantity(view, m)) in c0 {
        var i :| 0 <= i < |c0| && c0[i] == (Some(m), MonthQuantity(view, m));
        assert Keys(g)[i] == Name(m);
      }
    }
  }

  /** Presence of a key does not depend on the order of the rows. */
  lemma PresentReorder(v1: Dataset, v2: Dataset, k: GroupKey, x: string)
    requires multiset(v1) == multiset(v2)
    ensures Present(v1, k, x) <==> Present(v2, k, x)
  {
    if Present(v1, k, x) {
      var i :| 0 <= i < |v1| && KeyOf(v1[i], k) == x;
      assert v1[i] in multiset(v2);
      var j :| 0 <= j < |v2| && v2[j] == v1[i];
    }
    if Present(v2, k, x) {
      var i :| 0 <= i < |v2| && KeyOf(v2[i], k) == x;
      assert v2[i] in multiset(v1);
      var j :| 0 <= j < |v1| && v1[j] == v2[i];
    }
  }

  /** Two strictly descending bar lists with the same bars are the same list. */
  lemma {:induction false} DecreasingUnique(c1: seq<MonthBar>, c2: seq<MonthBar>)
    requires Decreasing(c1) && Decreasing(c2)
    requires forall e :: e in c1 <==> e in c2
    ensures c1 == c2
    decreases |c1|
  {
    if |c2| > 0 {
      assert c2[0] in c2;
    }
    if |c1| > 0 {
      assert c1[0] in c2;
      assert c2[0] in c1;
      var j :| 0 <= j < |c2| && c2[j] == c1[0];
      var k :| 0 <= k < |c1| && c1[k] == c2[0];
      assert j == 0;
      forall e ensures e in c1[1..] <==> e in c2[1..] {
        if e in c1[1..] {
          var a :| 0 <= a < |c1[1..]| && c1[1..][a] == e;
          assert RankOf(e.0) < RankOf(c1[0].0);
          assert e in c2;
        }
        if e in c2[1..] {
          var a :| 0 <= a < |c2[1..]| && c2[1..][a] == e;
          assert RankOf(e.0) < RankOf(c2[0].0);
          assert e in c1;
        }
      }
      DecreasingUnique(c1[1..], c2[1..]);
      assert c1 == [c1[0]] + c1[1..] && c2 == [c2[0]] + c2[1..];
    }
  }

  /** The month chart is the same whatever order the view's rows come in. */
  lemma MonthChartIgnoresRowOrder(v1: Dataset, v2: Dataset)
    requires multiset(v1) == multiset(v2)
    ensures MonthChart(v1) == MonthChart(v2)
  {
    var c1, c2 := MonthChart(v1), MonthChart(v2);
    forall m ensures HasMonth(v1, m) == HasMonth(v2, m) && MonthQuantity(v1, m) == MonthQuantity(v2, m) {
      PresentReorder(v1, v2, MonthKey, Name(m));
      AmountWhereReorder(v1, v2, MonthKey, Name(m), OrderQuantity);
    }
    forall e ensures e in c1 <==> e in c2 {
      if e in c1 {
        assert (Some(e.0.value), MonthQuantity(v1, e.0.value)) in c1;
      }
      if e in c2 {
        assert (Some(e.0.value), MonthQuantity(v2, e.0.value)) in c2;
      }
    }
    DecreasingUnique(c1, c2);
  }
}

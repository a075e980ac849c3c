/**
 The whole page: the cross-filter views feed the headline figures and the
 four charts, each chart drawn from the view that leaves its own
 dimension's selection out.
 */
module Dashboard {

  import opened Wrappers
  import opened Months
  import opened Sales
  import opened Seqs
  import opened Filters
  import opened Grouping
  import opened Aggregate
  import opened Charts
  import opened Kpis

  datatype Page = Page(
    figures: Figures,
    countryChart: SalesVsCost,
    monthChart: seq<MonthBar>,
    categoryPie: seq<Entry>,
    genderPie: seq<Entry>)

  /**
   Everything the page shows for a dataset and the user's selections: the
   figures and the month chart come from the main view; the country chart
   and the two pies come from their drop-one views, so each still shows
   every value of its own dimension that the other selections admit.
   */
  function Build(ds: Dataset, sel: DimLists): (p: Page)
    ensures var v := CrossFilter(ds, sel);
            && p.figures.totalSales == |v.main|
            && p.figures.totalSalesAmount == AmountOver(v.main, SalesAmount)
            && (p.figures.averageSales.Some? <==> |v.main| > 0)
            && (p.figures.averageSales.Some? ==>
                  p.figures.averageSales.value == Ratio(p.figures.totalSalesAmount, p.figures.totalSales))
            && (p.figures.topCategory.Some? <==> |v.main| > 0)
            && (p.figures.topCategory.Some? ==> IsLeastMode(v.main, p.figures.topCategory.value))
    ensures var v := CrossFilter(ds, sel);
            && Sorted(p.countryChart.sales)
            && Keys(p.countryChart.cost) == Keys(p.countryChart.sales)
            && (forall x :: x in Keys(p.countryChart.sales) <==> Present(v.byCountry, CountryKey, x))
            && (forall i :: 0 <= i < |p.countryChart.sales| ==>
                  p.countryChart.sales[i].1 == AmountWhere(v.byCountry, CountryKey, p.countryChart.sales[i].0, SalesAmount))
            && (forall i :: 0 <= i < |p.countryChart.cost| ==>
                  p.countryChart.cost[i].1 == AmountWhere(v.byCountry, CountryKey, p.countryChart.cost[i].0, TotalProductCost))
            && Total(p.countryChart.sales) == AmountOver(v.byCountry, SalesAmount)
            && Total(p.countryChart.cost) == AmountOver(v.byCountry, TotalProductCost)
    ensures var v := CrossFilter(ds, sel);
            && Decreasing(p.monthChart)
            && (forall e :: e in p.monthChart ==> e.0.Some? && e.1 == MonthQuantity(v.main, e.0.value))
            && (forall m :: (Some(m), MonthQuantity(v.main, m)) in p.monthChart <==> HasMonth(v.main, m))
    ensures var v := CrossFilter(ds, sel);
            && Sorted(p.categoryPie)
            && (forall x :: x in Keys(p.categoryPie) <==> Present(v.byCategory, CategoryKey, x))
            && (forall i :: 0 <= i < |p.categoryPie| ==>
                  p.categoryPie[i].1 == AmountWhere(v.byCategory, CategoryKey, p.categoryPie[i].0, OrderQuantity))
            && Total(p.categoryPie) == AmountOver(v.byCategory, OrderQuantity)
    ensures var v := CrossFilter(ds, sel);
            && Sorted(p.genderPie)
            && (forall x :: x in Keys(p.genderPie) <==> Present(v.byGender, GenderKey, x))
            && (forall i :: 0 <= i < |p.genderPie| ==>
                  p.genderPie[i].1 == AmountWhere(v.byGender, GenderKey, p.genderPie[i].0, OrderQuantity))
            && Total(p.genderPie) == AmountOver(v.byGender, OrderQuantity)
  {
    var v := CrossFilter(ds, sel);
    Page(
      HeadlineFigures(v.main),
      CountryChart(v.byCountry),
      MonthChart(v.main),
      GroupSum(v.byCategory, CategoryKey, OrderQuantity),
      GroupSum(v.byGender, GenderKey, OrderQuantity))
  }

  /** Changing only the country selection leaves the country chart as it is. */
  lemma CountryChartIgnoresCountrySelection(ds: Dataset, sel1: DimLists, sel2: DimLists)
    requires sel1.years == sel2.years && sel1.genders == sel2.genders && sel1.categories == sel2.categories
    ensures Build(ds, sel1).countryChart == Build(ds, sel2).countryChart
  {
    DropOneViewIgnoresOwnSelection(ds, sel1, sel2, Country);
  }

  /** Changing only the gender selection leaves the gender pie as it is. */
  lemma GenderPieIgnoresGenderSelection(ds: Dataset, sel1: DimLists, sel2: DimLists)
    requires sel1.years == sel2.years && sel1.countries == sel2.countries && sel1.categories == sel2.categories
    ensures Build(ds, sel1).genderPie == Build(ds, sel2).genderPie
  {
    DropOneViewIgnoresOwnSelection(ds, sel1, sel2, Gender);
  }

  /** Changing only the category selection leaves the category pie as it is. */
  lemma CategoryPieIgnoresCategorySelection(ds: Dataset, sel1: DimLists, sel2: DimLists)
    requires sel1.years == sel2.years && sel1.countries == sel2.countries && sel1.genders == sel2.genders
    ensures Build(ds, sel1).categoryPie == Build(ds, sel2).categoryPie
  {
    DropOneViewIgnoresOwnSelection(ds, sel1, sel2, Category);
  }

  /**
   With every selection empty or full, as on first load, the figures
   describe the whole dataset: they are the dataset's own headline figures,
   so every row is counted, the sales amount is the dataset's, and there is
   a top category exactly when there are rows.
   */
  lemma UnrestrictedPageCoversDataset(ds: Dataset, sel: DimLists)
    requires forall d :: Unrestricted(sel, Observed(ds), d)
    ensures var f := Build(ds, sel).figures;
            && f.totalSales == |ds|
            && f.totalSalesAmount == AmountOver(ds, SalesAmount)
            && (f.topCategory.Some? <==> |ds| > 0)
    ensures Build(ds, sel).figures == HeadlineFigures(ds)
  {
    UnrestrictedSelectionKeepsDataset(ds, sel);
  }

  /**
   Two options the selectors offer can together admit no row: here France
   and Clothing, which never occur in one order. The main view is then
   empty, `mode()` has no entry, and the page's `top_category[0]` has
   nothing to read, while `TopCategory` reports that there is none.
   */
  lemma EmptyMainViewHasNoModes(ds: Dataset, sel: DimLists)
    requires ds == [
      Row("SO1", 2013, January, 2000, 1, 1200, "Ann Lee", "F", "France", "Bikes"),
      Row("SO2", 2013, February, 500, 2, 300, "Bo Ray", "M", "Germany", "Clothing")]
    requires sel == DimLists([], ["France"], [], ["Clothing"])
    ensures "France" in Observed(ds).countries && "Clothing" in Observed(ds).categories
    ensures CrossFilter(ds, sel).main == []
    ensures Modes(CrossFilter(ds, sel).main) == [] && TopCategory(CrossFilter(ds, sel).main) == None
  {
    var o := Observed(ds);
    assert InDim(ds[0], o, Country) && InDim(ds[1], o, Category);
    var l := Resolve(sel, o);
    assert l.countries == ["France"] && l.categories == ["Clothing"];
    MainEmptyWhenNoRowPasses(ds, sel);
  }

  /** When every row fails the country or the category filter, the main view is empty. */
  lemma MainEmptyWhenNoRowPasses(ds: Dataset, sel: DimLists)
    requires var l := Resolve(sel, Observed(ds));
             forall i :: 0 <= i < |ds| ==> ds[i].country !in l.countries || ds[i].category !in l.categories
    ensures CrossFilter(ds, sel).main == []
  {
    var l := Resolve(sel, Observed(ds));
    var main := CrossFilter(ds, sel).main;
    assert forall r :: r in main ==> r in ds && r.country in l.countries && r.category in l.categories;
    EmptyIffNoMembers(main);
  }
}

/**
 The dataset the dashboard works on: one row per internet-sales order line,
 joined with its territory, customer and product category. Money is kept in
 integer cents.
 */
module Sales {

  import opened Months

  datatype Row = Row(
    orderNumber: string,
    year: int,
    month: Month,
    salesAmount: int,
    orderQuantity: nat,
    totalProductCost: int,
    customer: string,
    gender: string,
    country: string,
    category: string)

  /** The loaded dataset: an ordered, immutable sequence of rows. */
  type Dataset = seq<Row>

  /** The four dimensions a user can filter on. */
  datatype Dim = Year | Country | Gender | Category

  /** One list of values per dimension: used both for what the user picked
      and for the values observed in the dataset. */
  datatype DimLists = DimLists(
    years: seq<int>,
    countries: seq<string>,
    genders: seq<string>,
    categories: seq<string>)

  /** The list a DimLists holds for a string-valued dimension. */
  function Labels(l: DimLists, d: Dim): seq<string>
    requires d != Year
  {
    match d
    case Country => l.countries
    case Gender => l.genders
    case Category => l.categories
  }

  /** The value a row carries on a string-valued dimension. */
  function Label(r: Row, d: Dim): string
    requires d != Year
  {
    match d
    case Country => r.country
    case Gender => r.gender
    case Category => r.category
  }

  /** Whether a row's value on dimension `d` is one of the values `l` lists. */
  predicate InDim(r: Row, l: DimLists, d: Dim)
  {
    if d == Year then r.year in l.years else Label(r, d) in Labels(l, d)
  }

  /** The year column of a dataset, in row order. */
  function YearColumn(ds: Dataset): (c: seq<int>)
    ensures |c| == |ds|
    ensures forall i :: 0 <= i < |ds| ==> c[i] == ds[i].year
  {
    if |ds| == 0 then [] else YearColumn(ds[..|ds| - 1]) + [ds[|ds| - 1].year]
  }

  /** The column of a string-valued dimension, in row order. */
  function LabelColumn(ds: Dataset, d: Dim): (c: seq<string>)
    requires d != Year
    ensures |c| == |ds|
    ensures forall i :: 0 <= i < |ds| ==> c[i] == Label(ds[i], d)
  {
    if |ds| == 0 then [] else LabelColumn(ds[..|ds| - 1], d) + [Label(ds[|ds| - 1], d)]
  }
}

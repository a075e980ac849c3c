# Sales dashboard: cross-filtering and aggregation

This project models the in-memory core of a Streamlit sales dashboard
(`Streamlit/main.py`). The page loads a table of internet sales. Each row has:

- an order number;
- the order's year and month name;
- the sales amount, order quantity and total product cost;
- the customer, and the customer's gender;
- the sales-territory country and the product category.

Four multi-select filters narrow the table: year, country, gender and
category. The page then shows four headline figures and four charts:

- the figures: the number of sales, the total and the average sales amount,
  and the most frequent category;
- the charts: sales against cost by country, order quantity by month, and
  order quantity by category and by gender.

The model covers the following steps:

- **Effective selection** (`Filters`): an empty selection means "every value
  observed in the column".
  - The observed values are the column's distinct values in first-seen order (`Seqs.Unique`).
- **Cross-filter** (`Filters`): four views are cut from the dataset.
  - The main view applies all four predicates.
  - Each chart's view leaves its own dimension's predicate out, so a chart
    keeps showing every value of its own dimension.
- **Group-by-sum** (`Grouping`, `Aggregate`):
  - one entry per distinct key;
  - keys in ascending code-point order, which is pandas' default group order;
  - each entry holds the sum of the measure over its group.
- **Month chart** (`Charts`): the month groups, keyed by month name, are
  turned into calendar months and sorted in descending calendar order.
- **Headline figures** (`Kpis`):
  - the count and the sum;
  - the mean, as an exact ratio;
  - the category `mode()[0]` picks: the lexicographically least of the most
    frequent categories.
- **Page** (`Dashboard`): ties the views to the figures and the charts.

Modelling conventions:

- A view is a `seq<Row>` and keeps dataset order.
- Money is an `int`, read as a count of cents.
- The mean is `Ratio(sum, count)`.
- Where pandas would give NaN or raise on an empty view, the model gives `None`.

## Model

| member | source | states |
|---|---|---|
| Seqs.Unique | Streamlit/main.py:69-72 | the option list holds each value of the column exactly once, holds nothing else, and is empty only for an empty column |
| Seqs.UniqueKeepsFirstSeenOrder | Streamlit/main.py:69-72 | the options are listed in the order in which their values first occur in the column |
| Filters.Observed | Streamlit/main.py:69-72 | the four option lists are duplicate-free, every row's value in each dimension is among them, and every option occurs in its column |
| Filters.Effective | Streamlit/main.py:96-114 | a non-empty selection is used as it is; an empty one is replaced by all observed values |
| Filters.Resolve | Streamlit/main.py:96-114 | each of the four dimensions is resolved independently by that rule |
| Filters.Apply | Streamlit/main.py:116-119 | the filtered view is an order-preserving subsequence of the dataset. A row is in it exactly when it is in the dataset and passes every chosen predicate |
| Filters.ApplyKeepsMultiplicity | Streamlit/main.py:116-119 | a row that passes the predicates keeps every one of its copies, and a row that fails keeps none |
| Filters.CrossFilter | Streamlit/main.py:116-119 | exact membership for each view: the main view needs all four predicates, and each drop-one view needs the other three. Each view holds every copy of a row that passes and no copy of one that fails, and is a subsequence of the dataset |
| Filters.PredicateChains | Streamlit/main.py:116-119 | the single parameterised filter with a dimension removed is exactly each of the four hand-written query strings |
| Filters.ApplyCompose | Streamlit/main.py:116-119 | filtering on one set of predicates and then another equals filtering once on their union |
| Filters.MainWithinDropOneViews | Streamlit/main.py:116-119 | the main view is the drop-one view narrowed by the one predicate it left out, so it is a subsequence of every drop-one view |
| Filters.ApplyDependsOnlyOnDims | Streamlit/main.py:116-119 | a filter depends only on the lists of the dimensions it tests |
| Filters.DropOneViewIgnoresOwnSelection | Streamlit/main.py:117-119 | changing only the selection of dimension d leaves the view that omits d unchanged |
| Filters.UnrestrictedSelectionKeepsDataset | Streamlit/main.py:96-119 | when every selection is empty or contains every observed value, all four views are the whole dataset |
| Filters.EmptySelectionMeansAll | Streamlit/main.py:96-114 | selecting nothing in a dimension filters exactly as selecting all its observed values |
| Grouping.AddTo | Streamlit/main.py:154 | adding an amount under a key to a sorted group list keeps it sorted. The key set gains just that key, only that key's sum grows by the amount, and the total grows by the amount |
| Grouping.Group | Streamlit/main.py:154 | the grouping is strictly sorted by key with no key twice, and has exactly the input's keys. It keeps every key's sum, each entry holds its key's whole sum, and the grand total is unchanged |
| Grouping.SortedEntryIsKeySum | Streamlit/main.py:154 | in a strictly sorted group list each entry's amount is the sum for its key |
| Grouping.GroupKeysIgnoreAmounts | Streamlit/main.py:154 | the keys and their order depend only on the input keys, not on the amounts |
| Aggregate.EntriesAgree | Streamlit/main.py:154 | the per-row (key, amount) pairs carry exactly the view's keys, per-key sums and total |
| Aggregate.GroupSum | Streamlit/main.py:154 | the group-by sum of a view is sorted with unique keys. Its keys are exactly the values present in the view, each entry is the sum over its group, and the entries add up to the sum over the view |
| Aggregate.GroupSumKeysShared | Streamlit/main.py:154 | the sales and cost columns of one group-by share one key index |
| Aggregate.AmountWhereNonNegative | Streamlit/main.py:211 | order-quantity and row-count group sums are never negative, and a present key counts at least one row |
| Aggregate.AmountWhereReorder | Streamlit/main.py:154 | a group sum does not depend on the order of the rows |
| Charts.CountryChart | Streamlit/main.py:154 | the country chart has one bar pair per country present in its view, in ascending order, with the country's sales and cost totals. The bars add up to the view's totals |
| Charts.Insert | Streamlit/main.py:183 | inserting a bar into a calendar-descending list keeps it descending and adds exactly that bar |
| Charts.SortDescending | Streamlit/main.py:183 | the result is a permutation in non-increasing calendar order, strictly decreasing when no two bars share a month |
| Charts.MonthChart | Streamlit/main.py:181-183 | the month chart is strictly descending by calendar month. A bar (m, q) is in it exactly when month m occurs in the view and q is its total order quantity, so each present month appears once. The month names are first made categorical (`Charts.Categorize`, through `Months.FromName`), which keeps each bar's quantity and turns a name outside the twelve categories into the missing value |
| Charts.DecreasingUnique | Streamlit/main.py:183 | two strictly descending bar lists with the same bars are equal |
| Charts.MonthChartIgnoresRowOrder | Streamlit/main.py:181-183 | the month chart is the same whatever order the view's rows come in |
| Months.FromName | Streamlit/main.py:182 | a name converts to a month exactly when it is that month's name; a name outside the twelve categories converts to none, the missing value |
| Months.NameRoundTrip | Streamlit/main.py:182 | turning a month's name back into a month gives the month again |
| Months.RankInjective | Streamlit/main.py:182 | different months sit at different calendar positions |
| Kpis.OccurrencesCountRows | Streamlit/main.py:125 | counting one per row gives the number of rows |
| Kpis.TotalSales | Streamlit/main.py:125 | the count figure equals the number of rows of the main view |
| Kpis.TotalSalesAmount | Streamlit/main.py:126 | the total equals the sum of the per-group totals on any grouping key |
| Kpis.AverageSales | Streamlit/main.py:127 | the mean exists exactly when the view is non-empty, and is the total over the count |
| Kpis.FirstMax | Streamlit/main.py:128 | the chosen entry has the largest amount and is the first one that does |
| Kpis.TopCategory | Streamlit/main.py:128-148 | there is a top category exactly when the main view is non-empty. It occurs in the view, no category is more frequent, and every category sorting before it is strictly less frequent |
| Kpis.Modes | Streamlit/main.py:128 | `mode()` holds exactly the categories no other category outnumbers. It lists them in strictly ascending order, is empty exactly when the view is, and its first entry is the top category |
| Kpis.KeysWithAscending | Streamlit/main.py:128 | keys picked out of a key-sorted group list stay in ascending order |
| Kpis.TopCategoryAsWritten | Streamlit/main.py:148 | reading entry 0 of the modes, which needs a non-empty list, yields the least most-frequent category |
| Kpis.LeastModeUnique | Streamlit/main.py:128-148 | at most one category meets that description |
| Kpis.TopCategoryIsLeastMode | Streamlit/main.py:128-148 | the top category is c exactly when c is the least most-frequent category |
| Kpis.CategoryCountsAddUp | Streamlit/main.py:125-128 | the category frequencies add up to the count figure |
| Kpis.HeadlineFigures | Streamlit/main.py:125-148 | the count is the view's size, and the sum is the view's sales amount, equal to the sum of the group totals on any key. The mean and the top category exist exactly when the view is non-empty. The mean is the sum over the count, and the top category is the least most-frequent category |
| Dashboard.Build | Streamlit/main.py:116-232 | the figures describe the main view: count, sum, mean, and least most-frequent category. The month chart is drawn from the main view, strictly descending, with one bar per present month carrying its quantity. The country chart and the two pies are drawn from their own drop-one views. Their keys are strictly ascending, so each appears once, and are exactly the values present there; each bar is its group's sum, and the bars add up to the view's total |
| Dashboard.CountryChartIgnoresCountrySelection | Streamlit/main.py:117-154 | the country chart does not change with the country selection |
| Dashboard.CategoryPieIgnoresCategorySelection | Streamlit/main.py:119-211 | the category pie does not change with the category selection |
| Dashboard.GenderPieIgnoresGenderSelection | Streamlit/main.py:118-232 | the gender pie does not change with the gender selection |
| Dashboard.MainEmptyWhenNoRowPasses | Streamlit/main.py:116 | when every row fails the country or the category filter, the main view is empty |
| Dashboard.EmptyMainViewHasNoModes | Streamlit/main.py:116-148 | a two-row dataset where two offered options, France and Clothing, admit no row: the main view is empty, `mode()` is empty and there is no top category |
| Dashboard.UnrestrictedPageCoversDataset | Streamlit/main.py:96-148 | with every selection empty or full, the figures are the whole dataset's headline figures: every row is counted, the sum is the dataset's sales amount, the mean is over the whole dataset, and the top category is the dataset's least most-frequent category |

## Left out

- Loading the data (`Streamlit/main.py:28-63`): the SQL query and the database connection are outside the model. The dataset is a parameter.
- The Streamlit page layout, widgets, HTML snippets and the Plotly figures (`Streamlit/main.py:1-24`, `74-94`, `121-124`, `130-147`, `149-152`, `155-178`, `184-208`, `212-229`, `233-264`): presentation only. A chart is modelled as the data it plots.
- The widget state is modelled as the four selection lists handed to `Dashboard.Build`. Streamlit only offers observed values, but the model accepts any lists.
- Null values from the left joins and NaN: every field of a row is present, so `count()` counts every row. `Kpis.TotalSales` does not model rows whose sales amount is missing.
- Floating point: amounts are integers and the mean is an exact ratio. The `,.2f` rounding and formatting of the figures is not modelled.
- `Kpis.AverageSales`: the empty view gives `None` rather than NaN.
- Month names in other languages: the model assumes the database session uses English. SQL Server's `datename(mm, …)` gives month names in the session language, which `SET LANGUAGE` or the login's default language sets. Under that assumption the month column is an enumeration of the twelve English names. Under another language some or all of the names would fall outside the twelve categories of line 182, and their bars would become NaN. `Charts.MonthChart`: the promise that every bar carries a month (`e.0.Some?`) holds only under the English-session assumption. The categorising step (`Charts.Categorize`) keeps the `None` case for names outside the list.
- pandas' sort is not stable in general. All months in the month chart are distinct, so the order of the result is fully determined, and the model does not depend on the sort's tie-breaking.
- The selected year list compares integers, and the other three compare strings exactly; there is no case folding or normalisation.

## Findings

| source | as written | input that shows it | evidently intended | confidence | as-written member | corrected member |
|---|---|---|---|---|---|---|
| Streamlit/main.py:128-148 | the top-category tile reads `top_category[0]`, entry 0 of `mode()` on the main view, with no check that the view has rows | rows (France, Bikes) and (Germany, Clothing), with France selected as the country and Clothing as the category: no row passes, `mode()` is empty and entry 0 does not exist | an empty main view shows an empty tile instead of stopping the page, as the other figures do | medium; not executed | Kpis.TopCategoryAsWritten, Dashboard.EmptyMainViewHasNoModes | Kpis.TopCategory |

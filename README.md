# Restaurant sales dashboard: the filter-and-aggregate pipeline

This project models the computational core of a Streamlit restaurant sales
dashboard (`app.py`). The dashboard loads one table of order lines. The
sidebar narrows it to the selected categories and weekdays (the *filtered
view*). From that view it derives:

- three KPI scalars: total revenue, total items sold and average order value;
- two customer rankings: the ten biggest spenders and the ten customers with
  the most distinct orders, each with its leading customer;
- revenue and quantity per category;
- quantity and revenue per (category, item);
- distinct orders per weekday;
- for each of the years 2022 and 2023, a month selector ("All Months" plus
  the months present) and a daily revenue trend that shows a "no data" notice
  when nothing is left to plot.

Everything here is pure. Tables are sequences of `OrderLine` values, and
pandas' group-by, sort and head become recursive functions:

- `Grouping.GroupSum` and `Grouping.GroupNUnique` yield one row per distinct
  key, in ascending key order, as pandas' `groupby` does.
- `Ranking.TopN` sorts by descending value and keeps a prefix.

Money is held in integer cents. The calendar fields (`day`, `weekday`,
`month`, `year`) are fields of each line. The module layout follows the
pipeline:

| module | file | what it holds |
|---|---|---|
| `Orders` | orders.dfy | the order line, the table, its columns |
| `Ordering` | ordering.dfy | key orders (integers, strings by code point, pairs) and the ascending distinct key list |
| `Selection` | selection.dfy | the sidebar filter and the selector defaults |
| `Grouping` | grouping.dfy | group-by sum and group-by distinct count |
| `Ranking` | ranking.dfy | descending sort and top-N |
| `Dashboard` | dashboard.dfy | KPIs, the customer rankings and leaders, the category, item and weekday tables |
| `DailyRevenue` | daily_revenue.dfy | the month table, month options and reverse lookup, the per-year daily revenue panel |
| `WorkedExample` | worked_example.dfy | a three-line instance computed end to end |

## Model

| member | source | states |
|---|---|---|
| `Selection.Kept` | app.py:57-58 | the mask for one line: its category is among the selected categories and its weekday among the selected weekdays |
| `Selection.FilterView` | app.py:56-59 | a line is in the view exactly when it is in the table and its category and weekday are both selected; the view is never longer than the table |
| `Selection.FilterAppend` | app.py:56-59 | filtering a concatenation is the concatenation of the filtered parts, so the kept lines keep their relative order |
| `Selection.FilterEmptySelection` | app.py:56-59 | an empty category or weekday selection gives an empty view |
| `Selection.FilterKeepsAll` | app.py:44-59 | the view is as long as the table exactly when every category and every weekday present is selected, and then the view is the table |
| `Selection.DefaultSelectionKeepsAll` | app.py:44-59 | the default selections (every category and weekday present) keep the whole table |
| `Selection.Unique` | app.py:46-53 | the selector options hold each value of the column once, and exactly the values present |
| `Selection.FilterIdempotent` | app.py:56-59 | filtering the view again with the same selections changes nothing |
| `Selection.FilterSelectionAsSet` | app.py:56-59 | only which values are selected matters, not their order or repetition |
| `Ordering.SortedDistinctSorted` | app.py:106 | the group keys a group-by produces are strictly ascending and distinct under any strict total order |
| `Ordering.StrLtIsStrictTotal` | app.py:209 | code-point lexicographic order on strings, used for category and weekday keys, is a strict total order |
| `Ordering.PairLtIsStrictTotal` | app.py:286 | the (category, item) key order is a strict total order |
| `Grouping.GroupSum` | app.py:207-211 | `groupby(key).agg(sum)`: one row per key of the ascending distinct key list, carrying the sum of the measure over that key's lines; `Grouping.GroupSumSpec` states its contract |
| `Grouping.GroupNUnique` | app.py:322-326 | `groupby(key).agg(nunique of order_id)`: one row per key of the ascending distinct key list, carrying the number of distinct order ids among that key's lines; `Grouping.GroupNUniqueSpec` states its contract |
| `Grouping.SumRowsConserve` | app.py:207-211 | with distinct keys covering every key present, the per-key sums add up to the sum over the whole table |
| `Grouping.GroupSumSpec` | app.py:207-211 | a group-by sum has one row per distinct key present, ascending, each row carrying the sum over that key's lines, and the rows add up to the ungrouped sum |
| `Grouping.OrderIdsBounds` | app.py:149 | a key's distinct order ids number at most its lines, and at least one when the key is present |
| `Grouping.GroupNUniqueSpec` | app.py:322-326 | a distinct-count group-by has one row per distinct key present, ascending, each count being the number of distinct order ids and lying between one and the key's line count |
| `Ranking.SortDesc` | app.py:108 | the sorted rows are a permutation of the input |
| `Ranking.SortDescOrdered` | app.py:108 | the sorted rows are non-increasing in value, and distinct keys stay distinct |
| `Ranking.TopN` | app.py:108-109 | `sort_values(ascending=False).head(n)`: the first `n` rows of the descending sort, or all rows when there are fewer; `Ranking.TopNSpec` states its contract |
| `Ranking.TopNSpec` | app.py:108-109 | top-N keeps only rows of the table, non-increasing, all of them when there are at most N, and every row left out is no larger than every row kept |
| `Dashboard.TotalRevenue` | app.py:76 | the total-revenue KPI: the sum of the view's order totals, in cents; the category, item and daily tables are proved to add up to it |
| `Dashboard.ItemsSold` | app.py:81 | the items-sold KPI: the sum of the view's quantities; the category and item tables are proved to add up to it |
| `Dashboard.ItemsSoldNonNegative` | app.py:81 | total items sold is never negative, and is zero when no line has a quantity |
| `Dashboard.AvgOrderValue` | app.py:86 | the mean is undefined (pandas' NaN) exactly on an empty view; otherwise the mean times the line count is the total revenue |
| `Dashboard.CustomerRevenue` | app.py:104-110 | `customer_revenue`: spend per customer, largest first, at most ten rows (`head(10)`); `Dashboard.CustomerRevenueSpec` states the rest |
| `Dashboard.CustomerRevenueSpec` | app.py:104-110 | at most ten rows, none exactly when the view is empty; distinct customers of the view, each with the sum of their order totals, largest first; a customer left out means ten are listed and spent no more than the last one |
| `Dashboard.CustomerRevenueOmitted` | app.py:104-110 | no customer left out of the top spenders out-spends the last one listed, and leaving one out means ten are listed |
| `Dashboard.CustomerLoyalty` | app.py:146-152 | `customer_loyalty`: distinct orders per customer, most first, at most ten rows (`head(10)`); `Dashboard.CustomerLoyaltySpec` states the rest |
| `Dashboard.CustomerLoyaltySpec` | app.py:146-152 | at most ten rows, none exactly when the view is empty; distinct customers of the view, each with their number of distinct orders (between one and their line count), most first; a customer left out means ten are listed and has no more orders than the last one |
| `Dashboard.CustomerLoyaltyCounts` | app.py:146-152 | each listed count is the customer's number of distinct order ids, at least one and at most the customer's line count |
| `Dashboard.RankingOf` | app.py:108-109 | a ranking of a grouped table with distinct keys has at most ten rows, distinct keys, rows of the table, non-increasing values, and leaves a key out only when full and only if its value is no larger than the last listed one |
| `Dashboard.TopSpender` | app.py:112 | on a non-empty view, the first ranked row is a customer of the view whose spending is at least every customer's |
| `Dashboard.MostLoyal` | app.py:154 | on a non-empty view, the first ranked row is a customer of the view whose distinct order count is at least every customer's |
| `Dashboard.EmptySelectionHasNoLeader` | app.py:112 | with no category selected, both rankings are empty, so the first-row reads have no row to read |
| `Dashboard.TopSpenderIfAny` | app.py:112 | the corrected top-spender read: none exactly on an empty view, otherwise a customer of the view who spent at least as much as every other |
| `Dashboard.MostLoyalIfAny` | app.py:154 | the corrected most-loyal read: none exactly on an empty view, otherwise a customer of the view with at least as many distinct orders as every other |
| `Dashboard.RevenueByCategory` | app.py:207-211 | `rev_cat`: revenue per category, categories ascending |
| `Dashboard.VolumeByCategory` | app.py:242-246 | `vol_cat`: quantity per category, categories ascending |
| `Dashboard.ItemPerformance` | app.py:284-291 | `item_perf`: quantity and revenue per (category, item), pairs ascending |
| `Dashboard.WeekdayOrders` | app.py:322-326 | `weekday_order`: distinct orders per weekday, weekday names ascending |
| `Dashboard.RevenueByCategorySpec` | app.py:207-211 | one row per category of the view, ascending, each with that category's revenue, the rows adding up to the total-revenue KPI |
| `Dashboard.VolumeByCategorySpec` | app.py:242-246 | one row per category of the view, ascending, each with that category's quantity, the rows adding up to the items-sold KPI |
| `Dashboard.ItemPerformanceSpec` | app.py:284-291 | exactly one row per distinct (category, item) pair of the view, ascending, each with that pair's quantity and revenue; the two columns add up to the items-sold and total-revenue KPIs |
| `Dashboard.WeekdayOrdersSpec` | app.py:322-326 | one row per weekday of the view, ascending by name, each holding the weekday's distinct order count, between one and its line count |
| `Dashboard.EmptyView` | app.py:76-86 | on an empty view the sums are zero, the mean is undefined and every grouped table is empty |
| `DailyRevenue.MonthMapDomain` | app.py:352-356 | the month table `MonthMap` covers exactly the months 1 to 12, and "All Months" is not a month name |
| `DailyRevenue.MonthMapInjective` | app.py:352-356 | no two months share a name |
| `DailyRevenue.MonthsNamed` | app.py:376 | the scan of the month table returns only months whose name is the one looked up |
| `DailyRevenue.MonthNumber` | app.py:376 | the first match of the reverse lookup is a month whose name is the selected one |
| `DailyRevenue.MonthLookupRoundTrip` | app.py:352-376 | looking up a month's name finds exactly that month, so the lookup returns it |
| `DailyRevenue.MonthOptions` | app.py:365 | `month_options`: "All Months" followed by the name of each month present; `DailyRevenue.MonthOptionsSpec` states its contract |
| `DailyRevenue.MonthsPresent` | app.py:364 | every month present in the year's lines is a key of the month table |
| `DailyRevenue.MonthOptionsSpec` | app.py:364-365 | the options start with "All Months", then name exactly the months present, in ascending month order, without repeats, and each name looks up to a month present |
| `DailyRevenue.RowsWhere` | app.py:362 | a boolean-mask selection on one calendar field: never longer than the view, keeping exactly the view's lines whose field has the given value |
| `DailyRevenue.RowsWhereAppend` | app.py:362 | selecting from a concatenation is the concatenation of the selections, so matching lines keep their order and every repeat |
| `DailyRevenue.YearRows` | app.py:362 | `df_2022` / `df_2023`: the view's lines of one year, as a `DailyRevenue.RowsWhere` on the year |
| `DailyRevenue.MonthRows` | app.py:377 | the year's lines of the chosen month, as a `DailyRevenue.RowsWhere` on the month |
| `DailyRevenue.PlotView` | app.py:373-377 | `plot_df`: the year's lines when "All Months" is selected, otherwise those of the month the selection names |
| `DailyRevenue.PlotViewAppend` | app.py:362-377 | the plotted view of a concatenation is the concatenation of the plotted views, so it keeps the view's order and repeats |
| `DailyRevenue.PlotViewSpec` | app.py:362-377 | the plotted view is never longer than the view; its lines are exactly the view's lines of the chosen year, and of the chosen month unless "All Months" is selected |
| `DailyRevenue.DailyRevenueOf` | app.py:379-383 | `daily_rev_2022` / `daily_rev_2023`: revenue per day of the plotted view, days ascending |
| `DailyRevenue.DailyRevenuePanel` | app.py:379-386 | the "no data" notice when the daily table is empty, otherwise the trend of its points |
| `DailyRevenue.DailyRevenuePanelSpec` | app.py:379-386 | the panel shows "no data" exactly when nothing is plotted; otherwise its points are the plotted days, ascending, each with that day's revenue, adding up to the plotted revenue |
| `DailyRevenue.OfferedMonthHasData` | app.py:362-386 | choosing any offered option is accepted by the lookup, and shows "no data" only when the year has no lines at all |
| `WorkedExample.DrinksView` | app.py:56-59 | on the three-line sample, selecting "Drinks" on Monday and Tuesday keeps the two drink lines in order |
| `WorkedExample.DrinksKpis` | app.py:76-81 | on those lines total revenue is 15.00 and three items are sold |
| `WorkedExample.DrinksByCategory` | app.py:207-211 | on those lines revenue by category is the single row Drinks: 15.00 |
| `WorkedExample.DrinksTopSpenders` | app.py:104-110 | on those lines the spending ranking is customer 1 (10.00), then customer 2 (5.00) |

The 2023 column (app.py:406-430) repeats the 2022 column (app.py:362-386)
with a different year. `DailyRevenue.PlotView` and
`DailyRevenue.DailyRevenuePanel` take the year as a parameter, so one
definition covers both.

## Left out

- Streamlit page setup, the sidebar widgets, metric, caption and info output,
  and the `@st.cache_data` memoisation are user-interface plumbing. The
  selections and the chosen month are parameters.
- Plotly chart construction and layout are rendering done by an external
  library.
- Reading the CSV, parsing timestamps and deriving the calendar fields
  (`load_data`, app.py:26-36) are file I/O and library date arithmetic. The
  fields are taken as given. The ISO week field is not modelled because no
  part of the pipeline reads it.
- Floating-point sums and the `:,.2f` currency formatting are left out.
  Order totals are integer cents and the mean is a Dafny `real`.
- The order of customers with equal values after `sort_values` is not
  modelled, because pandas' default sort is not stable. `Ranking.SortDesc`
  is one admissible order, and no contract depends on how ties are broken.
- `dropna` on the month column (app.py:364) is not modelled, because every
  modelled line has a month.
- `int()` around the quantity sum (app.py:81) is the identity on integer
  quantities.
- Dashboard.AvgOrderValue: an empty view gives `None`, which stands for the
  NaN that pandas' mean returns, not the zero or "no data" value described
  for that case. The model follows the code.
- Dashboard.TopSpender and Dashboard.MostLoyal require a non-empty view,
  because the first-row read raises on an empty ranking. The finding below
  records this.

## Findings

| source | as written | input that shows it | evidently intended | confidence | as-written member | corrected member |
|---|---|---|---|---|---|---|
| app.py:112, app.py:154 | `customer_revenue.iloc[0]` and `customer_loyalty.iloc[0]` read the first row of the rankings unconditionally | clearing the category selection (any table, weekdays `days`): the filtered view is empty, both rankings are empty and `iloc[0]` raises, although every other output treats an empty view as a valid state | show no leading customer when the view is empty | medium, not executed | `Dashboard.EmptySelectionHasNoLeader` | `Dashboard.TopSpenderIfAny`, `Dashboard.MostLoyalIfAny` |

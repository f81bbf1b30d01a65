# Listings cleaning and reporting, modelled in Dafny

This project models the data logic of a short exploratory-analysis script
for an Airbnb-style listings table (`list.py`). The model covers three
parts of the script.

- **The cleaner** `clean_listings_data`. It works on a copy of the frame.
  It drops `neighbourhood_group` when that column is present and keeps only
  the rows that have a `price`. It fills a missing `reviews_per_month` with
  0, coerces `last_review` through a lenient date parser (a failed parse
  becomes NaT) and fills a missing `host_name` with `"Unknown"`.
- **The monthly review series** behind `lineplot_total_reviews_by_month`.
  The function overwrites the caller's `last_review` with parsed dates and
  adds a `review_month` column. It then sums `number_of_reviews` per month,
  in ascending month order, writes each month as `YYYY-MM`, and puts a tick
  on every third month.
- **The top-10 neighbourhood bars** behind
  `barplot_avg_price_by_neighbourhood`. It keeps the 10 most frequent
  neighbourhoods and takes the mean price of each over its own rows, then
  sorts the bars ascending by mean.

Here is how the model is laid out.

- A table (`Listings.Table`) is a set of column names plus a sequence of
  `Listing` records.
- Each column the script touches has an `Option` field in the record.
  `None` stands for NaN / None / NaT.
- `others` holds the remaining columns. Every step passes them through
  untouched.
- A column the table lacks reads as `None` in every row (`Listings.Agrees`).
- Reading a missing column raises KeyError in pandas. The model returns
  `Failure(KeyError(column))` instead, for the first column read in the
  source's order.
- The pandas DataFrame is the class `DataFrame.Frame`.
  - `copy`, `drop` and a boolean mask return a fresh `Frame`.
  - A column assignment `df[col] = ...` updates the frame in place.
- The date parser `pd.to_datetime(..., errors='coerce')` is a function
  parameter `string -> Option<Date>` (`Listings.DateParser`). It is applied
  cell by cell, and a cell that already holds a timestamp stays as it is.
- Prices and review counts are unbounded integers. Means are exact `real`s
  (sum / count), so there is no floating point.
- Following pandas:
  - `sum` skips NaN, so a missing count adds nothing.
  - `mean` skips NaN prices. A group with no price at all has mean NaN
    (`None`).
  - `sort_values` puts NaN last.
  - `value_counts` and `groupby` ignore missing neighbourhoods and months.

Modules: `Wrappers` (wrappers.dfy), `Listings` (listings.dfy: the data model
and the per-column steps), `DataFrame` (frame.dfy), `Cleaning`
(cleaning.dfy), `MonthlyReviews` (monthly_reviews.dfy) and
`TopNeighbourhoods` (top_neighbourhoods.dfy).

## Model

| member | source | states |
|---|---|---|
| Listings.ToDatetime | list.py:21 | a missing cell stays missing, an existing timestamp is kept, text becomes the parsed date or NaT when it does not parse; the result is never text |
| Listings.ToPeriod | list.py:79 | the month key is present exactly when the cell holds a timestamp, and it has that timestamp's year and month |
| Listings.KeepPriced | list.py:15 | the kept rows all have a price, are exactly the input rows that have one, are a subsequence of the input (order kept) and are no more numerous |
| Listings.KeepPricedMultiset | list.py:15 | each priced row is kept exactly as many times as it occurs in the input, and no unpriced row is kept |
| Listings.KeepPricedLength | list.py:15 | the mask leaves as many rows as the input has, minus the rows without a price |
| Listings.ClearGroup | list.py:12 | the row loses its `neighbourhood_group` value and nothing else changes |
| Listings.FillReviewsRow | list.py:18 | `reviews_per_month` becomes the old value, or 0 when missing; nothing else changes |
| Listings.CoerceRow | list.py:21 | `last_review` becomes its coerced value; nothing else changes |
| Listings.FillHostRow | list.py:24 | `host_name` becomes the old value, or "Unknown" when missing; nothing else changes |
| Listings.MonthRow | list.py:79 | `review_month` becomes the month of `last_review`; nothing else changes |
| Listings.WithoutGroupColumn | list.py:11-12 | the schema loses `neighbourhood_group` only; every row is cleared of it, in order; well-formedness is kept |
| Listings.PricedOnly | list.py:15 | the schema is unchanged, the rows are the priced rows, well-formedness is kept |
| Listings.WithReviewsFilled | list.py:18 | the schema is unchanged, every row is filled, in order; well-formedness is kept |
| Listings.WithDatesCoerced | list.py:21 | the schema is unchanged, every row's `last_review` is coerced, in order; well-formedness is kept |
| Listings.WithHostFilled | list.py:24 | the schema is unchanged, every row's `host_name` is filled, in order; well-formedness is kept |
| Listings.WithReviewMonth | list.py:79 | `review_month` is added to the schema and set in every row from `last_review`; well-formedness is kept |
| DataFrame.Frame.constructor | list.py:4 | the new frame holds the given table |
| DataFrame.Frame.Copy | list.py:8 | a fresh frame with the same contents |
| DataFrame.Frame.DropNeighbourhoodGroup | list.py:12 | a fresh frame holding the table without `neighbourhood_group` |
| DataFrame.Frame.SelectPriced | list.py:15 | a fresh frame holding only the priced rows |
| DataFrame.Frame.FillReviewsPerMonth | list.py:18 | the frame now holds the table with `reviews_per_month` filled |
| DataFrame.Frame.CoerceLastReview | list.py:21 | the frame now holds the table with `last_review` coerced |
| DataFrame.Frame.FillHostName | list.py:24 | the frame now holds the table with `host_name` filled |
| DataFrame.Frame.AssignReviewMonth | list.py:79 | the frame now holds the table with the `review_month` column added |
| Cleaning.CleanRow | list.py:11-24 | a surviving row: group cleared only if the column existed, price kept, `reviews_per_month` and `host_name` filled, `last_review` coerced, every other field unchanged |
| Cleaning.Clean | list.py:7-26 | succeeds exactly when price, reviews_per_month, last_review and host_name are all columns; otherwise fails with the KeyError of the first of them, in that reading order, that is missing; on success the schema is the input's minus `neighbourhood_group` |
| Cleaning.CleanRowsArePricedRowsCleaned | list.py:11-24 | the cleaned rows are the priced input rows, in input order, each passed through `CleanRow` |
| Cleaning.CleanKeepsPricedRowsInOrder | list.py:15 | the cleaned rows are a subsequence of the cleaned input rows; every priced row survives and every survivor comes from a priced row |
| Cleaning.CleanFillsAndFilters | list.py:15-24 | after cleaning no row lacks a price, `reviews_per_month` or `host_name`, no `last_review` is left as text, and the row count has not grown |
| Cleaning.CleanRowCount | list.py:15 | cleaning removes exactly one row per input row without a price (five rows with one unpriced leave four) |
| Cleaning.CleanKeepsUnparseableDate | list.py:21 | a priced row whose date does not parse survives, with `last_review` missing |
| Cleaning.CleanParsesDate | list.py:21 | a priced row whose date parses survives, with the parsed date |
| Cleaning.CleanDropsGroupValues | list.py:11-12 | on a well-formed table no cleaned row holds a `neighbourhood_group` value |
| Cleaning.CleanPreservesWellFormed | list.py:7-26 | cleaning a well-formed table gives a well-formed table |
| Cleaning.CleanRowIdempotent | list.py:11-24 | a row that is already clean is cleaned to itself |
| Cleaning.KeepPricedAllPriced | list.py:15 | the mask keeps every row when every row has a price |
| Cleaning.CleanIdempotent | list.py:7-26 | cleaning already-cleaned data returns the same table |
| Cleaning.CleanListingsData | list.py:7-26 | leaves the caller's frame as it was, and returns a fresh frame holding `Clean` of the input or the same KeyError |
| MonthlyReviews.Lookup | list.py:82 | a month absent from a series has total 0 |
| MonthlyReviews.AddTo | list.py:82 | adding reviews to a month inserts that month into the key set and keeps the series strictly ascending |
| MonthlyReviews.AddToLookup | list.py:82 | adding to an ascending series raises that month's total by the amount added and leaves every other month's total as it was |
| MonthlyReviews.GroupSum | list.py:82 | the series is strictly ascending by month, its months are exactly the months present, and each month's total equals the reference sum over the rows |
| MonthlyReviews.GroupSumSpec | list.py:82 | one entry per distinct month present (length equals the number of distinct months); each entry's value is the sum of `number_of_reviews` over its month's rows; months strictly ascending |
| MonthlyReviews.Dated | list.py:82 | keeps exactly the rows that have a month |
| MonthlyReviews.DatedMultiset | list.py:82 | each dated row is kept exactly as many times as it occurs, and no undated row is kept |
| MonthlyReviews.DatedIsSubsequence | list.py:82 | the dated rows keep their original order |
| MonthlyReviews.GroupSumIgnoresUndated | list.py:82 | rows without a month contribute nothing: removing them leaves the series unchanged |
| MonthlyReviews.GroupSumExample | list.py:82 | months 2021-01, 2021-01, 2021-02 with 3, 5 and 2 reviews give [(2021-01, 8), (2021-02, 2)] |
| MonthlyReviews.MonthLabel | list.py:85 | a label is seven characters with a dash at position 4 |
| MonthlyReviews.LabelRoundTrip | list.py:85 | parsing a month's label gives back the month |
| MonthlyReviews.LabelInjective | list.py:85 | distinct months have distinct labels |
| MonthlyReviews.Labels | list.py:85 | one label per point, the label of that point's month |
| MonthlyReviews.StrideRange | list.py:96 | `range(start, stop, 3)`: ceil((stop-start)/3) positions, the i-th being start + 3i, all below stop |
| MonthlyReviews.EveryThird | list.py:95 | `s[::3]`: ceil(n/3) elements, the i-th being s[3i] |
| MonthlyReviews.ChartData | list.py:82-96 | the series is the group-sum; labels match points; ceil(n/3) ticks at positions 0, 3, 6, ... below n, each labelled with the month at its position |
| MonthlyReviews.LineplotTotalReviewsByMonth | list.py:74-96 | with no `last_review` column it fails and leaves the frame alone; otherwise the caller's frame gets coerced dates and a `review_month` column, then the chart data is returned, or a KeyError when `number_of_reviews` is missing |
| TopNeighbourhoods.CountOccurs | list.py:122 | a neighbourhood has a positive count exactly when it occurs, and never more rows than the table |
| TopNeighbourhoods.Distinct | list.py:122 | each occurring neighbourhood once, and nothing else |
| TopNeighbourhoods.InsertByCount | list.py:122 | insertion adds exactly the new entry (as a multiset) |
| TopNeighbourhoods.InsertByCountSorted | list.py:122 | insertion keeps entries ranked by count, highest first |
| TopNeighbourhoods.RankByCount | list.py:122 | a permutation of the entries, ranked by count, highest first |
| TopNeighbourhoods.RankByCountNoDuplicates | list.py:122 | ranking introduces no duplicate |
| TopNeighbourhoods.ValueCounts | list.py:122 | `value_counts()` is ranked by count, highest first |
| TopNeighbourhoods.Names | list.py:122 | the `.index` of the counts: one name per entry, the i-th being the i-th entry's name |
| TopNeighbourhoods.ValueCountsSpec | list.py:122 | every occurring neighbourhood exactly once, each with its true row count |
| TopNeighbourhoods.TopNeighbourhoods | list.py:122 | at most 10 neighbourhoods are selected |
| TopNeighbourhoods.TopNeighbourhoodsOccur | list.py:122 | min(10, number of neighbourhoods) distinct neighbourhoods that occur |
| TopNeighbourhoods.TopNeighbourhoodsDominate | list.py:122 | no unselected neighbourhood has more rows than a selected one |
| TopNeighbourhoods.TopNeighbourhoodsIsTopSelection | list.py:122 | the selection is a valid top 10 (`IsTopSelection`) |
| TopNeighbourhoods.InTop | list.py:123 | `isin`: exactly the rows whose neighbourhood is selected |
| TopNeighbourhoods.InTopMultiset | list.py:123 | each row of a selected neighbourhood is kept exactly as many times as it occurs, and no other row is kept |
| TopNeighbourhoods.InTopIsSubsequence | list.py:123 | the selected rows keep their original order |
| TopNeighbourhoods.InTopKeepsGroup | list.py:123 | restricting to selected neighbourhoods leaves each selected group's priced count, price sum and mean unchanged |
| TopNeighbourhoods.GroupMeans | list.py:123 | one mean per name, in order, each `MeanPrice` of that name |
| TopNeighbourhoods.InsertByMean | list.py:123 | insertion adds exactly the new bar (as a multiset) |
| TopNeighbourhoods.InsertByMeanSorted | list.py:123 | insertion keeps bars ascending by mean, NaN last |
| TopNeighbourhoods.SortByMean | list.py:123 | `sort_values()`: a permutation of the bars, ascending by mean, NaN last |
| TopNeighbourhoods.BarsFor | list.py:123 | the `isin`, `groupby`, `mean` and `sort_values` chain for a given selection; its own ensures gives ascending means with NaN last, and `BarsForSpec` states the rest |
| TopNeighbourhoods.AvgPriceByNeighbourhood | list.py:121-123 | fails exactly when `neighbourhood` or `price` is not a column, with a KeyError for a missing one |
| TopNeighbourhoods.BarsForSpec | list.py:123 | for any selection of distinct occurring neighbourhoods: one bar per selected neighbourhood and no other, each the mean price over that neighbourhood's rows only, sorted ascending, NaN last |
| TopNeighbourhoods.AvgPriceByNeighbourhoodSpec | list.py:121-123 | the bars: at most 10, one per neighbourhood of a valid top-10 selection, each the mean over its own rows, sorted non-decreasing by mean |

## Left out

- Reading `listings.csv` and writing `cleaned_listings.csv` (list.py:4, 32) are file I/O. The frame's constructor takes the table as read.
- The printed summaries of `run_eda` and `print(df_cleaned.info())` (list.py:35, 43-58) are console output with no data contract. Their one data effect, coercing `last_review` again (list.py:45, 63), is `Frame.CoerceLastReview`, and it has no effect on an already-coerced column.
- All drawing (list.py:66-72, 87-93, 97-99, 104-148) is a foreign plotting call: the box plot, scatter plot, histogram, pie chart, heatmap and the figures themselves. The line plot and bar plot are modelled up to the data they draw.
- The correlation matrix (list.py:143) is floating-point statistics inside pandas.
- The date parser's internals: `pd.to_datetime` is a parameter applied cell by cell. Its inference of one format for a whole column, and the time of day of a timestamp, are not modelled.
- Dates are limited to years 1..9999 (`Listings.Date`), so that a month label always has four year digits.
- Tie-breaking in `value_counts().head(10)` (list.py:122) is not fixed. The properties are stated for any selection satisfying `IsTopSelection` (`BarsForSpec`). `TopNeighbourhoods` itself keeps one such selection.
- The bars' order among equal means is not fixed either: pandas' `sort_values` is not stable. `SortByMean` picks one order, and the contracts only ask for ascending means.
- `groupby` orders groups by name before `sort_values` reorders them. The model forms groups in order of each name's last appearance and then sorts, so only the tie order can differ.
- The script's top-level call sequence (list.py:29, 59, 151-158) is fixed glue with no logic.
- Numeric widths: prices and review counts are unbounded integers and means are exact rationals. Pandas' float64 rounding and int64 limits are not modelled.

# Expense tracker core in Dafny

This project models the two pieces of logic in a personal expense tracker.

**The synthetic data generator (`generate_expense_data`).** It walks the calendar month by month from 1 January of a start year. On each day it draws zero to three transactions and emits one row per transaction. Each row holds:

- a date written as `YYYY-MM-DD`;
- a category from a fixed list of sixteen;
- a payment mode, Cash or Online;
- a description;
- an amount in the category's range;
- an optional cashback. Only online payments can get cashback, at a rate between 0.5% and 2%, and then a note about the offer is added to the description.

**The reports of the dashboard (`app.py`).** The dashboard does the following:

- loads the stored rows in date order and derives a `Month` (`YYYY-MM`) column and a weekday-name column;
- filters the rows by the date range picked in the sidebar;
- shows total spending, total cashback, the number of transactions and the mean amount;
- answers a series of grouped queries: per category, payment mode, month, day, weekday, month and category, and month and payment mode. It also answers top-N queries, recurring payments, the highest transaction per category, travel costs, cashback percentages and the first and second half of the year.

The model is split into five modules:

- `Calendar` (`calendar.dfy`): dates as Python's `datetime` handles them. It covers ordinals counted from 0001-01-01, Gregorian month lengths, `+ timedelta(days=1)` and `- timedelta(days=1)`, the move to the first of the next month, and the `%w` weekday number.
- `IsoDates` (`isodates.dfy`): the `YYYY-MM-DD` text format, its parser and the `YYYY-MM` month key, with round trips between them.
- `Tables` (`tables.dfy`): generic table operations with their laws. These are filtering, column sums, a stable sort standing in for `ORDER BY`, `LIMIT`, `GROUP BY` with sum and count, `HAVING` and two-key ordering.
- `Generator` (`generator.dfy`): `generate_expense_data` as imperative code with its nested loops. Every random draw is a nondeterministic choice among the outcomes it allows. Money is in paise, hundredths of a rupee.
- `Reports` (`reports.dfy`): loading, the filter, the overview metrics and every report, as pure functions over a sequence of expenses.

`option.dfy` holds the `Option` type.

Both SQL queries and pandas expressions become pure functions over the same in-memory sequence of rows. The database itself is not modelled: the store is that sequence. `Reports.LoadGenerated` states what loading the generator's output gives.

## Model

| member | source | states |
|---|---|---|
| Calendar.DaysInMonth | generate_data.py:59-60 | month length is 28 to 31; February has 29 days exactly in leap years |
| Calendar.NextMonthFollowsLastDay | generate_data.py:59-60 | the first of the next month (January of the next year after December) is the day right after the last day of the month |
| Calendar.NextDay | generate_data.py:84 | `+ timedelta(days=1)` yields a valid date whose ordinal is one more |
| Calendar.DayBefore | generate_data.py:59-60 | `- timedelta(days=1)` yields a valid date whose ordinal is one less |
| Calendar.PlusDays | generate_data.py:84 | `+ timedelta(days=k)` yields a valid date whose ordinal is `k` more |
| Calendar.OrdinalOrder | generate_data.py:82 | date order and ordinal order agree in both directions, and equal ordinals mean equal dates |
| Calendar.PlusMonthLength | generate_data.py:84 | adding the month's length to its first day lands on the first of the next month, within the supported range |
| Calendar.MonthsLaterClosedForm | generate_data.py:84 | `k` month steps from 1 January reach year `start + k / 12`, month `k % 12 + 1`, day 1 |
| Calendar.MonthsLaterValid | generate_data.py:84 | those month starts are valid dates while the year stays at most 9999 |
| Calendar.OrdinalAtMostLast | generate_data.py:84 | every valid date lies on or before 9999-12-31 |
| Calendar.DaysBeforeNextYear | generate_data.py:59-60 | the closed-form day count before a year grows by that year's length |
| Calendar.WindowLength | generate_data.py:58-62 | `k` months hold between `28k` and `31k` days |
| Calendar.Weekday | app.py:258-266 | the `%w` weekday number lies in 0..6 |
| Calendar.NextDayWeekday | app.py:258-266 | the weekday number advances by one, modulo 7, from a day to the next |
| Calendar.NewYear2024Weekday | app.py:258-266 | 2024-01-01 has weekday number 1 (Monday) |
| Calendar.LeapDay2024Weekday | app.py:258-266 | 2024-02-29 has weekday number 4 (Thursday) |
| IsoDates.Pad2 | generate_data.py:82 | a two-digit field is two decimal digits |
| IsoDates.Pad2RoundTrip | app.py:215 | reading back the two-digit `%m` field gives the month number |
| IsoDates.Pad4RoundTrip | generate_data.py:82 | reading back the four-digit year field gives the year |
| IsoDates.IsoDate | generate_data.py:82 | `strftime('%Y-%m-%d')` is ten characters, with dashes at positions 4 and 7 |
| IsoDates.ParseFormatted | app.py:55 | parsing the text of a valid date gives that date back |
| IsoDates.FormattedParse | app.py:55 | text that parses is exactly the formatted text of the parsed date |
| IsoDates.MonthKeyIsPrefix | app.py:56 | the `YYYY-MM` month key is the first seven characters of the date text |
| IsoDates.MonthKeySameMonth | app.py:197 | two dates share a month key exactly when they have the same year and month |
| Tables.Where | app.py:82-83 | a filter keeps at most all rows, and every row it keeps passes the condition |
| Tables.WhereMultiplicity | app.py:82-83 | a filter keeps each row exactly as often as it occurs if it passes, else never |
| Tables.WhereIsSubsequence | app.py:82-83 | the filtered rows are a subsequence of the rows |
| Tables.SumPartition | app.py:95 | the sums over the rows that pass and the rows that fail add up to the whole sum |
| Tables.SortBy | app.py:156 | `ORDER BY` keeps the rows as a permutation (same multiset) |
| Tables.SortBySorted | app.py:156 | the sorted rows ascend by the sort key |
| Tables.SortByKeepsSorted | app.py:53 | sorting rows already in order changes nothing |
| Tables.SumSortBy | app.py:156 | sorting does not change a column sum |
| Tables.Take | app.py:175 | `LIMIT n` gives the first `min(n, k)` rows |
| Tables.GroupByKeys | app.py:156 | `GROUP BY` gives one group per key value present, each key once |
| Tables.GroupByTotals | app.py:156 | each group's total and count are the sum and number of exactly its rows |
| Tables.GroupByPartition | app.py:156 | the group totals and counts add up to the column sum and the row count |
| Tables.OrderedGroupBy | app.py:156 | grouping then ordering keeps distinct keys, the key set, per-key totals and the grand total, in the order asked for |
| Tables.SortByThen | app.py:204 | sorting by the second key and then stably by the first gives `ORDER BY first, second` |
| Tables.Having | app.py:219 | `HAVING` keeps exactly the groups whose key, total and count satisfy the condition, unchanged |
| Generator.AmountRange | generate_data.py:70 | a category missing from the table gets the fallback (50, 2000), and every range has `50 <= min < max` |
| Generator.RoundToPaise | generate_data.py:79 | `round(x, 2)` on rupees is within half a paisa of `x` |
| Generator.WholePercent | generate_data.py:80 | `int(p * 100)` for `p` in 0.005..0.02 is 0, 1 or 2, the truncation of `100p` |
| Generator.CashbackAtRate | generate_data.py:78-79 | cashback at a rate in 0.005..0.02 lies between 0.5% and 2% of the amount, give or take half a paisa |
| Generator.DrawDescription | generate_data.py:73-74 | the description is one of the category's phrases, or free text for a category without phrases |
| Generator.NoteAppended | generate_data.py:80 | the description gains exactly the suffix " (with N% cashback offer)" |
| Generator.ApplyOffer | generate_data.py:76-80 | one drawn rate in 0.005..0.02 gives both the cashback, rounded to the paisa, and the note `description + " (with N% cashback offer)"` with N its whole percentage; so the cashback is 0.5%..2% of the amount and fits N |
| Generator.CashbackMatchesNote | generate_data.py:78-80 | the cashback at a rate and that rate's whole percentage N fit each other: `N * amount < 100 * cashback + 50` and `100 * cashback - 50 < (N + 1) * amount` |
| Generator.ZeroPercentNoteWithTwoPercentCashback | generate_data.py:78-80 | a row with a "0%" note and 2% cashback is not a generated row |
| Generator.NewTransaction | generate_data.py:67-82 | a row carries the day's date text, a listed category, an amount in the category's range, and either no cashback with a plain description or an online offer with the note |
| Generator.GeneratedRowCashback | generate_data.py:76-79 | on every generated row `0 <= cashback <= amount`, cashback is positive exactly on offer rows, and positive cashback means Online |
| Generator.MonthLength | generate_data.py:59-60 | `days_in_month` equals the Gregorian length of the month |
| Generator.DayTransactions | generate_data.py:66-82 | a day with `n` draws emits exactly `n` rows, each with the day's date and obeying the row rules |
| Generator.GenerateMonth | generate_data.py:62-82 | the day loop only appends: the rows, days and counts already there are kept, and it adds the month's days in order on consecutive ordinals, at most three transactions each |
| Generator.GenerateMonthAt | generate_data.py:58-84 | one month only appends to the rows, days and counts, adds its length in days, and `current_date` becomes the first of the next month |
| Generator.MonthStep | generate_data.py:84 | the next month start is valid and the window grows by the month's length |
| Generator.GenerateExpenseData | generate_data.py:6-87 | the days visited are `WindowLength` consecutive dates from 1 January, with at most three transactions a day. The rows follow the days, and `rows == sum(counts) <= 3 * days`. Every returned row obeys the row rules, and its date parses. The dates never decrease |
| Generator.RowsOfDays | generate_data.py:82 | row `j` carries the date of the day it was drawn on, obeys the row rules, and there are `sum(counts)` rows |
| Generator.SumBound | generate_data.py:64 | with at most three a day, the total is at most three times the days |
| Generator.DayIndicesCount | generate_data.py:64-66 | day `i` contributes exactly its drawn count of rows, so a day with no draws has no row |
| Generator.DayIndicesSorted | generate_data.py:62-66 | rows are emitted day by day, never going back to an earlier day |
| Generator.DatesInOrder | generate_data.py:82 | every emitted date text parses, and the emitted dates never decrease |
| Generator.WindowEnd | generate_data.py:84 | after `k` months `current_date` is the window's length past 1 January |
| Generator.VisitsWindow | generate_data.py:58-63 | the days visited are exactly the dates from 1 January up to the first of the month after the window, each once |
| Reports.DateRankOrder | app.py:53 | the `YYYYMMDD` rank orders valid dates as the calendar does, and equal ranks mean equal dates |
| Reports.IsoDateTextOrder | app.py:53 | text order on two written dates is exactly their rank order and their calendar order |
| Reports.LoadRow | app.py:55 | a row loads exactly when its date text parses; its date formats back to that text and the other columns are unchanged |
| Reports.LoadRows | app.py:53-55 | a successful load keeps the number of rows |
| Reports.LoadRowsSpec | app.py:53-55 | loading succeeds exactly when every row parses, and then position `i` holds row `i` converted |
| Reports.LoadAllData | app.py:50-58 | loading succeeds exactly when every date parses, and gives all rows in date order, as a permutation |
| Reports.LoadGenerated | app.py:53 | the generator's rows load without failure and already in date order, so sorting keeps them as emitted |
| Reports.MonthOf | app.py:56 | the `Month` column is the first seven characters of the date |
| Reports.MonthRankOfKey | app.py:197 | a month key's rank is `12 * year + month` |
| Reports.MonthKeyTextOrder | app.py:197 | text order on two month keys is exactly the order of their months and of their ranks |
| Reports.RankIn | app.py:276 | a `Categorical` rank is the first position of the value in the order, or after all of them |
| Reports.DayNameRanks | app.py:274-276 | weekday `w` ranks `w` in the Sunday-first order and `(w + 6) % 7` in the Monday-first order |
| Reports.DayNamesApart | app.py:258-266 | different weekday numbers get different names |
| Reports.Ordered | app.py:81 | `sorted` on two dates gives them in order, as a rearrangement |
| Reports.FilterByDateInput | app.py:79-86 | a filter keeps at most all rows, and keeps them all unless one or two dates are picked |
| Reports.FilterOrderInsensitive | app.py:80-83 | swapping the two picked dates changes nothing |
| Reports.FilterKeepsInclusiveRange | app.py:82-83 | two dates keep exactly the rows between them, both ends included, with multiplicity |
| Reports.FilterSingleDate | app.py:84-86 | one date keeps exactly that day's rows, the same as the range from the date to itself |
| Reports.FilterIsSubsequence | app.py:79-86 | the filtered rows are a subsequence of the store and stay in date order |
| Reports.EarliestDate | app.py:67 | `min` is a date of the table that no row precedes |
| Reports.LatestDate | app.py:68 | `max` is a date of the table that no row follows |
| Reports.DefaultRangeKeepsAll | app.py:67-73 | the picker's initial range keeps the whole store |
| Reports.OverviewMetrics | app.py:95-105 | the count is the number of rows; the mean exists exactly for a non-empty table, and mean times count is the total |
| Reports.AverageWithinAmounts | app.py:104 | the mean lies between any lower and upper bound of the amounts |
| Reports.FilterSplitsTotals | app.py:95-101 | the rows inside and outside a range split total spending, total cashback and the count |
| Reports.CategoryTotalsReport | app.py:156 | one group per category, ordered by total descending, each with its rows' sum, adding up to all spending |
| Reports.TopCategoriesLead | app.py:175 | the top five are the first `min(5, k)` totals, and no category left out spent more than a listed one |
| Reports.HighestShareReport | app.py:314-322 | no result exactly for an empty store; otherwise a category with the largest total and its percentage of all spending |
| Reports.PaymentModeSplit | app.py:163 | cash and online totals are their own rows' sums and together all spending |
| Reports.TransportationByModeReport | app.py:183 | transportation by mode adds up to the transportation category total |
| Reports.CashbackTransactionsReport | app.py:191 | exactly the rows with positive cashback, with multiplicity, newest first |
| Reports.CashbackShare | app.py:457-460 | the cashback transaction percentage exists exactly for a non-empty store and lies in 0..100 |
| Reports.PercentageScales | app.py:459 | the percentage times the whole is a hundred times the part |
| Reports.MonthlyTotalsReport | app.py:197 | one group per month present, strictly in calendar order, each with that month's sum and count, adding up to the column total |
| Reports.DailyTotalsReport | app.py:333 | one group per day, strictly in date order, each with its day's spending, adding up to all spending |
| Reports.TopSpendingDaysReport | app.py:392 | at most three distinct days, none left out spent more than a listed day |
| Reports.CategoryCountsReport | app.py:341 | counts per category, descending, each its rows' number, adding up to the row count |
| Reports.NoCashbackCategoriesReport | app.py:413-416 | a category is listed once exactly when one of its rows paid something without cashback |
| Reports.HalfYearSplit | app.py:469-474 | first-half and second-half spending add up to all spending |
| Reports.WeekdayTotalsReport | app.py:357-376 | one group per weekday present, strictly in the given Categorical order, each with that weekday's spending, adding up to all spending |
| Reports.WeekdayRows | app.py:258-266 | the rows named for weekday `w` are exactly the rows whose `%w` is `w` |
| Reports.MeanScales | app.py:241 | a group's mean times its count is its total |
| Reports.Averages | app.py:422 | `AVG` keeps each group's key, with its mean |
| Reports.MonthlyAveragesReport | app.py:422 | monthly averages strictly in calendar order, the month of `d` averaging exactly its rows |
| Reports.GroceryByDayOfWeekReport | app.py:257-277 | grocery averages strictly Sunday first, weekday `w` averaging exactly its grocery rows |
| Reports.TextBeforeAsymmetric | app.py:493 | text order never puts two strings before each other |
| Reports.TextBeforeConcat | app.py:53 | on texts that start with parts of equal length, the first parts decide and the rests only break a tie |
| Reports.DigitTextOrder | app.py:53 | on digit strings of equal length, text order is numeric order and equal values mean equal texts |
| Reports.AlphabeticalCategoriesListed | app.py:493 | the alphabetical list holds exactly the sixteen categories |
| Reports.AlphabeticalCategoriesSorted | app.py:493 | the alphabetical list is in strictly increasing text order |
| Reports.CategoryRankOrder | app.py:493 | among the sixteen categories, rank order is exactly text order |
| Reports.MonthlyByReport | app.py:400-405 | month-and-second-key groups ordered by month then the second key, one per pair present, each with its rows' sum, adding up to all spending |
| Reports.PeakCategoryMonthsReport | app.py:204 | travel, entertainment and gifts per month, by month and then total descending, each with its rows' sum, adding up to the three categories' spending |
| Reports.MonthlyModeSpendingReport | app.py:400-405 | within a month cash precedes online, and the two modes add up to the month's spending |
| Reports.MonthlyCategorySpendingReport | app.py:489-494 | per month and category, by month and then category name, each with its rows' sum |
| Reports.RecurringPaymentsReport | app.py:214-221 | a watched category and month number is listed, with its count, exactly when it occurs more than once; ordered by category then month number |
| Reports.HighestAmount | app.py:349 | `MAX` exists exactly for a non-empty table; it is attained and bounds every amount |
| Reports.CategoryHighestIs | app.py:349 | a category's highest amount is attained by one of its rows and bounds all of them |
| Reports.HighestByCategoryKeys | app.py:349 | one entry per category present, each once |
| Reports.HighestByCategoryValues | app.py:349 | each entry is its category's highest amount, in descending order |
| Reports.TravelCostsReport | app.py:240-246 | one entry per travel-like category present, each averaging exactly its rows |
| Reports.AverageCashbackPercentage | app.py:384 | there is an average exactly when some row has positive cashback and amount |
| Reports.AverageCashbackPercentageBounds | app.py:384 | with cashback never above the amount, the average percentage lies in (0, 100] |

## Left out

- The Streamlit pages, widgets, charts and message texts are not modelled. Neither are the SQLite connection, its error handling, the `@st.cache_data` cache or `database_setup.py`. They are user interface and I/O. The store is an in-memory sequence of rows.
- The probability weights of the random draws and the Faker sentence are left out. Each draw is a nondeterministic choice among the outcomes it allows, and a category without phrases gets arbitrary text.
- Floating-point rounding is not modelled. Money is whole paise, averages and percentages are exact reals, and `round(x, 2)` is any value within half a paisa.
- Generator.GenerateExpenseData: stops at year 9999, as Python's `date` does, so it requires the window to end by then.
- IsoDates.IsoDate: always writes a four-digit, zero-padded year. For years 1 to 999, Python's `strftime('%Y')` depends on the platform (glibc writes no padding, e.g. "999-01-01"). For those years, the model's generator text, `DatesInOrder` and the claim that every date parses describe the padded form, not what such a platform writes.
- IsoDates.ParseIsoDate: accepts only the canonical ten-character `YYYY-MM-DD` text the generator writes. `pd.to_datetime` also reads other spellings such as "2024-01-05 00:00:00". On a store holding such text, Reports.LoadAllData returns None where the program loads.
- Tables.SortBy: a tie in `ORDER BY` keeps input order, which is one of the orders SQLite may return. The model does not capture other tie orders.
- Tables.GroupBy: groups appear in first-seen order rather than in SQLite's order or the sorted-key order in pandas. The properties hold for any order. Where the source sorts afterwards, the sort fixes the order.
- Reports.WeekdayTotalsReport: SQLite's `ORDER BY Day_of_Week` and `ORDER BY Total_Spending DESC` are not modelled, because the pandas `Categorical` sort that follows overrides them.
- Reports.TravelCostsReport: `ORDER BY Average_Cost DESC` is not stated, because the averages are reals and the sort ranks by integers.
- Reports.CategoryRank: a category outside the generator's sixteen sorts after them rather than alphabetically among them.
- Reports.RecurringPaymentsReport: the month-number key is always two digits, so the model does not cover keys of another shape.
- Reports.HighestShareReport: ties between equally large categories are broken by input order.
- Reports.AverageCashbackPercentageBounds: assumes cashback never exceeds the amount, which Generator.GeneratedRowCashback proves for generated rows.
- Reports.NoCashbackCategoriesReport: `SELECT DISTINCT` order is unspecified in SQL. The model lists first appearances and states only which categories appear.
- The dashboard's monthly cashback chart, monthly grocery chart, food-by-weekday report and repeated category report reuse the functions above (`MonthlyCashback`, `MonthlyGrocerySpending`, `FoodByDayOfWeek`, `CategoryTotals`). They have no separate lemmas.

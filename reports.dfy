/** The dashboard in app.py as pure functions over the stored expenses:
    loading them with the derived `Month` and `DayOfWeek` columns, the
    sidebar date-range filter, the overview metrics, and the grouped
    reports, whether the dashboard computes them with pandas or asks SQLite
    for them. The store is a sequence of rows and money is in paise. */
module Reports {
  import opened Calendar
  import opened IsoDates
  import opened Optional
  import opened Tables
  import opened Generator

  type ValidDate = d: Date | IsValid(d) witness Date(1, 1, 1)

  /** A loaded expense: a stored row whose date text has been parsed. */
  datatype Expense = Expense(
    date: ValidDate,
    category: string,
    paymentMode: PaymentMode,
    description: string,
    amountPaid: int,
    cashback: int)

  // The columns, as functions to filter, group and sum by.

  function Amount(e: Expense): int { e.amountPaid }
  function CashbackOf(e: Expense): int { e.cashback }
  function CategoryOf(e: Expense): string { e.category }
  function ModeOf(e: Expense): PaymentMode { e.paymentMode }
  function DateOf(e: Expense): Date { e.date }

  /** A date as the number YYYYMMDD: on valid dates it orders them as the
      `YYYY-MM-DD` text does. */
  function DateRank(d: Date): int {
    d.year * 10000 + d.month * 100 + d.day
  }

  lemma DateRankOrder(a: Date, b: Date)
    requires IsValid(a) && IsValid(b)
    ensures Before(a, b) <==> DateRank(a) < DateRank(b)
    ensures a == b <==> DateRank(a) == DateRank(b)
  {
  }

  function Chronological(e: Expense): int { DateRank(e.date) }

  /** Converts a stored row, or fails when its date text is not a date. */
  function LoadRow(r: Row): (e: Option<Expense>)
    ensures e.Some? <==> ParseIsoDate(r.date).Some?
    ensures e.Some? ==> IsoDate(e.value.date) == r.date
    ensures e.Some? ==> e.value.category == r.category && e.value.paymentMode == r.paymentMode
                        && e.value.description == r.description
                        && e.value.amountPaid == r.amountPaid && e.value.cashback == r.cashback
  {
    match ParseIsoDate(r.date)
    case None => None
    case Some(d) =>
      FormattedParse(r.date, d);
      Some(Expense(d, r.category, r.paymentMode, r.description, r.amountPaid, r.cashback))
  }

  /** Converts every stored row, or fails if any of them fails. */
  function LoadRows(store: seq<Row>): (r: Option<seq<Expense>>)
    ensures r.Some? ==> |r.value| == |store|
  {
    if store == [] then Some([])
    else
      var loaded, row := LoadRows(store[..|store| - 1]), LoadRow(store[|store| - 1]);
      if loaded.Some? && row.Some? then Some(loaded.value + [row.value]) else None
  }

  /** The load succeeds exactly when every row converts, and then holds
      each row's conversion at its position. */
  lemma {:induction false} LoadRowsSpec(store: seq<Row>)
    ensures LoadRows(store).Some? <==> forall i :: 0 <= i < |store| ==> LoadRow(store[i]).Some?
    ensures LoadRows(store).Some? ==>
      forall i :: 0 <= i < |store| ==> LoadRow(store[i]) == Some(LoadRows(store).value[i])
  {
    if store != [] {
      var init, last := store[..|store| - 1], store[|store| - 1];
      LoadRowsSpec(init);
      var loaded, row := LoadRows(init), LoadRow(last);
      if loaded.Some? && row.Some? {
        assert LoadRows(store) == Some(loaded.value + [row.value]);
        assert store == init + [last];
        ConvertedPositions(init, loaded.value, last, row.value, LoadRow);
      } else if loaded.Some? {
        assert LoadRows(store) == None && !LoadRow(store[|store| - 1]).Some?;
      } else {
        var i :| 0 <= i < |init| && !LoadRow(init[i]).Some?;
        assert LoadRows(store) == None && store[i] == init[i];
      }
    }
  }

  /** Appending a row and its conversion keeps every position converted. */
  lemma ConvertedPositions<A, B>(xs: seq<A>, ys: seq<B>, x: A, y: B, convert: A -> Option<B>)
    requires |xs| == |ys| && convert(x) == Some(y)
    requires forall i :: 0 <= i < |xs| ==> convert(xs[i]) == Some(ys[i])
    ensures forall i :: 0 <= i < |xs| + 1 ==> convert((xs + [x])[i]) == Some((ys + [y])[i])
  {
    forall i | 0 <= i < |xs| + 1
      ensures convert((xs + [x])[i]) == Some((ys + [y])[i])
    {
      if i < |xs| {
        assert (xs + [x])[i] == xs[i] && (ys + [y])[i] == ys[i];
      }
    }
  }

  /** `load_all_data`: the whole store in date order, with the date text
      parsed. An unparsable date makes the load fail. */
  function LoadAllData(store: seq<Row>): (r: Option<seq<Expense>>)
    ensures r.Some? <==> forall i :: 0 <= i < |store| ==> ParseIsoDate(store[i].date).Some?
    ensures r.Some? ==> |r.value| == |store| && SortedBy(r.value, Chronological)
    ensures r.Some? ==> LoadRows(store).Some? && multiset(r.value) == multiset(LoadRows(store).value)
  {
    LoadRowsSpec(store);
    match LoadRows(store)
    case None => None
    case Some(es) =>
      SortBySorted(es, Chronological);
      Some(SortBy(es, Chronological))
  }

  /** Loading what the generator emitted gives back every row, unchanged and
      in the order emitted: the rows already come in date order. */
  lemma LoadGenerated(data: seq<Row>, days: seq<Date>, counts: seq<nat>, start: int)
    requires RowsFollowDays(data, days, counts) && ConsecutiveFrom(days, start)
    ensures LoadAllData(data).Some?
    ensures LoadAllData(data) == LoadRows(data)
  {
    DatesInOrder(data, days, counts, start);
    LoadRowsSpec(data);
    var es := LoadRows(data).value;
    forall i, j | 0 <= i < j < |es|
      ensures Chronological(es[i]) <= Chronological(es[j])
    {
      DateRankOrder(es[j].date, es[i].date);
    }
    SortByKeepsSorted(es, Chronological);
  }

  /** The `Month` column: the `YYYY-MM` period, the first seven characters
      of the date text. */
  function MonthOf(e: Expense): (m: string)
    ensures m == IsoDate(e.date)[..7]
  {
    MonthKeyIsPrefix(e.date);
    MonthKey(e.date)
  }

  /** The number of months since year 0 named by a `YYYY-MM` key, or 0 for
      text of another shape: text order on such keys is this number's order. */
  function MonthRank(key: string): int {
    if |key| == 7 && AllDigits(key[..4]) && AllDigits(key[5..]) then
      Number(key[..4]) * 12 + Number(key[5..])
    else 0
  }

  lemma MonthRankOfKey(d: Date)
    requires IsValid(d)
    ensures MonthRank(MonthKey(d)) == d.year * 12 + d.month
  {
    var key := MonthKey(d);
    assert key[..4] == Pad4(d.year) && key[5..] == Pad2(d.month);
    Pad4RoundTrip(d.year);
    Pad2RoundTrip(d.month);
  }

  /** The `CASE STRFTIME('%w', Date)` of the weekday reports: the weekday
      number, 0 for Sunday, to its English name, which is also what pandas'
      `day_name` gives for the `DayOfWeek` column. */
  function DayName(w: int): string
    requires 0 <= w < 7
  {
    if w == 0 then "Sunday"
    else if w == 1 then "Monday"
    else if w == 2 then "Tuesday"
    else if w == 3 then "Wednesday"
    else if w == 4 then "Thursday"
    else if w == 5 then "Friday"
    else "Saturday"
  }

  /** The `DayOfWeek` column. */
  function DayOfWeekOf(e: Expense): string {
    DayName(Weekday(e.date))
  }

  /** The category order of the grocery report. */
  function SundayFirst(): seq<string> {
    ["Sunday", "Monday", "Tuesday", "Wednesday", "Thursday", "Friday", "Saturday"]
  }

  /** The category order of the day-of-week and food reports. */
  function MondayFirst(): seq<string> {
    ["Monday", "Tuesday", "Wednesday", "Thursday", "Friday", "Saturday", "Sunday"]
  }

  /** The sort key of a value in an ordered pandas `Categorical`: its first
      position in `order`, or `|order|` for a value not listed, which sorts
      last. */
  function RankIn(order: seq<string>, name: string): (r: nat)
    ensures r <= |order|
    ensures r < |order| ==> order[r] == name
    ensures forall i :: 0 <= i < r ==> order[i] != name
  {
    if order == [] then 0
    else if order[0] == name then 0
    else 1 + RankIn(order[1..], name)
  }

  /** Each weekday name has its place in both orders: Sunday-first puts
      weekday `w` at `w`, Monday-first one place earlier, Sunday last. */
  lemma DayNameRanks(w: int)
    requires 0 <= w < 7
    ensures RankIn(SundayFirst(), DayName(w)) == w
    ensures RankIn(MondayFirst(), DayName(w)) == (w + 6) % 7
  {
    var names := SundayFirst();
    DayNamesDistinct();
    assert names[w] == DayName(w) by {
      if w == 0 {} else if w == 1 {} else if w == 2 {} else if w == 3 {}
      else if w == 4 {} else if w == 5 {} else {}
    }
    RankAt(names, w);
    var names' := MondayFirst();
    assert names' == names[1..] + [names[0]];
    var k := if w == 0 then 6 else w - 1;
    assert k == (w + 6) % 7 && names'[k] == names[w];
    RankAt(names', k);
  }

  lemma DayNamesDistinct()
    ensures forall i, j :: 0 <= i < j < 7 ==> SundayFirst()[i] != SundayFirst()[j]
  {
    var names := SundayFirst();
    forall i, j | 0 <= i < j < 7
      ensures names[i] != names[j]
    {
      assert |names[i]| != |names[j]| || names[i][0] != names[j][0];
    }
  }

  /** Different weekdays have different names. */
  lemma DayNamesApart(a: int, b: int)
    requires 0 <= a < 7 && 0 <= b < 7
    ensures DayName(a) == DayName(b) <==> a == b
  {
    DayNameRanks(a);
    DayNameRanks(b);
  }

  /** In a list without repeats, each entry ranks at its own position. */
  lemma {:induction false} RankAt(order: seq<string>, i: nat)
    requires i < |order|
    requires forall j :: 0 <= j < i ==> order[j] != order[i]
    ensures RankIn(order, order[i]) == i
  {
    if i > 0 {
      RankAt(order[1..], i - 1);
    }
  }

  // The sidebar filter.

  /** `start <= date <= end`, comparing whole dates. */
  predicate Within(d: Date, start: Date, end: Date) {
    !Before(d, start) && !Before(end, d)
  }

  function InRange(start: Date, end: Date): Expense -> bool {
    (e: Expense) => Within(e.date, start, end)
  }

  function OnDate(d: Date): Expense -> bool {
    (e: Expense) => e.date == d
  }

  /** `sorted` on a pair of dates. */
  function Ordered(a: Date, b: Date): (r: (Date, Date))
    ensures r == (a, b) || r == (b, a)
    ensures !Before(r.1, r.0)
  {
    if Before(b, a) then (b, a) else (a, b)
  }

  /** The dates picked in the sidebar: two dates are put in order and bound
      an inclusive range, a single date keeps that day only, and any other
      selection keeps every row. */
  function FilterByDateInput(all: seq<Expense>, dateRange: seq<Date>): (r: seq<Expense>)
    ensures |r| <= |all|
    ensures |dateRange| != 1 && |dateRange| != 2 ==> r == all
  {
    if |dateRange| == 2 then
      var (start, end) := Ordered(dateRange[0], dateRange[1]);
      Where(all, InRange(start, end))
    else if |dateRange| == 1 then Where(all, OnDate(dateRange[0]))
    else all
  }

  /** The two picked dates may come in either order. */
  lemma FilterOrderInsensitive(all: seq<Expense>, a: Date, b: Date)
    ensures FilterByDateInput(all, [a, b]) == FilterByDateInput(all, [b, a])
  {
    assert Ordered(a, b) == Ordered(b, a);
  }

  /** Two dates keep exactly the rows dated between them, both ends
      included, each as often as it occurs in the table. */
  lemma FilterKeepsInclusiveRange(all: seq<Expense>, a: Date, b: Date, x: Expense)
    ensures multiset(FilterByDateInput(all, [a, b]))[x] ==
      if Within(x.date, a, b) || Within(x.date, b, a) then multiset(all)[x] else 0
    ensures x in FilterByDateInput(all, [a, b]) <==>
      x in all && (Within(x.date, a, b) || Within(x.date, b, a))
  {
    var (start, end) := Ordered(a, b);
    WhereMultiplicity(all, InRange(start, end), x);
  }

  /** One date keeps exactly that day's rows, as the range from the date to
      itself does. */
  lemma FilterSingleDate(all: seq<Expense>, d: Date, x: Expense)
    ensures FilterByDateInput(all, [d]) == FilterByDateInput(all, [d, d])
    ensures x in FilterByDateInput(all, [d]) <==> x in all && x.date == d
  {
    WhereSame(all, OnDate(d), InRange(d, d));
    WhereMembership(all, OnDate(d), x);
  }

  /** The filtered rows are some of the rows in their original order, so a
      table in date order stays in date order. */
  lemma FilterIsSubsequence(all: seq<Expense>, dateRange: seq<Date>)
    ensures IsSubsequence(FilterByDateInput(all, dateRange), all)
    ensures SortedBy(all, Chronological) ==> SortedBy(FilterByDateInput(all, dateRange), Chronological)
  {
    if |dateRange| == 2 {
      var (start, end) := Ordered(dateRange[0], dateRange[1]);
      WhereIsSubsequence(all, InRange(start, end));
      if SortedBy(all, Chronological) {
        WhereSorted(all, InRange(start, end), Chronological);
      }
    } else if |dateRange| == 1 {
      WhereIsSubsequence(all, OnDate(dateRange[0]));
      if SortedBy(all, Chronological) {
        WhereSorted(all, OnDate(dateRange[0]), Chronological);
      }
    } else {
      SubsequenceOfItself(all);
    }
  }

  lemma {:induction false} SubsequenceOfItself<T>(xs: seq<T>)
    ensures IsSubsequence(xs, xs)
  {
    if xs != [] {
      SubsequenceOfItself(xs[..|xs| - 1]);
    }
  }

  /** The earliest date in a non-empty table (`min`). */
  function EarliestDate(rows: seq<Expense>): (d: ValidDate)
    requires rows != []
    ensures exists i :: 0 <= i < |rows| && rows[i].date == d
    ensures forall i :: 0 <= i < |rows| ==> !Before(rows[i].date, d)
  {
    if |rows| == 1 then rows[0].date
    else
      var rest := EarliestDate(rows[1..]);
      assert forall i :: 1 <= i < |rows| ==> rows[i] == rows[1..][i - 1];
      if Before(rows[0].date, rest) then rows[0].date else rest
  }

  /** The latest date in a non-empty table (`max`). */
  function LatestDate(rows: seq<Expense>): (d: ValidDate)
    requires rows != []
    ensures exists i :: 0 <= i < |rows| && rows[i].date == d
    ensures forall i :: 0 <= i < |rows| ==> !Before(d, rows[i].date)
  {
    if |rows| == 1 then rows[0].date
    else
      var rest := LatestDate(rows[1..]);
      assert forall i :: 1 <= i < |rows| ==> rows[i] == rows[1..][i - 1];
      if Before(rest, rows[0].date) then rows[0].date else rest
  }

  /** The picker's initial value, from the earliest to the latest date. The
      dashboard stops before this point when the store is empty. */
  function DefaultRange(all: seq<Expense>): seq<Date>
    requires all != []
  {
    [EarliestDate(all), LatestDate(all)]
  }

  /** Until another range is picked, the filter keeps the whole store. */
  lemma DefaultRangeKeepsAll(all: seq<Expense>)
    requires all != []
    ensures FilterByDateInput(all, DefaultRange(all)) == all
  {
    var first, last := EarliestDate(all), LatestDate(all);
    assert !Before(all[0].date, first) && !Before(last, all[0].date);
    assert Ordered(first, last) == (first, last);
    WhereAll(all, InRange(first, last));
  }

  // The overview metrics.

  datatype Overview = Overview(
    totalSpent: int,
    totalCashback: int,
    transactions: nat,
    average: Option<real>)

  /** Total spending, total cashback, the number of transactions and the
      mean amount, which is undefined (pandas' NaN) for no rows. */
  function OverviewMetrics(rows: seq<Expense>): (m: Overview)
    ensures m.transactions == |rows|
    ensures m.average.Some? <==> rows != []
    ensures m.average.Some? ==> m.average.value * (|rows| as real) == m.totalSpent as real
  {
    var total := SumOf(rows, Amount);
    Overview(total, SumOf(rows, CashbackOf), |rows|,
             if rows == [] then None else Some(total as real / |rows| as real))
  }

  /** The mean lies between the smallest and the largest amount. */
  lemma AverageWithinAmounts(rows: seq<Expense>, low: int, high: int)
    requires rows != []
    requires forall i :: 0 <= i < |rows| ==> low <= rows[i].amountPaid <= high
    ensures low as real <= OverviewMetrics(rows).average.value <= high as real
  {
    SumBetween(rows, Amount, low, high);
    var n := |rows|;
    var total := SumOf(rows, Amount);
    assert OverviewMetrics(rows).average.value == total as real / n as real;
    ScaledBounds(n, low, total, high);
  }

  /** `n * low <= total <= n * high` over the integers gives
      `low <= total / n <= high` over the reals. */
  lemma ScaledBounds(n: int, low: int, total: int, high: int)
    requires n > 0 && n * low <= total <= n * high
    ensures low as real <= total as real / n as real <= high as real
  {
    var q, nr := total as real / n as real, n as real;
    assert (n * low) as real == nr * low as real;
    assert (n * high) as real == nr * high as real;
    assert q - low as real == (total as real - nr * low as real) / nr;
    assert high as real - q == (nr * high as real - total as real) / nr;
  }

  /** The rows inside and outside a picked range share the store's totals
      between them. */
  lemma FilterSplitsTotals(all: seq<Expense>, a: Date, b: Date)
    ensures var (start, end) := Ordered(a, b);
      var inside := OverviewMetrics(FilterByDateInput(all, [a, b]));
      var outside := OverviewMetrics(Where(all, Not(InRange(start, end))));
      && inside.totalSpent + outside.totalSpent == OverviewMetrics(all).totalSpent
      && inside.totalCashback + outside.totalCashback == OverviewMetrics(all).totalCashback
      && inside.transactions + outside.transactions == |all|
  {
    var (start, end) := Ordered(a, b);
    SumPartition(all, InRange(start, end), Amount);
    SumPartition(all, InRange(start, end), CashbackOf);
    CountPartition(all, InRange(start, end));
  }

  // The grouped reports.

  function LargestFirst<K>(g: Group<K>): int { -g.total }
  function MostFirst<K>(g: Group<K>): int { -(g.count as int) }

  /** Spending per category, largest first: the dashboard's category chart,
      the first predefined query and its repeat for the priority insight. */
  function CategoryTotals(rows: seq<Expense>): seq<Group<string>> {
    SortBy(GroupBy(rows, CategoryOf, Amount), LargestFirst)
  }

  /** One group per category present, largest first, each with the sum of
      exactly its rows; the category totals add up to all spending. */
  lemma CategoryTotalsReport(rows: seq<Expense>, c: string)
    ensures var r := CategoryTotals(rows);
      && (forall i, j :: 0 <= i < j < |r| ==> r[i].total >= r[j].total)
      && DistinctKeys(r)
      && KeySet(r) == (set i | 0 <= i < |rows| :: rows[i].category)
      && TotalOf(r, c) == SumOf(Where(rows, KeyIs(CategoryOf, c)), Amount)
      && SumOf(r, Total) == SumOf(rows, Amount)
  {
    OrderedGroupBy(rows, CategoryOf, Amount, LargestFirst, c);
  }

  /** The `n` categories with the largest spending (`LIMIT n`): the top-five
      query with `n` = 5. */
  function TopCategories(rows: seq<Expense>, n: nat): seq<Group<string>> {
    Take(CategoryTotals(rows), n)
  }

  /** The top `n` are the first `min(n, k)` of the `k` category totals, and
      none of the categories left out spent more than one listed. */
  lemma TopCategoriesLead(rows: seq<Expense>, n: nat)
    ensures var all, top := CategoryTotals(rows), TopCategories(rows, n);
      && top <= all
      && |top| == (if n < |all| then n else |all|)
      && forall i, j :: 0 <= i < |top| <= j < |all| ==> top[i].total >= all[j].total
  {
    CategoryTotalsReport(rows, "");
  }

  /** The percentage `part` makes of `whole`; SQLite gives NULL for a
      division by a zero total. */
  function Percentage(part: int, whole: int): Option<real> {
    if whole == 0 then None else Some(part as real * 100.0 / whole as real)
  }

  /** The category contributing the largest part of all spending, with its
      percentage of the total; no row for an empty store. */
  function HighestShare(rows: seq<Expense>): Option<(string, Option<real>)> {
    var top := TopCategories(rows, 1);
    if top == [] then None
    else Some((top[0].key, Percentage(top[0].total, SumOf(rows, Amount))))
  }

  lemma HighestShareReport(rows: seq<Expense>)
    ensures HighestShare(rows).None? <==> rows == []
    ensures HighestShare(rows).Some? ==>
      var (c, share) := HighestShare(rows).value;
      var totals := CategoryTotals(rows);
      && c in KeySet(totals)
      && (forall d :: d in KeySet(totals) ==> TotalOf(totals, d) <= TotalOf(totals, c))
      && share == Percentage(TotalOf(totals, c), SumOf(rows, Amount))
  {
    var totals := CategoryTotals(rows);
    CategoryTotalsReport(rows, "");
    if rows != [] {
      assert rows[0].category in KeySet(totals);
    }
    if totals != [] {
      var c := totals[0].key;
      GroupAt(totals, 0);
      KeySetMembers(totals, c);
      forall d | d in KeySet(totals)
        ensures TotalOf(totals, d) <= TotalOf(totals, c)
      {
        KeySetMembers(totals, d);
        var j :| 0 <= j < |totals| && totals[j].key == d;
        GroupAt(totals, j);
      }
    }
  }

  /** Spending per payment mode: the dashboard's pie and the second query. */
  function PaymentModeTotals(rows: seq<Expense>): seq<Group<PaymentMode>> {
    GroupBy(rows, ModeOf, Amount)
  }

  /** Cash and online spending are each the sum of their own rows, and
      together they are all spending. */
  lemma PaymentModeSplit(rows: seq<Expense>)
    ensures var r := PaymentModeTotals(rows);
      && DistinctKeys(r)
      && TotalOf(r, Cash) == SumOf(Where(rows, KeyIs(ModeOf, Cash)), Amount)
      && TotalOf(r, Online) == SumOf(Where(rows, KeyIs(ModeOf, Online)), Amount)
      && TotalOf(r, Cash) + TotalOf(r, Online) == SumOf(rows, Amount)
  {
    GroupByKeys(rows, ModeOf, Amount);
    GroupByTotals(rows, ModeOf, Amount, Cash);
    GroupByTotals(rows, ModeOf, Amount, Online);
    SumPartition(rows, KeyIs(ModeOf, Cash), Amount);
    forall i | 0 <= i < |rows|
      ensures Not(KeyIs(ModeOf, Cash))(rows[i]) == KeyIs(ModeOf, Online)(rows[i])
    {
      assert rows[i].paymentMode == Cash || rows[i].paymentMode == Online;
    }
    WhereSame(rows, Not(KeyIs(ModeOf, Cash)), KeyIs(ModeOf, Online));
  }

  /** The fifth query: transportation spending per payment mode. */
  function TransportationByMode(rows: seq<Expense>): seq<Group<PaymentMode>> {
    PaymentModeTotals(Where(rows, KeyIs(CategoryOf, "Transportation")))
  }

  /** Its cash and online parts add up to the transportation total of the
      category report. */
  lemma TransportationByModeReport(rows: seq<Expense>)
    ensures var r := TransportationByMode(rows);
      TotalOf(r, Cash) + TotalOf(r, Online) == TotalOf(CategoryTotals(rows), "Transportation")
  {
    PaymentModeSplit(Where(rows, KeyIs(CategoryOf, "Transportation")));
    CategoryTotalsReport(rows, "Transportation");
  }

  function HasCashback(e: Expense): bool { e.cashback > 0 }
  function NewestFirst(e: Expense): int { -DateRank(e.date) }

  /** The sixth query: the transactions that earned cashback, newest first. */
  function CashbackTransactions(rows: seq<Expense>): seq<Expense> {
    SortBy(Where(rows, HasCashback), NewestFirst)
  }

  /** Exactly the rows with positive cashback, each as often as it occurs,
      and no row dated before a row listed after it. */
  lemma CashbackTransactionsReport(rows: seq<Expense>, x: Expense)
    ensures var r := CashbackTransactions(rows);
      && multiset(r)[x] == (if x.cashback > 0 then multiset(rows)[x] else 0)
      && forall i, j :: 0 <= i < j < |r| ==> !Before(r[i].date, r[j].date)
  {
    var r := CashbackTransactions(rows);
    WhereMultiplicity(rows, HasCashback, x);
    SortBySorted(Where(rows, HasCashback), NewestFirst);
    forall i, j | 0 <= i < j < |r|
      ensures !Before(r[i].date, r[j].date)
    {
      DateRankOrder(r[i].date, r[j].date);
    }
  }

  /** The share of transactions with cashback, in percent; nothing for an
      empty store. */
  function CashbackShare(rows: seq<Expense>): (r: Option<real>)
    ensures r.Some? <==> rows != []
    ensures r.Some? ==> 0.0 <= r.value <= 100.0
  {
    var part := |Where(rows, HasCashback)|;
    PercentageBounds(part, |rows|);
    Percentage(part, |rows|)
  }

  /** The percentage times the whole is a hundred times the part. */
  lemma PercentageScales(part: int, whole: int)
    requires whole != 0
    ensures Percentage(part, whole).value * whole as real == 100.0 * part as real
  {
  }

  /** A part of a non-negative whole is between 0 and 100 percent of it. */
  lemma PercentageBounds(part: int, whole: int)
    requires 0 <= part <= whole
    ensures Percentage(part, whole).Some? ==> 0.0 <= Percentage(part, whole).value <= 100.0
  {
    if whole != 0 {
      assert part as real * 100.0 == (part * 100) as real;
      ScaledBounds(whole, 0, part * 100, 100);
    }
  }

  /** It is the percentage of all transactions that the cashback report
      lists. */
  lemma CashbackShareMatchesReport(rows: seq<Expense>)
    ensures CashbackShare(rows) == Percentage(|CashbackTransactions(rows)|, |rows|)
  {
  }

  // Spending by month.

  function InMonthOrder(g: Group<string>): int { MonthRank(g.key) }

  /** `GROUP BY Month ORDER BY Month` summing one column. */
  function MonthlyTotals(rows: seq<Expense>, value: Expense -> int): seq<Group<string>> {
    SortBy(GroupBy(rows, MonthOf, value), InMonthOrder)
  }

  /** Spending per month: the dashboard's trend and the seventh query. */
  function MonthlySpending(rows: seq<Expense>): seq<Group<string>> {
    MonthlyTotals(rows, Amount)
  }

  /** Cashback per month: the dashboard's trend and the tenth query. */
  function MonthlyCashback(rows: seq<Expense>): seq<Group<string>> {
    MonthlyTotals(rows, CashbackOf)
  }

  /** Grocery spending per month, in the grocery insight. */
  function MonthlyGrocerySpending(rows: seq<Expense>): seq<Group<string>> {
    MonthlySpending(Where(rows, KeyIs(CategoryOf, "Groceries")))
  }

  function SameMonth(d: Date): Expense -> bool {
    (e: Expense) => e.date.year == d.year && e.date.month == d.month
  }

  /** One group per month present, keyed by the `YYYY-MM` text, strictly in
      calendar order; each month holds the sum and count of exactly the rows
      of that month, and the months add up to the whole column. */
  lemma MonthlyTotalsReport(rows: seq<Expense>, value: Expense -> int, d: ValidDate)
    ensures var r := MonthlyTotals(rows, value);
      && (forall i, j :: 0 <= i < j < |r| ==> MonthRank(r[i].key) < MonthRank(r[j].key))
      && KeySet(r) == (set i | 0 <= i < |rows| :: MonthKey(rows[i].date))
      && TotalOf(r, MonthKey(d)) == SumOf(Where(rows, SameMonth(d)), value)
      && CountOf(r, MonthKey(d)) == |Where(rows, SameMonth(d))|
      && SumOf(r, Total) == SumOf(rows, value)
  {
    var r := MonthlyTotals(rows, value);
    OrderedGroupBy(rows, MonthOf, value, InMonthOrder, MonthKey(d));
    forall i | 0 <= i < |rows|
      ensures KeyIs(MonthOf, MonthKey(d))(rows[i]) == SameMonth(d)(rows[i])
    {
      MonthKeySameMonth(rows[i].date, d);
    }
    WhereSame(rows, KeyIs(MonthOf, MonthKey(d)), SameMonth(d));
    MonthRanksApart(rows, r);
    StrictlySorted(r, InMonthOrder);
  }

  /** Month keys of valid dates with the same rank are the same key. */
  lemma MonthRanksApart(rows: seq<Expense>, r: seq<Group<string>>)
    requires KeySet(r) == (set i | 0 <= i < |rows| :: MonthKey(rows[i].date))
    ensures forall i, j :: 0 <= i < |r| && 0 <= j < |r| && InMonthOrder(r[i]) == InMonthOrder(r[j]) ==>
      r[i].key == r[j].key
  {
    forall i, j | 0 <= i < |r| && 0 <= j < |r| && InMonthOrder(r[i]) == InMonthOrder(r[j])
      ensures r[i].key == r[j].key
    {
      KeySetMembers(r, r[i].key);
      KeySetMembers(r, r[j].key);
      MonthKeysOfRowsApart(rows, KeySet(r), r[i].key, r[j].key);
    }
  }

  lemma MonthKeysOfRowsApart(rows: seq<Expense>, keys: set<string>, x: string, y: string)
    requires keys == (set i | 0 <= i < |rows| :: MonthKey(rows[i].date))
    requires x in keys && y in keys && MonthRank(x) == MonthRank(y)
    ensures x == y
  {
    var a :| 0 <= a < |rows| && MonthKey(rows[a].date) == x;
    var b :| 0 <= b < |rows| && MonthKey(rows[b].date) == y;
    var da, db := rows[a].date, rows[b].date;
    MonthRankOfKey(da);
    MonthRankOfKey(db);
    MonthNumbersApart(da.year, da.month, db.year, db.month);
    MonthKeySameMonth(da, db);
  }

  /** Months counted from year 0 tell the year and the month apart. */
  lemma MonthNumbersApart(y1: int, m1: int, y2: int, m2: int)
    requires 1 <= m1 <= 12 && 1 <= m2 <= 12
    requires y1 * 12 + m1 == y2 * 12 + m2
    ensures y1 == y2 && m1 == m2
  {
  }

  // Spending by day.

  function ByDate(g: Group<ValidDate>): int { DateRank(g.key) }
  function DayOf(e: Expense): ValidDate { e.date }

  /** The first custom query: spending per day, in date order. */
  function DailyTotals(rows: seq<Expense>): seq<Group<ValidDate>> {
    SortBy(GroupBy(rows, DayOf, Amount), ByDate)
  }

  /** One group per day with transactions, strictly in date order, each
      with exactly that day's spending; the days add up to all spending. */
  lemma DailyTotalsReport(rows: seq<Expense>, d: ValidDate)
    ensures var r := DailyTotals(rows);
      && (forall i, j :: 0 <= i < j < |r| ==> Before(r[i].key, r[j].key))
      && KeySet(r) == (set i | 0 <= i < |rows| :: rows[i].date)
      && TotalOf(r, d) == SumOf(Where(rows, KeyIs(DayOf, d)), Amount)
      && SumOf(r, Total) == SumOf(rows, Amount)
  {
    var r := DailyTotals(rows);
    OrderedGroupBy(rows, DayOf, Amount, ByDate, d);
    DistinctKeysApart(r);
    forall i, j | 0 <= i < j < |r|
      ensures Before(r[i].key, r[j].key)
    {
      DateRankOrder(r[i].key, r[j].key);
    }
  }

  /** The days ordered by their spending, largest first. */
  function DaysBySpending(rows: seq<Expense>): seq<Group<ValidDate>> {
    SortBy(GroupBy(rows, DayOf, Amount), LargestFirst)
  }

  /** The sixth custom query: the three days with the largest spending. */
  function TopSpendingDays(rows: seq<Expense>): seq<Group<ValidDate>> {
    Take(DaysBySpending(rows), 3)
  }

  /** At most three different days, each with its own total, and no day
      left out spent more than a day listed. */
  lemma TopSpendingDaysReport(rows: seq<Expense>, d: ValidDate)
    ensures var all, top := DaysBySpending(rows), TopSpendingDays(rows);
      && |top| <= 3 && top <= all
      && DistinctKeys(all)
      && KeySet(all) == (set i | 0 <= i < |rows| :: rows[i].date)
      && TotalOf(all, d) == SumOf(Where(rows, KeyIs(DayOf, d)), Amount)
      && forall i, j :: 0 <= i < |top| <= j < |all| ==> top[i].total >= all[j].total
  {
    OrderedGroupBy(rows, DayOf, Amount, LargestFirst, d);
  }

  /** The second custom query: transactions per category, most first. */
  function CategoryCounts(rows: seq<Expense>): seq<Group<string>> {
    SortBy(GroupBy(rows, CategoryOf, Amount), MostFirst)
  }

  /** Each category counts exactly its rows, the counts descend, and they
      add up to the number of transactions. */
  lemma CategoryCountsReport(rows: seq<Expense>, c: string)
    ensures var r := CategoryCounts(rows);
      && (forall i, j :: 0 <= i < j < |r| ==> r[i].count >= r[j].count)
      && DistinctKeys(r)
      && CountOf(r, c) == |Where(rows, KeyIs(CategoryOf, c))|
      && SumOf(r, Size) == |rows|
  {
    OrderedGroupBy(rows, CategoryOf, Amount, MostFirst, c);
  }

  /** A transaction that paid something and earned no cashback. */
  function MissedCashback(e: Expense): bool { e.cashback == 0 && e.amountPaid > 0 }

  /** The eighth custom query: the distinct categories of such
      transactions, in order of first appearance. */
  function NoCashbackCategories(rows: seq<Expense>): seq<string> {
    KeysOf(GroupBy(Where(rows, MissedCashback), CategoryOf, Amount))
  }

  /** A category is listed, once, exactly when one of its transactions paid
      something without cashback. */
  lemma NoCashbackCategoriesReport(rows: seq<Expense>, c: string)
    ensures var r := NoCashbackCategories(rows);
      && (forall i, j :: 0 <= i < j < |r| ==> r[i] != r[j])
      && (c in r <==> exists i :: 0 <= i < |rows| && rows[i].category == c && MissedCashback(rows[i]))
  {
    var missed := Where(rows, MissedCashback);
    var gs := GroupBy(missed, CategoryOf, Amount);
    GroupByKeys(missed, CategoryOf, Amount);
    DistinctKeysApart(gs);
    KeySetMembers(gs, c);
    if c in NoCashbackCategories(rows) {
      var k :| 0 <= k < |missed| && missed[k].category == c;
      WhereMembership(rows, MissedCashback, missed[k]);
    }
    if exists i :: 0 <= i < |rows| && rows[i].category == c && MissedCashback(rows[i]) {
      var i :| 0 <= i < |rows| && rows[i].category == c && MissedCashback(rows[i]);
      WhereMembership(rows, MissedCashback, rows[i]);
      var k :| 0 <= k < |missed| && missed[k] == rows[i];
      assert CategoryOf(missed[k]) in KeySet(gs);
    }
  }

  // First and second half of the year.

  function FirstHalfAmount(e: Expense): int {
    if 1 <= e.date.month <= 6 then e.amountPaid else 0
  }

  function SecondHalfAmount(e: Expense): int {
    if 7 <= e.date.month <= 12 then e.amountPaid else 0
  }

  /** The twelfth custom query: spending in months 01-06 and in 07-12. */
  function HalfYearSpending(rows: seq<Expense>): (int, int) {
    (SumOf(rows, FirstHalfAmount), SumOf(rows, SecondHalfAmount))
  }

  /** Every transaction falls in exactly one half, so the halves add up to
      all spending. */
  lemma HalfYearSplit(rows: seq<Expense>)
    ensures HalfYearSpending(rows).0 + HalfYearSpending(rows).1 == SumOf(rows, Amount)
  {
    SumAdd(rows, FirstHalfAmount, SecondHalfAmount, Amount);
  }

  // Spending by day of the week.

  function InCalendarOrder(order: seq<string>): Group<string> -> int {
    (g: Group<string>) => RankIn(order, g.key)
  }

  /** `GROUP BY Day_of_Week`, then sorted as an ordered `Categorical` over
      `order`. Whatever order SQLite returned the groups in, the sort fixes
      it, the names being distinct. */
  function WeekdayTotals(rows: seq<Expense>, order: seq<string>): seq<Group<string>> {
    SortBy(GroupBy(rows, DayOfWeekOf, Amount), InCalendarOrder(order))
  }

  /** The fourth custom query: spending per weekday, Monday first. */
  function DayOfWeekSpending(rows: seq<Expense>): seq<Group<string>> {
    WeekdayTotals(rows, MondayFirst())
  }

  /** The tenth custom query: food and dining per weekday, Monday first. */
  function FoodByDayOfWeek(rows: seq<Expense>): seq<Group<string>> {
    WeekdayTotals(Where(rows, KeyIs(CategoryOf, "Food & Dining")), MondayFirst())
  }

  function OnWeekday(w: int): Expense -> bool {
    (e: Expense) => Weekday(e.date) == w
  }

  /** One group per weekday present, named as the SQL `CASE` names it,
      strictly in the order given; each weekday holds exactly its rows'
      spending and the weekdays add up to all spending. */
  lemma WeekdayTotalsReport(rows: seq<Expense>, order: seq<string>, w: int)
    requires order == SundayFirst() || order == MondayFirst()
    requires 0 <= w < 7
    ensures var r := WeekdayTotals(rows, order);
      && (forall i, j :: 0 <= i < j < |r| ==> RankIn(order, r[i].key) < RankIn(order, r[j].key))
      && KeySet(r) == (set i | 0 <= i < |rows| :: DayOfWeekOf(rows[i]))
      && TotalOf(r, DayName(w)) == SumOf(Where(rows, OnWeekday(w)), Amount)
      && CountOf(r, DayName(w)) == |Where(rows, OnWeekday(w))|
      && SumOf(r, Total) == SumOf(rows, Amount)
  {
    var r := WeekdayTotals(rows, order);
    OrderedGroupBy(rows, DayOfWeekOf, Amount, InCalendarOrder(order), DayName(w));
    WeekdayRows(rows, w);
    WeekdayRanksApart(rows, r, order);
    StrictlySorted(r, InCalendarOrder(order));
  }

  /** The rows named for weekday `w` are the rows falling on it. */
  lemma WeekdayRows(rows: seq<Expense>, w: int)
    requires 0 <= w < 7
    ensures Where(rows, KeyIs(DayOfWeekOf, DayName(w))) == Where(rows, OnWeekday(w))
  {
    forall i | 0 <= i < |rows|
      ensures KeyIs(DayOfWeekOf, DayName(w))(rows[i]) == OnWeekday(w)(rows[i])
    {
      assert KeyIs(DayOfWeekOf, DayName(w))(rows[i]) == (DayOfWeekOf(rows[i]) == DayName(w));
      assert OnWeekday(w)(rows[i]) == (Weekday(rows[i].date) == w);
      DayNamesApart(w, Weekday(rows[i].date));
    }
    WhereSame(rows, KeyIs(DayOfWeekOf, DayName(w)), OnWeekday(w));
  }

  /** Weekday names with the same rank in either order are the same name. */
  lemma WeekdayRanksApart(rows: seq<Expense>, r: seq<Group<string>>, order: seq<string>)
    requires order == SundayFirst() || order == MondayFirst()
    requires KeySet(r) == (set i | 0 <= i < |rows| :: DayOfWeekOf(rows[i]))
    ensures forall i, j :: 0 <= i < |r| && 0 <= j < |r| && InCalendarOrder(order)(r[i]) == InCalendarOrder(order)(r[j]) ==>
      r[i].key == r[j].key
  {
    forall i, j | 0 <= i < |r| && 0 <= j < |r| && InCalendarOrder(order)(r[i]) == InCalendarOrder(order)(r[j])
      ensures r[i].key == r[j].key
    {
      KeySetMembers(r, r[i].key);
      KeySetMembers(r, r[j].key);
      WeekdayKeysApart(rows, KeySet(r), r[i].key, r[j].key, order);
    }
  }

  lemma WeekdayKeysApart(rows: seq<Expense>, keys: set<string>, x: string, y: string, order: seq<string>)
    requires order == SundayFirst() || order == MondayFirst()
    requires keys == (set i | 0 <= i < |rows| :: DayOfWeekOf(rows[i]))
    requires x in keys && y in keys && RankIn(order, x) == RankIn(order, y)
    ensures x == y
  {
    var a :| 0 <= a < |rows| && DayOfWeekOf(rows[a]) == x;
    var b :| 0 <= b < |rows| && DayOfWeekOf(rows[b]) == y;
    DayNameRanks(Weekday(rows[a].date));
    DayNameRanks(Weekday(rows[b].date));
  }

  // Averages per group.

  /** `AVG`: a group's total over its number of rows. */
  function Mean<K>(g: Group<K>): real {
    if g.count == 0 then 0.0 else g.total as real / g.count as real
  }

  /** `avg` is the mean of `n` values adding up to `total`. */
  predicate MeanOver(avg: real, n: int, total: int) {
    avg * n as real == total as real
  }

  lemma MeanScales<K>(g: Group<K>)
    requires g.count > 0
    ensures MeanOver(Mean(g), g.count, g.total)
  {
  }

  /** Each group's key with its mean. */
  function Averages<K>(gs: seq<Group<K>>): (r: seq<(K, real)>)
    ensures |r| == |gs|
    ensures forall i :: 0 <= i < |gs| ==> r[i] == (gs[i].key, Mean(gs[i]))
  {
    if gs == [] then [] else [(gs[0].key, Mean(gs[0]))] + Averages(gs[1..])
  }

  /** The mean of the group under one key, times that group's size, is its
      total. */
  lemma AverageOfKey<K>(gs: seq<Group<K>>, k: K, n: int, total: int)
    requires DistinctKeys(gs)
    requires forall i :: 0 <= i < |gs| ==> gs[i].count > 0
    requires CountOf(gs, k) == n && TotalOf(gs, k) == total
    ensures forall i :: 0 <= i < |gs| && Averages(gs)[i].0 == k ==>
      MeanOver(Averages(gs)[i].1, n, total)
  {
    forall i | 0 <= i < |gs| && Averages(gs)[i].0 == k
      ensures MeanOver(Averages(gs)[i].1, n, total)
    {
      GroupAt(gs, i);
      MeanScales(gs[i]);
    }
  }

  /** The ninth custom query: the mean transaction per month, in month
      order. */
  function MonthlyAverages(rows: seq<Expense>): seq<(string, real)> {
    Averages(MonthlySpending(rows))
  }

  /** Months come strictly in calendar order, and a month's mean times its
      number of transactions is its spending. */
  lemma MonthlyAveragesReport(rows: seq<Expense>, d: ValidDate)
    ensures var r := MonthlyAverages(rows);
      && (forall i, j :: 0 <= i < j < |r| ==> MonthRank(r[i].0) < MonthRank(r[j].0))
      && forall i :: 0 <= i < |r| && r[i].0 == MonthKey(d) ==>
           MeanOver(r[i].1, |Where(rows, SameMonth(d))|, SumOf(Where(rows, SameMonth(d)), Amount))
  {
    var months := MonthlySpending(rows);
    var inMonth := Where(rows, SameMonth(d));
    MonthlyTotalsReport(rows, Amount, d);
    GroupByNonEmpty(rows, MonthOf, Amount, InMonthOrder);
    AverageOfKey(months, MonthKey(d), |inMonth|, SumOf(inMonth, Amount));
    assert MonthlyAverages(rows) == Averages(months);
  }

  /** The grocery insight: the mean grocery transaction per weekday,
      Sunday first. */
  function GroceryByDayOfWeek(rows: seq<Expense>): seq<(string, real)> {
    Averages(WeekdayTotals(Where(rows, KeyIs(CategoryOf, "Groceries")), SundayFirst()))
  }

  /** Weekdays come strictly Sunday first, and a weekday's mean times its
      number of grocery transactions is its grocery spending. */
  lemma GroceryByDayOfWeekReport(rows: seq<Expense>, w: int)
    requires 0 <= w < 7
    ensures var r := GroceryByDayOfWeek(rows);
      var groceries := Where(rows, KeyIs(CategoryOf, "Groceries"));
      && (forall i, j :: 0 <= i < j < |r| ==> RankIn(SundayFirst(), r[i].0) < RankIn(SundayFirst(), r[j].0))
      && forall i :: 0 <= i < |r| && r[i].0 == DayName(w) ==>
           MeanOver(r[i].1, |Where(groceries, OnWeekday(w))|, SumOf(Where(groceries, OnWeekday(w)), Amount))
  {
    var groceries := Where(rows, KeyIs(CategoryOf, "Groceries"));
    var days := WeekdayTotals(groceries, SundayFirst());
    var onDay := Where(groceries, OnWeekday(w));
    WeekdayTotalsReport(groceries, SundayFirst(), w);
    GroupByNonEmpty(groceries, DayOfWeekOf, Amount, InCalendarOrder(SundayFirst()));
    AverageOfKey(days, DayName(w), |onDay|, SumOf(onDay, Amount));
    assert GroceryByDayOfWeek(rows) == Averages(days);
  }

  // Text order on category names.

  /** `a` sorts strictly before `b` in SQLite's default (binary) text
      order: character by character, a proper prefix first. */
  predicate TextBefore(a: string, b: string) {
    if a == [] then b != []
    else if b == [] then false
    else a[0] < b[0] || (a[0] == b[0] && TextBefore(a[1..], b[1..]))
  }

  lemma {:induction false} TextBeforeTransitive(a: string, b: string, c: string)
    requires TextBefore(a, b) && TextBefore(b, c)
    ensures TextBefore(a, c)
  {
    if a != [] && a[0] == b[0] && b[0] == c[0] {
      TextBeforeTransitive(a[1..], b[1..], c[1..]);
    }
  }

  lemma {:induction false} TextBeforeAsymmetric(a: string, b: string)
    ensures TextBefore(a, b) ==> !TextBefore(b, a)
  {
    if a != [] && b != [] && a[0] == b[0] {
      TextBeforeAsymmetric(a[1..], b[1..]);
    }
  }

  /** Comparing two texts that start with parts of equal length: the first
      parts decide, and only when they are equal do the rests. */
  lemma {:induction false} TextBeforeConcat(x: string, y: string, x2: string, y2: string)
    requires |x| == |x2|
    ensures TextBefore(x + y, x2 + y2) <==> TextBefore(x, x2) || (x == x2 && TextBefore(y, y2))
  {
    if x != [] {
      assert (x + y)[1..] == x[1..] + y && (x2 + y2)[1..] == x2[1..] + y2;
      TextBeforeConcat(x[1..], y, x2[1..], y2);
      if x[0] == x2[0] && x[1..] == x2[1..] {
        assert x == [x[0]] + x[1..] && x2 == [x2[0]] + x2[1..];
      }
    } else {
      assert x + y == y && x2 + y2 == y2;
    }
  }

  /** On digit strings of equal length, text order is numeric order, and
      equal values mean equal texts. */
  lemma {:induction false} DigitTextOrder(s: string, t: string)
    requires |s| == |t| && AllDigits(s) && AllDigits(t)
    ensures TextBefore(s, t) <==> Number(s) < Number(t)
    ensures s == t <==> Number(s) == Number(t)
  {
    if s != [] {
      var n := |s| - 1;
      DigitTextOrder(s[..n], t[..n]);
      assert s == s[..n] + [s[n]] && t == t[..n] + [t[n]];
      TextBeforeConcat(s[..n], [s[n]], t[..n], [t[n]]);
      assert TextBefore([s[n]], [t[n]]) <==> s[n] < t[n] by {
        assert [s[n]][1..] == [] && [t[n]][1..] == [];
      }
      if s[..n] == t[..n] && s[n] == t[n] {
        assert s == t;
      }
    }
  }

  /** The dashes at the same places: text order on two written dates is
      their calendar order, the order SQLite's `ORDER BY Date` gives. */
  lemma IsoDateTextOrder(a: Date, b: Date)
    requires IsValid(a) && IsValid(b)
    ensures TextBefore(IsoDate(a), IsoDate(b)) <==> DateRank(a) < DateRank(b)
    ensures TextBefore(IsoDate(a), IsoDate(b)) <==> Before(a, b)
  {
    var ya, yb := Pad4(a.year), Pad4(b.year);
    var ma, mb := Pad2(a.month), Pad2(b.month);
    var da, db := Pad2(a.day), Pad2(b.day);
    DigitTextOrder(ya, yb);
    DigitTextOrder(ma, mb);
    DigitTextOrder(da, db);
    Pad4RoundTrip(a.year); Pad4RoundTrip(b.year);
    Pad2RoundTrip(a.month); Pad2RoundTrip(b.month);
    Pad2RoundTrip(a.day); Pad2RoundTrip(b.day);
    var ra, rb := "-" + ma + "-" + da, "-" + mb + "-" + db;
    assert IsoDate(a) == ya + ra && IsoDate(b) == yb + rb;
    TextBeforeConcat(ya, ra, yb, rb);
    assert ra == "-" + (ma + "-" + da) && rb == "-" + (mb + "-" + db);
    TextBeforeConcat("-", ma + "-" + da, "-", mb + "-" + db);
    assert ma + "-" + da == ma + ("-" + da) && mb + "-" + db == mb + ("-" + db);
    TextBeforeConcat(ma, "-" + da, mb, "-" + db);
    TextBeforeConcat("-", da, "-", db);
    DateRankOrder(a, b);
  }

  /** Text order on two month keys is the order of their months. */
  lemma MonthKeyTextOrder(a: Date, b: Date)
    requires IsValid(a) && IsValid(b)
    ensures TextBefore(MonthKey(a), MonthKey(b)) <==> a.year * 12 + a.month < b.year * 12 + b.month
    ensures TextBefore(MonthKey(a), MonthKey(b)) <==> MonthRank(MonthKey(a)) < MonthRank(MonthKey(b))
  {
    var ya, yb := Pad4(a.year), Pad4(b.year);
    var ma, mb := Pad2(a.month), Pad2(b.month);
    DigitTextOrder(ya, yb);
    DigitTextOrder(ma, mb);
    Pad4RoundTrip(a.year); Pad4RoundTrip(b.year);
    Pad2RoundTrip(a.month); Pad2RoundTrip(b.month);
    assert MonthKey(a) == ya + ("-" + ma) && MonthKey(b) == yb + ("-" + mb);
    TextBeforeConcat(ya, "-" + ma, yb, "-" + mb);
    TextBeforeConcat("-", ma, "-", mb);
    MonthNumberOrder(a.year, a.month, b.year, b.month);
    MonthRankOfKey(a);
    MonthRankOfKey(b);
  }

  lemma MonthNumberOrder(y1: int, m1: int, y2: int, m2: int)
    requires 1 <= m1 <= 12 && 1 <= m2 <= 12
    ensures y1 * 12 + m1 < y2 * 12 + m2 <==> y1 < y2 || (y1 == y2 && m1 < m2)
  {
    if y1 < y2 {
      assert y1 * 12 + 12 <= y2 * 12;
    } else if y2 < y1 {
      assert y2 * 12 + 12 <= y1 * 12;
    }
  }

  /** The generator's sixteen categories in text order. */
  function AlphabeticalCategories(): seq<string> {
    [
    "Bills", "Education", "Entertainment", "Food & Dining", "Gifts", "Groceries",
    "Health", "Insurance", "Miscellaneous", "Personal Care", "Rent", "Shopping",
    "Subscriptions", "Transportation", "Travel", "Utilities"
    ]
  }

  /** The list names exactly the generator's categories. */
  lemma AlphabeticalCategoriesListed()
    ensures |AlphabeticalCategories()| == |Categories()|
    ensures forall c :: c in Categories() <==> c in AlphabeticalCategories()
  {
  }

  /** The list is in strict text order, so it names each category once. */
  lemma AlphabeticalCategoriesSorted()
    ensures forall i, j :: 0 <= i < j < |AlphabeticalCategories()| ==>
      TextBefore(AlphabeticalCategories()[i], AlphabeticalCategories()[j])
  {
    var names := AlphabeticalCategories();
    assert TextBefore(names[0], names[1]);
    assert TextBefore(names[1], names[2]);
    assert TextBefore(names[2], names[3]);
    assert TextBefore(names[3], names[4]);
    assert TextBefore(names[4], names[5]);
    assert TextBefore(names[5], names[6]);
    assert TextBefore(names[6], names[7]);
    assert TextBefore(names[7], names[8]);
    assert TextBefore(names[8], names[9]);
    assert TextBefore(names[9], names[10]);
    assert TextBefore(names[10], names[11]);
    assert TextBefore(names[11], names[12]);
    assert TextBefore(names[12], names[13]);
    assert TextBefore("nsportation", "vel");
    assert TextBefore(names[13], names[14]);
    assert TextBefore(names[14], names[15]);
    forall i, j | 0 <= i < j < |names|
      ensures TextBefore(names[i], names[j])
    {
      AdjacentBeforeChain(names, i, j);
    }
  }

  lemma {:induction false} AdjacentBeforeChain(names: seq<string>, i: int, j: int)
    requires forall k :: 0 <= k < |names| - 1 ==> TextBefore(names[k], names[k + 1])
    requires 0 <= i < j < |names|
    ensures TextBefore(names[i], names[j])
    decreases j - i
  {
    if i + 1 < j {
      AdjacentBeforeChain(names, i + 1, j);
      TextBeforeTransitive(names[i], names[i + 1], names[j]);
    }
  }

  /** `ORDER BY Category` as a rank: a category's place in text order among
      the generator's categories; any other name after them all. */
  function CategoryRank(c: string): nat {
    RankIn(AlphabeticalCategories(), c)
  }

  /** Among the generator's categories, a lower rank is exactly an earlier
      name in text order. */
  lemma CategoryRankOrder(a: string, b: string)
    requires a in Categories() && b in Categories()
    ensures CategoryRank(a) < CategoryRank(b) <==> TextBefore(a, b)
  {
    var names := AlphabeticalCategories();
    AlphabeticalCategoriesListed();
    AlphabeticalCategoriesSorted();
    var i, j := CategoryRank(a), CategoryRank(b);
    assert i < |names| && j < |names|;
    if j < i {
      TextBeforeAsymmetric(b, a);
    } else if i == j {
      TextBeforeAsymmetric(a, a);
    }
  }

  // Reports grouped by month and a second column.

  /** The `(Month, second)` grouping key. */
  function WithMonth<X>(second: Expense -> X): Expense -> (string, X) {
    (e: Expense) => (MonthOf(e), second(e))
  }

  function MonthFirst<X>(g: Group<(string, X)>): int { MonthRank(g.key.0) }

  /** The rows of the month of `d` whose second column is `x`. */
  function InMonthWith<X(==)>(d: Date, second: Expense -> X, x: X): Expense -> bool {
    (e: Expense) => e.date.year == d.year && e.date.month == d.month && second(e) == x
  }

  /** `GROUP BY Month, second` summing the amount, `ORDER BY Month` and then
      by `within` inside a month. */
  function MonthlyBy<X(==)>(rows: seq<Expense>, second: Expense -> X, within: Group<(string, X)> -> int)
    : seq<Group<(string, X)>>
  {
    SortBy(SortBy(GroupBy(rows, WithMonth(second), Amount), within), MonthFirst)
  }

  /** One group per month and second value present, in month order and
      then in `within` order, each with the spending of exactly its rows;
      the groups add up to all spending. */
  lemma MonthlyByReport<X>(rows: seq<Expense>, second: Expense -> X, within: Group<(string, X)> -> int, d: ValidDate, x: X)
    ensures var r := MonthlyBy(rows, second, within);
      && SortedByThen(r, MonthFirst, within)
      && DistinctKeys(r)
      && KeySet(r) == (set i | 0 <= i < |rows| :: (MonthKey(rows[i].date), second(rows[i])))
      && TotalOf(r, (MonthKey(d), x)) == SumOf(Where(rows, InMonthWith(d, second, x)), Amount)
      && SumOf(r, Total) == SumOf(rows, Amount)
  {
    var key := WithMonth(second);
    var k := (MonthKey(d), x);
    MonthlyByGroups(rows, key, within, k);
    forall i | 0 <= i < |rows|
      ensures KeyIs(key, k)(rows[i]) == InMonthWith(d, second, x)(rows[i])
    {
      MonthKeySameMonth(rows[i].date, d);
    }
    WhereSame(rows, KeyIs(key, k), InMonthWith(d, second, x));
  }

  /** Grouping by any key and sorting twice, as `MonthlyBy` does. */
  lemma MonthlyByGroups<X>(rows: seq<Expense>, key: Expense -> (string, X), within: Group<(string, X)> -> int, k: (string, X))
    ensures var r := SortBy(SortBy(GroupBy(rows, key, Amount), within), MonthFirst);
      && SortedByThen(r, MonthFirst, within)
      && DistinctKeys(r)
      && KeySet(r) == (set i | 0 <= i < |rows| :: key(rows[i]))
      && TotalOf(r, k) == SumOf(Where(rows, KeyIs(key, k)), Amount)
      && SumOf(r, Total) == SumOf(rows, Amount)
  {
    var groups := GroupBy(rows, key, Amount);
    var inner := SortBy(groups, within);
    GroupByKeys(rows, key, Amount);
    GroupByTotals(rows, key, Amount, k);
    GroupByPartition(rows, key, Amount);
    SortGroups(groups, within, k);
    SortGroups(inner, MonthFirst, k);
    SortBySorted(groups, within);
    SortByThen(inner, MonthFirst, within);
    SumSortBy(groups, within, Total);
    SumSortBy(inner, MonthFirst, Total);
  }

  function InCategories(cs: seq<string>): Expense -> bool {
    (e: Expense) => e.category in cs
  }

  /** The eighth predefined query: spending on travel, entertainment and
      gifts per month and category, by month and then largest first. */
  function PeakCategoryMonths(rows: seq<Expense>): seq<Group<(string, string)>> {
    MonthlyBy(Where(rows, InCategories(["Travel", "Entertainment", "Gifts"])), CategoryOf, LargestFirst)
  }

  /** `ORDER BY Payment_Mode`: "Cash" sorts before "Online". */
  function ModeOrder(g: Group<(string, PaymentMode)>): int {
    if g.key.1 == Cash then 0 else 1
  }

  /** The seventh insight query: spending per month and payment mode, by
      month and then cash before online. */
  function MonthlyModeSpending(rows: seq<Expense>): seq<Group<(string, PaymentMode)>> {
    MonthlyBy(rows, ModeOf, ModeOrder)
  }

  function CategoryOrder(g: Group<(string, string)>): int { CategoryRank(g.key.1) }

  /** The thirteenth insight query: spending per month and category, by
      month and then by category name. */
  function MonthlyCategorySpending(rows: seq<Expense>): seq<Group<(string, string)>> {
    MonthlyBy(rows, CategoryOf, CategoryOrder)
  }

  /** Within a month the peak categories come largest first; each group is
      the month's spending in one of the three categories, and the groups
      add up to the spending in those categories. */
  lemma PeakCategoryMonthsReport(rows: seq<Expense>, d: ValidDate, c: string)
    ensures var peak := Where(rows, InCategories(["Travel", "Entertainment", "Gifts"]));
      var r := PeakCategoryMonths(rows);
      && (forall i, j :: 0 <= i < j < |r| ==>
            MonthRank(r[i].key.0) < MonthRank(r[j].key.0)
            || (MonthRank(r[i].key.0) == MonthRank(r[j].key.0) && r[i].total >= r[j].total))
      && (forall i :: 0 <= i < |r| ==> r[i].key.1 in ["Travel", "Entertainment", "Gifts"])
      && TotalOf(r, (MonthKey(d), c)) == SumOf(Where(peak, InMonthWith(d, CategoryOf, c)), Amount)
      && SumOf(r, Total) == SumOf(peak, Amount)
  {
    var cs := ["Travel", "Entertainment", "Gifts"];
    var peak := Where(rows, InCategories(cs));
    var r := PeakCategoryMonths(rows);
    MonthlyByReport(peak, CategoryOf, LargestFirst, d, c);
    LargestWithinMonth(r);
    CategoriesKept(rows, cs, r);
  }

  /** Month order, then total descending, spelled out. */
  lemma LargestWithinMonth<X>(r: seq<Group<(string, X)>>)
    requires SortedByThen(r, MonthFirst, LargestFirst)
    ensures forall i, j :: 0 <= i < j < |r| ==>
      MonthRank(r[i].key.0) < MonthRank(r[j].key.0)
      || (MonthRank(r[i].key.0) == MonthRank(r[j].key.0) && r[i].total >= r[j].total)
  {
    forall i, j | 0 <= i < j < |r|
      ensures MonthRank(r[i].key.0) < MonthRank(r[j].key.0)
        || (MonthRank(r[i].key.0) == MonthRank(r[j].key.0) && r[i].total >= r[j].total)
    {
      assert MonthFirst(r[i]) == MonthRank(r[i].key.0) && MonthFirst(r[j]) == MonthRank(r[j].key.0);
      assert LargestFirst(r[i]) == -r[i].total && LargestFirst(r[j]) == -r[j].total;
    }
  }

  /** Grouping the rows of categories `cs` names only categories of `cs`. */
  lemma CategoriesKept(rows: seq<Expense>, cs: seq<string>, r: seq<Group<(string, string)>>)
    requires var kept := Where(rows, InCategories(cs));
      KeySet(r) == (set i | 0 <= i < |kept| :: (MonthKey(kept[i].date), CategoryOf(kept[i])))
    ensures forall i :: 0 <= i < |r| ==> r[i].key.1 in cs
  {
    forall i | 0 <= i < |r|
      ensures r[i].key.1 in cs
    {
      KeySetMembers(r, r[i].key);
      KeptCategory(rows, cs, KeySet(r), r[i].key);
    }
  }

  lemma KeptCategory(rows: seq<Expense>, cs: seq<string>, keys: set<(string, string)>, k: (string, string))
    requires var kept := Where(rows, InCategories(cs));
      keys == (set i | 0 <= i < |kept| :: (MonthKey(kept[i].date), CategoryOf(kept[i])))
    requires k in keys
    ensures k.1 in cs
  {
    var kept := Where(rows, InCategories(cs));
    var j :| 0 <= j < |kept| && (MonthKey(kept[j].date), CategoryOf(kept[j])) == k;
    WhereMembership(rows, InCategories(cs), kept[j]);
    assert InCategories(cs)(kept[j]) == (kept[j].category in cs);
  }

  /** Within a month the cash group precedes the online one; the two modes
      of a month add up to that month's spending. */
  lemma MonthlyModeSpendingReport(rows: seq<Expense>, d: ValidDate)
    ensures var r := MonthlyModeSpending(rows);
      && (forall i, j :: 0 <= i < j < |r| ==>
            MonthRank(r[i].key.0) < MonthRank(r[j].key.0)
            || (MonthRank(r[i].key.0) == MonthRank(r[j].key.0) && r[i].key.1 == Cash && r[j].key.1 == Online))
      && TotalOf(r, (MonthKey(d), Cash)) + TotalOf(r, (MonthKey(d), Online))
         == SumOf(Where(rows, SameMonth(d)), Amount)
  {
    MonthlyModeOrder(rows, d);
    MonthlyModeTotals(rows, d);
  }

  lemma MonthlyModeOrder(rows: seq<Expense>, d: ValidDate)
    ensures var r := MonthlyModeSpending(rows);
      forall i, j :: 0 <= i < j < |r| ==>
        MonthRank(r[i].key.0) < MonthRank(r[j].key.0)
        || (MonthRank(r[i].key.0) == MonthRank(r[j].key.0) && r[i].key.1 == Cash && r[j].key.1 == Online)
  {
    var r := MonthlyModeSpending(rows);
    MonthlyByReport(rows, ModeOf, ModeOrder, d, Cash);
    MonthKeysApart(rows, ModeOf, r);
    DistinctKeysApart(r);
    CashBeforeOnline(r);
  }

  lemma MonthlyModeTotals(rows: seq<Expense>, d: ValidDate)
    ensures var r := MonthlyModeSpending(rows);
      TotalOf(r, (MonthKey(d), Cash)) + TotalOf(r, (MonthKey(d), Online))
      == SumOf(Where(rows, SameMonth(d)), Amount)
  {
    MonthlyByReport(rows, ModeOf, ModeOrder, d, Cash);
    MonthlyByReport(rows, ModeOf, ModeOrder, d, Online);
    MonthModesSplit(rows, d);
  }

  /** Of two groups of one month, listed month first and cash first, the
      earlier is the cash group and the later the online one. */
  lemma CashBeforeOnline(r: seq<Group<(string, PaymentMode)>>)
    requires SortedByThen(r, MonthFirst, ModeOrder)
    requires forall i, j :: 0 <= i < j < |r| ==> r[i].key != r[j].key
    requires forall i, j :: 0 <= i < |r| && 0 <= j < |r| && MonthRank(r[i].key.0) == MonthRank(r[j].key.0) ==>
      r[i].key.0 == r[j].key.0
    ensures forall i, j :: 0 <= i < j < |r| ==>
      MonthRank(r[i].key.0) < MonthRank(r[j].key.0)
      || (MonthRank(r[i].key.0) == MonthRank(r[j].key.0) && r[i].key.1 == Cash && r[j].key.1 == Online)
  {
    forall i, j | 0 <= i < j < |r| && MonthRank(r[i].key.0) >= MonthRank(r[j].key.0)
      ensures MonthRank(r[i].key.0) == MonthRank(r[j].key.0) && r[i].key.1 == Cash && r[j].key.1 == Online
    {
      assert MonthFirst(r[i]) == MonthRank(r[i].key.0) && MonthFirst(r[j]) == MonthRank(r[j].key.0);
      assert ModeOrder(r[i]) <= ModeOrder(r[j]);
      assert r[i].key.0 == r[j].key.0;
    }
  }

  /** Two groups keyed by months of the rows whose months rank equal are
      keyed by the same month. */
  lemma MonthKeysApart<X>(rows: seq<Expense>, second: Expense -> X, r: seq<Group<(string, X)>>)
    requires KeySet(r) == (set i | 0 <= i < |rows| :: (MonthKey(rows[i].date), second(rows[i])))
    ensures forall i, j :: 0 <= i < |r| && 0 <= j < |r| && MonthRank(r[i].key.0) == MonthRank(r[j].key.0) ==>
      r[i].key.0 == r[j].key.0
  {
    forall i, j | 0 <= i < |r| && 0 <= j < |r| && MonthRank(r[i].key.0) == MonthRank(r[j].key.0)
      ensures r[i].key.0 == r[j].key.0
    {
      KeySetMembers(r, r[i].key);
      KeySetMembers(r, r[j].key);
      var a :| 0 <= a < |rows| && (MonthKey(rows[a].date), second(rows[a])) == r[i].key;
      var b :| 0 <= b < |rows| && (MonthKey(rows[b].date), second(rows[b])) == r[j].key;
      MonthRankOfKey(rows[a].date);
      MonthRankOfKey(rows[b].date);
      MonthKeySameMonth(rows[a].date, rows[b].date);
    }
  }

  /** A month's spending is its cash spending plus its online spending. */
  lemma MonthModesSplit(rows: seq<Expense>, d: ValidDate)
    ensures SumOf(Where(rows, InMonthWith(d, ModeOf, Cash)), Amount)
          + SumOf(Where(rows, InMonthWith(d, ModeOf, Online)), Amount)
         == SumOf(Where(rows, SameMonth(d)), Amount)
  {
    var inMonth := Where(rows, SameMonth(d));
    SumPartition(inMonth, KeyIs(ModeOf, Cash), Amount);
    WhereSplitsMonth(rows, d);
  }

  /** A month's rows paid in cash and those not paid in cash are its rows
      of each payment mode. */
  lemma WhereSplitsMonth(rows: seq<Expense>, d: ValidDate)
    ensures var inMonth := Where(rows, SameMonth(d));
      && Where(inMonth, KeyIs(ModeOf, Cash)) == Where(rows, InMonthWith(d, ModeOf, Cash))
      && Where(inMonth, Not(KeyIs(ModeOf, Cash))) == Where(rows, InMonthWith(d, ModeOf, Online))
  {
    forall e: Expense
      ensures InMonthWith(d, ModeOf, Online)(e) == (SameMonth(d)(e) && Not(KeyIs(ModeOf, Cash))(e))
    {
      assert KeyIs(ModeOf, Cash)(e) == (ModeOf(e) == Cash);
    }
    WhereBoth(rows, SameMonth(d), KeyIs(ModeOf, Cash), InMonthWith(d, ModeOf, Cash));
    WhereBoth(rows, SameMonth(d), Not(KeyIs(ModeOf, Cash)), InMonthWith(d, ModeOf, Online));
  }

  /** Filtering by `p` and then by `q` is filtering by their conjunction. */
  lemma {:induction false} WhereBoth(rows: seq<Expense>, p: Expense -> bool, q: Expense -> bool, both: Expense -> bool)
    requires forall e :: both(e) == (p(e) && q(e))
    ensures Where(Where(rows, p), q) == Where(rows, both)
  {
    if rows != [] {
      var init, last := rows[..|rows| - 1], rows[|rows| - 1];
      WhereBoth(init, p, q, both);
      var tail := if p(last) then [last] else [];
      WhereAppend(Where(init, p), tail, q);
      assert Where(tail, q) == if q(last) && p(last) then [last] else [] by {
        if p(last) {
          assert tail[..0] == [];
        }
      }
    }
  }

  lemma {:induction false} WhereAppend(a: seq<Expense>, b: seq<Expense>, p: Expense -> bool)
    ensures Where(a + b, p) == Where(a, p) + Where(b, p)
    decreases |b|
  {
    if b != [] {
      WhereAppend(a, b[..|b| - 1], p);
      assert (a + b)[..|a + b| - 1] == a + b[..|b| - 1];
    } else {
      assert a + b == a;
    }
  }

  /** Within a month the categories come in text order; each group is the
      month's spending in one category, and the groups add up to all
      spending. */
  lemma MonthlyCategorySpendingReport(rows: seq<Expense>, d: ValidDate, c: string)
    ensures var r := MonthlyCategorySpending(rows);
      && (forall i, j :: 0 <= i < j < |r| ==>
            MonthRank(r[i].key.0) < MonthRank(r[j].key.0)
            || (MonthRank(r[i].key.0) == MonthRank(r[j].key.0) && CategoryRank(r[i].key.1) <= CategoryRank(r[j].key.1)))
      && DistinctKeys(r)
      && TotalOf(r, (MonthKey(d), c)) == SumOf(Where(rows, InMonthWith(d, CategoryOf, c)), Amount)
      && SumOf(r, Total) == SumOf(rows, Amount)
  {
    MonthlyByReport(rows, CategoryOf, CategoryOrder, d, c);
  }

  // Recurring payments.

  /** The categories the ninth predefined query watches. */
  function RecurringCategories(): seq<string> {
    ["Bills", "Subscriptions", "Rent", "Insurance", "Utilities"]
  }

  /** `STRFTIME('%m', Date)`: the two-digit month number. */
  function MonthNumber(e: Expense): string { Pad2(e.date.month) }

  function CategoryAndMonthNumber(e: Expense): (string, string) { (e.category, MonthNumber(e)) }

  function ByCategory(g: Group<(string, string)>): int { CategoryRank(g.key.0) }

  /** `ORDER BY Month_Number`: the value of the two digits. */
  function ByMonthNumber(g: Group<(string, string)>): int {
    if AllDigits(g.key.1) then Number(g.key.1) else 0
  }

  /** `HAVING COUNT(*) > 1`. */
  function MoreThanOnce(g: Group<(string, string)>): bool { g.count > 1 }

  /** The ninth predefined query: in the watched categories, how many
      payments each category had in each month number across the years,
      for the pairs with more than one, by category and then month. */
  function RecurringPayments(rows: seq<Expense>): seq<Group<(string, string)>> {
    var watched := Where(rows, InCategories(RecurringCategories()));
    var having := Where(GroupBy(watched, CategoryAndMonthNumber, Amount), MoreThanOnce);
    SortBy(SortBy(having, ByMonthNumber), ByCategory)
  }

  function InCategoryMonth(c: string, m: int): Expense -> bool {
    (e: Expense) => e.category == c && e.date.month == m
  }

  /** A category and month are listed exactly when the watched rows hold
      more than one payment of that category in that month number, with
      that many as the count; the list is ordered by category, then month. */
  lemma RecurringPaymentsReport(rows: seq<Expense>, c: string, m: int)
    requires 1 <= m <= 12
    ensures var watched := Where(rows, InCategories(RecurringCategories()));
      var n := |Where(watched, InCategoryMonth(c, m))|;
      var r := RecurringPayments(rows);
      && SortedByThen(r, ByCategory, ByMonthNumber)
      && DistinctKeys(r)
      && ((c, Pad2(m)) in KeySet(r) <==> n > 1)
      && CountOf(r, (c, Pad2(m))) == (if n > 1 then n else 0)
  {
    var watched := Where(rows, InCategories(RecurringCategories()));
    var k := (c, Pad2(m));
    var groups := GroupBy(watched, CategoryAndMonthNumber, Amount);
    var having := Where(groups, MoreThanOnce);
    RecurringCount(watched, c, m);
    HavingCount(groups, k);
    RecurringOrder(having, k);
  }

  /** Each category and month number counts the rows of that category in
      that month. */
  lemma RecurringCount(watched: seq<Expense>, c: string, m: int)
    requires 1 <= m <= 12
    ensures DistinctKeys(GroupBy(watched, CategoryAndMonthNumber, Amount))
    ensures CountOf(GroupBy(watched, CategoryAndMonthNumber, Amount), (c, Pad2(m)))
      == |Where(watched, InCategoryMonth(c, m))|
  {
    var k := (c, Pad2(m));
    GroupByKeys(watched, CategoryAndMonthNumber, Amount);
    GroupByTotals(watched, CategoryAndMonthNumber, Amount, k);
    forall i | 0 <= i < |watched|
      ensures KeyIs(CategoryAndMonthNumber, k)(watched[i]) == InCategoryMonth(c, m)(watched[i])
    {
      Pad2RoundTrip(watched[i].date.month);
      Pad2RoundTrip(m);
    }
    WhereSame(watched, KeyIs(CategoryAndMonthNumber, k), InCategoryMonth(c, m));
  }

  /** `HAVING COUNT(*) > 1` keeps a key exactly when its count exceeds one. */
  lemma HavingCount(groups: seq<Group<(string, string)>>, k: (string, string))
    requires DistinctKeys(groups)
    ensures DistinctKeys(Where(groups, MoreThanOnce))
    ensures k in KeySet(Where(groups, MoreThanOnce)) <==> CountOf(groups, k) > 1
    ensures CountOf(Where(groups, MoreThanOnce), k) == if CountOf(groups, k) > 1 then CountOf(groups, k) else 0
  {
    var having := Where(groups, MoreThanOnce);
    Having(groups, MoreThanOnce, k);
    if k !in KeySet(groups) {
      CountOfAbsent(groups, k);
    }
    if k !in KeySet(having) {
      CountOfAbsent(having, k);
    }
  }

  /** Sorting by month number and then by category keeps the groups and
      yields the order category, month number. */
  lemma RecurringOrder(having: seq<Group<(string, string)>>, k: (string, string))
    requires DistinctKeys(having)
    ensures var r := SortBy(SortBy(having, ByMonthNumber), ByCategory);
      && SortedByThen(r, ByCategory, ByMonthNumber)
      && DistinctKeys(r)
      && KeySet(r) == KeySet(having)
      && CountOf(r, k) == CountOf(having, k)
  {
    var inner := SortBy(having, ByMonthNumber);
    SortGroups(having, ByMonthNumber, k);
    SortGroups(inner, ByCategory, k);
    SortBySorted(having, ByMonthNumber);
    SortByThen(inner, ByCategory, ByMonthNumber);
  }

  // Highest transaction per category.

  /** `MAX(Amount_Paid)`: the largest amount among the rows, NULL for none. */
  function HighestAmount(rows: seq<Expense>): (m: Option<int>)
    ensures m.None? <==> rows == []
    ensures m.Some? ==> exists i :: 0 <= i < |rows| && rows[i].amountPaid == m.value
    ensures m.Some? ==> forall i :: 0 <= i < |rows| ==> rows[i].amountPaid <= m.value
  {
    if rows == [] then None
    else
      var init := rows[..|rows| - 1];
      var rest, last := HighestAmount(init), rows[|rows| - 1].amountPaid;
      assert forall i :: 0 <= i < |init| ==> init[i] == rows[i];
      if rest.Some? && rest.value >= last then rest else Some(last)
  }

  function CategoryHighest(rows: seq<Expense>, c: string): Option<int> {
    HighestAmount(Where(rows, KeyIs(CategoryOf, c)))
  }

  /** `ORDER BY Highest_Transaction DESC`. */
  function HighestFirst(rows: seq<Expense>): Group<string> -> int {
    (g: Group<string>) => var m := CategoryHighest(rows, g.key); if m.Some? then -m.value else 0
  }

  /** The third insight query: each category with its largest single
      transaction, largest first. */
  function HighestByCategory(rows: seq<Expense>): seq<(string, Option<int>)> {
    var gs := SortBy(GroupBy(rows, CategoryOf, Amount), HighestFirst(rows));
    seq(|gs|, i requires 0 <= i < |gs| => (gs[i].key, CategoryHighest(rows, gs[i].key)))
  }

  /** `m` is the largest amount among the rows of category `c`: one of
      them has it and none exceeds it. */
  predicate IsHighestOf(rows: seq<Expense>, c: string, m: Option<int>) {
    && m.Some?
    && (exists t :: 0 <= t < |rows| && rows[t].category == c && rows[t].amountPaid == m.value)
    && (forall t :: 0 <= t < |rows| && rows[t].category == c ==> rows[t].amountPaid <= m.value)
  }

  /** A category present in the rows has a highest amount: one of its rows
      has it and none of its rows exceeds it. */
  lemma CategoryHighestIs(rows: seq<Expense>, c: string, k: int)
    requires 0 <= k < |rows| && rows[k].category == c
    ensures IsHighestOf(rows, c, CategoryHighest(rows, c))
  {
    var ofC := Where(rows, KeyIs(CategoryOf, c));
    var m := CategoryHighest(rows, c);
    assert KeyIs(CategoryOf, c)(rows[k]) == (CategoryOf(rows[k]) == c);
    WhereMembership(rows, KeyIs(CategoryOf, c), rows[k]);
    assert ofC != [];
    var u :| 0 <= u < |ofC| && ofC[u].amountPaid == m.value;
    WhereMembership(rows, KeyIs(CategoryOf, c), ofC[u]);
    var t :| 0 <= t < |rows| && rows[t] == ofC[u];
    assert KeyIs(CategoryOf, c)(ofC[u]) == (CategoryOf(ofC[u]) == c);
    forall t | 0 <= t < |rows| && rows[t].category == c
      ensures rows[t].amountPaid <= m.value
    {
      assert KeyIs(CategoryOf, c)(rows[t]) == (CategoryOf(rows[t]) == c);
      WhereMembership(rows, KeyIs(CategoryOf, c), rows[t]);
      var j :| 0 <= j < |ofC| && ofC[j] == rows[t];
    }
  }

  /** One entry per category present, each category once. */
  lemma HighestByCategoryKeys(rows: seq<Expense>)
    ensures var r := HighestByCategory(rows);
      && (forall i, j :: 0 <= i < j < |r| ==> r[i].0 != r[j].0)
      && (set i | 0 <= i < |r| :: r[i].0) == (set k | 0 <= k < |rows| :: rows[k].category)
  {
    var gs := SortBy(GroupBy(rows, CategoryOf, Amount), HighestFirst(rows));
    OrderedGroupBy(rows, CategoryOf, Amount, HighestFirst(rows), "");
    HighestByCategoryShape(rows);
    KeyedEntries(gs, HighestByCategory(rows));
  }

  /** Each entry holds its category's largest amount, largest first. */
  lemma HighestByCategoryValues(rows: seq<Expense>)
    ensures var r := HighestByCategory(rows);
      && (forall i :: 0 <= i < |r| ==> IsHighestOf(rows, r[i].0, r[i].1))
      && (forall i, j :: 0 <= i < j < |r| && r[i].1.Some? && r[j].1.Some? ==> r[i].1.value >= r[j].1.value)
  {
    var gs := SortBy(GroupBy(rows, CategoryOf, Amount), HighestFirst(rows));
    var r := HighestByCategory(rows);
    HighestGroups(rows);
    HighestByCategoryShape(rows);
    HighestEntries(rows, gs, r);
  }

  /** Entry `i` of the third insight query is group `i`'s category with
      its highest amount. */
  lemma HighestByCategoryShape(rows: seq<Expense>)
    ensures var gs := SortBy(GroupBy(rows, CategoryOf, Amount), HighestFirst(rows));
      var r := HighestByCategory(rows);
      && |r| == |gs|
      && forall i :: 0 <= i < |r| ==> r[i] == (gs[i].key, CategoryHighest(rows, gs[i].key))
  {
  }

  lemma HighestEntries(rows: seq<Expense>, gs: seq<Group<string>>, r: seq<(string, Option<int>)>)
    requires KeySet(gs) == (set k | 0 <= k < |rows| :: rows[k].category)
    requires SortedBy(gs, HighestFirst(rows))
    requires |r| == |gs| && forall i :: 0 <= i < |r| ==> r[i] == (gs[i].key, CategoryHighest(rows, gs[i].key))
    ensures forall i :: 0 <= i < |r| ==> IsHighestOf(rows, r[i].0, r[i].1)
    ensures forall i, j :: 0 <= i < j < |r| && r[i].1.Some? && r[j].1.Some? ==> r[i].1.value >= r[j].1.value
  {
    HighestValues(rows, gs, r);
    HighestOrder(rows, gs, r);
  }

  /** The groups behind the third insight query: one per category present,
      sorted largest first. */
  lemma HighestGroups(rows: seq<Expense>)
    ensures var gs := SortBy(GroupBy(rows, CategoryOf, Amount), HighestFirst(rows));
      && KeySet(gs) == (set k | 0 <= k < |rows| :: rows[k].category)
      && SortedBy(gs, HighestFirst(rows))
  {
    GroupByKeys(rows, CategoryOf, Amount);
    SortGroups(GroupBy(rows, CategoryOf, Amount), HighestFirst(rows), "");
    SortBySorted(GroupBy(rows, CategoryOf, Amount), HighestFirst(rows));
  }

  lemma HighestOrder(rows: seq<Expense>, gs: seq<Group<string>>, r: seq<(string, Option<int>)>)
    requires SortedBy(gs, HighestFirst(rows))
    requires |r| == |gs| && forall i :: 0 <= i < |r| ==> r[i] == (gs[i].key, CategoryHighest(rows, gs[i].key))
    ensures forall i, j :: 0 <= i < j < |r| && r[i].1.Some? && r[j].1.Some? ==> r[i].1.value >= r[j].1.value
  {
    forall i, j | 0 <= i < j < |r| && r[i].1.Some? && r[j].1.Some?
      ensures r[i].1.value >= r[j].1.value
    {
      assert HighestFirst(rows)(gs[i]) <= HighestFirst(rows)(gs[j]);
    }
  }

  /** Entries made one per group carry the groups' distinct keys. */
  lemma KeyedEntries<V>(gs: seq<Group<string>>, r: seq<(string, V)>)
    requires DistinctKeys(gs)
    requires |r| == |gs| && forall i :: 0 <= i < |r| ==> r[i].0 == gs[i].key
    ensures forall i, j :: 0 <= i < j < |r| ==> r[i].0 != r[j].0
    ensures (set i | 0 <= i < |r| :: r[i].0) == KeySet(gs)
  {
    DistinctKeysApart(gs);
    var keys := KeySet(gs);
    forall x | x in keys
      ensures x in (set i | 0 <= i < |r| :: r[i].0)
    {
      KeySetMembers(gs, x);
      var i :| 0 <= i < |gs| && gs[i].key == x;
      assert r[i].0 == x;
    }
    forall i | 0 <= i < |r|
      ensures r[i].0 in keys
    {
      KeySetMembers(gs, gs[i].key);
    }
  }

  lemma HighestValues(rows: seq<Expense>, gs: seq<Group<string>>, r: seq<(string, Option<int>)>)
    requires KeySet(gs) == (set k | 0 <= k < |rows| :: rows[k].category)
    requires |r| == |gs| && forall i :: 0 <= i < |r| ==> r[i] == (gs[i].key, CategoryHighest(rows, gs[i].key))
    ensures forall i :: 0 <= i < |r| ==> IsHighestOf(rows, r[i].0, r[i].1)
  {
    forall i | 0 <= i < |r|
      ensures IsHighestOf(rows, r[i].0, r[i].1)
    {
      KeySetMembers(gs, gs[i].key);
      var k :| 0 <= k < |rows| && rows[k].category == gs[i].key;
      CategoryHighestIs(rows, gs[i].key, k);
    }
  }

  // Travel costs.

  /** ASCII lower case, as SQLite's `LIKE` folds case. */
  function LowerCase(s: string): (r: string)
    ensures |r| == |s|
  {
    seq(|s|, i requires 0 <= i < |s| => if 'A' <= s[i] <= 'Z' then (s[i] as int + 32) as char else s[i])
  }

  /** `part` occurs in `text`: it starts `text` or occurs in its tail. */
  predicate Contains(text: string, part: string) {
    part <= text || (text != [] && Contains(text[1..], part))
  }

  /** `text LIKE '%part%'`. */
  predicate LikeInfix(text: string, part: string) {
    Contains(LowerCase(text), LowerCase(part))
  }

  function IsTravelLike(e: Expense): bool {
    LikeInfix(e.category, "Travel") || e.category == "Transportation"
  }

  /** The twelfth insight query: the mean amount per travel-related
      category. */
  function TravelCosts(rows: seq<Expense>): seq<(string, real)> {
    Averages(GroupBy(Where(rows, IsTravelLike), CategoryOf, Amount))
  }

  /** One entry per travel-related category present, with the mean of
      exactly its rows. */
  lemma TravelCostsReport(rows: seq<Expense>, c: string)
    ensures var travel := Where(rows, IsTravelLike);
      var r := TravelCosts(rows);
      && (forall i, j :: 0 <= i < j < |r| ==> r[i].0 != r[j].0)
      && (set i | 0 <= i < |r| :: r[i].0) == (set k | 0 <= k < |travel| :: travel[k].category)
      && forall i :: 0 <= i < |r| && r[i].0 == c ==>
           MeanOver(r[i].1, |Where(travel, KeyIs(CategoryOf, c))|, SumOf(Where(travel, KeyIs(CategoryOf, c)), Amount))
  {
    var travel := Where(rows, IsTravelLike);
    var gs := GroupBy(travel, CategoryOf, Amount);
    var ofC := Where(travel, KeyIs(CategoryOf, c));
    GroupByKeys(travel, CategoryOf, Amount);
    GroupByTotals(travel, CategoryOf, Amount, c);
    GroupByNonEmpty(travel, CategoryOf, Amount, Size);
    KeyedEntries(gs, TravelCosts(rows));
    AverageOfKey(gs, c, |ofC|, SumOf(ofC, Amount));
  }

  // Average cashback percentage.

  /** `WHERE Cashback > 0 AND Amount_Paid > 0`. */
  function Qualifies(e: Expense): bool { e.cashback > 0 && e.amountPaid > 0 }

  /** `Cashback * 100.0 / Amount_Paid` summed over rows with a positive
      amount. */
  function PercentSum(rows: seq<Expense>): real
    requires forall i :: 0 <= i < |rows| ==> rows[i].amountPaid > 0
  {
    if rows == [] then 0.0
    else
      var last := rows[|rows| - 1];
      PercentSum(rows[..|rows| - 1]) + last.cashback as real * 100.0 / last.amountPaid as real
  }

  /** The fifth insight query: the mean cashback percentage over the rows
      that earned cashback; NULL when there are none. */
  function AverageCashbackPercentage(rows: seq<Expense>): (r: Option<real>)
    ensures r.None? <==> forall i :: 0 <= i < |rows| ==> !Qualifies(rows[i])
  {
    var earned := Where(rows, Qualifies);
    if earned == [] then
      assert forall i :: 0 <= i < |rows| ==> !Qualifies(rows[i]) by {
        forall i | 0 <= i < |rows| ensures !Qualifies(rows[i]) {
          WhereMembership(rows, Qualifies, rows[i]);
        }
      }
      None
    else
      WhereMembership(rows, Qualifies, earned[0]);
      Some(PercentSum(earned) / |earned| as real)
  }

  /** A single percentage of a cashback no larger than its amount lies in
      `(0, 100]`. */
  lemma PercentBounds(cashback: int, amount: int)
    requires 0 < cashback <= amount
    ensures 0.0 < cashback as real * 100.0 / amount as real <= 100.0
  {
    var c, a, h := cashback as real * 100.0, amount as real, 100.0;
    assert c <= h * a;
    assert h - c / a == (h * a - c) / a;
  }

  lemma {:induction false} PercentSumBounds(rows: seq<Expense>)
    requires forall i :: 0 <= i < |rows| ==> 0 < rows[i].cashback <= rows[i].amountPaid
    ensures rows != [] ==> 0.0 < PercentSum(rows)
    ensures PercentSum(rows) <= 100.0 * |rows| as real
  {
    if rows != [] {
      var last := rows[|rows| - 1];
      PercentSumBounds(rows[..|rows| - 1]);
      PercentBounds(last.cashback, last.amountPaid);
    }
  }

  /** When no cashback exceeds its amount, as for every generated row, the
      mean percentage lies in `(0, 100]`. */
  lemma AverageCashbackPercentageBounds(rows: seq<Expense>)
    requires forall i :: 0 <= i < |rows| ==> rows[i].cashback <= rows[i].amountPaid
    ensures var r := AverageCashbackPercentage(rows);
      r.Some? ==> 0.0 < r.value <= 100.0
  {
    var earned := Where(rows, Qualifies);
    if earned != [] {
      forall i | 0 <= i < |earned|
        ensures 0 < earned[i].cashback <= earned[i].amountPaid
      {
        WhereMembership(rows, Qualifies, earned[i]);
      }
      PercentSumBounds(earned);
      ScaledRealBounds(PercentSum(earned), |earned|);
    }
  }

  /** `0 < s <= 100 n` gives `0 < s / n <= 100`. */
  lemma ScaledRealBounds(s: real, n: int)
    requires n > 0 && 0.0 < s <= 100.0 * n as real
    ensures 0.0 < s / n as real <= 100.0
  {
    var nr, h := n as real, 100.0;
    assert h - s / nr == (h * nr - s) / nr;
  }
}

/** The synthetic transaction generator `generate_expense_data`: it walks the
    calendar month by month from 1 January of the start year and emits zero
    to three transactions per day. Every random draw is modelled as a
    nondeterministic choice among its allowed outcomes; money is held in
    paise (hundredths of a rupee). */
module Generator {
  import opened Calendar
  import opened IsoDates
  import opened Optional

  datatype PaymentMode = Cash | Online

  /** One generated transaction, in the column order of the emitted table:
      date text, category, payment mode, description, amount paid and
      cashback, both amounts in paise. */
  datatype Row = Row(
    date: string,
    category: string,
    paymentMode: PaymentMode,
    description: string,
    amountPaid: int,
    cashback: int)

  function Categories(): seq<string> {
    [
      "Groceries", "Food & Dining", "Transportation", "Bills", "Subscriptions",
      "Personal Care", "Entertainment", "Shopping", "Health", "Education",
      "Travel", "Gifts", "Rent", "Utilities", "Insurance", "Miscellaneous"
    ]
  }

  /** Amount range per category, in whole rupees. */
  function CategoryAmountRanges(): map<string, (int, int)> {
    map[
      "Groceries" := (500, 3000),
      "Food & Dining" := (200, 1500),
      "Transportation" := (50, 1000),
      "Bills" := (1000, 8000),
      "Subscriptions" := (100, 500),
      "Personal Care" := (100, 700),
      "Entertainment" := (300, 1500),
      "Shopping" := (500, 5000),
      "Health" := (200, 2500),
      "Education" := (500, 10000),
      "Travel" := (1000, 15000),
      "Gifts" := (200, 2000),
      "Rent" := (5000, 30000),
      "Utilities" := (500, 2500),
      "Insurance" := (1000, 5000),
      "Miscellaneous" := (50, 1000)
    ]
  }

  /** The range used for a category missing from the table. */
  const FallbackRange := (50, 2000)

  /** Description phrases per category; "Miscellaneous" has none and gets a
      generated sentence instead. */
  function CategoryDescriptions(): map<string, seq<string>> {
    map[
      "Groceries" := ["Supermarket run", "Daily essentials", "Weekly groceries", "Vegetables & fruits"],
      "Food & Dining" := ["Restaurant dinner", "Cafe latte", "Lunch with colleagues", "Takeaway food", "Snacks"],
      "Transportation" := ["Bus fare", "Fuel refill", "Train ticket", "Cab ride", "Metro travel"],
      "Bills" := ["Electricity bill", "Internet bill", "Phone bill", "Water bill"],
      "Subscriptions" := ["Netflix subscription", "Spotify premium", "Gym membership", "Software license"],
      "Personal Care" := ["Haircut", "Salon visit", "Cosmetics", "Pharmacy purchase"],
      "Entertainment" := ["Movie tickets", "Concert entry", "Gaming purchase", "Books"],
      "Shopping" := ["Clothes shopping", "Electronics", "Home decor", "Online purchase"],
      "Health" := ["Doctor visit", "Medicines", "Health check-up"],
      "Education" := ["Course fees", "Books for study", "Tuition"],
      "Travel" := ["Flight ticket", "Hotel booking", "Local sight-seeing", "Travel insurance"],
      "Gifts" := ["Birthday gift", "Anniversary present", "Festival gift"],
      "Rent" := ["Monthly rent payment"],
      "Utilities" := ["Gas bill", "Sewage bill"],
      "Insurance" := ["Health insurance premium", "Vehicle insurance"]
    ]
  }

  /** The amount range of a category, in rupees, falling back to 50..2000
      for a category the table does not list. */
  function AmountRange(category: string): (r: (int, int))
    ensures 50 <= r.0 < r.1
    ensures category !in CategoryAmountRanges() ==> r == FallbackRange
  {
    if category in CategoryAmountRanges() then CategoryAmountRanges()[category] else FallbackRange
  }

  /** Rounding to a whole number of paise (`round(x, 2)` on rupees): the
      result is within half a paisa of `x`. */
  function RoundToPaise(x: real): (c: int)
    ensures x - 0.5 < c as real <= x + 0.5
  {
    (x + 0.5).Floor
  }

  /** `int(p * 100)`: the whole percentage, truncated. */
  function WholePercent(p: real): (n: int)
    requires IsCashbackRate(p)
    ensures 0 <= n <= 2
    ensures n as real <= p * 100.0 < n as real + 1.0
  {
    (p * 100.0).Floor
  }

  /** The note appended to the description of a cashback offer. */
  function OfferNote(n: int): string
    requires 0 <= n <= 9
  {
    " (with " + [Digit(n)] + "% cashback offer)"
  }

  /** `d` is one of the category's phrases, or anything at all for a
      category without phrases (a generated sentence). */
  predicate IsListedDescription(category: string, d: string) {
    category in CategoryDescriptions() ==> d in CategoryDescriptions()[category]
  }

  /** `d` is a listed description followed by the offer note for `n`%. */
  predicate HasOfferNote(category: string, d: string, n: int)
    requires 0 <= n <= 9
  {
    var note := OfferNote(n);
    |d| >= |note| && d[|d| - |note|..] == note && IsListedDescription(category, d[..|d| - |note|])
  }

  /** Cashback of a rate between 0.5% and 2% of the amount, to the nearest paisa. */
  predicate CashbackWithinRate(amountPaid: int, cashback: int) {
    amountPaid as real * 0.005 - 0.5 < cashback as real <= amountPaid as real * 0.02 + 0.5
  }

  /** The note's whole percentage `n` fits the cashback: at a rate whose
      whole percentage is `n`, rounding to the paisa can give `cashback`. */
  predicate NoteMatchesCashback(amountPaid: int, cashback: int, n: int) {
    n * amountPaid < 100 * cashback + 50 && 100 * cashback - 50 < (n + 1) * amountPaid
  }

  /** `d` carries the offer note for a whole percentage 0, 1 or 2 that fits
      the cashback. */
  predicate HasMatchingNote(category: string, d: string, amountPaid: int, cashback: int) {
    || (HasOfferNote(category, d, 0) && NoteMatchesCashback(amountPaid, cashback, 0))
    || (HasOfferNote(category, d, 1) && NoteMatchesCashback(amountPaid, cashback, 1))
    || (HasOfferNote(category, d, 2) && NoteMatchesCashback(amountPaid, cashback, 2))
  }

  /** A row on which the cashback branch did not run. */
  predicate IsPlainRow(r: Row) {
    r.cashback == 0 && IsListedDescription(r.category, r.description)
  }

  /** A row on which the cashback branch ran: an online payment, cashback at
      the drawn rate, and the note with that rate's whole percentage. */
  predicate IsOfferRow(r: Row) {
    && r.paymentMode == Online
    && CashbackWithinRate(r.amountPaid, r.cashback)
    && HasMatchingNote(r.category, r.description, r.amountPaid, r.cashback)
  }

  /** The rules every generated row obeys: a listed category, an amount in
      that category's range, and either no cashback or an online cashback
      offer. */
  predicate IsGeneratedRow(r: Row) {
    && r.category in Categories()
    && AmountRange(r.category).0 * 100 <= r.amountPaid <= AmountRange(r.category).1 * 100
    && (IsPlainRow(r) || IsOfferRow(r))
  }

  /** The range `random.uniform(0.005, 0.02)` draws the cashback rate from. */
  predicate IsCashbackRate(p: real) {
    0.005 <= p <= 0.02
  }

  lemma CashbackAtRate(amountPaid: int, rate: real)
    requires amountPaid >= 0 && IsCashbackRate(rate)
    ensures CashbackWithinRate(amountPaid, RoundToPaise(amountPaid as real * rate))
  {
    var a := amountPaid as real;
    ProductNonNegative(a, rate - 0.005);
    ProductNonNegative(a, 0.02 - rate);
    assert a * rate - a * 0.005 == a * (rate - 0.005);
    assert a * 0.02 - a * rate == a * (0.02 - rate);
  }

  lemma ProductNonNegative(x: real, y: real)
    requires x >= 0.0 && y >= 0.0
    ensures x * y >= 0.0
  {
  }

  /** One drawn rate sets both the cashback and the note's percentage, so
      the two fit each other. */
  lemma CashbackMatchesNote(amountPaid: int, rate: real)
    requires amountPaid >= 0 && IsCashbackRate(rate)
    ensures NoteMatchesCashback(amountPaid, RoundToPaise(amountPaid as real * rate), WholePercent(rate))
  {
    var n := WholePercent(rate);
    var x := amountPaid as real * rate;
    PercentBelow(amountPaid, rate, n);
    if amountPaid > 0 {
      PercentAbove(amountPaid, rate, n);
    }
    var c := RoundToPaise(x);
    assert x - 0.5 < c as real <= x + 0.5;
  }

  /** `n <= 100 p` scales to `n a <= 100 (a p)` for an amount `a >= 0`. */
  lemma PercentBelow(amountPaid: int, rate: real, n: int)
    requires amountPaid >= 0 && n as real <= rate * 100.0
    ensures (n * amountPaid) as real <= 100.0 * (amountPaid as real * rate)
  {
    var a := amountPaid as real;
    ProductNonNegative(a, rate * 100.0 - n as real);
    assert a * (rate * 100.0 - n as real) == 100.0 * (a * rate) - n as real * a;
  }

  /** `100 p < n + 1` scales to `100 (a p) < (n + 1) a` for an amount `a > 0`. */
  lemma PercentAbove(amountPaid: int, rate: real, n: int)
    requires amountPaid > 0 && rate * 100.0 < n as real + 1.0
    ensures 100.0 * (amountPaid as real * rate) < ((n + 1) * amountPaid) as real
  {
    var a := amountPaid as real;
    ProductPositive(a, n as real + 1.0 - rate * 100.0);
    assert a * (n as real + 1.0 - rate * 100.0) == (n as real + 1.0) * a - 100.0 * (a * rate);
  }

  lemma ProductPositive(x: real, y: real)
    requires x > 0.0 && y > 0.0
    ensures x * y > 0.0
  {
  }

  /** `random.choice(description_list)`: one of the category's phrases, or
      a generated sentence (any text) for a category without phrases. */
  method DrawDescription(category: string) returns (description: string)
    ensures IsListedDescription(category, description)
  {
    if category in CategoryDescriptions() {
      var phrases := CategoryDescriptions()[category];
      var j :| 0 <= j < |phrases|;
      description := phrases[j];
    } else {
      description :| true;
    }
  }

  /** The cashback offer: a rate drawn from 0.5%..2%, the cashback at that
      rate rounded to the paisa, and the offer note appended to the text. */
  method ApplyOffer(amountPaid: int, description: string, ghost category: string)
    returns (cashback: int, noted: string)
    requires amountPaid >= 0 && IsListedDescription(category, description)
    ensures exists rate ::
              && IsCashbackRate(rate)
              && cashback == RoundToPaise(amountPaid as real * rate)
              && noted == description + OfferNote(WholePercent(rate))
    ensures CashbackWithinRate(amountPaid, cashback)
    ensures HasMatchingNote(category, noted, amountPaid, cashback)
  {
    assert IsCashbackRate(0.01);
    var rate: real :| IsCashbackRate(rate);
    cashback := RoundToPaise(amountPaid as real * rate);
    noted := description + OfferNote(WholePercent(rate));
    OfferAtRate(category, description, amountPaid, rate);
  }

  /** The cashback and the noted description that one rate gives. */
  lemma OfferAtRate(category: string, description: string, amountPaid: int, rate: real)
    requires amountPaid >= 0 && IsListedDescription(category, description) && IsCashbackRate(rate)
    ensures var cashback := RoundToPaise(amountPaid as real * rate);
      && CashbackWithinRate(amountPaid, cashback)
      && HasMatchingNote(category, description + OfferNote(WholePercent(rate)), amountPaid, cashback)
  {
    var cashback := RoundToPaise(amountPaid as real * rate);
    var n := WholePercent(rate);
    CashbackAtRate(amountPaid, rate);
    CashbackMatchesNote(amountPaid, rate);
    NoteAppended(category, description, n);
    MatchingNote(category, description + OfferNote(n), amountPaid, cashback, n);
  }

  lemma MatchingNote(category: string, d: string, amountPaid: int, cashback: int, n: int)
    requires 0 <= n <= 2 && HasOfferNote(category, d, n) && NoteMatchesCashback(amountPaid, cashback, n)
    ensures HasMatchingNote(category, d, amountPaid, cashback)
  {
  }

  lemma NoteAppended(category: string, description: string, n: int)
    requires 0 <= n <= 9 && IsListedDescription(category, description)
    ensures HasOfferNote(category, description + OfferNote(n), n)
  {
    var note := OfferNote(n);
    var noted := description + note;
    assert noted[..|noted| - |note|] == description;
    assert noted[|noted| - |note|..] == note;
  }

  /** A "0%" note cannot come with 2% cashback: a rate whose whole
      percentage is 0 is below 1%. */
  lemma ZeroPercentNoteWithTwoPercentCashback()
    ensures !IsGeneratedRow(Row("2024-01-01", "Personal Care", Online, "Haircut" + OfferNote(0), 70000, 1400))
  {
    var d := "Haircut" + OfferNote(0);
    var note1, note2 := OfferNote(1), OfferNote(2);
    assert d[|d| - |note1|..][7] != note1[7];
    assert d[|d| - |note2|..][7] != note2[7];
  }

  /** Builds one transaction of day `date` (the body of the innermost loop). */
  method NewTransaction(date: Date) returns (row: Row)
    requires IsValid(date)
    ensures row.date == IsoDate(date)
    ensures IsGeneratedRow(row)
  {
    var i :| 0 <= i < |Categories()|;
    var category := Categories()[i];
    var paymentMode: PaymentMode :| true;
    var (minAmount, maxAmount) := AmountRange(category);
    var amountPaid :| minAmount * 100 <= amountPaid <= maxAmount * 100;
    var description := DrawDescription(category);
    var cashback := 0;
    var offered: bool :| true;
    if paymentMode == Online && offered {
      cashback, description := ApplyOffer(amountPaid, description, category);
    }
    row := Row(IsoDate(date), category, paymentMode, description, amountPaid, cashback);
  }

  /** Number of iterations of `range(num_months)`. */
  function MonthCount(numMonths: int): nat {
    if numMonths < 0 then 0 else numMonths
  }

  function Sum(c: seq<nat>): nat {
    if c == [] then 0 else Sum(c[..|c| - 1]) + c[|c| - 1]
  }

  /** For per-day transaction counts `counts`, the day index of each emitted
      row in emission order: `counts[0]` copies of 0, then `counts[1]` copies
      of 1, and so on. */
  function DayIndices(counts: seq<nat>): (r: seq<nat>)
    ensures forall j :: 0 <= j < |r| ==> r[j] < |counts|
  {
    if counts == [] then []
    else DayIndices(counts[..|counts| - 1]) + seq(counts[|counts| - 1], _ => |counts| - 1)
  }

  /** `days_in_month`: the day number of the day before the first of the
      next month, with the year rolled over after December. It is the
      Gregorian length of `d`'s month. */
  function MonthLength(d: Date): (n: int)
    requires IsValid(d) && d.day == 1 && IsValid(NextMonthFirst(d))
    ensures n == DaysInMonth(d.year, d.month)
  {
    var next := if d.month < 12 then Date(d.year, d.month % 12 + 1, 1) else Date(d.year + 1, 1, 1);
    assert next == NextMonthFirst(d);
    NextMonthFollowsLastDay(d);
    OrdinalOrder(DayBefore(next), Date(d.year, d.month, DaysInMonth(d.year, d.month)));
    DayBefore(next).day
  }

  /** The rows emitted so far match the days visited so far, day by day:
      the last day drew `counts[|counts| - 1]` transactions, the last that
      many rows carry its date and obey the generation rules, and the rows
      before them match the days before it. */
  ghost predicate RowsFollowDays(data: seq<Row>, days: seq<Date>, counts: seq<nat>)
    decreases |counts|
  {
    && |days| == |counts|
    && if counts == [] then data == []
       else
         var n, date := counts[|counts| - 1], days[|days| - 1];
         && n <= |data|
         && IsValid(date)
         && (forall j {:trigger data[j].date} :: |data| - n <= j < |data| ==> data[j].date == IsoDate(date))
         && (forall j {:trigger IsGeneratedRow(data[j])} :: |data| - n <= j < |data| ==> IsGeneratedRow(data[j]))
         && RowsFollowDays(data[..|data| - n], days[..|days| - 1], counts[..|counts| - 1])
  }

  /** `days` are valid dates on consecutive ordinals from `start` on. */
  ghost predicate ConsecutiveFrom(days: seq<Date>, start: int) {
    && (forall i :: 0 <= i < |days| ==> IsValid(days[i]))
    && (forall i {:trigger Ordinal(days[i])} :: 0 <= i < |days| ==> Ordinal(days[i]) == start + i)
  }

  lemma ConsecutiveAppend(days: seq<Date>, start: int, date: Date)
    requires ConsecutiveFrom(days, start) && IsValid(date) && Ordinal(date) == start + |days|
    ensures ConsecutiveFrom(days + [date], start)
  {
    var days' := days + [date];
    forall i | 0 <= i < |days'|
      ensures IsValid(days'[i]) && Ordinal(days'[i]) == start + i
    {
      if i < |days| {
        assert days'[i] == days[i];
        assert Ordinal(days[i]) == start + i;
      }
    }
  }

  lemma DayIndicesAppend(counts: seq<nat>, n: nat)
    ensures DayIndices(counts + [n]) == DayIndices(counts) + seq(n, _ => |counts|)
  {
    assert (counts + [n])[..|counts|] == counts;
  }

  /** Appending one day's rows keeps the rows in step with the days. */
  lemma AppendDay(data: seq<Row>, days: seq<Date>, counts: seq<nat>, date: Date, rows: seq<Row>)
    requires RowsFollowDays(data, days, counts) && IsValid(date)
    requires forall j :: 0 <= j < |rows| ==> rows[j].date == IsoDate(date) && IsGeneratedRow(rows[j])
    ensures RowsFollowDays(data + rows, days + [date], counts + [|rows|])
  {
    var data', days', counts' := data + rows, days + [date], counts + [|rows|];
    assert data'[..|data'| - |rows|] == data;
    assert days'[..|days'| - 1] == days;
    assert counts'[..|counts'| - 1] == counts;
    forall j | |data'| - |rows| <= j < |data'|
      ensures data'[j].date == IsoDate(date) && IsGeneratedRow(data'[j])
    {
      assert data'[j] == rows[j - |data|];
    }
  }

  /** The rows in the order the generator emits them, read against the
      days: row `j` belongs to day `DayIndices(counts)[j]`, carries its date
      and obeys the generation rules, and there are `Sum(counts)` rows. */
  lemma {:induction false} RowsOfDays(data: seq<Row>, days: seq<Date>, counts: seq<nat>)
    requires RowsFollowDays(data, days, counts)
    ensures |data| == |DayIndices(counts)| == Sum(counts)
    ensures forall i :: 0 <= i < |days| ==> IsValid(days[i])
    ensures forall j :: 0 <= j < |data| ==>
      data[j].date == IsoDate(days[DayIndices(counts)[j]]) && IsGeneratedRow(data[j])
    decreases |counts|
  {
    if counts != [] {
      var n, date := counts[|counts| - 1], days[|days| - 1];
      var data0, days0, counts0 := data[..|data| - n], days[..|days| - 1], counts[..|counts| - 1];
      RowsOfDays(data0, days0, counts0);
      assert counts == counts0 + [n];
      DayIndicesAppend(counts0, n);
      var idx := DayIndices(counts);
      forall i | 0 <= i < |days|
        ensures IsValid(days[i])
      {
        if i < |days0| {
          assert days[i] == days0[i];
        }
      }
      forall j | 0 <= j < |data|
        ensures data[j].date == IsoDate(days[idx[j]]) && IsGeneratedRow(data[j])
      {
        if j < |data0| {
          assert data[j] == data0[j] && idx[j] == DayIndices(counts0)[j];
          assert days[idx[j]] == days0[idx[j]];
        } else {
          assert idx[j] == |counts0|;
        }
      }
    }
  }

  /** `for _ in range(num_transactions)`: the transactions of one day. */
  method DayTransactions(date: Date, numTransactions: nat) returns (rows: seq<Row>)
    requires IsValid(date)
    ensures |rows| == numTransactions
    ensures forall j :: 0 <= j < |rows| ==> rows[j].date == IsoDate(date) && IsGeneratedRow(rows[j])
  {
    rows := [];
    var t := 0;
    while t < numTransactions
      invariant 0 <= t <= numTransactions && |rows| == t
      invariant forall j :: 0 <= j < |rows| ==> rows[j].date == IsoDate(date) && IsGeneratedRow(rows[j])
    {
      var row := NewTransaction(date);
      rows := rows + [row];
      t := t + 1;
    }
  }

  /** No day drew more than three transactions. */
  ghost predicate AtMostThreeADay(counts: seq<nat>) {
    forall i :: 0 <= i < |counts| ==> counts[i] <= 3
  }

  /** `for day in range(1, days_in_month + 1)`: the days of the month that
      starts on `monthStart`, each with its zero to three transactions,
      appended to the rows, days and counts gathered so far. */
  method GenerateMonth(monthStart: Date, daysInMonth: int, ghost start: int,
                       data: seq<Row>, ghost days: seq<Date>, ghost counts: seq<nat>)
    returns (data': seq<Row>, ghost days': seq<Date>, ghost counts': seq<nat>)
    requires IsValid(monthStart) && monthStart.day == 1
    requires daysInMonth == DaysInMonth(monthStart.year, monthStart.month)
    requires Ordinal(monthStart) == start + |days|
    requires ConsecutiveFrom(days, start) && AtMostThreeADay(counts)
    requires RowsFollowDays(data, days, counts)
    ensures |days'| == |days| + daysInMonth
    ensures |data'| >= |data| && data'[..|data|] == data
    ensures days'[..|days|] == days && |counts'| >= |counts| && counts'[..|counts|] == counts
    ensures ConsecutiveFrom(days', start) && AtMostThreeADay(counts')
    ensures RowsFollowDays(data', days', counts')
  {
    data', days', counts' := data, days, counts;
    var day := 1;
    while day <= daysInMonth
      invariant 1 <= day <= daysInMonth + 1
      invariant |days'| == |days| + day - 1
      invariant |data'| >= |data| && data'[..|data|] == data
      invariant days'[..|days|] == days && |counts'| >= |counts| && counts'[..|counts|] == counts
      invariant ConsecutiveFrom(days', start) && AtMostThreeADay(counts')
      invariant RowsFollowDays(data', days', counts')
    {
      var date := monthStart.(day := day);
      assert Ordinal(date) == start + |days'|;
      var numTransactions :| 0 <= numTransactions <= 3;
      var rows := DayTransactions(date, numTransactions);
      AppendDay(data', days', counts', date, rows);
      ConsecutiveAppend(days', start, date);
      data', days', counts' := data' + rows, days' + [date], counts' + [numTransactions];
      day := day + 1;
    }
  }

  /** One iteration of `for _ in range(num_months)`: the month's length, its
      days, and the move of `current_date` to the first of the next month. */
  method GenerateMonthAt(currentDate: Date, ghost start: int,
                         data: seq<Row>, ghost days: seq<Date>, ghost counts: seq<nat>)
    returns (nextDate: Date, data': seq<Row>, ghost days': seq<Date>, ghost counts': seq<nat>)
    requires IsValid(currentDate) && currentDate.day == 1 && IsValid(NextMonthFirst(currentDate))
    requires Ordinal(currentDate) == start + |days|
    requires ConsecutiveFrom(days, start) && AtMostThreeADay(counts)
    requires RowsFollowDays(data, days, counts)
    ensures nextDate == NextMonthFirst(currentDate)
    ensures |days'| == |days| + DaysInMonth(currentDate.year, currentDate.month)
    ensures Ordinal(nextDate) == start + |days'|
    ensures |data'| >= |data| && data'[..|data|] == data
    ensures days'[..|days|] == days && |counts'| >= |counts| && counts'[..|counts|] == counts
    ensures ConsecutiveFrom(days', start) && AtMostThreeADay(counts')
    ensures RowsFollowDays(data', days', counts')
  {
    var daysInMonth := MonthLength(currentDate);
    data', days', counts' := GenerateMonth(currentDate, daysInMonth, start, data, days, counts);
    PlusMonthLength(currentDate);
    nextDate := PlusDays(currentDate.(day := 1), daysInMonth);
  }

  /** What one more month of the walk adds: the next month's first day is
      valid and the window grows by the month's length. */
  lemma MonthStep(startYear: int, m: nat)
    requires MinYear <= startYear && startYear + (m + 1) / 12 <= MaxYear
    ensures var d := MonthsLater(Date(startYear, 1, 1), m);
      && IsValid(NextMonthFirst(d))
      && NextMonthFirst(d) == MonthsLater(Date(startYear, 1, 1), m + 1)
      && WindowLength(startYear, m + 1) == WindowLength(startYear, m) + DaysInMonth(d.year, d.month)
  {
    MonthsLaterValid(startYear, m + 1);
  }

  /** The state of `generate_expense_data` after its first `m` months:
      `currentDate` is the first of the next month, the days visited so far
      are the window's consecutive dates, and the rows follow them. */
  ghost predicate MonthsDone(startYear: int, m: nat, currentDate: Date,
                             data: seq<Row>, days: seq<Date>, counts: seq<nat>)
  {
    && MinYear <= startYear <= MaxYear
    && currentDate == MonthsLater(Date(startYear, 1, 1), m) && IsValid(currentDate)
    && |days| == WindowLength(startYear, m)
    && Ordinal(currentDate) == Ordinal(Date(startYear, 1, 1)) + |days|
    && ConsecutiveFrom(days, Ordinal(Date(startYear, 1, 1)))
    && AtMostThreeADay(counts)
    && RowsFollowDays(data, days, counts)
  }

  /** One more month of the walk, as the state after `m` months. */
  method NextMonth(ghost startYear: int, ghost m: nat, currentDate: Date,
                   data: seq<Row>, ghost days: seq<Date>, ghost counts: seq<nat>)
    returns (nextDate: Date, data': seq<Row>, ghost days': seq<Date>, ghost counts': seq<nat>)
    requires MonthsDone(startYear, m, currentDate, data, days, counts)
    requires startYear + (m + 1) / 12 <= MaxYear
    ensures MonthsDone(startYear, m + 1, nextDate, data', days', counts')
  {
    MonthStep(startYear, m);
    nextDate, data', days', counts' :=
      GenerateMonthAt(currentDate, Ordinal(Date(startYear, 1, 1)), data, days, counts);
  }

  /** `generate_expense_data(num_months, start_year)`. Besides the rows it
      returns, as ghost results, the days it visited in order and the number
      of transactions it drew for each. */
  method GenerateExpenseData(numMonths: int, startYear: int)
    returns (data: seq<Row>, ghost days: seq<Date>, ghost counts: seq<nat>)
    requires MinYear <= startYear && startYear + MonthCount(numMonths) / 12 <= MaxYear
    ensures |days| == WindowLength(startYear, MonthCount(numMonths))
    ensures ConsecutiveFrom(days, Ordinal(Date(startYear, 1, 1)))
    ensures AtMostThreeADay(counts)
    ensures RowsFollowDays(data, days, counts)
    ensures |data| == Sum(counts) <= 3 * |days|
    ensures |data| <= 3 * WindowLength(startYear, MonthCount(numMonths))
    ensures forall j :: 0 <= j < |data| ==> IsGeneratedRow(data[j])
    ensures forall j :: 0 <= j < |data| ==> ParseIsoDate(data[j].date).Some?
    ensures forall j, k :: 0 <= j <= k < |data| ==>
      !Before(ParseIsoDate(data[k].date).value, ParseIsoDate(data[j].date).value)
  {
    var currentDate := Date(startYear, 1, 1);
    data, days, counts := [], [], [];
    var m := 0;
    while m < numMonths
      invariant 0 <= m <= MonthCount(numMonths)
      invariant MonthsDone(startYear, m, currentDate, data, days, counts)
    {
      assert (m + 1) / 12 <= MonthCount(numMonths) / 12;
      currentDate, data, days, counts := NextMonth(startYear, m, currentDate, data, days, counts);
      m := m + 1;
    }
    assert m == MonthCount(numMonths);
    DoneRows(startYear, m, currentDate, data, days, counts);
  }

  /** What the state after the last month says about the rows and days. */
  lemma DoneRows(startYear: int, m: nat, currentDate: Date,
                 data: seq<Row>, days: seq<Date>, counts: seq<nat>)
    requires MonthsDone(startYear, m, currentDate, data, days, counts)
    ensures |days| == WindowLength(startYear, m)
    ensures ConsecutiveFrom(days, Ordinal(Date(startYear, 1, 1)))
    ensures AtMostThreeADay(counts)
    ensures RowsFollowDays(data, days, counts)
    ensures |data| == Sum(counts) <= 3 * |days|
    ensures |data| <= 3 * WindowLength(startYear, m)
    ensures forall j :: 0 <= j < |data| ==> IsGeneratedRow(data[j])
    ensures forall j :: 0 <= j < |data| ==> ParseIsoDate(data[j].date).Some?
    ensures forall j, k :: 0 <= j <= k < |data| ==>
      !Before(ParseIsoDate(data[k].date).value, ParseIsoDate(data[j].date).value)
  {
    RowsOfDays(data, days, counts);
    SumBound(counts);
    DatesInOrder(data, days, counts, Ordinal(Date(startYear, 1, 1)));
  }

  /** With at most three transactions a day there are at most three rows per day. */
  lemma {:induction false} SumBound(counts: seq<nat>)
    requires AtMostThreeADay(counts)
    ensures Sum(counts) <= 3 * |counts|
  {
    if counts != [] {
      SumBound(counts[..|counts| - 1]);
    }
  }

  /** Rows come out day by day: the day index never decreases along the rows. */
  lemma {:induction false} DayIndicesSorted(counts: seq<nat>)
    ensures forall j, k :: 0 <= j <= k < |DayIndices(counts)| ==>
      DayIndices(counts)[j] <= DayIndices(counts)[k]
  {
    if counts != [] {
      var init := counts[..|counts| - 1];
      DayIndicesSorted(init);
      var r := DayIndices(counts);
      var p := DayIndices(init);
      forall j, k | 0 <= j <= k < |r|
        ensures r[j] <= r[k]
      {
        if k >= |p| {
          assert r[k] == |counts| - 1;
        } else {
          assert r[j] == p[j] && r[k] == p[k];
        }
      }
    }
  }

  /** The emitted dates never go backwards: every row's date text parses,
      and a later row's date is never before an earlier row's. */
  lemma DatesInOrder(data: seq<Row>, days: seq<Date>, counts: seq<nat>, start: int)
    requires RowsFollowDays(data, days, counts) && ConsecutiveFrom(days, start)
    ensures forall j :: 0 <= j < |data| ==> ParseIsoDate(data[j].date).Some?
    ensures forall j, k :: 0 <= j <= k < |data| ==>
      !Before(ParseIsoDate(data[k].date).value, ParseIsoDate(data[j].date).value)
  {
    RowsOfDays(data, days, counts);
    DayIndicesSorted(counts);
    var idx := DayIndices(counts);
    forall j | 0 <= j < |data|
      ensures ParseIsoDate(data[j].date) == Some(days[idx[j]])
    {
      ParseFormatted(days[idx[j]]);
    }
    forall j, k | 0 <= j <= k < |data|
      ensures !Before(days[idx[k]], days[idx[j]])
    {
      OrdinalOrder(days[idx[k]], days[idx[j]]);
    }
  }

  lemma {:induction false} ConstantCount<T>(n: nat, v: T, x: T)
    ensures multiset(seq(n, _ => v))[x] == if x == v then n else 0
  {
    if n > 0 {
      assert seq(n, _ => v) == seq(n - 1, _ => v) + [v];
      ConstantCount(n - 1, v, x);
    }
  }

  /** Day `i` contributes exactly `counts[i]` rows; in particular a day that
      drew no transactions has no row. */
  lemma {:induction false} DayIndicesCount(counts: seq<nat>, i: nat)
    ensures multiset(DayIndices(counts))[i] == if i < |counts| then counts[i] else 0
  {
    if counts != [] {
      var init := counts[..|counts| - 1];
      DayIndicesCount(init, i);
      ConstantCount(counts[|counts| - 1], |counts| - 1, i);
      assert DayIndices(counts) == DayIndices(init) + seq(counts[|counts| - 1], _ => |counts| - 1);
    }
  }

  /** The first of the month `k` months after the start lies exactly the
      first `k` months' length after 1 January of the start year. */
  lemma {:induction false} WindowEnd(startYear: int, k: nat)
    requires MinYear <= startYear && startYear + k / 12 <= MaxYear
    ensures IsValid(MonthsLater(Date(startYear, 1, 1), k))
    ensures Ordinal(MonthsLater(Date(startYear, 1, 1), k)) == Ordinal(Date(startYear, 1, 1)) + WindowLength(startYear, k)
  {
    MonthsLaterValid(startYear, k);
    if k > 0 {
      var start := Date(startYear, 1, 1);
      var prev := MonthsLater(start, k - 1);
      assert (k - 1) / 12 <= k / 12;
      assert MonthsLater(start, k) == NextMonthFirst(prev);
      assert WindowLength(startYear, k) == WindowLength(startYear, k - 1) + DaysInMonth(prev.year, prev.month);
      WindowEnd(startYear, k - 1);
      PlusMonthLength(prev);
    }
  }

  /** The days visited are exactly the dates from 1 January of the start
      year up to, but not including, the first of the month `numMonths`
      months later, each visited once. */
  lemma VisitsWindow(days: seq<Date>, startYear: int, numMonths: nat)
    requires MinYear <= startYear && startYear + numMonths / 12 <= MaxYear
    requires |days| == WindowLength(startYear, numMonths)
    requires ConsecutiveFrom(days, Ordinal(Date(startYear, 1, 1)))
    ensures forall d :: IsValid(d) ==>
      (d in days <==> !Before(d, Date(startYear, 1, 1)) && Before(d, MonthsLater(Date(startYear, 1, 1), numMonths)))
    ensures forall i, j :: 0 <= i < j < |days| ==> days[i] != days[j]
  {
    var first, end := Date(startYear, 1, 1), MonthsLater(Date(startYear, 1, 1), numMonths);
    WindowEnd(startYear, numMonths);
    forall d | IsValid(d)
      ensures d in days <==> !Before(d, first) && Before(d, end)
    {
      OrdinalOrder(d, first);
      OrdinalOrder(d, end);
      if d in days {
        var i :| 0 <= i < |days| && days[i] == d;
        assert Ordinal(days[i]) == Ordinal(first) + i;
      }
      if !Before(d, first) && Before(d, end) {
        var i := Ordinal(d) - Ordinal(first);
        assert Ordinal(days[i]) == Ordinal(first) + i;
        OrdinalOrder(days[i], d);
      }
    }
    forall i, j | 0 <= i < j < |days|
      ensures days[i] != days[j]
    {
      assert Ordinal(days[i]) == Ordinal(first) + i;
      assert Ordinal(days[j]) == Ordinal(first) + j;
    }
  }

  /** Cashback facts of every generated row: it is never negative and never
      exceeds the amount, and it is positive exactly on the online offer rows. */
  lemma GeneratedRowCashback(r: Row)
    requires IsGeneratedRow(r)
    ensures 0 <= r.cashback <= r.amountPaid
    ensures r.cashback > 0 <==> IsOfferRow(r)
    ensures r.cashback > 0 ==> r.paymentMode == Online
  {
    assert r.amountPaid >= 5000;
  }
}

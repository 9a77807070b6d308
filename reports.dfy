/** The two read-only commands, `list` and `summary`. Each reads the expenses file
    afresh: what the read gave decides between "no records", a read error and the
    computation over the parsed records. */
module Reports {
  import opened Wrappers
  import opened JsText
  import opened Expenses

  datatype ListOutcome = NoExpenses | ListReadError | Listing(rows: seq<Expense>)

  /** `list` over parsed records: the records as stored, or "no expenses" for an empty list. */
  function List(records: seq<Expense>): (r: ListOutcome)
    ensures r.NoExpenses? <==> |records| == 0
    ensures r.Listing? ==> r.rows == records
    ensures !r.ListReadError?
  {
    if |records| == 0 then NoExpenses else Listing(records)
  }

  /** `list` as the command runs it: no file gives "no expenses", a file that cannot be
      parsed gives the read error of the `catch`, and otherwise `List` decides. */
  function ListCommand(input: LoadInput): (r: ListOutcome)
    ensures r.ListReadError? <==> input.Unparsable?
    ensures r.NoExpenses? <==> input.NoFile? || (input.Parsed? && |input.items| == 0)
    ensures r.Listing? ==> input.Parsed? && r.rows == input.items
  {
    match input
    case NoFile => NoExpenses
    case Unparsable => ListReadError
    case Parsed(items) => List(items)
  }

  /** The sum of the amounts that `reduce((sum, e) => sum + e.amount, 0)` computes. The
      source adds from the first record to the last; `TotalOfPrefix` shows that this
      definition, which peels off the first record, reaches the same sum. */
  function Total(s: seq<Expense>): int {
    if |s| == 0 then 0 else s[0].amount + Total(s[1..])
  }

  lemma {:induction false} TotalAppend(a: seq<Expense>, b: seq<Expense>)
    ensures Total(a + b) == Total(a) + Total(b)
  {
    if |a| == 0 {
      assert a + b == b;
    } else {
      assert (a + b)[1..] == a[1..] + b;
      TotalAppend(a[1..], b);
    }
  }

  /** The step of the `reduce`: the running sum of the records before the last, plus the
      last amount. */
  lemma TotalOfPrefix(s: seq<Expense>)
    requires |s| > 0
    ensures Total(s) == Total(s[..|s| - 1]) + s[|s| - 1].amount
  {
    var last := [s[|s| - 1]];
    assert s == s[..|s| - 1] + last;
    TotalAppend(s[..|s| - 1], last);
  }

  predicate InMonthOf(e: Expense, month: int) {
    MonthOf(e.date) == Some(month)
  }

  /** The `filter` of `summary`: the records dated in `month`, in their stored order. */
  function InMonth(s: seq<Expense>, month: int): (r: seq<Expense>)
    ensures |r| <= |s|
    ensures forall i :: 0 <= i < |r| ==> InMonthOf(r[i], month)
  {
    if |s| == 0 then []
    else (if InMonthOf(s[0], month) then [s[0]] else []) + InMonth(s[1..], month)
  }

  /** The filter keeps a record exactly when it is in the list and dated in the month. */
  lemma {:induction false} InMonthMembership(s: seq<Expense>, month: int, e: Expense)
    ensures e in InMonth(s, month) <==> e in s && InMonthOf(e, month)
  {
    if |s| > 0 {
      InMonthMembership(s[1..], month, e);
      assert s == [s[0]] + s[1..];
    }
  }

  /** Filtering a concatenation filters each part and keeps them in order. */
  lemma {:induction false} InMonthAppend(a: seq<Expense>, b: seq<Expense>, month: int)
    ensures InMonth(a + b, month) == InMonth(a, month) + InMonth(b, month)
  {
    if |a| == 0 {
      assert a + b == b;
    } else {
      assert (a + b)[1..] == a[1..] + b;
      InMonthAppend(a[1..], b, month);
    }
  }

  /** A list whose records are all dated in the month passes the filter unchanged. */
  lemma {:induction false} InMonthKeepsAll(s: seq<Expense>, month: int)
    requires forall i :: 0 <= i < |s| ==> InMonthOf(s[i], month)
    ensures InMonth(s, month) == s
  {
    if |s| > 0 {
      InMonthKeepsAll(s[1..], month);
    }
  }

  /** The records whose date has no month; `summary` never counts them under a month. */
  function Undated(s: seq<Expense>): (r: seq<Expense>)
    ensures forall i :: 0 <= i < |r| ==> MonthOf(r[i].date).None?
  {
    if |s| == 0 then []
    else (if MonthOf(s[0].date).None? then [s[0]] else []) + Undated(s[1..])
  }

  /** A record is set aside as undated exactly when it is in the list and its date has
      no month. */
  lemma {:induction false} UndatedMembership(s: seq<Expense>, e: Expense)
    ensures e in Undated(s) <==> e in s && MonthOf(e.date).None?
  {
    if |s| > 0 {
      UndatedMembership(s[1..], e);
      assert s == [s[0]] + s[1..];
    }
  }

  /** The totals of months 1 to `last`, added up. */
  function MonthTotals(s: seq<Expense>, last: nat): int {
    if last == 0 then 0 else MonthTotals(s, last - 1) + Total(InMonth(s, last))
  }

  /** What one record contributes to the month totals 1 to `last`. */
  function Contribution(e: Expense, last: nat): int {
    var m := MonthOf(e.date);
    if m.Some? && m.value <= last then e.amount else 0
  }

  function AmountIn(e: Expense, month: int): int {
    if InMonthOf(e, month) then e.amount else 0
  }

  lemma TotalInMonthCons(s: seq<Expense>, month: int)
    requires |s| > 0
    ensures Total(InMonth(s, month)) == AmountIn(s[0], month) + Total(InMonth(s[1..], month))
  {
    var head := if InMonthOf(s[0], month) then [s[0]] else [];
    TotalAppend(head, InMonth(s[1..], month));
  }

  // Only unfolds `Contribution` once, for `MonthTotalsCons`.
  lemma ContributionStep(e: Expense, last: nat)
    requires last > 0
    ensures Contribution(e, last) == Contribution(e, last - 1) + AmountIn(e, last)
  {
  }

  // Only unfolds `MonthTotals` once, for `MonthTotalsCons`.
  lemma MonthTotalsStep(s: seq<Expense>, last: nat)
    requires last > 0
    ensures MonthTotals(s, last) == MonthTotals(s, last - 1) + Total(InMonth(s, last))
  {
  }

  /** How one record at the head of the list changes the month totals 1 to `last`. */
  lemma {:induction false} MonthTotalsCons(s: seq<Expense>, last: nat)
    requires |s| > 0
    ensures MonthTotals(s, last) == MonthTotals(s[1..], last) + Contribution(s[0], last)
  {
    if last > 0 {
      MonthTotalsCons(s, last - 1);
      TotalInMonthCons(s, last);
      ContributionStep(s[0], last);
      MonthTotalsStep(s, last);
      MonthTotalsStep(s[1..], last);
    }
  }

  /** Every amount is counted in exactly one month or among the undated records: the
      twelve monthly summaries and the undated records add up to the unfiltered total. */
  lemma {:induction false} MonthTotalsPartition(s: seq<Expense>)
    ensures Total(s) == MonthTotals(s, 12) + Total(Undated(s))
  {
    if |s| == 0 {
      MonthTotalsOfEmpty(s, 12);
    } else {
      MonthTotalsPartition(s[1..]);
      MonthTotalsCons(s, 12);
      var head := if MonthOf(s[0].date).None? then [s[0]] else [];
      TotalAppend(head, Undated(s[1..]));
    }
  }

  lemma {:induction false} MonthTotalsOfEmpty(s: seq<Expense>, last: nat)
    requires |s| == 0
    ensures MonthTotals(s, last) == 0
  {
    if last > 0 {
      MonthTotalsOfEmpty(s, last - 1);
    }
  }

  datatype SummaryOutcome =
    | NoRecords                       // there is no file, or it holds no records
    | SummaryReadError                // the file could not be read or parsed
    | InvalidMonth                    // the month argument is not a number in 1..12
    | NoRecordsForMonth(month: int)   // no record is dated in the requested month
    | Summed(total: int, count: nat, filter: Option<int>)

  /** Whether a month argument was given: the source tests the argument's truthiness,
      and the empty string is false in JavaScript. */
  predicate MonthGiven(month: Option<string>) {
    month.Some? && month.value != ""
  }

  predicate ValidMonth(m: Option<int>) {
    m.Some? && 1 <= m.value <= 12
  }

  /** `summary [month]`. An empty list is reported before the argument is looked at; a
      given argument must parse to a month in 1..12; a month that keeps no record is a
      separate outcome from a total. */
  function Summary(records: seq<Expense>, month: Option<string>): (r: SummaryOutcome)
    ensures r == NoRecords <==> |records| == 0
    ensures !r.SummaryReadError?
    ensures r == InvalidMonth <==> |records| > 0 && MonthGiven(month) && !ValidMonth(ParseInt(month.value))
    ensures r.NoRecordsForMonth? ==>
              MonthGiven(month) && ParseInt(month.value) == Some(r.month) && InMonth(records, r.month) == []
    ensures r.Summed? ==> r.count > 0
    ensures r.Summed? && r.filter.None? ==> !MonthGiven(month) && r.total == Total(records) && r.count == |records|
    ensures r.Summed? && r.filter.Some? ==>
              MonthGiven(month) && ParseInt(month.value) == r.filter
              && r.total == Total(InMonth(records, r.filter.value)) && r.count == |InMonth(records, r.filter.value)|
  {
    if |records| == 0 then NoRecords
    else if !MonthGiven(month) then Summed(Total(records), |records|, None)
    else
      var m := ParseInt(month.value);
      if !ValidMonth(m) then InvalidMonth
      else
        var kept := InMonth(records, m.value);
        if |kept| == 0 then NoRecordsForMonth(m.value)
        else Summed(Total(kept), |kept|, m)
  }

  /** Writing the month in decimal asks for that month's records. */
  lemma SummaryOfDecimalMonth(records: seq<Expense>, m: nat)
    requires |records| > 0 && 1 <= m <= 12
    ensures var kept := InMonth(records, m);
      Summary(records, Some(ShowNat(m))) == if kept == [] then NoRecordsForMonth(m) else Summed(Total(kept), |kept|, Some(m))
  {
    ParseIntShowNat(m);
  }

  /** The truthiness test on the argument: an empty month argument is no argument, and
      the summary is then taken over every record. */
  lemma EmptyMonthArgument(records: seq<Expense>)
    ensures !MonthGiven(Some(""))
    ensures Summary(records, Some("")) == Summary(records, None)
  {
  }

  /** `summary [month]` as the command runs it: no file gives "no records", a file that
      cannot be parsed gives the read error of the `catch`, and otherwise
      `Summary` decides over the parsed records. */
  function SummaryCommand(input: LoadInput, month: Option<string>): (r: SummaryOutcome)
    ensures r.SummaryReadError? <==> input.Unparsable?
    ensures r.NoRecords? <==> input.NoFile? || (input.Parsed? && |input.items| == 0)
    ensures input.Parsed? ==> r == Summary(input.items, month)
  {
    match input
    case NoFile => NoRecords
    case Unparsable => SummaryReadError
    case Parsed(items) => Summary(items, month)
  }
}

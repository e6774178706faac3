/**
 * The query builder of the expense listing handler: four optional query-string tokens
 * (`category`, `search`, `timeframe`, `sortBy`) become the filter object and the sort object
 * that the handler hands to the document store. Both objects are modelled as maps from
 * field name to value, as the JavaScript objects they are; the clock reading is a parameter.
 */
module ExpenseQuery {
  import opened Options
  import opened Calendar
  import opened JsDate

  datatype Query = Query(
    category: Option<string>,
    search: Option<string>,
    timeframe: Option<string>,
    sortBy: Option<string>)

  /** `{ $gte: start, $lte: end }`: both ends are midnight at the start of that day. */
  datatype DateRange = DateRange(start: Date, end: Date)

  /** The value stored under one filter key. */
  datatype Constraint =
    | Equals(value: string)                    // `filter.category = category`
    | Within(range: DateRange)                 // `filter.expenseDate = { $gte, $lte }`
    | Regex(pattern: string, options: string)  // `filter.description = { $regex, $options }`

  type Filter = map<string, Constraint>

  /** Field name to direction: -1 newest or highest first, 1 oldest or lowest first. */
  type SortOptions = map<string, int>

  const TimeframeTokens: set<string> := {"thisMonth", "lastMonth", "thisQuarter", "thisYear", "lastYear"}

  /** The date range a timeframe token selects, relative to the clock reading `now`. */
  function TimeframeRange(timeframe: string, now: Date): (r: Option<DateRange>)
    ensures r.Some? <==> timeframe in TimeframeTokens
    ensures r.Some? ==> r.value.start.Valid() && r.value.end.Valid()
  {
    var y, m := now.year, now.month;
    if timeframe == "thisMonth" then
      Some(DateRange(NewDate(y, m, 1), NewDate(y, m + 1, 0)))
    else if timeframe == "lastMonth" then
      Some(DateRange(NewDate(y, m - 1, 1), NewDate(y, m, 0)))
    else if timeframe == "thisQuarter" then
      var quarter := m / 3;
      Some(DateRange(NewDate(y, quarter * 3, 1), NewDate(y, quarter * 3 + 3, 0)))
    else if timeframe == "thisYear" then
      Some(DateRange(NewDate(y, 0, 1), NewDate(y, 11, 31)))
    else if timeframe == "lastYear" then
      Some(DateRange(NewDate(y - 1, 0, 1), NewDate(y - 1, 11, 31)))
    else
      None
  }

  /** The filter object, built one key at a time. */
  function BuildFilter(q: Query, now: Date): (r: Filter)
    ensures r.Keys <= {"category", "expenseDate", "description"}
    ensures "category" in r <==> Truthy(q.category) && q.category.value != "all"
    ensures "category" in r ==> r["category"] == Equals(q.category.value)
    ensures "expenseDate" in r <==> Truthy(q.timeframe) && q.timeframe.value in TimeframeTokens
    ensures "expenseDate" in r ==> r["expenseDate"] == Within(TimeframeRange(q.timeframe.value, now).value)
    ensures "description" in r <==> Truthy(q.search)
    ensures "description" in r ==> r["description"] == Regex(q.search.value, "i")
  {
    var filter: Filter := map[];
    var filter := if Truthy(q.category) && q.category.value != "all"
                  then filter["category" := Equals(q.category.value)]
                  else filter;
    var filter := if !Truthy(q.timeframe) then filter
                  else match TimeframeRange(q.timeframe.value, now)
                       case Some(range) => filter["expenseDate" := Within(range)]
                       case None => filter;
    var filter := if Truthy(q.search)
                  then filter["description" := Regex(q.search.value, "i")]
                  else filter;
    filter
  }

  /** The sort object: empty when `sortBy` is absent, otherwise exactly one key. */
  function BuildSort(sortBy: Option<string>): (r: SortOptions)
    ensures r == map[] <==> !Truthy(sortBy)
    ensures |r| <= 1
    ensures r.Keys <= {"expenseDate", "amount"}
    ensures forall k :: k in r ==> r[k] == -1 || r[k] == 1
  {
    var sortOptions: SortOptions := map[];
    if !Truthy(sortBy) then sortOptions
    else if sortBy.value == "date" then sortOptions["expenseDate" := -1]
    else if sortBy.value == "dateAsc" then sortOptions["expenseDate" := 1]
    else if sortBy.value == "amountDesc" then sortOptions["amount" := -1]
    else if sortBy.value == "amountAsc" then sortOptions["amount" := 1]
    else sortOptions["expenseDate" := -1]
  }

  // ---------------------------------------------------------------------------------------
  // Timeframe ranges. `now` is a clock reading, so it is a valid date; a year from 0 to 99
  // passed to the Date constructor would be read as 19xx (see TwoDigitYear below).

  /** The range lies within whole calendar months: it starts on a first and ends on a last day. */
  predicate WholeMonths(r: DateRange)
    requires r.start.Valid() && r.end.Valid()
  {
    r.start.day == 1 && r.end.day == DaysInMonth(r.end.year, r.end.month)
  }

  /** The number of calendar days from the start day to the end day, both counted. */
  function DaysSpanned(r: DateRange): int
    requires r.start.Valid() && r.end.Valid()
  {
    DayNumber(r.end) - DayNumber(r.start) + 1
  }

  lemma ThisMonthRange(now: Date)
    requires now.Valid() && LiteralYear(now.year)
    ensures TimeframeRange("thisMonth", now)
         == Some(DateRange(Date(now.year, now.month, 1),
                           Date(now.year, now.month, DaysInMonth(now.year, now.month))))
  {
    LastOfMonth(now.year, now.month);
  }

  /** The month before `now`; when `now` is in January both ends are in December of the year before. */
  lemma LastMonthRange(now: Date)
    requires now.Valid() && LiteralYear(now.year)
    ensures var p := PrevMonth(now.year, now.month);
            TimeframeRange("lastMonth", now) ==
              Some(DateRange(Date(p.0, p.1, 1), Date(p.0, p.1, DaysInMonth(p.0, p.1))))
    ensures now.month == 0 ==>
              TimeframeRange("lastMonth", now) ==
                Some(DateRange(Date(now.year - 1, 11, 1), Date(now.year - 1, 11, 31)))
  {
    NormalizeLast(now.year, now.month);
    if now.month == 0 {
      assert (now.month - 1) / 12 == -1 && (now.month - 1) % 12 == 11;
    }
  }

  /** The quarter is `month / 3`; the range runs from its first month's first to its third month's last day. */
  lemma ThisQuarterRange(now: Date)
    requires now.Valid() && LiteralYear(now.year)
    ensures var first := now.month / 3 * 3;
            TimeframeRange("thisQuarter", now) ==
              Some(DateRange(Date(now.year, first, 1),
                             Date(now.year, first + 2, DaysInMonth(now.year, first + 2))))
  {
    var first := now.month / 3 * 3;
    assert first in {0, 3, 6, 9};
    QuarterBounds(now.year, first);
  }

  lemma QuarterBounds(y: int, first: int)
    requires LiteralYear(y) && first in {0, 3, 6, 9}
    ensures NewDate(y, first, 1) == Date(y, first, 1)
    ensures NewDate(y, first + 3, 0) == Date(y, first + 2, DaysInMonth(y, first + 2))
  {
    LastOfMonth(y, first + 2);
  }

  lemma ThisYearRange(now: Date)
    requires now.Valid() && LiteralYear(now.year)
    ensures TimeframeRange("thisYear", now)
         == Some(DateRange(Date(now.year, 0, 1), Date(now.year, 11, 31)))
  {
    NormalizeExisting(Date(now.year, 11, 31));
  }

  lemma LastYearRange(now: Date)
    requires LiteralYear(now.year - 1)
    ensures TimeframeRange("lastYear", now)
         == Some(DateRange(Date(now.year - 1, 0, 1), Date(now.year - 1, 11, 31)))
  {
    NormalizeExisting(Date(now.year - 1, 11, 31));
  }

  /**
   * Every recognised token yields a well-formed range of whole months that starts no later
   * than it ends; the three "this period" tokens yield a range that contains `now`'s day.
   */
  lemma {:induction false} RangeWellFormed(timeframe: string, now: Date)
    requires now.Valid() && LiteralYear(now.year) && LiteralYear(now.year - 1)
    requires timeframe in TimeframeTokens
    ensures var r := TimeframeRange(timeframe, now).value;
            && WholeMonths(r)
            && NotAfter(r.start, r.end)
            && (timeframe in {"thisMonth", "thisQuarter", "thisYear"} ==>
                  NotAfter(r.start, now) && NotAfter(now, r.end))
  {
    if timeframe == "thisMonth" {
      ThisMonthRange(now);
    } else if timeframe == "lastMonth" {
      LastMonthRange(now);
    } else if timeframe == "thisQuarter" {
      ThisQuarterRange(now);
    } else if timeframe == "thisYear" {
      ThisYearRange(now);
    } else {
      LastYearRange(now);
    }
  }

  /** Each range covers exactly the days of its period. */
  lemma {:induction false} RangeLength(timeframe: string, now: Date)
    requires now.Valid() && LiteralYear(now.year) && LiteralYear(now.year - 1)
    requires timeframe in TimeframeTokens
    ensures var r := TimeframeRange(timeframe, now).value;
            && (timeframe == "thisMonth" ==> DaysSpanned(r) == DaysInMonth(now.year, now.month))
            && (timeframe == "thisYear" ==> DaysSpanned(r) == DaysInYear(now.year))
            && (timeframe == "lastYear" ==> DaysSpanned(r) == DaysInYear(now.year - 1))
            && (timeframe == "thisQuarter" ==> 90 <= DaysSpanned(r) <= 92)
            && (timeframe == "lastMonth" ==> 28 <= DaysSpanned(r) <= 31)
  {
    if timeframe == "thisMonth" {
      ThisMonthRange(now);
    } else if timeframe == "lastMonth" {
      LastMonthRange(now);
    } else if timeframe == "thisQuarter" {
      ThisQuarterRange(now);
    } else if timeframe == "thisYear" {
      ThisYearRange(now);
    } else {
      LastYearRange(now);
    }
  }

  /** The quarter's range stays inside the quarter of `now`. */
  lemma {:induction false} QuarterContainsNow(now: Date)
    requires now.Valid() && LiteralYear(now.year)
    ensures var r := TimeframeRange("thisQuarter", now).value;
            && r.start.year == now.year == r.end.year
            && r.start.month / 3 == now.month / 3 == r.end.month / 3
            && r.end.month == r.start.month + 2
  {
    ThisQuarterRange(now);
  }

  /**
   * A clock year from 1 to 100 makes `lastYear` pass 0..99 to the constructor, which reads it
   * as 1900..1999: in year 100 "last year" is 1999.
   */
  lemma TwoDigitYear(now: Date)
    requires now.Valid() && now.year == 100
    ensures TimeframeRange("lastYear", now)
         == Some(DateRange(Date(1999, 0, 1), Date(1999, 11, 31)))
  {
    NormalizeExisting(Date(1999, 11, 31));
  }

  // ---------------------------------------------------------------------------------------
  // The filter as a whole.

  /** An absent or unrecognised timeframe puts no date constraint into the filter. */
  lemma NoDateConstraint(q: Query, now: Date)
    requires q.timeframe.None? || q.timeframe.value !in TimeframeTokens
    ensures "expenseDate" !in BuildFilter(q, now)
  {
  }

  /**
   * The three constraints are independent: each filter entry depends on its own token only,
   * so supplying or changing one token never alters another entry.
   */
  lemma {:induction false} ConstraintsIndependent(q1: Query, q2: Query, now: Date)
    ensures q1.category == q2.category ==>
              Entry(BuildFilter(q1, now), "category") == Entry(BuildFilter(q2, now), "category")
    ensures q1.timeframe == q2.timeframe ==>
              Entry(BuildFilter(q1, now), "expenseDate") == Entry(BuildFilter(q2, now), "expenseDate")
    ensures q1.search == q2.search ==>
              Entry(BuildFilter(q1, now), "description") == Entry(BuildFilter(q2, now), "description")
  {
  }

  function Entry(f: Filter, key: string): Option<Constraint> {
    if key in f then Some(f[key]) else None
  }

  /** A token passed empty (`?search=`) is treated exactly as an absent one. */
  lemma EmptyLikeAbsent(q: Query, now: Date)
    ensures q.category == Some("") ==> BuildFilter(q, now) == BuildFilter(q.(category := None), now)
    ensures q.timeframe == Some("") ==> BuildFilter(q, now) == BuildFilter(q.(timeframe := None), now)
    ensures q.search == Some("") ==> BuildFilter(q, now) == BuildFilter(q.(search := None), now)
    ensures BuildSort(Some("")) == BuildSort(None)
  {
  }

  // ---------------------------------------------------------------------------------------
  // Sorting.

  /**
   * The sort table: a present token sorts by amount exactly when it is `amountDesc` or
   * `amountAsc`, ascending exactly when it is `dateAsc` or `amountAsc`; every other present
   * token, unknown ones included, sorts by expenseDate descending.
   */
  lemma SortTable(sortBy: string)
    requires sortBy != ""
    ensures var r := BuildSort(Some(sortBy));
            && |r| == 1
            && ("amount" in r <==> sortBy in {"amountDesc", "amountAsc"})
            && ("expenseDate" in r <==> sortBy !in {"amountDesc", "amountAsc"})
            && (forall k :: k in r ==> (r[k] == 1 <==> sortBy in {"dateAsc", "amountAsc"}))
  {
  }

  /** Anything but the four known names falls back to the default order. */
  lemma SortDefault(sortBy: string)
    requires sortBy != "" && sortBy !in {"date", "dateAsc", "amountDesc", "amountAsc"}
    ensures BuildSort(Some(sortBy)) == BuildSort(Some("date")) == map["expenseDate" := -1]
  {
  }
}

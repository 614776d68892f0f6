/** The reporting routes of api/transaction.js, `/period/:period` and `/category/:period`:
    month-name lookup, the day/week/month/year bounds, the transaction filter, the total of the
    matched amounts and the per-category `$group` sums. */
module Reports {
  import opened Common
  import opened Calendar
  import opened Ledger

  const MonthNames: seq<string> := ["January", "February", "March", "April", "May", "June", "July",
                                    "August", "September", "October", "November", "December"]

  /** The first index from `i` on whose lower-cased month name is `lowered`. */
  function FindMonth(lowered: string, i: nat): (r: Option<nat>)
    requires i <= 12
    ensures r.Some? ==> i <= r.value < 12 && ToLower(MonthNames[r.value]) == lowered
    ensures r.Some? ==> forall j :: i <= j < r.value ==> ToLower(MonthNames[j]) != lowered
    ensures r.None? ==> forall j :: i <= j < 12 ==> ToLower(MonthNames[j]) != lowered
    decreases 12 - i
  {
    if i == 12 then None
    else if ToLower(MonthNames[i]) == lowered then Some(i)
    else FindMonth(lowered, i + 1)
  }

  /** `getMonthNumber(month)`: the 0-based index of the English month name matching `month`
      without regard to case, None (null) when no name matches. */
  function MonthNumber(month: string): (r: Option<nat>)
    ensures r.Some? ==> r.value < 12 && ToLower(MonthNames[r.value]) == ToLower(month)
    ensures r.None? <==> forall j :: 0 <= j < 12 ==> ToLower(MonthNames[j]) != ToLower(month)
  {
    FindMonth(ToLower(month), 0)
  }

  lemma LowerIdempotent(s: string)
    ensures ToLower(ToLower(s)) == ToLower(s)
  {
  }

  /** The lookup ignores case: a name and its lower-cased form find the same month. */
  lemma MonthNumberIgnoresCase(month: string)
    ensures MonthNumber(ToLower(month)) == MonthNumber(month)
  {
    LowerIdempotent(month);
  }

  /** Every month name, as written, finds its own index. */
  lemma MonthNamesFound(i: nat)
    requires i < 12
    ensures MonthNumber(MonthNames[i]) == Some(i)
  {
    var lowered := ToLower(MonthNames[i]);
    forall j | 0 <= j < i
      ensures ToLower(MonthNames[j]) != lowered
    {
      MonthNamesDiffer(i, j);
    }
    FindMonthFirst(lowered, 0, i);
  }

  lemma MonthNamesDiffer(i: nat, j: nat)
    requires j < i < 12
    ensures ToLower(MonthNames[j]) != ToLower(MonthNames[i])
  {
    var a, b := MonthNames[i], MonthNames[j];
    if |a| == |b| {
      assert ToLower(a)[0] == LowerChar(a[0]) && ToLower(b)[0] == LowerChar(b[0]);
      assert ToLower(a)[1] == LowerChar(a[1]) && ToLower(b)[1] == LowerChar(b[1]);
      assert ToLower(a)[2] == LowerChar(a[2]) && ToLower(b)[2] == LowerChar(b[2]);
    }
  }

  lemma {:induction false} FindMonthFirst(lowered: string, from: nat, i: nat)
    requires from <= i < 12
    requires ToLower(MonthNames[i]) == lowered
    requires forall j :: from <= j < i ==> ToLower(MonthNames[j]) != lowered
    ensures FindMonth(lowered, from) == Some(i)
    decreases i - from
  {
    if from < i {
      FindMonthFirst(lowered, from + 1, i);
    }
  }

  /** A query-string value: absent or empty, a number (`isNaN` false), or other text. */
  datatype Param = Absent | Num(n: int) | Word(text: string)

  datatype ReportError = UserIdRequired | MonthYearRequired | InvalidMonth | InvalidPeriod | InvalidDateParams

  /** The `$gte`/`$lte` date bounds of a report. */
  datatype Bounds = Bounds(start: int, end: int)

  /** The number the Date constructor sees for the `year` query value; None is NaN. */
  function YearNumber(year: Param): Option<int>
  {
    if year.Num? then Some(year.n) else None
  }

  /** `new Date(year, month, day, h, mi, s, ms)` with a possibly-NaN year. */
  function DateOf(year: Option<int>, month: int, day: int, h: int, mi: int, s: int, ms: int): Option<int>
  {
    if year.None? then None else NewDate(year.value, month, day, h, mi, s, ms)
  }

  /** The 1-based month the handler uses: a month name is converted, a number is used as sent. */
  function MonthNum(month: Param): (r: int)
    requires month.Word? ==> MonthNumber(month.text).Some?
    ensures month.Word? ==> 1 <= r <= 12 && ToLower(MonthNames[r - 1]) == ToLower(month.text)
    ensures month.Num? ==> r == month.n
  {
    match month
    case Word(w) => MonthNumber(w).value + 1
    case Num(n) => n
    case Absent => 0
  }

  predicate IsPeriodName(p: string)
  {
    p == "day" || p == "week" || p == "month" || p == "year"
  }

  /** `case 'day'`: midnight and 23:59:59.999 of the current day. */
  function DayCase(now: int): (Option<int>, Option<int>)
  {
    (SetHours(Some(now), 0, 0, 0, 0), SetHours(Some(now), 23, 59, 59, 999))
  }

  /** `case 'week'`: back to Monday at midnight, then six days on at 23:59:59.999. */
  function WeekCase(now: int): (Option<int>, Option<int>)
  {
    var distanceToMonday := (WeekDay(now) + 6) % 7;
    var start := SetHours(ShiftDate(Some(now), -distanceToMonday), 0, 0, 0, 0);
    (start, SetHours(ShiftDate(start, 6), 23, 59, 59, 999))
  }

  /** `case 'month'`: `new Date(year, monthNum - 1, 1)` and `new Date(year, monthNum, 0)`. */
  function MonthCase(year: Option<int>, monthNum: int): (Option<int>, Option<int>)
  {
    (DateOf(year, monthNum - 1, 1, 0, 0, 0, 0), DateOf(year, monthNum, 0, 0, 0, 0, 0))
  }

  /** `case 'year'`: `new Date(year, 0, 1)` and `new Date(year, 11, 31, 23, 59, 59, 999)`. */
  function YearCase(year: Option<int>): (Option<int>, Option<int>)
  {
    (DateOf(year, 0, 1, 0, 0, 0, 0), DateOf(year, 11, 31, 23, 59, 59, 999))
  }

  /** The start and end dates each `switch` case leaves, before the Invalid Date test: when
      both are valid the start comes first, and the day and week periods contain `now`. */
  function SwitchDates(p: string, now: int, monthNum: int, year: Param): (r: (Option<int>, Option<int>))
    requires IsPeriodName(p)
    ensures r.0.Some? && r.1.Some? ==> r.0.value <= r.1.value
    ensures (p == "day" || p == "week") && r.0.Some? && r.1.Some? ==> r.0.value <= now <= r.1.value
    ensures p == "day" && r.0.Some? && r.1.Some? ==>
              && r.0.value % MsPerDay == 0 && Day(r.0.value) == Day(now)
              && r.1.value == r.0.value + MsPerDay - 1
    ensures p == "week" && r.0.Some? && r.1.Some? ==>
              && r.0.value % MsPerDay == 0 && WeekDay(r.0.value) == 1
              && 0 <= Day(now) - Day(r.0.value) <= 6
              && r.1.value == r.0.value + 7 * MsPerDay - 1
    ensures p == "month" && r.0.Some? && r.1.Some? ==>
              && year.Num?
              && r.0.value == MakeDay(FullYear(year.n), monthNum - 1, 1) * MsPerDay
              && r.1.value + MsPerDay == MakeDay(FullYear(year.n), monthNum, 1) * MsPerDay
    ensures p == "year" && r.0.Some? && r.1.Some? ==>
              && year.Num?
              && r.0.value == DayFromYear(FullYear(year.n)) * MsPerDay
              && r.1.value + 1 == DayFromYear(FullYear(year.n) + 1) * MsPerDay
  {
    if p == "day" then
      var d := DayCase(now);
      if d.0.Some? && d.1.Some? then DayPeriod(now); d else d
    else if p == "week" then
      var d := WeekCase(now);
      if d.0.Some? && d.1.Some? then WeekPeriod(now); d else d
    else if p == "month" then
      var d := MonthCase(YearNumber(year), monthNum);
      if d.0.Some? && d.1.Some? then MonthPeriod(year.n, monthNum); d else d
    else
      var d := YearCase(YearNumber(year));
      if d.0.Some? && d.1.Some? then YearPeriod(year.n); d else d
  }

  /** The date bounds of a report for the route's `period`, the clock `now` (a valid time) and
      the `month` and `year` query values, with the handler's failures in its order. */
  function PeriodBounds(period: string, now: int, month: Param, year: Param): (r: Result<Bounds, ReportError>)
    requires -MaxTimeMs <= now <= MaxTimeMs
    ensures var p := ToLower(period);
            && (r == Err(MonthYearRequired) <==> (p == "month" || p == "year") && (month.Absent? || year.Absent?))
            && (r == Err(InvalidMonth) <==>
                  r != Err(MonthYearRequired) && month.Word? && MonthNumber(month.text).None?)
            && (r == Err(InvalidPeriod) <==>
                  r != Err(MonthYearRequired) && r != Err(InvalidMonth) && !IsPeriodName(p))
            && r != Err(UserIdRequired)
    ensures var p := ToLower(period);
            IsPeriodName(p) && r != Err(MonthYearRequired) && r != Err(InvalidMonth) ==>
              var d := SwitchDates(p, now, MonthNum(month), year);
              && (r == Err(InvalidDateParams) <==> d.0.None? || d.1.None?)
              && (r.Ok? ==> r.value == Bounds(d.0.value, d.1.value))
    ensures r.Ok? ==> r.value.start <= r.value.end
    ensures r.Ok? && ToLower(period) == "day" ==>
              var b := r.value;
              && b.start % MsPerDay == 0 && Day(b.start) == Day(now)
              && b.end == b.start + MsPerDay - 1
              && b.start <= now <= b.end
    ensures r.Ok? && ToLower(period) == "week" ==>
              var b := r.value;
              && b.start % MsPerDay == 0 && WeekDay(b.start) == 1
              && 0 <= Day(now) - Day(b.start) <= 6
              && b.end == b.start + 7 * MsPerDay - 1
              && b.start <= now <= b.end
    ensures r.Ok? && ToLower(period) == "month" ==>
              var b, m := r.value, MonthNum(month);
              && year.Num?
              && b.start == MakeDay(FullYear(year.n), m - 1, 1) * MsPerDay
              && b.end + MsPerDay == MakeDay(FullYear(year.n), m, 1) * MsPerDay
    ensures r.Ok? && ToLower(period) == "year" ==>
              var b := r.value;
              && year.Num?
              && b.start == DayFromYear(FullYear(year.n)) * MsPerDay
              && b.end + 1 == DayFromYear(FullYear(year.n) + 1) * MsPerDay
  {
    var p := ToLower(period);
    if (p == "month" || p == "year") && (month.Absent? || year.Absent?) then Err(MonthYearRequired)
    else if month.Word? && MonthNumber(month.text).None? then Err(InvalidMonth)
    else if !IsPeriodName(p) then Err(InvalidPeriod)
    else
      var dates := SwitchDates(p, now, MonthNum(month), year);
      if dates.0.None? || dates.1.None? then Err(InvalidDateParams)
      else
        Ok(Bounds(dates.0.value, dates.1.value))
  }

  /** The day period runs from midnight to 23:59:59.999 of the day holding `now`. */
  lemma DayPeriod(now: int)
    requires DayCase(now).0.Some? && DayCase(now).1.Some?
    ensures var start, end := DayCase(now).0.value, DayCase(now).1.value;
            && start % MsPerDay == 0 && Day(start) == Day(now)
            && end == start + MsPerDay - 1
            && start <= now <= end
  {
    LastMillisecond();
    SetHoursWithinDay(now, 0, 0, 0, 0);
    SetHoursWithinDay(now, 23, 59, 59, 999);
    TimeSplit(now);
  }

  /** The week period starts at midnight of the Monday on or before `now` and ends seven days
      later less one millisecond, on Sunday at 23:59:59.999. */
  lemma WeekPeriod(now: int)
    requires WeekCase(now).0.Some? && WeekCase(now).1.Some?
    ensures var start, end := WeekCase(now).0.value, WeekCase(now).1.value;
            && start % MsPerDay == 0 && WeekDay(start) == 1
            && 0 <= Day(now) - Day(start) <= 6
            && end == start + 7 * MsPerDay - 1
            && start <= now <= end
  {
    var distance := (WeekDay(now) + 6) % 7;
    ShiftDateByDays(now, -distance);
    var shifted := ShiftDate(Some(now), -distance).value;
    SetHoursWithinDay(shifted, 0, 0, 0, 0);
    var start := SetHours(Some(shifted), 0, 0, 0, 0).value;
    ShiftDateByDays(start, 6);
    var moved := ShiftDate(Some(start), 6).value;
    LastMillisecond();
    SetHoursWithinDay(moved, 23, 59, 59, 999);
    var end := SetHours(Some(moved), 23, 59, 59, 999).value;
    assert start == WeekCase(now).0.value && end == WeekCase(now).1.value;
    MondayArithmetic(Day(now), distance);
    assert Day(start) == Day(now) - distance;
    assert end == start + 7 * MsPerDay - 1;
    TimeSplit(now);
  }

  lemma MondayArithmetic(d: int, distance: int)
    requires distance == ((d + 4) % 7 + 6) % 7
    ensures 0 <= distance <= 6
    ensures (d - distance + 4) % 7 == 1
  {
    var w := (d + 4) % 7;
    assert d + 4 == 7 * ((d + 4) / 7) + w;
    if w == 0 {
      assert distance == 6;
      assert d - distance + 4 == 7 * ((d + 4) / 7 - 1) + 1;
    } else {
      assert distance == w - 1;
      assert d - distance + 4 == 7 * ((d + 4) / 7) + 1;
    }
  }

  /** The month period runs from midnight of the 1st of month `monthNum` (1-based, carrying
      into neighbouring years like the Date constructor) to midnight of its last day: the day
      after the end is the 1st of the following month. */
  lemma MonthPeriod(year: int, monthNum: int)
    requires MonthCase(Some(year), monthNum).0.Some? && MonthCase(Some(year), monthNum).1.Some?
    ensures var y := FullYear(year);
            var start, end := MonthCase(Some(year), monthNum).0.value, MonthCase(Some(year), monthNum).1.value;
            && start == MakeDay(y, monthNum - 1, 1) * MsPerDay
            && end + MsPerDay == MakeDay(y, monthNum, 1) * MsPerDay
            && end - start == (DaysInMonth(y + (monthNum - 1) / 12, (monthNum - 1) % 12) - 1) * MsPerDay
            && start < end
  {
    var y := FullYear(year);
    NewDateRange(year, monthNum - 1, 1, 0, 0, 0, 0);
    NewDateRange(year, monthNum, 0, 0, 0, 0, 0);
    NextMonthStart(y, monthNum - 1);
    MakeDayDate(y, monthNum, 0);
  }

  /** The year period runs from midnight of 1 January to 23:59:59.999 of 31 December: one
      millisecond short of the next year's start, DaysInYear days long. */
  lemma YearPeriod(year: int)
    requires YearCase(Some(year)).0.Some? && YearCase(Some(year)).1.Some?
    ensures var y := FullYear(year);
            var start, end := YearCase(Some(year)).0.value, YearCase(Some(year)).1.value;
            && start == DayFromYear(y) * MsPerDay
            && end + 1 == DayFromYear(y + 1) * MsPerDay
            && end - start + 1 == DaysInYear(y) * MsPerDay
  {
    YearCaseDays(year);
    DayFromYearStep(FullYear(year));
  }

  /** The two dates of the year case: midnight of 1 January, and the last millisecond before
      the year's DaysInYear days have passed. */
  lemma YearCaseDays(year: int)
    requires YearCase(Some(year)).0.Some? && YearCase(Some(year)).1.Some?
    ensures var y := FullYear(year);
            && YearCase(Some(year)).0.value == DayFromYear(y) * MsPerDay
            && YearCase(Some(year)).1.value + 1 == (DayFromYear(y) + DaysInYear(y)) * MsPerDay
  {
    var y := FullYear(year);
    NewDateRange(year, 0, 1, 0, 0, 0, 0);
    NewDateRange(year, 11, 31, 23, 59, 59, 999);
    LastMillisecond();
    assert MakeDay(y, 11, 31) + 1 == DayFromYear(y) + DaysInYear(y) by {
      MonthsFillYear(y, 11);
    }
  }

  /** The query-level `type` filter: `type` defaults to 'all', which matches every type. */
  predicate TypeMatches(t: Transaction, typeParam: Option<string>)
  {
    var ty := if typeParam.Some? then ToLower(typeParam.value) else "all";
    ty == "all" || t.kind == ty
  }

  /** The `$match` filter of both routes. */
  predicate Matches(t: Transaction, userId: UserId, b: Bounds, typeParam: Option<string>)
  {
    t.userId == userId && b.start <= t.date <= b.end && TypeMatches(t, typeParam)
  }

  /** `Transaction.find(filter)`: the matching transactions, in stored order. */
  function Matching(txs: seq<Transaction>, userId: UserId, b: Bounds, typeParam: Option<string>): (r: seq<Transaction>)
    ensures |r| <= |txs|
    ensures forall t :: t in r <==> t in txs && Matches(t, userId, b, typeParam)
    ensures forall t :: multiset(r)[t] == if Matches(t, userId, b, typeParam) then multiset(txs)[t] else 0
  {
    if txs == [] then []
    else
      var rest := Matching(txs[..|txs| - 1], userId, b, typeParam);
      var t := txs[|txs| - 1];
      assert txs == txs[..|txs| - 1] + [t];
      assert multiset(txs) == multiset(txs[..|txs| - 1]) + multiset{t};
      if Matches(t, userId, b, typeParam) then rest + [t] else rest
  }

  /** The summed amounts of the stored transactions that match, counted over the store itself. */
  function MatchedTotal(txs: seq<Transaction>, userId: UserId, b: Bounds, typeParam: Option<string>): int
  {
    if txs == [] then 0
    else
      var t := txs[|txs| - 1];
      MatchedTotal(txs[..|txs| - 1], userId, b, typeParam) + (if Matches(t, userId, b, typeParam) then t.amount else 0)
  }

  /** Summing the found transactions gives the matched amounts of the store, each as often as it is stored. */
  lemma {:induction false} MatchingTotal(txs: seq<Transaction>, userId: UserId, b: Bounds, typeParam: Option<string>)
    ensures Total(Matching(txs, userId, b, typeParam)) == MatchedTotal(txs, userId, b, typeParam)
  {
    if txs != [] {
      var front, t := txs[..|txs| - 1], txs[|txs| - 1];
      MatchingTotal(front, userId, b, typeParam);
      var rest := Matching(front, userId, b, typeParam);
      assert (rest + [t])[..|rest|] == rest;
    }
  }

  /** `transactions.reduce((sum, t) => sum + t.amount, 0)`. */
  function Total(txs: seq<Transaction>): int
  {
    if txs == [] then 0 else Total(txs[..|txs| - 1]) + txs[|txs| - 1].amount
  }

  /** The sum of the amounts of the transactions in category `c`. */
  function CategoryTotal(txs: seq<Transaction>, c: string): int
  {
    if txs == [] then 0
    else CategoryTotal(txs[..|txs| - 1], c) + (if txs[|txs| - 1].category == c then txs[|txs| - 1].amount else 0)
  }

  /** One `$group` result: `{ _id: category, totalAmount }`. */
  datatype Group = Group(category: string, total: int)

  predicate DistinctCategories(gs: seq<Group>)
  {
    forall i, j :: 0 <= i < j < |gs| ==> gs[i].category != gs[j].category
  }

  function Categories(gs: seq<Group>): set<string>
  {
    set g | g in gs :: g.category
  }

  function SumTotals(gs: seq<Group>): int
  {
    if gs == [] then 0 else gs[0].total + SumTotals(gs[1..])
  }

  /** The combined total of the groups named `c`. */
  function TotalFor(gs: seq<Group>, c: string): int
  {
    if gs == [] then 0 else (if gs[0].category == c then gs[0].total else 0) + TotalFor(gs[1..], c)
  }

  /** Adds `amount` to the group of category `c`, opening a group at the end when there is none. */
  function AddToGroups(gs: seq<Group>, c: string, amount: int): (r: seq<Group>)
    ensures SumTotals(r) == SumTotals(gs) + amount
    ensures forall d :: TotalFor(r, d) == TotalFor(gs, d) + (if d == c then amount else 0)
  {
    if gs == [] then [Group(c, amount)]
    else if gs[0].category == c then [Group(c, gs[0].total + amount)] + gs[1..]
    else
      var rest := AddToGroups(gs[1..], c, amount);
      assert ([gs[0]] + rest)[1..] == rest;
      [gs[0]] + rest
  }

  lemma CategoriesOfCons(g: Group, gs: seq<Group>)
    ensures Categories([g] + gs) == {g.category} + Categories(gs)
  {
    assert forall h :: h in [g] + gs <==> h == g || h in gs;
  }

  /** Adding to the groups adds `c` to their categories and keeps them distinct. */
  lemma {:induction false} AddToGroupsCategories(gs: seq<Group>, c: string, amount: int)
    ensures Categories(AddToGroups(gs, c, amount)) == Categories(gs) + {c}
    ensures DistinctCategories(gs) ==> DistinctCategories(AddToGroups(gs, c, amount))
  {
    if gs == [] {
    } else if gs[0].category == c {
      CategoriesOfCons(gs[0], gs[1..]);
      CategoriesOfCons(Group(c, gs[0].total + amount), gs[1..]);
      assert gs == [gs[0]] + gs[1..];
    } else {
      var rest := AddToGroups(gs[1..], c, amount);
      AddToGroupsCategories(gs[1..], c, amount);
      CategoriesOfCons(gs[0], gs[1..]);
      CategoriesOfCons(gs[0], rest);
      assert gs == [gs[0]] + gs[1..];
      if DistinctCategories(gs) {
        assert gs[0].category !in Categories(gs[1..]);
        forall j | 0 <= j < |rest|
          ensures rest[j].category != gs[0].category
        {
          assert rest[j] in rest;
        }
      }
    }
  }

  /** The `$group` stage: one group per category in first-seen order, with the summed amounts. */
  function GroupByCategory(txs: seq<Transaction>): (r: seq<Group>)
    ensures DistinctCategories(r)
    ensures SumTotals(r) == Total(txs)
    ensures forall d :: TotalFor(r, d) == CategoryTotal(txs, d)
    ensures Categories(r) == set t | t in txs :: t.category
  {
    if txs == [] then []
    else
      var front := txs[..|txs| - 1];
      var t := txs[|txs| - 1];
      assert (set u | u in txs :: u.category) == (set u | u in front :: u.category) + {t.category} by {
        assert forall u :: u in txs <==> u in front || u == t;
      }
      AddToGroupsCategories(GroupByCategory(front), t.category, t.amount);
      AddToGroups(GroupByCategory(front), t.category, t.amount)
  }

  /** With distinct categories, a group's total is the total recorded for its category. */
  lemma {:induction false} GroupTotalIsCategoryTotal(gs: seq<Group>, i: nat)
    requires DistinctCategories(gs) && i < |gs|
    ensures TotalFor(gs, gs[i].category) == gs[i].total
  {
    if i == 0 {
      NoOtherGroup(gs[1..], gs[0].category);
    } else {
      GroupTotalIsCategoryTotal(gs[1..], i - 1);
    }
  }

  lemma {:induction false} NoOtherGroup(gs: seq<Group>, c: string)
    requires forall k :: 0 <= k < |gs| ==> gs[k].category != c
    ensures TotalFor(gs, c) == 0
  {
    if gs != [] {
      NoOtherGroup(gs[1..], c);
    }
  }

  /** Each group of `$group` holds exactly the sum of its category's amounts. */
  lemma GroupsHoldCategoryTotals(txs: seq<Transaction>)
    ensures var gs := GroupByCategory(txs);
            forall i :: 0 <= i < |gs| ==> gs[i].total == CategoryTotal(txs, gs[i].category)
  {
    var gs := GroupByCategory(txs);
    forall i | 0 <= i < |gs|
      ensures gs[i].total == CategoryTotal(txs, gs[i].category)
    {
      GroupTotalIsCategoryTotal(gs, i);
    }
  }

  /** `GET /period/:period`: the matched transactions and their `totalAmount`. */
  function PeriodReport(txs: seq<Transaction>, userId: UserId, period: string, now: int,
                        month: Param, year: Param, typeParam: Option<string>): (r: Result<(seq<Transaction>, int), ReportError>)
    requires -MaxTimeMs <= now <= MaxTimeMs
    ensures r == Err(UserIdRequired) <==> userId == []
    ensures userId != [] ==> (r.Ok? <==> PeriodBounds(period, now, month, year).Ok?)
    ensures userId != [] && r.Err? ==> r == Err(PeriodBounds(period, now, month, year).error)
    ensures r.Ok? ==> r.value.1 == Total(r.value.0)
    ensures r.Ok? ==> r.value.1 == MatchedTotal(txs, userId, PeriodBounds(period, now, month, year).value, typeParam)
    ensures r.Ok? ==> forall t :: t in r.value.0 <==> t in txs && Matches(t, userId, PeriodBounds(period, now, month, year).value, typeParam)
    ensures r.Ok? ==> var b := PeriodBounds(period, now, month, year).value;
                      forall t :: multiset(r.value.0)[t] == if Matches(t, userId, b, typeParam) then multiset(txs)[t] else 0
  {
    if userId == [] then Err(UserIdRequired)
    else
      match PeriodBounds(period, now, month, year)
      case Err(e) => Err(e)
      case Ok(b) =>
        var matched := Matching(txs, userId, b, typeParam);
        MatchingTotal(txs, userId, b, typeParam);
        Ok((matched, Total(matched)))
  }

  /** `GET /category/:period`: the `$group` sums of the same matched transactions, one group
      per category that occurs among them. */
  function CategoryReport(txs: seq<Transaction>, userId: UserId, period: string, now: int,
                          month: Param, year: Param, typeParam: Option<string>): (r: Result<seq<Group>, ReportError>)
    requires -MaxTimeMs <= now <= MaxTimeMs
    ensures r == Err(UserIdRequired) <==> userId == []
    ensures userId != [] ==> (r.Ok? <==> PeriodBounds(period, now, month, year).Ok?)
    ensures userId != [] && r.Err? ==> r == Err(PeriodBounds(period, now, month, year).error)
    ensures r.Ok? ==> DistinctCategories(r.value)
    ensures r.Ok? ==> SumTotals(r.value) == MatchedTotal(txs, userId, PeriodBounds(period, now, month, year).value, typeParam)
    ensures r.Ok? ==> Categories(r.value) == set t | t in txs && Matches(t, userId, PeriodBounds(period, now, month, year).value, typeParam) :: t.category
    ensures r.Ok? ==> forall c :: TotalFor(r.value, c)
                                  == CategoryTotal(Matching(txs, userId, PeriodBounds(period, now, month, year).value, typeParam), c)
  {
    if userId == [] then Err(UserIdRequired)
    else
      match PeriodBounds(period, now, month, year)
      case Err(e) => Err(e)
      case Ok(b) =>
        var matched := Matching(txs, userId, b, typeParam);
        MatchingTotal(txs, userId, b, typeParam);
        MatchingCategories(txs, userId, b, typeParam);
        Ok(GroupByCategory(matched))
  }

  /** The categories of the matched list are those of the matching stored transactions. */
  lemma MatchingCategories(txs: seq<Transaction>, userId: UserId, b: Bounds, typeParam: Option<string>)
    ensures (set t | t in Matching(txs, userId, b, typeParam) :: t.category)
            == (set t | t in txs && Matches(t, userId, b, typeParam) :: t.category)
  {
  }

  /** The two routes fail alike, and the per-category totals partition the period total, one
      group per category of the matched transactions. */
  lemma CategoriesPartitionPeriodTotal(txs: seq<Transaction>, userId: UserId, period: string, now: int,
                                       month: Param, year: Param, typeParam: Option<string>)
    requires -MaxTimeMs <= now <= MaxTimeMs
    ensures var total := PeriodReport(txs, userId, period, now, month, year, typeParam);
            var groups := CategoryReport(txs, userId, period, now, month, year, typeParam);
            && (total.Err? <==> groups.Err?)
            && (total.Err? ==> total.error == groups.error)
            && (groups.Ok? ==> SumTotals(groups.value) == total.value.1)
            && (groups.Ok? ==> DistinctCategories(groups.value))
            && (groups.Ok? ==> Categories(groups.value) == set t | t in total.value.0 :: t.category)
  {
  }
}

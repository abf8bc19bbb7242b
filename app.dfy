/**
 * The date and slot logic of the attendance window: the slot list of the entry form,
 * saving an entry (derived total, date key), the day arrows of the entry form, the month
 * arrows of the calendar pop-up, the date arrows and week label of the statistics view,
 * and the grade chart's lookup of the per-grade totals.
 * Dates are ordinals of the Calendar module; every `datetime` error is a Result error
 * after which the state is unchanged (Tk reports the exception and carries on).
 */
module App {
  import opened Outcome
  import opened Calendar
  import opened Database
  import opened Statistics

  // ---------------------------------------------------------------- slot list

  /** The hours `h in range(lo, hi) if h not in (12, 17)`, ascending. */
  function SlotHours(lo: int, hi: int): seq<int>
    decreases hi - lo
  {
    if lo >= hi then []
    else if lo == 12 || lo == 17 then SlotHours(lo + 1, hi)
    else [lo] + SlotHours(lo + 1, hi)
  }

  /** An hour is offered iff it lies in [lo, hi) and is neither 12 nor 17; the hours ascend. */
  lemma {:induction false} SlotHoursExactly(lo: int, hi: int)
    ensures forall h :: h in SlotHours(lo, hi) <==> lo <= h < hi && h != 12 && h != 17
    ensures forall i, j | 0 <= i < j < |SlotHours(lo, hi)| :: SlotHours(lo, hi)[i] < SlotHours(lo, hi)[j]
    ensures forall i | 0 <= i < |SlotHours(lo, hi)| :: lo <= SlotHours(lo, hi)[i] < hi
    decreases hi - lo
  {
    if lo < hi {
      SlotHoursExactly(lo + 1, hi);
      var rest := SlotHours(lo + 1, hi);
      var hs := SlotHours(lo, hi);
      assert forall x | x in rest :: lo < x;
      if lo == 12 || lo == 17 {
        assert hs == rest;
      } else {
        assert hs == [lo] + rest;
        forall i | 1 <= i < |hs| ensures lo < hs[i] < hi {
          assert hs[i] == rest[i - 1];
        }
        forall i, j | 0 <= i < j < |hs| ensures hs[i] < hs[j] {
          if i == 0 {
            assert hs[j] == rest[j - 1];
            assert rest[j - 1] in rest;
          } else {
            assert hs[i] == rest[i - 1] && hs[j] == rest[j - 1];
          }
        }
      }
    }
  }

  /** `f"{h:02d}:00"`. */
  function SlotLabel(h: int): (s: string)
    requires 0 <= h <= 99
    ensures |s| == 5 && s[2..] == ":00"
  {
    Pad2(h) + ":00"
  }

  /** The labels of the hours SlotHours(lo, hi). */
  function SlotList(lo: int, hi: int): (s: seq<string>)
    requires 0 <= lo && hi <= 100
    ensures |s| == |SlotHours(lo, hi)|
    ensures forall i | 0 <= i < |s| :: |s[i]| == 5 && s[i][2..] == ":00"
  {
    var hs := SlotHours(lo, hi);
    SlotHoursExactly(lo, hi);
    seq(|hs|, i requires 0 <= i < |hs| => SlotLabel(hs[i]))
  }

  /** The slots offered by the entry form, `hours` of the slot selector. */
  function Slots(): (s: seq<string>)
    ensures |s| == 8
  {
    SlotHoursFrom8();
    SlotList(8, 18)
  }

  lemma SlotLabelInjective(a: int, b: int)
    requires 0 <= a <= 99 && 0 <= b <= 99
    ensures SlotLabel(a) == SlotLabel(b) <==> a == b
  {
    if SlotLabel(a) == SlotLabel(b) {
      assert SlotLabel(a)[..2] == Pad2(a) && SlotLabel(b)[..2] == Pad2(b);
      Pad2Value(a);
      Pad2Value(b);
    }
  }

  /** The form offers exactly the eight slots 08:00 to 16:00 without 12:00, in this order. */
  lemma SlotsExactly()
    ensures Slots() == ["08:00", "09:00", "10:00", "11:00", "13:00", "14:00", "15:00", "16:00"]
  {
    var hs := SlotHours(8, 18);
    SlotHoursExactly(8, 18);
    SlotHoursFrom8();
    assert SlotLabel(8) == "08:00";
    assert SlotLabel(9) == "09:00";
    assert SlotLabel(10) == "10:00";
    assert SlotLabel(11) == "11:00";
    assert SlotLabel(13) == "13:00";
    assert SlotLabel(14) == "14:00";
    assert SlotLabel(15) == "15:00";
    assert SlotLabel(16) == "16:00";
  }

  lemma SlotHoursFrom13()
    ensures SlotHours(13, 18) == [13, 14, 15, 16]
  {
    assert SlotHours(17, 18) == [];
    assert SlotHours(16, 18) == [16];
    assert SlotHours(15, 18) == [15, 16];
    assert SlotHours(14, 18) == [14, 15, 16];
  }

  lemma SlotHoursFrom8()
    ensures SlotHours(8, 18) == [8, 9, 10, 11, 13, 14, 15, 16]
  {
    SlotHoursFrom13();
    assert SlotHours(12, 18) == [13, 14, 15, 16];
    assert SlotHours(11, 18) == [11, 13, 14, 15, 16];
    assert SlotHours(10, 18) == [10, 11, 13, 14, 15, 16];
    assert SlotHours(9, 18) == [9, 10, 11, 13, 14, 15, 16];
  }

  /** The labels of strictly increasing hours are distinct. */
  lemma SlotListDistinct(lo: int, hi: int)
    requires 0 <= lo && hi <= 100
    ensures forall i, j | 0 <= i < j < |SlotList(lo, hi)| :: SlotList(lo, hi)[i] != SlotList(lo, hi)[j]
  {
    var hs := SlotHours(lo, hi);
    var s := SlotList(lo, hi);
    SlotHoursExactly(lo, hi);
    forall i, j | 0 <= i < j < |s| ensures s[i] != s[j] {
      assert s[i] == SlotLabel(hs[i]) && s[j] == SlotLabel(hs[j]);
      SlotLabelInjective(hs[i], hs[j]);
    }
  }

  /** The label of an hour that is not offered is not in the list. */
  lemma SlotListAvoids(lo: int, hi: int, h: int)
    requires 0 <= lo && hi <= 100 && 0 <= h <= 99
    requires h < lo || hi <= h || h == 12 || h == 17
    ensures SlotLabel(h) !in SlotList(lo, hi)
  {
    var hs := SlotHours(lo, hi);
    var s := SlotList(lo, hi);
    SlotHoursExactly(lo, hi);
    forall i | 0 <= i < |s| ensures s[i] != SlotLabel(h) {
      assert s[i] == SlotLabel(hs[i]) && hs[i] in hs;
      SlotLabelInjective(hs[i], h);
    }
  }

  /** The offered slots are distinct. */
  lemma SlotsDistinct()
    ensures forall i, j | 0 <= i < j < |Slots()| :: Slots()[i] != Slots()[j]
  {
    SlotListDistinct(8, 18);
  }

  /** 12:00 and 17:00 are not offered. */
  lemma SlotsWithoutBreaks()
    ensures "12:00" !in Slots() && "17:00" !in Slots()
  {
    SlotListAvoids(8, 18, 12);
    SlotListAvoids(8, 18, 17);
    assert SlotLabel(12) == "12:00" && SlotLabel(17) == "17:00";
  }

  // ---------------------------------------------------------------- month arithmetic

  /** The month index of (year, month): months counted from January of year 0. */
  function MonthIndex(y: int, m: int): int {
    12 * y + (m - 1)
  }

  /**
   * The month step of the statistics view: `year + (month + delta - 1) // 12` and
   * `(month + delta - 1) % 12 + 1` (Python's floor division and modulo agree with
   * Dafny's for the positive divisor 12). The result is delta months away.
   */
  function ShiftMonth(y: int, m: int, delta: int): (r: (int, int))
    ensures 1 <= r.1 <= 12
    ensures MonthIndex(r.0, r.1) == MonthIndex(y, m) + delta
  {
    (y + (m + delta - 1) / 12, (m + delta - 1) % 12 + 1)
  }

  /** The month index determines year and month. */
  lemma MonthIndexInjective(y1: int, m1: int, y2: int, m2: int)
    requires 1 <= m1 <= 12 && 1 <= m2 <= 12
    requires MonthIndex(y1, m1) == MonthIndex(y2, m2)
    ensures y1 == y2 && m1 == m2
  {
  }

  /** Stepping forward from December gives January of the next year. */
  lemma ShiftMonthDecember(y: int)
    ensures ShiftMonth(y, 12, 1) == (y + 1, 1)
  {
  }

  /** Stepping delta months and then back returns the original month. */
  lemma ShiftMonthRoundTrip(y: int, m: int, delta: int)
    requires 1 <= m <= 12
    ensures ShiftMonth(ShiftMonth(y, m, delta).0, ShiftMonth(y, m, delta).1, -delta) == (y, m)
  {
    var (y1, m1) := ShiftMonth(y, m, delta);
    var (y2, m2) := ShiftMonth(y1, m1, -delta);
    MonthIndexInjective(y2, m2, y, m);
  }

  /**
   * `update_month` of the calendar pop-up: add delta; above 12 wrap to January of the next
   * year, below 1 to December of the previous one.
   */
  function CalendarMonthStep(y: int, m: int, delta: int): (r: (int, int))
    requires 1 <= m <= 12
    ensures 1 <= r.1 <= 12
    ensures r.0 == y ==> r.1 == m + delta
    ensures r.0 != y ==> (r.0 == y + 1 && r.1 == 1 && m + delta > 12) || (r.0 == y - 1 && r.1 == 12 && m + delta < 1)
  {
    var month := m + delta;
    if month > 12 then (y + 1, 1)
    else if month < 1 then (y - 1, 12)
    else (y, month)
  }

  /** For the one-month steps the arrows make, the pop-up moves exactly one month, like ShiftMonth. */
  lemma CalendarStepIsOneMonth(y: int, m: int, delta: int)
    requires 1 <= m <= 12
    requires delta == 1 || delta == -1
    ensures CalendarMonthStep(y, m, delta) == ShiftMonth(y, m, delta)
    ensures MonthIndex(CalendarMonthStep(y, m, delta).0, CalendarMonthStep(y, m, delta).1) == MonthIndex(y, m) + delta
  {
    var c := CalendarMonthStep(y, m, delta);
    var s := ShiftMonth(y, m, delta);
    MonthIndexInjective(c.0, c.1, s.0, s.1);
  }

  // ---------------------------------------------------------------- statistics view dates

  datatype Mode = Jour | Semaine | Mois

  /** `update_date`: one day, one week, or one month (same day of month) per unit of delta. */
  function StepStatsDate(mode: Mode, n: int, delta: int): (r: Result<int>)
    requires ValidOrdinal(n)
    ensures r.Ok? ==> ValidOrdinal(r.value)
  {
    match mode
    case Jour => AddDays(n, delta)
    case Semaine => AddDays(n, 7 * delta)
    case Mois =>
      var d := FromOrdinal(n);
      var (y, m) := ShiftMonth(d.year, d.month, delta);
      ReplaceYearMonth(n, y, m)
  }

  /** Week navigation moves by exactly seven days per step, and fails only off the calendar's ends. */
  lemma WeekStepIsSevenDays(n: int, delta: int)
    requires ValidOrdinal(n)
    ensures StepStatsDate(Semaine, n, delta).Ok? <==> ValidOrdinal(n + 7 * delta)
    ensures StepStatsDate(Semaine, n, delta).Ok? ==> StepStatsDate(Semaine, n, delta).value == n + 7 * delta
  {
  }

  /**
   * Month navigation lands delta months away on the same day of month, and fails exactly
   * when that day does not exist in the target month or the target year is out of range.
   */
  lemma MonthStepKeepsDay(n: int, delta: int)
    requires ValidOrdinal(n)
    ensures var d := FromOrdinal(n);
            var (y, m) := ShiftMonth(d.year, d.month, delta);
            && (StepStatsDate(Mois, n, delta).Ok? <==> MinYear <= y <= MaxYear && d.day <= DaysInMonth(y, m))
            && (StepStatsDate(Mois, n, delta).Ok? ==>
                  var e := FromOrdinal(StepStatsDate(Mois, n, delta).value);
                  e.day == d.day && 1 <= e.month <= 12 &&
                  MonthIndex(e.year, e.month) == MonthIndex(d.year, d.month) + delta)
  {
  }

  /**
   * The week label of the statistics view: Monday `stats_date - weekday` to Sunday six days
   * later; OverflowError when that Sunday is past 9999-12-31.
   */
  function WeekWindow(n: int): (r: Result<(int, int)>)
    requires ValidOrdinal(n)
    ensures r.Ok? <==> ValidOrdinal(n - Weekday(n) + 6)
    ensures r.Err? ==> r.error == DateOverflow
    ensures r.Ok? ==>
      var (start, end) := r.value;
      && ValidOrdinal(start) && ValidOrdinal(end)
      && Weekday(start) == 0 && end == start + 6
      && start <= n <= end
  {
    var start := AddDays(n, -Weekday(n));
    assert start.Ok?;
    match AddDays(start.value, 6)
    case Ok(end) => Ok((start.value, end))
    case Err(e) => Err(e)
  }

  /** Thursday 2024-03-14 lies in the week from Monday 2024-03-11 to Sunday 2024-03-17. */
  lemma WeekWindowExample(n: int)
    requires n == ToOrdinal(Date(2024, 3, 14))
    ensures ValidOrdinal(n) && Weekday(n) == 3
    ensures WeekWindow(n) == Ok((n - 3, n + 3))
    ensures n - 3 == ToOrdinal(Date(2024, 3, 11)) && n + 3 == ToOrdinal(Date(2024, 3, 17))
  {
    assert n == 738959;
  }

  /** The key of a date's ordinal is its ISO text. */
  lemma DateKeyOfDate(d: Date)
    requires ValidDate(d)
    ensures ValidOrdinal(ToOrdinal(d)) && DateKey(ToOrdinal(d)) == IsoKey(d)
  {
    FromToOrdinal(d);
  }

  /** The key written for 2024-03-11. */
  lemma IsoKeyExample()
    ensures IsoKey(Date(2024, 3, 11)) == "2024-03-11"
  {
    assert Pad4(2024) == "2024" && Pad2(3) == "03" && Pad2(11) == "11";
  }

  /**
   * One day back and one day forward cancel; the only date without a previous day is
   * 0001-01-01 and the only one without a next day is 9999-12-31.
   */
  lemma DayStepsCancel(n: int)
    requires ValidOrdinal(n)
    ensures AddDays(n, -1).Err? <==> n == 1
    ensures AddDays(n, 1).Err? <==> n == MaxOrdinal
    ensures AddDays(n, -1).Ok? ==> AddDays(AddDays(n, -1).value, 1) == Ok(n)
    ensures AddDays(n, 1).Ok? ==> AddDays(AddDays(n, 1).value, -1) == Ok(n)
  {
  }

  // ---------------------------------------------------------------- entry form and statistics view state

  /** The state of the main window that the date logic updates. */
  class AppWindow {
    /** `self.selected_date` of the entry form, as an ordinal. */
    var selectedDate: int
    /** `self.stats_date` of the statistics view, as an ordinal. */
    var statsDate: int

    ghost predicate Valid()
      reads this
    {
      ValidOrdinal(selectedDate) && ValidOrdinal(statsDate)
    }

    /** Both dates start at today, given as a parameter instead of read from the clock. */
    constructor (today: int)
      requires ValidOrdinal(today)
      ensures Valid()
      ensures selectedDate == today && statsDate == today
    {
      selectedDate, statsDate := today, today;
    }

    /** `previous_day`: one day back. */
    method PreviousDay() returns (r: Result<int>)
      requires Valid()
      modifies this
      ensures Valid()
      ensures r == AddDays(old(selectedDate), -1)
      ensures selectedDate == (if r.Ok? then r.value else old(selectedDate))
      ensures statsDate == old(statsDate)
    {
      r := AddDays(selectedDate, -1);
      if r.Ok? {
        selectedDate := r.value;
      }
    }

    /** `next_day`: one day forward. */
    method NextDay() returns (r: Result<int>)
      requires Valid()
      modifies this
      ensures Valid()
      ensures r == AddDays(old(selectedDate), 1)
      ensures selectedDate == (if r.Ok? then r.value else old(selectedDate))
      ensures statsDate == old(statsDate)
    {
      r := AddDays(selectedDate, 1);
      if r.Ok? {
        selectedDate := r.value;
      }
    }

    /** `select_date` of the calendar pop-up: `datetime(year, month, day)`. */
    method SelectDate(year: int, month: int, day: int) returns (r: Result<int>)
      requires Valid()
      requires 1 <= month <= 12
      modifies this
      ensures Valid()
      ensures r.Ok? <==> ValidDate(Date(year, month, day))
      ensures r.Err? ==> r.error == (if MinYear <= year <= MaxYear then DayOutOfRange else YearOutOfRange)
      ensures r.Ok? ==> r.value == ToOrdinal(Date(year, month, day)) && FromOrdinal(r.value) == Date(year, month, day)
      ensures selectedDate == (if r.Ok? then r.value else old(selectedDate))
      ensures statsDate == old(statsDate)
    {
      if !(MinYear <= year <= MaxYear) {
        return Err(YearOutOfRange);
      }
      if !(1 <= day <= DaysInMonth(year, month)) {
        return Err(DayOutOfRange);
      }
      FromToOrdinal(Date(year, month, day));
      selectedDate := ToOrdinal(Date(year, month, day));
      r := Ok(selectedDate);
    }

    /** `update_date` of the statistics view. */
    method UpdateDate(mode: Mode, delta: int) returns (r: Result<int>)
      requires Valid()
      modifies this
      ensures Valid()
      ensures r == StepStatsDate(mode, old(statsDate), delta)
      ensures statsDate == (if r.Ok? then r.value else old(statsDate))
      ensures selectedDate == old(selectedDate)
    {
      r := StepStatsDate(mode, statsDate, delta);
      if r.Ok? {
        statsDate := r.value;
      }
    }

    /**
     * `save_entry_multi`: the total is derived as the sum of the four counts and the date
     * key is the selected date's `YYYY-MM-DD`; then one row is added to the store.
     */
    method SaveEntryMulti(store: AttendanceStore, heure: string, sixieme: int, cinquieme: int,
                          quatrieme: int, troisieme: int) returns (r: Result<int>)
      requires Valid() && store.Valid()
      modifies store
      ensures store.Valid()
      ensures store.tableExists == old(store.tableExists)
      ensures r.Ok? <==> old(store.tableExists)
      ensures r.Err? ==> r.error == TableMissing && store.rows == old(store.rows) && store.nextId == old(store.nextId)
      ensures r.Ok? ==> r.value == old(store.nextId) && store.nextId == old(store.nextId) + 1
      ensures r.Ok? ==> store.rows == old(store.rows) + [Row(r.value, heure, sixieme, cinquieme, quatrieme, troisieme,
                                                            sixieme + cinquieme + quatrieme + troisieme,
                                                            DateKey(selectedDate))]
    {
      var total := sixieme + cinquieme + quatrieme + troisieme;
      var date := DateKey(selectedDate);
      r := store.AddAttendance(heure, sixieme, cinquieme, quatrieme, troisieme, total, date);
      assert date == DateKey(selectedDate);
    }
  }

  /** The popup's displayed (year, month), which its arrows change. */
  class CalendarPopup {
    var year: int
    var month: int

    ghost predicate Valid()
      reads this
    {
      1 <= month <= 12
    }

    /** Opens on the month of the selected date. */
    constructor (selected: int)
      requires ValidOrdinal(selected)
      ensures Valid()
      ensures year == FromOrdinal(selected).year && month == FromOrdinal(selected).month
    {
      var d := FromOrdinal(selected);
      year, month := d.year, d.month;
    }

    /** `update_month`. */
    method UpdateMonth(delta: int)
      requires Valid()
      modifies this
      ensures Valid()
      ensures (year, month) == CalendarMonthStep(old(year), old(month), delta)
    {
      month := month + delta;
      if month > 12 {
        month := 1;
        year := year + 1;
      } else if month < 1 {
        month := 12;
        year := year - 1;
      }
    }
  }

  /** A row dated by SaveEntryMulti counts towards the day total of exactly that day. */
  lemma SavedEntryCountsOnItsDay(rows: seq<Row>, saved: Row, selected: int, today: int)
    requires ValidOrdinal(selected) && ValidOrdinal(today)
    requires saved.date == DateKey(selected)
    ensures StatsToday(rows + [saved], DateKey(today))
            == StatsToday(rows, DateKey(today)) + (if selected == today then saved.total else 0)
  {
    DateKeyInjective(selected, today);
    StatsTodaySnoc(rows, saved, DateKey(today));
  }

  // ---------------------------------------------------------------- grade chart

  function GetOr(m: map<string, int>, k: string, default: int): int {
    if k in m then m[k] else default
  }

  /** The values of the grade chart as written: keys '6', '5', '4', '3'. */
  function ChartValues(rep: map<string, int>): (v: seq<int>)
    ensures |v| == 4 && forall k | 0 <= k < 4 :: v[k] == 0 || v[k] in rep.Values
  {
    [GetOr(rep, "6", 0), GetOr(rep, "5", 0), GetOr(rep, "4", 0), GetOr(rep, "3", 0)]
  }

  /** The repartition's keys are '6ème'..'3ème', so every lookup of the chart falls back to 0. */
  lemma ChartValuesAlwaysZero(rep: map<string, int>)
    requires rep.Keys == {"6ème", "5ème", "4ème", "3ème"}
    ensures ChartValues(rep) == [0, 0, 0, 0]
    ensures !(Sum(ChartValues(rep)) > 0)
  {
    assert "6" != "6ème" && "5" != "5ème" && "4" != "4ème" && "3" != "3ème";
    assert "6" !in rep && "5" !in rep && "4" !in rep && "3" !in rep;
    assert Sum([0, 0, 0, 0]) == 0 by {
      assert [0, 0, 0, 0][..3] == [0, 0, 0];
      assert [0, 0, 0][..2] == [0, 0];
      assert [0, 0][..1] == [0];
      assert [0][..0] == [];
    }
  }

  /** The grade chart values keyed by the repartition's own labels. */
  function ChartValuesByLabel(rep: map<string, int>): (v: seq<int>)
    ensures |v| == 4 && forall k | 0 <= k < 4 :: v[k] == 0 || v[k] in rep.Values
  {
    [GetOr(rep, GradeLabel(Sixieme), 0), GetOr(rep, GradeLabel(Cinquieme), 0),
     GetOr(rep, GradeLabel(Quatrieme), 0), GetOr(rep, GradeLabel(Troisieme), 0)]
  }

  /**
   * Keyed by the labels, the chart shows the four column sums; on rows saved through the
   * form they add up to the sum of totals.
   */
  lemma ChartValuesByLabelShowsColumns(rows: seq<Row>, rep: map<string, int>)
    requires rep.Keys == {"6ème", "5ème", "4ème", "3ème"}
    requires forall g: Grade :: rep[GradeLabel(g)] == ColumnSum(rows, g)
    requires forall i | 0 <= i < |rows| :: Consistent(rows[i])
    ensures ChartValuesByLabel(rep) == [ColumnSum(rows, Sixieme), ColumnSum(rows, Cinquieme),
                                        ColumnSum(rows, Quatrieme), ColumnSum(rows, Troisieme)]
    ensures var v := ChartValuesByLabel(rep); v[0] + v[1] + v[2] + v[3] == SumTotals(rows)
  {
    assert rep[GradeLabel(Sixieme)] == ColumnSum(rows, Sixieme);
    assert rep[GradeLabel(Cinquieme)] == ColumnSum(rows, Cinquieme);
    assert rep[GradeLabel(Quatrieme)] == ColumnSum(rows, Quatrieme);
    assert rep[GradeLabel(Troisieme)] == ColumnSum(rows, Troisieme);
    RepartitionAddsUpToTotals(rows);
  }

  /**
   * On the two-entry example the grade totals are 2, 3, 1 and 4, yet the chart as written
   * receives four zeros and shows no data; keyed by label it receives the four totals.
   */
  lemma ChartExampleLosesData(rep: map<string, int>)
    requires rep.Keys == {"6ème", "5ème", "4ème", "3ème"}
    requires forall g: Grade :: rep[GradeLabel(g)] == ColumnSum(ExampleRows(), g)
    ensures rep["6ème"] == 2
    ensures ChartValues(rep) == [0, 0, 0, 0]
    ensures ChartValuesByLabel(rep) == [2, 3, 1, 4]
  {
    ExampleColumns();
    ChartValuesAlwaysZero(rep);
    assert rep[GradeLabel(Sixieme)] == 2 && rep[GradeLabel(Cinquieme)] == 3;
    assert rep[GradeLabel(Quatrieme)] == 1 && rep[GradeLabel(Troisieme)] == 4;
  }
}

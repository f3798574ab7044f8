/** The dates of a recurring cadence in a range, against a day-by-day reading of its grid. */
module Cadence {
  import opened Wrappers
  import opened Arithmetic
  import opened CivilDate

  datatype CadenceName = Weekly | Biweekly | Semimonthly | Monthly | Quarterly | Annual

  datatype Anchor =
    | EpochGrid(intervalDays: int, anchorEpochDay: int)
    | DayOfMonth(day: int, intervalMonths: int, phase: int)
    | DayPair(first: int, second: int)

  predicate WellFormed(anchor: Anchor) {
    match anchor
    case EpochGrid(interval, _) => interval >= 1
    case DayOfMonth(day, interval, _) => day >= 1 && interval >= 1
    case DayPair(first, second) => 1 <= first <= second
  }

  function MonthIndex(c: Civil): int {
    c.year * 12 + c.month - 1
  }

  predicate Multiple(n: int, d: int)
    requires d >= 1
  {
    n % d == 0
  }

  predicate OnGrid(anchor: Anchor, c: Civil)
    requires WellFormed(anchor)
  {
    match anchor
    case EpochGrid(interval, start) => Multiple(DayFromCivil(c) - start, interval)
    case DayOfMonth(day, interval, phase) =>
      MonthIndex(c) % interval == phase && c.day == Min(day, MonthLength(c.year, c.month))
    case DayPair(first, second) =>
      c.day == Min(first, MonthLength(c.year, c.month)) || c.day == Min(second, MonthLength(c.year, c.month))
  }

  predicate GridDay(anchor: Anchor, day: int)
    requires WellFormed(anchor)
  {
    OnGrid(anchor, CivilFromDay(day))
  }

  /** The grid dates of the days lo to hi, found by looking at every day. */
  function GridDates(anchor: Anchor, lo: int, hi: int): seq<Civil>
    requires WellFormed(anchor)
    decreases hi - lo
  {
    if lo > hi then []
    else GridDates(anchor, lo, hi - 1) + if GridDay(anchor, hi) then [CivilFromDay(hi)] else []
  }

  /** They are exactly the dates of the range on the grid, in strictly increasing order. */
  lemma {:induction false} GridDatesExact(anchor: Anchor, lo: int, hi: int)
    requires WellFormed(anchor)
    ensures forall c :: c in GridDates(anchor, lo, hi) <==> Valid(c) && lo <= DayFromCivil(c) <= hi && OnGrid(anchor, c)
    ensures forall i, j :: 0 <= i < j < |GridDates(anchor, lo, hi)| ==>
      Before(GridDates(anchor, lo, hi)[i], GridDates(anchor, lo, hi)[j])
    decreases hi - lo
  {
    hide DayFromCivil, CivilFromDay;
    if lo <= hi {
      GridDatesExact(anchor, lo, hi - 1);
      var before, last := GridDates(anchor, lo, hi - 1), CivilFromDay(hi);
      DayRoundTrip(hi);
      forall c | Valid(c) && DayFromCivil(c) == hi ensures c == last {
        CivilRoundTrip(c);
      }
      forall i | 0 <= i < |before| ensures Before(before[i], last) {
        assert before[i] in before;
        OrderPreserved(before[i], last);
      }
    }
  }

  /** Splitting a range at any day splits its dates. */
  lemma {:induction false} GridDatesSplit(anchor: Anchor, x: int, y: int, z: int)
    requires WellFormed(anchor) && x <= y + 1 && y <= z
    ensures GridDates(anchor, x, z) == GridDates(anchor, x, y) + GridDates(anchor, y + 1, z)
    decreases z - y
  {
    hide DayFromCivil, CivilFromDay, GridDay;
    if y < z {
      GridDatesSplit(anchor, x, y, z - 1);
    }
  }

  // Days off the grid contribute nothing.
  lemma {:induction false} OffGrid(anchor: Anchor, lo: int, mid: int, hi: int)
    requires WellFormed(anchor) && mid <= hi
    requires forall d :: mid < d <= hi && lo <= d ==> !GridDay(anchor, d)
    ensures GridDates(anchor, lo, hi) == GridDates(anchor, lo, mid)
    decreases hi - mid
  {
    hide DayFromCivil, CivilFromDay, GridDay;
    if mid < hi {
      OffGrid(anchor, lo, mid, hi - 1);
    }
  }

  // What pushing one grid day does, given that no grid day lies between it and the last one reached.
  lemma ReachGridDay(anchor: Anchor, lo: int, hi: int, mid: int, day: int)
    requires WellFormed(anchor) && lo <= hi && mid <= day && GridDay(anchor, day)
    requires forall d :: mid < d < day && lo <= d <= hi ==> !GridDay(anchor, d)
    ensures var dates, c := GridDates(anchor, lo, Min(hi, mid)), CivilFromDay(day);
      GridDates(anchor, lo, Min(hi, day)) ==
        if lo <= day <= hi && (dates == [] || dates[|dates| - 1] != c) then dates + [c] else dates
  {
    hide DayFromCivil, CivilFromDay;
    var dates := GridDates(anchor, lo, Min(hi, mid));
    if mid == day {
      if lo <= day <= hi {
        assert dates == GridDates(anchor, lo, day - 1) + [CivilFromDay(day)];
      }
    } else if day <= hi {
      OffGrid(anchor, lo, mid, day - 1);
      if lo <= day && dates != [] {
        GridDatesExact(anchor, lo, mid);
        DayRoundTrip(day);
        assert dates[|dates| - 1] in dates;
      }
    } else {
      OffGrid(anchor, lo, Min(hi, mid), hi);
    }
  }

  // Months.

  function FirstOfMonth(monthIndex: int): Civil {
    Civil(monthIndex / 12, monthIndex % 12 + 1, 1)
  }

  function MonthFirstDay(monthIndex: int): int {
    DayFromCivil(FirstOfMonth(monthIndex))
  }

  function LengthOf(monthIndex: int): int {
    MonthLength(monthIndex / 12, monthIndex % 12 + 1)
  }

  lemma MonthsAdjoin(monthIndex: int)
    ensures MonthFirstDay(monthIndex + 1) == MonthFirstDay(monthIndex) + LengthOf(monthIndex)
  {
    var last := Civil(monthIndex / 12, monthIndex % 12 + 1, LengthOf(monthIndex));
    hide DayFromCivil, CivilFromDay;
    LaterInMonth(FirstOfMonth(monthIndex), LengthOf(monthIndex));
    NextDayIsOneLater(last);
    assert (monthIndex + 1) / 12 == (if monthIndex % 12 == 11 then monthIndex / 12 + 1 else monthIndex / 12);
    assert NextDay(last) == FirstOfMonth(monthIndex + 1);
  }

  lemma DayInMonth(monthIndex: int, day: int)
    requires 1 <= day <= LengthOf(monthIndex)
    ensures var c := Civil(monthIndex / 12, monthIndex % 12 + 1, day);
      Valid(c) && CivilFromDay(MonthFirstDay(monthIndex) + day - 1) == c && MonthIndex(c) == monthIndex
      && DayFromCivil(c) == MonthFirstDay(monthIndex) + day - 1
  {
    var c := Civil(monthIndex / 12, monthIndex % 12 + 1, day);
    hide DayFromCivil, CivilFromDay;
    LaterInMonth(FirstOfMonth(monthIndex), day);
    assert DayFromCivil(c) == MonthFirstDay(monthIndex) + day - 1;
    CivilRoundTrip(c);
  }

  lemma LaterInMonth(c: Civil, day: int)
    ensures DayFromCivil(c.(day := day)) == DayFromCivil(c) + day - c.day
  {
  }

  function AnchorDays(anchor: Anchor): seq<int>
    requires !anchor.EpochGrid?
  {
    if anchor.DayPair? then [anchor.first, anchor.second] else [anchor.day]
  }

  // Whether the cadence looks at this month at all.
  predicate ActiveMonth(anchor: Anchor, monthIndex: int)
    requires WellFormed(anchor) && !anchor.EpochGrid?
  {
    anchor.DayPair? || monthIndex % anchor.intervalMonths == anchor.phase
  }

  function ClampedDay(anchorDay: int, monthIndex: int): int {
    MonthFirstDay(monthIndex) + Min(anchorDay, LengthOf(monthIndex)) - 1
  }

  lemma GridDaysOfMonth(anchor: Anchor, monthIndex: int, d: int)
    requires WellFormed(anchor) && !anchor.EpochGrid?
    requires MonthFirstDay(monthIndex) <= d < MonthFirstDay(monthIndex) + LengthOf(monthIndex)
    ensures GridDay(anchor, d) <==>
      && ActiveMonth(anchor, monthIndex)
      && exists k :: 0 <= k < |AnchorDays(anchor)| && d == ClampedDay(AnchorDays(anchor)[k], monthIndex)
  {
    DayInMonth(monthIndex, d - MonthFirstDay(monthIndex) + 1);
    var days := AnchorDays(anchor);
    assert d == ClampedDay(days[0], monthIndex) || (|days| == 2 && d == ClampedDay(days[1], monthIndex)) <==>
      exists k :: 0 <= k < |days| && d == ClampedDay(days[k], monthIndex);
  }

  method CadenceDatesBetween(anchor: Anchor, from: Civil, to: Civil) returns (r: Result<seq<Civil>, DateError>)
    requires WellFormed(anchor)
    ensures r.Ok? <==> FourDigits(from) && FourDigits(to)
    ensures r.Ok? ==> r.value == GridDates(anchor, DayFromCivil(from), DayFromCivil(to))
  {
    hide DayFromCivil, CivilFromDay;
    if !FourDigits(from) || !FourDigits(to) {
      return Err(InvalidDate);
    }
    FourDigitRange(from);
    FourDigitRange(to);
    OrderPreserved(to, from);
    if Before(to, from) {
      return Ok([]);
    }
    var dates: seq<Civil>;
    if anchor.EpochGrid? {
      dates := EpochDates(anchor, DayFromCivil(from), DayFromCivil(to));
    } else {
      dates := MonthDates(anchor, from, to);
    }
    return Ok(dates);
  }

  // ceil(n / d) for a positive d.
  function CeilQuotient(n: int, d: int): int
    requires d > 0
  {
    -((-n) / d)
  }

  method EpochDates(anchor: Anchor, fromDay: int, toDay: int) returns (dates: seq<Civil>)
    requires WellFormed(anchor) && anchor.EpochGrid? && FIRST_DAY <= fromDay <= toDay <= LAST_DAY
    ensures dates == GridDates(anchor, fromDay, toDay)
  {
    hide DayFromCivil, CivilFromDay;
    var interval, start := anchor.intervalDays, anchor.anchorEpochDay;
    var first := start + CeilQuotient(fromDay - start, interval) * interval;
    FirstOnGrid(fromDay, start, interval);
    dates := [];
    var day := first;
    while day <= toDay
      invariant fromDay <= day && day - interval <= toDay && Multiple(day - start, interval)
      invariant dates == GridDates(anchor, fromDay, day - interval)
    {
      EpochStep(anchor, day);
      OffGrid(anchor, fromDay, day - interval, day - 1);
      GuardedRoundTrip(CivilFromDay(day), day);
      var date := EpochDayToCivilDate(day);
      assert date == Ok(CivilFromDay(day));
      dates := dates + [date.value];
      day := day + interval;
    }
    EpochStep(anchor, day);
    OffGrid(anchor, fromDay, day - interval, toDay);
  }

  lemma FirstOnGrid(fromDay: int, start: int, interval: int)
    requires interval >= 1
    ensures var first := start + CeilQuotient(fromDay - start, interval) * interval;
      fromDay <= first < fromDay + interval && Multiple(first - start, interval)
  {
    var q, n := CeilQuotient(fromDay - start, interval), start - fromDay;
    assert n == interval * (n / interval) + n % interval;
    ModUnique(q * interval, interval, q, 0);
  }

  lemma SmallMultiple(d: int, gap: int)
    requires d >= 1 && -d < d * gap < d
    ensures gap == 0
  {
  }

  lemma ModUnique(n: int, d: int, q: int, r: int)
    requires d >= 1 && 0 <= r < d && n == d * q + r
    ensures n % d == r
  {
    assert n == d * (n / d) + n % d;
    assert d * (q - n / d) == d * q - d * (n / d);
    SmallMultiple(d, q - n / d);
  }

  lemma NextMultiple(n: int, d: int)
    requires d >= 1 && Multiple(n, d)
    ensures Multiple(n + d, d)
  {
    assert n == d * (n / d);
    assert d * (n / d + 1) == d * (n / d) + d;
    ModUnique(n + d, d, n / d + 1, 0);
  }

  lemma BetweenMultiples(n: int, d: int, k: int)
    requires d >= 1 && Multiple(n, d) && 0 < k < d
    ensures !Multiple(n - k, d)
  {
    assert n == d * (n / d);
    assert d * (n / d - 1) == d * (n / d) - d;
    ModUnique(n - k, d, n / d - 1, d - k);
  }

  // The grid day a step of the loop stands on, and the empty stretch before it.
  lemma EpochStep(anchor: Anchor, day: int)
    requires WellFormed(anchor) && anchor.EpochGrid? && Multiple(day - anchor.anchorEpochDay, anchor.intervalDays)
    ensures GridDay(anchor, day)
    ensures forall d :: day - anchor.intervalDays < d < day ==> !GridDay(anchor, d)
    ensures Multiple(day + anchor.intervalDays - anchor.anchorEpochDay, anchor.intervalDays)
  {
    hide DayFromCivil, CivilFromDay, Multiple;
    DayRoundTrip(day);
    NextMultiple(day - anchor.anchorEpochDay, anchor.intervalDays);
    forall d | day - anchor.intervalDays < d < day ensures !GridDay(anchor, d) {
      DayRoundTrip(d);
      BetweenMultiples(day - anchor.anchorEpochDay, anchor.intervalDays, day - d);
    }
  }

  method MonthDates(anchor: Anchor, from: Civil, to: Civil) returns (dates: seq<Civil>)
    requires WellFormed(anchor) && !anchor.EpochGrid? && FourDigits(from) && FourDigits(to)
    requires DayFromCivil(from) <= DayFromCivil(to)
    ensures dates == GridDates(anchor, DayFromCivil(from), DayFromCivil(to))
  {
    hide DayFromCivil, CivilFromDay;
    ghost var lo, hi := DayFromCivil(from), DayFromCivil(to);
    var fromMonth, toMonth := MonthIndex(from), MonthIndex(to);
    dates := [];
    var monthIndex := fromMonth;
    MonthBounds(from);
    MonthBounds(to);
    OrderPreserved(to, from);
    while monthIndex <= toMonth
      invariant fromMonth <= monthIndex <= toMonth + 1
      invariant dates == GridDates(anchor, lo, Min(hi, MonthFirstDay(monthIndex) - 1))
    {
      MonthsAdjoin(monthIndex);
      if anchor.DayOfMonth? && monthIndex % anchor.intervalMonths != anchor.phase {
        NoGridDays(anchor, monthIndex, MonthFirstDay(monthIndex), MonthFirstDay(monthIndex + 1));
        OffGridUpTo(anchor, lo, hi, MonthFirstDay(monthIndex) - 1, MonthFirstDay(monthIndex + 1) - 1);
      } else {
        dates := PushMonth(anchor, from, to, monthIndex, dates);
      }
      monthIndex := monthIndex + 1;
    }
    assert Min(hi, MonthFirstDay(monthIndex) - 1) == hi;
  }

  lemma OffGridUpTo(anchor: Anchor, lo: int, hi: int, mid: int, end: int)
    requires WellFormed(anchor) && mid <= end
    requires forall d :: mid < d <= end ==> !GridDay(anchor, d)
    ensures GridDates(anchor, lo, Min(hi, end)) == GridDates(anchor, lo, Min(hi, mid))
  {
    OffGrid(anchor, lo, Min(hi, mid), Min(hi, end));
  }

  lemma MonthBounds(c: Civil)
    requires Valid(c)
    ensures MonthFirstDay(MonthIndex(c)) <= DayFromCivil(c) < MonthFirstDay(MonthIndex(c) + 1)
    ensures MonthIndex(c) / 12 == c.year && MonthIndex(c) % 12 == c.month - 1
  {
    hide DayFromCivil, CivilFromDay;
    assert MonthIndex(c) / 12 == c.year && MonthIndex(c) % 12 == c.month - 1;
    MonthsAdjoin(MonthIndex(c));
    DayInMonth(MonthIndex(c), c.day);
  }

  lemma NoGridDays(anchor: Anchor, monthIndex: int, first: int, end: int)
    requires WellFormed(anchor) && !anchor.EpochGrid?
    requires MonthFirstDay(monthIndex) <= first && end <= MonthFirstDay(monthIndex) + LengthOf(monthIndex)
    requires ActiveMonth(anchor, monthIndex) ==>
      forall k :: 0 <= k < |AnchorDays(anchor)| ==>
        var d := ClampedDay(AnchorDays(anchor)[k], monthIndex); d < first || end <= d
    ensures forall d :: first <= d < end ==> !GridDay(anchor, d)
  {
    forall d | first <= d < end ensures !GridDay(anchor, d) {
      GridDaysOfMonth(anchor, monthIndex, d);
    }
  }

  // How far the month has been read once k of its anchor days are done.
  ghost function Reached(anchor: Anchor, monthIndex: int, k: nat): int
    requires WellFormed(anchor) && !anchor.EpochGrid? && k <= |AnchorDays(anchor)|
  {
    if k == 0 then MonthFirstDay(monthIndex) - 1 else ClampedDay(AnchorDays(anchor)[k - 1], monthIndex)
  }

  lemma ReachAnchorDay(anchor: Anchor, monthIndex: int, k: nat, lo: int, hi: int)
    requires WellFormed(anchor) && !anchor.EpochGrid? && k < |AnchorDays(anchor)|
    requires ActiveMonth(anchor, monthIndex) && lo <= hi
    ensures var dates := GridDates(anchor, lo, Min(hi, Reached(anchor, monthIndex, k)));
      var day := ClampedDay(AnchorDays(anchor)[k], monthIndex);
      var c := CivilFromDay(day);
      GridDates(anchor, lo, Min(hi, day)) ==
        if lo <= day <= hi && (dates == [] || dates[|dates| - 1] != c) then dates + [c] else dates
  {
    hide DayFromCivil, CivilFromDay;
    var reached, day := Reached(anchor, monthIndex, k), ClampedDay(AnchorDays(anchor)[k], monthIndex);
    GridDaysOfMonth(anchor, monthIndex, day);
    NoGridDays(anchor, monthIndex, reached + 1, day);
    ReachGridDay(anchor, lo, hi, reached, day);
  }

  lemma ReachMonthEnd(anchor: Anchor, monthIndex: int, lo: int, hi: int)
    requires WellFormed(anchor) && !anchor.EpochGrid? && ActiveMonth(anchor, monthIndex)
    ensures GridDates(anchor, lo, Min(hi, MonthFirstDay(monthIndex + 1) - 1)) ==
      GridDates(anchor, lo, Min(hi, Reached(anchor, monthIndex, |AnchorDays(anchor)|)))
  {
    hide DayFromCivil, CivilFromDay;
    var reached := Reached(anchor, monthIndex, |AnchorDays(anchor)|);
    MonthsAdjoin(monthIndex);
    NoGridDays(anchor, monthIndex, reached + 1, MonthFirstDay(monthIndex + 1));
    OffGridUpTo(anchor, lo, hi, reached, MonthFirstDay(monthIndex + 1) - 1);
  }

  // The body of the month loop: each anchor day, clamped, pushed when in range and not just pushed.
  method PushMonth(anchor: Anchor, from: Civil, to: Civil, monthIndex: int, before: seq<Civil>)
    returns (dates: seq<Civil>)
    requires WellFormed(anchor) && !anchor.EpochGrid? && FourDigits(from) && FourDigits(to)
    requires DayFromCivil(from) <= DayFromCivil(to) && ActiveMonth(anchor, monthIndex)
    requires before == GridDates(anchor, DayFromCivil(from), Min(DayFromCivil(to), MonthFirstDay(monthIndex) - 1))
    ensures dates == GridDates(anchor, DayFromCivil(from), Min(DayFromCivil(to), MonthFirstDay(monthIndex + 1) - 1))
  {
    hide DayFromCivil, CivilFromDay;
    ghost var lo, hi := DayFromCivil(from), DayFromCivil(to);
    var year := monthIndex / 12;
    var month := monthIndex - year * 12 + 1;
    var anchorDays := AnchorDays(anchor);
    dates := before;
    for k := 0 to |anchorDays|
      invariant dates == GridDates(anchor, lo, Min(hi, Reached(anchor, monthIndex, k)))
    {
      var date := Civil(year, month, Min(anchorDays[k], MonthLength(year, month)));
      DayInMonth(monthIndex, date.day);
      ReachAnchorDay(anchor, monthIndex, k, lo, hi);
      OrderPreserved(date, from);
      OrderPreserved(to, date);
      if !Before(date, from) && !Before(to, date) && (|dates| == 0 || dates[|dates| - 1] != date) {
        dates := dates + [date];
      }
    }
    ReachMonthEnd(anchor, monthIndex, lo, hi);
  }
}

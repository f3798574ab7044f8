/**
 * The slot grids the detector lays over a group of transactions, against the cadence grid that
 * projections later read off the emitted anchor.
 */
module RecurringGrids {
  import opened Wrappers
  import opened Arithmetic
  import opened Sorting
  import opened CivilDate
  import opened Cadence
  import opened RecurringFits
  import opened DisjointFits
  import MoneyText

  const SEMIMONTHLY_TOLERANCE := 3

  // What a slot is called: its epoch day, its month index, or its date.
  datatype Naming = ByDay | ByMonth | ByDate

  function DateText(c: Civil): string
    requires FourDigits(c)
  {
    MoneyText.PadStart(MoneyText.NatText(c.year), 4) + "-" + MoneyText.PadStart(MoneyText.NatText(c.month), 2)
    + "-" + MoneyText.PadStart(MoneyText.NatText(c.day), 2)
  }

  function SlotOn(naming: Naming, c: Civil): Slot {
    var key := match naming
      case ByDay => MoneyText.IntText(DayFromCivil(c))
      case ByMonth => MoneyText.IntText(MonthIndex(c))
      case ByDate => if FourDigits(c) then DateText(c) else "";
    Slot(key, DayFromCivil(c))
  }

  function SlotsOn(naming: Naming, dates: seq<Civil>): (r: seq<Slot>)
    ensures |r| == |dates| && forall i :: 0 <= i < |dates| ==> r[i] == SlotOn(naming, dates[i])
  {
    seq(|dates|, i requires 0 <= i < |dates| => SlotOn(naming, dates[i]))
  }

  // Readings of a subset.

  function EpochDays(subset: seq<Txn>): (r: seq<int>)
    ensures |r| == |subset| && forall i :: 0 <= i < |subset| ==> r[i] == subset[i].epochDay
  {
    seq(|subset|, i requires 0 <= i < |subset| => subset[i].epochDay)
  }

  function MonthOf(t: Txn): int {
    MonthIndex(CivilFromDay(t.epochDay))
  }

  function Months(subset: seq<Txn>): (r: seq<int>)
    ensures |r| == |subset| && forall i :: 0 <= i < |subset| ==> r[i] == MonthOf(subset[i])
  {
    seq(|subset|, i requires 0 <= i < |subset| => MonthOf(subset[i]))
  }

  function DaysOfMonth(subset: seq<Txn>): (r: seq<int>)
    ensures |r| == |subset| && forall i :: 0 <= i < |subset| ==> r[i] == CivilFromDay(subset[i].epochDay).day
  {
    seq(|subset|, i requires 0 <= i < |subset| => CivilFromDay(subset[i].epochDay).day)
  }

  function Residues(s: seq<int>, d: int): (r: seq<int>)
    requires d >= 1
    ensures |r| == |s| && forall i :: 0 <= i < |s| ==> r[i] == s[i] % d
  {
    seq(|s|, i requires 0 <= i < |s| => s[i] % d)
  }

  function Unique(s: seq<int>): (r: seq<int>)
    ensures forall x :: x in r <==> x in s
    ensures forall i, j :: 0 <= i < j < |r| ==> r[i] != r[j]
  {
    if s == [] then []
    else
      var before, last := Unique(s[..|s| - 1]), s[|s| - 1];
      assert s == s[..|s| - 1] + [last];
      if last in before then before else before + [last]
  }

  // The proposals, stated by the cadence grid alone.

  function EpochFirst(subset: seq<Txn>, interval: int, remainder: int): int
    requires subset != [] && interval >= 1
  {
    var minDay := Least(EpochDays(subset));
    minDay - (minDay - remainder) % interval - interval
  }

  function EpochProposal(subset: seq<Txn>, interval: int, remainder: int): Proposal
    requires subset != [] && interval in {7, 14}
  {
    var first := EpochFirst(subset, interval, remainder);
    var anchor := EpochGrid(interval, first + interval);
    Proposal(if interval == 7 then Weekly else Biweekly, anchor, subset,
      SlotsOn(ByDay, GridDates(anchor, first, Greatest(EpochDays(subset)) + interval)),
      if interval == 7 then 1 else 2)
  }

  function MonthRangeDates(anchor: Anchor, fromMonth: int, toMonth: int): seq<Civil>
    requires WellFormed(anchor)
  {
    GridDates(anchor, MonthFirstDay(fromMonth), MonthFirstDay(toMonth + 1) - 1)
  }

  function CalendarProposal(subset: seq<Txn>, interval: int, day: int, phase: int): Proposal
    requires subset != [] && interval in {1, 3, 12} && day >= 1
  {
    var anchor := DayOfMonth(day, interval, phase);
    Proposal(if interval == 1 then Monthly else if interval == 3 then Quarterly else Annual, anchor, subset,
      SlotsOn(ByMonth, MonthRangeDates(anchor, Least(Months(subset)) - interval, Greatest(Months(subset)) + interval)),
      if interval == 1 then 3 else if interval == 3 then 5 else 7)
  }

  predicate HalfMonthApart(first: int, second: int) {
    1 <= first && 9 <= second - first <= 20 && second <= 31
  }

  function SemimonthlyProposal(subset: seq<Txn>, first: int, second: int): Proposal
    requires subset != [] && HalfMonthApart(first, second)
  {
    var anchor := DayPair(first, second);
    Proposal(Semimonthly, anchor, subset,
      SlotsOn(ByDate, MonthRangeDates(anchor, Least(Months(subset)) - 1, Greatest(Months(subset)) + 1)),
      SEMIMONTHLY_TOLERANCE)
  }

  // Reading the grid month by month.

  lemma AppendGridDay(anchor: Anchor, lo: int, mid: int, day: int)
    requires WellFormed(anchor) && lo <= day && mid < day && GridDay(anchor, day)
    requires forall d :: mid < d < day ==> !GridDay(anchor, d)
    ensures GridDates(anchor, lo, day) == GridDates(anchor, lo, mid) + [CivilFromDay(day)]
  {
    hide DayFromCivil, CivilFromDay, GridDay;
    OffGrid(anchor, lo, mid, day - 1);
  }

  function MonthDate(anchorDay: int, monthIndex: int): Civil {
    Civil(monthIndex / 12, monthIndex % 12 + 1, Min(anchorDay, LengthOf(monthIndex)))
  }

  lemma MonthDateIsClamped(anchorDay: int, monthIndex: int)
    requires anchorDay >= 1
    ensures Valid(MonthDate(anchorDay, monthIndex)) && MonthIndex(MonthDate(anchorDay, monthIndex)) == monthIndex
    ensures CivilFromDay(ClampedDay(anchorDay, monthIndex)) == MonthDate(anchorDay, monthIndex)
    ensures DayFromCivil(MonthDate(anchorDay, monthIndex)) == ClampedDay(anchorDay, monthIndex)
  {
    hide DayFromCivil, CivilFromDay;
    DayInMonth(monthIndex, Min(anchorDay, LengthOf(monthIndex)));
  }

  /** What one month adds to the dates of the grid. */
  function MonthGrid(anchor: Anchor, monthIndex: int): seq<Civil>
    requires WellFormed(anchor) && !anchor.EpochGrid?
  {
    if !ActiveMonth(anchor, monthIndex) then []
    else if anchor.DayOfMonth? then [MonthDate(anchor.day, monthIndex)]
    else [MonthDate(anchor.first, monthIndex), MonthDate(anchor.second, monthIndex)]
  }

  predicate Calendar(anchor: Anchor) {
    (anchor.DayOfMonth? && WellFormed(anchor)) || (anchor.DayPair? && HalfMonthApart(anchor.first, anchor.second))
  }

  lemma NoGridDaysBetween(anchor: Anchor, monthIndex: int, k: nat)
    requires Calendar(anchor) && ActiveMonth(anchor, monthIndex) && k <= |AnchorDays(anchor)|
    ensures var end := if k < |AnchorDays(anchor)| then ClampedDay(AnchorDays(anchor)[k], monthIndex)
      else MonthFirstDay(monthIndex + 1);
      && Reached(anchor, monthIndex, k) < end
      && (forall d :: Reached(anchor, monthIndex, k) < d < end ==> !GridDay(anchor, d))
      && (k < |AnchorDays(anchor)| ==> GridDay(anchor, end) && MonthFirstDay(monthIndex) <= end)
  {
    hide DayFromCivil, CivilFromDay;
    MonthsAdjoin(monthIndex);
    var end := if k < |AnchorDays(anchor)| then ClampedDay(AnchorDays(anchor)[k], monthIndex)
      else MonthFirstDay(monthIndex + 1);
    NoGridDays(anchor, monthIndex, Reached(anchor, monthIndex, k) + 1, end);
    if k < |AnchorDays(anchor)| {
      GridDaysOfMonth(anchor, monthIndex, end);
    }
  }

  lemma MonthAppends(anchor: Anchor, lo: int, monthIndex: int)
    requires Calendar(anchor) && lo <= MonthFirstDay(monthIndex)
    ensures GridDates(anchor, lo, MonthFirstDay(monthIndex + 1) - 1)
         == GridDates(anchor, lo, MonthFirstDay(monthIndex) - 1) + MonthGrid(anchor, monthIndex)
  {
    hide DayFromCivil, CivilFromDay, GridDates, GridDay, MonthDate;
    var start, end := MonthFirstDay(monthIndex), MonthFirstDay(monthIndex + 1);
    MonthsAdjoin(monthIndex);
    if !ActiveMonth(anchor, monthIndex) {
      NoGridDays(anchor, monthIndex, start, end);
      OffGrid(anchor, lo, start - 1, end - 1);
    } else {
      var n := |AnchorDays(anchor)|;
      NoGridDaysBetween(anchor, monthIndex, 0);
      NoGridDaysBetween(anchor, monthIndex, 1);
      NoGridDaysBetween(anchor, monthIndex, n);
      MonthDateIsClamped(AnchorDays(anchor)[0], monthIndex);
      AppendGridDay(anchor, lo, start - 1, ClampedDay(AnchorDays(anchor)[0], monthIndex));
      if n == 2 {
        MonthDateIsClamped(AnchorDays(anchor)[1], monthIndex);
        AppendGridDay(anchor, lo, ClampedDay(AnchorDays(anchor)[0], monthIndex),
          ClampedDay(AnchorDays(anchor)[1], monthIndex));
      }
      OffGrid(anchor, lo, Reached(anchor, monthIndex, n), end - 1);
    }
  }

  // The detector's loops.

  method EpochSlots(first: int, last: int, interval: int) returns (slots: seq<Slot>)
    requires interval >= 1 && first <= last
    ensures slots == SlotsOn(ByDay, GridDates(EpochGrid(interval, first + interval), first, last))
  {
    hide DayFromCivil, CivilFromDay, GridDay;
    ghost var anchor := EpochGrid(interval, first + interval);
    slots := [];
    var day := first;
    StartsOnGrid(interval);
    while day <= last
      invariant first <= day && day - interval <= last && Multiple(day - anchor.anchorEpochDay, interval)
      invariant slots == SlotsOn(ByDay, GridDates(anchor, first, day - interval))
    {
      EpochStep(anchor, day);
      AppendGridDay(anchor, first, day - interval, day);
      DayRoundTrip(day);
      slots := slots + [Slot(MoneyText.IntText(day), day)];
      day := day + interval;
    }
    EpochStep(anchor, day);
    OffGrid(anchor, first, day - interval, last);
  }

  lemma StartsOnGrid(interval: int)
    requires interval >= 1
    ensures Multiple(-interval, interval)
  {
    ModUnique(-interval, interval, -1, 0);
  }

  predicate Supported(monthIndex: int) {
    1 <= monthIndex / 12 <= 9999
  }

  ghost predicate MonthsSupported(anchor: Anchor, fromMonth: int, toMonth: int)
    requires WellFormed(anchor) && !anchor.EpochGrid?
  {
    forall m :: fromMonth <= m <= toMonth && ActiveMonth(anchor, m) ==> Supported(m)
  }

  lemma MonthSlots(naming: Naming, anchor: Anchor, fromMonth: int, monthIndex: int)
    requires Calendar(anchor) && fromMonth <= monthIndex
    ensures SlotsOn(naming, MonthRangeDates(anchor, fromMonth, monthIndex))
         == SlotsOn(naming, MonthRangeDates(anchor, fromMonth, monthIndex - 1))
           + SlotsOn(naming, MonthGrid(anchor, monthIndex))
  {
    hide DayFromCivil, CivilFromDay, SlotOn, GridDates, MonthGrid;
    FirstDaysIncrease(fromMonth, monthIndex);
    MonthAppends(anchor, MonthFirstDay(fromMonth), monthIndex);
  }

  lemma {:induction false} FirstDaysIncrease(a: int, b: int)
    requires a <= b
    ensures MonthFirstDay(a) + 28 * (b - a) <= MonthFirstDay(b)
    decreases b - a
  {
    hide DayFromCivil, CivilFromDay;
    if a < b {
      FirstDaysIncrease(a, b - 1);
      MonthsAdjoin(b - 1);
    }
  }

  method CalendarSlots(day: int, interval: int, phase: int, fromMonth: int, toMonth: int)
    returns (r: Result<seq<Slot>, DateError>)
    requires day >= 1 && interval >= 1 && fromMonth <= toMonth + 1
    ensures var anchor := DayOfMonth(day, interval, phase);
      && (r.Ok? <==> MonthsSupported(anchor, fromMonth, toMonth))
      && (r.Ok? ==> r.value == SlotsOn(ByMonth, MonthRangeDates(anchor, fromMonth, toMonth)))
  {
    hide DayFromCivil, CivilFromDay, GridDates;
    ghost var anchor := DayOfMonth(day, interval, phase);
    var slots: seq<Slot> := [];
    EmptyRange(anchor, fromMonth);
    var monthIndex := fromMonth;
    while monthIndex <= toMonth
      invariant fromMonth <= monthIndex <= toMonth + 1
      invariant MonthsSupported(anchor, fromMonth, monthIndex - 1)
      invariant slots == SlotsOn(ByMonth, MonthRangeDates(anchor, fromMonth, monthIndex - 1))
    {
      MonthSlots(ByMonth, anchor, fromMonth, monthIndex);
      if monthIndex % interval == phase {
        var year := monthIndex / 12;
        var month := monthIndex - year * 12 + 1;
        var length := DaysInMonth(year, month);
        if length.Err? {
          return Err(length.error);
        }
        MonthDateIsClamped(day, monthIndex);
        var date := Civil(year, month, Min(day, length.value));
        slots := slots + [Slot(MoneyText.IntText(monthIndex), DayFromCivil(date))];
      }
      monthIndex := monthIndex + 1;
    }
    return Ok(slots);
  }

  lemma EmptyRange(anchor: Anchor, fromMonth: int)
    requires WellFormed(anchor)
    ensures MonthRangeDates(anchor, fromMonth, fromMonth - 1) == []
  {
  }

  predicate SlotLe(a: Slot, b: Slot) {
    a.epochDay <= b.epochDay
  }

  lemma PairMonthSlots(first: int, second: int, monthIndex: int)
    requires HalfMonthApart(first, second) && Supported(monthIndex)
    ensures var early, late := MonthDate(first, monthIndex), MonthDate(second, monthIndex);
      && FourDigits(early) && FourDigits(late)
      && SlotsOn(ByDate, MonthGrid(DayPair(first, second), monthIndex))
         == [Slot(DateText(early), DayFromCivil(early)), Slot(DateText(late), DayFromCivil(late))]
  {
    hide DayFromCivil, CivilFromDay, DateText;
    MonthDateIsClamped(first, monthIndex);
    MonthDateIsClamped(second, monthIndex);
  }

  method SemimonthlySlots(first: int, second: int, fromMonth: int, toMonth: int)
    returns (r: Result<seq<Slot>, DateError>)
    requires HalfMonthApart(first, second) && fromMonth <= toMonth + 1
    ensures var anchor := DayPair(first, second);
      && (r.Ok? <==> MonthsSupported(anchor, fromMonth, toMonth))
      && (r.Ok? ==> r.value == SlotsOn(ByDate, MonthRangeDates(anchor, fromMonth, toMonth)))
  {
    hide DayFromCivil, CivilFromDay, GridDates, SlotsOn, SlotOn, DateText, MonthGrid;
    ghost var anchor := DayPair(first, second);
    var slots: seq<Slot> := [];
    EmptyRange(anchor, fromMonth);
    var monthIndex := fromMonth;
    while monthIndex <= toMonth
      invariant fromMonth <= monthIndex <= toMonth + 1
      invariant MonthsSupported(anchor, fromMonth, monthIndex - 1)
      invariant slots == SlotsOn(ByDate, MonthRangeDates(anchor, fromMonth, monthIndex - 1))
    {
      MonthSlots(ByDate, anchor, fromMonth, monthIndex);
      assert ActiveMonth(anchor, monthIndex);
      var year := monthIndex / 12;
      var month := monthIndex - year * 12 + 1;
      var length := DaysInMonth(year, month);
      if length.Err? {
        return Err(length.error);
      }
      PairMonthSlots(first, second, monthIndex);
      var early := Civil(year, month, Min(first, length.value));
      var late := Civil(year, month, Min(second, length.value));
      slots := slots + [Slot(DateText(early), DayFromCivil(early)), Slot(DateText(late), DayFromCivil(late))];
      monthIndex := monthIndex + 1;
    }
    SlotsSorted(ByDate, anchor, MonthFirstDay(fromMonth), MonthFirstDay(toMonth + 1) - 1);
    SortOfSorted(slots, SlotLe);
    return Ok(Sort(slots, SlotLe));
  }

  lemma SlotsSorted(naming: Naming, anchor: Anchor, lo: int, hi: int)
    requires WellFormed(anchor)
    ensures SortedBy(SlotsOn(naming, GridDates(anchor, lo, hi)), SlotLe)
  {
    hide DayFromCivil, CivilFromDay, GridDates;
    var dates := GridDates(anchor, lo, hi);
    GridDatesExact(anchor, lo, hi);
    forall i, j | 0 <= i < j < |dates| ensures SlotLe(SlotsOn(naming, dates)[i], SlotsOn(naming, dates)[j]) {
      assert dates[i] in dates && dates[j] in dates;
      OrderPreserved(dates[i], dates[j]);
    }
  }

  // All proposals for a subset.

  /** Every transaction carries the day of a four-digit date. */
  predicate Dated(subset: seq<Txn>) {
    forall i :: 0 <= i < |subset| ==> FIRST_DAY <= subset[i].epochDay <= LAST_DAY
  }

  ghost predicate IsEpochProposal(subset: seq<Txn>, interval: int, p: Proposal)
    requires subset != [] && interval in {7, 14}
  {
    exists r :: r in Residues(EpochDays(subset), interval) && p == EpochProposal(subset, interval, r)
  }

  ghost predicate IsCalendarProposal(subset: seq<Txn>, interval: int, p: Proposal)
    requires subset != [] && interval in {1, 3, 12}
  {
    exists d, r :: d in DaysOfMonth(subset) && r in Residues(Months(subset), interval) && d >= 1
      && p == CalendarProposal(subset, interval, d, r)
  }

  predicate CandidateDay(subset: seq<Txn>, d: int) {
    d in DaysOfMonth(subset) || 28 <= d <= 31
  }

  ghost predicate IsSemimonthlyProposal(subset: seq<Txn>, p: Proposal)
    requires subset != []
  {
    exists first, second :: HalfMonthApart(first, second) && CandidateDay(subset, first) && CandidateDay(subset, second)
      && p == SemimonthlyProposal(subset, first, second)
  }

  ghost predicate IsProposal(subset: seq<Txn>, p: Proposal)
    requires subset != []
  {
    || IsEpochProposal(subset, 7, p) || IsEpochProposal(subset, 14, p) || IsSemimonthlyProposal(subset, p)
    || IsCalendarProposal(subset, 1, p) || IsCalendarProposal(subset, 3, p) || IsCalendarProposal(subset, 12, p)
  }

  method EpochFits(subset: seq<Txn>, interval: int) returns (proposals: seq<Proposal>)
    requires subset != [] && interval in {7, 14}
    ensures forall p :: p in proposals <==> IsEpochProposal(subset, interval, p)
    ensures Distinct(proposals)
  {
    hide EpochProposal, IsEpochProposal, Distinct;
    var anchors := Unique(Residues(EpochDays(subset), interval));
    proposals := [];
    for i := 0 to |anchors|
      invariant |proposals| == i
      invariant forall j :: 0 <= j < i ==> proposals[j] == EpochProposal(subset, interval, anchors[j])
    {
      var fit := EpochFit(subset, interval, anchors[i]);
      proposals := proposals + [fit];
    }
    EpochOnce(subset, interval, anchors, proposals);
  }

  method EpochFit(subset: seq<Txn>, interval: int, remainder: int) returns (p: Proposal)
    requires subset != [] && interval in {7, 14}
    ensures p == EpochProposal(subset, interval, remainder)
  {
    hide DayFromCivil, CivilFromDay, GridDates, SlotsOn, Least, Greatest;
    var first := EpochFirst(subset, interval, remainder);
    EpochRange(subset, interval, remainder);
    var slots := EpochSlots(first, Greatest(EpochDays(subset)) + interval, interval);
    return Proposal(if interval == 7 then Weekly else Biweekly, EpochGrid(interval, first + interval), subset, slots,
      if interval == 7 then 1 else 2);
  }

  lemma EpochOnce(subset: seq<Txn>, interval: int, anchors: seq<int>, proposals: seq<Proposal>)
    requires subset != [] && interval in {7, 14} && anchors == Unique(Residues(EpochDays(subset), interval))
    requires |proposals| == |anchors|
    requires forall j :: 0 <= j < |anchors| ==> proposals[j] == EpochProposal(subset, interval, anchors[j])
    ensures forall p :: p in proposals <==> IsEpochProposal(subset, interval, p)
    ensures Distinct(proposals)
  {
    hide EpochProposal, EpochDays;
    forall p ensures p in proposals <==> IsEpochProposal(subset, interval, p) {
      if IsEpochProposal(subset, interval, p) {
        var r :| r in Residues(EpochDays(subset), interval) && p == EpochProposal(subset, interval, r);
        var j :| 0 <= j < |anchors| && anchors[j] == r;
        assert proposals[j] == p;
      }
      forall j | 0 <= j < |proposals| && proposals[j] == p ensures IsEpochProposal(subset, interval, p) {
        assert anchors[j] in anchors;
      }
    }
    forall i, j | 0 <= i < j < |proposals| ensures proposals[i] != proposals[j] {
      assert anchors[i] in anchors && anchors[j] in anchors;
      EpochProposalsDiffer(subset, interval, anchors[i], anchors[j]);
    }
  }

  lemma EpochProposalsDiffer(subset: seq<Txn>, interval: int, r: int, q: int)
    requires subset != [] && interval in {7, 14} && 0 <= r < interval && 0 <= q < interval && r != q
    ensures EpochProposal(subset, interval, r) != EpochProposal(subset, interval, q)
  {
    hide Least, Greatest, GridDates, SlotsOn, EpochDays;
    ResiduesDiffer(Least(EpochDays(subset)), interval, r, q);
    var first, other := EpochFirst(subset, interval, r), EpochFirst(subset, interval, q);
    assert EpochProposal(subset, interval, r).anchor == EpochGrid(interval, first + interval);
    assert EpochProposal(subset, interval, q).anchor == EpochGrid(interval, other + interval);
  }

  lemma ResiduesDiffer(day: int, interval: int, r: int, q: int)
    requires interval in {7, 14} && 0 <= r < interval && 0 <= q < interval && r != q
    ensures (day - r) % interval != (day - q) % interval
  {
    if interval == 7 {
      assert (day - r) % 7 != (day - q) % 7;
    } else {
      assert (day - r) % 14 != (day - q) % 14;
    }
  }

  lemma EpochRange(subset: seq<Txn>, interval: int, remainder: int)
    requires subset != [] && interval >= 1
    ensures EpochFirst(subset, interval, remainder) <= Least(EpochDays(subset)) - interval
    ensures Least(EpochDays(subset)) <= Greatest(EpochDays(subset))
  {
    Extremes(EpochDays(subset));
    assert Least(EpochDays(subset)) <= EpochDays(subset)[0] <= Greatest(EpochDays(subset));
  }

  /** Padded by so many months either way, the months of a subset stay within four-digit years. */
  predicate SpanSupported(subset: seq<Txn>, pad: int)
    requires subset != []
  {
    Supported(Least(Months(subset)) - pad) && Supported(Greatest(Months(subset)) + pad)
  }

  lemma BetweenSupported(lo: int, m: int, hi: int)
    requires lo <= m <= hi && Supported(lo) && Supported(hi)
    ensures Supported(m)
  {
  }

  lemma MonthsInOrder(subset: seq<Txn>)
    requires subset != []
    ensures Least(Months(subset)) <= Greatest(Months(subset))
    ensures Least(Months(subset)) in Months(subset)
  {
    Extremes(Months(subset));
    assert Least(Months(subset)) <= Months(subset)[0] <= Greatest(Months(subset));
    LeastIsMember(Months(subset));
  }

  lemma {:induction false} LeastIsMember(s: seq<int>)
    requires s != []
    ensures Least(s) in s && Greatest(s) in s
  {
    if |s| > 1 {
      LeastIsMember(s[..|s| - 1]);
      assert s == s[..|s| - 1] + [s[|s| - 1]];
    }
  }

  lemma SpanGivesMonths(subset: seq<Txn>, pad: int, anchor: Anchor)
    requires subset != [] && SpanSupported(subset, pad) && WellFormed(anchor) && !anchor.EpochGrid?
    ensures MonthsSupported(anchor, Least(Months(subset)) - pad, Greatest(Months(subset)) + pad)
  {
    var lo, hi := Least(Months(subset)) - pad, Greatest(Months(subset)) + pad;
    forall m | lo <= m <= hi && ActiveMonth(anchor, m) ensures Supported(m) {
      BetweenSupported(lo, m, hi);
    }
  }

  lemma ShiftedResidue(m: int, interval: int)
    requires interval in {1, 3, 12}
    ensures (m - interval) % interval == m % interval == (m + interval) % interval
  {
    if interval == 3 {
      assert (m - 3) % 3 == m % 3 == (m + 3) % 3;
    } else if interval == 12 {
      assert (m - 12) % 12 == m % 12 == (m + 12) % 12;
    }
  }

  /** The months that decide: the padded ends of the span are active for some phase. */
  lemma PhaseNeedsSpan(subset: seq<Txn>, interval: int, day: int, phase: int)
    requires subset != [] && interval in {1, 3, 12} && day >= 1
    ensures var lo, hi := Least(Months(subset)) - interval, Greatest(Months(subset)) + interval;
      var supported := MonthsSupported(DayOfMonth(day, interval, phase), lo, hi);
      && (phase == Least(Months(subset)) % interval && supported ==> Supported(lo))
      && (phase == Greatest(Months(subset)) % interval && supported ==> Supported(hi))
  {
    hide Least, Greatest, Months, DayFromCivil, CivilFromDay;
    MonthsInOrder(subset);
    ShiftedResidue(Least(Months(subset)), interval);
    ShiftedResidue(Greatest(Months(subset)), interval);
    var anchor := DayOfMonth(day, interval, phase);
    assert phase == Least(Months(subset)) % interval ==> ActiveMonth(anchor, Least(Months(subset)) - interval);
    assert phase == Greatest(Months(subset)) % interval ==> ActiveMonth(anchor, Greatest(Months(subset)) + interval);
  }

  ghost predicate PhasesSupported(subset: seq<Txn>, interval: int, phases: seq<int>)
    requires subset != [] && interval in {1, 3, 12}
  {
    forall k :: 0 <= k < |phases| ==> PhaseSupported(subset, interval, phases[k])
  }

  ghost predicate PhaseSupported(subset: seq<Txn>, interval: int, phase: int)
    requires subset != [] && interval in {1, 3, 12}
  {
    MonthsSupported(DayOfMonth(1, interval, phase), Least(Months(subset)) - interval,
      Greatest(Months(subset)) + interval)
  }

  lemma SpanGivesPhases(subset: seq<Txn>, interval: int, phases: seq<int>)
    requires subset != [] && interval in {1, 3, 12} && SpanSupported(subset, interval)
    ensures PhasesSupported(subset, interval, phases)
  {
    hide SpanSupported, MonthsSupported;
    forall k | 0 <= k < |phases| ensures PhaseSupported(subset, interval, phases[k]) {
      SpanGivesMonths(subset, interval, DayOfMonth(1, interval, phases[k]));
    }
  }

  lemma PhasesDecideSpan(subset: seq<Txn>, interval: int)
    requires subset != [] && interval in {1, 3, 12}
    ensures PhasesSupported(subset, interval, Unique(Residues(Months(subset), interval))) <==>
      SpanSupported(subset, interval)
  {
    hide *;
    var phases := Unique(Residues(Months(subset), interval));
    if SpanSupported(subset, interval) {
      SpanGivesPhases(subset, interval, phases);
    }
    if PhasesSupported(subset, interval, phases) {
      PhasesGiveSpan(subset, interval, phases);
    }
  }

  lemma PhasesGiveSpan(subset: seq<Txn>, interval: int, phases: seq<int>)
    requires subset != [] && interval in {1, 3, 12} && phases == Unique(Residues(Months(subset), interval))
    requires PhasesSupported(subset, interval, phases)
    ensures SpanSupported(subset, interval)
  {
    hide Least, Greatest, Months, MonthsSupported, Supported, Unique, Residues;
    var months := Months(subset);
    LeastIsMember(months);
    ResidueOfMember(months, interval, Least(months));
    ResidueOfMember(months, interval, Greatest(months));
    PhaseNeedsSpan(subset, interval, 1, Least(months) % interval);
    PhaseNeedsSpan(subset, interval, 1, Greatest(months) % interval);
  }

  lemma ResidueOfMember(s: seq<int>, d: int, x: int)
    requires d >= 1 && x in s
    ensures x % d in Unique(Residues(s, d))
  {
    var i :| 0 <= i < |s| && s[i] == x;
    assert Residues(s, d)[i] in Residues(s, d);
  }

  method CalendarFits(subset: seq<Txn>, interval: int) returns (r: Result<seq<Proposal>, DateError>)
    requires subset != [] && interval in {1, 3, 12} && Dated(subset)
    ensures r.Ok? <==> SpanSupported(subset, interval)
    ensures r.Ok? ==> forall p :: p in r.value <==> IsCalendarProposal(subset, interval, p)
    ensures r.Ok? ==> Distinct(r.value)
  {
    hide DayFromCivil, CivilFromDay, GridDates, SlotsOn, MonthsSupported, Least, Greatest, SpanSupported;
    var days := Unique(DaysOfMonth(subset));
    var phases := Unique(Residues(Months(subset), interval));
    ObservedDays(subset);
    PhasesDecideSpan(subset, interval);
    var proposals: seq<Proposal> := [];
    for i := 0 to |days|
      invariant i > 0 ==> PhasesSupported(subset, interval, phases)
      invariant forall p :: p in proposals <==> exists j :: 0 <= j < i && OfDay(subset, interval, days[j], phases, p)
      invariant Distinct(proposals)
    {
      assert days[i] in DaysOfMonth(subset);
      var some := DayFits(subset, interval, days[i], phases);
      if some.Err? {
        return Err(some.error);
      }
      OfOtherDays(subset, interval, days, i, phases, proposals, some.value);
      proposals := proposals + some.value;
    }
    assert days[0] in days && |days| > 0 by {
      assert DaysOfMonth(subset)[0] in days;
    }
    forall p ensures p in proposals <==> IsCalendarProposal(subset, interval, p) {
      CalendarByDay(subset, interval, days, phases, p);
    }
    return Ok(proposals);
  }

  ghost predicate OfDay(subset: seq<Txn>, interval: int, day: int, phases: seq<int>, p: Proposal)
    requires subset != [] && interval in {1, 3, 12}
  {
    day >= 1 && exists k :: 0 <= k < |phases| && p == CalendarProposal(subset, interval, day, phases[k])
  }

  lemma CalendarByDay(subset: seq<Txn>, interval: int, days: seq<int>, phases: seq<int>, p: Proposal)
    requires subset != [] && interval in {1, 3, 12}
    requires days == Unique(DaysOfMonth(subset)) && phases == Unique(Residues(Months(subset), interval))
    ensures (exists j :: 0 <= j < |days| && OfDay(subset, interval, days[j], phases, p)) <==>
      IsCalendarProposal(subset, interval, p)
  {
    hide CalendarProposal, CivilFromDay;
    if IsCalendarProposal(subset, interval, p) {
      var d, r :| d in DaysOfMonth(subset) && r in Residues(Months(subset), interval) && d >= 1
        && p == CalendarProposal(subset, interval, d, r);
      assert d in days && r in phases;
      var j :| 0 <= j < |days| && days[j] == d;
      var k :| 0 <= k < |phases| && phases[k] == r;
      assert OfDay(subset, interval, days[j], phases, p);
    } else if j :| 0 <= j < |days| && OfDay(subset, interval, days[j], phases, p) {
      var k :| 0 <= k < |phases| && p == CalendarProposal(subset, interval, days[j], phases[k]);
      assert days[j] in days && phases[k] in phases;
    }
  }

  lemma ObservedDays(subset: seq<Txn>)
    ensures forall d :: d in DaysOfMonth(subset) ==> 1 <= d <= 31
  {
    hide DayFromCivil, CivilFromDay;
    forall i | 0 <= i < |subset| ensures 1 <= DaysOfMonth(subset)[i] <= 31 {
      DayRoundTrip(subset[i].epochDay);
    }
  }

  method DayFits(subset: seq<Txn>, interval: int, day: int, phases: seq<int>)
    returns (r: Result<seq<Proposal>, DateError>)
    requires subset != [] && interval in {1, 3, 12} && day >= 1
    ensures r.Ok? <==> PhasesSupported(subset, interval, phases)
    ensures r.Ok? ==> forall p :: p in r.value <==> OfDay(subset, interval, day, phases, p)
    ensures r.Ok? && Distinct(phases) ==> Distinct(r.value)
  {
    hide DayFromCivil, CivilFromDay, GridDates, SlotsOn, MonthsSupported, PhasesSupported, Least, Greatest;
    var fromMonth, toMonth := Least(Months(subset)) - interval, Greatest(Months(subset)) + interval;
    MonthsInOrder(subset);
    var proposals: seq<Proposal> := [];
    NoPhase(subset, interval);
    assert phases[..0] == [];
    for k := 0 to |phases|
      invariant PhasesSupported(subset, interval, phases[..k])
      invariant |proposals| == k
      invariant forall j :: 0 <= j < k ==> proposals[j] == CalendarProposal(subset, interval, day, phases[j])
    {
      SameMonthsActive(interval, day, phases[k], fromMonth, toMonth);
      OneMorePhase(subset, interval, phases, k);
      var slots := CalendarSlots(day, interval, phases[k], fromMonth, toMonth);
      if slots.Err? {
        return Err(slots.error);
      }
      var p := Proposal(if interval == 1 then Monthly else if interval == 3 then Quarterly else Annual,
        DayOfMonth(day, interval, phases[k]), subset, slots.value,
        if interval == 1 then 3 else if interval == 3 then 5 else 7);
      assert p == CalendarProposal(subset, interval, day, phases[k]);
      proposals := proposals + [p];
    }
    assert phases[..|phases|] == phases;
    DayOnce(subset, interval, day, phases, proposals);
    return Ok(proposals);
  }

  lemma NoPhase(subset: seq<Txn>, interval: int)
    requires subset != [] && interval in {1, 3, 12}
    ensures PhasesSupported(subset, interval, [])
  {
  }

  lemma OneMorePhase(subset: seq<Txn>, interval: int, phases: seq<int>, k: nat)
    requires subset != [] && interval in {1, 3, 12} && k < |phases|
    ensures PhasesSupported(subset, interval, phases[..k + 1])
      <==> PhasesSupported(subset, interval, phases[..k]) && PhaseSupported(subset, interval, phases[k])
    ensures PhasesSupported(subset, interval, phases) ==> PhaseSupported(subset, interval, phases[k])
  {
    hide PhaseSupported;
    var longer, shorter := phases[..k + 1], phases[..k];
    assert forall j :: 0 <= j < k ==> longer[j] == shorter[j];
    assert longer[k] == phases[k];
  }

  lemma DayOnce(subset: seq<Txn>, interval: int, day: int, phases: seq<int>, proposals: seq<Proposal>)
    requires subset != [] && interval in {1, 3, 12} && day >= 1 && |proposals| == |phases|
    requires forall j :: 0 <= j < |phases| ==> proposals[j] == CalendarProposal(subset, interval, day, phases[j])
    ensures forall p :: p in proposals <==> OfDay(subset, interval, day, phases, p)
    ensures Distinct(phases) ==> Distinct(proposals)
  {
    forall j | 0 <= j < |phases| ensures proposals[j].anchor == DayOfMonth(day, interval, phases[j]) {}
    hide CalendarProposal;
    forall p ensures p in proposals <==> OfDay(subset, interval, day, phases, p) {
      if OfDay(subset, interval, day, phases, p) {
        var k :| 0 <= k < |phases| && p == CalendarProposal(subset, interval, day, phases[k]);
        assert proposals[k] == p;
      }
    }
  }

  lemma OfOtherDays(subset: seq<Txn>, interval: int, days: seq<int>, i: nat, phases: seq<int>, before: seq<Proposal>,
                    more: seq<Proposal>)
    requires subset != [] && interval in {1, 3, 12} && i < |days| && Distinct(days)
    requires forall p :: p in before ==> exists j :: 0 <= j < i && OfDay(subset, interval, days[j], phases, p)
    requires forall p :: p in more ==> OfDay(subset, interval, days[i], phases, p)
    requires Distinct(before) && Distinct(more)
    ensures Distinct(before + more)
  {
    hide CalendarProposal;
    forall p | p in before ensures p !in more {
      var j :| 0 <= j < i && OfDay(subset, interval, days[j], phases, p);
      AnchorOfDay(subset, interval, days[j], phases, p);
      AnchorOfDay(subset, interval, days[i], phases, p);
    }
    DistinctAppend(before, more);
  }

  lemma AnchorOfDay(subset: seq<Txn>, interval: int, day: int, phases: seq<int>, p: Proposal)
    requires subset != [] && interval in {1, 3, 12}
    ensures OfDay(subset, interval, day, phases, p) ==> p.anchor.DayOfMonth? && p.anchor.day == day
  {
  }

  lemma DistinctAppend(a: seq<Proposal>, b: seq<Proposal>)
    requires Distinct(a) && Distinct(b) && forall p :: p in a ==> p !in b
    ensures Distinct(a + b)
  {
    forall i, j | 0 <= i < |a| && 0 <= j < |b| ensures a[i] != b[j] {
      assert a[i] in a && b[j] in b;
    }
  }

  lemma SameMonthsActive(interval: int, day: int, phase: int, fromMonth: int, toMonth: int)
    requires day >= 1 && interval >= 1
    ensures MonthsSupported(DayOfMonth(day, interval, phase), fromMonth, toMonth)
        <==> MonthsSupported(DayOfMonth(1, interval, phase), fromMonth, toMonth)
  {
    var a, b := DayOfMonth(day, interval, phase), DayOfMonth(1, interval, phase);
    assert forall m :: ActiveMonth(a, m) <==> ActiveMonth(b, m);
  }

  /** Two candidate days nine to twenty apart. */
  ghost predicate SomePair(subset: seq<Txn>) {
    exists first, second :: HalfMonthApart(first, second) && CandidateDay(subset, first) && CandidateDay(subset, second)
  }

  method SemimonthlyFits(subset: seq<Txn>) returns (r: Result<seq<Proposal>, DateError>)
    requires subset != [] && Dated(subset)
    ensures r.Ok? <==> SpanSupported(subset, 1) || !SomePair(subset)
    ensures r.Ok? ==> forall p :: p in r.value <==> IsSemimonthlyProposal(subset, p)
    ensures r.Ok? ==> Distinct(r.value)
  {
    hide CandidateDay, HalfMonthApart, IsSemimonthlyProposal, SpanSupported, Sort, Unique, SortedBy, Distinct,
      CivilFromDay, DaysOfMonth;
    var days := Sort(Unique(DaysOfMonth(subset) + [28, 29, 30, 31]), IntLe);
    ObservedDays(subset);
    SortedDays(subset, days);
    var pairs := DayPairs(days);
    r := PairFits(subset, pairs);
    PairsExist(subset, pairs);
    if r.Ok? {
      forall p ensures p in r.value <==> IsSemimonthlyProposal(subset, p) {
        SemimonthlyByPair(subset, pairs, p);
      }
    }
  }

  lemma PairsExist(subset: seq<Txn>, pairs: seq<(int, int)>)
    requires forall first, second :: (first, second) in pairs <==>
      HalfMonthApart(first, second) && CandidateDay(subset, first) && CandidateDay(subset, second)
    ensures pairs != [] <==> SomePair(subset)
    ensures forall k :: 0 <= k < |pairs| ==> HalfMonthApart(pairs[k].0, pairs[k].1)
  {
    hide HalfMonthApart, CandidateDay;
    forall k | 0 <= k < |pairs|
      ensures HalfMonthApart(pairs[k].0, pairs[k].1) && CandidateDay(subset, pairs[k].0)
      ensures CandidateDay(subset, pairs[k].1)
    {
      assert (pairs[k].0, pairs[k].1) in pairs;
    }
    if pairs != [] {
      assert HalfMonthApart(pairs[0].0, pairs[0].1);
    }
  }

  ghost predicate OfPair(subset: seq<Txn>, pair: (int, int), p: Proposal)
    requires subset != []
  {
    HalfMonthApart(pair.0, pair.1) && p == SemimonthlyProposal(subset, pair.0, pair.1)
  }

  method PairFits(subset: seq<Txn>, pairs: seq<(int, int)>) returns (r: Result<seq<Proposal>, DateError>)
    requires subset != [] && forall k :: 0 <= k < |pairs| ==> HalfMonthApart(pairs[k].0, pairs[k].1)
    ensures r.Ok? <==> SpanSupported(subset, 1) || pairs == []
    ensures r.Ok? ==> forall p :: p in r.value <==> exists j :: 0 <= j < |pairs| && OfPair(subset, pairs[j], p)
    ensures r.Ok? && Distinct(pairs) ==> Distinct(r.value)
  {
    hide SemimonthlyProposal, HalfMonthApart, SpanSupported;
    var proposals: seq<Proposal> := [];
    for k := 0 to |pairs|
      invariant k > 0 ==> SpanSupported(subset, 1)
      invariant |proposals| == k
      invariant forall j :: 0 <= j < k ==> proposals[j] == SemimonthlyProposal(subset, pairs[j].0, pairs[j].1)
    {
      var fit := SemimonthlyFit(subset, pairs[k].0, pairs[k].1);
      if fit.Err? {
        return Err(fit.error);
      }
      proposals := proposals + [fit.value];
    }
    PairOnce(subset, pairs, proposals);
    return Ok(proposals);
  }

  lemma PairOnce(subset: seq<Txn>, pairs: seq<(int, int)>, proposals: seq<Proposal>)
    requires subset != [] && forall k :: 0 <= k < |pairs| ==> HalfMonthApart(pairs[k].0, pairs[k].1)
    requires |proposals| == |pairs|
    requires forall j :: 0 <= j < |pairs| ==> proposals[j] == SemimonthlyProposal(subset, pairs[j].0, pairs[j].1)
    ensures forall p :: p in proposals <==> exists j :: 0 <= j < |pairs| && OfPair(subset, pairs[j], p)
    ensures Distinct(pairs) ==> Distinct(proposals)
  {
    forall j | 0 <= j < |pairs|
      ensures proposals[j].anchor == DayPair(pairs[j].0, pairs[j].1) && OfPair(subset, pairs[j], proposals[j])
    {
    }
    hide SemimonthlyProposal, HalfMonthApart;
  }

  method SemimonthlyFit(subset: seq<Txn>, first: int, second: int) returns (r: Result<Proposal, DateError>)
    requires subset != [] && HalfMonthApart(first, second)
    ensures r.Ok? <==> SpanSupported(subset, 1)
    ensures r.Ok? ==> r.value == SemimonthlyProposal(subset, first, second)
  {
    hide DayFromCivil, CivilFromDay, GridDates, SlotsOn, MonthsSupported, Least, Greatest, SpanSupported;
    MonthsInOrder(subset);
    PairNeedsSpan(subset, first, second);
    var slots := SemimonthlySlots(first, second, Least(Months(subset)) - 1, Greatest(Months(subset)) + 1);
    if slots.Err? {
      return Err(slots.error);
    }
    return Ok(Proposal(Semimonthly, DayPair(first, second), subset, slots.value, SEMIMONTHLY_TOLERANCE));
  }

  lemma PairNeedsSpan(subset: seq<Txn>, first: int, second: int)
    requires subset != [] && HalfMonthApart(first, second)
    ensures MonthsSupported(DayPair(first, second), Least(Months(subset)) - 1, Greatest(Months(subset)) + 1) <==>
      SpanSupported(subset, 1)
  {
    hide Least, Greatest, Months;
    MonthsInOrder(subset);
    var anchor := DayPair(first, second);
    assert ActiveMonth(anchor, Least(Months(subset)) - 1) && ActiveMonth(anchor, Greatest(Months(subset)) + 1);
    if SpanSupported(subset, 1) {
      SpanGivesMonths(subset, 1, anchor);
    }
  }

  lemma SemimonthlyByPair(subset: seq<Txn>, pairs: seq<(int, int)>, p: Proposal)
    requires subset != []
    requires forall first, second :: (first, second) in pairs <==>
      HalfMonthApart(first, second) && CandidateDay(subset, first) && CandidateDay(subset, second)
    ensures IsSemimonthlyProposal(subset, p) <==> exists j :: 0 <= j < |pairs| && OfPair(subset, pairs[j], p)
  {
    hide SemimonthlyProposal, CandidateDay, HalfMonthApart;
    if IsSemimonthlyProposal(subset, p) {
      var first, second :| HalfMonthApart(first, second) && CandidateDay(subset, first) && CandidateDay(subset, second)
        && p == SemimonthlyProposal(subset, first, second);
      var j :| 0 <= j < |pairs| && pairs[j] == (first, second);
      assert OfPair(subset, pairs[j], p);
    }
    forall j | 0 <= j < |pairs| && OfPair(subset, pairs[j], p) ensures IsSemimonthlyProposal(subset, p) {
      assert (pairs[j].0, pairs[j].1) in pairs;
    }
  }

  lemma SortedDays(subset: seq<Txn>, days: seq<int>)
    requires days == Sort(Unique(DaysOfMonth(subset) + [28, 29, 30, 31]), IntLe)
    requires forall d :: d in DaysOfMonth(subset) ==> 1 <= d <= 31
    ensures forall d :: d in days <==> CandidateDay(subset, d)
    ensures forall d :: d in days ==> 1 <= d <= 31
    ensures SortedBy(days, IntLe) && Distinct(days)
  {
    hide Sort, SortedBy, DaysOfMonth, CivilFromDay;
    var all := Unique(DaysOfMonth(subset) + [28, 29, 30, 31]);
    SameElements(all, IntLe);
    SortSorts(all, IntLe);
    SortDistinct(all, IntLe);
  }

  ghost predicate PairedBelow(days: seq<int>, i: int, j: int, first: int, second: int) {
    exists m, n :: 0 <= m <= i && m < n < |days| && (m == i ==> n < j)
      && first == days[m] && second == days[n] && 9 <= second - first <= 20
  }

  method DayPairs(days: seq<int>) returns (pairs: seq<(int, int)>)
    requires SortedBy(days, IntLe) && Distinct(days) && forall d :: d in days ==> 1 <= d <= 31
    ensures forall first, second :: (first, second) in pairs <==>
      HalfMonthApart(first, second) && first in days && second in days
    ensures Distinct(pairs)
  {
    pairs := [];
    for i := 0 to |days|
      invariant forall first, second :: (first, second) in pairs <==> PairedBelow(days, i, i, first, second)
      invariant Distinct(pairs)
    {
      for j := i + 1 to |days|
        invariant forall first, second :: (first, second) in pairs <==> PairedBelow(days, i, j, first, second)
        invariant Distinct(pairs)
      {
        if days[j] - days[i] >= 9 && days[j] - days[i] <= 20 {
          assert (days[i], days[j]) !in pairs;
          pairs := pairs + [(days[i], days[j])];
        }
      }
      if i + 1 == |days| {
        assert forall first, second :: PairedBelow(days, i, |days|, first, second) <==>
          PairedBelow(days, i, i, first, second);
      }
    }
    forall first, second
      ensures (first, second) in pairs <==> HalfMonthApart(first, second) && first in days && second in days
    {
      PairsOfDays(days, first, second);
    }
  }

  lemma PairsOfDays(days: seq<int>, first: int, second: int)
    requires SortedBy(days, IntLe) && forall d :: d in days ==> 1 <= d <= 31
    ensures PairedBelow(days, |days|, |days|, first, second) <==>
      HalfMonthApart(first, second) && first in days && second in days
  {
    if HalfMonthApart(first, second) && first in days && second in days {
      var m :| 0 <= m < |days| && days[m] == first;
      var n :| 0 <= n < |days| && days[n] == second;
      assert n < m ==> IntLe(days[n], days[m]);
      assert 0 <= m <= |days| && m < n < |days| && first == days[m] && second == days[n];
    }
    if PairedBelow(days, |days|, |days|, first, second) {
      var m, n :| 0 <= m < n < |days| && first == days[m] && second == days[n] && 9 <= second - first <= 20;
      assert days[m] in days && days[n] in days;
    }
  }

  // Where the proposals come from and where their slots lie.

  predicate YearsInside(subset: seq<Txn>) {
    forall i :: 0 <= i < |subset| ==> 2 <= CivilFromDay(subset[i].epochDay).year <= 9998
  }

  lemma YearOfMonth(t: Txn)
    ensures MonthOf(t) / 12 == CivilFromDay(t.epochDay).year
  {
    hide DayFromCivil, CivilFromDay;
    DayRoundTrip(t.epochDay);
    MonthBounds(CivilFromDay(t.epochDay));
  }

  /** A year of padding either way is what needs the years 2 to 9998. */
  lemma YearOfPadding(subset: seq<Txn>)
    requires subset != []
    ensures SpanSupported(subset, 12) <==> YearsInside(subset)
    ensures SpanSupported(subset, 12) ==> SpanSupported(subset, 1) && SpanSupported(subset, 3)
  {
    hide Least, Greatest, CivilFromDay, DayFromCivil, Months, MonthOf;
    var months := Months(subset);
    Extremes(months);
    LeastIsMember(months);
    MonthsInOrder(subset);
    forall i | 0 <= i < |subset| ensures months[i] / 12 == CivilFromDay(subset[i].epochDay).year {
      YearOfMonth(subset[i]);
    }
    if YearsInside(subset) {
      var i :| 0 <= i < |months| && months[i] == Least(months);
      var j :| 0 <= j < |months| && months[j] == Greatest(months);
      assert 2 <= months[i] / 12 && months[j] / 12 <= 9998;
    }
  }

  method ProposalsFor(subset: seq<Txn>) returns (r: Result<seq<Proposal>, DateError>)
    requires subset != [] && Dated(subset)
    ensures r.Ok? <==> YearsInside(subset)
    ensures r.Ok? ==> forall p :: p in r.value <==> IsProposal(subset, p)
  {
    hide IsEpochProposal, IsSemimonthlyProposal, IsCalendarProposal, SpanSupported, YearsInside, Distinct, SomePair;
    YearOfPadding(subset);
    var weekly := EpochFits(subset, 7);
    var biweekly := EpochFits(subset, 14);
    var semimonthly :- SemimonthlyFits(subset);
    var monthly :- CalendarFits(subset, 1);
    var quarterly :- CalendarFits(subset, 3);
    var annual :- CalendarFits(subset, 12);
    return Ok(weekly + biweekly + semimonthly + monthly + quarterly + annual);
  }

  function DetectorTolerance(cadence: CadenceName): nat {
    match cadence
    case Weekly => 1
    case Biweekly => 2
    case Semimonthly => 3
    case Monthly => 3
    case Quarterly => 5
    case Annual => 7
  }

  predicate Near(t: Txn, c: Civil, tolerance: nat) {
    Abs(t.epochDay - DayFromCivil(c)) <= tolerance
  }

  ghost predicate SlotAt(p: Proposal, c: Civil) {
    exists i :: 0 <= i < |p.slots| && p.slots[i].epochDay == DayFromCivil(c)
  }

  ghost predicate OnOwnGrid(p: Proposal) {
    WellFormed(p.anchor) && forall i :: 0 <= i < |p.slots| ==> OnGridDay(p.anchor, p.slots[i].epochDay)
  }

  ghost predicate OnGridDay(anchor: Anchor, day: int)
    requires WellFormed(anchor)
  {
    exists c :: Valid(c) && DayFromCivil(c) == day && OnGrid(anchor, c)
  }

  /** The slots of a proposal are the dates of its anchor's grid in some range that reaches beyond the subset. */
  ghost predicate LaidOut(subset: seq<Txn>, p: Proposal, naming: Naming, lo: int, hi: int) {
    && p.subset == subset && WellFormed(p.anchor) && p.toleranceDays == DetectorTolerance(p.cadence)
    && p.slots == SlotsOn(naming, GridDates(p.anchor, lo, hi))
    && forall i :: 0 <= i < |subset| ==> lo + 7 <= subset[i].epochDay <= hi - 7
  }

  lemma EpochLaidOut(subset: seq<Txn>, interval: int, r: int)
    requires subset != [] && interval in {7, 14}
    ensures LaidOut(subset, EpochProposal(subset, interval, r), ByDay,
      EpochFirst(subset, interval, r), Greatest(EpochDays(subset)) + interval)
  {
    hide Least, Greatest, GridDates, SlotsOn, EpochFirst;
    EpochRange(subset, interval, r);
    Extremes(EpochDays(subset));
    assert forall i :: 0 <= i < |subset| ==> EpochDays(subset)[i] == subset[i].epochDay;
  }

  lemma MonthsReach(subset: seq<Txn>, pad: int, i: nat)
    requires i < |subset| && pad >= 1
    ensures MonthFirstDay(Least(Months(subset)) - pad) + 7 <= subset[i].epochDay
    ensures subset[i].epochDay <= MonthFirstDay(Greatest(Months(subset)) + pad + 1) - 1 - 7
  {
    hide DayFromCivil, CivilFromDay, Least, Greatest, MonthFirstDay;
    Extremes(Months(subset));
    var m := MonthOf(subset[i]);
    assert Months(subset)[i] == m;
    DayRoundTrip(subset[i].epochDay);
    MonthBounds(CivilFromDay(subset[i].epochDay));
    FirstDaysIncrease(Least(Months(subset)) - pad, m);
    FirstDaysIncrease(m + 1, Greatest(Months(subset)) + pad + 1);
  }

  lemma CalendarLaidOut(subset: seq<Txn>, interval: int, d: int, r: int)
    requires subset != [] && interval in {1, 3, 12} && d >= 1
    ensures LaidOut(subset, CalendarProposal(subset, interval, d, r), ByMonth,
      MonthFirstDay(Least(Months(subset)) - interval), MonthFirstDay(Greatest(Months(subset)) + interval + 1) - 1)
  {
    hide Least, Greatest, GridDates, SlotsOn, MonthFirstDay, Months;
    forall i | 0 <= i < |subset|
      ensures MonthFirstDay(Least(Months(subset)) - interval) + 7 <= subset[i].epochDay
        <= MonthFirstDay(Greatest(Months(subset)) + interval + 1) - 1 - 7
    {
      MonthsReach(subset, interval, i);
    }
  }

  lemma SemimonthlyLaidOut(subset: seq<Txn>, first: int, second: int)
    requires subset != [] && HalfMonthApart(first, second)
    ensures LaidOut(subset, SemimonthlyProposal(subset, first, second), ByDate,
      MonthFirstDay(Least(Months(subset)) - 1), MonthFirstDay(Greatest(Months(subset)) + 1 + 1) - 1)
  {
    hide Least, Greatest, GridDates, SlotsOn, MonthFirstDay, Months;
    forall i | 0 <= i < |subset|
      ensures MonthFirstDay(Least(Months(subset)) - 1) + 7 <= subset[i].epochDay
        <= MonthFirstDay(Greatest(Months(subset)) + 1 + 1) - 1 - 7
    {
      MonthsReach(subset, 1, i);
    }
  }

  lemma LaidOutOf(subset: seq<Txn>, p: Proposal) returns (naming: Naming, lo: int, hi: int)
    requires subset != [] && IsProposal(subset, p)
    ensures LaidOut(subset, p, naming, lo, hi)
  {
    hide LaidOut, IsEpochProposal, IsCalendarProposal, IsSemimonthlyProposal;
    if IsSemimonthlyProposal(subset, p) {
      naming, lo, hi := SemimonthlyLaidOutOf(subset, p);
    } else if IsEpochProposal(subset, 7, p) || IsEpochProposal(subset, 14, p) {
      naming, lo, hi := EpochLaidOutOf(subset, if IsEpochProposal(subset, 7, p) then 7 else 14, p);
    } else {
      naming, lo, hi := CalendarLaidOutOf(subset,
        if IsCalendarProposal(subset, 1, p) then 1 else if IsCalendarProposal(subset, 3, p) then 3 else 12, p);
    }
  }

  lemma SemimonthlyLaidOutOf(subset: seq<Txn>, p: Proposal) returns (naming: Naming, lo: int, hi: int)
    requires subset != [] && IsSemimonthlyProposal(subset, p)
    ensures LaidOut(subset, p, naming, lo, hi)
  {
    hide LaidOut, SemimonthlyProposal, MonthFirstDay, CandidateDay, Least, Greatest, HalfMonthApart;
    var first, second :| HalfMonthApart(first, second) && p == SemimonthlyProposal(subset, first, second);
    SemimonthlyLaidOut(subset, first, second);
    naming, lo, hi := ByDate, MonthFirstDay(Least(Months(subset)) - 1),
      MonthFirstDay(Greatest(Months(subset)) + 1 + 1) - 1;
  }

  lemma EpochLaidOutOf(subset: seq<Txn>, interval: int, p: Proposal) returns (naming: Naming, lo: int, hi: int)
    requires subset != [] && interval in {7, 14} && IsEpochProposal(subset, interval, p)
    ensures LaidOut(subset, p, naming, lo, hi)
  {
    hide LaidOut, EpochProposal, EpochFirst;
    var r :| p == EpochProposal(subset, interval, r);
    EpochLaidOut(subset, interval, r);
    naming, lo, hi := ByDay, EpochFirst(subset, interval, r), Greatest(EpochDays(subset)) + interval;
  }

  lemma CalendarLaidOutOf(subset: seq<Txn>, interval: int, p: Proposal) returns (naming: Naming, lo: int, hi: int)
    requires subset != [] && interval in {1, 3, 12} && IsCalendarProposal(subset, interval, p)
    ensures LaidOut(subset, p, naming, lo, hi)
  {
    hide LaidOut, CalendarProposal, MonthFirstDay, Least, Greatest, DaysOfMonth, Residues;
    var d, r :| d >= 1 && p == CalendarProposal(subset, interval, d, r);
    CalendarLaidOut(subset, interval, d, r);
    naming := ByMonth;
    lo, hi := MonthFirstDay(Least(Months(subset)) - interval),
      MonthFirstDay(Greatest(Months(subset)) + interval + 1) - 1;
  }

  /**
   * The slots the detector matches against are the dates of the emitted anchor's own grid: every slot
   * is one, and every grid date within tolerance of a transaction of the subset is a slot.
   */
  lemma SlotsAreTheAnchorGrid(subset: seq<Txn>, p: Proposal)
    requires subset != [] && IsProposal(subset, p)
    ensures p.subset == subset && p.toleranceDays == DetectorTolerance(p.cadence) && OnOwnGrid(p)
    ensures forall t, c :: t in subset && Valid(c) && OnGrid(p.anchor, c) && Near(t, c, p.toleranceDays) ==>
      SlotAt(p, c)
  {
    hide IsProposal, DayFromCivil, CivilFromDay, GridDates;
    var naming, lo, hi := LaidOutOf(subset, p);
    var dates := GridDates(p.anchor, lo, hi);
    GridDatesExact(p.anchor, lo, hi);
    forall i | 0 <= i < |p.slots| ensures OnGridDay(p.anchor, p.slots[i].epochDay) {
      assert dates[i] in dates && p.slots[i] == SlotOn(naming, dates[i]);
    }
    forall t, c | t in subset && Valid(c) && OnGrid(p.anchor, c) && Near(t, c, p.toleranceDays) ensures SlotAt(p, c) {
      assert c in dates;
      var i :| 0 <= i < |dates| && dates[i] == c;
      assert p.slots[i] == SlotOn(naming, c);
    }
  }
}

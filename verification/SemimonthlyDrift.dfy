/** Detection and backtest do not tolerate the same drift: which evidence the backtest cannot reach. */
module SemimonthlyDrift {
  import opened Wrappers
  import opened Arithmetic
  import opened Sorting
  import opened CivilDate
  import opened Cadence
  import opened Matching
  import opened RecurringFits
  import opened DisjointFits
  import opened RecurringGrids
  import opened RecurringDetection
  import MoneyText
  import Backtest

  /** Whatever the detector takes for a date of some grid, the backtest does too. */
  ghost predicate BacktestReaches(cadence: CadenceName) {
    forall anchor: Anchor, t: Txn :: WellFormed(anchor) ==>
      (NearGrid(anchor, t, DetectorTolerance(cadence)) ==> NearGrid(anchor, t, Backtest.ToleranceDays(cadence)))
  }

  /** The backtest reaches all evidence of a cadence exactly when the cadence is not semimonthly. */
  lemma BacktestReachesExactly(cadence: CadenceName)
    ensures BacktestReaches(cadence) <==> cadence != Semimonthly
  {
    hide DayFromCivil, OnGrid;
    if cadence != Semimonthly {
      forall anchor: Anchor, t: Txn | WellFormed(anchor) && NearGrid(anchor, t, DetectorTolerance(cadence))
        ensures NearGrid(anchor, t, Backtest.ToleranceDays(cadence))
      {
        var c :| Valid(c) && OnGrid(anchor, c) && Near(t, c, DetectorTolerance(cadence));
        assert Near(t, c, Backtest.ToleranceDays(cadence));
      }
    } else {
      EarlyDeposit();
    }
  }

  // A payroll on the 15th and the last of the month, whose first deposit comes three days early.

  const EARLY := Txn("a", 19_734, 100)
  const ON_TIME := Txn("b", 19_753, 100)
  const LATER := Txn("c", 19_768, 100)
  const PAYDAYS: seq<Txn> := [EARLY, ON_TIME, LATER]
  const ANCHOR := DayPair(15, 31)

  lemma DaysOf2024(day: int)
    ensures DayFromCivil(Civil(2023, 12, day)) == 19_691 + day
    ensures DayFromCivil(Civil(2024, 1, day)) == 19_722 + day
    ensures DayFromCivil(Civil(2024, 2, day)) == 19_753 + day
    ensures DayFromCivil(Civil(2024, 3, day)) == 19_782 + day
  {
    DayInYear(2023, 12, day);
    DayInYear(2024, 1, day);
    DayInYear(2024, 2, day);
    DayInYear(2024, 3, day);
  }

  lemma DayInYear(year: int, month: int, day: int)
    requires (year == 2023 && month == 12) || (year == 2024 && 1 <= month <= 3)
    ensures DayFromCivil(Civil(year, month, day)) == day + if year == 2023 then 19_691
      else if month == 1 then 19_722 else if month == 2 then 19_753 else 19_782
  {
  }

  /** Within two days of the early deposit there is no payday. */
  lemma EarlyDeposit()
    ensures NearGrid(ANCHOR, EARLY, DetectorTolerance(Semimonthly))
    ensures !NearGrid(ANCHOR, EARLY, Backtest.ToleranceDays(Semimonthly))
  {
    hide DayFromCivil;
    DaysOf2024(15);
    assert Near(EARLY, Civil(2024, 1, 15), 3) && OnGrid(ANCHOR, Civil(2024, 1, 15));
    forall c | Valid(c) && OnGrid(ANCHOR, c) ensures !Near(EARLY, c, 2) {
      if Near(EARLY, c, 2) {
        NearTwelfth(c);
      }
    }
  }

  lemma NearTwelfth(c: Civil)
    requires Valid(c) && Near(EARLY, c, 2)
    ensures c.year == 2024 && c.month == 1 && 10 <= c.day <= 14
  {
    hide DayFromCivil;
    DaysOf2024(10);
    DaysOf2024(14);
    OrderPreserved(c, Civil(2024, 1, 10));
    OrderPreserved(Civil(2024, 1, 14), c);
  }

  lemma PaydayDates()
    ensures CivilFromDay(EARLY.epochDay) == Civil(2024, 1, 12)
    ensures CivilFromDay(ON_TIME.epochDay) == Civil(2024, 1, 31)
    ensures CivilFromDay(LATER.epochDay) == Civil(2024, 2, 15)
  {
    hide DayFromCivil, CivilFromDay;
    DaysOf2024(12);
    DaysOf2024(31);
    DaysOf2024(15);
    CivilRoundTrip(Civil(2024, 1, 12));
    CivilRoundTrip(Civil(2024, 1, 31));
    CivilRoundTrip(Civil(2024, 2, 15));
  }

  function Payroll(): Proposal {
    SemimonthlyProposal(PAYDAYS, 15, 31)
  }

  lemma PaydayMonths()
    ensures Least(Months(PAYDAYS)) == 24_288 && Greatest(Months(PAYDAYS)) == 24_289
    ensures IsProposal(PAYDAYS, Payroll())
  {
    hide DayFromCivil, CivilFromDay, SemimonthlyProposal, Least, Greatest;
    PaydayDates();
    var months := Months(PAYDAYS);
    assert months == [24_288, 24_288, 24_289];
    Extremes(months);
    LeastIsMember(months);
    assert Least(months) <= months[0] && months[2] <= Greatest(months);
    assert DaysOfMonth(PAYDAYS)[2] == 15;
    assert CandidateDay(PAYDAYS, 15) && CandidateDay(PAYDAYS, 31) && HalfMonthApart(15, 31);
    assert IsSemimonthlyProposal(PAYDAYS, Payroll());
  }

  function PaydayGrid(): seq<Civil> {
    [Civil(2023, 12, 15), Civil(2023, 12, 31), Civil(2024, 1, 15), Civil(2024, 1, 31),
     Civil(2024, 2, 15), Civil(2024, 2, 29), Civil(2024, 3, 15), Civil(2024, 3, 31)]
  }

  lemma MonthSlotsOf(month: int, early: Civil, late: Civil)
    requires 24_287 <= month && MonthGrid(ANCHOR, month) == [early, late]
    ensures SlotsOn(ByDate, MonthRangeDates(ANCHOR, 24_287, month))
         == SlotsOn(ByDate, MonthRangeDates(ANCHOR, 24_287, month - 1)) + [SlotOn(ByDate, early), SlotOn(ByDate, late)]
  {
    hide DayFromCivil, CivilFromDay, GridDates, SlotOn, MonthGrid;
    MonthSlots(ByDate, ANCHOR, 24_287, month);
  }

  lemma PayrollSlots()
    ensures Payroll().slots == SlotsOn(ByDate, PaydayGrid())
  {
    hide DayFromCivil, CivilFromDay, GridDates, SlotOn, MonthRangeDates, Least, Greatest, Months;
    PaydayMonths();
    EmptyRange(ANCHOR, 24_287);
    MonthSlotsOf(24_287, Civil(2023, 12, 15), Civil(2023, 12, 31));
    MonthSlotsOf(24_288, Civil(2024, 1, 15), Civil(2024, 1, 31));
    MonthSlotsOf(24_289, Civil(2024, 2, 15), Civil(2024, 2, 29));
    MonthSlotsOf(24_290, Civil(2024, 3, 15), Civil(2024, 3, 31));
    assert SlotsOn(ByDate, []) == [];
  }

  /** A date is told from its text: slots of one grid never share a key. */
  lemma DateTextSeparates(a: Civil, b: Civil)
    requires FourDigits(a) && FourDigits(b) && DateText(a) == DateText(b)
    ensures a == b
  {
    hide MoneyText.PadStart, MoneyText.NatText, MoneyText.Value;
    FieldText(a.year, 4);
    FieldText(a.month, 2);
    FieldText(a.day, 2);
    FieldText(b.year, 4);
    FieldText(b.month, 2);
    FieldText(b.day, 2);
    assert DateText(a)[..4] == DateText(b)[..4];
    assert DateText(a)[5..7] == DateText(b)[5..7];
    assert DateText(a)[8..] == DateText(b)[8..];
    assert DateText(a)[..4] == Field(a.year, 4) && DateText(b)[..4] == Field(b.year, 4);
    assert DateText(a)[5..7] == Field(a.month, 2) && DateText(b)[5..7] == Field(b.month, 2);
    assert DateText(a)[8..] == Field(a.day, 2) && DateText(b)[8..] == Field(b.day, 2);
  }

  function Field(v: nat, width: nat): string {
    MoneyText.PadStart(MoneyText.NatText(v), width)
  }

  lemma FieldText(v: nat, width: nat)
    requires (width == 4 && v <= 9_999) || (width == 2 && v <= 99)
    ensures |Field(v, width)| == width && MoneyText.Digits(Field(v, width)) && MoneyText.Value(Field(v, width)) == v
  {
    hide MoneyText.NatText, MoneyText.Value, MoneyText.PadStart;
    HundredAndTenThousand();
    MoneyText.TextLength(v, width);
    MoneyText.PadStartValue(MoneyText.NatText(v), width);
    MoneyText.NatTextValue(v);
    PadLength(MoneyText.NatText(v), width);
  }

  lemma PadLength(s: string, n: nat)
    ensures |MoneyText.PadStart(s, n)| == if |s| < n then n else |s|
  {
  }

  lemma HundredAndTenThousand()
    ensures MoneyText.Pow10(2) == 100 && MoneyText.Pow10(4) == 10_000
  {
    assert MoneyText.Pow10(1) == 10 && MoneyText.Pow10(3) == 1_000;
  }

  function Pick(k: nat): Candidate
    requires k < 3
  {
    Candidate(PAYDAYS[k], SlotOn(ByDate, PaydayGrid()[k + 2]), k + 2, if k == 0 then 3 else 0)
  }

  /** The only pairs within tolerance are each deposit with its own payday. */
  lemma PayrollCandidates()
    ensures forall c :: c in Candidates(PAYDAYS, Payroll().slots, 3) <==> c == Pick(0) || c == Pick(1) || c == Pick(2)
  {
    hide DayFromCivil, CivilFromDay, Candidates, SemimonthlyProposal, DateText;
    CandidatesExact(PAYDAYS, Payroll().slots, 3);
    PayrollSlots();
    var days := PaydayGrid();
    forall i | 0 <= i < 8
      ensures DayFromCivil(days[i]) == [19_706, 19_722, 19_737, 19_753, 19_768, 19_782, 19_797, 19_813][i]
    {
      DaysOf2024(days[i].day);
    }
  }

  lemma PicksDoNotClash(j: nat, k: nat)
    requires j < 3 && k < 3 && j != k
    ensures !Clash(EndsOf(Pick(j)), EndsOf(Pick(k)))
  {
    hide DayFromCivil, DateText;
    var a, b := PaydayGrid()[j + 2], PaydayGrid()[k + 2];
    if DateText(a) == DateText(b) {
      DateTextSeparates(a, b);
    }
  }

  /** Candidates that do not compete are all chosen. */
  lemma UncontestedChosen(input: seq<Txn>, slots: seq<Slot>, tolerance: nat, idLe: (string, string) -> bool,
                          c: Candidate)
    requires Collation(idLe) && c in Candidates(input, slots, tolerance)
    requires forall d :: d in Candidates(input, slots, tolerance) && Clash(EndsOf(d), EndsOf(c)) ==> d == c
    ensures c in Chosen(input, slots, tolerance, idLe)
  {
    hide Chosen, Candidates, Collation, IsMatching;
    FitSlotsMatches(input, slots, tolerance, idLe);
    var chosen := Chosen(input, slots, tolerance, idLe);
    assert Settled(chosen, EndsOf, Ranking(idLe), c);
    var k :| 0 <= k < |chosen| && Clash(EndsOf(chosen[k]), EndsOf(c)) && Ranking(idLe)(chosen[k], c);
    assert chosen[k] in chosen;
  }

  lemma PicksChosen(idLe: (string, string) -> bool)
    requires Collation(idLe)
    ensures var chosen := Chosen(PAYDAYS, Payroll().slots, 3, idLe);
      && Pick(0) in chosen && Pick(1) in chosen && Pick(2) in chosen
      && forall c :: c in chosen ==> c == Pick(0) || c == Pick(1) || c == Pick(2)
  {
    hide Candidates, Chosen, Pick, Collation, SemimonthlyProposal, Clash;
    PayrollCandidates();
    PicksDoNotClash(0, 1);
    PicksDoNotClash(0, 2);
    PicksDoNotClash(1, 0);
    PicksDoNotClash(1, 2);
    PicksDoNotClash(2, 0);
    PicksDoNotClash(2, 1);
    UncontestedChosen(PAYDAYS, Payroll().slots, 3, idLe, Pick(0));
    UncontestedChosen(PAYDAYS, Payroll().slots, 3, idLe, Pick(1));
    UncontestedChosen(PAYDAYS, Payroll().slots, 3, idLe, Pick(2));
    FitSlotsMatches(PAYDAYS, Payroll().slots, 3, idLe);
  }

  lemma ThreeMembers<T>(s: seq<T>, a: T, b: T, c: T)
    requires a in s && b in s && c in s && a != b && b != c && a != c
    ensures |s| >= 3
  {
    var i :| 0 <= i < |s| && s[i] == a;
    var j :| 0 <= j < |s| && s[j] == b;
    var k :| 0 <= k < |s| && s[k] == c;
  }

  lemma {:induction false} GapBound(s: seq<int>, lo: int, hi: int)
    requires lo < hi && forall i :: 0 <= i < |s| ==> lo <= s[i] <= hi
    ensures LargestGap(s) <= hi - lo
  {
    if |s| >= 2 {
      GapBound(s[..|s| - 1], lo, hi);
    }
  }

  lemma NarrowSpan(chosen: seq<Candidate>, lo: int, hi: int)
    requires chosen != [] && lo < hi && forall c :: c in chosen ==> lo <= c.slotIndex <= hi
    ensures SlotSpan(chosen) <= hi - lo + 1 && GapOf(chosen) <= hi - lo
  {
    hide Least, Greatest, LargestGap, Sort;
    var indexes := SlotIndexes(chosen);
    forall i | 0 <= i < |indexes| ensures lo <= indexes[i] <= hi {
      assert chosen[i] in chosen;
    }
    LeastIsMember(indexes);
    SameElements(indexes, IntLe);
    var sorted := Sort(indexes, IntLe);
    forall i | 0 <= i < |sorted| ensures lo <= sorted[i] <= hi {
      assert sorted[i] in sorted;
    }
    GapBound(sorted, lo, hi);
  }

  lemma FitIsMade(p: Proposal, idLe: (string, string) -> bool, t: Txn) returns (fit: Fit)
    requires Collation(idLe)
    requires var chosen := Chosen(p.subset, p.slots, p.toleranceDays, idLe);
      && |chosen| >= 3 && SlotSpan(chosen) <= 3 && GapOf(chosen) <= 2
      && exists c :: c in chosen && c.txn == t
    ensures Made(p, idLe) == Some(fit) && t in fit.matched && fit.cadence == p.cadence && fit.fitKey.anchor == p.anchor
  {
    hide Chosen, SlotSpan, GapOf, Collation, Chronology, ScoreFit, AmountFixed, TxnIds;
    var chosen := Chosen(p.subset, p.slots, p.toleranceDays, idLe);
    FitIsSpanned(p, idLe);
    fit := FitFor(p, idLe);
    SameElements(TxnsOf(chosen), Chronology(idLe));
    var c :| c in chosen && c.txn == t;
    var i :| 0 <= i < |chosen| && chosen[i] == c;
    assert TxnsOf(chosen)[i] == t;
  }

  lemma PayrollParts()
    ensures Payroll().subset == PAYDAYS && Payroll().toleranceDays == 3
    ensures Payroll().cadence == Semimonthly && Payroll().anchor == ANCHOR
  {
    hide SlotsOn, MonthRangeDates, Least, Greatest, Months;
  }

  lemma PickParts()
    ensures Pick(0).txn == EARLY && Pick(0).slotIndex == 2 && Pick(1).slotIndex == 3 && Pick(2).slotIndex == 4
  {
    hide SlotOn;
  }

  lemma PayrollChosen(idLe: (string, string) -> bool)
    requires Collation(idLe)
    ensures var chosen := Chosen(PAYDAYS, Payroll().slots, 3, idLe);
      && |chosen| >= 3 && SlotSpan(chosen) <= 3 && GapOf(chosen) <= 2
      && Pick(0) in chosen && Pick(0).txn == EARLY
  {
    hide Chosen, Candidates, SlotSpan, GapOf, Collation, Payroll, Pick;
    PicksChosen(idLe);
    PickParts();
    var chosen := Chosen(PAYDAYS, Payroll().slots, 3, idLe);
    ThreeMembers(chosen, Pick(0), Pick(1), Pick(2));
    NarrowSpan(chosen, 2, 4);
  }

  /** The detector makes a semimonthly fit that claims a deposit the backtest cannot match to any date of its grid. */
  lemma SemimonthlyEvidenceBeyondReach(idLe: (string, string) -> bool) returns (p: Proposal, fit: Fit)
    requires Collation(idLe)
    ensures IsProposal(PAYDAYS, p) && Made(p, idLe) == Some(fit)
    ensures fit.cadence == Semimonthly && fit.fitKey.anchor == ANCHOR && EARLY in fit.matched
    ensures !NearGrid(ANCHOR, EARLY, Backtest.ToleranceDays(Semimonthly))
  {
    hide *;
    PaydayMonths();
    PayrollParts();
    EarlyDeposit();
    PayrollChosen(idLe);
    p := Payroll();
    fit := FitIsMade(p, idLe, EARLY);
  }
}

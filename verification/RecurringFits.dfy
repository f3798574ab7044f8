/**
 * Fitting transactions to the slots of a cadence grid, and choosing disjoint fits of a group. A
 * slot grid is any list of slots: the grids the detector builds are instances.
 */
module RecurringFits {
  import opened Wrappers
  import opened Arithmetic
  import opened Sorting
  import opened Matching
  import opened Cadence

  // epochDay stands for the effective date, which orders the same way.
  datatype Txn = Txn(txnId: string, epochDay: int, amount: int)

  datatype Slot = Slot(key: string, epochDay: int)

  datatype Candidate = Candidate(txn: Txn, slot: Slot, slotIndex: nat, residual: nat)

  datatype FitKey = FitKey(cadence: CadenceName, anchor: Anchor, txnIds: seq<string>)

  datatype SlotFit = SlotFit(matched: seq<Txn>, totalSlots: int, residualDays: int, maxPeriodGap: int)

  datatype Fit = Fit(
    cadence: CadenceName, matched: seq<Txn>, totalSlots: int, residualDays: int,
    amountFixed: bool, scoreBps: int, fitKey: FitKey)

  // One proposal of the detector: a subset of the group laid over one grid.
  datatype Proposal = Proposal(cadence: CadenceName, anchor: Anchor, subset: seq<Txn>, slots: seq<Slot>,
    toleranceDays: nat)

  const MIN_COVERAGE_NUM := 3
  const MIN_COVERAGE_DEN := 5
  const MAX_PERIOD_GAP := 2

  // Candidates and their ranking.

  function SlotCandidates(t: Txn, slots: seq<Slot>, tolerance: nat): seq<Candidate> {
    if slots == [] then []
    else
      var i := |slots| - 1;
      var residual := Abs(t.epochDay - slots[i].epochDay);
      SlotCandidates(t, slots[..i], tolerance)
      + if residual <= tolerance then [Candidate(t, slots[i], i, residual)] else []
  }

  function Candidates(input: seq<Txn>, slots: seq<Slot>, tolerance: nat): seq<Candidate> {
    if input == [] then []
    else Candidates(input[..|input| - 1], slots, tolerance) + SlotCandidates(input[|input| - 1], slots, tolerance)
  }

  // Identifiers are compared by the collation the comparators use, given as a total order.
  ghost predicate Collation(idLe: (string, string) -> bool) {
    TotalOrder(idLe)
  }

  predicate RankedNoLater(idLe: (string, string) -> bool, a: Candidate, b: Candidate) {
    || a.residual < b.residual
    || (a.residual == b.residual
        && (a.txn.epochDay < b.txn.epochDay
            || (a.txn.epochDay == b.txn.epochDay && idLe(a.txn.txnId, b.txn.txnId))))
  }

  function Ranking(idLe: (string, string) -> bool): (Candidate, Candidate) -> bool {
    (a, b) => RankedNoLater(idLe, a, b)
  }

  function EndsOf(c: Candidate): Ends<string, string> {
    Ends(c.txn.txnId, c.slot.key)
  }

  predicate TxnOrder(idLe: (string, string) -> bool, a: Txn, b: Txn) {
    a.epochDay < b.epochDay || (a.epochDay == b.epochDay && idLe(a.txnId, b.txnId))
  }

  function Chronology(idLe: (string, string) -> bool): (Txn, Txn) -> bool {
    (a, b) => TxnOrder(idLe, a, b)
  }

  function Chosen(input: seq<Txn>, slots: seq<Slot>, tolerance: nat, idLe: (string, string) -> bool): seq<Candidate> {
    Greedy(Sort(Candidates(input, slots, tolerance), Ranking(idLe)), EndsOf)
  }

  lemma RankingIsPreorder(idLe: (string, string) -> bool)
    requires Collation(idLe)
    ensures TotalPreorder(Ranking(idLe)) && TotalPreorder(Chronology(idLe))
  {
  }

  /** Exactly the pairs within tolerance are candidates. */
  lemma {:induction false} SlotCandidatesExact(t: Txn, slots: seq<Slot>, tolerance: nat)
    ensures forall c :: c in SlotCandidates(t, slots, tolerance) <==>
      c.txn == t && c.slotIndex < |slots| && c.slot == slots[c.slotIndex]
      && c.residual == Abs(t.epochDay - c.slot.epochDay) <= tolerance
  {
    if slots != [] {
      SlotCandidatesExact(t, slots[..|slots| - 1], tolerance);
    }
  }

  lemma {:induction false} CandidatesExact(input: seq<Txn>, slots: seq<Slot>, tolerance: nat)
    ensures forall c :: c in Candidates(input, slots, tolerance) <==>
      c.txn in input && c.slotIndex < |slots| && c.slot == slots[c.slotIndex]
      && c.residual == Abs(c.txn.epochDay - c.slot.epochDay) <= tolerance
  {
    if input != [] {
      CandidatesExact(input[..|input| - 1], slots, tolerance);
      SlotCandidatesExact(input[|input| - 1], slots, tolerance);
      assert input == input[..|input| - 1] + [input[|input| - 1]];
    }
  }

  /**
   * The slots are matched within tolerance, one to one; every eligible pair shares an end with a
   * matched pair ranked no later; and any other matching is at most twice as large.
   */
  lemma FitSlotsMatches(input: seq<Txn>, slots: seq<Slot>, tolerance: nat, idLe: (string, string) -> bool)
    requires Collation(idLe)
    ensures var chosen := Chosen(input, slots, tolerance, idLe);
      && IsMatching(chosen, EndsOf)
      && (forall c :: c in chosen ==> c in Candidates(input, slots, tolerance))
      && (forall c :: c in Candidates(input, slots, tolerance) ==> Settled(chosen, EndsOf, Ranking(idLe), c))
  {
    var all := Candidates(input, slots, tolerance);
    var ranked := Sort(all, Ranking(idLe));
    RankingIsPreorder(idLe);
    SortSorts(all, Ranking(idLe));
    SameElements(all, Ranking(idLe));
    GreedyIsMatching(ranked, EndsOf);
    GreedyLeavesNoBlockingPair(ranked, EndsOf, Ranking(idLe));
    forall c | c in all ensures Settled(Chosen(input, slots, tolerance, idLe), EndsOf, Ranking(idLe), c) {
      assert c in ranked;
      var i :| 0 <= i < |ranked| && ranked[i] == c;
    }
  }

  lemma FitSlotsIsHalfOptimal(input: seq<Txn>, slots: seq<Slot>, tolerance: nat, idLe: (string, string) -> bool,
                              other: seq<Candidate>)
    requires Collation(idLe)
    requires IsMatching(other, EndsOf) && forall c :: c in other ==> c in Candidates(input, slots, tolerance)
    ensures |other| <= 2 * |Chosen(input, slots, tolerance, idLe)|
  {
    var all := Candidates(input, slots, tolerance);
    RankingIsPreorder(idLe);
    SortSorts(all, Ranking(idLe));
    SameElements(all, Ranking(idLe));
    GreedyIsHalfOptimal(Sort(all, Ranking(idLe)), EndsOf, Ranking(idLe), other);
  }

  // Summaries of the chosen candidates.

  function TxnsOf(chosen: seq<Candidate>): (r: seq<Txn>)
    ensures |r| == |chosen| && forall i :: 0 <= i < |chosen| ==> r[i] == chosen[i].txn
  {
    seq(|chosen|, i requires 0 <= i < |chosen| => chosen[i].txn)
  }

  function SlotIndexes(chosen: seq<Candidate>): (r: seq<int>)
    ensures |r| == |chosen| && forall i :: 0 <= i < |chosen| ==> r[i] == chosen[i].slotIndex
  {
    seq(|chosen|, i requires 0 <= i < |chosen| => chosen[i].slotIndex)
  }

  function ResidualSum(chosen: seq<Candidate>): nat {
    if chosen == [] then 0 else ResidualSum(chosen[..|chosen| - 1]) + chosen[|chosen| - 1].residual
  }

  predicate IntLe(a: int, b: int) {
    a <= b
  }

  function Least(s: seq<int>): int
    requires s != []
  {
    var last := s[|s| - 1];
    if |s| == 1 then last else Min(Least(s[..|s| - 1]), last)
  }

  function Greatest(s: seq<int>): int
    requires s != []
  {
    var last := s[|s| - 1];
    if |s| == 1 then last else if Greatest(s[..|s| - 1]) < last then last else Greatest(s[..|s| - 1])
  }

  /** The number of slots from the first matched one to the last. */
  function SlotSpan(chosen: seq<Candidate>): int
    requires chosen != []
  {
    Greatest(SlotIndexes(chosen)) - Least(SlotIndexes(chosen)) + 1
  }

  /** The largest jump between neighbours, and at least one period. */
  function LargestGap(s: seq<int>): int {
    if |s| < 2 then 1
    else
      var before, gap := LargestGap(s[..|s| - 1]), s[|s| - 1] - s[|s| - 2];
      if gap > before then gap else before
  }

  function GapOf(chosen: seq<Candidate>): int {
    LargestGap(Sort(SlotIndexes(chosen), IntLe))
  }

  method FitSlots(input: seq<Txn>, slots: seq<Slot>, tolerance: nat, idLe: (string, string) -> bool)
    returns (r: Option<SlotFit>)
    ensures var chosen := Chosen(input, slots, tolerance, idLe);
      r == if |chosen| < 3 then None else Some(SlotFit(
        Sort(TxnsOf(chosen), Chronology(idLe)), SlotSpan(chosen), ResidualSum(chosen), GapOf(chosen)))
  {
    var chosen := MatchSlots(Sort(Candidates(input, slots, tolerance), Ranking(idLe)));
    if |chosen| < 3 {
      return None;
    }
    var totalSlots := Greatest(SlotIndexes(chosen)) - Least(SlotIndexes(chosen)) + 1;
    var sortedIndexes := Sort(SlotIndexes(chosen), IntLe);
    var maxPeriodGap := 1;
    for i := 0 to |sortedIndexes|
      invariant maxPeriodGap == LargestGap(sortedIndexes[..i])
    {
      assert sortedIndexes[..i + 1][..i] == sortedIndexes[..i];
      if i > 0 {
        var gap := sortedIndexes[i] - sortedIndexes[i - 1];
        if gap > maxPeriodGap {
          maxPeriodGap := gap;
        }
      }
    }
    assert sortedIndexes[..|sortedIndexes|] == sortedIndexes;
    return Some(SlotFit(Sort(TxnsOf(chosen), Chronology(idLe)), totalSlots, ResidualSum(chosen), maxPeriodGap));
  }

  method MatchSlots(ranked: seq<Candidate>) returns (chosen: seq<Candidate>)
    ensures chosen == Greedy(ranked, EndsOf)
  {
    var usedTransactions: set<string>, usedSlots: set<string> := {}, {};
    chosen := [];
    for i := 0 to |ranked|
      invariant chosen == Greedy(ranked[..i], EndsOf)
      invariant usedTransactions == Lefts(chosen, EndsOf) && usedSlots == Rights(chosen, EndsOf)
    {
      var candidate := ranked[i];
      GreedyStep(ranked, i, EndsOf);
      if candidate.txn.txnId in usedTransactions || candidate.slot.key in usedSlots {
        continue;
      }
      usedTransactions := usedTransactions + {candidate.txn.txnId};
      usedSlots := usedSlots + {candidate.slot.key};
      chosen := chosen + [candidate];
    }
    assert ranked[..|ranked|] == ranked;
  }

  lemma {:induction false} Extremes(s: seq<int>)
    requires s != []
    ensures forall i :: 0 <= i < |s| ==> Least(s) <= s[i] <= Greatest(s)
  {
    if |s| > 1 {
      Extremes(s[..|s| - 1]);
    }
  }

  /** No two neighbouring matched slots are further apart than the largest gap. */
  lemma {:induction false} GapsWithin(s: seq<int>, i: nat)
    requires i + 1 < |s|
    ensures s[i + 1] - s[i] <= LargestGap(s)
  {
    if i + 2 < |s| {
      GapsWithin(s[..|s| - 1], i);
    }
  }

  /** Distinct slots: no more transactions are matched than the span has slots. */
  lemma MatchedWithinSpan(chosen: seq<Candidate>, slots: seq<Slot>)
    requires chosen != [] && IsMatching(chosen, EndsOf)
    requires forall c :: c in chosen ==> c.slotIndex < |slots| && c.slot == slots[c.slotIndex]
    ensures |chosen| <= SlotSpan(chosen)
  {
    var indexes := SlotIndexes(chosen);
    forall i, j | 0 <= i < j < |indexes| ensures indexes[i] != indexes[j] {
      assert chosen[i] in chosen && chosen[j] in chosen;
      assert !Clash(EndsOf(chosen[i]), EndsOf(chosen[j]));
    }
    Extremes(indexes);
    DistinctInRange(indexes, Least(indexes), Greatest(indexes));
  }

  lemma {:induction false} DistinctInRange(s: seq<int>, lo: int, hi: int)
    requires forall i, j :: 0 <= i < j < |s| ==> s[i] != s[j]
    requires forall i :: 0 <= i < |s| ==> lo <= s[i] <= hi
    requires lo <= hi + 1
    ensures |s| <= hi - lo + 1
    decreases hi - lo + 1
  {
    if s != [] {
      assert lo <= s[0] <= hi;
      if hi in s {
        var k :| 0 <= k < |s| && s[k] == hi;
        DistinctInRange(s[..k] + s[k + 1..], lo, hi - 1);
      } else {
        DistinctInRange(s, lo, hi - 1);
      }
    }
  }

  // The quality gate.

  predicate PassesQualityGate(matchedSlots: int, totalSlots: int, maxPeriodGap: int) {
    matchedSlots * MIN_COVERAGE_DEN >= totalSlots * MIN_COVERAGE_NUM && maxPeriodGap <= MAX_PERIOD_GAP
  }

  function Clamp(n: int, lo: int, hi: int): int {
    if n < lo then lo else if n > hi then hi else n
  }

  function ScoreFit(matched: int, totalSlots: int, residualDays: int, amountFixed: bool): int
    requires totalSlots > 0
  {
    var coverage := matched * 7_000 / totalSlots;
    var count := Min(1_500, 750 + (matched - 3) * 250);
    Clamp(coverage + count + (if amountFixed then 2_000 else 0) - residualDays * 250, 1, 10_000)
  }

  lemma ScoreInRange(matched: int, totalSlots: int, residualDays: int, amountFixed: bool)
    requires totalSlots > 0
    ensures 1 <= ScoreFit(matched, totalSlots, residualDays, amountFixed) <= 10_000
  {
  }

  predicate AmountFixed(matched: seq<Txn>) {
    forall i :: 0 <= i < |matched| ==> matched[i].amount == matched[0].amount
  }

  function TxnIds(matched: seq<Txn>): (r: seq<string>)
    ensures |r| == |matched| && forall i :: 0 <= i < |matched| ==> r[i] == matched[i].txnId
  {
    seq(|matched|, i requires 0 <= i < |matched| => matched[i].txnId)
  }

  /** What a fit offered as a recurring series guarantees about its evidence. */
  ghost predicate Quality(fit: Fit) {
    && 3 <= |fit.matched| <= fit.totalSlots
    && |fit.matched| * 5 >= fit.totalSlots * 3
    && 1 <= fit.scoreBps <= 10_000
    && fit.fitKey.cadence == fit.cadence && fit.fitKey.txnIds == TxnIds(fit.matched)
  }

  // The fit a proposal's matching makes, if it survives.
  function FitFor(p: Proposal, idLe: (string, string) -> bool): Fit
    requires Chosen(p.subset, p.slots, p.toleranceDays, idLe) != []
    requires SlotSpan(Chosen(p.subset, p.slots, p.toleranceDays, idLe)) > 0
  {
    var chosen := Chosen(p.subset, p.slots, p.toleranceDays, idLe);
    var matched := Sort(TxnsOf(chosen), Chronology(idLe));
    Fit(p.cadence, matched, SlotSpan(chosen), ResidualSum(chosen), AmountFixed(matched),
      ScoreFit(|matched|, SlotSpan(chosen), ResidualSum(chosen), AmountFixed(matched)),
      FitKey(p.cadence, p.anchor, TxnIds(matched)))
  }

  method MakeFit(p: Proposal, idLe: (string, string) -> bool) returns (r: Option<Fit>)
    requires Collation(idLe)
    ensures var chosen := Chosen(p.subset, p.slots, p.toleranceDays, idLe);
      && (r.Some? <==> |chosen| >= 3 && PassesQualityGate(|chosen|, SlotSpan(chosen), GapOf(chosen)))
      && (r.Some? ==> SlotSpan(chosen) > 0 && r.value == FitFor(p, idLe) && Quality(r.value))
    ensures var chosen := Chosen(p.subset, p.slots, p.toleranceDays, idLe);
      && LaidOver(p, idLe, chosen)
      && (r.Some? <==> Regular(chosen))
      && (r.Some? ==> Summarises(p, idLe, chosen, r.value))
  {
    hide LaidOver, Regular, Summarises, ScoreFit, Chosen, SlotSpan, GapOf, Sort, ResidualSum, Collation, AmountFixed;
    ChosenIsLaidOver(p, idLe);
    GateIsRegular(p, idLe);
    if |Chosen(p.subset, p.slots, p.toleranceDays, idLe)| >= 3 {
      FitSummarises(p, idLe);
    }
    var result := FitSlots(p.subset, p.slots, p.toleranceDays, idLe);
    ghost var chosen := Chosen(p.subset, p.slots, p.toleranceDays, idLe);
    if result.None? {
      return None;
    }
    var f := result.value;
    FitIsSpanned(p, idLe);
    if !PassesQualityGate(|f.matched|, f.totalSlots, f.maxPeriodGap) {
      return None;
    }
    var amountFixed := AmountFixed(f.matched);
    ScoreInRange(|f.matched|, f.totalSlots, f.residualDays, amountFixed);
    return Some(Fit(p.cadence, f.matched, f.totalSlots, f.residualDays, amountFixed,
      ScoreFit(|f.matched|, f.totalSlots, f.residualDays, amountFixed),
      FitKey(p.cadence, p.anchor, TxnIds(f.matched))));
  }

  // What a fit says of its evidence, told from the transactions and the slots alone.

  /** The pair lies no farther apart than d days, with ties to the earlier transaction and the smaller id. */
  predicate NoFarther(idLe: (string, string) -> bool, c: Candidate, t: Txn, d: int) {
    || c.residual < d
    || (c.residual == d && c.txn.epochDay < t.epochDay)
    || (c.residual == d && c.txn.epochDay == t.epochDay && idLe(c.txn.txnId, t.txnId))
  }

  /** A transaction of the subset on a slot of the grid, within tolerance. */
  predicate OnSlot(p: Proposal, c: Candidate) {
    && c.txn in p.subset && c.slotIndex < |p.slots| && c.slot == p.slots[c.slotIndex]
    && c.residual == Abs(c.txn.epochDay - c.slot.epochDay) && c.residual <= p.toleranceDays
  }

  /** The pair, or one no farther apart that takes its transaction or its slot, is among the chosen ones. */
  predicate Taken(idLe: (string, string) -> bool, chosen: seq<Candidate>, t: Txn, slot: Slot) {
    exists i :: 0 <= i < |chosen|
      && (chosen[i].txn.txnId == t.txnId || chosen[i].slot.key == slot.key)
      && NoFarther(idLe, chosen[i], t, Abs(t.epochDay - slot.epochDay))
  }

  /** The chosen pairs match transactions to slots one to one, and no pair within tolerance would be better. */
  ghost predicate LaidOver(p: Proposal, idLe: (string, string) -> bool, chosen: seq<Candidate>) {
    && (forall i :: 0 <= i < |chosen| ==> OnSlot(p, chosen[i]))
    && (forall i, j :: 0 <= i < j < |chosen| ==>
         chosen[i].txn.txnId != chosen[j].txn.txnId && chosen[i].slot.key != chosen[j].slot.key)
    && forall t, k | t in p.subset && 0 <= k < |p.slots| ::
         Abs(t.epochDay - p.slots[k].epochDay) <= p.toleranceDays ==> Taken(idLe, chosen, t, p.slots[k])
  }

  /** The slots from the first matched one to the last. */
  ghost predicate Spans(chosen: seq<Candidate>, span: int) {
    exists i, j :: SpansFrom(chosen, i, j) && span == chosen[j].slotIndex - chosen[i].slotIndex + 1
  }

  ghost predicate SpansFrom(chosen: seq<Candidate>, i: int, j: int) {
    && 0 <= i < |chosen| && 0 <= j < |chosen|
    && forall k :: 0 <= k < |chosen| ==> chosen[i].slotIndex <= chosen[k].slotIndex <= chosen[j].slotIndex
  }

  predicate HasSlot(chosen: seq<Candidate>, slotIndex: int) {
    exists k :: 0 <= k < |chosen| && chosen[k].slotIndex == slotIndex
  }

  /** Every matched slot but the last is followed by another within two periods. */
  ghost predicate NoLongGap(chosen: seq<Candidate>) {
    forall a, b :: HasSlot(chosen, a) && HasSlot(chosen, b) && a < b ==>
      HasSlot(chosen, a + 1) || HasSlot(chosen, a + 2)
  }

  /** At least three matches, in three fifths of the slots they span, without a long gap. */
  ghost predicate Regular(chosen: seq<Candidate>) {
    |chosen| >= 3 && NoLongGap(chosen) && exists span :: Spans(chosen, span) && 5 * |chosen| >= 3 * span
  }

  function DaysOff(chosen: seq<Candidate>): int {
    if chosen == [] then 0 else Abs(chosen[0].txn.epochDay - chosen[0].slot.epochDay) + DaysOff(chosen[1..])
  }

  function CountBonus(matched: int): int {
    match matched
    case 3 => 750
    case 4 => 1_000
    case 5 => 1_250
    case _ => 1_500
  }

  /**
   * The score between 1 and 10000: 7000 for full coverage, rounded down, a bonus for the number of matches, 2000
   * for one amount, less 250 for each day off.
   */
  ghost predicate IsScore(matched: int, span: int, daysOff: int, oneAmount: bool, score: int) {
    exists coverage :: span * coverage <= 7_000 * matched && 7_000 * matched < span * (coverage + 1)
      && var points := coverage + CountBonus(matched) + (if oneAmount then 2_000 else 0) - 250 * daysOff;
      && (points <= 1 ==> score == 1)
      && (1 <= points <= 10_000 ==> score == points)
      && (10_000 <= points ==> score == 10_000)
  }

  /** The fit by its fields. */
  ghost predicate Summarises(p: Proposal, idLe: (string, string) -> bool, chosen: seq<Candidate>, fit: Fit) {
    && fit.cadence == p.cadence && Spans(chosen, fit.totalSlots) && fit.residualDays == DaysOff(chosen)
    && multiset(fit.matched) == multiset(TxnsOf(chosen))
    && (forall i, j :: 0 <= i < j < |fit.matched| ==> InOrder(idLe, fit.matched[i], fit.matched[j]))
    && (fit.amountFixed <==>
         forall i, j :: 0 <= i < j < |fit.matched| ==> fit.matched[i].amount == fit.matched[j].amount)
    && IsScore(|fit.matched|, fit.totalSlots, fit.residualDays, fit.amountFixed, fit.scoreBps)
    && fit.fitKey.cadence == p.cadence && fit.fitKey.anchor == p.anchor && |fit.fitKey.txnIds| == |fit.matched|
    && forall i :: 0 <= i < |fit.matched| ==> fit.fitKey.txnIds[i] == fit.matched[i].txnId
  }

  predicate InOrder(idLe: (string, string) -> bool, a: Txn, b: Txn) {
    a.epochDay <= b.epochDay && (a.epochDay == b.epochDay ==> idLe(a.txnId, b.txnId))
  }

  lemma ChosenIsLaidOver(p: Proposal, idLe: (string, string) -> bool)
    requires Collation(idLe)
    ensures LaidOver(p, idLe, Chosen(p.subset, p.slots, p.toleranceDays, idLe))
  {
    hide Chosen, Candidates, Collation;
    var chosen := Chosen(p.subset, p.slots, p.toleranceDays, idLe);
    FitSlotsMatches(p.subset, p.slots, p.toleranceDays, idLe);
    CandidatesExact(p.subset, p.slots, p.toleranceDays);
    forall i | 0 <= i < |chosen| ensures OnSlot(p, chosen[i]) {
      assert chosen[i] in chosen;
    }
    forall i, j | 0 <= i < j < |chosen|
      ensures chosen[i].txn.txnId != chosen[j].txn.txnId && chosen[i].slot.key != chosen[j].slot.key
    {
      assert !Clash(EndsOf(chosen[i]), EndsOf(chosen[j]));
    }
    forall t, k | t in p.subset && 0 <= k < |p.slots| && Abs(t.epochDay - p.slots[k].epochDay) <= p.toleranceDays
      ensures Taken(idLe, chosen, t, p.slots[k])
    {
      var c := Candidate(t, p.slots[k], k, Abs(t.epochDay - p.slots[k].epochDay));
      assert Settled(chosen, EndsOf, Ranking(idLe), c);
      var i :| 0 <= i < |chosen| && Clash(EndsOf(chosen[i]), EndsOf(c)) && Ranking(idLe)(chosen[i], c);
      assert NoFarther(idLe, chosen[i], t, c.residual);
    }
  }

  lemma SpanIsUnique(chosen: seq<Candidate>, a: int, b: int)
    requires Spans(chosen, a) && Spans(chosen, b)
    ensures a == b
  {
  }

  lemma {:induction false} ExtremesTaken(s: seq<int>)
    requires s != []
    ensures Least(s) in s && Greatest(s) in s
  {
    if |s| > 1 {
      ExtremesTaken(s[..|s| - 1]);
    }
  }

  lemma SlotSpanSpans(chosen: seq<Candidate>)
    requires chosen != []
    ensures Spans(chosen, SlotSpan(chosen))
  {
    var indexes := SlotIndexes(chosen);
    Extremes(indexes);
    ExtremesTaken(indexes);
    var i :| 0 <= i < |indexes| && indexes[i] == Least(indexes);
    var j :| 0 <= j < |indexes| && indexes[j] == Greatest(indexes);
    hide Least, Greatest;
    assert forall k :: 0 <= k < |chosen| ==> chosen[k].slotIndex == indexes[k];
    assert SpansFrom(chosen, i, j);
  }

  lemma {:induction false} GapBound(s: seq<int>, g: int)
    requires g >= 1
    ensures LargestGap(s) <= g <==> forall i :: 0 <= i < |s| - 1 ==> s[i + 1] - s[i] <= g
  {
    if |s| >= 2 {
      var init := s[..|s| - 1];
      GapBound(init, g);
      var n := |s| - 2;
      assert s[n + 1] - s[n] <= g ==>
        ((forall i :: 0 <= i < |init| - 1 ==> init[i + 1] - init[i] <= g)
          <==> forall i :: 0 <= i < |s| - 1 ==> s[i + 1] - s[i] <= g) by {
        forall i | 0 <= i < |init| - 1 ensures init[i + 1] - init[i] == s[i + 1] - s[i] {
        }
      }
    }
  }

  lemma StrictOrder(s: seq<int>)
    requires forall i, j :: 0 <= i < j < |s| ==> s[i] < s[j]
    ensures forall i, j :: 0 <= i < |s| && 0 <= j < |s| ==> (s[i] < s[j] <==> i < j)
  {
    forall i, j | 0 <= i < |s| && 0 <= j < |s| ensures s[i] < s[j] <==> i < j {
      if j < i {
        assert s[j] < s[i];
      }
    }
  }

  /** In a sorted list no step is longer than two exactly when whatever is not last has another within two. */
  lemma GapsBySteps(s: seq<int>)
    requires forall i, j :: 0 <= i < j < |s| ==> s[i] < s[j]
    ensures LargestGap(s) <= 2 <==> forall a, b :: a in s && b in s && a < b ==> a + 1 in s || a + 2 in s
  {
    hide LargestGap;
    GapBound(s, 2);
    StrictOrder(s);
    if LargestGap(s) <= 2 {
      forall a, b | a in s && b in s && a < b ensures a + 1 in s || a + 2 in s {
        var i :| 0 <= i < |s| && s[i] == a;
        var j :| 0 <= j < |s| && s[j] == b;
        assert s[i] < s[i + 1] <= s[i] + 2;
        assert s[i + 1] in s;
      }
    }
    if forall a, b :: a in s && b in s && a < b ==> a + 1 in s || a + 2 in s {
      forall i | 0 <= i < |s| - 1 ensures s[i + 1] - s[i] <= 2 {
        NextStep(s, i);
      }
    }
  }

  lemma NextStep(s: seq<int>, i: int)
    requires forall i, j :: 0 <= i < j < |s| ==> s[i] < s[j]
    requires forall a, b :: a in s && b in s && a < b ==> a + 1 in s || a + 2 in s
    requires 0 <= i < |s| - 1
    ensures s[i + 1] - s[i] <= 2
  {
    assert s[i] in s && s[i + 1] in s && s[i] < s[i + 1];
    var next := if s[i] + 1 in s then s[i] + 1 else s[i] + 2;
    assert next in s;
    var k :| 0 <= k < |s| && s[k] == next;
    StrictOrder(s);
  }

  lemma GapIsLong(chosen: seq<Candidate>)
    requires forall i, j :: 0 <= i < j < |chosen| ==> chosen[i].slotIndex != chosen[j].slotIndex
    ensures GapOf(chosen) <= 2 <==> NoLongGap(chosen)
  {
    var indexes, sorted := SlotIndexes(chosen), Sort(SlotIndexes(chosen), IntLe);
    IncreasingSlots(chosen);
    GapsBySteps(sorted);
    SameElements(indexes, IntLe);
    SlotsAreIndexes(chosen);
    hide LargestGap, Sort, HasSlot;
  }

  lemma SlotsAreIndexes(chosen: seq<Candidate>)
    ensures forall a :: HasSlot(chosen, a) <==> a in SlotIndexes(chosen)
  {
    var indexes := SlotIndexes(chosen);
    forall a ensures HasSlot(chosen, a) <==> a in indexes {
      if HasSlot(chosen, a) {
        var k :| 0 <= k < |chosen| && chosen[k].slotIndex == a;
        assert indexes[k] == a;
      }
      if a in indexes {
        var k :| 0 <= k < |indexes| && indexes[k] == a;
        assert chosen[k].slotIndex == a;
      }
    }
  }

  lemma IncreasingSlots(chosen: seq<Candidate>)
    requires forall i, j :: 0 <= i < j < |chosen| ==> chosen[i].slotIndex != chosen[j].slotIndex
    ensures forall i, j :: 0 <= i < j < |Sort(SlotIndexes(chosen), IntLe)| ==>
      Sort(SlotIndexes(chosen), IntLe)[i] < Sort(SlotIndexes(chosen), IntLe)[j]
  {
    var indexes := SlotIndexes(chosen);
    SortSorts(indexes, IntLe);
    SortDistinct(indexes, IntLe);
    var sorted := Sort(indexes, IntLe);
    assert forall i, j :: 0 <= i < j < |sorted| ==> IntLe(sorted[i], sorted[j]) && sorted[i] != sorted[j];
  }

  lemma GateIsRegular(p: Proposal, idLe: (string, string) -> bool)
    requires Collation(idLe)
    ensures var chosen := Chosen(p.subset, p.slots, p.toleranceDays, idLe);
      |chosen| >= 3 && PassesQualityGate(|chosen|, SlotSpan(chosen), GapOf(chosen)) <==> Regular(chosen)
  {
    hide Chosen, Collation, SlotSpan, GapOf, NoLongGap, Spans;
    var chosen := Chosen(p.subset, p.slots, p.toleranceDays, idLe);
    ChosenIsLaidOver(p, idLe);
    if |chosen| >= 3 {
      DifferentSlots(p, idLe, chosen);
      GapIsLong(chosen);
      SlotSpanSpans(chosen);
      forall span | Spans(chosen, span) ensures span == SlotSpan(chosen) {
        SpanIsUnique(chosen, span, SlotSpan(chosen));
      }
    }
  }

  lemma DifferentSlots(p: Proposal, idLe: (string, string) -> bool, chosen: seq<Candidate>)
    requires LaidOver(p, idLe, chosen)
    ensures forall i, j :: 0 <= i < j < |chosen| ==> chosen[i].slotIndex != chosen[j].slotIndex
  {
    forall i, j | 0 <= i < j < |chosen| ensures chosen[i].slotIndex != chosen[j].slotIndex {
      assert OnSlot(p, chosen[i]) && OnSlot(p, chosen[j]);
    }
  }

  lemma ScoreIsScore(matched: int, span: int, daysOff: int, oneAmount: bool)
    requires matched >= 3 && span > 0
    ensures IsScore(matched, span, daysOff, oneAmount, ScoreFit(matched, span, daysOff, oneAmount))
  {
    var coverage := matched * 7_000 / span;
    assert span * coverage <= 7_000 * matched < span * (coverage + 1);
    assert Min(1_500, 750 + (matched - 3) * 250) == CountBonus(matched);
  }

  lemma {:induction false} DaysOffSum(chosen: seq<Candidate>)
    requires forall i :: 0 <= i < |chosen| ==>
      chosen[i].residual == Abs(chosen[i].txn.epochDay - chosen[i].slot.epochDay)
    ensures ResidualSum(chosen) == DaysOff(chosen)
  {
    if chosen != [] {
      var init, last := chosen[..|chosen| - 1], chosen[|chosen| - 1];
      DaysOffSum(init);
      DaysOffLast(init, last);
      assert chosen == init + [last];
    }
  }

  lemma {:induction false} DaysOffLast(init: seq<Candidate>, last: Candidate)
    ensures DaysOff(init + [last]) == DaysOff(init) + Abs(last.txn.epochDay - last.slot.epochDay)
  {
    if init == [] {
      assert [last][1..] == [];
    } else {
      DaysOffLast(init[1..], last);
      assert (init + [last])[1..] == init[1..] + [last];
    }
  }

  lemma FitSummarises(p: Proposal, idLe: (string, string) -> bool)
    requires Collation(idLe) && |Chosen(p.subset, p.slots, p.toleranceDays, idLe)| >= 3
    ensures var chosen := Chosen(p.subset, p.slots, p.toleranceDays, idLe);
      SlotSpan(chosen) > 0 && Summarises(p, idLe, chosen, FitFor(p, idLe))
  {
    hide Chosen, Collation, SlotSpan, Spans, ScoreFit, IsScore, ResidualSum, DaysOff;
    var chosen := Chosen(p.subset, p.slots, p.toleranceDays, idLe);
    FitIsSpanned(p, idLe);
    ChosenIsLaidOver(p, idLe);
    SlotSpanSpans(chosen);
    assert forall i :: 0 <= i < |chosen| ==> OnSlot(p, chosen[i]);
    DaysOffSum(chosen);
    MatchedInOrder(chosen, idLe);
    var fit := FitFor(p, idLe);
    ScoreIsScore(|fit.matched|, fit.totalSlots, fit.residualDays, fit.amountFixed);
  }

  lemma MatchedInOrder(chosen: seq<Candidate>, idLe: (string, string) -> bool)
    requires Collation(idLe)
    ensures var matched := Sort(TxnsOf(chosen), Chronology(idLe));
      && multiset(matched) == multiset(TxnsOf(chosen))
      && forall i, j :: 0 <= i < j < |matched| ==> InOrder(idLe, matched[i], matched[j])
  {
    RankingIsPreorder(idLe);
    SortSorts(TxnsOf(chosen), Chronology(idLe));
    SortKeeps(TxnsOf(chosen), Chronology(idLe));
    var matched := Sort(TxnsOf(chosen), Chronology(idLe));
    forall i, j | 0 <= i < j < |matched| ensures InOrder(idLe, matched[i], matched[j]) {
      assert Chronology(idLe)(matched[i], matched[j]);
    }
  }

  lemma FitIsSpanned(p: Proposal, idLe: (string, string) -> bool)
    requires Collation(idLe) && Chosen(p.subset, p.slots, p.toleranceDays, idLe) != []
    ensures var chosen := Chosen(p.subset, p.slots, p.toleranceDays, idLe);
      && |Sort(TxnsOf(chosen), Chronology(idLe))| == |chosen| <= SlotSpan(chosen)
  {
    var chosen := Chosen(p.subset, p.slots, p.toleranceDays, idLe);
    hide *;
    SameElements(TxnsOf(chosen), Chronology(idLe));
    FitSlotsMatches(p.subset, p.slots, p.toleranceDays, idLe);
    CandidatesExact(p.subset, p.slots, p.toleranceDays);
    MatchedWithinSpan(chosen, p.slots);
  }
}

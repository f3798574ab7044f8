/** Backtesting a series: its expected dates against the transactions that happened. */
module Backtest {
  import opened Wrappers
  import opened Arithmetic
  import opened Sorting
  import opened Matching
  import opened CivilDate
  import opened Cadence
  import opened Timeline
  import Projection

  datatype AmountRule = Fixed(amount: int) | Variable(lowerMedian: int, min: int, max: int)

  datatype Series = Series(
    cadence: CadenceName, anchor: Anchor, statusEvents: seq<StatusEvent>, amounts: AmountRule, asOf: Civil)

  datatype Actual = Actual(txnId: string, effectiveDate: Civil, amount: int)

  datatype Expectation = Expectation(expectedDate: Civil, expectedAmount: int)

  datatype Pair = Pair(
    expectation: Expectation, expectationIndex: nat, actual: Actual, actualIndex: nat,
    dateResidual: nat, amountResidual: nat)

  datatype Matched = Matched(expectation: Expectation, actual: Actual)

  datatype Report = Report(matched: seq<Matched>, skipped: seq<Expectation>, unexpected: seq<Actual>)

  function ExpectedAmount(rule: AmountRule): int {
    if rule.Fixed? then rule.amount else rule.lowerMedian
  }

  predicate AmountAllowed(rule: AmountRule, amount: int) {
    if rule.Fixed? then amount == rule.amount else rule.min <= amount <= rule.max
  }

  function ToleranceDays(cadence: CadenceName): nat {
    match cadence
    case Monthly => 3
    case Quarterly => 5
    case Annual => 7
    case _ => 2
  }

  // The transactions in time order.

  predicate ActualLe(idLe: (string, string) -> bool, a: Actual, b: Actual) {
    Before(a.effectiveDate, b.effectiveDate) || (a.effectiveDate == b.effectiveDate && idLe(a.txnId, b.txnId))
  }

  function Chronology(idLe: (string, string) -> bool): (Actual, Actual) -> bool {
    (a, b) => ActualLe(idLe, a, b)
  }

  // The candidate pairs and their ranking. sameSeries stands for agreement on counterparty, accounts,
  // currency and sign.

  predicate Eligible(rule: AmountRule, tolerance: nat, sameSeries: Actual -> bool, e: Expectation, a: Actual) {
    && Abs(DayFromCivil(e.expectedDate) - DayFromCivil(a.effectiveDate)) <= tolerance
    && sameSeries(a) && AmountAllowed(rule, a.amount)
  }

  function PairOf(expectations: seq<Expectation>, i: nat, actuals: seq<Actual>, j: nat): Pair
    requires i < |expectations| && j < |actuals|
  {
    Pair(expectations[i], i, actuals[j], j,
      Abs(DayFromCivil(expectations[i].expectedDate) - DayFromCivil(actuals[j].effectiveDate)),
      Abs(expectations[i].expectedAmount - actuals[j].amount))
  }

  function PairsWith(rule: AmountRule, tolerance: nat, sameSeries: Actual -> bool,
                     expectations: seq<Expectation>, i: nat, actuals: seq<Actual>, n: nat): seq<Pair>
    requires i < |expectations| && n <= |actuals|
  {
    if n == 0 then []
    else
      PairsWith(rule, tolerance, sameSeries, expectations, i, actuals, n - 1)
      + if Eligible(rule, tolerance, sameSeries, expectations[i], actuals[n - 1])
        then [PairOf(expectations, i, actuals, n - 1)] else []
  }

  function Pairs(rule: AmountRule, tolerance: nat, sameSeries: Actual -> bool,
                 expectations: seq<Expectation>, m: nat, actuals: seq<Actual>): seq<Pair>
    requires m <= |expectations|
  {
    if m == 0 then []
    else
      Pairs(rule, tolerance, sameSeries, expectations, m - 1, actuals)
      + PairsWith(rule, tolerance, sameSeries, expectations, m - 1, actuals, |actuals|)
  }

  predicate PairLe(idLe: (string, string) -> bool, a: Pair, b: Pair) {
    if a.dateResidual != b.dateResidual then a.dateResidual < b.dateResidual
    else if a.amountResidual != b.amountResidual then a.amountResidual < b.amountResidual
    else if a.actual.effectiveDate != b.actual.effectiveDate then Before(a.actual.effectiveDate, b.actual.effectiveDate)
    else if a.actual.txnId != b.actual.txnId then idLe(a.actual.txnId, b.actual.txnId)
    else AtMost(a.expectation.expectedDate, b.expectation.expectedDate)
  }

  function PairOrder(idLe: (string, string) -> bool): (Pair, Pair) -> bool {
    (a, b) => PairLe(idLe, a, b)
  }

  function PairEnds(p: Pair): Ends<nat, nat> {
    Ends(p.expectationIndex, p.actualIndex)
  }

  lemma PairOrderIsPreorder(idLe: (string, string) -> bool)
    requires TotalOrder(idLe)
    ensures TotalPreorder(PairOrder(idLe))
  {
  }

  /** Exactly the eligible pairs of an expectation and a transaction are candidates. */
  lemma {:induction false} PairsWithExact(rule: AmountRule, tolerance: nat, sameSeries: Actual -> bool,
                                          expectations: seq<Expectation>, i: nat, actuals: seq<Actual>, n: nat)
    requires i < |expectations| && n <= |actuals|
    ensures forall p :: p in PairsWith(rule, tolerance, sameSeries, expectations, i, actuals, n) <==>
      && p.actualIndex < n && p == PairOf(expectations, i, actuals, p.actualIndex)
      && Eligible(rule, tolerance, sameSeries, p.expectation, p.actual)
  {
    hide DayFromCivil, Eligible;
    if n > 0 {
      PairsWithExact(rule, tolerance, sameSeries, expectations, i, actuals, n - 1);
    }
  }

  lemma {:induction false} PairsExact(rule: AmountRule, tolerance: nat, sameSeries: Actual -> bool,
                                      expectations: seq<Expectation>, m: nat, actuals: seq<Actual>)
    requires m <= |expectations|
    ensures forall p :: p in Pairs(rule, tolerance, sameSeries, expectations, m, actuals) <==>
      && p.expectationIndex < m && p.actualIndex < |actuals|
      && p == PairOf(expectations, p.expectationIndex, actuals, p.actualIndex)
      && Eligible(rule, tolerance, sameSeries, p.expectation, p.actual)
  {
    hide DayFromCivil, Eligible;
    if m > 0 {
      PairsExact(rule, tolerance, sameSeries, expectations, m - 1, actuals);
      PairsWithExact(rule, tolerance, sameSeries, expectations, m - 1, actuals, |actuals|);
    }
  }

  // Splitting a list by a set of indexes.

  function Without<T>(s: seq<T>, used: set<nat>): seq<T> {
    if s == [] then []
    else
      var n := |s| - 1;
      Without(s[..n], used) + if n in used then [] else [s[n]]
  }

  function TakeAt<T>(s: seq<T>, indexes: seq<nat>): (r: seq<T>)
    requires forall k :: 0 <= k < |indexes| ==> indexes[k] < |s|
    ensures |r| == |indexes| && forall k :: 0 <= k < |indexes| ==> r[k] == s[indexes[k]]
  {
    seq(|indexes|, k requires 0 <= k < |indexes| => s[indexes[k]])
  }

  lemma {:induction false} WithoutOneMore<T>(s: seq<T>, used: set<nat>, k: nat)
    requires k < |s| && k !in used
    ensures multiset(Without(s, used)) == multiset(Without(s, used + {k})) + multiset{s[k]}
  {
    hide Without;
    var n := |s| - 1;
    WithoutLast(s, used);
    WithoutLast(s, used + {k});
    if k < n {
      WithoutOneMore(s[..n], used, k);
    } else {
      WithoutBeyond(s[..n], used, n);
    }
  }

  lemma WithoutLast<T>(s: seq<T>, used: set<nat>)
    requires s != []
    ensures var n := |s| - 1;
      multiset(Without(s, used)) == multiset(Without(s[..n], used)) + if n in used then multiset{} else multiset{s[n]}
  {
  }

  lemma {:induction false} WithoutBeyond<T>(s: seq<T>, used: set<nat>, k: nat)
    requires k >= |s|
    ensures Without(s, used + {k}) == Without(s, used)
  {
    if s != [] {
      WithoutBeyond(s[..|s| - 1], used, k);
    }
  }

  lemma {:induction false} WithoutNone<T>(s: seq<T>)
    ensures Without(s, {}) == s
  {
    if s != [] {
      WithoutNone(s[..|s| - 1]);
    }
  }

  /** What is taken at distinct indexes and what is left without them make up the whole list. */
  lemma {:induction false} TakenAndLeft<T>(s: seq<T>, indexes: seq<nat>, used: set<nat>)
    requires forall k :: 0 <= k < |indexes| ==> indexes[k] < |s|
    requires forall j, k :: 0 <= j < k < |indexes| ==> indexes[j] != indexes[k]
    requires used == set k | 0 <= k < |indexes| :: indexes[k]
    ensures multiset(TakeAt(s, indexes)) + multiset(Without(s, used)) == multiset(s)
  {
    hide Without;
    if indexes == [] {
      assert used == {};
      WithoutNone(s);
    } else {
      var init, last := indexes[..|indexes| - 1], indexes[|indexes| - 1];
      var before := set k | 0 <= k < |init| :: init[k];
      IndexSetSplits(indexes);
      TakenAndLeft(s, init, before);
      WithoutOneMore(s, before, last);
      assert TakeAt(s, indexes) == TakeAt(s, init) + [s[last]];
    }
  }

  lemma IndexSetSplits(indexes: seq<nat>)
    requires indexes != [] && forall j, k :: 0 <= j < k < |indexes| ==> indexes[j] != indexes[k]
    ensures var init, last := indexes[..|indexes| - 1], indexes[|indexes| - 1];
      var before := set k | 0 <= k < |init| :: init[k];
      last !in before && (set k | 0 <= k < |indexes| :: indexes[k]) == before + {last}
  {
    var init := indexes[..|indexes| - 1];
    assert forall k :: 0 <= k < |init| ==> indexes[k] == init[k];
  }

  // The whole backtest.

  function Expectations(dates: seq<Civil>, amount: int): (r: seq<Expectation>)
    ensures |r| == |dates| && forall i :: 0 <= i < |dates| ==> r[i] == Expectation(dates[i], amount)
  {
    seq(|dates|, i requires 0 <= i < |dates| => Expectation(dates[i], amount))
  }

  function ChosenPairs(series: Series, sameSeries: Actual -> bool, expectations: seq<Expectation>,
                       ordered: seq<Actual>, idLe: (string, string) -> bool): seq<Pair> {
    var candidates :=
      Pairs(series.amounts, ToleranceDays(series.cadence), sameSeries, expectations, |expectations|, ordered);
    Greedy(Sort(candidates, PairOrder(idLe)), PairEnds)
  }

  function MatchesOf(chosen: seq<Pair>): (r: seq<Matched>)
    ensures |r| == |chosen|
    ensures forall k :: 0 <= k < |chosen| ==> r[k] == Matched(chosen[k].expectation, chosen[k].actual)
  {
    seq(|chosen|, k requires 0 <= k < |chosen| => Matched(chosen[k].expectation, chosen[k].actual))
  }

  predicate ByDate(a: Matched, b: Matched) {
    AtMost(a.expectation.expectedDate, b.expectation.expectedDate)
  }

  predicate ValidActuals(transactions: seq<Actual>) {
    forall i :: 0 <= i < |transactions| ==> FourDigits(transactions[i].effectiveDate)
  }

  function FromDate(series: Series, ordered: seq<Actual>, from: Option<Civil>): Civil {
    if from.Some? then from.value else if ordered != [] then ordered[0].effectiveDate else series.asOf
  }

  function ToDate(series: Series, ordered: seq<Actual>, to: Option<Civil>): Civil {
    if to.Some? then to.value else if ordered != [] then ordered[|ordered| - 1].effectiveDate else series.asOf
  }

  function ExpectationsOf(series: Series, from: Civil, to: Civil): seq<Expectation>
    requires WellFormed(series.anchor)
  {
    var dates := GridDates(series.anchor, DayFromCivil(from), DayFromCivil(to));
    Expectations(Projection.ActiveDates(series.statusEvents, dates), ExpectedAmount(series.amounts))
  }

  /** All dates involved are valid; status events are read only if some date has to be looked up. */
  ghost predicate Readable(series: Series, transactions: seq<Actual>, from: Civil, to: Civil)
    requires WellFormed(series.anchor)
  {
    && (forall t :: t in transactions ==> FourDigits(t.effectiveDate)) && FourDigits(from) && FourDigits(to)
    && (ValidDates(series.statusEvents) || GridDates(series.anchor, DayFromCivil(from), DayFromCivil(to)) == [])
  }

  method RunBacktest(series: Series, transactions: seq<Actual>, from: Option<Civil>, to: Option<Civil>,
                     sameSeries: Actual -> bool, idLe: (string, string) -> bool)
    returns (r: Result<Report, DateError>)
    requires WellFormed(series.anchor)
    ensures r.Ok? ==>
      var ordered := Sort(transactions, Chronology(idLe));
      var expectations := ExpectationsOf(series, FromDate(series, ordered, from), ToDate(series, ordered, to));
      var chosen := ChosenPairs(series, sameSeries, expectations, ordered, idLe);
      && r.value.matched == Sort(MatchesOf(chosen), ByDate)
      && r.value.skipped == Without(expectations, Lefts(chosen, PairEnds))
      && r.value.unexpected == Without(ordered, Rights(chosen, PairEnds))
    ensures var ordered := Sort(transactions, Chronology(idLe));
      r.Ok? <==> Readable(series, transactions, FromDate(series, ordered, from), ToDate(series, ordered, to))
    ensures r.Ok? ==>
      var ordered := Sort(transactions, Chronology(idLe));
      var first, last := FromDate(series, ordered, from), ToDate(series, ordered, to);
      && Sound(series, sameSeries, r.value)
      && Complete(series, transactions, first, last, r.value)
      && (TotalOrder(idLe) ==>
           Span(series, transactions, from, to, first, last) && Ranked(series, sameSeries, idLe, r.value))
  {
    hide DayFromCivil, Sound, Complete, Span, Ranked, TotalOrder, Pairs, Chronology, HasStatus;
    if !ValidActuals(transactions) {
      return Err(InvalidDate);
    }
    var ordered := Sort(transactions, Chronology(idLe));
    var fromDate, toDate := FromDate(series, ordered, from), ToDate(series, ordered, to);
    if !FourDigits(fromDate) || !FourDigits(toDate) {
      return Err(InvalidDate);
    }
    var cadenceDates := CadenceDatesBetween(series.anchor, fromDate, toDate);
    assert cadenceDates.Ok?;
    var dates := cadenceDates.value;
    if dates != [] && !ValidDates(series.statusEvents) {
      return Err(InvalidDate);
    }
    var expectations := Expectations(Projection.ActiveDates(series.statusEvents, dates),
      ExpectedAmount(series.amounts));
    var candidates :=
      Pairs(series.amounts, ToleranceDays(series.cadence), sameSeries, expectations, |expectations|, ordered);
    var chosen, usedExpectations, usedActuals := PairUp(Sort(candidates, PairOrder(idLe)));
    ghost var promised := ReportOf(series, transactions, fromDate, toDate, sameSeries, idLe);
    if TotalOrder(idLe) {
      SpanOfTransactions(series, transactions, from, to, idLe);
      ReportIsRanked(series, transactions, fromDate, toDate, sameSeries, idLe, promised);
    }
    return Ok(Report(Sort(MatchesOf(chosen), ByDate), Without(expectations, usedExpectations),
      Without(ordered, usedActuals)));
  }

  method PairUp(ranked: seq<Pair>) returns (chosen: seq<Pair>, usedExpectations: set<nat>, usedActuals: set<nat>)
    ensures chosen == Greedy(ranked, PairEnds)
    ensures usedExpectations == Lefts(chosen, PairEnds) && usedActuals == Rights(chosen, PairEnds)
  {
    usedExpectations, usedActuals, chosen := {}, {}, [];
    for i := 0 to |ranked|
      invariant chosen == Greedy(ranked[..i], PairEnds)
      invariant usedExpectations == Lefts(chosen, PairEnds) && usedActuals == Rights(chosen, PairEnds)
    {
      var pair := ranked[i];
      GreedyStep(ranked, i, PairEnds);
      if pair.expectationIndex in usedExpectations || pair.actualIndex in usedActuals {
        continue;
      }
      usedExpectations := usedExpectations + {pair.expectationIndex};
      usedActuals := usedActuals + {pair.actualIndex};
      chosen := chosen + [pair];
    }
    assert ranked[..|ranked|] == ranked;
  }

  // What a report promises, told from the transactions and the dates alone.

  /** The transaction pays the expectation: of the series, of an amount it allows, and near enough in days. */
  predicate Pays(series: Series, sameSeries: Actual -> bool, e: Expectation, a: Actual) {
    var apart := DayFromCivil(a.effectiveDate) - DayFromCivil(e.expectedDate);
    && sameSeries(a)
    && (match series.amounts
        case Fixed(amount) => a.amount == amount
        case Variable(_, min, max) => min <= a.amount && a.amount <= max)
    && (match series.cadence
        case Weekly => -2 <= apart <= 2
        case Biweekly => -2 <= apart <= 2
        case Semimonthly => -2 <= apart <= 2
        case Monthly => -3 <= apart <= 3
        case Quarterly => -5 <= apart <= 5
        case Annual => -7 <= apart <= 7)
  }

  /** A confirmed grid date of the range, with the amount of the series or its median. */
  ghost predicate Expects(series: Series, first: Civil, last: Civil, e: Expectation)
    requires WellFormed(series.anchor)
  {
    && Valid(e.expectedDate) && DayFromCivil(first) <= DayFromCivil(e.expectedDate) <= DayFromCivil(last)
    && OnGrid(series.anchor, e.expectedDate) && HasStatus(series.statusEvents, e.expectedDate, Confirmed)
    && match series.amounts
       case Fixed(amount) => e.expectedAmount == amount
       case Variable(median, _, _) => e.expectedAmount == median
  }

  /** The range asked for, or else from the first transaction to the last. */
  ghost predicate Span(series: Series, transactions: seq<Actual>, from: Option<Civil>, to: Option<Civil>,
                       first: Civil, last: Civil) {
    && (from.Some? ==> first == from.value)
    && (to.Some? ==> last == to.value)
    && (from.None? && transactions == [] ==> first == series.asOf)
    && (to.None? && transactions == [] ==> last == series.asOf)
    && (from.None? && transactions != [] ==>
         (exists t :: t in transactions && t.effectiveDate == first)
         && forall t :: t in transactions ==> !Before(t.effectiveDate, first))
    && (to.None? && transactions != [] ==>
         (exists t :: t in transactions && t.effectiveDate == last)
         && forall t :: t in transactions ==> !Before(last, t.effectiveDate))
  }

  /** Matched pairs pay, and nothing skipped could have been paid by anything unexpected. */
  ghost predicate Sound(series: Series, sameSeries: Actual -> bool, report: Report) {
    && (forall m :: m in report.matched ==> Pays(series, sameSeries, m.expectation, m.actual))
    && (forall e, a :: e in report.skipped && a in report.unexpected ==> !Pays(series, sameSeries, e, a))
  }

  /** Each expected date is matched or skipped, once; each transaction is matched or unexpected, once. */
  ghost predicate Complete(series: Series, transactions: seq<Actual>, first: Civil, last: Civil, report: Report)
    requires WellFormed(series.anchor)
  {
    && multiset(ActualsMatched(report.matched)) + multiset(report.unexpected) == multiset(transactions)
    && (forall e :: Expects(series, first, last, e) <==>
         e in ExpectationsMatched(report.matched) || e in report.skipped)
    && ChronologicalDates(ExpectationsMatched(report.matched)) && ChronologicalDates(report.skipped)
    && (forall e :: !(e in ExpectationsMatched(report.matched) && e in report.skipped))
  }

  /** The pair is no worse than one of e and a: closer in days, then in amount, then earlier, then by id. */
  predicate NoWorse(idLe: (string, string) -> bool, m: Matched, e: Expectation, a: Actual) {
    var days := Abs(DayFromCivil(m.expectation.expectedDate) - DayFromCivil(m.actual.effectiveDate));
    var otherDays := Abs(DayFromCivil(e.expectedDate) - DayFromCivil(a.effectiveDate));
    var off, otherOff := Abs(m.expectation.expectedAmount - m.actual.amount), Abs(e.expectedAmount - a.amount);
    || days < otherDays
    || (days == otherDays && off < otherOff)
    || (days == otherDays && off == otherOff && Before(m.actual.effectiveDate, a.effectiveDate))
    || (days == otherDays && off == otherOff && m.actual.effectiveDate == a.effectiveDate
        && m.actual.txnId != a.txnId && idLe(m.actual.txnId, a.txnId))
    || (days == otherDays && off == otherOff && m.actual.effectiveDate == a.effectiveDate
        && m.actual.txnId == a.txnId && !Before(e.expectedDate, m.expectation.expectedDate))
  }

  /**
   * Whatever could have been matched lost an end to a matched pair no worse, and what is unexpected is listed
   * by date, then by id.
   */
  ghost predicate Ranked(series: Series, sameSeries: Actual -> bool, idLe: (string, string) -> bool, report: Report) {
    && (forall i, j :: 0 <= i < j < |report.unexpected| ==>
         ListedBefore(idLe, report.unexpected[i], report.unexpected[j]))
    && forall e, a :: Reported(report, e, a) && Pays(series, sameSeries, e, a) ==> LostTo(report, idLe, e, a)
  }

  predicate ListedBefore(idLe: (string, string) -> bool, a: Actual, b: Actual) {
    && !Before(b.effectiveDate, a.effectiveDate)
    && (a.effectiveDate == b.effectiveDate ==> idLe(a.txnId, b.txnId))
  }

  predicate Reported(report: Report, e: Expectation, a: Actual) {
    && (e in ExpectationsMatched(report.matched) || e in report.skipped)
    && (a in ActualsMatched(report.matched) || a in report.unexpected)
  }

  predicate LostTo(report: Report, idLe: (string, string) -> bool, e: Expectation, a: Actual) {
    exists k :: 0 <= k < |report.matched|
      && (report.matched[k].expectation == e || report.matched[k].actual == a)
      && NoWorse(idLe, report.matched[k], e, a)
  }

  ghost predicate ChronologicalDates(expectations: seq<Expectation>) {
    forall i, j :: 0 <= i < j < |expectations| ==>
      Before(expectations[i].expectedDate, expectations[j].expectedDate)
  }

  // What the report means.

  function ExpectationsMatched(matched: seq<Matched>): (r: seq<Expectation>)
    ensures |r| == |matched| && forall k :: 0 <= k < |matched| ==> r[k] == matched[k].expectation
  {
    seq(|matched|, k requires 0 <= k < |matched| => matched[k].expectation)
  }

  function ActualsMatched(matched: seq<Matched>): (r: seq<Actual>)
    ensures |r| == |matched| && forall k :: 0 <= k < |matched| ==> r[k] == matched[k].actual
  {
    seq(|matched|, k requires 0 <= k < |matched| => matched[k].actual)
  }

  /** The chosen pairs: eligible, one to one, with no blocking pair, and at least half of any matching. */
  lemma ChosenPairsAreGreedy(series: Series, sameSeries: Actual -> bool, expectations: seq<Expectation>,
                             ordered: seq<Actual>, idLe: (string, string) -> bool, other: seq<Pair>)
    requires TotalOrder(idLe)
    requires IsMatching(other, PairEnds)
    requires forall p :: p in other ==>
      p in Pairs(series.amounts, ToleranceDays(series.cadence), sameSeries, expectations, |expectations|, ordered)
    ensures var chosen := ChosenPairs(series, sameSeries, expectations, ordered, idLe);
      var candidates := Pairs(series.amounts, ToleranceDays(series.cadence), sameSeries,
        expectations, |expectations|, ordered);
      && IsMatching(chosen, PairEnds)
      && (forall p :: p in chosen ==> p in candidates)
      && (forall p :: p in candidates ==> Settled(chosen, PairEnds, PairOrder(idLe), p))
      && |other| <= 2 * |chosen|
  {
    var candidates := Pairs(series.amounts, ToleranceDays(series.cadence), sameSeries,
      expectations, |expectations|, ordered);
    var ranked, chosen := Sort(candidates, PairOrder(idLe)),
      ChosenPairs(series, sameSeries, expectations, ordered, idLe);
    assert chosen == Greedy(ranked, PairEnds);
    hide *;
    PairOrderIsPreorder(idLe);
    SortSorts(candidates, PairOrder(idLe));
    SameElements(candidates, PairOrder(idLe));
    GreedyIsMatching(ranked, PairEnds);
    GreedyLeavesNoBlockingPair(ranked, PairEnds, PairOrder(idLe));
    GreedyIsHalfOptimal(ranked, PairEnds, PairOrder(idLe), other);
    forall p | p in candidates ensures Settled(chosen, PairEnds, PairOrder(idLe), p) {
      assert p in ranked;
      var i :| 0 <= i < |ranked| && ranked[i] == p;
    }
  }

  /** Whatever the order of the ids, the chosen pairs are candidates without common ends, and as many as fit. */
  lemma ChosenPairsFit(series: Series, sameSeries: Actual -> bool, expectations: seq<Expectation>,
                       ordered: seq<Actual>, idLe: (string, string) -> bool)
    ensures var chosen := ChosenPairs(series, sameSeries, expectations, ordered, idLe);
      var candidates := Pairs(series.amounts, ToleranceDays(series.cadence), sameSeries,
        expectations, |expectations|, ordered);
      && IsMatching(chosen, PairEnds)
      && (forall p :: p in chosen ==> p in candidates)
      && (forall p :: p in candidates ==>
           p.expectationIndex in Lefts(chosen, PairEnds) || p.actualIndex in Rights(chosen, PairEnds))
  {
    var candidates := Pairs(series.amounts, ToleranceDays(series.cadence), sameSeries,
      expectations, |expectations|, ordered);
    var ranked, chosen := Sort(candidates, PairOrder(idLe)),
      ChosenPairs(series, sameSeries, expectations, ordered, idLe);
    assert chosen == Greedy(ranked, PairEnds);
    hide Pairs, ChosenPairs;
    SameElements(candidates, PairOrder(idLe));
    GreedyIsMatching(ranked, PairEnds);
    GreedyLeavesNoBlockingPair(ranked, PairEnds, AnyOrder);
    forall p | p in candidates
      ensures p.expectationIndex in Lefts(chosen, PairEnds) || p.actualIndex in Rights(chosen, PairEnds)
    {
      assert p in ranked;
      var i :| 0 <= i < |ranked| && ranked[i] == p;
      assert Settled(chosen, PairEnds, AnyOrder, ranked[i]);
    }
  }

  predicate AnyOrder(a: Pair, b: Pair) {
    true
  }

  /** Every expectation is matched or skipped and every transaction matched or unexpected, once each. */
  lemma ReportPartitions(series: Series, sameSeries: Actual -> bool, expectations: seq<Expectation>,
                         transactions: seq<Actual>, idLe: (string, string) -> bool)
    ensures var ordered := Sort(transactions, Chronology(idLe));
      var chosen := ChosenPairs(series, sameSeries, expectations, ordered, idLe);
      && multiset(ExpectationsMatched(MatchesOf(chosen))) + multiset(Without(expectations, Lefts(chosen, PairEnds)))
           == multiset(expectations)
      && multiset(ActualsMatched(MatchesOf(chosen))) + multiset(Without(ordered, Rights(chosen, PairEnds)))
           == multiset(transactions)
      && multiset(Sort(MatchesOf(chosen), ByDate)) == multiset(MatchesOf(chosen))
  {
    var ordered := Sort(transactions, Chronology(idLe));
    var chosen := ChosenPairs(series, sameSeries, expectations, ordered, idLe);
    hide Pairs, ChosenPairs;
    SortKeeps(transactions, Chronology(idLe));
    SortKeeps(MatchesOf(chosen), ByDate);
    ChosenPairsFit(series, sameSeries, expectations, ordered, idLe);
    PairsExact(series.amounts, ToleranceDays(series.cadence), sameSeries, expectations, |expectations|, ordered);
    IndexesOfChosen(chosen, expectations, ordered);
  }

  lemma IndexesOfChosen(chosen: seq<Pair>, expectations: seq<Expectation>, ordered: seq<Actual>)
    requires IsMatching(chosen, PairEnds)
    requires forall p :: p in chosen ==>
      p.expectationIndex < |expectations| && p.actualIndex < |ordered|
      && p.expectation == expectations[p.expectationIndex] && p.actual == ordered[p.actualIndex]
    ensures multiset(ExpectationsMatched(MatchesOf(chosen))) + multiset(Without(expectations, Lefts(chosen, PairEnds)))
      == multiset(expectations)
    ensures multiset(ActualsMatched(MatchesOf(chosen))) + multiset(Without(ordered, Rights(chosen, PairEnds)))
      == multiset(ordered)
  {
    var lefts: seq<nat> := seq(|chosen|, k requires 0 <= k < |chosen| => chosen[k].expectationIndex);
    var rights: seq<nat> := seq(|chosen|, k requires 0 <= k < |chosen| => chosen[k].actualIndex);
    forall k | 0 <= k < |chosen|
      ensures lefts[k] < |expectations| && rights[k] < |ordered|
        && chosen[k].expectation == expectations[lefts[k]] && chosen[k].actual == ordered[rights[k]]
    {
      assert chosen[k] in chosen;
    }
    forall j, k | 0 <= j < k < |chosen| ensures lefts[j] != lefts[k] && rights[j] != rights[k] {
      assert !Clash(PairEnds(chosen[j]), PairEnds(chosen[k]));
    }
    assert Lefts(chosen, PairEnds) == set k | 0 <= k < |lefts| :: lefts[k];
    assert Rights(chosen, PairEnds) == set k | 0 <= k < |rights| :: rights[k];
    TakenAndLeft(expectations, lefts, Lefts(chosen, PairEnds));
    TakenAndLeft(ordered, rights, Rights(chosen, PairEnds));
    assert TakeAt(expectations, lefts) == ExpectationsMatched(MatchesOf(chosen));
    assert TakeAt(ordered, rights) == ActualsMatched(MatchesOf(chosen));
  }

  // The report keeps its promises.

  lemma PaysIsEligible(series: Series, sameSeries: Actual -> bool, e: Expectation, a: Actual)
    ensures Pays(series, sameSeries, e, a) <==>
      Eligible(series.amounts, ToleranceDays(series.cadence), sameSeries, e, a)
  {
    hide DayFromCivil;
  }

  lemma {:induction false} WithoutMembers<T(!new)>(s: seq<T>, used: set<nat>)
    ensures forall x :: x in Without(s, used) <==> exists i: nat :: i < |s| && i !in used && s[i] == x
  {
    if s != [] {
      var init := s[..|s| - 1];
      WithoutMembers(init, used);
      forall x ensures x in Without(s, used) <==> exists i: nat :: i < |s| && i !in used && s[i] == x {
        if x in Without(init, used) {
          var i: nat :| i < |init| && i !in used && init[i] == x;
          assert s[i] == x;
        }
        if i: nat :| i < |s| && i !in used && s[i] == x {
          assert i < |init| ==> init[i] == x;
        }
      }
    }
  }

  lemma {:induction false} WithoutSorted<T(!new)>(s: seq<T>, used: set<nat>, le: (T, T) -> bool)
    requires SortedBy(s, le)
    ensures SortedBy(Without(s, used), le)
  {
    if s != [] {
      var init := s[..|s| - 1];
      WithoutSorted(init, used, le);
      WithoutMembers(init, used);
      var before := Without(init, used);
      forall k | 0 <= k < |before| ensures le(before[k], s[|s| - 1]) {
        assert before[k] in before;
        var i: nat :| i < |init| && i !in used && init[i] == before[k];
        assert le(s[i], s[|s| - 1]);
      }
    }
  }

  /** Every chosen pair pays; a pair that pays has its expectation or its transaction in a chosen one. */
  lemma ChosenPay(series: Series, sameSeries: Actual -> bool, expectations: seq<Expectation>,
                  ordered: seq<Actual>, idLe: (string, string) -> bool)
    ensures var chosen := ChosenPairs(series, sameSeries, expectations, ordered, idLe);
      && (forall p :: p in chosen ==> Pays(series, sameSeries, p.expectation, p.actual))
      && forall i: nat, j: nat | i < |expectations| && j < |ordered| ::
           Pays(series, sameSeries, expectations[i], ordered[j]) ==>
             i in Lefts(chosen, PairEnds) || j in Rights(chosen, PairEnds)
  {
    var chosen := ChosenPairs(series, sameSeries, expectations, ordered, idLe);
    hide Pairs, ChosenPairs, Eligible, Pays;
    ChosenPairsFit(series, sameSeries, expectations, ordered, idLe);
    PairsExact(series.amounts, ToleranceDays(series.cadence), sameSeries, expectations, |expectations|, ordered);
    forall e, a ensures Pays(series, sameSeries, e, a) <==>
      Eligible(series.amounts, ToleranceDays(series.cadence), sameSeries, e, a)
    {
      PaysIsEligible(series, sameSeries, e, a);
    }
    forall i: nat, j: nat | i < |expectations| && j < |ordered| && Pays(series, sameSeries, expectations[i], ordered[j])
      ensures i in Lefts(chosen, PairEnds) || j in Rights(chosen, PairEnds)
    {
      var p := PairOf(expectations, i, ordered, j);
      assert p.expectation == expectations[i] && p.actual == ordered[j];
    }
  }

  lemma MatchedOnes(chosen: seq<Pair>)
    ensures forall m :: m in Sort(MatchesOf(chosen), ByDate) <==>
      exists p :: p in chosen && m == Matched(p.expectation, p.actual)
  {
    var matches := MatchesOf(chosen);
    SameElements(matches, ByDate);
    forall m ensures m in matches <==> exists p :: p in chosen && m == Matched(p.expectation, p.actual) {
      if m in matches {
        var k :| 0 <= k < |matches| && matches[k] == m;
        assert chosen[k] in chosen;
      }
      if p :| p in chosen && m == Matched(p.expectation, p.actual) {
        var k :| 0 <= k < |chosen| && chosen[k] == p;
        assert matches[k] == m;
      }
    }
  }

  predicate Sooner(a: Expectation, b: Expectation) {
    Before(a.expectedDate, b.expectedDate)
  }

  lemma ExpectationsExact(series: Series, first: Civil, last: Civil)
    requires WellFormed(series.anchor)
    ensures forall e :: e in ExpectationsOf(series, first, last) <==> Expects(series, first, last, e)
    ensures SortedBy(ExpectationsOf(series, first, last), Sooner)
  {
    hide DayFromCivil, GridDates, OnGrid, HasStatus, StatusOn, Valid, Before;
    var dates := GridDates(series.anchor, DayFromCivil(first), DayFromCivil(last));
    var active := Projection.ActiveDates(series.statusEvents, dates);
    GridDatesExact(series.anchor, DayFromCivil(first), DayFromCivil(last));
    assert Projection.Increasing(dates);
    Projection.ActiveDatesExact(series.statusEvents, dates);
    Projection.ActiveDatesOrdered(series.statusEvents, dates);
    var expectations := ExpectationsOf(series, first, last);
    assert forall i, j :: 0 <= i < j < |expectations| ==> Before(active[i], active[j]);
    forall e ensures e in expectations <==> Expects(series, first, last, e) {
      HistoryDecides(series.statusEvents, e.expectedDate, Confirmed);
      assert e.expectedDate in active <==>
        e.expectedDate in dates && HasStatus(series.statusEvents, e.expectedDate, Confirmed);
      if e.expectedDate in active && e.expectedAmount == ExpectedAmount(series.amounts) {
        var i :| 0 <= i < |active| && active[i] == e.expectedDate;
        assert expectations[i] == e;
      }
      if e in expectations {
        var i :| 0 <= i < |expectations| && expectations[i] == e;
        assert active[i] == e.expectedDate;
      }
    }
  }

  /** The chosen pairs stand at different places of both lists. */
  ghost predicate Placed(chosen: seq<Pair>, expectations: seq<Expectation>, ordered: seq<Actual>) {
    && IsMatching(chosen, PairEnds)
    && forall p :: p in chosen ==>
      && p.expectationIndex < |expectations| && p.actualIndex < |ordered|
      && p.expectation == expectations[p.expectationIndex] && p.actual == ordered[p.actualIndex]
  }

  lemma ChosenArePlaced(series: Series, sameSeries: Actual -> bool, expectations: seq<Expectation>,
                        ordered: seq<Actual>, idLe: (string, string) -> bool)
    ensures Placed(ChosenPairs(series, sameSeries, expectations, ordered, idLe), expectations, ordered)
  {
    hide Pairs, ChosenPairs;
    ChosenPairsFit(series, sameSeries, expectations, ordered, idLe);
    PairsExact(series.amounts, ToleranceDays(series.cadence), sameSeries, expectations, |expectations|, ordered);
  }

  lemma MatchedInOrder(chosen: seq<Pair>, expectations: seq<Expectation>, ordered: seq<Actual>)
    requires Placed(chosen, expectations, ordered) && SortedBy(expectations, Sooner)
    ensures ChronologicalDates(ExpectationsMatched(Sort(MatchesOf(chosen), ByDate)))
  {
    var matches, sorted := MatchesOf(chosen), Sort(MatchesOf(chosen), ByDate);
    SortSorts(matches, ByDate);
    var place := SortIsStable(matches, ByDate);
    DifferentDates(chosen, expectations, ordered);
    forall k, l | 0 <= k < l < |sorted|
      ensures Before(sorted[k].expectation.expectedDate, sorted[l].expectation.expectedDate)
    {
      assert k in place && l in place;
      var i :| 0 <= i < |place| && place[i] == k;
      var j :| 0 <= j < |place| && place[j] == l;
      assert sorted[k] == matches[i] && sorted[l] == matches[j] && ByDate(sorted[k], sorted[l]);
    }
  }

  lemma DifferentDates(chosen: seq<Pair>, expectations: seq<Expectation>, ordered: seq<Actual>)
    requires Placed(chosen, expectations, ordered) && SortedBy(expectations, Sooner)
    ensures forall i, j :: 0 <= i < |chosen| && 0 <= j < |chosen| && i != j ==>
      chosen[i].expectation.expectedDate != chosen[j].expectation.expectedDate
  {
    forall i, j | 0 <= i < j < |chosen|
      ensures chosen[i].expectation.expectedDate != chosen[j].expectation.expectedDate
    {
      assert chosen[i] in chosen && chosen[j] in chosen;
      assert !Clash(PairEnds(chosen[i]), PairEnds(chosen[j]));
      var k, l := chosen[i].expectationIndex, chosen[j].expectationIndex;
      assert k < l ==> Sooner(expectations[k], expectations[l]);
      assert l < k ==> Sooner(expectations[l], expectations[k]);
    }
  }

  lemma NoneBoth(chosen: seq<Pair>, expectations: seq<Expectation>, ordered: seq<Actual>)
    requires Placed(chosen, expectations, ordered) && SortedBy(expectations, Sooner)
    ensures forall p :: p in chosen ==> p.expectation !in Without(expectations, Lefts(chosen, PairEnds))
  {
    WithoutMembers(expectations, Lefts(chosen, PairEnds));
    forall p | p in chosen ensures p.expectation !in Without(expectations, Lefts(chosen, PairEnds)) {
      var k :| 0 <= k < |chosen| && chosen[k] == p;
      assert PairEnds(chosen[k]).left in Lefts(chosen, PairEnds);
      forall i: nat | i < |expectations| && i !in Lefts(chosen, PairEnds) ensures expectations[i] != p.expectation {
        assert i < p.expectationIndex ==> Sooner(expectations[i], expectations[p.expectationIndex]);
        assert p.expectationIndex < i ==> Sooner(expectations[p.expectationIndex], expectations[i]);
      }
    }
  }

  lemma {:induction false} InsertedActual(x: Matched, s: seq<Matched>)
    ensures multiset(ActualsMatched(Insert(x, s, ByDate))) == multiset(ActualsMatched(s)) + multiset{x.actual}
  {
    hide Insert, ByDate, ActualsMatched;
    InsertUnfolds(x, s, ByDate);
    if s == [] || ByDate(x, s[0]) {
      FirstActual(x, s);
    } else {
      InsertedActual(x, s[1..]);
      FirstActual(s[0], s[1..]);
      FirstActual(s[0], Insert(x, s[1..], ByDate));
      assert s == [s[0]] + s[1..];
    }
  }

  lemma FirstActual(x: Matched, s: seq<Matched>)
    ensures multiset(ActualsMatched([x] + s)) == multiset(ActualsMatched(s)) + multiset{x.actual}
  {
    assert ActualsMatched([x] + s) == [x.actual] + ActualsMatched(s);
  }

  lemma {:induction false} SortedActuals(s: seq<Matched>)
    ensures multiset(ActualsMatched(Sort(s, ByDate))) == multiset(ActualsMatched(s))
  {
    hide Insert, ByDate, ActualsMatched;
    if s != [] {
      SortedActuals(s[1..]);
      InsertedActual(s[0], Sort(s[1..], ByDate));
      FirstActual(s[0], s[1..]);
      assert s == [s[0]] + s[1..];
    }
  }

  lemma MatchedExpectations(chosen: seq<Pair>)
    ensures forall e :: e in ExpectationsMatched(Sort(MatchesOf(chosen), ByDate)) <==>
      exists p :: p in chosen && p.expectation == e
  {
    var sorted := Sort(MatchesOf(chosen), ByDate);
    MatchedOnes(chosen);
    forall e ensures e in ExpectationsMatched(sorted) <==> exists p :: p in chosen && p.expectation == e {
      if e in ExpectationsMatched(sorted) {
        var k :| 0 <= k < |sorted| && sorted[k].expectation == e;
        assert sorted[k] in sorted;
      }
      if p :| p in chosen && p.expectation == e {
        assert Matched(p.expectation, p.actual) in sorted;
        var k :| 0 <= k < |sorted| && sorted[k] == Matched(p.expectation, p.actual);
        assert ExpectationsMatched(sorted)[k] == e;
      }
    }
  }

  lemma ReportOf(series: Series, transactions: seq<Actual>, first: Civil, last: Civil,
                 sameSeries: Actual -> bool, idLe: (string, string) -> bool) returns (report: Report)
    requires WellFormed(series.anchor)
    ensures var ordered, expectations := Sort(transactions, Chronology(idLe)), ExpectationsOf(series, first, last);
      var chosen := ChosenPairs(series, sameSeries, expectations, ordered, idLe);
      report == Report(Sort(MatchesOf(chosen), ByDate), Without(expectations, Lefts(chosen, PairEnds)),
        Without(ordered, Rights(chosen, PairEnds)))
    ensures Sound(series, sameSeries, report) && Complete(series, transactions, first, last, report)
  {
    hide ExpectationsOf, Pairs, ChosenPairs, Pays, Without, Expects, Sort, DayFromCivil;
    var ordered, expectations := Sort(transactions, Chronology(idLe)), ExpectationsOf(series, first, last);
    var chosen := ChosenPairs(series, sameSeries, expectations, ordered, idLe);
    report := Report(Sort(MatchesOf(chosen), ByDate), Without(expectations, Lefts(chosen, PairEnds)),
      Without(ordered, Rights(chosen, PairEnds)));
    ChosenArePlaced(series, sameSeries, expectations, ordered, idLe);
    ExpectationsExact(series, first, last);
    MatchedOnes(chosen);
    assert Sound(series, sameSeries, report) by {
      ChosenPay(series, sameSeries, expectations, ordered, idLe);
      WithoutMembers(expectations, Lefts(chosen, PairEnds));
      WithoutMembers(ordered, Rights(chosen, PairEnds));
    }
    CompleteFrom(series, transactions, first, last, chosen, expectations, ordered, sameSeries, idLe, report);
  }

  lemma CompleteFrom(series: Series, transactions: seq<Actual>, first: Civil, last: Civil, chosen: seq<Pair>,
                     expectations: seq<Expectation>, ordered: seq<Actual>,
                     sameSeries: Actual -> bool, idLe: (string, string) -> bool, report: Report)
    requires WellFormed(series.anchor) && ordered == Sort(transactions, Chronology(idLe))
    requires expectations == ExpectationsOf(series, first, last)
    requires chosen == ChosenPairs(series, sameSeries, expectations, ordered, idLe)
    requires report == Report(Sort(MatchesOf(chosen), ByDate), Without(expectations, Lefts(chosen, PairEnds)),
      Without(ordered, Rights(chosen, PairEnds)))
    ensures Complete(series, transactions, first, last, report)
  {
    hide ExpectationsOf, Pairs, ChosenPairs, Without, Expects, Sort;
    ChosenArePlaced(series, sameSeries, expectations, ordered, idLe);
    ExpectationsExact(series, first, last);
    ReportPartitions(series, sameSeries, expectations, transactions, idLe);
    SortedActuals(MatchesOf(chosen));
    MatchedInOrder(chosen, expectations, ordered);
    WithoutSorted(expectations, Lefts(chosen, PairEnds), Sooner);
    NoneBoth(chosen, expectations, ordered);
    MatchedExpectations(chosen);
    WithoutMembers(expectations, Lefts(chosen, PairEnds));
    TakenOrLeft(chosen, expectations, ordered);
  }

  lemma TakenOrLeft(chosen: seq<Pair>, expectations: seq<Expectation>, ordered: seq<Actual>)
    requires Placed(chosen, expectations, ordered)
    ensures forall e :: e in expectations <==>
      e in Without(expectations, Lefts(chosen, PairEnds)) || exists p :: p in chosen && p.expectation == e
  {
    WithoutMembers(expectations, Lefts(chosen, PairEnds));
    forall e | e in expectations
      ensures e in Without(expectations, Lefts(chosen, PairEnds)) || exists p :: p in chosen && p.expectation == e
    {
      var i: nat :| i < |expectations| && expectations[i] == e;
      if i in Lefts(chosen, PairEnds) {
        var k :| 0 <= k < |chosen| && PairEnds(chosen[k]).left == i;
        assert chosen[k] in chosen;
      }
    }
  }

  lemma SpanOfTransactions(series: Series, transactions: seq<Actual>, from: Option<Civil>, to: Option<Civil>,
                           idLe: (string, string) -> bool)
    requires TotalOrder(idLe)
    ensures var ordered := Sort(transactions, Chronology(idLe));
      Span(series, transactions, from, to, FromDate(series, ordered, from), ToDate(series, ordered, to))
  {
    hide Sort, TotalOrder, Chronology, Before;
    SameElements(transactions, Chronology(idLe));
    if transactions != [] {
      assert |Sort(transactions, Chronology(idLe))| > 0;
      Outermost(transactions, idLe);
    }
  }

  lemma Outermost(transactions: seq<Actual>, idLe: (string, string) -> bool)
    requires TotalOrder(idLe) && transactions != []
    ensures var ordered := Sort(transactions, Chronology(idLe));
      && ordered != [] && ordered[0] in transactions && ordered[|ordered| - 1] in transactions
      && (forall t :: t in transactions ==> !Before(t.effectiveDate, ordered[0].effectiveDate))
      && (forall t :: t in transactions ==> !Before(ordered[|ordered| - 1].effectiveDate, t.effectiveDate))
  {
    hide Sort, TotalOrder, TotalPreorder;
    var le := Chronology(idLe);
    var ordered := Sort(transactions, le);
    ChronologyIsPreorder(idLe);
    SortSorts(transactions, le);
    SameElements(transactions, le);
    assert transactions[0] in ordered;
    forall t | t in transactions
      ensures !Before(t.effectiveDate, ordered[0].effectiveDate)
      ensures !Before(ordered[|ordered| - 1].effectiveDate, t.effectiveDate)
    {
      assert t in ordered;
      var k :| 0 <= k < |ordered| && ordered[k] == t;
      assert 0 < k ==> le(ordered[0], ordered[k]);
      assert k < |ordered| - 1 ==> le(ordered[k], ordered[|ordered| - 1]);
    }
  }

  lemma ChronologyIsPreorder(idLe: (string, string) -> bool)
    requires TotalOrder(idLe)
    ensures TotalPreorder(Chronology(idLe))
  {
  }

  /** A candidate that is not chosen lost one of its ends to a chosen pair no worse. */
  lemma ChosenNoWorse(series: Series, sameSeries: Actual -> bool, expectations: seq<Expectation>,
                      ordered: seq<Actual>, idLe: (string, string) -> bool, i: nat, j: nat) returns (p: Pair)
    requires TotalOrder(idLe) && i < |expectations| && j < |ordered|
    requires Pays(series, sameSeries, expectations[i], ordered[j])
    ensures p in ChosenPairs(series, sameSeries, expectations, ordered, idLe)
    ensures p.expectation == expectations[i] || p.actual == ordered[j]
    ensures NoWorse(idLe, Matched(p.expectation, p.actual), expectations[i], ordered[j])
  {
    hide Pairs, ChosenPairs, Eligible, Pays, DayFromCivil, PairLe, NoWorse, TotalOrder, PairsWith;
    var chosen, c := ChosenPairs(series, sameSeries, expectations, ordered, idLe), PairOf(expectations, i, ordered, j);
    PaysIsEligible(series, sameSeries, expectations[i], ordered[j]);
    ChosenPairsAreGreedy(series, sameSeries, expectations, ordered, idLe, []);
    PairsExact(series.amounts, ToleranceDays(series.cadence), sameSeries, expectations, |expectations|, ordered);
    assert Settled(chosen, PairEnds, PairOrder(idLe), c);
    var k :| 0 <= k < |chosen| && Clash(PairEnds(chosen[k]), PairEnds(c)) && PairOrder(idLe)(chosen[k], c);
    p := chosen[k];
    assert p in chosen;
    PairLeNoWorse(idLe, expectations, ordered, p.expectationIndex, p.actualIndex, i, j);
  }

  lemma PairLeNoWorse(idLe: (string, string) -> bool, expectations: seq<Expectation>, ordered: seq<Actual>,
                      i: nat, j: nat, k: nat, l: nat)
    requires i < |expectations| && j < |ordered| && k < |expectations| && l < |ordered|
    requires PairLe(idLe, PairOf(expectations, i, ordered, j), PairOf(expectations, k, ordered, l))
    ensures NoWorse(idLe, Matched(expectations[i], ordered[j]), expectations[k], ordered[l])
  {
    hide DayFromCivil;
  }

  lemma ReportIsRanked(series: Series, transactions: seq<Actual>, first: Civil, last: Civil,
                       sameSeries: Actual -> bool, idLe: (string, string) -> bool, report: Report)
    requires WellFormed(series.anchor) && TotalOrder(idLe)
    requires var ordered, expectations := Sort(transactions, Chronology(idLe)), ExpectationsOf(series, first, last);
      var chosen := ChosenPairs(series, sameSeries, expectations, ordered, idLe);
      report == Report(Sort(MatchesOf(chosen), ByDate), Without(expectations, Lefts(chosen, PairEnds)),
        Without(ordered, Rights(chosen, PairEnds)))
    requires Complete(series, transactions, first, last, report)
    ensures Ranked(series, sameSeries, idLe, report)
  {
    hide ExpectationsOf, Pairs, ChosenPairs, Pays, NoWorse, Without, Expects, Sort, TotalOrder;
    var ordered, expectations := Sort(transactions, Chronology(idLe)), ExpectationsOf(series, first, last);
    var chosen := ChosenPairs(series, sameSeries, expectations, ordered, idLe);
    UnexpectedInOrder(transactions, idLe, Rights(chosen, PairEnds));
    ExpectationsExact(series, first, last);
    MatchedOnes(chosen);
    SameElements(transactions, Chronology(idLe));
    forall e, a | Reported(report, e, a) && Pays(series, sameSeries, e, a) ensures LostTo(report, idLe, e, a) {
      assert e in expectations;
      ReportedIsTransaction(transactions, report, a);
      var i: nat :| i < |expectations| && expectations[i] == e;
      var j: nat :| j < |ordered| && ordered[j] == a;
      var p := ChosenNoWorse(series, sameSeries, expectations, ordered, idLe, i, j);
      assert Matched(p.expectation, p.actual) in report.matched;
    }
  }

  lemma ReportedIsTransaction(transactions: seq<Actual>, report: Report, a: Actual)
    requires multiset(ActualsMatched(report.matched)) + multiset(report.unexpected) == multiset(transactions)
    requires a in ActualsMatched(report.matched) || a in report.unexpected
    ensures a in transactions
  {
    assert a in multiset(transactions);
  }

  lemma UnexpectedInOrder(transactions: seq<Actual>, idLe: (string, string) -> bool, used: set<nat>)
    requires TotalOrder(idLe)
    ensures var left := Without(Sort(transactions, Chronology(idLe)), used);
      forall i, j :: 0 <= i < j < |left| ==> ListedBefore(idLe, left[i], left[j])
  {
    var le := Chronology(idLe);
    ChronologyIsPreorder(idLe);
    SortSorts(transactions, le);
    WithoutSorted(Sort(transactions, le), used, le);
    hide Sort, Without, TotalOrder;
    var left := Without(Sort(transactions, le), used);
    forall i, j | 0 <= i < j < |left| ensures ListedBefore(idLe, left[i], left[j]) {
      assert le(left[i], left[j]);
    }
  }
}

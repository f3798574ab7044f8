/**
 * reconcilePaycheck: the independent checker a paycheck has to satisfy. Amounts are integers;
 * a negative one stands for a wire string that is not canonical non-negative minor units.
 */
module PaycheckReconciliation {
  import opened Wrappers
  import opened Sorting
  import MoneyText

  datatype Kind =
    | GrossSalary | Bonus | Commission | Reimbursement
    | FederalWithholding | StateWithholding | LocalWithholding | FicaWithholding
    | Benefit | Retirement401k | EmployerMatch | Hsa | Fsa | Espp
    | RsuWithholding | Garnishment | DirectDeposit

  datatype Component = Component(key: string, kind: Kind, amount: int)

  datatype Match = Match(transactionId: string, componentKey: string, amount: int)

  datatype PaycheckInput = PaycheckInput(
    gross: int, net: int, components: seq<Component>, matches: seq<Match>,
    transactionAmounts: map<string, int>)

  datatype Violation =
    | GrossMismatch(expected: int, actual: int)
    | NetMismatch(expected: int, actual: int)
    | DirectDepositMismatch(expected: int, actual: int)
    | DestinationMismatch(componentKey: string, expected: int, actual: int)
    | TransactionOverallocated(transactionId: string, capacity: int, drawn: int)

  datatype RangeError =
    | NotCanonical | DuplicateOrEmptyKey | UnknownComponent | EmptyTransactionId | NoCapacityEvidence

  datatype Report = Report(
    ok: bool, grossComponents: int, computedNet: int, directDeposits: int,
    matchedDestinations: int, violations: seq<Violation>)

  const GROSS: set<Kind> := {GrossSalary, Bonus, Commission}
  const ADDITIONS: set<Kind> := {Reimbursement}
  const DEDUCTIONS: set<Kind> := {
    FederalWithholding, StateWithholding, LocalWithholding, FicaWithholding,
    Benefit, Retirement401k, Hsa, Fsa, Espp, RsuWithholding, Garnishment}
  const DESTINATIONS: set<Kind> := {Retirement401k, EmployerMatch, Hsa, Fsa, Espp, DirectDeposit}

  // What a well-formed input and its totals are.

  function KindTotal(components: seq<Component>, kinds: set<Kind>): int {
    if components == [] then 0
    else
      var last := components[|components| - 1];
      KindTotal(components[..|components| - 1], kinds) + if last.kind in kinds then last.amount else 0
  }

  function MatchTotal(matches: seq<Match>): int {
    if matches == [] then 0
    else MatchTotal(matches[..|matches| - 1]) + matches[|matches| - 1].amount
  }

  function AllocatedTo(matches: seq<Match>, key: string): int {
    if matches == [] then 0
    else
      var last := matches[|matches| - 1];
      AllocatedTo(matches[..|matches| - 1], key) + if last.componentKey == key then last.amount else 0
  }

  function AllocatedFrom(matches: seq<Match>, txn: string): int {
    if matches == [] then 0
    else
      var last := matches[|matches| - 1];
      AllocatedFrom(matches[..|matches| - 1], txn) + if last.transactionId == txn then last.amount else 0
  }

  function ComputedNet(components: seq<Component>): int {
    KindTotal(components, GROSS) + KindTotal(components, ADDITIONS) - KindTotal(components, DEDUCTIONS)
  }

  ghost predicate DistinctKeys(components: seq<Component>) {
    && (forall i :: 0 <= i < |components| ==> components[i].key != "")
    && (forall i, j :: 0 <= i < j < |components| ==> components[i].key != components[j].key)
  }

  ghost predicate KeyOf(components: seq<Component>, key: string) {
    exists i :: 0 <= i < |components| && components[i].key == key
  }

  ghost predicate NamesComponent(components: seq<Component>, m: Match) {
    && KeyOf(components, m.componentKey)
    && m.transactionId != ""
    && m.amount >= 0
  }

  ghost predicate WellFormedMatch(input: PaycheckInput, m: Match) {
    && NamesComponent(input.components, m)
    && m.transactionId in input.transactionAmounts
    && input.transactionAmounts[m.transactionId] >= 0
  }

  ghost predicate WellFormed(input: PaycheckInput) {
    && input.gross >= 0 && input.net >= 0
    && DistinctKeys(input.components)
    && (forall i :: 0 <= i < |input.components| ==> input.components[i].amount >= 0)
    && (forall i :: 0 <= i < |input.matches| ==> WellFormedMatch(input, input.matches[i]))
  }

  ghost predicate MatchesFrom(matches: seq<Match>, txn: string) {
    exists i :: 0 <= i < |matches| && matches[i].transactionId == txn
  }

  /** Exactly the violations the checker reports, with their evidence. */
  ghost predicate IsViolation(input: PaycheckInput, v: Violation) {
    match v
    case GrossMismatch(e, a) => e == input.gross && a == KindTotal(input.components, GROSS) && e != a
    case NetMismatch(e, a) => e == input.net && a == ComputedNet(input.components) && e != a
    case DirectDepositMismatch(e, a) =>
      e == input.net && a == KindTotal(input.components, {DirectDeposit}) && e != a
    case DestinationMismatch(key, e, a) =>
      && a == AllocatedTo(input.matches, key) && e != a
      && DestinationOf(input.components, key, e)
    case TransactionOverallocated(txn, capacity, drawn) =>
      && MatchesFrom(input.matches, txn)
      && txn in input.transactionAmounts && capacity == input.transactionAmounts[txn]
      && drawn == AllocatedFrom(input.matches, txn) && capacity < drawn
  }

  ghost predicate DestinationOf(components: seq<Component>, key: string, amount: int) {
    exists i :: 0 <= i < |components| && components[i].key == key
      && components[i].amount == amount && components[i].kind in DESTINATIONS
  }

  // The same violations told kind by kind.

  function PayWeight(kind: Kind): int {
    match kind
    case GrossSalary => 1
    case Bonus => 1
    case Commission => 1
    case _ => 0
  }

  /** Pay and reimbursements raise the net; employer matches and deposits do not touch it; the rest lowers it. */
  function NetWeight(kind: Kind): int {
    match kind
    case GrossSalary => 1
    case Bonus => 1
    case Commission => 1
    case Reimbursement => 1
    case FederalWithholding => -1
    case StateWithholding => -1
    case LocalWithholding => -1
    case FicaWithholding => -1
    case Benefit => -1
    case Retirement401k => -1
    case EmployerMatch => 0
    case Hsa => -1
    case Fsa => -1
    case Espp => -1
    case RsuWithholding => -1
    case Garnishment => -1
    case DirectDeposit => 0
  }

  function DepositWeight(kind: Kind): int {
    if kind == DirectDeposit then 1 else 0
  }

  predicate IsDestination(kind: Kind) {
    match kind
    case Retirement401k => true
    case EmployerMatch => true
    case Hsa => true
    case Fsa => true
    case Espp => true
    case DirectDeposit => true
    case _ => false
  }

  function SumByKind(components: seq<Component>, weight: Kind -> int): int {
    if components == [] then 0
    else weight(components[0].kind) * components[0].amount + SumByKind(components[1..], weight)
  }

  function SumOfMatches(matches: seq<Match>, counts: Match -> bool): int {
    if matches == [] then 0
    else (if counts(matches[0]) then matches[0].amount else 0) + SumOfMatches(matches[1..], counts)
  }

  ghost predicate Breaks(input: PaycheckInput, v: Violation) {
    match v
    case GrossMismatch(e, a) => e == input.gross && a == SumByKind(input.components, PayWeight) && e != a
    case NetMismatch(e, a) => e == input.net && a == SumByKind(input.components, NetWeight) && e != a
    case DirectDepositMismatch(e, a) => e == input.net && a == SumByKind(input.components, DepositWeight) && e != a
    case DestinationMismatch(key, e, a) =>
      && (exists c :: c in input.components && c.key == key && c.amount == e && IsDestination(c.kind))
      && a == SumOfMatches(input.matches, (m: Match) => m.componentKey == key) && e != a
    case TransactionOverallocated(txn, capacity, drawn) =>
      && (exists m :: m in input.matches && m.transactionId == txn)
      && txn in input.transactionAmounts && capacity == input.transactionAmounts[txn]
      && drawn == SumOfMatches(input.matches, (m: Match) => m.transactionId == txn) && drawn > capacity
  }

  lemma {:induction false} KindTotalByKind(components: seq<Component>, kinds: set<Kind>, weight: Kind -> int)
    requires forall kind :: weight(kind) == if kind in kinds then 1 else 0
    ensures KindTotal(components, kinds) == SumByKind(components, weight)
  {
    if components != [] {
      var init, last := components[..|components| - 1], components[|components| - 1];
      KindTotalByKind(init, kinds, weight);
      SumByKindLast(init, last, weight);
      assert components == init + [last];
    }
  }

  lemma {:induction false} SumByKindLast(init: seq<Component>, last: Component, weight: Kind -> int)
    ensures SumByKind(init + [last], weight) == SumByKind(init, weight) + weight(last.kind) * last.amount
  {
    if init == [] {
      assert [last][1..] == [];
    } else {
      SumByKindLast(init[1..], last, weight);
      assert (init + [last])[1..] == init[1..] + [last];
    }
  }

  lemma {:induction false} NetByKind(components: seq<Component>)
    ensures ComputedNet(components) == SumByKind(components, NetWeight)
  {
    if components != [] {
      var init, last := components[..|components| - 1], components[|components| - 1];
      NetByKind(init);
      SumByKindLast(init, last, NetWeight);
      assert components == init + [last];
    }
  }

  lemma {:induction false} SumOfMatchesLast(init: seq<Match>, last: Match, counts: Match -> bool)
    ensures SumOfMatches(init + [last], counts) == SumOfMatches(init, counts) + if counts(last) then last.amount else 0
  {
    if init == [] {
      assert [last][1..] == [];
    } else {
      SumOfMatchesLast(init[1..], last, counts);
      assert (init + [last])[1..] == init[1..] + [last];
    }
  }

  lemma {:induction false} AllocatedIsSum(matches: seq<Match>, id: string)
    ensures AllocatedTo(matches, id) == SumOfMatches(matches, (m: Match) => m.componentKey == id)
    ensures AllocatedFrom(matches, id) == SumOfMatches(matches, (m: Match) => m.transactionId == id)
  {
    if matches != [] {
      var init, last := matches[..|matches| - 1], matches[|matches| - 1];
      AllocatedIsSum(init, id);
      SumOfMatchesLast(init, last, (m: Match) => m.componentKey == id);
      SumOfMatchesLast(init, last, (m: Match) => m.transactionId == id);
      assert matches == init + [last];
    }
  }

  lemma DestinationsByKind(components: seq<Component>)
    ensures forall kind :: kind in DESTINATIONS <==> IsDestination(kind)
    ensures forall key, amount :: DestinationOf(components, key, amount) <==>
      exists c :: c in components && c.key == key && c.amount == amount && IsDestination(c.kind)
  {
  }

  lemma ViolationsByKind(input: PaycheckInput)
    ensures forall v :: IsViolation(input, v) <==> Breaks(input, v)
    ensures KindTotal(input.components, GROSS) == SumByKind(input.components, PayWeight)
    ensures ComputedNet(input.components) == SumByKind(input.components, NetWeight)
    ensures KindTotal(input.components, {DirectDeposit}) == SumByKind(input.components, DepositWeight)
  {
    hide KindTotal, ComputedNet, SumByKind, AllocatedTo, AllocatedFrom, SumOfMatches, DestinationOf, MatchesFrom;
    KindTotalByKind(input.components, GROSS, PayWeight);
    KindTotalByKind(input.components, {DirectDeposit}, DepositWeight);
    NetByKind(input.components);
    DestinationsByKind(input.components);
    forall t ensures MatchesFrom(input.matches, t) <==> exists m :: m in input.matches && m.transactionId == t {
      MatchesFromSome(input.matches, t);
    }
    forall id
      ensures AllocatedTo(input.matches, id) == SumOfMatches(input.matches, (m: Match) => m.componentKey == id)
      ensures AllocatedFrom(input.matches, id) == SumOfMatches(input.matches, (m: Match) => m.transactionId == id)
    {
      AllocatedIsSum(input.matches, id);
    }
  }

  lemma MatchesFromSome(matches: seq<Match>, t: string)
    ensures MatchesFrom(matches, t) <==> exists m :: m in matches && m.transactionId == t
  {
    if MatchesFrom(matches, t) {
      var i :| 0 <= i < |matches| && matches[i].transactionId == t;
      assert matches[i] in matches;
    }
  }

  // The place of a key among the components.
  function PlaceOf(components: seq<Component>, key: string): (i: nat)
    ensures i <= |components| && (i < |components| ==> components[i].key == key)
    ensures forall k :: 0 <= k < i ==> components[k].key != key
  {
    if components == [] || components[0].key == key then 0 else 1 + PlaceOf(components[1..], key)
  }

  // Totals come first, then destinations in component order, then transactions.
  function Rank(components: seq<Component>, v: Violation): nat {
    match v
    case GrossMismatch(_, _) => 0
    case NetMismatch(_, _) => 1
    case DirectDepositMismatch(_, _) => 2
    case DestinationMismatch(key, _, _) => 3 + PlaceOf(components, key)
    case TransactionOverallocated(_, _, _) => 4 + |components|
  }

  // The text an entry of the transaction tally is sorted by.
  function EntryText(transactionId: string, drawn: int): string {
    transactionId + "," + MoneyText.IntText(drawn)
  }

  predicate Earlier(components: seq<Component>, textLe: (string, string) -> bool, a: Violation, b: Violation) {
    || Rank(components, a) < Rank(components, b)
    || (a.TransactionOverallocated? && b.TransactionOverallocated? && a.transactionId != b.transactionId
        && textLe(EntryText(a.transactionId, a.drawn), EntryText(b.transactionId, b.drawn)))
  }

  /** Violations in the order of the report, none twice. */
  ghost predicate Listed(components: seq<Component>, textLe: (string, string) -> bool, violations: seq<Violation>) {
    forall i, j :: 0 <= i < j < |violations| ==> Earlier(components, textLe, violations[i], violations[j])
  }

  /** The text of an entry tells its transaction: the last comma ends it. */
  lemma EntryTextSeparates(a: string, x: int, b: string, y: int)
    requires EntryText(a, x) == EntryText(b, y)
    ensures a == b
  {
    LastComma(a, x);
    LastComma(b, y);
  }

  lemma LastComma(a: string, x: int)
    ensures var text := EntryText(a, x);
      && |a| < |text| && text[|a|] == ',' && text[..|a|] == a
      && forall k :: |a| < k < |text| ==> text[k] != ','
  {
    NoComma(x);
    var text := EntryText(a, x);
    assert forall k :: |a| < k < |text| ==> text[k] == MoneyText.IntText(x)[k - |a| - 1];
  }

  lemma NoComma(x: int)
    ensures forall i :: 0 <= i < |MoneyText.IntText(x)| ==> MoneyText.IntText(x)[i] != ','
  {
  }

  lemma EarlierIsStrict(components: seq<Component>, textLe: (string, string) -> bool, a: Violation, b: Violation)
    requires TotalOrder(textLe) && Earlier(components, textLe, a, b)
    ensures !Earlier(components, textLe, b, a) && a != b
  {
    hide PlaceOf, EntryText;
    if Earlier(components, textLe, b, a) {
      assert EntryText(a.transactionId, a.drawn) == EntryText(b.transactionId, b.drawn);
      EntryTextSeparates(a.transactionId, a.drawn, b.transactionId, b.drawn);
    }
  }

  /** The same violations have one list. */
  lemma {:induction false} ListIsDetermined(components: seq<Component>, textLe: (string, string) -> bool,
                                            a: seq<Violation>, b: seq<Violation>)
    requires TotalOrder(textLe) && Listed(components, textLe, a) && Listed(components, textLe, b)
    requires forall v :: v in a <==> v in b
    ensures a == b
    decreases |a|
  {
    hide Earlier, TotalOrder;
    assert forall k :: 0 <= k < |a| ==> a[k] in b;
    assert forall k :: 0 <= k < |b| ==> b[k] in a;
    if a != [] && b != [] {
      HeadIsFirst(components, textLe, a, b[0]);
      HeadIsFirst(components, textLe, b, a[0]);
      if Earlier(components, textLe, a[0], b[0]) {
        EarlierIsStrict(components, textLe, a[0], b[0]);
      }
      assert a[0] == b[0];
      NotAmongRest(components, textLe, a);
      NotAmongRest(components, textLe, b);
      assert a == [a[0]] + a[1..] && b == [b[0]] + b[1..];
      ListIsDetermined(components, textLe, a[1..], b[1..]);
    }
  }

  lemma HeadIsFirst(components: seq<Component>, textLe: (string, string) -> bool, a: seq<Violation>, v: Violation)
    requires Listed(components, textLe, a) && v in a
    ensures v == a[0] || Earlier(components, textLe, a[0], v)
  {
    hide Earlier;
  }

  lemma NotAmongRest(components: seq<Component>, textLe: (string, string) -> bool, a: seq<Violation>)
    requires TotalOrder(textLe) && a != [] && Listed(components, textLe, a)
    ensures Listed(components, textLe, a[1..])
    ensures forall v :: v in a[1..] <==> v in a && v != a[0]
  {
    hide Earlier, TotalOrder;
    assert a == [a[0]] + a[1..];
    forall k | 1 <= k < |a| ensures a[k] != a[0] {
      EarlierIsStrict(components, textLe, a[0], a[k]);
    }
  }

  method ReconcilePaycheck(input: PaycheckInput, textLe: (string, string) -> bool)
    returns (r: Result<Report, RangeError>)
    requires TotalOrder(textLe)
    ensures r.Ok? <==> WellFormed(input)
    ensures r.Ok? ==> forall v :: v in r.value.violations <==> IsViolation(input, v)
    ensures r.Ok? ==> Listed(input.components, textLe, r.value.violations)
    ensures r.Ok? ==> (r.value.ok <==> forall v :: !IsViolation(input, v))
    ensures r.Ok? ==>
      && r.value.grossComponents == KindTotal(input.components, GROSS)
      && r.value.computedNet == ComputedNet(input.components)
      && r.value.directDeposits == KindTotal(input.components, {DirectDeposit})
      && r.value.matchedDestinations == MatchTotal(input.matches)
    ensures r.Ok? ==>
      && (forall v :: v in r.value.violations <==> Breaks(input, v))
      && r.value.grossComponents == SumByKind(input.components, PayWeight)
      && r.value.computedNet == SumByKind(input.components, NetWeight)
      && r.value.directDeposits == SumByKind(input.components, DepositWeight)
  {
    ViolationsByKind(input);
    hide Breaks, SumByKind, IsViolation;
    hide Listed, KindTotal, MatchTotal, ComputedNet, AllocatedTo, AllocatedFrom, TalliesTo, TalliesFrom, DestinationOf,
      KeyOf;
    if input.gross < 0 || input.net < 0 {
      return Err(NotCanonical);
    }
    var components :- CollectComponents(input.components);
    var byComponent, byTransaction, matchedTotal;
    var problem: Option<RangeError>;
    problem, byComponent, byTransaction, matchedTotal := AllocateMatches(input, components);
    if problem.Some? {
      return Err(problem.value);
    }
    var totals := TotalViolations(input, textLe);
    var destinations := DestinationViolations(input, byComponent, textLe);
    var overdrawn := OverallocatedTransactions(input, byTransaction, textLe);
    if overdrawn.Err? {
      NoEvidence(input, byTransaction);
      return Err(overdrawn.error);
    }
    AllEvidence(input, byTransaction);
    var violations := totals + destinations + overdrawn.value;
    ListedInParts(input, textLe, totals, destinations, overdrawn.value);
    assert violations == [] <==> forall v :: v !in violations by {
      if violations != [] {
        assert violations[0] in violations;
      }
    }
    return Ok(Report(violations == [], KindTotal(input.components, GROSS), ComputedNet(input.components),
      KindTotal(input.components, {DirectDeposit}), matchedTotal, violations));
  }

  lemma NoEvidence(input: PaycheckInput, byTransaction: map<string, int>)
    requires TalliesFrom(byTransaction, input.matches)
    requires exists t :: t in byTransaction && !(t in input.transactionAmounts && input.transactionAmounts[t] >= 0)
    ensures exists i :: 0 <= i < |input.matches| && !WellFormedMatch(input, input.matches[i])
  {
    var t :| t in byTransaction && !(t in input.transactionAmounts && input.transactionAmounts[t] >= 0);
    var i :| 0 <= i < |input.matches| && input.matches[i].transactionId == t;
    assert !WellFormedMatch(input, input.matches[i]);
  }

  lemma AllEvidence(input: PaycheckInput, byTransaction: map<string, int>)
    requires TalliesFrom(byTransaction, input.matches)
    requires forall t :: t in byTransaction ==> t in input.transactionAmounts && input.transactionAmounts[t] >= 0
    requires forall i :: 0 <= i < |input.matches| ==> NamesComponent(input.components, input.matches[i])
    ensures forall i :: 0 <= i < |input.matches| ==> WellFormedMatch(input, input.matches[i])
  {
    forall i | 0 <= i < |input.matches| ensures WellFormedMatch(input, input.matches[i]) {
      assert MatchesFrom(input.matches, input.matches[i].transactionId);
    }
  }

  method CollectComponents(components: seq<Component>) returns (r: Result<map<string, Component>, RangeError>)
    ensures r.Ok? <==> DistinctKeys(components) && forall i :: 0 <= i < |components| ==> components[i].amount >= 0
    ensures r.Ok? ==> forall key :: key in r.value <==> KeyOf(components, key)
  {
    var byKey: map<string, Component> := map[];
    for i := 0 to |components|
      invariant forall k :: 0 <= k < i ==> components[k].key != "" && components[k].amount >= 0
      invariant forall j, k :: 0 <= j < k < i ==> components[j].key != components[k].key
      invariant forall key :: key in byKey <==> exists k :: 0 <= k < i && components[k].key == key
    {
      var component := components[i];
      if component.key == "" || component.key in byKey {
        return Err(DuplicateOrEmptyKey);
      }
      if component.amount < 0 {
        return Err(NotCanonical);
      }
      byKey := byKey[component.key := component];
    }
    return Ok(byKey);
  }

  ghost predicate TalliesTo(m: map<string, int>, matches: seq<Match>) {
    forall key :: AllocatedTo(matches, key) == if key in m then m[key] else 0
  }

  ghost predicate TalliesFrom(m: map<string, int>, matches: seq<Match>) {
    && (forall t :: t in m <==> MatchesFrom(matches, t))
    && (forall t :: AllocatedFrom(matches, t) == if t in m then m[t] else 0)
  }

  // Adding an amount under a key that may not be there yet.
  function Added(m: map<string, int>, key: string, amount: int): map<string, int> {
    m[key := (if key in m then m[key] else 0) + amount]
  }

  lemma TallyStep(matches: seq<Match>, m: Match, byComponent: map<string, int>, byTransaction: map<string, int>)
    requires TalliesTo(byComponent, matches) && TalliesFrom(byTransaction, matches)
    ensures TalliesTo(Added(byComponent, m.componentKey, m.amount), matches + [m])
    ensures TalliesFrom(Added(byTransaction, m.transactionId, m.amount), matches + [m])
    ensures MatchTotal(matches + [m]) == MatchTotal(matches) + m.amount
  {
    assert (matches + [m])[..|matches|] == matches;
    MatchesFromExtends(matches, m);
  }

  lemma TallyNothing()
    ensures TalliesTo(map[], []) && TalliesFrom(map[], []) && MatchTotal([]) == 0
  {
  }

  method AllocateMatches(input: PaycheckInput, components: map<string, Component>)
    returns (problem: Option<RangeError>, byComponent: map<string, int>, byTransaction: map<string, int>, matched: int)
    requires forall key :: key in components <==> KeyOf(input.components, key)
    ensures problem.None? <==>
      forall i :: 0 <= i < |input.matches| ==> NamesComponent(input.components, input.matches[i])
    ensures problem.None? ==>
      && TalliesTo(byComponent, input.matches) && TalliesFrom(byTransaction, input.matches)
      && matched == MatchTotal(input.matches)
  {
    hide TalliesTo, TalliesFrom, MatchTotal, KeyOf;
    TallyNothing();
    assert input.matches[..0] == [];
    problem, byComponent, byTransaction, matched := None, map[], map[], 0;
    for i := 0 to |input.matches|
      invariant TalliesTo(byComponent, input.matches[..i]) && TalliesFrom(byTransaction, input.matches[..i])
      invariant matched == MatchTotal(input.matches[..i])
      invariant forall k :: 0 <= k < i ==> NamesComponent(input.components, input.matches[k])
    {
      var m := input.matches[i];
      if m.componentKey !in components {
        problem := Some(UnknownComponent);
        return;
      }
      if m.transactionId == "" {
        problem := Some(EmptyTransactionId);
        return;
      }
      if m.amount < 0 {
        problem := Some(NotCanonical);
        return;
      }
      assert input.matches[..i + 1] == input.matches[..i] + [m];
      TallyStep(input.matches[..i], m, byComponent, byTransaction);
      byComponent := Added(byComponent, m.componentKey, m.amount);
      byTransaction := Added(byTransaction, m.transactionId, m.amount);
      matched := matched + m.amount;
    }
    assert input.matches[..|input.matches|] == input.matches;
  }

  method TotalViolations(input: PaycheckInput, textLe: (string, string) -> bool) returns (violations: seq<Violation>)
    ensures forall v :: v in violations <==>
      !v.DestinationMismatch? && !v.TransactionOverallocated? && IsViolation(input, v)
    ensures Listed(input.components, textLe, violations)
  {
    var grossComponents := KindTotal(input.components, GROSS);
    var computedNet := ComputedNet(input.components);
    var directDeposits := KindTotal(input.components, {DirectDeposit});
    violations := [];
    if grossComponents != input.gross {
      violations := violations + [GrossMismatch(input.gross, grossComponents)];
    }
    if computedNet != input.net {
      violations := violations + [NetMismatch(input.net, computedNet)];
    }
    if directDeposits != input.net {
      violations := violations + [DirectDepositMismatch(input.net, directDeposits)];
    }
  }

  /** Mismatches of the first i components only. */
  ghost predicate AllOfFirst(components: seq<Component>, violations: seq<Violation>, i: nat) {
    forall k :: 0 <= k < |violations| ==>
      violations[k].DestinationMismatch? && PlaceOf(components, violations[k].componentKey) < i
  }

  lemma NoneListed(components: seq<Component>, textLe: (string, string) -> bool)
    ensures Listed(components, textLe, []) && AllOfFirst(components, [], 0)
    ensures forall key, amount :: !DestinationOf(components[..0], key, amount)
  {
  }

  lemma ListDestination(components: seq<Component>, textLe: (string, string) -> bool, violations: seq<Violation>,
                        i: nat, actual: int)
    requires DistinctKeys(components) && i < |components|
    requires Listed(components, textLe, violations) && AllOfFirst(components, violations, i)
    ensures AllOfFirst(components, violations, i + 1)
    ensures var grown := violations + [DestinationMismatch(components[i].key, components[i].amount, actual)];
      Listed(components, textLe, grown) && AllOfFirst(components, grown, i + 1)
  {
    assert PlaceOf(components, components[i].key) == i;
  }

  method DestinationViolations(input: PaycheckInput, byComponent: map<string, int>, textLe: (string, string) -> bool)
    returns (violations: seq<Violation>)
    requires TalliesTo(byComponent, input.matches) && DistinctKeys(input.components)
    ensures forall v :: v in violations <==> v.DestinationMismatch? && IsViolation(input, v)
    ensures Listed(input.components, textLe, violations)
  {
    hide Listed, AllOfFirst, DistinctKeys, DestinationOf, AllocatedTo;
    violations := [];
    NoneListed(input.components, textLe);
    for i := 0 to |input.components|
      invariant forall v: Violation :: v in violations <==>
        && v.DestinationMismatch?
        && v.actual == AllocatedTo(input.matches, v.componentKey) && v.expected != v.actual
        && DestinationOf(input.components[..i], v.componentKey, v.expected)
      invariant Listed(input.components, textLe, violations) && AllOfFirst(input.components, violations, i)
    {
      var component := input.components[i];
      DestinationOfExtends(input.components[..i], component);
      ListDestination(input.components, textLe, violations, i, AllocatedTo(input.matches, component.key));
      assert input.components[..i + 1] == input.components[..i] + [component];
      if component.kind in DESTINATIONS {
        var actual := if component.key in byComponent then byComponent[component.key] else 0;
        assert actual == AllocatedTo(input.matches, component.key);
        if actual != component.amount {
          violations := violations + [DestinationMismatch(component.key, component.amount, actual)];
        }
      }
    }
    assert input.components[..|input.components|] == input.components;
  }

  function EntryOf(byTransaction: map<string, int>, t: string): string {
    EntryText(t, if t in byTransaction then byTransaction[t] else 0)
  }

  function EntryOrder(byTransaction: map<string, int>, textLe: (string, string) -> bool): (string, string) -> bool {
    (a, b) => textLe(EntryOf(byTransaction, a), EntryOf(byTransaction, b))
  }

  lemma EntryOrderIsPreorder(byTransaction: map<string, int>, textLe: (string, string) -> bool)
    requires TotalOrder(textLe)
    ensures TotalPreorder(EntryOrder(byTransaction, textLe))
  {
    hide EntryOf;
    var order := EntryOrder(byTransaction, textLe);
    forall a, b ensures order(a, b) || order(b, a) {
      assert textLe(EntryOf(byTransaction, a), EntryOf(byTransaction, b))
          || textLe(EntryOf(byTransaction, b), EntryOf(byTransaction, a));
    }
    forall a, b, c | order(a, b) && order(b, c) ensures order(a, c) {
      OrderChains(textLe, EntryOf(byTransaction, a), EntryOf(byTransaction, b), EntryOf(byTransaction, c));
    }
  }

  lemma OrderChains(textLe: (string, string) -> bool, a: string, b: string, c: string)
    requires TotalOrder(textLe) && textLe(a, b) && textLe(b, c)
    ensures textLe(a, c)
  {
  }

  /** The entries of the tally, sorted by their text. */
  method SortedEntries(byTransaction: map<string, int>, textLe: (string, string) -> bool) returns (ids: seq<string>)
    requires TotalOrder(textLe)
    ensures Distinct(ids) && SortedBy(ids, EntryOrder(byTransaction, textLe))
    ensures forall t :: t in ids <==> t in byTransaction
  {
    hide EntryOf, EntryOrder, TotalOrder, TotalPreorder, SortedBy;
    var todo, all := byTransaction.Keys, [];
    while todo != {}
      invariant todo <= byTransaction.Keys && Distinct(all)
      invariant forall t :: t in all <==> t in byTransaction && t !in todo
    {
      var t :| t in todo;
      all := all + [t];
      todo := todo - {t};
    }
    var order := EntryOrder(byTransaction, textLe);
    EntryOrderIsPreorder(byTransaction, textLe);
    SameElements(all, order);
    SortDistinct(all, order);
    SortSorts(all, order);
    return Sort(all, order);
  }

  ghost predicate OverdrawnAmong(input: PaycheckInput, textLe: (string, string) -> bool, ids: seq<string>, n: nat,
                                 violations: seq<Violation>)
    requires n <= |ids|
  {
    && Listed(input.components, textLe, violations)
    && forall v :: v in violations <==>
      v.TransactionOverallocated? && IsViolation(input, v) && v.transactionId in ids[..n]
  }

  method OverallocatedTransactions(input: PaycheckInput, byTransaction: map<string, int>,
                                   textLe: (string, string) -> bool)
    returns (r: Result<seq<Violation>, RangeError>)
    requires TalliesFrom(byTransaction, input.matches) && TotalOrder(textLe)
    ensures r.Ok? <==> forall t :: t in byTransaction ==>
      t in input.transactionAmounts && input.transactionAmounts[t] >= 0
    ensures r.Ok? ==> forall v :: v in r.value <==> v.TransactionOverallocated? && IsViolation(input, v)
    ensures r.Ok? ==> Listed(input.components, textLe, r.value)
  {
    hide OverdrawnAmong, IsViolation, TalliesFrom, TotalOrder, Listed;
    var ids := SortedEntries(byTransaction, textLe);
    var violations: seq<Violation> := [];
    NoneOverdrawn(input, textLe, ids);
    for n := 0 to |ids|
      invariant forall k :: 0 <= k < n ==> ids[k] in input.transactionAmounts && input.transactionAmounts[ids[k]] >= 0
      invariant OverdrawnAmong(input, textLe, ids, n, violations)
    {
      var t := ids[n];
      assert t in ids;
      if t !in input.transactionAmounts {
        return Err(NoCapacityEvidence);
      }
      var capacity := input.transactionAmounts[t];
      if capacity < 0 {
        return Err(NotCanonical);
      }
      OneOverdrawn(input, byTransaction, textLe, ids, n, violations);
      if byTransaction[t] > capacity {
        violations := violations + [TransactionOverallocated(t, capacity, byTransaction[t])];
      }
    }
    AllOverdrawn(input, byTransaction, textLe, ids, violations);
    return Ok(violations);
  }

  lemma NoneOverdrawn(input: PaycheckInput, textLe: (string, string) -> bool, ids: seq<string>)
    ensures OverdrawnAmong(input, textLe, ids, 0, [])
  {
  }

  lemma OverdrawnIs(input: PaycheckInput, byTransaction: map<string, int>, t: string)
    requires TalliesFrom(byTransaction, input.matches) && t in byTransaction && t in input.transactionAmounts
    ensures forall v: Violation :: v.TransactionOverallocated? && IsViolation(input, v) && v.transactionId == t <==>
      && byTransaction[t] > input.transactionAmounts[t]
      && v == TransactionOverallocated(t, input.transactionAmounts[t], byTransaction[t])
  {
  }

  lemma OneOverdrawn(input: PaycheckInput, byTransaction: map<string, int>, textLe: (string, string) -> bool,
                     ids: seq<string>, n: nat, violations: seq<Violation>)
    requires TalliesFrom(byTransaction, input.matches) && Distinct(ids) && n < |ids| && ids[n] in byTransaction
    requires SortedBy(ids, EntryOrder(byTransaction, textLe)) && forall t :: t in ids <==> t in byTransaction
    requires OverdrawnAmong(input, textLe, ids, n, violations) && ids[n] in input.transactionAmounts
    ensures var t, capacity := ids[n], input.transactionAmounts[ids[n]];
      OverdrawnAmong(input, textLe, ids, n + 1,
        if byTransaction[t] > capacity
        then violations + [TransactionOverallocated(t, capacity, byTransaction[t])]
        else violations)
  {
    hide IsViolation, TalliesFrom, Earlier, EntryOrder;
    var t, capacity := ids[n], input.transactionAmounts[ids[n]];
    var drawn := TransactionOverallocated(t, capacity, byTransaction[t]);
    OverdrawnIs(input, byTransaction, t);
    assert ids[..n + 1] == ids[..n] + [t];
    forall k | 0 <= k < |violations| ensures Earlier(input.components, textLe, violations[k], drawn) {
      assert violations[k] in violations;
      var m :| 0 <= m < n && ids[m] == violations[k].transactionId;
      EntriesInOrder(input, byTransaction, textLe, violations[k], drawn, ids, m, n);
    }
  }

  lemma EntriesInOrder(input: PaycheckInput, byTransaction: map<string, int>, textLe: (string, string) -> bool,
                       a: Violation, b: Violation, ids: seq<string>, m: nat, n: nat)
    requires TalliesFrom(byTransaction, input.matches) && Distinct(ids)
    requires SortedBy(ids, EntryOrder(byTransaction, textLe))
    requires m < n < |ids| && a.TransactionOverallocated? && IsViolation(input, a) && a.transactionId == ids[m]
    requires b.TransactionOverallocated? && b.transactionId == ids[n] && ids[n] in byTransaction
    requires b.drawn == byTransaction[ids[n]]
    ensures Earlier(input.components, textLe, a, b)
  {
    hide PlaceOf, EntryText;
    assert EntryOrder(byTransaction, textLe)(ids[m], ids[n]);
    assert ids[m] in byTransaction && a.drawn == byTransaction[ids[m]];
    assert EntryOf(byTransaction, ids[m]) == EntryText(ids[m], a.drawn);
    assert EntryOf(byTransaction, ids[n]) == EntryText(ids[n], b.drawn);
    assert ids[m] != ids[n];
  }

  lemma AllOverdrawn(input: PaycheckInput, byTransaction: map<string, int>, textLe: (string, string) -> bool,
                     ids: seq<string>, violations: seq<Violation>)
    requires TalliesFrom(byTransaction, input.matches) && (forall t :: t in ids <==> t in byTransaction)
    requires OverdrawnAmong(input, textLe, ids, |ids|, violations)
    ensures forall v :: v in violations <==> v.TransactionOverallocated? && IsViolation(input, v)
    ensures Listed(input.components, textLe, violations)
  {
    assert ids[..|ids|] == ids;
  }

  lemma ListedInParts(input: PaycheckInput, textLe: (string, string) -> bool, totals: seq<Violation>,
                      destinations: seq<Violation>, overdrawn: seq<Violation>)
    requires Listed(input.components, textLe, totals) && Listed(input.components, textLe, destinations)
    requires Listed(input.components, textLe, overdrawn)
    requires forall v :: v in totals ==> !v.DestinationMismatch? && !v.TransactionOverallocated?
    requires forall v :: v in destinations ==> v.DestinationMismatch?
    requires forall v :: v in overdrawn ==> v.TransactionOverallocated?
    ensures Listed(input.components, textLe, totals + destinations + overdrawn)
  {
    hide PlaceOf;
    var all := totals + destinations + overdrawn;
    forall i, j | 0 <= i < j < |all| ensures Earlier(input.components, textLe, all[i], all[j]) {
      assert i < |totals| ==> all[i] == totals[i] && all[i] in totals;
      assert |totals| <= i < |totals| + |destinations| ==>
        all[i] == destinations[i - |totals|] && all[i] in destinations;
      assert |totals| + |destinations| <= i ==> all[i] in overdrawn;
      assert j < |totals| ==> all[j] == totals[j];
      assert |totals| <= j < |totals| + |destinations| ==>
        all[j] == destinations[j - |totals|] && all[j] in destinations;
      assert |totals| + |destinations| <= j ==> all[j] in overdrawn;
    }
  }

  lemma MatchesFromExtends(matches: seq<Match>, m: Match)
    ensures forall t :: MatchesFrom(matches + [m], t) <==> MatchesFrom(matches, t) || m.transactionId == t
  {
    forall t ensures MatchesFrom(matches + [m], t) <==> MatchesFrom(matches, t) || m.transactionId == t {
      assert (matches + [m])[|matches|] == m;
      if MatchesFrom(matches, t) {
        var i :| 0 <= i < |matches| && matches[i].transactionId == t;
        assert (matches + [m])[i] == matches[i];
      }
    }
  }

  lemma DestinationOfExtends(components: seq<Component>, c: Component)
    ensures forall key, amount :: DestinationOf(components + [c], key, amount) <==>
      DestinationOf(components, key, amount)
      || (c.key == key && c.amount == amount && c.kind in DESTINATIONS)
  {
    forall key, amount
      ensures DestinationOf(components + [c], key, amount) <==>
        DestinationOf(components, key, amount)
        || (c.key == key && c.amount == amount && c.kind in DESTINATIONS)
    {
      assert (components + [c])[|components|] == c;
      if DestinationOf(components, key, amount) {
        var i :| 0 <= i < |components| && components[i].key == key
          && components[i].amount == amount && components[i].kind in DESTINATIONS;
        assert (components + [c])[i] == components[i];
      }
    }
  }
}

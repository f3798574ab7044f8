/** applyPaycheckTemplate: the emitted paycheck and why the independent checker accepts it. */
module PaycheckApply {
  import opened Wrappers
  import opened Sorting
  import opened PaycheckReconciliation
  import opened PaycheckTemplate
  import opened PaycheckGross

  datatype Failure = Rejected(rejection: Rejection) | Thrown(error: RangeError)

  datatype Applied = Applied(gross: int, net: int, paycheck: PaycheckInput)

  // The emitted lines, in order, and the component each becomes.

  function Emitted(lines: seq<Line>, p: Partitioned): seq<Line> {
    [p.earning] + Where(lines, IsReimbursement) + p.fixedLines + p.percentLines + [p.remainder]
  }

  function ComponentFor(l: Line, gross: int, net: int): Component {
    if IsEarning(l) then Component(l.lineKey, l.kind, gross)
    else if TakesRemainder(l) then Component(l.lineKey, DirectDeposit, net)
    else if IsPercent(l) then Component(l.lineKey, l.kind, HalfUp(gross, Bps(l)))
    else Component(l.lineKey, l.kind, Amount(l))
  }

  function Components(lines: seq<Line>, gross: int, net: int): (components: seq<Component>)
    ensures |components| == |lines|
    ensures forall i :: 0 <= i < |lines| ==> components[i] == ComponentFor(lines[i], gross, net)
  {
    seq(|lines|, i requires 0 <= i < |lines| => ComponentFor(lines[i], gross, net))
  }

  function TxnOf(txnIds: map<string, string>, key: string): string {
    if key in txnIds then txnIds[key] else "tpl:" + key
  }

  function MatchesFor(components: seq<Component>, txnIds: map<string, string>): seq<Match> {
    if components == [] then []
    else
      var c := components[|components| - 1];
      MatchesFor(components[..|components| - 1], txnIds)
      + if c.kind in DESTINATIONS then [Match(TxnOf(txnIds, c.key), c.key, c.amount)] else []
  }

  // What the template has to promise beyond the rules partition checks.

  ghost predicate UniqueKeys(lines: seq<Line>) {
    && (forall i :: 0 <= i < |lines| ==> lines[i].lineKey != "")
    && (forall i, j :: 0 <= i < j < |lines| ==> lines[i].lineKey != lines[j].lineKey)
  }

  // The kind of the component a line becomes.
  function EmittedKind(l: Line): Kind {
    if TakesRemainder(l) then DirectDeposit else l.kind
  }

  /** No line that is paid out somewhere has the empty transaction id. */
  ghost predicate NamedDestinations(lines: seq<Line>, txnIds: map<string, string>) {
    forall l :: l in lines && EmittedKind(l) in DESTINATIONS ==> TxnOf(txnIds, l.lineKey) != ""
  }

  ghost predicate Keyed(lines: seq<Line>, txnIds: map<string, string>) {
    UniqueKeys(lines) && NamedDestinations(lines, txnIds)
  }

  /** Every role carries a kind the checker counts the same way. */
  ghost predicate CoherentKinds(lines: seq<Line>) {
    forall l :: l in lines ==>
      && (IsEarning(l) ==> l.kind in GROSS)
      && (IsDeduction(l) ==> l.kind in DEDUCTIONS)
  }

  /** Deduction lines outside the deduction kinds that still carry money. */
  ghost predicate NoStrayDeduction(lines: seq<Line>, gross: int) {
    forall l :: l in lines && IsDeduction(l) && l.kind !in DEDUCTIONS ==> ComponentFor(l, gross, 0).amount == 0
  }

  /** Deduction lines outside the deduction and the gross kinds carry no money. */
  ghost predicate OnlyGrossStrays(lines: seq<Line>, gross: int) {
    forall l :: l in lines && IsDeduction(l) && l.kind !in DEDUCTIONS && l.kind !in GROSS ==>
      ComponentFor(l, gross, 0).amount == 0
  }

  /** What the deduction lines of gross kinds carry. */
  function StrayGross(p: Partitioned, gross: int): int {
    KindTotal(Components(p.fixedLines + p.percentLines, gross, 0), GROSS)
  }

  /**
   * The kinds agree with the roles as far as the checker can tell: with a gross earning, no deduction line
   * counts as anything else. An earning that counts as a deduction has to be made up for, to the unit, by
   * deduction lines that count as gross; any other earning must be nothing.
   */
  ghost predicate CrossCheckHolds(lines: seq<Line>, gross: int)
    requires |Where(lines, IsEarning)| == 1 && |Where(lines, TakesRemainder)| == 1
  {
    var p := PartitionFor(lines);
    if p.earning.kind in GROSS then NoStrayDeduction(lines, gross)
    else if p.earning.kind in DEDUCTIONS then OnlyGrossStrays(lines, gross) && StrayGross(p, gross) == gross
    else gross == 0 && NoStrayDeduction(lines, gross)
  }

  /** The gross selected for a net: the template has the right shape and no guard fires. */
  ghost predicate Selected(lines: seq<Line>, net: int, gross: int) {
    && net >= 0 && ShapedLines(lines) && WithinInt64(lines) && BpsTotal(lines) < BPS_DENOMINATOR
    && SeedBase(net, PartitionFor(lines)) >= 0
    && IsLeastGross(gross, net, PartitionFor(lines)) && FitsInt64(gross, net, PartitionFor(lines))
  }

  ghost predicate Selectable(lines: seq<Line>, net: int) {
    exists gross :: Selected(lines, net, gross)
  }

  ghost predicate Accepted(lines: seq<Line>, net: int) {
    exists gross :: Selected(lines, net, gross) && CrossCheckHolds(lines, gross)
  }

  ghost predicate Contradicted(lines: seq<Line>, net: int) {
    exists gross :: Selected(lines, net, gross) && !CrossCheckHolds(lines, gross)
  }

  ghost predicate EmittedPaycheck(a: Applied, lines: seq<Line>, txnIds: map<string, string>)
    requires |Where(lines, IsEarning)| == 1 && |Where(lines, TakesRemainder)| == 1
  {
    && a.paycheck.gross == a.gross && a.paycheck.net == a.net
    && a.paycheck.components == Components(Emitted(lines, PartitionFor(lines)), a.gross, a.net)
    && a.paycheck.matches == MatchesFor(a.paycheck.components, txnIds)
    && TalliesFrom(a.paycheck.transactionAmounts, a.paycheck.matches)
  }

  // The paycheck told line by line, without the classes.

  /** The component of a line: gross, the net, the fixed amount, or the percentage of gross rounded half up. */
  ghost predicate PaysLine(l: Line, c: Component, gross: int, net: int) {
    && c.key == l.lineKey
    && if l.role == Earning then c.kind == l.kind && c.amount == gross
       else if l.role == NetDeposit && l.amountKind == Remainder then c.kind == DirectDeposit && c.amount == net
       else
         && c.kind == l.kind
         && (l.amountKind == FixedMinor ==> l.amountMinor == Some(c.amount))
         && (l.amountKind == PercentOfGrossBps ==>
              l.bps.Some? && gross * l.bps.value - 5_000 < 10_000 * c.amount <= gross * l.bps.value + 5_000)
  }

  /** A match pays a component in full, from its named transaction or a synthetic one. */
  ghost predicate MatchesComponent(m: Match, c: Component, txnIds: map<string, string>) {
    && m.componentKey == c.key && m.amount == c.amount
    && (c.key in txnIds ==> m.transactionId == txnIds[c.key])
    && (c.key !in txnIds ==> m.transactionId == ['t', 'p', 'l', ':'] + c.key)
  }

  /** One component for each line. */
  ghost predicate PaysEachLine(lines: seq<Line>, components: seq<Component>, gross: int, net: int) {
    && |components| == |lines|
    && (forall l :: l in lines ==> exists c :: c in components && PaysLine(l, c, gross, net))
    && (forall c :: c in components ==> exists l :: l in lines && PaysLine(l, c, gross, net))
  }

  ghost predicate PaysSome(m: Match, components: seq<Component>, txnIds: map<string, string>) {
    exists c :: c in components && IsDestination(c.kind) && MatchesComponent(m, c, txnIds)
  }

  ghost predicate PaidBySome(c: Component, matches: seq<Match>, txnIds: map<string, string>) {
    exists m :: m in matches && MatchesComponent(m, c, txnIds)
  }

  /** One match for each component that is paid out somewhere. */
  ghost predicate MatchesEach(components: seq<Component>, txnIds: map<string, string>, matches: seq<Match>) {
    && (forall m :: m in matches ==> PaysSome(m, components, txnIds))
    && (forall c :: c in components && IsDestination(c.kind) ==> PaidBySome(c, matches, txnIds))
    && (forall i, j :: 0 <= i < j < |matches| ==> matches[i].componentKey != matches[j].componentKey)
  }

  ghost predicate PaysOut(lines: seq<Line>, txnIds: map<string, string>, a: Applied) {
    && PaysEachLine(lines, a.paycheck.components, a.gross, a.net)
    && MatchesEach(a.paycheck.components, txnIds, a.paycheck.matches)
  }

  /** Line keys are distinct and not empty, and no named transaction of a destination is the empty id. */
  ghost predicate DistinctNamed(lines: seq<Line>, txnIds: map<string, string>) {
    && (forall i :: 0 <= i < |lines| ==> lines[i].lineKey != "")
    && (forall i, j :: 0 <= i < j < |lines| ==> lines[i].lineKey != lines[j].lineKey)
    && forall l :: l in lines && l.lineKey in txnIds && txnIds[l.lineKey] == "" ==>
         !IsDestination(l.kind) && !(l.role == NetDeposit && l.amountKind == Remainder)
  }

  /** The earning is pay, and no deduction is pay, an employer match or a deposit. */
  ghost predicate PlainKinds(lines: seq<Line>) {
    forall l :: l in lines ==>
      && (l.role == Earning ==> l.kind == GrossSalary || l.kind == Bonus || l.kind == Commission)
      && (l.role == Tax || l.role == PretaxTransfer || l.role == PosttaxDeduction ==>
           && l.kind != GrossSalary && l.kind != Bonus && l.kind != Commission
           && l.kind != EmployerMatch && l.kind != DirectDeposit)
  }

  /** A proper template whose net is no less than the reimbursements, and amounts of at most ninety billion. */
  ghost predicate SmallTemplate(lines: seq<Line>, net: int) {
    && net >= 0 && Proper(lines) && SumWhere(lines, DeductsPercent, BpsIfAny) < 10_000
    && SumWhere(lines, Reimburses, AmountIfAny) <= net + SumWhere(lines, DeductsFixed, AmountIfAny)
    && net + SumWhere(lines, DeductsFixed, AmountIfAny) + |Keep(lines, DeductsPercent)| <= 90_000_000_000
  }

  method ApplyPaycheckTemplate(lines: seq<Line>, net: int, txnIds: map<string, string>,
                               textLe: (string, string) -> bool) returns (r: Result<Applied, Failure>)
    requires TotalOrder(textLe)
    ensures r == Err(Rejected(DoesNotReconcile(NetNotCanonical))) <==> net < 0
    ensures r != Err(Rejected(DoesNotReconcile(NoIntegerGross)))
    ensures r != Err(Rejected(DoesNotReconcile(NegativeRemainder)))
    ensures r.Ok? ==>
      && ShapedLines(lines)
      && r.value.net == net
      && IsLeastGross(r.value.gross, net, PartitionFor(lines))
      && EmittedPaycheck(r.value, lines, txnIds)
      && WellFormed(r.value.paycheck)
      && forall v :: !IsViolation(r.value.paycheck, v)
    ensures r.Err? && r.error.Thrown? <==> Selectable(lines, net) && !Keyed(lines, txnIds)
    ensures r.Ok? <==> Accepted(lines, net) && Keyed(lines, txnIds)
    ensures r == Err(Rejected(DoesNotReconcile(CrossCheckRejected))) <==>
      Contradicted(lines, net) && Keyed(lines, txnIds)
    ensures CoherentKinds(lines) ==> r != Err(Rejected(DoesNotReconcile(CrossCheckRejected)))
    ensures Keyed(lines, txnIds) && CoherentKinds(lines) && SmallPaycheck(lines, net) ==> r.Ok?
    ensures r.Ok? ==> Proper(lines) && WithinBounds(lines) && PaysOut(lines, txnIds, r.value)
    ensures net >= 0 && !(Proper(lines) && WithinBounds(lines)) ==>
      r.Err? && r.error.Rejected? && Objects(lines, r.error.rejection)
    ensures DistinctNamed(lines, txnIds) && PlainKinds(lines) && SmallTemplate(lines, net) ==> r.Ok?
  {
    ProperIsShaped(lines);
    PlainKindsCohere(lines);
    SmallTemplateIsSmall(lines, net);
    DistinctNamedIsKeyed(lines, txnIds);
    hide Proper, WithinBounds, Objects, PaysOut, PlainKinds, SmallTemplate, DistinctNamed, ShapedLines, BpsTotal;
    hide Selected, CrossCheckHolds, EmittedPaycheck, IsLeastGross, FitsInt64, WellFormed, IsViolation, Keyed,
      CoherentKinds, SmallPaycheck, Where, TotalOrder;
    GrossIsDetermined(lines, net);
    CoherentNeverContradicted(lines, net);
    var selected := SelectFor(lines, net);
    if selected.Err? {
      return Err(Rejected(selected.error));
    }
    var (p, gross) := selected.value;
    SelectedFacts(lines, net, gross);
    var deposit := NetAtGross(gross, p);
    if deposit.value < 0 {
      return Err(Rejected(DoesNotReconcile(NegativeRemainder)));
    }
    var paycheck := EmitPaycheck(lines, p, gross, deposit.value, txnIds);
    ghost var a := Applied(gross, net, paycheck);
    WellFormedExactly(a, lines, txnIds);
    if Keyed(lines, txnIds) {
      CrossCheckExactly(a, lines, txnIds);
      KeysAreDistinct(a.paycheck);
      EmittedPaysOut(a, lines, txnIds);
    }
    var reconciliation := ReconcilePaycheck(paycheck, textLe);
    if reconciliation.Err? {
      return Err(Thrown(reconciliation.error));
    }
    if !reconciliation.value.ok {
      return Err(Rejected(DoesNotReconcile(CrossCheckRejected)));
    }
    return Ok(Applied(gross, deposit.value, paycheck));
  }

  /** Small enough that no int64 guard can fire, and not paid more in reimbursements than in total. */
  ghost predicate SmallPaycheck(lines: seq<Line>, net: int) {
    && net >= 0 && ShapedLines(lines) && BpsTotal(lines) < BPS_DENOMINATOR
    && ReimbursementTotal(lines) <= net + FixedTotal(lines)
    && net + FixedTotal(lines) + |Where(lines, IsPercent)| <= 90_000_000_000
  }

  /** What the template rejects before anything is emitted, and otherwise the gross it selects. */
  method SelectFor(lines: seq<Line>, net: int) returns (r: Result<(Partitioned, int), Rejection>)
    ensures r == Err(DoesNotReconcile(NetNotCanonical)) <==> net < 0
    ensures r.Err? && r.error.DoesNotReconcile? ==> net < 0 && r.error.detail == NetNotCanonical
    ensures r.Ok? ==> Selected(lines, net, r.value.1) && ShapedLines(lines) && r.value.0 == PartitionFor(lines)
    ensures r.Err? ==> forall gross :: !Selected(lines, net, gross)
    ensures net >= 0 && !(Proper(lines) && WithinBounds(lines)) ==> r.Err? && Objects(lines, r.error)
    ensures r.Ok? ==> Proper(lines) && WithinBounds(lines)
  {
    hide Proper, WithinBounds, Objects;
    hide IsLeastGross, GuardsPass, FixedTotal, ReimbursementTotal, BpsTotal, Where;
    if net < 0 {
      return Err(DoesNotReconcile(NetNotCanonical));
    }
    var partitioned := Partition(lines);
    if partitioned.Err? {
      NoRejectionMissed(lines, partitioned.error);
      return Err(partitioned.error);
    }
    PartitionIsValid(lines);
    var gross := SelectGross(net, partitioned.value);
    if gross.Err? {
      return Err(gross.error);
    }
    return Ok((partitioned.value, gross.value));
  }

  lemma NoRejectionMissed(lines: seq<Line>, error: Rejection)
    requires IsRejection(lines, error)
    ensures !error.DoesNotReconcile?
  {
  }

  lemma SelectedFacts(lines: seq<Line>, net: int, gross: int)
    requires Selected(lines, net, gross)
    ensures var p := PartitionFor(lines);
      && ShapedLines(lines) && BpsTotal(lines) < BPS_DENOMINATOR && net >= 0
      && gross >= 0 && Net(gross, p) == net && IsLeastGross(gross, net, p)
      && PercentLines(p.percentLines) && GuardsPass(gross, p.percentLines)
  {
    PartitionIsValid(lines);
  }

  /** No two grosses are selected for one net, so acceptance is the cross-check at the one. */
  lemma GrossIsDetermined(lines: seq<Line>, net: int)
    ensures forall gross :: Selected(lines, net, gross) ==>
      (Accepted(lines, net) <==> CrossCheckHolds(lines, gross))
        && (Contradicted(lines, net) <==> !CrossCheckHolds(lines, gross))
  {
    hide CrossCheckHolds;
    forall gross | Selected(lines, net, gross)
      ensures (Accepted(lines, net) <==> CrossCheckHolds(lines, gross))
      ensures (Contradicted(lines, net) <==> !CrossCheckHolds(lines, gross))
    {
      forall other | Selected(lines, net, other) ensures other == gross {
        LeastIsUnique(gross, net, PartitionFor(lines));
      }
    }
  }

  /** With coherent kinds the cross-check is never contradicted, and small paychecks are accepted. */
  lemma CoherentNeverContradicted(lines: seq<Line>, net: int)
    ensures CoherentKinds(lines) ==> !Contradicted(lines, net)
    ensures CoherentKinds(lines) && SmallPaycheck(lines, net) ==> Accepted(lines, net)
  {
    hide IsLeastGross, FitsInt64, Where;
    if CoherentKinds(lines) {
      forall gross | Selected(lines, net, gross) ensures CrossCheckHolds(lines, gross) {
        CoherentHolds(lines, gross);
      }
      if SmallPaycheck(lines, net) {
        var gross := SmallIsSelected(lines, net);
      }
    }
  }

  lemma CoherentHolds(lines: seq<Line>, gross: int)
    requires ShapedLines(lines) && CoherentKinds(lines)
    ensures CrossCheckHolds(lines, gross)
  {
    InWhere(lines, IsEarning);
    assert PartitionFor(lines).earning in Where(lines, IsEarning);
  }

  lemma SmallIsSelected(lines: seq<Line>, net: int) returns (gross: int)
    requires SmallPaycheck(lines, net)
    ensures Selected(lines, net, gross)
  {
    PartitionIsValid(lines);
    var p := PartitionFor(lines);
    SmallTotals(lines);
    gross := LeastGrossInWindow(net, p);
    SmallPaycheckFits(gross, net, p);
  }

  lemma SmallTotals(lines: seq<Line>)
    requires ShapedLines(lines)
    ensures FixedTotal(lines) >= 0 && ReimbursementTotal(lines) >= 0
  {
    PrefixTotal(lines, |lines|, IsFixed, Amount);
    PrefixTotal(lines, |lines|, IsReimbursement, Amount);
    assert lines[..|lines|] == lines;
  }

  method EmitPaycheck(lines: seq<Line>, p: Partitioned, gross: int, net: int, txnIds: map<string, string>)
    returns (paycheck: PaycheckInput)
    requires ShapedLines(lines) && p == PartitionFor(lines)
    requires gross >= 0 && PercentLines(p.percentLines) && GuardsPass(gross, p.percentLines)
    ensures EmittedPaycheck(Applied(gross, net, paycheck), lines, txnIds)
  {
    var components := EmitComponents(lines, p, gross, net);
    var matches := MatchesFor(components, txnIds);
    var capacity := Capacities(matches);
    return PaycheckInput(gross, net, components, matches, capacity);
  }

  method EmitComponents(lines: seq<Line>, p: Partitioned, gross: int, net: int) returns (components: seq<Component>)
    requires ShapedLines(lines) && p == PartitionFor(lines)
    requires gross >= 0 && PercentLines(p.percentLines) && GuardsPass(gross, p.percentLines)
    ensures components == Components(Emitted(lines, p), gross, net)
  {
    EmittedClasses(lines);
    components := EmitAdditions(lines, p, gross, net);
    var deductions := EmitDeductions(p, gross, net);
    var r := Where(lines, IsReimbursement);
    components := components + deductions + [Component(p.remainder.lineKey, DirectDeposit, net)];
    ComponentsConcat([p.earning] + r, p.fixedLines + p.percentLines, gross, net);
    ComponentsConcat([p.earning] + r + (p.fixedLines + p.percentLines), [p.remainder], gross, net);
    assert Emitted(lines, p) == [p.earning] + r + (p.fixedLines + p.percentLines) + [p.remainder];
  }

  lemma AdditionStep(lines: seq<Line>, i: nat, first: Line, gross: int, net: int)
    requires i < |lines|
    ensures var before := Components([first] + Where(lines[..i], IsReimbursement), gross, net);
      Components([first] + Where(lines[..i + 1], IsReimbursement), gross, net) ==
        if IsReimbursement(lines[i]) then before + [ComponentFor(lines[i], gross, net)] else before
  {
    hide ComponentFor, Where, IsReimbursement;
    WhereExtends(lines, i, IsReimbursement);
    var before := [first] + Where(lines[..i], IsReimbursement);
    if IsReimbursement(lines[i]) {
      assert [first] + (Where(lines[..i], IsReimbursement) + [lines[i]]) == before + [lines[i]];
      ComponentsConcat(before, [lines[i]], gross, net);
      ComponentsOne(lines[i], gross, net);
    } else {
      assert Where(lines[..i], IsReimbursement) + [] == Where(lines[..i], IsReimbursement);
    }
  }

  method EmitAdditions(lines: seq<Line>, p: Partitioned, gross: int, net: int) returns (components: seq<Component>)
    requires ShapedLines(lines) && p == PartitionFor(lines)
    ensures components == Components([p.earning] + Where(lines, IsReimbursement), gross, net)
  {
    hide Where, Components;
    EmittedClasses(lines);
    components := [Component(p.earning.lineKey, p.earning.kind, gross)];
    ComponentsOne(p.earning, gross, net);
    NothingWhere(p.earning, lines[..0], IsReimbursement);
    for i := 0 to |lines|
      invariant components == Components([p.earning] + Where(lines[..i], IsReimbursement), gross, net)
    {
      var line := lines[i];
      AdditionStep(lines, i, p.earning, gross, net);
      if line == p.earning || line == p.remainder {
        continue;
      }
      OnlyMiddleLeft(lines, i, p.earning, p.remainder);
      if line.kind == Reimbursement {
        components := components + [Component(line.lineKey, line.kind, Amount(line))];
      }
    }
    assert lines[..|lines|] == lines;
  }

  lemma NothingWhere(first: Line, lines: seq<Line>, f: Line -> bool)
    requires lines == []
    ensures [first] + Where(lines, f) == [first]
  {
  }

  method EmitDeductions(p: Partitioned, gross: int, net: int) returns (components: seq<Component>)
    requires gross >= 0 && PercentLines(p.percentLines) && GuardsPass(gross, p.percentLines)
    requires forall i :: 0 <= i < |p.fixedLines| ==> IsFixed(p.fixedLines[i])
    requires forall i :: 0 <= i < |p.percentLines| ==> IsPercent(p.percentLines[i])
    ensures components == Components(p.fixedLines + p.percentLines, gross, net)
  {
    components := [];
    for i := 0 to |p.fixedLines|
      invariant components == Components(p.fixedLines[..i], gross, net)
    {
      var line := p.fixedLines[i];
      components := components + [Component(line.lineKey, line.kind, Amount(line))];
    }
    for i := 0 to |p.percentLines|
      invariant components == Components(p.fixedLines + p.percentLines[..i], gross, net)
    {
      var line := p.percentLines[i];
      var amount := PercentHalfUp(gross, Bps(line));
      assert amount == Ok(HalfUp(gross, Bps(line)));
      components := components + [Component(line.lineKey, line.kind, amount.value)];
    }
  }

  lemma EmittedClasses(lines: seq<Line>)
    requires ShapedLines(lines)
    ensures var p := PartitionFor(lines);
      && IsEarning(p.earning) && TakesRemainder(p.remainder)
      && Where(lines, IsEarning) == [p.earning] && Where(lines, TakesRemainder) == [p.remainder]
      && (forall i :: 0 <= i < |p.fixedLines| ==> IsFixed(p.fixedLines[i]))
      && (forall i :: 0 <= i < |p.percentLines| ==> IsPercent(p.percentLines[i]))
  {
    var p := PartitionFor(lines);
    ClassMembers(lines, IsEarning, [p.earning]);
    ClassMembers(lines, TakesRemainder, [p.remainder]);
    ClassMembers(lines, IsFixed, p.fixedLines);
    ClassMembers(lines, IsPercent, p.percentLines);
    assert IsEarning([p.earning][0]) && TakesRemainder([p.remainder][0]);
  }

  lemma ComponentsConcat(a: seq<Line>, b: seq<Line>, gross: int, net: int)
    ensures Components(a + b, gross, net) == Components(a, gross, net) + Components(b, gross, net)
  {
  }

  method Capacities(matches: seq<Match>) returns (capacity: map<string, int>)
    ensures TalliesFrom(capacity, matches)
  {
    capacity := map[];
    for i := 0 to |matches|
      invariant TalliesFrom(capacity, matches[..i])
    {
      var m := matches[i];
      assert matches[..i + 1] == matches[..i] + [m] && matches[..i + 1][..i] == matches[..i];
      MatchesFromExtends(matches[..i], m);
      capacity := Added(capacity, m.transactionId, m.amount);
    }
    assert matches[..|matches|] == matches;
  }

  lemma PartitionIsValid(lines: seq<Line>)
    ensures ShapedLines(lines) && BpsTotal(lines) < BPS_DENOMINATOR ==> ValidPartition(PartitionFor(lines))
  {
    if ShapedLines(lines) {
      InWhere(lines, IsPercent);
      forall i | 0 <= i < |Where(lines, IsPercent)| ensures HasBps(Where(lines, IsPercent)[i]) {
        assert Where(lines, IsPercent)[i] in Where(lines, IsPercent);
      }
      PrefixTotal(lines, |lines|, IsFixed, Amount);
      PrefixTotal(lines, |lines|, IsReimbursement, Amount);
      assert lines[..|lines|] == lines;
    }
  }

  // The emitted keys are unique exactly when the template's are: the lines are rearranged, none lost or repeated.

  lemma EmittedIsPermutation(lines: seq<Line>)
    requires ShapedLines(lines)
    ensures multiset(Emitted(lines, PartitionFor(lines))) == multiset(lines)
  {
    hide Where;
    EmittedClasses(lines);
    WhereCounts(lines, IsEarning);
    WhereCounts(lines, IsReimbursement);
    WhereCounts(lines, IsFixed);
    WhereCounts(lines, IsPercent);
    WhereCounts(lines, TakesRemainder);
    var emitted := Emitted(lines, PartitionFor(lines));
    forall l ensures multiset(emitted)[l] == multiset(lines)[l] {
      if l in lines {
        OneClass(l);
      }
    }
  }

  lemma {:induction false} WhereCounts(lines: seq<Line>, p: Line -> bool)
    ensures forall l :: multiset(Where(lines, p))[l] == if p(l) then multiset(lines)[l] else 0
  {
    if lines != [] {
      var init, last := lines[..|lines| - 1], lines[|lines| - 1];
      WhereCounts(init, p);
      assert lines == init + [last];
    }
  }

  lemma OneClass(l: Line)
    requires ValidLine(l)
    ensures 1 == (if IsEarning(l) then 1 else 0) + (if IsReimbursement(l) then 1 else 0)
      + (if IsFixed(l) then 1 else 0) + (if IsPercent(l) then 1 else 0) + (if TakesRemainder(l) then 1 else 0)
  {
  }

  ghost predicate KeyedApart(lines: multiset<Line>) {
    && (forall l :: l in lines ==> l.lineKey != "" && lines[l] == 1)
    && (forall l, m :: l in lines && m in lines && l != m ==> l.lineKey != m.lineKey)
  }

  lemma UniqueKeysByCount(lines: seq<Line>)
    ensures UniqueKeys(lines) <==> KeyedApart(multiset(lines))
  {
    if UniqueKeys(lines) {
      forall l | l in lines ensures multiset(lines)[l] == 1 {
        OccursOnce(lines, l);
      }
    }
    if KeyedApart(multiset(lines)) {
      forall i, j | 0 <= i < j < |lines| ensures lines[i].lineKey != lines[j].lineKey {
        TwiceAt(lines, i, j);
        assert lines[i] in multiset(lines) && lines[j] in multiset(lines);
      }
    }
  }

  lemma TwiceAt(lines: seq<Line>, i: nat, j: nat)
    requires i < j < |lines|
    ensures lines[i] == lines[j] ==> multiset(lines)[lines[i]] >= 2
  {
    assert lines == lines[..j] + lines[j..];
    assert lines[..j][i] in multiset(lines[..j]) && lines[j..][0] in multiset(lines[j..]);
  }

  lemma EmittedUnique(lines: seq<Line>)
    requires ShapedLines(lines)
    ensures UniqueKeys(Emitted(lines, PartitionFor(lines))) <==> UniqueKeys(lines)
  {
    EmittedIsPermutation(lines);
    hide *;
    UniqueKeysByCount(lines);
    UniqueKeysByCount(Emitted(lines, PartitionFor(lines)));
  }

  // Every destination is matched in full and every capacity is met exactly.

  lemma MatchesForLast(components: seq<Component>, txnIds: map<string, string>)
    requires components != []
    ensures var init, c := components[..|components| - 1], components[|components| - 1];
      && (forall key :: AllocatedTo(MatchesFor(components, txnIds), key) == AllocatedTo(MatchesFor(init, txnIds), key)
            + if c.kind in DESTINATIONS && c.key == key then c.amount else 0)
      && (forall m :: m in MatchesFor(components, txnIds) <==>
            m in MatchesFor(init, txnIds)
            || (c.kind in DESTINATIONS && m == Match(TxnOf(txnIds, c.key), c.key, c.amount)))
  {
    var init, c := components[..|components| - 1], components[|components| - 1];
    var before, m := MatchesFor(init, txnIds), Match(TxnOf(txnIds, c.key), c.key, c.amount);
    assert (before + [m])[..|before|] == before && before + [] == before;
  }

  lemma KeyOfLast(components: seq<Component>)
    requires components != []
    ensures forall key :: KeyOf(components, key) <==>
      KeyOf(components[..|components| - 1], key) || key == components[|components| - 1].key
  {
    var init := components[..|components| - 1];
    forall key | KeyOf(init, key) ensures KeyOf(components, key) {
      var i :| 0 <= i < |init| && init[i].key == key;
      assert components[i] == init[i];
    }
    forall key | KeyOf(components, key) ensures KeyOf(init, key) || key == components[|components| - 1].key {
      var i :| 0 <= i < |components| && components[i].key == key;
      assert i < |init| ==> init[i] == components[i];
    }
  }

  lemma {:induction false} NothingToOthers(components: seq<Component>, txnIds: map<string, string>)
    ensures forall key :: !KeyOf(components, key) ==> AllocatedTo(MatchesFor(components, txnIds), key) == 0
  {
    if components != [] {
      NothingToOthers(components[..|components| - 1], txnIds);
      MatchesForLast(components, txnIds);
      KeyOfLast(components);
    }
  }

  lemma {:induction false} MatchesMeetDestinations(components: seq<Component>, txnIds: map<string, string>)
    requires DistinctKeys(components)
    ensures forall i :: 0 <= i < |components| && components[i].kind in DESTINATIONS ==>
      AllocatedTo(MatchesFor(components, txnIds), components[i].key) == components[i].amount
  {
    hide MatchesFor, AllocatedTo;
    if components != [] {
      var init, last := components[..|components| - 1], components[|components| - 1];
      MatchesMeetDestinations(init, txnIds);
      MatchesForLast(components, txnIds);
      assert !KeyOf(init, last.key);
      NothingToOthers(init, txnIds);
    }
  }

  /** The transaction ids of all destinations are there. */
  ghost predicate NamedComponents(components: seq<Component>, txnIds: map<string, string>) {
    forall i :: 0 <= i < |components| && components[i].kind in DESTINATIONS ==> TxnOf(txnIds, components[i].key) != ""
  }

  lemma {:induction false} MatchesAreFormed(components: seq<Component>, txnIds: map<string, string>)
    requires forall i :: 0 <= i < |components| ==> components[i].amount >= 0
    ensures forall m :: m in MatchesFor(components, txnIds) ==> KeyOf(components, m.componentKey) && m.amount >= 0
    ensures NamedComponents(components, txnIds) <==>
      forall m :: m in MatchesFor(components, txnIds) ==> m.transactionId != ""
  {
    if components != [] {
      MatchesAreFormed(components[..|components| - 1], txnIds);
      MatchesForLast(components, txnIds);
      NamedLast(components, txnIds);
      KeyOfLast(components);
    }
  }

  lemma NamedLast(components: seq<Component>, txnIds: map<string, string>)
    requires components != []
    ensures var init, c := components[..|components| - 1], components[|components| - 1];
      NamedComponents(components, txnIds) <==>
        NamedComponents(init, txnIds) && (c.kind in DESTINATIONS ==> TxnOf(txnIds, c.key) != "")
  {
    var init := components[..|components| - 1];
    assert forall i :: 0 <= i < |init| ==> init[i] == components[i];
    assert NamedComponents(components, txnIds) ==> forall i :: 0 <= i < |init| && components[i].kind in DESTINATIONS ==>
      TxnOf(txnIds, components[i].key) != "";
  }

  lemma {:induction false} AllocatedNonNegative(matches: seq<Match>, t: string)
    requires forall m :: m in matches ==> m.amount >= 0
    ensures AllocatedFrom(matches, t) >= 0
  {
    if matches != [] {
      AllocatedNonNegative(matches[..|matches| - 1], t);
    }
  }

  lemma EmittedAmounts(lines: seq<Line>, gross: int, net: int)
    requires ShapedLines(lines) && gross >= 0 && net >= 0
    ensures forall l :: l in Emitted(lines, PartitionFor(lines)) ==>
      l in lines && ComponentFor(l, gross, net).amount >= 0
  {
    ShapeParts(lines);
    EmittedMembers(lines);
    hide Where, Emitted, ValidLine, ComponentFor;
    forall l | l in lines ensures ComponentFor(l, gross, net).amount >= 0 {
      AmountNotNegative(l, gross, net);
    }
  }

  lemma AmountNotNegative(l: Line, gross: int, net: int)
    requires ValidLine(l) && gross >= 0 && net >= 0
    ensures ComponentFor(l, gross, net).amount >= 0
  {
    if IsPercent(l) {
      HalfUpStep(gross, Bps(l));
    }
  }

  /** The checker reads the emitted paycheck exactly when the template's keys and transaction ids are in order. */
  lemma WellFormedExactly(a: Applied, lines: seq<Line>, txnIds: map<string, string>)
    requires ShapedLines(lines)
    requires a.gross >= 0 && a.net >= 0 && EmittedPaycheck(a, lines, txnIds)
    ensures WellFormed(a.paycheck) <==> Keyed(lines, txnIds)
  {
    hide KeyOf, UniqueKeys, MatchesFor, EmittedKind, ShapedLines, Where, TalliesFrom;
    ShapeParts(lines);
    var components, matches := a.paycheck.components, a.paycheck.matches;
    EmittedUnique(lines);
    EmittedKeys(lines, a.gross, a.net, txnIds);
    MatchesAreFormed(components, txnIds);
    assert forall i :: 0 <= i < |matches| ==> matches[i] in matches;
    CapacitiesCover(matches, a.paycheck.transactionAmounts);
  }

  lemma CapacitiesCover(matches: seq<Match>, capacity: map<string, int>)
    requires TalliesFrom(capacity, matches) && forall m :: m in matches ==> m.amount >= 0
    ensures forall i :: 0 <= i < |matches| ==>
      matches[i].transactionId in capacity && capacity[matches[i].transactionId] >= 0
  {
    forall i | 0 <= i < |matches|
      ensures matches[i].transactionId in capacity && capacity[matches[i].transactionId] >= 0
    {
      assert MatchesFrom(matches, matches[i].transactionId);
      AllocatedNonNegative(matches, matches[i].transactionId);
    }
  }

  lemma EmittedKeys(lines: seq<Line>, gross: int, net: int, txnIds: map<string, string>)
    requires ShapedLines(lines) && gross >= 0 && net >= 0
    ensures var emitted := Emitted(lines, PartitionFor(lines));
      var components := Components(emitted, gross, net);
      && (DistinctKeys(components) <==> UniqueKeys(emitted))
      && (NamedComponents(components, txnIds) <==> NamedDestinations(lines, txnIds))
      && (forall i :: 0 <= i < |components| ==> components[i].amount >= 0)
  {
    hide ShapedLines, Where, Emitted, TxnOf;
    ShapeParts(lines);
    var emitted := Emitted(lines, PartitionFor(lines));
    var components := Components(emitted, gross, net);
    EmittedAmounts(lines, gross, net);
    EmittedMembers(lines);
    assert forall i :: 0 <= i < |emitted| ==> emitted[i] in emitted;
    assert forall i :: 0 <= i < |emitted| ==>
      components[i].key == emitted[i].lineKey && components[i].kind == EmittedKind(emitted[i]);
  }

  lemma EmittedMembers(lines: seq<Line>)
    requires ShapedLines(lines)
    ensures forall l :: l in Emitted(lines, PartitionFor(lines)) <==> l in lines
  {
    EmittedIsPermutation(lines);
    var emitted := Emitted(lines, PartitionFor(lines));
    forall l ensures l in emitted <==> l in lines {
      assert l in multiset(emitted) <==> l in multiset(lines);
    }
  }

  /** With keys and ids in order every destination is matched in full within its capacity. */
  lemma EmittedIsWellFormed(a: Applied, lines: seq<Line>, txnIds: map<string, string>)
    requires ShapedLines(lines) && Keyed(lines, txnIds)
    requires a.gross >= 0 && a.net >= 0 && EmittedPaycheck(a, lines, txnIds)
    ensures WellFormed(a.paycheck)
    ensures forall v: Violation :: v.DestinationMismatch? || v.TransactionOverallocated? ==> !IsViolation(a.paycheck, v)
  {
    WellFormedExactly(a, lines, txnIds);
    NoDestinationViolated(a.paycheck, txnIds);
  }

  lemma NoDestinationViolated(paycheck: PaycheckInput, txnIds: map<string, string>)
    requires DistinctKeys(paycheck.components)
    requires paycheck.matches == MatchesFor(paycheck.components, txnIds)
    requires TalliesFrom(paycheck.transactionAmounts, paycheck.matches)
    ensures forall v: Violation :: v.DestinationMismatch? || v.TransactionOverallocated? ==> !IsViolation(paycheck, v)
  {
    var components := paycheck.components;
    MatchesMeetDestinations(components, txnIds);
    forall v: Violation | v.DestinationMismatch? ensures !IsViolation(paycheck, v) {
      if DestinationOf(components, v.componentKey, v.expected) {
        var i :| 0 <= i < |components| && components[i].key == v.componentKey
          && components[i].amount == v.expected && components[i].kind in DESTINATIONS;
        assert AllocatedTo(paycheck.matches, v.componentKey) == v.expected;
      }
    }
  }

  // The totals the checker computes.

  lemma {:induction false} KindTotalAppend(a: seq<Component>, b: seq<Component>, kinds: set<Kind>)
    ensures KindTotal(a + b, kinds) == KindTotal(a, kinds) + KindTotal(b, kinds)
  {
    if b == [] {
      assert a + b == a;
    } else {
      var init, last := b[..|b| - 1], b[|b| - 1];
      KindTotalAppend(a, init, kinds);
      assert (a + b)[..|a + b| - 1] == a + init;
    }
  }

  // Amounts of the lines of one class, whatever their kinds.
  function Emits(lines: seq<Line>, gross: int): int {
    if lines == [] then 0
    else Emits(lines[..|lines| - 1], gross) + ComponentFor(lines[|lines| - 1], gross, 0).amount
  }

  lemma {:induction false} EmitsAmounts(lines: seq<Line>, gross: int)
    requires forall i :: 0 <= i < |lines| ==> IsReimbursement(lines[i]) || IsFixed(lines[i])
    ensures Emits(lines, gross) == Total(lines, Amount)
  {
    if lines != [] {
      EmitsAmounts(lines[..|lines| - 1], gross);
    }
  }

  lemma {:induction false} EmitsTaxes(lines: seq<Line>, gross: int)
    requires forall i :: 0 <= i < |lines| ==> IsPercent(lines[i])
    ensures Emits(lines, gross) == Taxes(gross, lines)
  {
    if lines != [] {
      EmitsTaxes(lines[..|lines| - 1], gross);
    }
  }

  lemma {:induction false} ReimbursementKinds(lines: seq<Line>, gross: int, net: int, kinds: set<Kind>)
    requires forall i :: 0 <= i < |lines| ==> IsReimbursement(lines[i])
    ensures KindTotal(Components(lines, gross, net), kinds) == if Reimbursement in kinds then Emits(lines, gross) else 0
  {
    if lines != [] {
      ReimbursementKinds(lines[..|lines| - 1], gross, net, kinds);
      ComponentsInit(lines, gross, net);
    }
  }

  lemma ComponentsInit(lines: seq<Line>, gross: int, net: int)
    requires lines != []
    ensures Components(lines, gross, net)[..|lines| - 1] == Components(lines[..|lines| - 1], gross, net)
  {
  }

  /** The total over some kinds is everything exactly when no line outside them carries money. */
  lemma {:induction false} DeductionKinds(lines: seq<Line>, gross: int, net: int, kinds: set<Kind>)
    requires gross >= 0 && forall i :: 0 <= i < |lines| ==> IsDeduction(lines[i]) && ValidLine(lines[i])
    ensures var total := KindTotal(Components(lines, gross, net), kinds);
      && 0 <= total <= Emits(lines, gross)
      && (total == Emits(lines, gross) <==>
          forall i :: 0 <= i < |lines| && lines[i].kind !in kinds ==> ComponentFor(lines[i], gross, 0).amount == 0)
  {
    if lines != [] {
      var init, last := lines[..|lines| - 1], lines[|lines| - 1];
      DeductionKinds(init, gross, net, kinds);
      ComponentsInit(lines, gross, net);
      var amount := ComponentFor(last, gross, 0).amount;
      assert amount >= 0 by {
        if IsPercent(last) {
          HalfUpStep(gross, Bps(last));
        }
      }
      assert Components(lines, gross, net)[|lines| - 1] == Component(last.lineKey, last.kind, amount);
    }
  }

  lemma {:induction false} KindTotalSplit(components: seq<Component>, a: set<Kind>, b: set<Kind>)
    requires a !! b
    ensures KindTotal(components, a + b) == KindTotal(components, a) + KindTotal(components, b)
  {
    if components != [] {
      KindTotalSplit(components[..|components| - 1], a, b);
    }
  }

  lemma DeductionTotals(lines: seq<Line>, gross: int, net: int)
    requires gross >= 0 && forall i :: 0 <= i < |lines| ==> IsDeduction(lines[i]) && ValidLine(lines[i])
    ensures var c, emits := Components(lines, gross, net), Emits(lines, gross);
      var g, a := KindTotal(c, GROSS), KindTotal(c, ADDITIONS);
      var d, t := KindTotal(c, {DirectDeposit}), KindTotal(c, DEDUCTIONS);
      && 0 <= g && 0 <= a && 0 <= d && 0 <= t && g + a + d + t <= emits
      && (t == emits <==>
          forall i :: 0 <= i < |lines| && lines[i].kind !in DEDUCTIONS ==> ComponentFor(lines[i], gross, 0).amount == 0)
      && (g + t == emits <==>
          forall i :: 0 <= i < |lines| && lines[i].kind !in GROSS + DEDUCTIONS ==>
            ComponentFor(lines[i], gross, 0).amount == 0)
  {
    hide KindTotal, Components, Emits, ValidLine;
    var c := Components(lines, gross, net);
    KindTotalSplit(c, GROSS, DEDUCTIONS);
    KindTotalSplit(c, GROSS + DEDUCTIONS, ADDITIONS);
    KindTotalSplit(c, GROSS + DEDUCTIONS + ADDITIONS, {DirectDeposit});
    DeductionKinds(lines, gross, net, GROSS);
    DeductionKinds(lines, gross, net, ADDITIONS);
    DeductionKinds(lines, gross, net, {DirectDeposit});
    DeductionKinds(lines, gross, net, DEDUCTIONS);
    DeductionKinds(lines, gross, net, GROSS + DEDUCTIONS);
    DeductionKinds(lines, gross, net, GROSS + DEDUCTIONS + ADDITIONS + {DirectDeposit});
  }

  /** Once the typed rejections are behind it, the cross-check passes exactly when the kinds hold together. */
  lemma CrossCheckExactly(a: Applied, lines: seq<Line>, txnIds: map<string, string>)
    requires ShapedLines(lines) && Keyed(lines, txnIds)
    requires BpsTotal(lines) < BPS_DENOMINATOR
    requires a.gross >= 0 && a.net >= 0 && Net(a.gross, PartitionFor(lines)) == a.net
    requires EmittedPaycheck(a, lines, txnIds)
    ensures (forall v :: !IsViolation(a.paycheck, v)) <==> CrossCheckHolds(lines, a.gross)
  {
    hide KindTotal, Components, Emits, EmittedPaycheck, IsViolation, Where, ShapedLines, Keyed, StrayGross,
      NoStrayDeduction, OnlyGrossStrays;
    ShapeParts(lines);
    var p := PartitionFor(lines);
    EmittedIsWellFormed(a, lines, txnIds);
    EmittedTotals(a, lines, txnIds);
    TotalVerdict(a.paycheck);
    CheckerTotals(a, lines, txnIds);
    StrayLines(lines, a.gross);
    DeductionTotals(p.fixedLines + p.percentLines, a.gross, a.net);
    StrayGrossTotal(lines, a.gross, a.net);
    GrossKinds(p.earning.kind);
  }

  lemma ShapeParts(lines: seq<Line>)
    requires ShapedLines(lines)
    ensures |Where(lines, IsEarning)| == 1 && |Where(lines, TakesRemainder)| == 1
  {
  }

  lemma EmittedTotals(a: Applied, lines: seq<Line>, txnIds: map<string, string>)
    requires |Where(lines, IsEarning)| == 1 && |Where(lines, TakesRemainder)| == 1 && EmittedPaycheck(a, lines, txnIds)
    ensures a.paycheck.gross == a.gross && a.paycheck.net == a.net
  {
  }

  lemma StrayGrossTotal(lines: seq<Line>, gross: int, net: int)
    requires ShapedLines(lines)
    ensures var p := PartitionFor(lines);
      StrayGross(p, gross) == KindTotal(Components(p.fixedLines + p.percentLines, gross, net), GROSS)
  {
    EmittedClasses(lines);
    var p := PartitionFor(lines);
    var d := p.fixedLines + p.percentLines;
    assert Components(d, gross, net) == Components(d, gross, 0);
  }

  lemma TotalVerdict(paycheck: PaycheckInput)
    requires forall v: Violation :: v.DestinationMismatch? || v.TransactionOverallocated? ==> !IsViolation(paycheck, v)
    ensures (forall v :: !IsViolation(paycheck, v)) <==>
      && KindTotal(paycheck.components, GROSS) == paycheck.gross
      && ComputedNet(paycheck.components) == paycheck.net
      && KindTotal(paycheck.components, {DirectDeposit}) == paycheck.net
  {
    var g, n := KindTotal(paycheck.components, GROSS), ComputedNet(paycheck.components);
    var d := KindTotal(paycheck.components, {DirectDeposit});
    if g != paycheck.gross || n != paycheck.net || d != paycheck.net {
      assert IsViolation(paycheck, GrossMismatch(paycheck.gross, g))
        || IsViolation(paycheck, NetMismatch(paycheck.net, n))
        || IsViolation(paycheck, DirectDepositMismatch(paycheck.net, d));
    }
  }

  lemma CheckerTotals(a: Applied, lines: seq<Line>, txnIds: map<string, string>)
    requires ShapedLines(lines) && EmittedPaycheck(a, lines, txnIds)
    requires Net(a.gross, PartitionFor(lines)) == a.net
    ensures var p := PartitionFor(lines);
      var c, d := Components(p.fixedLines + p.percentLines, a.gross, a.net), a.paycheck.components;
      && KindTotal(d, GROSS) == (if p.earning.kind in GROSS then a.gross else 0) + KindTotal(c, GROSS)
      && ComputedNet(d) == KindTotal(d, GROSS)
           + p.reimbursement + (if p.earning.kind in ADDITIONS then a.gross else 0) + KindTotal(c, ADDITIONS)
           - (if p.earning.kind in DEDUCTIONS then a.gross else 0) - KindTotal(c, DEDUCTIONS)
      && KindTotal(d, {DirectDeposit}) == a.net + (if p.earning.kind == DirectDeposit then a.gross else 0)
           + KindTotal(c, {DirectDeposit})
      && a.net == a.gross + p.reimbursement - Emits(p.fixedLines + p.percentLines, a.gross)
  {
    var p := PartitionFor(lines);
    var c, d := Components(p.fixedLines + p.percentLines, a.gross, a.net), a.paycheck.components;
    GrossKinds(p.earning.kind);
    EmittedTotal(a, lines, txnIds, GROSS);
    EmittedTotal(a, lines, txnIds, ADDITIONS);
    EmittedTotal(a, lines, txnIds, DEDUCTIONS);
    EmittedTotal(a, lines, txnIds, {DirectDeposit});
    EmitsByClass(lines, a.gross);
  }

  /** The four ways the checker counts a component exclude each other. */
  lemma GrossKinds(kind: Kind)
    ensures kind in GROSS ==> kind !in ADDITIONS && kind !in DEDUCTIONS && kind != DirectDeposit
    ensures kind in DEDUCTIONS ==> kind !in ADDITIONS && kind != DirectDeposit
    ensures Reimbursement in ADDITIONS && Reimbursement !in GROSS && Reimbursement !in DEDUCTIONS
    ensures DirectDeposit !in GROSS && DirectDeposit !in ADDITIONS && DirectDeposit !in DEDUCTIONS
  {
  }

  lemma EmitsByClass(lines: seq<Line>, gross: int)
    requires ShapedLines(lines)
    ensures var p := PartitionFor(lines);
      && Emits(Where(lines, IsReimbursement), gross) == p.reimbursement
      && Emits(p.fixedLines + p.percentLines, gross) == p.fixedTotal + Taxes(gross, p.percentLines)
  {
    var p, r := PartitionFor(lines), Where(lines, IsReimbursement);
    EmittedClasses(lines);
    ClassMembers(lines, IsReimbursement, r);
    EmitsAmounts(r, gross);
    EmitsAmounts(p.fixedLines, gross);
    EmitsTaxes(p.percentLines, gross);
    EmitsConcat(p.fixedLines, p.percentLines, gross);
  }

  lemma EmittedTotal(a: Applied, lines: seq<Line>, txnIds: map<string, string>, kinds: set<Kind>)
    requires ShapedLines(lines) && EmittedPaycheck(a, lines, txnIds)
    ensures var p := PartitionFor(lines);
      KindTotal(a.paycheck.components, kinds) ==
        (if p.earning.kind in kinds then a.gross else 0)
        + (if Reimbursement in kinds then Emits(Where(lines, IsReimbursement), a.gross) else 0)
        + KindTotal(Components(p.fixedLines + p.percentLines, a.gross, a.net), kinds)
        + (if DirectDeposit in kinds then a.net else 0)
  {
    var p, r := PartitionFor(lines), Where(lines, IsReimbursement);
    ClassMembers(lines, IsReimbursement, r);
    ReimbursementKinds(r, a.gross, a.net, kinds);
    EmittedComponents(lines, a.gross, a.net);
    KindTotalOfParts(Component(p.earning.lineKey, p.earning.kind, a.gross), Components(r, a.gross, a.net),
      Components(p.fixedLines + p.percentLines, a.gross, a.net),
      Component(p.remainder.lineKey, DirectDeposit, a.net), kinds);
  }

  lemma EmittedComponents(lines: seq<Line>, gross: int, net: int)
    requires ShapedLines(lines)
    ensures var p := PartitionFor(lines);
      Components(Emitted(lines, p), gross, net) ==
        [Component(p.earning.lineKey, p.earning.kind, gross)] + Components(Where(lines, IsReimbursement), gross, net)
        + Components(p.fixedLines + p.percentLines, gross, net) + [Component(p.remainder.lineKey, DirectDeposit, net)]
  {
    var p, r := PartitionFor(lines), Where(lines, IsReimbursement);
    EmittedClasses(lines);
    var deductions := p.fixedLines + p.percentLines;
    ComponentsConcat([p.earning], r, gross, net);
    ComponentsConcat([p.earning] + r, deductions, gross, net);
    ComponentsConcat([p.earning] + r + deductions, [p.remainder], gross, net);
    assert Emitted(lines, p) == [p.earning] + r + deductions + [p.remainder];
    ComponentsOne(p.earning, gross, net);
    ComponentsOne(p.remainder, gross, net);
  }

  lemma ComponentsOne(l: Line, gross: int, net: int)
    ensures Components([l], gross, net) == [ComponentFor(l, gross, net)]
  {
  }

  lemma KindTotalOfParts(e: Component, q: seq<Component>, c: seq<Component>, d: Component, kinds: set<Kind>)
    ensures KindTotal([e] + q + c + [d], kinds) ==
      (if e.kind in kinds then e.amount else 0) + KindTotal(q, kinds) + KindTotal(c, kinds)
      + (if d.kind in kinds then d.amount else 0)
  {
    KindTotalAppend([e] + q + c, [d], kinds);
    KindTotalAppend([e] + q, c, kinds);
    KindTotalAppend([e], q, kinds);
    KindTotalOfOne([e], kinds);
    KindTotalOfOne([d], kinds);
  }

  lemma KindTotalOfOne(components: seq<Component>, kinds: set<Kind>)
    requires |components| == 1
    ensures KindTotal(components, kinds) == if components[0].kind in kinds then components[0].amount else 0
  {
    assert components[..0] == [];
  }

  lemma {:induction false} EmitsConcat(a: seq<Line>, b: seq<Line>, gross: int)
    ensures Emits(a + b, gross) == Emits(a, gross) + Emits(b, gross)
  {
    if b == [] {
      assert a + b == a;
    } else {
      EmitsConcat(a, b[..|b| - 1], gross);
      assert (a + b)[..|a + b| - 1] == a + b[..|b| - 1];
    }
  }

  function Deductions(lines: seq<Line>): seq<Line> {
    Where(lines, IsFixed) + Where(lines, IsPercent)
  }

  lemma DeductionMembers(lines: seq<Line>)
    requires ShapedLines(lines)
    ensures forall l :: l in Deductions(lines) <==> l in lines && IsDeduction(l)
    ensures forall l :: l in Deductions(lines) ==> ValidLine(l)
  {
    InWhere(lines, IsFixed);
    InWhere(lines, IsPercent);
    forall l ensures l in Deductions(lines) <==> l in lines && IsDeduction(l) {
      assert l in lines ==> ValidLine(l);
    }
  }

  lemma StrayLines(lines: seq<Line>, gross: int)
    requires ShapedLines(lines)
    ensures var d := PartitionFor(lines).fixedLines + PartitionFor(lines).percentLines;
      && (forall i :: 0 <= i < |d| ==> IsDeduction(d[i]) && ValidLine(d[i]))
      && (NoStrayDeduction(lines, gross) <==>
          forall i :: 0 <= i < |d| && d[i].kind !in DEDUCTIONS ==> ComponentFor(d[i], gross, 0).amount == 0)
      && (OnlyGrossStrays(lines, gross) <==>
          forall i :: 0 <= i < |d| && d[i].kind !in GROSS + DEDUCTIONS ==> ComponentFor(d[i], gross, 0).amount == 0)
  {
    hide IsDeduction, ValidLine, ComponentFor, Where;
    var d := Deductions(lines);
    DeductionMembers(lines);
    assert forall i :: 0 <= i < |d| ==> d[i] in d;
  }

  lemma CrossCheckVerdict(a: Applied, lines: seq<Line>, txnIds: map<string, string>)
    requires ShapedLines(lines) && Keyed(lines, txnIds) && CoherentKinds(lines)
    requires BpsTotal(lines) < BPS_DENOMINATOR
    requires a.gross >= 0 && a.net >= 0 && Net(a.gross, PartitionFor(lines)) == a.net
    requires EmittedPaycheck(a, lines, txnIds)
    ensures forall v :: !IsViolation(a.paycheck, v)
  {
    CoherentHolds(lines, a.gross);
    hide *;
    CrossCheckExactly(a, lines, txnIds);
  }

  // The line-by-line reading agrees with the classes.

  lemma PlainKindsCohere(lines: seq<Line>)
    ensures PlainKinds(lines) ==> CoherentKinds(lines)
  {
  }

  lemma SmallTemplateIsSmall(lines: seq<Line>, net: int)
    ensures SmallTemplate(lines, net) ==> SmallPaycheck(lines, net)
  {
    ProperIsShaped(lines);
    if ShapedLines(lines) {
      TotalsLineByLine(lines);
    }
  }

  lemma DestinationsAre(kind: Kind)
    ensures IsDestination(kind) <==> kind in DESTINATIONS
  {
  }

  lemma DistinctNamedIsKeyed(lines: seq<Line>, txnIds: map<string, string>)
    ensures Keyed(lines, txnIds) <==> DistinctNamed(lines, txnIds)
  {
  }

  lemma ComponentPaysLine(l: Line, gross: int, net: int)
    requires ValidLine(l)
    ensures PaysLine(l, ComponentFor(l, gross, net), gross, net)
  {
  }

  lemma {:induction false} MatchesPay(components: seq<Component>, txnIds: map<string, string>)
    requires DistinctKeys(components)
    ensures MatchesEach(components, txnIds, MatchesFor(components, txnIds))
  {
    hide MatchesFor, MatchesEach, IsDestination, TxnOf;
    if components == [] {
      NoMatches(txnIds);
    } else {
      var init, last := components[..|components| - 1], components[|components| - 1];
      MatchesPay(init, txnIds);
      DestinationsAre(last.kind);
      assert components == init + [last];
      MatchesForIs(components, txnIds);
      OtherKeys(init, last, txnIds);
      if IsDestination(last.kind) {
        MatchJoins(init, last, txnIds, MatchesFor(init, txnIds));
      } else {
        assert MatchesFor(init, txnIds) + [] == MatchesFor(init, txnIds);
        NoMatchJoins(init, last, txnIds, MatchesFor(init, txnIds));
      }
    }
  }

  lemma PaysSomeStill(m: Match, init: seq<Component>, last: Component, txnIds: map<string, string>)
    requires PaysSome(m, init, txnIds)
    ensures PaysSome(m, init + [last], txnIds)
  {
    hide IsDestination, MatchesComponent;
    var c :| c in init && IsDestination(c.kind) && MatchesComponent(m, c, txnIds);
    assert c in init + [last];
  }

  lemma PaidStill(c: Component, before: seq<Match>, m: Match, txnIds: map<string, string>)
    requires PaidBySome(c, before, txnIds)
    ensures PaidBySome(c, before + [m], txnIds)
  {
    hide MatchesComponent;
    var x :| x in before && MatchesComponent(x, c, txnIds);
    assert x in before + [m];
  }

  lemma NoMatchJoins(init: seq<Component>, last: Component, txnIds: map<string, string>, before: seq<Match>)
    requires MatchesEach(init, txnIds, before) && !IsDestination(last.kind)
    ensures MatchesEach(init + [last], txnIds, before)
  {
    hide IsDestination, MatchesComponent, PaysSome, PaidBySome;
    forall x | x in before ensures PaysSome(x, init + [last], txnIds) {
      PaysSomeStill(x, init, last, txnIds);
    }
    assert forall c :: c in init + [last] <==> c in init || c == last;
  }

  /** One more component that is paid out somewhere, with its match. */
  lemma MatchJoins(init: seq<Component>, last: Component, txnIds: map<string, string>, before: seq<Match>)
    requires MatchesEach(init, txnIds, before) && IsDestination(last.kind)
    requires forall i :: 0 <= i < |before| ==> before[i].componentKey != last.key
    ensures MatchesEach(init + [last], txnIds, before + [Match(TxnOf(txnIds, last.key), last.key, last.amount)])
  {
    hide IsDestination, MatchesComponent, PaysSome, PaidBySome, TxnOf;
    var m := Match(TxnOf(txnIds, last.key), last.key, last.amount);
    LastIsPaid(init, last, txnIds, before);
    forall x | x in before + [m] ensures PaysSome(x, init + [last], txnIds) {
      if x != m {
        assert x in before;
        PaysSomeStill(x, init, last, txnIds);
      }
    }
    forall c | c in init + [last] && IsDestination(c.kind) ensures PaidBySome(c, before + [m], txnIds) {
      if c != last {
        assert c in init;
        PaidStill(c, before, m, txnIds);
      }
    }
  }

  lemma LastIsPaid(init: seq<Component>, last: Component, txnIds: map<string, string>, before: seq<Match>)
    requires IsDestination(last.kind)
    ensures var m := Match(TxnOf(txnIds, last.key), last.key, last.amount);
      PaysSome(m, init + [last], txnIds) && PaidBySome(last, before + [m], txnIds)
  {
    hide IsDestination, MatchesComponent, TxnOf;
    var m := Match(TxnOf(txnIds, last.key), last.key, last.amount);
    MatchComponent(last, txnIds);
    assert (init + [last])[|init|] == last && (before + [m])[|before|] == m;
  }

  lemma NoMatches(txnIds: map<string, string>)
    ensures MatchesEach([], txnIds, MatchesFor([], txnIds))
  {
  }

  lemma MatchesForIs(components: seq<Component>, txnIds: map<string, string>)
    requires components != []
    ensures var init, c := components[..|components| - 1], components[|components| - 1];
      MatchesFor(components, txnIds) == MatchesFor(init, txnIds)
        + if c.kind in DESTINATIONS then [Match(TxnOf(txnIds, c.key), c.key, c.amount)] else []
  {
  }

  lemma MatchComponent(c: Component, txnIds: map<string, string>)
    ensures MatchesComponent(Match(TxnOf(txnIds, c.key), c.key, c.amount), c, txnIds)
  {
  }

  lemma KeyOfMatched(m: Match, c: Component, txnIds: map<string, string>)
    requires MatchesComponent(m, c, txnIds)
    ensures m.componentKey == c.key
  {
  }

  lemma OtherKeys(init: seq<Component>, last: Component, txnIds: map<string, string>)
    requires DistinctKeys(init + [last]) && MatchesEach(init, txnIds, MatchesFor(init, txnIds))
    ensures forall i :: 0 <= i < |MatchesFor(init, txnIds)| ==> MatchesFor(init, txnIds)[i].componentKey != last.key
  {
    hide MatchesFor, IsDestination;
    var before := MatchesFor(init, txnIds);
    forall i | 0 <= i < |before| ensures before[i].componentKey != last.key {
      assert before[i] in before;
      var c :| c in init && MatchesComponent(before[i], c, txnIds);
      var k :| 0 <= k < |init| && init[k] == c;
      assert (init + [last])[k] == c && (init + [last])[|init|] == last;
      KeyOfMatched(before[i], c, txnIds);
    }
  }

  lemma KeysAreDistinct(paycheck: PaycheckInput)
    requires WellFormed(paycheck)
    ensures DistinctKeys(paycheck.components)
  {
  }

  lemma EmittedPaysOut(a: Applied, lines: seq<Line>, txnIds: map<string, string>)
    requires ShapedLines(lines) && EmittedPaycheck(a, lines, txnIds) && DistinctKeys(a.paycheck.components)
    ensures PaysOut(lines, txnIds, a)
  {
    hide Where, MatchesFor, Emitted, MatchesEach;
    ShapeParts(lines);
    EmittedPaysLines(lines, a.gross, a.net);
    MatchesPay(a.paycheck.components, txnIds);
  }

  lemma EmittedPaysLines(lines: seq<Line>, gross: int, net: int)
    requires ShapedLines(lines)
    ensures PaysEachLine(lines, Components(Emitted(lines, PartitionFor(lines)), gross, net), gross, net)
  {
    hide Where, Emitted, ValidLine, PaysLine, ComponentFor;
    ShapeParts(lines);
    EmittedCount(lines);
    var emitted := Emitted(lines, PartitionFor(lines));
    var components := Components(emitted, gross, net);
    forall l | l in lines ensures exists c :: c in components && PaysLine(l, c, gross, net) {
      assert l in emitted;
      var i :| 0 <= i < |emitted| && emitted[i] == l;
      ComponentPaysLine(l, gross, net);
      assert components[i] == ComponentFor(l, gross, net);
    }
    forall c | c in components ensures exists l :: l in lines && PaysLine(l, c, gross, net) {
      var i :| 0 <= i < |components| && components[i] == c;
      assert emitted[i] in emitted;
      ComponentPaysLine(emitted[i], gross, net);
    }
  }

  lemma EmittedCount(lines: seq<Line>)
    requires ShapedLines(lines)
    ensures var emitted := Emitted(lines, PartitionFor(lines));
      |emitted| == |lines| && forall l :: l in emitted <==> l in lines
  {
    hide Where, Emitted;
    ShapeParts(lines);
    EmittedMembers(lines);
    EmittedIsPermutation(lines);
    assert |multiset(Emitted(lines, PartitionFor(lines)))| == |multiset(lines)|;
  }

  // Templates the cross-check turns away although every rejection before it passes.

  function Pay(kind: Kind): Line {
    Line("pay", Earning, kind, AmountKind.Remainder, None, None)
  }

  function Deposit(): Line {
    Line("net", NetDeposit, DirectDeposit, AmountKind.Remainder, None, None)
  }

  function FixedPretax(kind: Kind, amount: int): Line {
    Line("pretax", PretaxTransfer, kind, FixedMinor, Some(amount), None)
  }

  lemma ThreeLines(kind: Kind, deduction: Kind, amount: int)
    requires amount >= 0 && deduction != Reimbursement
    ensures var lines := [Pay(kind), FixedPretax(deduction, amount), Deposit()];
      && ShapedLines(lines) && UniqueKeys(lines)
      && PartitionFor(lines) == Partitioned(Pay(kind), [], [FixedPretax(deduction, amount)], amount, 0, 0, Deposit())
  {
    var lines := [Pay(kind), FixedPretax(deduction, amount), Deposit()];
    assert lines[..2] == [Pay(kind), FixedPretax(deduction, amount)] && lines[..2][..1] == [Pay(kind)];
    ThreeWhere(Pay(kind), FixedPretax(deduction, amount), Deposit(), IsEarning);
    ThreeWhere(Pay(kind), FixedPretax(deduction, amount), Deposit(), TakesRemainder);
    ThreeWhere(Pay(kind), FixedPretax(deduction, amount), Deposit(), IsReimbursement);
    ThreeWhere(Pay(kind), FixedPretax(deduction, amount), Deposit(), IsFixed);
    ThreeWhere(Pay(kind), FixedPretax(deduction, amount), Deposit(), IsPercent);
    assert [FixedPretax(deduction, amount)][..0] == [];
  }

  lemma ThreeWhere(a: Line, b: Line, c: Line, f: Line -> bool)
    ensures Where([a, b, c], f) == (if f(a) then [a] else []) + (if f(b) then [b] else []) + (if f(c) then [c] else [])
  {
    assert [a, b, c][..2] == [a, b] && [a, b][..1] == [a] && [a][..0] == [];
    assert Where([a], f) == if f(a) then [a] else [];
    assert Where([a, b], f) == (if f(a) then [a] else []) + (if f(b) then [b] else []);
  }

  lemma FixedOnlySelects(kind: Kind, deduction: Kind, amount: int, net: int)
    requires 0 <= amount <= 1_000 && 0 <= net <= 1_000 && deduction != Reimbursement
    ensures Selected([Pay(kind), FixedPretax(deduction, amount), Deposit()], net, net + amount)
  {
    ThreeLines(kind, deduction, amount);
    var p := PartitionFor([Pay(kind), FixedPretax(deduction, amount), Deposit()]);
    assert forall g :: Net(g, p) == g - amount;
  }

  /** A deduction the checker does not deduct, such as an employer match, is turned away whenever it carries money. */
  lemma EmployerMatchContradicted(net: int, amount: int)
    requires 0 < amount <= 1_000 && 0 <= net <= 1_000
    ensures UniqueKeys([Pay(GrossSalary), FixedPretax(EmployerMatch, amount), Deposit()])
    ensures Contradicted([Pay(GrossSalary), FixedPretax(EmployerMatch, amount), Deposit()], net)
  {
    var lines := [Pay(GrossSalary), FixedPretax(EmployerMatch, amount), Deposit()];
    FixedOnlySelects(GrossSalary, EmployerMatch, amount, net);
    ThreeLines(GrossSalary, EmployerMatch, amount);
    assert lines[1] in lines && ComponentFor(lines[1], net + amount, 0).amount == amount;
    assert !CrossCheckHolds(lines, net + amount);
  }

  /** An earning that counts as a deduction is turned away, unless deductions that count as gross make up for it. */
  lemma BenefitEarningContradicted(net: int, amount: int)
    requires 0 < amount <= 1_000 && 0 <= net <= 1_000
    ensures UniqueKeys([Pay(Benefit), FixedPretax(FederalWithholding, amount), Deposit()])
    ensures Contradicted([Pay(Benefit), FixedPretax(FederalWithholding, amount), Deposit()], net)
    ensures Contradicted([Pay(Benefit), FixedPretax(GrossSalary, amount), Deposit()], net) <==> net != 0
  {
    hide *;
    ThreeLines(Benefit, FederalWithholding, amount);
    BenefitWith(FederalWithholding, amount, net);
    BenefitWith(GrossSalary, amount, net);
  }

  lemma BenefitWith(deduction: Kind, amount: int, net: int)
    requires 0 < amount <= 1_000 && 0 <= net <= 1_000 && deduction in {GrossSalary, FederalWithholding}
    ensures Contradicted([Pay(Benefit), FixedPretax(deduction, amount), Deposit()], net)
      <==> !(deduction == GrossSalary && net == 0)
  {
    hide Selected, Where, StrayGross, Contradicted, Accepted;
    FixedOnlySelects(Benefit, deduction, amount, net);
    ThreeLines(Benefit, deduction, amount);
    OneDeduction(Benefit, deduction, amount, net);
    GrossIsDetermined([Pay(Benefit), FixedPretax(deduction, amount), Deposit()], net);
  }

  lemma OneDeduction(kind: Kind, deduction: Kind, amount: int, net: int)
    requires amount >= 0 && deduction != Reimbursement
    ensures var lines := [Pay(kind), FixedPretax(deduction, amount), Deposit()];
      |Where(lines, IsEarning)| == 1 && |Where(lines, TakesRemainder)| == 1
      && StrayGross(PartitionFor(lines), net + amount) == if deduction in GROSS then amount else 0
  {
    ThreeLines(kind, deduction, amount);
    var d := [FixedPretax(deduction, amount)];
    ComponentsOne(d[0], net + amount, 0);
    assert d + [] == d;
    KindTotalOfOne([ComponentFor(d[0], net + amount, 0)], GROSS);
  }
}

/**
 * The lines of a paycheck split template and the net-pay function they define. An absent
 * amountMinor or bps is None; a wire amount that is not canonical is a negative integer.
 */
module PaycheckTemplate {
  import opened Wrappers
  import opened PaycheckReconciliation

  datatype Role = Earning | Tax | PretaxTransfer | PosttaxDeduction | NetDeposit

  datatype AmountKind = FixedMinor | PercentOfGrossBps | Remainder

  datatype Line = Line(
    lineKey: string, role: Role, kind: Kind, amountKind: AmountKind,
    amountMinor: Option<int>, bps: Option<int>)

  datatype LineFault =
    | EarningCount | EarningNotDerived | ReimbursementNotFixed | RoleNotDeduction
    | AmountNotCanonical | BpsOutOfRange | SecondRemainder

  datatype ReconcileFault = NetNotCanonical | NoIntegerGross | NegativeRemainder | CrossCheckRejected

  datatype Rejection =
    | NoRemainderLine
    | MultipleRemainderLines(count: nat)
    | InvalidLine(fault: LineFault)
    | AggregatePercentOutOfRange(totalBps: int)
    | ReimbursementExceedsSeed(reimbursement: int)
    | BigintOverflow
    | DoesNotReconcile(detail: ReconcileFault)

  datatype Partitioned = Partitioned(
    earning: Line, percentLines: seq<Line>, fixedLines: seq<Line>,
    fixedTotal: int, reimbursement: int, aggregateBps: int, remainder: Line)

  const BPS_DENOMINATOR := 10_000
  const INT64_MAX := 9_223_372_036_854_775_807

  // Guarded arithmetic.

  function MulGuarded(a: int, b: int): Result<int, Rejection> {
    if a * b > INT64_MAX then Err(BigintOverflow) else Ok(a * b)
  }

  function AddGuarded(a: int, b: int): Result<int, Rejection> {
    if a + b > INT64_MAX then Err(BigintOverflow) else Ok(a + b)
  }

  function PercentHalfUp(gross: int, bps: int): Result<int, Rejection> {
    var product :- MulGuarded(gross, bps);
    var shifted :- AddGuarded(product, 5_000);
    Ok(shifted / BPS_DENOMINATOR)
  }

  function CeilDiv(a: int, b: int): int
    requires b > 0
  {
    (a + b - 1) / b
  }

  // The classes of template line.

  predicate TakesRemainder(l: Line) {
    l.amountKind == Remainder && l.role == NetDeposit
  }

  predicate IsEarning(l: Line) {
    l.role == Earning
  }

  predicate IsMiddle(l: Line) {
    !IsEarning(l) && !TakesRemainder(l)
  }

  predicate IsReimbursement(l: Line) {
    IsMiddle(l) && l.kind == Reimbursement
  }

  predicate IsDeduction(l: Line) {
    IsMiddle(l) && l.kind != Reimbursement && l.role in {Tax, PretaxTransfer, PosttaxDeduction}
  }

  predicate IsPercent(l: Line) {
    IsDeduction(l) && l.amountKind == PercentOfGrossBps
  }

  predicate IsFixed(l: Line) {
    IsDeduction(l) && l.amountKind == FixedMinor
  }

  predicate HasAmount(l: Line) {
    l.amountMinor.Some? && l.amountMinor.value >= 0
  }

  predicate HasBps(l: Line) {
    l.bps.Some? && 0 < l.bps.value < 10_000
  }

  predicate ValidLine(l: Line) {
    IsMiddle(l) ==>
      || (IsReimbursement(l) && l.amountKind == FixedMinor && HasAmount(l))
      || (IsPercent(l) && HasBps(l))
      || (IsFixed(l) && HasAmount(l))
  }

  function Amount(l: Line): int {
    if l.amountMinor.Some? then l.amountMinor.value else 0
  }

  function Bps(l: Line): int {
    if l.bps.Some? then l.bps.value else 0
  }

  function Where(lines: seq<Line>, p: Line -> bool): seq<Line> {
    if lines == [] then []
    else
      var last := lines[|lines| - 1];
      Where(lines[..|lines| - 1], p) + if p(last) then [last] else []
  }

  function Total(lines: seq<Line>, f: Line -> int): int {
    if lines == [] then 0 else Total(lines[..|lines| - 1], f) + f(lines[|lines| - 1])
  }

  lemma {:induction false} WhereExtends(lines: seq<Line>, i: nat, p: Line -> bool)
    requires i < |lines|
    ensures Where(lines[..i + 1], p) == Where(lines[..i], p) + if p(lines[i]) then [lines[i]] else []
  {
    assert lines[..i + 1][..i] == lines[..i];
  }

  lemma {:induction false} InWhere(lines: seq<Line>, p: Line -> bool)
    ensures forall l :: l in Where(lines, p) <==> l in lines && p(l)
  {
    if lines != [] {
      InWhere(lines[..|lines| - 1], p);
      assert lines == lines[..|lines| - 1] + [lines[|lines| - 1]];
    }
  }

  lemma ClassMembers(lines: seq<Line>, p: Line -> bool, members: seq<Line>)
    requires members == Where(lines, p)
    ensures forall i :: 0 <= i < |members| ==> p(members[i]) && members[i] in lines
  {
    InWhere(lines, p);
    forall i | 0 <= i < |members| ensures p(members[i]) && members[i] in lines {
      assert members[i] in members;
    }
  }

  lemma {:induction false} TotalNonNegative(lines: seq<Line>, f: Line -> int)
    requires forall l :: l in lines ==> f(l) >= 0
    ensures Total(lines, f) >= 0
  {
    if lines != [] {
      TotalNonNegative(lines[..|lines| - 1], f);
    }
  }

  /** A sum over the lines of one class only grows as more of them are read. */
  lemma {:induction false} PrefixTotal(lines: seq<Line>, i: nat, p: Line -> bool, f: Line -> int)
    requires i <= |lines|
    requires forall l :: l in lines && p(l) ==> f(l) >= 0
    ensures 0 <= Total(Where(lines[..i], p), f) <= Total(Where(lines, p), f)
    decreases |lines| - i
  {
    InWhere(lines[..i], p);
    TotalNonNegative(Where(lines[..i], p), f);
    if i == |lines| {
      assert lines[..i] == lines;
    } else {
      PrefixTotal(lines, i + 1, p, f);
      WhereExtends(lines, i, p);
      TotalExtends(lines, i, p, f);
    }
  }

  lemma {:induction false} TotalExtends(lines: seq<Line>, i: nat, p: Line -> bool, f: Line -> int)
    requires i < |lines|
    ensures Total(Where(lines[..i + 1], p), f) ==
      Total(Where(lines[..i], p), f) + if p(lines[i]) then f(lines[i]) else 0
  {
    WhereExtends(lines, i, p);
    var before := Where(lines[..i], p);
    if p(lines[i]) {
      assert (before + [lines[i]])[..|before|] == before;
    } else {
      assert before + [] == before;
    }
  }

  /** What is wrong with a line that is neither valid nor one of the two derived ones. */
  function FaultOf(l: Line): LineFault
    requires !ValidLine(l)
  {
    if l.kind == Reimbursement then
      if l.amountKind == FixedMinor then AmountNotCanonical else ReimbursementNotFixed
    else if !IsDeduction(l) then RoleNotDeduction
    else
      match l.amountKind
      case PercentOfGrossBps => BpsOutOfRange
      case FixedMinor => AmountNotCanonical
      case Remainder => SecondRemainder
  }

  // Partitioning a template.

  function ReimbursementTotal(lines: seq<Line>): int {
    Total(Where(lines, IsReimbursement), Amount)
  }

  function FixedTotal(lines: seq<Line>): int {
    Total(Where(lines, IsFixed), Amount)
  }

  function BpsTotal(lines: seq<Line>): int {
    Total(Where(lines, IsPercent), Bps)
  }

  predicate WithinInt64(lines: seq<Line>) {
    ReimbursementTotal(lines) <= INT64_MAX && FixedTotal(lines) <= INT64_MAX && BpsTotal(lines) <= INT64_MAX
  }

  ghost predicate ShapedLines(lines: seq<Line>) {
    && |Where(lines, TakesRemainder)| == 1
    && |Where(lines, IsEarning)| == 1
    && Where(lines, IsEarning)[0].amountKind == Remainder
    && forall l :: l in lines ==> ValidLine(l)
  }

  /** The scan stops at the first line that is invalid or carries a total beyond int64, and says which. */
  ghost predicate StopsAt(lines: seq<Line>, i: nat, error: Rejection)
    requires i < |lines|
  {
    && (forall k :: 0 <= k < i ==> ValidLine(lines[k])) && WithinInt64(lines[..i])
    && if ValidLine(lines[i]) then error == BigintOverflow && !WithinInt64(lines[..i + 1])
       else error == InvalidLine(FaultOf(lines[i]))
  }

  ghost predicate ScanFails(lines: seq<Line>, error: Rejection) {
    exists i: nat :: i < |lines| && StopsAt(lines, i, error)
  }

  /** The one rejection of a template that cannot be partitioned. */
  ghost predicate IsRejection(lines: seq<Line>, error: Rejection) {
    if |Where(lines, TakesRemainder)| == 0 then error == NoRemainderLine
    else if |Where(lines, TakesRemainder)| > 1 then error == MultipleRemainderLines(|Where(lines, TakesRemainder)|)
    else if |Where(lines, IsEarning)| != 1 then error == InvalidLine(EarningCount)
    else if Where(lines, IsEarning)[0].amountKind != Remainder then error == InvalidLine(EarningNotDerived)
    else ScanFails(lines, error) || TooMuchPercent(lines, error)
  }

  ghost predicate TooMuchPercent(lines: seq<Line>, error: Rejection) {
    && ShapedLines(lines) && WithinInt64(lines) && BpsTotal(lines) >= BPS_DENOMINATOR
    && error == AggregatePercentOutOfRange(BpsTotal(lines))
  }

  function PartitionFor(lines: seq<Line>): Partitioned
    requires |Where(lines, IsEarning)| == 1 && |Where(lines, TakesRemainder)| == 1
  {
    Partitioned(
      Where(lines, IsEarning)[0], Where(lines, IsPercent), Where(lines, IsFixed),
      FixedTotal(lines), ReimbursementTotal(lines), BpsTotal(lines), Where(lines, TakesRemainder)[0])
  }

  method Partition(lines: seq<Line>) returns (r: Result<Partitioned, Rejection>)
    ensures r.Ok? <==> ShapedLines(lines) && WithinInt64(lines) && BpsTotal(lines) < BPS_DENOMINATOR
    ensures r.Ok? ==> r.value == PartitionFor(lines)
    ensures r.Err? ==> IsRejection(lines, r.error)
    ensures r == Err(NoRemainderLine) <==> |Where(lines, TakesRemainder)| == 0
    ensures |Where(lines, TakesRemainder)| > 1 <==> r == Err(MultipleRemainderLines(|Where(lines, TakesRemainder)|))
    ensures ShapedLines(lines) ==>
      && (r == Err(BigintOverflow) <==> !WithinInt64(lines))
      && (r == Err(AggregatePercentOutOfRange(BpsTotal(lines))) <==>
          WithinInt64(lines) && BpsTotal(lines) >= BPS_DENOMINATOR)
    ensures r.Err? ==> !r.error.DoesNotReconcile? && !r.error.ReimbursementExceedsSeed?
    ensures r.Ok? <==> Proper(lines) && WithinBounds(lines)
    ensures r.Ok? ==> SplitAs(lines, r.value)
    ensures r.Err? ==> Objects(lines, r.error)
  {
    ProperIsShaped(lines);
    RejectionObjects(lines);
    PartitionSplits(lines);
    hide Proper, WithinBounds, SplitAs, Objects;
    var remainderLines := Where(lines, TakesRemainder);
    if |remainderLines| == 0 {
      return Err(NoRemainderLine);
    }
    if |remainderLines| > 1 {
      return Err(MultipleRemainderLines(|remainderLines|));
    }
    var remainder := remainderLines[0];
    var earningLines := Where(lines, IsEarning);
    if |earningLines| != 1 {
      return Err(InvalidLine(EarningCount));
    }
    var earning := earningLines[0];
    if earning.amountKind != Remainder {
      return Err(InvalidLine(EarningNotDerived));
    }
    InWhere(lines, TakesRemainder);
    InWhere(lines, IsEarning);

    var scanned := ScanLines(lines, earning, remainder);
    if scanned.Err? {
      return Err(scanned.error);
    }
    var p := scanned.value;
    if p.aggregateBps >= BPS_DENOMINATOR {
      return Err(AggregatePercentOutOfRange(p.aggregateBps));
    }
    return Ok(p);
  }

  ghost predicate Scanned(lines: seq<Line>, p: Partitioned) {
    && p.percentLines == Where(lines, IsPercent)
    && p.fixedLines == Where(lines, IsFixed)
    && p.fixedTotal == FixedTotal(lines)
    && p.reimbursement == ReimbursementTotal(lines)
    && p.aggregateBps == BpsTotal(lines)
    && WithinInt64(lines)
    && forall l :: l in lines ==> ValidLine(l)
  }

  // What one line other than the earning and the remainder adds to the partition.
  function ReadLine(p: Partitioned, line: Line): Result<Partitioned, Rejection> {
    if line.kind == Reimbursement then
      if line.amountKind != FixedMinor then Err(InvalidLine(ReimbursementNotFixed))
      else if !HasAmount(line) then Err(InvalidLine(AmountNotCanonical))
      else
        var reimbursement :- AddGuarded(p.reimbursement, Amount(line));
        Ok(p.(reimbursement := reimbursement))
    else if line.role !in {Tax, PretaxTransfer, PosttaxDeduction} then Err(InvalidLine(RoleNotDeduction))
    else if line.amountKind == PercentOfGrossBps then
      if !HasBps(line) then Err(InvalidLine(BpsOutOfRange))
      else
        var aggregateBps :- AddGuarded(p.aggregateBps, Bps(line));
        Ok(p.(aggregateBps := aggregateBps, percentLines := p.percentLines + [line]))
    else if line.amountKind == FixedMinor then
      if !HasAmount(line) then Err(InvalidLine(AmountNotCanonical))
      else
        var fixedTotal :- AddGuarded(p.fixedTotal, Amount(line));
        Ok(p.(fixedTotal := fixedTotal, fixedLines := p.fixedLines + [line]))
    else Err(InvalidLine(SecondRemainder))
  }

  method ScanLines(lines: seq<Line>, earning: Line, remainder: Line) returns (r: Result<Partitioned, Rejection>)
    requires Where(lines, IsEarning) == [earning] && Where(lines, TakesRemainder) == [remainder]
    ensures r.Ok? <==> (forall l :: l in lines ==> ValidLine(l)) && WithinInt64(lines)
    ensures r.Ok? ==> r.value.earning == earning && r.value.remainder == remainder && Scanned(lines, r.value)
    ensures r.Err? ==> r.error.InvalidLine? || r.error.BigintOverflow?
    ensures r.Err? && r.error.InvalidLine? ==> exists l :: l in lines && !ValidLine(l)
    ensures r.Err? ==> ScanFails(lines, r.error)
    ensures r.Ok? <==> ProperUpTo(lines, |lines|) && TotalsFit(lines)
    ensures r.Err? ==> StoppedBy(lines, r.error)
  {
    hide ProperUpTo, TotalsFit, StoppedBy, Scanned, Where, WithinInt64, ValidLine, ReadLine, FaultOf, IsMiddle;
    var p := Partitioned(earning, [], [], 0, 0, 0, remainder);
    NothingScanned(p);
    InWhere(lines, IsEarning);
    InWhere(lines, TakesRemainder);
    for i := 0 to |lines|
      invariant p.earning == earning && p.remainder == remainder
      invariant Scanned(lines[..i], p)
      invariant forall k :: 0 <= k < i ==> ValidLine(lines[k])
    {
      var line := lines[i];
      assert line in lines;
      if line == earning || line == remainder {
        DerivedLine(lines, line, earning, remainder);
        SkippedLine(lines, i, p);
        continue;
      }
      OnlyMiddleLeft(lines, i, earning, remainder);
      ReadLineScans(lines, i, p);
      OverflowIsFinal(lines, i);
      var read := ReadLine(p, line);
      if read.Err? {
        ScannedAll(lines[..i], p);
        assert StopsAt(lines, i, read.error);
        ScanLineByLine(lines);
        return Err(read.error);
      }
      p := read.value;
    }
    assert lines[..|lines|] == lines;
    ScannedAll(lines, p);
    ScanLineByLine(lines);
    return Ok(p);
  }

  lemma NothingScanned(p: Partitioned)
    requires p == Partitioned(p.earning, [], [], 0, 0, 0, p.remainder)
    ensures Scanned([], p)
  {
  }

  lemma ScannedAll(lines: seq<Line>, p: Partitioned)
    requires Scanned(lines, p)
    ensures (forall l :: l in lines ==> ValidLine(l)) && WithinInt64(lines)
  {
  }

  lemma DerivedLine(lines: seq<Line>, line: Line, earning: Line, remainder: Line)
    requires Where(lines, IsEarning) == [earning] && Where(lines, TakesRemainder) == [remainder]
    requires line == earning || line == remainder
    ensures !IsMiddle(line) && ValidLine(line)
  {
    InWhere(lines, IsEarning);
    InWhere(lines, TakesRemainder);
    assert earning in [earning] && remainder in [remainder];
  }

  lemma SkippedLine(lines: seq<Line>, i: nat, p: Partitioned)
    requires i < |lines| && Scanned(lines[..i], p) && !IsMiddle(lines[i])
    ensures Scanned(lines[..i + 1], p)
  {
    ScanExtends(lines, i);
  }

  // The partition with one more line, before any guard.
  function Extended(p: Partitioned, line: Line): Partitioned {
    p.(percentLines := p.percentLines + (if IsPercent(line) then [line] else []),
       fixedLines := p.fixedLines + (if IsFixed(line) then [line] else []),
       fixedTotal := p.fixedTotal + (if IsFixed(line) then Amount(line) else 0),
       reimbursement := p.reimbursement + (if IsReimbursement(line) then Amount(line) else 0),
       aggregateBps := p.aggregateBps + (if IsPercent(line) then Bps(line) else 0))
  }

  predicate GuardsHold(p: Partitioned) {
    p.reimbursement <= INT64_MAX && p.fixedTotal <= INT64_MAX && p.aggregateBps <= INT64_MAX
  }

  lemma ReadLineExtends(p: Partitioned, line: Line)
    requires IsMiddle(line) && GuardsHold(p)
    ensures var r := ReadLine(p, line);
      && (r.Ok? <==> ValidLine(line) && GuardsHold(Extended(p, line)))
      && (r.Ok? ==> r.value == Extended(p, line))
      && (r.Err? ==> r.error == if ValidLine(line) then BigintOverflow else InvalidLine(FaultOf(line)))
  {
    assert p.percentLines + [] == p.percentLines && p.fixedLines + [] == p.fixedLines;
  }

  lemma ReadLineScans(lines: seq<Line>, i: nat, p: Partitioned)
    requires i < |lines| && Scanned(lines[..i], p) && IsMiddle(lines[i])
    ensures var r := ReadLine(p, lines[i]);
      if r.Ok? then Scanned(lines[..i + 1], r.value) && r.value.earning == p.earning && r.value.remainder == p.remainder
      else if ValidLine(lines[i]) then r.error == BigintOverflow && !WithinInt64(lines[..i + 1])
      else r.error == InvalidLine(FaultOf(lines[i]))
    ensures ReadLine(p, lines[i]).Ok? ==> ValidLine(lines[i])
  {
    ReadLineExtends(p, lines[i]);
    ScanExtends(lines, i);
  }

  lemma ScanExtends(lines: seq<Line>, i: nat)
    requires i < |lines|
    ensures Where(lines[..i + 1], IsPercent) ==
      Where(lines[..i], IsPercent) + if IsPercent(lines[i]) then [lines[i]] else []
    ensures Where(lines[..i + 1], IsFixed) == Where(lines[..i], IsFixed) + if IsFixed(lines[i]) then [lines[i]] else []
    ensures FixedTotal(lines[..i + 1]) == FixedTotal(lines[..i]) + if IsFixed(lines[i]) then Amount(lines[i]) else 0
    ensures BpsTotal(lines[..i + 1]) == BpsTotal(lines[..i]) + if IsPercent(lines[i]) then Bps(lines[i]) else 0
    ensures ReimbursementTotal(lines[..i + 1]) ==
      ReimbursementTotal(lines[..i]) + if IsReimbursement(lines[i]) then Amount(lines[i]) else 0
    ensures forall l :: l in lines[..i + 1] <==> l in lines[..i] || l == lines[i]
  {
    assert lines[..i + 1] == lines[..i] + [lines[i]];
    assert BpsTotal(lines[..i + 1]) == BpsTotal(lines[..i]) + if IsPercent(lines[i]) then Bps(lines[i]) else 0 by {
      TotalExtends(lines, i, IsPercent, Bps);
    }
    assert FixedTotal(lines[..i + 1]) == FixedTotal(lines[..i]) + if IsFixed(lines[i]) then Amount(lines[i]) else 0 by {
      TotalExtends(lines, i, IsFixed, Amount);
    }
    assert ReimbursementTotal(lines[..i + 1]) ==
      ReimbursementTotal(lines[..i]) + if IsReimbursement(lines[i]) then Amount(lines[i]) else 0
    by {
      TotalExtends(lines, i, IsReimbursement, Amount);
    }
    WhereExtends(lines, i, IsPercent);
    WhereExtends(lines, i, IsFixed);
  }

  // The earning and the remainder line are each the only one of their class.
  lemma OnlyMiddleLeft(lines: seq<Line>, i: nat, earning: Line, remainder: Line)
    requires i < |lines| && lines[i] != earning && lines[i] != remainder
    requires Where(lines, IsEarning) == [earning] && Where(lines, TakesRemainder) == [remainder]
    ensures IsMiddle(lines[i])
  {
    InWhere(lines, IsEarning);
    InWhere(lines, TakesRemainder);
    assert lines[i] in lines;
    assert lines[i] !in [earning] && lines[i] !in [remainder];
  }

  lemma OverflowIsFinal(lines: seq<Line>, i: nat)
    requires i < |lines|
    ensures (forall l :: l in lines ==> ValidLine(l)) && WithinInt64(lines) ==> WithinInt64(lines[..i + 1])
  {
    if forall l :: l in lines ==> ValidLine(l) {
      PrefixTotal(lines, i + 1, IsReimbursement, Amount);
      PrefixTotal(lines, i + 1, IsFixed, Amount);
      PrefixTotal(lines, i + 1, IsPercent, Bps);
    }
  }

  lemma StopsOnce(lines: seq<Line>, i: nat, j: nat, error: Rejection, other: Rejection)
    requires i < j < |lines| && StopsAt(lines, i, error)
    ensures !StopsAt(lines, j, other)
  {
    var prefix := lines[..j];
    assert prefix[..i + 1] == lines[..i + 1];
    assert lines[i] in prefix by {
      assert prefix[i] == lines[i];
    }
    OverflowIsFinal(prefix, i);
    if forall k :: 0 <= k < j ==> ValidLine(lines[k]) {
      assert forall l :: l in prefix ==> ValidLine(l);
    }
  }

  /** No template has two rejections. */
  lemma RejectionIsDetermined(lines: seq<Line>, error: Rejection, other: Rejection)
    requires IsRejection(lines, error) && IsRejection(lines, other)
    ensures error == other
  {
    hide Where, StopsAt, TooMuchPercent;
    if ScanFails(lines, error) && ScanFails(lines, other) {
      ScanFailsOneWay(lines, error, other);
    }
    if ScanFails(lines, error) && TooMuchPercent(lines, other) {
      ScanOrPercent(lines, error, other);
    }
    if ScanFails(lines, other) && TooMuchPercent(lines, error) {
      ScanOrPercent(lines, other, error);
    }
    SamePercent(lines, error, other);
  }

  lemma SamePercent(lines: seq<Line>, error: Rejection, other: Rejection)
    ensures TooMuchPercent(lines, error) && TooMuchPercent(lines, other) ==> error == other
  {
  }

  lemma ScanFailsOneWay(lines: seq<Line>, error: Rejection, other: Rejection)
    requires ScanFails(lines, error) && ScanFails(lines, other)
    ensures error == other
  {
    var i: nat :| i < |lines| && StopsAt(lines, i, error);
    var j: nat :| j < |lines| && StopsAt(lines, j, other);
    if i < j {
      StopsOnce(lines, i, j, error, other);
    } else if j < i {
      StopsOnce(lines, j, i, other, error);
    }
  }

  lemma ScanOrPercent(lines: seq<Line>, error: Rejection, other: Rejection)
    requires ScanFails(lines, error)
    ensures !TooMuchPercent(lines, other)
  {
    var i: nat :| i < |lines| && StopsAt(lines, i, error);
    assert lines[i] in lines;
    OverflowIsFinal(lines, i);
  }

  // The same rules told line by line, without the classes.

  predicate EarnsAt(lines: seq<Line>, i: int) {
    0 <= i < |lines| && lines[i].role == Earning
  }

  predicate DepositsAt(lines: seq<Line>, i: int) {
    0 <= i < |lines| && lines[i].role == NetDeposit && lines[i].amountKind == Remainder
  }

  predicate HasNonNegative(amount: Option<int>) {
    amount.Some? && amount.value >= 0
  }

  /** A reimbursement of a fixed amount. */
  predicate Reimburses(l: Line) {
    && l.role != Earning && !(l.role == NetDeposit && l.amountKind == Remainder)
    && l.kind == Reimbursement && l.amountKind == FixedMinor && HasNonNegative(l.amountMinor)
  }

  predicate Deducts(l: Line) {
    (l.role == Tax || l.role == PretaxTransfer || l.role == PosttaxDeduction) && l.kind != Reimbursement
  }

  /** A deduction of a fixed amount. */
  predicate DeductsFixed(l: Line) {
    Deducts(l) && l.amountKind == FixedMinor && HasNonNegative(l.amountMinor)
  }

  /** A deduction of more than nothing and less than all of the gross. */
  predicate DeductsPercent(l: Line) {
    Deducts(l) && l.amountKind == PercentOfGrossBps && l.bps.Some? && 1 <= l.bps.value <= 9_999
  }

  predicate ProperLine(l: Line) {
    || l.role == Earning
    || (l.role == NetDeposit && l.amountKind == Remainder)
    || Reimburses(l) || DeductsFixed(l) || DeductsPercent(l)
  }

  /** One earning with the derived amount, one deposit of the remainder, and every other line proper. */
  ghost predicate Proper(lines: seq<Line>) {
    && (exists e, d :: EarnsAt(lines, e) && lines[e].amountKind == Remainder && DepositsAt(lines, d)
         && (forall i :: EarnsAt(lines, i) ==> i == e) && (forall i :: DepositsAt(lines, i) ==> i == d))
    && forall i :: 0 <= i < |lines| ==> ProperLine(lines[i])
  }

  /** The amounts, and the basis points, of the lines that meet a condition. */
  function SumWhere(lines: seq<Line>, p: Line -> bool, f: Line -> int): int {
    if lines == [] then 0 else (if p(lines[0]) then f(lines[0]) else 0) + SumWhere(lines[1..], p, f)
  }

  function AmountIfAny(l: Line): int {
    match l.amountMinor
    case Some(amount) => amount
    case None => 0
  }

  function BpsIfAny(l: Line): int {
    match l.bps
    case Some(bps) => bps
    case None => 0
  }

  /** Percentages below 100%, and totals of at most 2^63 − 1. */
  predicate WithinBounds(lines: seq<Line>) {
    && SumWhere(lines, DeductsPercent, BpsIfAny) < 10_000
    && SumWhere(lines, DeductsFixed, AmountIfAny) <= 9_223_372_036_854_775_807
    && SumWhere(lines, Reimburses, AmountIfAny) <= 9_223_372_036_854_775_807
  }

  function Keep(lines: seq<Line>, p: Line -> bool): seq<Line> {
    if lines == [] then [] else (if p(lines[0]) then [lines[0]] else []) + Keep(lines[1..], p)
  }

  /** The partition by its fields. */
  ghost predicate SplitAs(lines: seq<Line>, p: Partitioned) {
    && p.earning in lines && p.earning.role == Earning
    && p.remainder in lines && p.remainder.role == NetDeposit && p.remainder.amountKind == Remainder
    && p.percentLines == Keep(lines, DeductsPercent) && p.fixedLines == Keep(lines, DeductsFixed)
    && p.aggregateBps == SumWhere(lines, DeductsPercent, BpsIfAny)
    && p.fixedTotal == SumWhere(lines, DeductsFixed, AmountIfAny)
    && p.reimbursement == SumWhere(lines, Reimburses, AmountIfAny)
  }

  /** What is wrong with a line other than the earning and the deposit. */
  predicate Faulty(l: Line, fault: LineFault) {
    && l.role != Earning && !(l.role == NetDeposit && l.amountKind == Remainder)
    && match fault
       case ReimbursementNotFixed => l.kind == Reimbursement && l.amountKind != FixedMinor
       case AmountNotCanonical =>
         (l.kind == Reimbursement || Deducts(l)) && l.amountKind == FixedMinor && !HasNonNegative(l.amountMinor)
       case RoleNotDeduction => l.kind != Reimbursement && l.role == NetDeposit
       case BpsOutOfRange =>
         Deducts(l) && l.amountKind == PercentOfGrossBps
         && (l.bps.None? || l.bps.value <= 0 || l.bps.value >= 10_000)
       case SecondRemainder => Deducts(l) && l.amountKind == Remainder
       case EarningCount => false
       case EarningNotDerived => false
  }

  ghost predicate OneDeposit(lines: seq<Line>) {
    exists d :: DepositsAt(lines, d) && forall i :: DepositsAt(lines, i) ==> i == d
  }

  ghost predicate OneEarning(lines: seq<Line>) {
    exists e :: EarnsAt(lines, e) && forall i :: EarnsAt(lines, i) ==> i == e
  }

  ghost predicate ProperUpTo(lines: seq<Line>, i: int) {
    forall k :: 0 <= k < i && k < |lines| ==> ProperLine(lines[k])
  }

  predicate TotalsFit(lines: seq<Line>) {
    && SumWhere(lines, DeductsPercent, BpsIfAny) <= 9_223_372_036_854_775_807
    && SumWhere(lines, DeductsFixed, AmountIfAny) <= 9_223_372_036_854_775_807
    && SumWhere(lines, Reimburses, AmountIfAny) <= 9_223_372_036_854_775_807
  }

  ghost predicate StoppedBy(lines: seq<Line>, error: Rejection) {
    || (exists i, fault :: error == InvalidLine(fault) && FaultAt(lines, i, fault))
    || (error == BigintOverflow && exists i :: OverflowsAt(lines, i))
  }

  /** What a rejection says of the template. */
  ghost predicate Objects(lines: seq<Line>, error: Rejection) {
    match error
    case NoRemainderLine => forall i :: !DepositsAt(lines, i)
    case MultipleRemainderLines(count) =>
      count > 1 && count == |set i | 0 <= i < |lines| && DepositsAt(lines, i)|
    case InvalidLine(EarningCount) => OneDeposit(lines) && !OneEarning(lines)
    case InvalidLine(EarningNotDerived) =>
      OneDeposit(lines) && OneEarning(lines) && exists e :: EarnsAt(lines, e) && lines[e].amountKind != Remainder
    case InvalidLine(fault) =>
      OneDeposit(lines) && OneEarning(lines) && exists i :: FaultAt(lines, i, fault)
    case BigintOverflow =>
      OneDeposit(lines) && OneEarning(lines) && exists i :: OverflowsAt(lines, i)
    case AggregatePercentOutOfRange(total) =>
      Proper(lines) && total == SumWhere(lines, DeductsPercent, BpsIfAny) && total >= 10_000
    case ReimbursementExceedsSeed(_) => false
    case DoesNotReconcile(_) => false
  }

  /** The first line in the way is faulty. */
  ghost predicate FaultAt(lines: seq<Line>, i: int, fault: LineFault) {
    0 <= i < |lines| && Faulty(lines[i], fault) && ProperUpTo(lines, i) && TotalsFit(lines[..i])
  }

  /** The first line in the way is proper, but takes a total beyond 2^63 - 1. */
  ghost predicate OverflowsAt(lines: seq<Line>, i: int) {
    0 <= i < |lines| && ProperUpTo(lines, i + 1) && TotalsFit(lines[..i]) && !TotalsFit(lines[..i + 1])
  }

  lemma LineByLine(l: Line)
    ensures ProperLine(l) <==> ValidLine(l)
    ensures ProperLine(l) ==>
      && (Reimburses(l) <==> IsReimbursement(l)) && (DeductsFixed(l) <==> IsFixed(l))
      && (DeductsPercent(l) <==> IsPercent(l))
    ensures AmountIfAny(l) == Amount(l) && BpsIfAny(l) == Bps(l)
    ensures !ProperLine(l) ==> Faulty(l, FaultOf(l))
  {
  }

  /** No line has two faults, and no proper line has one. */
  lemma FaultsExclude(l: Line, a: LineFault, b: LineFault)
    requires Faulty(l, a)
    ensures !ProperLine(l) && (Faulty(l, b) ==> a == b)
  {
  }

  lemma {:induction false} WhereKeeps(lines: seq<Line>, p: Line -> bool, q: Line -> bool)
    requires forall l :: l in lines ==> (p(l) <==> q(l))
    ensures Where(lines, q) == Keep(lines, p)
  {
    if lines != [] {
      var init, last := lines[..|lines| - 1], lines[|lines| - 1];
      WhereKeeps(init, p, q);
      KeepLast(init, last, p);
      assert lines == init + [last];
    }
  }

  lemma {:induction false} KeepLast(init: seq<Line>, last: Line, p: Line -> bool)
    ensures Keep(init + [last], p) == Keep(init, p) + if p(last) then [last] else []
  {
    if init != [] {
      KeepLast(init[1..], last, p);
      assert (init + [last])[1..] == init[1..] + [last];
    }
  }

  lemma {:induction false} WhereSums(lines: seq<Line>, p: Line -> bool, q: Line -> bool, f: Line -> int, g: Line -> int)
    requires forall l :: l in lines ==> (p(l) <==> q(l)) && f(l) == g(l)
    ensures Total(Where(lines, q), g) == SumWhere(lines, p, f)
  {
    if lines != [] {
      var init, last := lines[..|lines| - 1], lines[|lines| - 1];
      WhereSums(init, p, q, f, g);
      SumLast(init, last, p, f);
      assert lines == init + [last];
      assert lines[..|lines|] == lines;
      TotalExtends(lines, |lines| - 1, q, g);
    }
  }

  lemma {:induction false} SumLast(init: seq<Line>, last: Line, p: Line -> bool, f: Line -> int)
    ensures SumWhere(init + [last], p, f) == SumWhere(init, p, f) + if p(last) then f(last) else 0
  {
    if init != [] {
      SumLast(init[1..], last, p, f);
      assert (init + [last])[1..] == init[1..] + [last];
    }
  }

  lemma TotalsLineByLine(lines: seq<Line>)
    requires forall l :: l in lines ==> ValidLine(l)
    ensures Where(lines, IsPercent) == Keep(lines, DeductsPercent)
    ensures Where(lines, IsFixed) == Keep(lines, DeductsFixed)
    ensures BpsTotal(lines) == SumWhere(lines, DeductsPercent, BpsIfAny)
    ensures FixedTotal(lines) == SumWhere(lines, DeductsFixed, AmountIfAny)
    ensures ReimbursementTotal(lines) == SumWhere(lines, Reimburses, AmountIfAny)
  {
    forall l | l in lines
      ensures && (Reimburses(l) <==> IsReimbursement(l)) && (DeductsFixed(l) <==> IsFixed(l))
              && (DeductsPercent(l) <==> IsPercent(l))
              && AmountIfAny(l) == Amount(l) && BpsIfAny(l) == Bps(l)
    {
      LineByLine(l);
    }
    hide IsReimbursement, IsFixed, IsPercent, Amount, Bps, Reimburses, DeductsFixed, DeductsPercent, AmountIfAny,
      BpsIfAny;
    WhereKeeps(lines, DeductsPercent, IsPercent);
    WhereKeeps(lines, DeductsFixed, IsFixed);
    WhereSums(lines, DeductsPercent, IsPercent, BpsIfAny, Bps);
    WhereSums(lines, DeductsFixed, IsFixed, AmountIfAny, Amount);
    WhereSums(lines, Reimburses, IsReimbursement, AmountIfAny, Amount);
  }

  function PlacesOf(lines: seq<Line>, p: Line -> bool): set<int> {
    set i | 0 <= i < |lines| && p(lines[i])
  }

  lemma {:induction false} WhereCount(lines: seq<Line>, p: Line -> bool)
    ensures |Where(lines, p)| == |PlacesOf(lines, p)|
  {
    if lines == [] {
      assert PlacesOf(lines, p) == {};
    } else {
      var n := |lines| - 1;
      WhereCount(lines[..n], p);
      assert PlacesOf(lines, p) == PlacesOf(lines[..n], p) + if p(lines[n]) then {n} else {};
    }
  }

  /** One line of a class is one place. */
  lemma OnePlace(lines: seq<Line>, p: Line -> bool)
    ensures |Where(lines, p)| == 1 <==>
      exists e :: e in PlacesOf(lines, p) && forall i :: i in PlacesOf(lines, p) ==> i == e
    ensures |Where(lines, p)| == 1 ==> forall e :: e in PlacesOf(lines, p) ==> Where(lines, p) == [lines[e]]
  {
    hide Where, PlacesOf;
    WhereCount(lines, p);
    var places := PlacesOf(lines, p);
    if |places| == 1 {
      var e := Singleton(places);
    }
    if e :| e in places && forall i :: i in places ==> i == e {
      assert places == {e};
    }
    if |Where(lines, p)| == 1 {
      WhereIsPlace(lines, p);
    }
  }

  lemma Singleton<T>(s: set<T>) returns (e: T)
    requires |s| == 1
    ensures e in s && forall i :: i in s ==> i == e
  {
    e :| e in s;
    assert |s - {e}| == 0;
    assert forall i :: i in s && i != e ==> i in s - {e};
  }

  lemma WhereIsPlace(lines: seq<Line>, p: Line -> bool)
    requires |Where(lines, p)| == 1
    ensures forall e :: e in PlacesOf(lines, p) ==> Where(lines, p) == [lines[e]]
  {
    hide Where;
    InWhere(lines, p);
    forall e | e in PlacesOf(lines, p) ensures Where(lines, p) == [lines[e]] {
      assert lines[e] in Where(lines, p);
    }
  }

  lemma PlacesAre(lines: seq<Line>)
    ensures forall i :: i in PlacesOf(lines, IsEarning) <==> EarnsAt(lines, i)
    ensures forall i :: i in PlacesOf(lines, TakesRemainder) <==> DepositsAt(lines, i)
  {
  }

  lemma CountsOfClasses(lines: seq<Line>)
    ensures |Where(lines, TakesRemainder)| == 1 <==> OneDeposit(lines)
    ensures |Where(lines, IsEarning)| == 1 <==> OneEarning(lines)
    ensures |Where(lines, TakesRemainder)| == |set i | 0 <= i < |lines| && DepositsAt(lines, i)|
    ensures |Where(lines, IsEarning)| == 1 ==> forall e :: EarnsAt(lines, e) ==> Where(lines, IsEarning) == [lines[e]]
    ensures |Where(lines, TakesRemainder)| == 1 ==>
      forall d :: DepositsAt(lines, d) ==> Where(lines, TakesRemainder) == [lines[d]]
  {
    hide Where, IsEarning, TakesRemainder, EarnsAt, DepositsAt, PlacesOf;
    PlacesAre(lines);
    OnePlace(lines, IsEarning);
    OnePlace(lines, TakesRemainder);
    WhereCount(lines, TakesRemainder);
    DepositPlaces(lines);
  }

  lemma DepositPlaces(lines: seq<Line>)
    ensures PlacesOf(lines, TakesRemainder) == set i | 0 <= i < |lines| && DepositsAt(lines, i)
  {
  }

  lemma ProperIsShaped(lines: seq<Line>)
    ensures Proper(lines) <==> ShapedLines(lines)
    ensures ShapedLines(lines) && BpsTotal(lines) < BPS_DENOMINATOR ==> (WithinBounds(lines) <==> WithinInt64(lines))
    ensures ShapedLines(lines) && WithinBounds(lines) ==> WithinInt64(lines) && BpsTotal(lines) < BPS_DENOMINATOR
  {
    hide Where, ProperLine, ValidLine, FixedTotal, BpsTotal, ReimbursementTotal;
    CountsOfClasses(lines);
    AllLineByLine(lines);
    if Proper(lines) {
      var e, d :| EarnsAt(lines, e) && lines[e].amountKind == Remainder && DepositsAt(lines, d)
         && (forall i :: EarnsAt(lines, i) ==> i == e) && (forall i :: DepositsAt(lines, i) ==> i == d);
      assert Where(lines, IsEarning) == [lines[e]];
    }
    if ShapedLines(lines) {
      TotalsLineByLine(lines);
    }
  }

  lemma AllLineByLine(lines: seq<Line>)
    ensures (forall i :: 0 <= i < |lines| ==> ProperLine(lines[i])) <==> forall l :: l in lines ==> ValidLine(l)
  {
    forall i | 0 <= i < |lines| ensures ProperLine(lines[i]) <==> ValidLine(lines[i]) {
      LineByLine(lines[i]);
    }
  }

  lemma PartitionSplits(lines: seq<Line>)
    ensures ShapedLines(lines) ==> SplitAs(lines, PartitionFor(lines))
  {
    if ShapedLines(lines) {
      TotalsLineByLine(lines);
      hide Where;
      InWhere(lines, IsEarning);
      InWhere(lines, TakesRemainder);
      assert Where(lines, IsEarning)[0] in Where(lines, IsEarning);
      assert Where(lines, TakesRemainder)[0] in Where(lines, TakesRemainder);
    }
  }

  lemma RejectionObjects(lines: seq<Line>)
    ensures forall error :: IsRejection(lines, error) ==> Objects(lines, error)
  {
    hide Where, ScanFails, TooMuchPercent, Proper, EarnsAt, DepositsAt, FaultAt, OverflowsAt;
    CountsOfClasses(lines);
    forall error | IsRejection(lines, error) ensures Objects(lines, error) {
      if |Where(lines, TakesRemainder)| == 0 {
        NoDeposit(lines);
      } else if |Where(lines, TakesRemainder)| == 1 && |Where(lines, IsEarning)| == 1 {
        EarningPlace(lines);
        if ScanFails(lines, error) {
          ScanStops(lines, error);
        } else if TooMuchPercent(lines, error) {
          PercentObjects(lines, error);
        }
      }
    }
  }

  lemma NoDeposit(lines: seq<Line>)
    requires |Where(lines, TakesRemainder)| == 0
    ensures forall i :: !DepositsAt(lines, i)
  {
    hide Where, PlacesOf;
    WhereCount(lines, TakesRemainder);
    PlacesAre(lines);
    assert PlacesOf(lines, TakesRemainder) == {};
  }

  lemma EarningPlace(lines: seq<Line>)
    requires |Where(lines, IsEarning)| == 1
    ensures exists e :: EarnsAt(lines, e) && lines[e] == Where(lines, IsEarning)[0]
  {
    hide Where;
    CountsOfClasses(lines);
  }

  lemma ScanLineByLine(lines: seq<Line>)
    ensures (forall l :: l in lines ==> ValidLine(l)) && WithinInt64(lines) <==>
      ProperUpTo(lines, |lines|) && TotalsFit(lines)
    ensures forall error :: ScanFails(lines, error) ==> StoppedBy(lines, error)
  {
    hide Where, ProperLine, ValidLine, FixedTotal, BpsTotal, ReimbursementTotal, ScanFails, StoppedBy;
    AllLineByLine(lines);
    if forall l :: l in lines ==> ValidLine(l) {
      TotalsLineByLine(lines);
    }
    forall error | ScanFails(lines, error) ensures StoppedBy(lines, error) {
      ScanStops(lines, error);
    }
  }

  lemma ScanStops(lines: seq<Line>, error: Rejection)
    requires ScanFails(lines, error)
    ensures StoppedBy(lines, error)
    ensures error.BigintOverflow? || (error.InvalidLine? && error.fault !in {EarningCount, EarningNotDerived})
  {
    hide Where, ProperLine, ValidLine, FixedTotal, BpsTotal, ReimbursementTotal, Faulty;
    var i: nat :| i < |lines| && StopsAt(lines, i, error);
    AllLineByLine(lines[..i]);
    assert forall l :: l in lines[..i] ==> ValidLine(l);
    assert forall k :: 0 <= k < i ==> ProperLine(lines[..i][k]);
    TotalsLineByLine(lines[..i]);
    LineByLine(lines[i]);
    if ValidLine(lines[i]) {
      assert lines[..i + 1] == lines[..i] + [lines[i]];
      TotalsLineByLine(lines[..i + 1]);
      assert OverflowsAt(lines, i);
    } else {
      FaultOfMiddle(lines[i]);
      assert FaultAt(lines, i, FaultOf(lines[i]));
    }
  }

  lemma FaultOfMiddle(l: Line)
    requires !ValidLine(l)
    ensures FaultOf(l) != EarningCount && FaultOf(l) != EarningNotDerived
  {
  }

  lemma PercentObjects(lines: seq<Line>, error: Rejection)
    requires TooMuchPercent(lines, error)
    ensures Objects(lines, error)
  {
    hide Where;
    ProperIsShaped(lines);
    TotalsLineByLine(lines);
  }
}

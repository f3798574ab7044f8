/** Splitting a transaction into legs: by amounts, by basis points, or evenly. */
module Splits {
  import opened Wrappers
  import opened Arithmetic
  import opened Allocation
  import opened Journal

  // The ledger's own splits.

  /** The parts are money of the whole's currency and sum to it: no unit is lost or made up. */
  ghost predicate Divides(parts: seq<Money>, whole: Money) {
    (forall i :: 0 <= i < |parts| ==> parts[i].currency == whole.currency) && Sum(AmountsOf(parts)) == whole.amountMinor
  }

  /**
   * Every division of the parent is accepted and returned, nothing else is; one more part of −delta would
   * mend a refusal.
   */
  method SplitByAmounts(parent: Money, amounts: seq<int>) returns (r: Result<seq<Money>, MoneyError>)
    ensures r.Ok? ==> Divides(r.value, parent) && AmountsOf(r.value) == amounts
    ensures forall parts :: Divides(parts, parent) && AmountsOf(parts) == amounts ==> r == Ok(parts)
    ensures r.Err? ==> r.error.UnbalancedBatch? && r.error.currency == parent.currency && r.error.delta != 0
    ensures r.Err? && r.error.UnbalancedBatch? ==> Divides(Monies(amounts + [-r.error.delta], parent.currency), parent)
  {
    var total := Sum(amounts);
    if total != parent.amountMinor {
      Mended(parent, amounts, total - parent.amountMinor);
      return Err(UnbalancedBatch(parent.currency, total - parent.amountMinor));
    }
    assert AmountsOf(Monies(amounts, parent.currency)) == amounts;
    forall parts: seq<Money> | Divides(parts, parent) && AmountsOf(parts) == amounts
      ensures parts == Monies(amounts, parent.currency)
    {
      forall i | 0 <= i < |parts| ensures parts[i] == Money(amounts[i], parent.currency) {
        assert AmountsOf(parts)[i] == parts[i].amountMinor;
      }
    }
    return Ok(Monies(amounts, parent.currency));
  }

  lemma Mended(parent: Money, amounts: seq<int>, delta: int)
    requires delta == Sum(amounts) - parent.amountMinor
    ensures Divides(Monies(amounts + [-delta], parent.currency), parent)
  {
    var mended := amounts + [-delta];
    assert mended[..|amounts|] == amounts;
    assert AmountsOf(Monies(mended, parent.currency)) == mended;
  }

  method SplitByBasisPoints(parent: Money, bps: seq<int>) returns (r: Result<seq<Money>, MoneyError>)
    ensures r.Ok? <==> Weights(bps) && Sum(bps) == 10_000
    ensures r.Ok? ==> r.value == Monies(Allocated(parent.amountMinor, bps), parent.currency) && Divides(r.value, parent)
  {
    if Sum(bps) != 10_000 {
      return Err(InvalidMoney);
    }
    r := AllocateMoney(parent, bps);
    if r.Ok? {
      SharesSumToTotal(parent.amountMinor, bps);
      assert AmountsOf(r.value) == Allocated(parent.amountMinor, bps);
    }
  }

  // Split legs, as the assistant's tool computes them.

  datatype Mode = Amounts | Percent | Equal

  /** A part names a category or an account; an empty name counts as none. */
  datatype Part = Part(
    categoryId: Option<string>, accountId: Option<string>, amountMinor: Option<int>, basisPoints: Option<int>)

  datatype SplitLeg =
    | CategoryLeg(categoryLedgerAccountId: string, amountMinor: int)
    | AccountLeg(accountId: string, amountMinor: int)

  datatype SplitError =
    | ZeroTransaction | BadPartCount | BadPartName
    | BadAmount | AmountsDoNotAddUp(sum: int, magnitude: int)
    | BadBasisPoints | PercentagesDoNotAddUp | ZeroShare

  predicate Names(id: Option<string>) {
    id.Some? && id.value != ""
  }

  predicate NamesOne(p: Part) {
    Names(p.categoryId) != Names(p.accountId)
  }

  function PartAmounts(parts: seq<Part>): (r: seq<int>)
    ensures |r| == |parts|
    ensures forall i :: 0 <= i < |parts| ==>
      r[i] == if parts[i].amountMinor.Some? then parts[i].amountMinor.value else 0
  {
    seq(|parts|, i requires 0 <= i < |parts| => if parts[i].amountMinor.Some? then parts[i].amountMinor.value else 0)
  }

  function BasisPoints(parts: seq<Part>): (r: seq<int>)
    ensures |r| == |parts|
    ensures forall i :: 0 <= i < |parts| ==>
      r[i] == if parts[i].basisPoints.Some? then parts[i].basisPoints.value else 0
  {
    seq(|parts|, i requires 0 <= i < |parts| => if parts[i].basisPoints.Some? then parts[i].basisPoints.value else 0)
  }

  function Units(n: nat): (r: seq<int>)
    ensures |r| == n && forall i :: 0 <= i < n ==> r[i] == 1
  {
    seq(n, i => 1)
  }

  /** The first objection to the split before any share is known. */
  function Objection(total: int, mode: Mode, parts: seq<Part>): Option<SplitError> {
    if total == 0 then Some(ZeroTransaction)
    else if |parts| < 1 || |parts| > 30 then Some(BadPartCount)
    else if exists i :: 0 <= i < |parts| && !NamesOne(parts[i]) then Some(BadPartName)
    else
      match mode
      case Amounts =>
        if exists i :: 0 <= i < |parts| && PartAmounts(parts)[i] == 0 then Some(BadAmount)
        else if Sum(PartAmounts(parts)) != Abs(total)
        then Some(AmountsDoNotAddUp(Sum(PartAmounts(parts)), Abs(total)))
        else None
      case Percent =>
        if exists i :: 0 <= i < |parts| && BasisPoints(parts)[i] <= 0 then Some(BadBasisPoints)
        else if Sum(BasisPoints(parts)) != 10_000 then Some(PercentagesDoNotAddUp)
        else None
      case Equal => None
  }

  /** What each mode promises: the amounts as given, or the ledger's own allocation. */
  ghost function PromisedShares(total: int, mode: Mode, parts: seq<Part>): (r: seq<int>)
    requires Objection(total, mode, parts).None?
    ensures |r| == |parts|
  {
    match mode
    case Amounts => PartAmounts(parts)
    case Percent => PositiveWeights(BasisPoints(parts)); Shares(Abs(total), BasisPoints(parts))
    case Equal => UnitWeights(|parts|); Shares(Abs(total), Units(|parts|))
  }

  lemma PositiveWeights(bps: seq<int>)
    requires Sum(bps) == 10_000 && forall i :: 0 <= i < |bps| ==> bps[i] > 0
    ensures Weights(bps)
  {
  }

  lemma {:induction false} UnitSum(n: nat)
    ensures Sum(Units(n)) == n
  {
    if n > 0 {
      UnitSum(n - 1);
      assert Units(n)[..n - 1] == Units(n - 1);
    }
  }

  lemma UnitWeights(n: nat)
    requires n > 0
    ensures Weights(Units(n)) && Sum(Units(n)) == n
  {
    UnitSum(n);
  }

  function LegOf(p: Part, amount: int): SplitLeg {
    if Names(p.accountId) then AccountLeg(p.accountId.value, amount)
    else CategoryLeg(if p.categoryId.Some? then p.categoryId.value else "", amount)
  }

  /** Legs carry the opposite sign of the cash amount. */
  function LegSign(total: int): int {
    if total < 0 then 1 else -1
  }

  function Legs(parts: seq<Part>, shares: seq<int>, sign: int): (r: seq<SplitLeg>)
    requires |shares| == |parts|
    ensures |r| == |parts| && forall i :: 0 <= i < |parts| ==> r[i] == LegOf(parts[i], sign * shares[i])
  {
    seq(|parts|, i requires 0 <= i < |parts| => LegOf(parts[i], sign * shares[i]))
  }

  ghost function SplitOutcome(total: int, mode: Mode, parts: seq<Part>): Result<seq<SplitLeg>, SplitError> {
    match Objection(total, mode, parts)
    case Some(error) => Err(error)
    case None =>
      var shares := PromisedShares(total, mode, parts);
      if exists i :: 0 <= i < |parts| && shares[i] == 0 then Err(ZeroShare)
      else Ok(Legs(parts, shares, LegSign(total)))
  }

  method ComputeSplitLegs(total: int, mode: Mode, parts: seq<Part>) returns (r: Result<seq<SplitLeg>, SplitError>)
    ensures r == SplitOutcome(total, mode, parts)
    ensures r.Ok? ==> LegsFollow(total, mode, parts, r.value)
    ensures r.Err? ==> Refuses(total, mode, parts, r.error)
  {
    OutcomeByParts(total, mode, parts);
    hide Sum, LegsFollow, Refuses;
    if total == 0 {
      return Err(ZeroTransaction);
    }
    if |parts| < 1 || |parts| > 30 {
      return Err(BadPartCount);
    }
    if exists i :: 0 <= i < |parts| && !NamesOne(parts[i]) {
      return Err(BadPartName);
    }
    var magnitude := Abs(total);
    var shares: seq<int>;
    match mode {
      case Amounts =>
        shares := PartAmounts(parts);
        if exists i :: 0 <= i < |parts| && shares[i] == 0 {
          return Err(BadAmount);
        }
        var sum := Sum(shares);
        if sum != magnitude {
          return Err(AmountsDoNotAddUp(sum, magnitude));
        }
      case Percent =>
        var bps := BasisPoints(parts);
        if exists i :: 0 <= i < |parts| && bps[i] <= 0 {
          return Err(BadBasisPoints);
        }
        if Sum(bps) != 10_000 {
          return Err(PercentagesDoNotAddUp);
        }
        PositiveWeights(bps);
        shares := PercentShares(magnitude, bps);
      case Equal =>
        shares := EqualShares(magnitude, |parts|);
    }
    if exists i :: 0 <= i < |parts| && shares[i] == 0 {
      return Err(ZeroShare);
    }
    return Ok(Legs(parts, shares, LegSign(total)));
  }

  /** Dividing by ten thousand and handing the remainder out by largest remainder is the ledger's allocation. */
  method PercentShares(magnitude: nat, bps: seq<int>) returns (shares: seq<int>)
    requires Weights(bps) && Sum(bps) == 10_000
    ensures shares == Shares(magnitude, bps)
  {
    hide Sum, Bonus, Preceding, Handed;
    var exact := seq(|bps|, i requires 0 <= i < |bps| => magnitude * bps[i]);
    shares := seq(|exact|, i requires 0 <= i < |exact| => exact[i] / 10_000);
    var rems := seq(|exact|, i requires 0 <= i < |exact| => exact[i] % 10_000);
    assert shares == Bases(magnitude, bps) && rems == Remainders(magnitude, bps);
    var remainder := magnitude - Sum(shares);
    var order := Ranked(rems);
    RankedIsPermutation(rems);
    SpareUnitsBound(magnitude, bps);
    WithRemainderSize(rems);
    NoneHanded(shares, order);
    var k := 0;
    while k < |order| && remainder != 0
      invariant 0 <= k <= |order| && remainder == SpareUnits(magnitude, bps) - k >= 0
      invariant |shares| == |bps| && Handed(Bases(magnitude, bps), order, k, shares)
    {
      HandOne(Bases(magnitude, bps), order, k, shares);
      var i := order[k];
      shares := shares[i := shares[i] + 1];
      remainder := remainder - 1;
      k := k + 1;
    }
    HandedIsShares(magnitude, bps, k, shares);
  }

  lemma NoneHanded(bases: seq<int>, ranked: seq<int>)
    ensures Handed(bases, ranked, 0, bases)
  {
  }

  /** Giving the first parts the remainder is the ledger's allocation with equal weights. */
  method EqualShares(magnitude: nat, n: nat) returns (shares: seq<int>)
    requires n > 0
    ensures Weights(Units(n)) && shares == Shares(magnitude, Units(n))
  {
    var base, remainder := magnitude / n, magnitude % n;
    shares := [];
    UnitWeights(n);
    while |shares| < n
      invariant |shares| <= n
      invariant remainder == if |shares| <= magnitude % n then magnitude % n - |shares| else 0
      invariant forall i :: 0 <= i < |shares| ==> shares[i] == base + if i < magnitude % n then 1 else 0
    {
      var extra := if remainder > 0 then 1 else 0;
      remainder := remainder - extra;
      shares := shares + [base + extra];
    }
    forall i | 0 <= i < n ensures shares[i] == Shares(magnitude, Units(n))[i] {
      EqualShare(magnitude, n, i);
    }
  }

  lemma {:induction false} ConstantSum(s: seq<int>, x: int)
    requires forall i :: 0 <= i < |s| ==> s[i] == x
    ensures Sum(s) == |s| * x
  {
    if s != [] {
      ConstantSum(s[..|s| - 1], x);
      OneMore(x, |s| - 1);
    }
  }

  /** With equal weights the spare units go to the first parts. */
  lemma EqualShare(m: nat, n: nat, i: nat)
    requires i < n && Weights(Units(n))
    ensures Shares(m, Units(n))[i] == m / n + if i < m % n then 1 else 0
  {
    UnitWeights(n);
    var bases, rems := Bases(m, Units(n)), Remainders(m, Units(n));
    assert forall j :: 0 <= j < n ==> bases[j] == m / n && rems[j] == m % n;
    ConstantSum(bases, m / n);
    DivModIdentity(m, n);
    FirstPrecede(rems, i, m % n);
  }

  lemma FirstPrecede(rems: seq<int>, i: nat, x: int)
    requires i < |rems| && forall j :: 0 <= j < |rems| ==> rems[j] == x
    ensures |Preceding(rems, i)| == i
  {
    forall j ensures j in Preceding(rems, i) <==> j in Elements(UpTo(i)) {
      assert 0 <= j < i ==> UpTo(i)[j] == j;
    }
    assert Preceding(rems, i) == Elements(UpTo(i));
    DistinctSize(UpTo(i));
  }

  // What successful legs are.

  function LegAmounts(legs: seq<SplitLeg>): (r: seq<int>)
    ensures |r| == |legs| && forall i :: 0 <= i < |legs| ==> r[i] == legs[i].amountMinor
  {
    seq(|legs|, i requires 0 <= i < |legs| => legs[i].amountMinor)
  }

  lemma SharesAddUp(total: int, mode: Mode, parts: seq<Part>)
    requires Objection(total, mode, parts).None?
    ensures Sum(PromisedShares(total, mode, parts)) == Abs(total)
  {
    if mode != Amounts {
      var ws := if mode == Percent then BasisPoints(parts) else Units(|parts|);
      if mode == Percent {
        PositiveWeights(ws);
      } else {
        UnitWeights(|parts|);
      }
      SharesSumToTotal(Abs(total), ws);
      assert Allocated(Abs(total), ws) == Shares(Abs(total), ws);
    }
  }

  lemma {:induction false} SignedSum(s: seq<int>, t: seq<int>, sign: int)
    requires |s| == |t| && (sign == 1 || sign == -1) && forall i :: 0 <= i < |s| ==> t[i] == sign * s[i]
    ensures Sum(t) == sign * Sum(s)
  {
    if s != [] {
      SignedSum(s[..|s| - 1], t[..|t| - 1], sign);
    }
  }

  /** A leg posts to the one thing its part names. */
  ghost predicate PostsTo(leg: SplitLeg, p: Part) {
    match leg
    case CategoryLeg(id, _) => Names(p.categoryId) && p.categoryId.value == id && !Names(p.accountId)
    case AccountLeg(id, _) => Names(p.accountId) && p.accountId.value == id && !Names(p.categoryId)
  }

  /** Legs are one for each part and post to what it names, none is zero, and they add up to minus the amount. */
  lemma LegsBalanceTheCash(total: int, mode: Mode, parts: seq<Part>)
    requires SplitOutcome(total, mode, parts).Ok?
    ensures var legs := SplitOutcome(total, mode, parts).value;
      && |legs| == |parts| && Sum(LegAmounts(legs)) == -total
      && forall i :: 0 <= i < |legs| ==> legs[i].amountMinor != 0 && PostsTo(legs[i], parts[i])
  {
    var legs, shares := SplitOutcome(total, mode, parts).value, PromisedShares(total, mode, parts);
    SharesAddUp(total, mode, parts);
    forall i | 0 <= i < |parts| ensures NamesOne(parts[i]) {}
    SignedSum(shares, LegAmounts(legs), LegSign(total));
  }

  lemma LegsOfAllocation(total: int, parts: seq<Part>, ws: seq<int>)
    requires Weights(ws) && |ws| == |parts| && total != 0
    ensures LegAmounts(Legs(parts, Shares(Abs(total), ws), LegSign(total))) == Allocated(-total, ws)
  {
    var shares := Shares(Abs(total), ws);
    assert Abs(-total) == Abs(total);
    hide Shares, Weights, Names;
    forall i | 0 <= i < |ws| ensures LegAmounts(Legs(parts, shares, LegSign(total)))[i] == Allocated(-total, ws)[i] {
      OneOrMinusOne(LegSign(total), shares[i]);
    }
  }

  lemma OneOrMinusOne(sign: int, x: int)
    ensures (sign == 1 ==> sign * x == x) && (sign == -1 ==> sign * x == -x)
  {
  }

  /** Percent legs are the ledger's split of the opposite amount by basis points. */
  lemma PercentLegsAreBasisPointSplit(total: int, parts: seq<Part>)
    requires SplitOutcome(total, Percent, parts).Ok?
    ensures Weights(BasisPoints(parts)) && Sum(BasisPoints(parts)) == 10_000
    ensures LegAmounts(SplitOutcome(total, Percent, parts).value) == Allocated(-total, BasisPoints(parts))
  {
    PositiveWeights(BasisPoints(parts));
    LegsOfAllocation(total, parts, BasisPoints(parts));
  }

  /** Equal legs are the ledger's allocation of the opposite amount over unit weights. */
  lemma EqualLegsAreUnitAllocation(total: int, parts: seq<Part>)
    requires SplitOutcome(total, Equal, parts).Ok?
    ensures Weights(Units(|parts|))
    ensures LegAmounts(SplitOutcome(total, Equal, parts).value) == Allocated(-total, Units(|parts|))
  {
    UnitWeights(|parts|);
    LegsOfAllocation(total, parts, Units(|parts|));
  }

  /** An even split fails only when there are more parts than minor units. */
  lemma EqualFailsOnlyWhenTooFewUnits(total: int, parts: seq<Part>)
    requires Objection(total, Equal, parts).None?
    ensures SplitOutcome(total, Equal, parts).Ok? <==> Abs(total) >= |parts|
  {
    var n, m := |parts|, Abs(total);
    UnitWeights(n);
    forall i | 0 <= i < n ensures PromisedShares(total, Equal, parts)[i] == m / n + if i < m % n then 1 else 0 {
      EqualShare(m, n, i);
    }
    DivModIdentity(m, n);
    if m >= n {
      QuotientPositive(m, n);
    } else {
      SmallQuotient(m, n);
      assert PromisedShares(total, Equal, parts)[n - 1] == 0;
    }
  }

  lemma QuotientPositive(m: nat, n: nat)
    requires m >= n > 0
    ensures m / n >= 1
  {
  }

  lemma SmallQuotient(m: nat, n: nat)
    requires m < n
    ensures m / n == 0 && m % n == m
  {
  }

  // The outcome told part by part.

  predicate Given(id: Option<string>) {
    match id
    case Some(name) => name != ""
    case None => false
  }

  /** The leg of a part: to the account it names, or else to its category. */
  predicate LegFollows(leg: SplitLeg, p: Part) {
    match leg
    case AccountLeg(id, _) => Given(p.accountId) && !Given(p.categoryId) && p.accountId == Some(id)
    case CategoryLeg(id, _) => Given(p.categoryId) && !Given(p.accountId) && p.categoryId == Some(id)
  }

  /** Legs of the sign opposite to the cash: as given, the ledger's allocation, or even with the spare units first. */
  ghost predicate LegsFollow(total: int, mode: Mode, parts: seq<Part>, legs: seq<SplitLeg>) {
    && total != 0 && 1 <= |parts| <= 30 && |legs| == |parts|
    && (forall i :: 0 <= i < |legs| ==> LegFollows(legs[i], parts[i]) && legs[i].amountMinor != 0)
    && match mode
       case Amounts =>
         forall i :: 0 <= i < |legs| ==>
           parts[i].amountMinor == Some(if total < 0 then legs[i].amountMinor else -legs[i].amountMinor)
       case Percent => Weights(BasisPoints(parts)) && LegAmounts(legs) == Allocated(-total, BasisPoints(parts))
       case Equal => forall i :: 0 <= i < |legs| ==> EvenLeg(total, |parts|, i, legs[i].amountMinor)
  }

  predicate EvenLeg(total: int, n: nat, i: nat, amount: int)
    requires n > 0
  {
    if total < 0 then amount == -total / n + if i < -total % n then 1 else 0
    else -amount == total / n + if i < total % n then 1 else 0
  }

  /** The count is right, and every part names one thing. */
  ghost predicate WellNamed(total: int, parts: seq<Part>) {
    && total != 0 && 1 <= |parts| <= 30
    && forall i :: 0 <= i < |parts| ==> (Given(parts[i].categoryId) <==> !Given(parts[i].accountId))
  }

  ghost predicate AllAmounts(parts: seq<Part>) {
    forall i :: 0 <= i < |parts| ==> parts[i].amountMinor.Some? && parts[i].amountMinor.value != 0
  }

  ghost predicate AllBasisPoints(parts: seq<Part>) {
    forall i :: 0 <= i < |parts| ==> parts[i].basisPoints.Some? && parts[i].basisPoints.value >= 1
  }

  /** When each refusal is given. */
  ghost predicate Refuses(total: int, mode: Mode, parts: seq<Part>, error: SplitError) {
    match error
    case ZeroTransaction => total == 0
    case BadPartCount => total != 0 && (|parts| == 0 || |parts| >= 31)
    case BadPartName => total != 0 && 1 <= |parts| <= 30 && !WellNamed(total, parts)
    case BadAmount => mode == Amounts && WellNamed(total, parts) && !AllAmounts(parts)
    case AmountsDoNotAddUp(sum, magnitude) =>
      && mode == Amounts && WellNamed(total, parts) && AllAmounts(parts)
      && sum == Sum(PartAmounts(parts)) && sum != magnitude
      && magnitude > 0 && (magnitude == total || magnitude == -total)
    case BadBasisPoints => mode == Percent && WellNamed(total, parts) && !AllBasisPoints(parts)
    case PercentagesDoNotAddUp =>
      mode == Percent && WellNamed(total, parts) && AllBasisPoints(parts) && Sum(BasisPoints(parts)) != 10_000
    case ZeroShare =>
      && WellNamed(total, parts)
      && match mode
         case Amounts => false
         case Percent =>
           && AllBasisPoints(parts) && Weights(BasisPoints(parts))
           && 0 in Allocated(-total, BasisPoints(parts))
         case Equal => -|parts| < total < |parts|
  }

  lemma GivenIsNamed(parts: seq<Part>)
    ensures forall id :: Given(id) <==> Names(id)
    ensures forall p, amount :: NamesOne(p) ==> LegFollows(LegOf(p, amount), p)
  {
  }

  lemma OutcomeByParts(total: int, mode: Mode, parts: seq<Part>)
    ensures var r := SplitOutcome(total, mode, parts);
      if r.Ok? then LegsFollow(total, mode, parts, r.value) else Refuses(total, mode, parts, r.error)
  {
    GivenIsNamed(parts);
    if SplitOutcome(total, mode, parts).Ok? {
      LegsByParts(total, mode, parts);
    } else if Objection(total, mode, parts).Some? {
      ObjectionByParts(total, mode, parts);
    } else {
      ZeroShareByParts(total, mode, parts);
    }
  }

  lemma ObjectionByParts(total: int, mode: Mode, parts: seq<Part>)
    requires Objection(total, mode, parts).Some?
    ensures Refuses(total, mode, parts, Objection(total, mode, parts).value)
  {
    hide Sum;
    GivenIsNamed(parts);
  }

  lemma LegsByParts(total: int, mode: Mode, parts: seq<Part>)
    requires SplitOutcome(total, mode, parts).Ok?
    ensures LegsFollow(total, mode, parts, SplitOutcome(total, mode, parts).value)
  {
    hide Sum, Shares, Allocated, Given, Names;
    GivenIsNamed(parts);
    LegsBalanceTheCash(total, mode, parts);
    var legs := SplitOutcome(total, mode, parts).value;
    forall i | 0 <= i < |legs| ensures LegFollows(legs[i], parts[i]) {
      assert NamesOne(parts[i]);
    }
    match mode
    case Amounts => AmountLegs(total, parts);
    case Percent => PercentLegsAreBasisPointSplit(total, parts);
    case Equal => EvenLegs(total, parts);
  }

  lemma AmountLegs(total: int, parts: seq<Part>)
    requires SplitOutcome(total, Amounts, parts).Ok?
    ensures var legs := SplitOutcome(total, Amounts, parts).value;
      forall i :: 0 <= i < |legs| ==>
        parts[i].amountMinor == Some(if total < 0 then legs[i].amountMinor else -legs[i].amountMinor)
  {
    hide Sum, Names;
    var legs := SplitOutcome(total, Amounts, parts).value;
    forall i | 0 <= i < |legs|
      ensures parts[i].amountMinor == Some(if total < 0 then legs[i].amountMinor else -legs[i].amountMinor)
    {
      assert PartAmounts(parts)[i] != 0;
      OneOrMinusOne(LegSign(total), PartAmounts(parts)[i]);
    }
  }

  lemma EvenLegs(total: int, parts: seq<Part>)
    requires SplitOutcome(total, Equal, parts).Ok?
    ensures var legs := SplitOutcome(total, Equal, parts).value;
      forall i :: 0 <= i < |legs| ==> |parts| > 0 && EvenLeg(total, |parts|, i, legs[i].amountMinor)
  {
    hide Sum, Names, Shares;
    var legs, n := SplitOutcome(total, Equal, parts).value, |parts|;
    UnitWeights(n);
    forall i | 0 <= i < |legs| ensures EvenLeg(total, n, i, legs[i].amountMinor) {
      EqualShare(Abs(total), n, i);
      OneOrMinusOne(LegSign(total), Shares(Abs(total), Units(n))[i]);
    }
  }

  lemma ZeroShareByParts(total: int, mode: Mode, parts: seq<Part>)
    requires Objection(total, mode, parts).None? && SplitOutcome(total, mode, parts).Err?
    ensures Refuses(total, mode, parts, ZeroShare) && SplitOutcome(total, mode, parts) == Err(ZeroShare)
  {
    GivenIsNamed(parts);
    match mode
    case Amounts =>
    case Percent =>
      PositiveWeights(BasisPoints(parts));
      LegsOfAllocation(total, parts, BasisPoints(parts));
      ZeroOfAllocation(total, parts);
    case Equal => EqualFailsOnlyWhenTooFewUnits(total, parts);
  }

  lemma ZeroOfAllocation(total: int, parts: seq<Part>)
    requires Objection(total, Percent, parts).None? && SplitOutcome(total, Percent, parts).Err?
    ensures Weights(BasisPoints(parts))
    ensures 0 in Allocated(-total, BasisPoints(parts))
  {
    var bps := BasisPoints(parts);
    PositiveWeights(bps);
    hide Sum, Shares, Weights;
    var i :| 0 <= i < |parts| && Shares(Abs(total), bps)[i] == 0;
    assert Abs(-total) == Abs(total);
    assert Allocated(-total, bps)[i] == 0;
  }

  // Posting the split: the cash account against every leg.

  function LegPosting(leg: SplitLeg, currency: string): Posting {
    Posting(if leg.CategoryLeg? then leg.categoryLedgerAccountId else leg.accountId, Money(leg.amountMinor, currency))
  }

  function LegPostings(legs: seq<SplitLeg>, currency: string): (r: seq<Posting>)
    ensures |r| == |legs| && forall i :: 0 <= i < |legs| ==> r[i] == LegPosting(legs[i], currency)
  {
    seq(|legs|, i requires 0 <= i < |legs| => LegPosting(legs[i], currency))
  }

  lemma {:induction false} LegBalance(legs: seq<SplitLeg>, currency: string, c: string)
    ensures Balance(LegPostings(legs, currency), c) == if c == currency then Sum(LegAmounts(legs)) else 0
  {
    if legs != [] {
      var n := |legs| - 1;
      LegBalance(legs[..n], currency, c);
      assert LegPostings(legs, currency)[..n] == LegPostings(legs[..n], currency);
      assert LegAmounts(legs)[..n] == LegAmounts(legs[..n]);
    }
  }

  /** The cash posting and the legs of a successful split make a batch the journal accepts. */
  lemma SplitIsPostable(total: int, mode: Mode, parts: seq<Part>, cashAccountId: string, currency: string)
    requires SplitOutcome(total, mode, parts).Ok?
    ensures var cash := Posting(cashAccountId, Money(total, currency));
      Postable([cash] + LegPostings(SplitOutcome(total, mode, parts).value, currency))
  {
    hide SplitOutcome, Balance, Sum;
    var legs := SplitOutcome(total, mode, parts).value;
    var cash := Posting(cashAccountId, Money(total, currency));
    LegsBalanceTheCash(total, mode, parts);
    LegsAreMany(total, mode, parts);
    forall c ensures Balance([cash] + LegPostings(legs, currency), c) == 0 {
      BalanceAppend([cash], LegPostings(legs, currency), c);
      LegBalance(legs, currency, c);
      BalanceOfOne(cash, c);
    }
  }

  lemma LegsAreMany(total: int, mode: Mode, parts: seq<Part>)
    requires SplitOutcome(total, mode, parts).Ok?
    ensures |SplitOutcome(total, mode, parts).value| >= 1 && total != 0
  {
  }

  lemma BalanceOfOne(p: Posting, c: string)
    ensures Balance([p], c) == if c == p.money.currency then p.money.amountMinor else 0
  {
    assert [p][..0] == [];
  }
}

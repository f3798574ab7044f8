/** Largest-remainder allocation of money: exact, fair to the unit, and closest to the exact shares. */
module Allocation {
  import opened Wrappers
  import opened Arithmetic
  import opened Sorting

  datatype Money = Money(amountMinor: int, currency: string)

  datatype MoneyError =
    | InvalidMoney
    | UnbalancedBatch(currency: string, delta: int)
    | CurrencyMismatch(expected: string, actual: string)

  function Sum(s: seq<int>): int {
    if s == [] then 0 else Sum(s[..|s| - 1]) + s[|s| - 1]
  }

  predicate Weights(ws: seq<int>) {
    (forall i :: 0 <= i < |ws| ==> ws[i] >= 0) && Sum(ws) > 0
  }

  // The shares, stated without any sorting: a part gets the floor of its exact share, and one unit
  // more if fewer than the spare units parts precede it by remainder, ties going to the earlier part.

  function Bases(m: nat, ws: seq<int>): (r: seq<int>)
    requires Weights(ws)
    ensures |r| == |ws| && forall i :: 0 <= i < |ws| ==> r[i] == m * ws[i] / Sum(ws)
  {
    seq(|ws|, i requires 0 <= i < |ws| => m * ws[i] / Sum(ws))
  }

  function Remainders(m: nat, ws: seq<int>): (r: seq<int>)
    requires Weights(ws)
    ensures |r| == |ws| && forall i :: 0 <= i < |ws| ==> r[i] == m * ws[i] % Sum(ws)
  {
    seq(|ws|, i requires 0 <= i < |ws| => m * ws[i] % Sum(ws))
  }

  function SpareUnits(m: nat, ws: seq<int>): int
    requires Weights(ws)
  {
    m - Sum(Bases(m, ws))
  }

  predicate Precedes(rems: seq<int>, j: int, i: int)
    requires 0 <= j < |rems| && 0 <= i < |rems|
  {
    rems[j] > rems[i] || (rems[j] == rems[i] && j < i)
  }

  function Preceding(rems: seq<int>, i: int): set<int>
    requires 0 <= i < |rems|
  {
    set j | 0 <= j < |rems| && Precedes(rems, j, i)
  }

  function Bonus(rems: seq<int>, units: int, i: int): int
    requires 0 <= i < |rems|
  {
    if |Preceding(rems, i)| < units then 1 else 0
  }

  function Shares(m: nat, ws: seq<int>): (r: seq<int>)
    requires Weights(ws)
    ensures |r| == |ws|
    ensures forall i :: 0 <= i < |ws| ==>
      r[i] == Bases(m, ws)[i] + Bonus(Remainders(m, ws), SpareUnits(m, ws), i)
  {
    seq(|ws|, i requires 0 <= i < |ws| => Bases(m, ws)[i] + Bonus(Remainders(m, ws), SpareUnits(m, ws), i))
  }

  // Ranking the indexes.

  function At(s: seq<int>, i: int): int {
    if 0 <= i < |s| then s[i] else 0
  }

  predicate RankLe(rems: seq<int>, a: int, b: int) {
    At(rems, a) > At(rems, b) || (At(rems, a) == At(rems, b) && a <= b)
  }

  function RankOrder(rems: seq<int>): (int, int) -> bool {
    (a, b) => RankLe(rems, a, b)
  }

  function UpTo(n: nat): (r: seq<int>)
    ensures |r| == n && forall i :: 0 <= i < n ==> r[i] == i
  {
    seq(n, i => i)
  }

  function Ranked(rems: seq<int>): seq<int> {
    Sort(UpTo(|rems|), RankOrder(rems))
  }

  lemma RankedIsPermutation(rems: seq<int>)
    ensures |Ranked(rems)| == |rems| && Distinct(Ranked(rems)) && SortedBy(Ranked(rems), RankOrder(rems))
    ensures forall i :: i in Ranked(rems) <==> 0 <= i < |rems|
  {
    var order := RankOrder(rems);
    assert TotalPreorder(order);
    SortSorts(UpTo(|rems|), order);
    SortDistinct(UpTo(|rems|), order);
    SameElements(UpTo(|rems|), order);
    forall i | 0 <= i < |rems| ensures i in UpTo(|rems|) {
      assert UpTo(|rems|)[i] == i;
    }
  }

  function Elements(s: seq<int>): set<int> {
    set i | 0 <= i < |s| :: s[i]
  }

  lemma ElementsLast(s: seq<int>)
    requires s != []
    ensures Elements(s) == Elements(s[..|s| - 1]) + {s[|s| - 1]}
  {
    var init := s[..|s| - 1];
    assert forall i :: 0 <= i < |init| ==> s[i] == init[i];
  }

  lemma {:induction false} DistinctSize(s: seq<int>)
    requires Distinct(s)
    ensures |Elements(s)| == |s|
  {
    if s == [] {
      assert Elements(s) == {};
    } else {
      var init, last := s[..|s| - 1], s[|s| - 1];
      DistinctSize(init);
      ElementsLast(s);
      assert last !in Elements(init);
    }
  }

  /** The k-th ranked index is preceded by exactly k others. */
  lemma RankIsPosition(rems: seq<int>, k: nat)
    requires k < |Ranked(rems)|
    ensures var i := Ranked(rems)[k]; 0 <= i < |rems| && |Preceding(rems, i)| == k
  {
    var ranked := Ranked(rems);
    RankedIsPermutation(rems);
    var i := ranked[k];
    assert i in ranked;
    var before := ranked[..k];
    forall t | 0 <= t < |ranked| ensures 0 <= ranked[t] < |rems| && (Precedes(rems, ranked[t], i) <==> t < k) {
      assert ranked[t] in ranked;
      assert t < k ==> RankOrder(rems)(ranked[t], ranked[k]);
      assert k < t ==> RankOrder(rems)(ranked[k], ranked[t]);
    }
    forall j | j in Preceding(rems, i) ensures j in Elements(before) {
      assert j in ranked;
      var t :| 0 <= t < |ranked| && ranked[t] == j;
      assert before[t] == j;
    }
    assert Preceding(rems, i) == Elements(before);
    DistinctSize(before);
  }

  // The source's way: hand out the spare units one by one down the ranking.

  ghost predicate Handed(bases: seq<int>, ranked: seq<int>, k: nat, shares: seq<int>)
    requires k <= |ranked|
  {
    |shares| == |bases|
    && forall i :: 0 <= i < |bases| ==> shares[i] == bases[i] + if i in ranked[..k] then 1 else 0
  }

  lemma {:induction false} SumUpdate(s: seq<int>, i: nat, x: int)
    requires i < |s|
    ensures Sum(s[i := x]) == Sum(s) - s[i] + x
  {
    var n := |s| - 1;
    if i < n {
      SumUpdate(s[..n], i, x);
      assert s[i := x][..n] == s[..n][i := x];
    } else {
      assert s[i := x][..n] == s[..n];
    }
  }

  /** Every spare unit handed out raises the sum by one. */
  lemma HandOne(bases: seq<int>, ranked: seq<int>, k: nat, shares: seq<int>)
    requires k < |ranked| && Distinct(ranked) && forall i :: i in ranked <==> 0 <= i < |bases|
    requires Handed(bases, ranked, k, shares)
    ensures 0 <= ranked[k] < |shares|
    ensures var next := shares[ranked[k] := shares[ranked[k]] + 1];
      Handed(bases, ranked, k + 1, next) && Sum(next) == Sum(shares) + 1
  {
    assert ranked[k] in ranked;
    assert ranked[k] !in ranked[..k];
    SumUpdate(shares, ranked[k], shares[ranked[k]] + 1);
    assert ranked[..k + 1] == ranked[..k] + [ranked[k]];
  }

  lemma HandedIsShares(m: nat, ws: seq<int>, k: nat, shares: seq<int>)
    requires Weights(ws) && k <= |ws| && |Ranked(Remainders(m, ws))| == |ws|
    requires Handed(Bases(m, ws), Ranked(Remainders(m, ws)), k, shares) && k == SpareUnits(m, ws)
    ensures shares == Shares(m, ws)
  {
    var rems := Remainders(m, ws);
    var ranked := Ranked(rems);
    RankedIsPermutation(rems);
    forall i | 0 <= i < |ws| ensures shares[i] == Shares(m, ws)[i] {
      assert i in ranked;
      var t :| 0 <= t < |ranked| && ranked[t] == i;
      RankIsPosition(rems, t);
      assert i in ranked[..k] <==> t < k by {
        if t < k {
          assert ranked[..k][t] == i;
        }
      }
    }
  }

  // The spare units are fewer than the parts with a remainder.

  lemma {:induction false} SumScaled(m: nat, ws: seq<int>, w: int, bases: seq<int>, rems: seq<int>)
    requires w > 0 && |bases| == |rems| == |ws|
    requires forall i :: 0 <= i < |ws| ==> bases[i] == m * ws[i] / w && rems[i] == m * ws[i] % w
    ensures m * Sum(ws) == w * Sum(bases) + Sum(rems)
  {
    if ws != [] {
      var n := |ws| - 1;
      SumScaled(m, ws[..n], w, bases[..n], rems[..n]);
      DivModIdentity(m * ws[n], w);
      Distribute(m, Sum(ws[..n]), ws[n]);
      Distribute(w, Sum(bases[..n]), bases[n]);
    }
  }

  lemma DivModIdentity(x: int, w: int)
    requires w > 0
    ensures x == w * (x / w) + x % w
  {
  }

  function WithRemainder(rems: seq<int>): set<int> {
    set j | 0 <= j < |rems| && rems[j] > 0
  }

  lemma {:induction false} RemaindersBound(rems: seq<int>, w: int)
    requires w > 0 && forall i :: 0 <= i < |rems| ==> 0 <= rems[i] < w
    ensures 0 <= Sum(rems) <= (w - 1) * |WithRemainder(rems)|
  {
    hide WithRemainder;
    WithRemainderLast(rems);
    if rems != [] {
      RemaindersBound(rems[..|rems| - 1], w);
      OneMore(w - 1, |WithRemainder(rems[..|rems| - 1])|);
    }
  }

  lemma WithRemainderLast(rems: seq<int>)
    ensures rems == [] ==> WithRemainder(rems) == {}
    ensures rems != [] ==>
      var before := |WithRemainder(rems[..|rems| - 1])|;
      |WithRemainder(rems)| == before + if rems[|rems| - 1] > 0 then 1 else 0
  {
    if rems != [] {
      var n := |rems| - 1;
      var before := WithRemainder(rems[..n]);
      assert WithRemainder(rems) == if rems[n] > 0 then before + {n} else before;
    }
  }

  lemma OneMore(a: int, n: nat)
    ensures a * (n + 1) == a * n + a
  {
  }

  lemma RemaindersInRange(m: nat, ws: seq<int>)
    requires Weights(ws)
    ensures forall i :: 0 <= i < |ws| ==> 0 <= Remainders(m, ws)[i] < Sum(ws)
  {
    forall i | 0 <= i < |ws| ensures 0 <= Remainders(m, ws)[i] < Sum(ws) {
      assert 0 <= m * ws[i] % Sum(ws) < Sum(ws);
    }
  }

  lemma SpareUnitsCount(m: nat, ws: seq<int>)
    requires Weights(ws)
    ensures 0 <= SpareUnits(m, ws) <= |WithRemainder(Remainders(m, ws))|
  {
    var w, rems, bases := Sum(ws), Remainders(m, ws), Bases(m, ws);
    SumScaled(m, ws, w, bases, rems);
    RemaindersInRange(m, ws);
    RemaindersBound(rems, w);
    UnitsFit(w, m, Sum(bases), Sum(rems), |WithRemainder(rems)|);
  }

  /** Spare units only reach parts that have a remainder. */
  lemma SpareUnitsBound(m: nat, ws: seq<int>)
    requires Weights(ws)
    ensures 0 <= SpareUnits(m, ws) <= |WithRemainder(Remainders(m, ws))|
    ensures forall i :: 0 <= i < |ws| && Bonus(Remainders(m, ws), SpareUnits(m, ws), i) == 1 ==>
      Remainders(m, ws)[i] > 0
  {
    var rems := Remainders(m, ws);
    SpareUnitsCount(m, ws);
    RemaindersInRange(m, ws);
    hide SpareUnits, Remainders;
    forall i | 0 <= i < |ws| && rems[i] == 0 ensures Bonus(rems, SpareUnits(m, ws), i) == 0 {
      assert WithRemainder(rems) <= Preceding(rems, i);
      SubsetSize(WithRemainder(rems), Preceding(rems, i));
    }
  }

  lemma UnitsFit(w: int, m: int, bases: int, rems: int, n: nat)
    requires w > 0 && m * w == w * bases + rems && 0 <= rems <= (w - 1) * n
    ensures 0 <= m - bases <= n
  {
    Difference(w, m, bases);
    NotBelow(w, m - bases);
    OneMore(n, w - 1);
    NotAbove(w, m - bases, n);
  }

  lemma Difference(w: int, a: int, b: int)
    ensures w * (a - b) == a * w - w * b
  {
  }

  lemma NotBelow(w: int, u: int)
    requires w > 0 && w * u >= 0
    ensures u >= 0
  {
  }

  lemma NotAbove(w: int, u: int, n: nat)
    requires w > 0 && w * u <= n * w
    ensures u <= n
  {
    assert w * (u - n) <= 0;
  }

  lemma {:induction false} SubsetSize(a: set<int>, b: set<int>)
    requires a <= b
    ensures |a| <= |b|
  {
    assert |b - a| == |b| - |a|;
  }

  lemma WithRemainderSize(rems: seq<int>)
    ensures |WithRemainder(rems)| <= |rems|
  {
    DistinctSize(UpTo(|rems|));
    forall j | j in WithRemainder(rems) ensures j in Elements(UpTo(|rems|)) {
      assert UpTo(|rems|)[j] == j;
    }
    SubsetSize(WithRemainder(rems), Elements(UpTo(|rems|)));
  }

  method DistributeUnits(m: nat, ws: seq<int>) returns (shares: seq<int>)
    requires Weights(ws)
    ensures shares == Shares(m, ws) && Sum(shares) == m
  {
    hide Sum, Bonus, Preceding;
    var bases, rems := Bases(m, ws), Remainders(m, ws);
    var unitsToDistribute := m - Sum(bases);
    var ranked := Ranked(rems);
    RankedIsPermutation(rems);
    SpareUnitsBound(m, ws);
    WithRemainderSize(rems);
    var units := new int[|bases|](i requires 0 <= i < |bases| => bases[i]);
    assert units[..] == bases;
    var k := 0;
    while k < |ranked| && unitsToDistribute != 0
      invariant 0 <= k <= |ranked| && unitsToDistribute == SpareUnits(m, ws) - k >= 0
      invariant Handed(bases, ranked, k, units[..])
      invariant Sum(units[..]) == Sum(bases) + k
    {
      HandOne(bases, ranked, k, units[..]);
      var i := ranked[k];
      assert units[..][i] == units[i];
      ghost var next := units[..][i := units[i] + 1];
      units[i] := units[i] + 1;
      assert units[..] == next;
      unitsToDistribute := unitsToDistribute - 1;
      k := k + 1;
    }
    HandedIsShares(m, ws, k, units[..]);
    return units[..];
  }

  method AllocateMoney(total: Money, weights: seq<int>) returns (r: Result<seq<Money>, MoneyError>)
    ensures r.Ok? <==> Weights(weights)
    ensures r.Ok? ==> r.value == Monies(Allocated(total.amountMinor, weights), total.currency)
  {
    NoWeight(weights);
    if |weights| == 0 || exists i :: 0 <= i < |weights| && weights[i] < 0 {
      return Err(InvalidMoney);
    }
    var totalWeight := Sum(weights);
    NonNegativeSum(weights);
    if totalWeight == 0 {
      return Err(InvalidMoney);
    }
    var shares := DistributeUnits(Abs(total.amountMinor), weights);
    return Ok(Monies(Signed(shares, total.amountMinor < 0), total.currency));
  }

  function AmountsOf(list: seq<Money>): (r: seq<int>)
    ensures |r| == |list| && forall i :: 0 <= i < |list| ==> r[i] == list[i].amountMinor
  {
    seq(|list|, i requires 0 <= i < |list| => list[i].amountMinor)
  }

  ghost predicate FirstOther(list: seq<Money>, currency: string, i: int) {
    0 <= i < |list| && list[i].currency != currency && forall k :: 0 <= k < i ==> list[k].currency == currency
  }

  method SumMoney(list: seq<Money>, currency: string) returns (r: Result<Money, MoneyError>)
    ensures r.Ok? <==> forall i :: 0 <= i < |list| ==> list[i].currency == currency
    ensures r.Ok? ==> r.value == Money(Sum(AmountsOf(list)), currency)
    ensures r.Err? ==>
      exists i :: FirstOther(list, currency, i) && r.error == CurrencyMismatch(currency, list[i].currency)
  {
    var total := 0;
    for i := 0 to |list|
      invariant total == Sum(AmountsOf(list[..i]))
      invariant forall k :: 0 <= k < i ==> list[k].currency == currency
    {
      if list[i].currency != currency {
        assert FirstOther(list, currency, i);
        return Err(CurrencyMismatch(currency, list[i].currency));
      }
      assert AmountsOf(list[..i + 1])[..i] == AmountsOf(list[..i]);
      total := total + list[i].amountMinor;
    }
    assert list[..|list|] == list;
    return Ok(Money(total, currency));
  }

  lemma NoWeight(ws: seq<int>)
    ensures ws == [] ==> Sum(ws) == 0
  {
  }

  lemma {:induction false} NonNegativeSum(ws: seq<int>)
    requires forall i :: 0 <= i < |ws| ==> ws[i] >= 0
    ensures Sum(ws) >= 0
  {
    if ws != [] {
      NonNegativeSum(ws[..|ws| - 1]);
    }
  }

  function Monies(amounts: seq<int>, currency: string): (r: seq<Money>)
    ensures |r| == |amounts| && forall i :: 0 <= i < |amounts| ==> r[i] == Money(amounts[i], currency)
  {
    seq(|amounts|, i requires 0 <= i < |amounts| => Money(amounts[i], currency))
  }

  function Signed(shares: seq<int>, negative: bool): (r: seq<int>)
    ensures |r| == |shares|
    ensures forall i :: 0 <= i < |shares| ==> r[i] == if negative then -shares[i] else shares[i]
  {
    seq(|shares|, i requires 0 <= i < |shares| => if negative then -shares[i] else shares[i])
  }

  /** The signed shares of a total. */
  function Allocated(total: int, ws: seq<int>): (r: seq<int>)
    requires Weights(ws)
  {
    Signed(Shares(Abs(total), ws), total < 0)
  }

  // What the shares are.

  lemma {:induction false} NegatedSum(s: seq<int>, t: seq<int>)
    requires |s| == |t| && forall i :: 0 <= i < |s| ==> t[i] == -s[i]
    ensures Sum(t) == -Sum(s)
  {
    if s != [] {
      NegatedSum(s[..|s| - 1], t[..|t| - 1]);
    }
  }

  lemma {:induction false} HandedSum(bases: seq<int>, ranked: seq<int>, k: nat, shares: seq<int>)
    requires k <= |ranked| && Distinct(ranked) && forall i :: i in ranked <==> 0 <= i < |bases|
    requires Handed(bases, ranked, k, shares)
    ensures Sum(shares) == Sum(bases) + k
  {
    if k == 0 {
      assert shares == bases;
    } else {
      var i := ranked[k - 1];
      assert i in ranked;
      var before := shares[i := bases[i]];
      assert ranked[..k] == ranked[..k - 1] + [i];
      assert i !in ranked[..k - 1];
      HandedSum(bases, ranked, k - 1, before);
      HandOne(bases, ranked, k - 1, before);
      assert shares == before[i := before[i] + 1];
    }
  }

  /** The shares add up to exactly the total. */
  lemma SharesSumToTotal(total: int, ws: seq<int>)
    requires Weights(ws)
    ensures Sum(Allocated(total, ws)) == total
  {
    var m := Abs(total);
    var bases, rems, units := Bases(m, ws), Remainders(m, ws), SpareUnits(m, ws);
    var ranked := Ranked(rems);
    RankedIsPermutation(rems);
    SpareUnitsBound(m, ws);
    WithRemainderSize(rems);
    var handed := seq(|ws|, i requires 0 <= i < |ws| => bases[i] + if i in ranked[..units] then 1 else 0);
    assert Handed(bases, ranked, units, handed);
    HandedIsShares(m, ws, units, handed);
    HandedSum(bases, ranked, units, handed);
    assert handed == Shares(m, ws);
    if total < 0 {
      NegatedSum(handed, Allocated(total, ws));
    } else {
      assert Allocated(total, ws) == handed;
    }
  }

  ghost predicate FloorOrCeiling(exact: int, w: int, share: int) {
    exact - w < share * w < exact + w && (exact == 0 ==> share == 0)
  }

  /** Each share is the floor or the ceiling, in magnitude, of the exact share total·weight / Σweights. */
  lemma ShareIsFloorOrCeiling(total: int, ws: seq<int>, i: nat)
    requires Weights(ws) && i < |ws|
    ensures var share := Allocated(total, ws)[i];
      && FloorOrCeiling(Abs(total) * ws[i], Sum(ws), Abs(share))
      && (total < 0 ==> share <= 0) && (total >= 0 ==> share >= 0)
  {
    hide Bases, Remainders, SpareUnits, Preceding, Sum, FloorOrCeiling, Bonus, Shares;
    var m, w := Abs(total), Sum(ws);
    var base, rem := Bases(m, ws)[i], Remainders(m, ws)[i];
    var bonus := Bonus(Remainders(m, ws), SpareUnits(m, ws), i);
    SpareUnitsBound(m, ws);
    BonusIsUnit(Remainders(m, ws), SpareUnits(m, ws), i);
    DivModIdentity(m * ws[i], w);
    RemaindersInRange(m, ws);
    NonNegativeQuotient(m, ws[i], w);
    RoundedQuotient(m * ws[i], w, base, rem, bonus);
    assert Shares(m, ws)[i] == base + bonus;
  }

  lemma BonusIsUnit(rems: seq<int>, units: int, i: nat)
    requires i < |rems|
    ensures Bonus(rems, units, i) == 0 || Bonus(rems, units, i) == 1
  {
  }

  lemma RoundedQuotient(exact: int, w: int, base: int, rem: int, bonus: int)
    requires 0 <= rem < w && exact == w * base + rem && base >= 0
    requires bonus == 0 || (bonus == 1 && rem > 0)
    ensures FloorOrCeiling(exact, w, base + bonus)
  {
    Distribute(w, base, bonus);
    if exact == 0 {
      assert w * base == 0;
      assert base == 0;
    }
  }

  lemma NonNegativeQuotient(m: nat, x: int, w: int)
    requires w > 0 && x >= 0
    ensures m * x / w >= 0
  {
    assert m * x >= 0;
  }

  /** A part of no weight gets nothing. */
  lemma ZeroWeightGetsNothing(total: int, ws: seq<int>, i: nat)
    requires Weights(ws) && i < |ws| && ws[i] == 0
    ensures Allocated(total, ws)[i] == 0
  {
    ShareIsFloorOrCeiling(total, ws, i);
  }

  lemma PrecedingGrows(rems: seq<int>, i: int, j: int)
    requires 0 <= i < |rems| && 0 <= j < |rems| && Precedes(rems, j, i)
    ensures |Preceding(rems, j)| < |Preceding(rems, i)|
  {
    assert Preceding(rems, j) <= Preceding(rems, i) - {j};
    SubsetSize(Preceding(rems, j), Preceding(rems, i) - {j});
  }

  /** A larger weight never gets less. */
  lemma LargerWeightNeverLess(total: int, ws: seq<int>, i: nat, j: nat)
    requires Weights(ws) && i < |ws| && j < |ws| && ws[i] < ws[j]
    ensures Abs(Allocated(total, ws)[i]) <= Abs(Allocated(total, ws)[j])
  {
    var m, w := Abs(total), Sum(ws);
    var bases, rems, units := Bases(m, ws), Remainders(m, ws), SpareUnits(m, ws);
    DivModIdentity(m * ws[i], w);
    DivModIdentity(m * ws[j], w);
    RemaindersInRange(m, ws);
    SpareUnitsBound(m, ws);
    NonNegativeQuotient(m, ws[i], w);
    NonNegativeQuotient(m, ws[j], w);
    hide Bases, Remainders, SpareUnits, Preceding, Sum;
    QuotientsOrdered(m, w, ws[i], bases[i], rems[i], ws[j], bases[j], rems[j]);
    if bases[i] == bases[j] && rems[i] < rems[j] {
      PrecedingGrows(rems, i, j);
    }
  }

  lemma QuotientsOrdered(m: nat, w: int, a: int, q: int, r: int, b: int, q': int, r': int)
    requires w > 0 && 0 <= r < w && 0 <= r' < w && a < b
    requires m * a == w * q + r && m * b == w * q' + r'
    ensures q < q' || (q == q' && (r < r' || m == 0 == r == r'))
  {
    Distribute(m, a, b - a);
    assert m * (b - a) >= 0 && (m > 0 ==> m * (b - a) > 0);
    hide *;
    if q > q' {
      Distribute(w, q', q - q');
      OneMore(w, q - q' - 1);
      NotNegative(w, q - q' - 1);
    }
  }

  /** Negating the total negates every share. */
  lemma NegationNegates(total: int, ws: seq<int>)
    requires Weights(ws)
    ensures forall i :: 0 <= i < |ws| ==> Allocated(-total, ws)[i] == -Allocated(total, ws)[i]
  {
    hide Weights, Shares;
    if total == 0 {
      forall i | 0 <= i < |ws| ensures Allocated(0, ws)[i] == 0 {
        ShareIsFloorOrCeiling(0, ws, i);
      }
    }
  }

  lemma NotNegative(w: nat, n: nat)
    ensures w * n >= 0
  {
  }

  // No other integer division of the total is closer to the exact shares.

  function Square(x: int): int {
    x * x
  }

  /** The squared deviations of xs from the exact shares total·weight / w, scaled by w². */
  function Deviation(total: int, w: int, ws: seq<int>, xs: seq<int>): int
    requires |xs| == |ws|
  {
    if xs == [] then 0
    else
      var n := |xs| - 1;
      Deviation(total, w, ws[..n], xs[..n]) + Square(w * xs[n] - total * ws[n])
  }

  /** The share is the exact one rounded down, or up from remainder t on; at t either way. */
  ghost predicate RoundedAt(base: int, rem: int, w: int, t: int, share: int) {
    0 <= rem <= w && ((share == base && rem <= t) || (share == base + 1 && rem >= t))
  }

  lemma ProductNonNegative(a: int, b: int)
    requires (a >= 0 && b >= 0) || (a <= 0 && b <= 0)
    ensures a * b >= 0
  {
  }

  /** One integer step away from a correctly rounded share: g is the distance of the remainder from t. */
  lemma StepAway(w: int, g: int, e: int)
    requires 0 <= g <= w
    ensures w * (e * (e - 1)) + 2 * (g * e) >= 0
  {
    if e >= 1 {
      ProductNonNegative(e, e - 1);
      ProductNonNegative(w, e * (e - 1));
      ProductNonNegative(g, e);
    } else {
      var f := -e;
      ProductNonNegative(w - g, f);
      Distribute(-f, w, -g);
      ProductNonNegative(f, f - 1);
      ProductNonNegative(w, f * (f - 1));
      assert e * (e - 1) == f * (f - 1) + 2 * f;
      Distribute(w, f * (f - 1), 2 * f);
    }
  }

  lemma BracketNonNegative(w: int, t: int, r: int, d: int, p: int)
    requires 0 <= r <= w && 0 <= t <= w
    requires (p == 0 && r <= t) || (p == 1 && r >= t)
    ensures w * Square(d) + 2 * ((w * p - r) * d) >= (w - 2 * t) * d
  {
    if p == 0 {
      StepAway(w, t - r, d);
      Expand0(w, t, r, d);
    } else {
      StepAway(w, r - t, -d);
      Expand1(w, t, r, d);
    }
  }

  lemma Expand0(w: int, t: int, r: int, d: int)
    ensures w * Square(d) + 2 * ((w * 0 - r) * d) - (w - 2 * t) * d == w * (d * (d - 1)) + 2 * ((t - r) * d)
  {
  }

  lemma Expand1(w: int, t: int, r: int, d: int)
    ensures w * Square(d) + 2 * ((w * 1 - r) * d) - (w - 2 * t) * d == w * (-d * (-d - 1)) + 2 * ((r - t) * -d)
  {
  }

  lemma PartDeviation(exact: int, w: int, t: int, base: int, rem: int, s: int, x: int)
    requires 0 <= t <= w && 0 < w && exact == w * base + rem && RoundedAt(base, rem, w, t, s)
    ensures Square(w * x - exact) >= Square(w * s - exact) + w * ((w - 2 * t) * (x - s))
  {
    var p, d := s - base, x - s;
    var c := w * p - rem;
    BracketNonNegative(w, t, rem, d, p);
    assert w * s - exact == c by { Distribute(w, base, p); }
    assert w * x - exact == c + w * d by { Distribute(w, s, d); }
    SquareOfSum(c, w, d);
    Scale(w, w * Square(d) + 2 * (c * d), (w - 2 * t) * d);
  }

  lemma SquareOfSum(c: int, w: int, d: int)
    ensures Square(c + w * d) == Square(c) + w * (w * Square(d) + 2 * (c * d))
  {
  }

  lemma Scale(w: int, a: int, b: int)
    requires w > 0 && a >= b
    ensures w * a >= w * b
  {
  }

  ghost predicate AllRoundedAt(total: int, w: int, t: int, ws: seq<int>, shares: seq<int>)
    requires w > 0 && |shares| == |ws|
  {
    forall i :: 0 <= i < |ws| ==> RoundedAt(total * ws[i] / w, total * ws[i] % w, w, t, shares[i])
  }

  lemma {:induction false} DeviationGap(total: int, w: int, t: int, ws: seq<int>, shares: seq<int>, xs: seq<int>)
    requires w > 0 && 0 <= t <= w && |shares| == |xs| == |ws| && AllRoundedAt(total, w, t, ws, shares)
    ensures Deviation(total, w, ws, xs)
         >= Deviation(total, w, ws, shares) + w * ((w - 2 * t) * (Sum(xs) - Sum(shares)))
  {
    if ws != [] {
      var n := |ws| - 1;
      DeviationGap(total, w, t, ws[..n], shares[..n], xs[..n]);
      hide RoundedAt, Square;
      DivModIdentity(total * ws[n], w);
      PartDeviation(total * ws[n], w, t, total * ws[n] / w, total * ws[n] % w, shares[n], xs[n]);
      Distribute(w - 2 * t, Sum(xs[..n]) - Sum(shares[..n]), xs[n] - shares[n]);
      Distribute(w, (w - 2 * t) * (Sum(xs[..n]) - Sum(shares[..n])), (w - 2 * t) * (xs[n] - shares[n]));
    }
  }

  /** The remainder that separates the parts given a spare unit from the others. */
  lemma Threshold(m: nat, ws: seq<int>) returns (t: int)
    requires Weights(ws)
    ensures 0 <= t <= Sum(ws) && AllRoundedAt(m, Sum(ws), t, ws, Shares(m, ws))
  {
    var w, rems, units := Sum(ws), Remainders(m, ws), SpareUnits(m, ws);
    SpareUnitsBound(m, ws);
    WithRemainderSize(rems);
    RankedIsPermutation(rems);
    RemaindersInRange(m, ws);
    hide SpareUnits, Preceding, Sum, Ranked, Distinct, SortedBy;
    t := w;
    if units > 0 {
      RankIsPosition(rems, units - 1);
      var last := Ranked(rems)[units - 1];
      t := rems[last];
      forall i | 0 <= i < |ws| ensures if Bonus(rems, units, i) == 1 then rems[i] >= t else rems[i] <= t {
        BonusByRemainder(rems, units, last, i);
      }
    }
  }

  lemma BonusByRemainder(rems: seq<int>, units: int, last: nat, i: nat)
    requires last < |rems| && i < |rems| && |Preceding(rems, last)| == units - 1
    ensures if Bonus(rems, units, i) == 1 then rems[i] >= rems[last] else rems[i] <= rems[last]
  {
    if Precedes(rems, i, last) {
      PrecedingGrows(rems, last, i);
    } else if Precedes(rems, last, i) {
      PrecedingGrows(rems, i, last);
    }
  }

  lemma {:induction false} DeviationMirrored(total: int, w: int, ws: seq<int>, xs: seq<int>)
    requires |xs| == |ws|
    ensures Deviation(-total, w, ws, Signed(xs, true)) == Deviation(total, w, ws, xs)
  {
    if xs != [] {
      var n := |xs| - 1;
      DeviationMirrored(total, w, ws[..n], xs[..n]);
      assert Signed(xs, true)[..n] == Signed(xs[..n], true);
      MirroredSquare(w, xs[n], total, ws[n]);
    }
  }

  lemma MirroredSquare(w: int, x: int, total: int, a: int)
    ensures Square(w * -x - -total * a) == Square(w * x - total * a)
  {
    assert w * -x - -total * a == -(w * x - total * a);
  }

  lemma TimesZero(a: int, b: int)
    ensures a * (b * 0) == 0
  {
  }

  lemma SharesAreClosest(m: nat, ws: seq<int>, xs: seq<int>)
    requires Weights(ws) && |xs| == |ws| && Sum(xs) == m
    ensures Deviation(m, Sum(ws), ws, Shares(m, ws)) <= Deviation(m, Sum(ws), ws, xs)
  {
    var t := Threshold(m, ws);
    SharesSumToTotal(m, ws);
    assert Allocated(m, ws) == Shares(m, ws);
    hide *;
    DeviationGap(m, Sum(ws), t, ws, Shares(m, ws), xs);
    TimesZero(Sum(ws), Sum(ws) - 2 * t);
  }

  /** Among all integer divisions of the total, none has a smaller sum of squared deviations from the exact shares. */
  lemma AllocationIsClosest(total: int, ws: seq<int>, xs: seq<int>)
    requires Weights(ws) && |xs| == |ws| && Sum(xs) == total
    ensures Deviation(total, Sum(ws), ws, Allocated(total, ws)) <= Deviation(total, Sum(ws), ws, xs)
  {
    var m, w := Abs(total), Sum(ws);
    var shares := Shares(m, ws);
    if total >= 0 {
      assert Allocated(total, ws) == shares;
      SharesAreClosest(m, ws, xs);
    } else {
      hide Sum, Deviation, Shares, Weights;
      var ys := Signed(xs, true);
      NegatedSum(xs, ys);
      SharesAreClosest(m, ws, ys);
      DeviationMirrored(m, w, ws, shares);
      DeviationMirrored(m, w, ws, ys);
      assert Signed(ys, true) == xs;
    }
  }
}

/** Inverting net pay: the window scan finds the least gross over all naturals. */
module PaycheckGross {
  import opened Wrappers
  import opened Arithmetic
  import opened PaycheckTemplate

  function HalfUp(gross: int, bps: int): int {
    (gross * bps + 5_000) / 10_000
  }

  function Taxes(gross: int, lines: seq<Line>): int {
    if lines == [] then 0 else Taxes(gross, lines[..|lines| - 1]) + HalfUp(gross, Bps(lines[|lines| - 1]))
  }

  function Net(gross: int, p: Partitioned): int {
    gross + p.reimbursement - p.fixedTotal - Taxes(gross, p.percentLines)
  }

  ghost predicate PercentLines(lines: seq<Line>) {
    forall i :: 0 <= i < |lines| ==> HasBps(lines[i])
  }

  /** What Partition guarantees about the part of a template the gross depends on. */
  ghost predicate ValidPartition(p: Partitioned) {
    && PercentLines(p.percentLines)
    && p.aggregateBps == Total(p.percentLines, Bps) < BPS_DENOMINATOR
    && p.fixedTotal >= 0 && p.reimbursement >= 0
  }

  ghost predicate IsLeastGross(gross: int, net: int, p: Partitioned) {
    && 0 <= gross && Net(gross, p) == net
    && forall g :: 0 <= g < gross ==> Net(g, p) != net
  }

  /** No product, shifted product or running tax total at this gross exceeds int64. */
  ghost predicate GuardsPass(gross: int, lines: seq<Line>) {
    && (forall i :: 0 <= i < |lines| ==> gross * Bps(lines[i]) + 5_000 <= INT64_MAX)
    && Taxes(gross, lines) <= INT64_MAX
  }

  // One percent line.

  lemma HalfUpStep(gross: int, bps: int)
    requires gross >= 0 && 0 < bps < 10_000
    ensures 0 <= HalfUp(gross, bps) <= HalfUp(gross + 1, bps) <= HalfUp(gross, bps) + 1
    ensures gross * bps <= (gross + 1) * bps
  {
    assert (gross + 1) * bps == gross * bps + bps;
    assert gross * bps >= 0;
  }

  lemma HalfUpRounds(gross: int, bps: int)
    ensures gross * bps - 4_999 <= 10_000 * HalfUp(gross, bps) <= gross * bps + 5_000
  {
  }

  // All of them.

  lemma {:induction false} TaxesBound(gross: int, lines: seq<Line>)
    requires gross >= 0 && PercentLines(lines)
    ensures 0 <= Taxes(gross, lines)
    ensures gross * Total(lines, Bps) - 4_999 * |lines| <= 10_000 * Taxes(gross, lines)
    ensures 10_000 * Taxes(gross, lines) <= gross * Total(lines, Bps) + 5_000 * |lines|
  {
    if lines != [] {
      var init, bps := lines[..|lines| - 1], Bps(lines[|lines| - 1]);
      TaxesBound(gross, init);
      HalfUpRounds(gross, bps);
      HalfUpStep(gross, bps);
      Distribute(gross, Total(init, Bps), bps);
    }
  }

  lemma {:induction false} TaxesStep(gross: int, lines: seq<Line>)
    requires gross >= 0 && PercentLines(lines)
    ensures Taxes(gross, lines) <= Taxes(gross + 1, lines) <= Taxes(gross, lines) + |lines|
  {
    if lines != [] {
      TaxesStep(gross, lines[..|lines| - 1]);
      HalfUpStep(gross, Bps(lines[|lines| - 1]));
    }
  }

  lemma {:induction false} TaxesAtZero(lines: seq<Line>)
    ensures Taxes(0, lines) == 0
  {
    if lines != [] {
      TaxesAtZero(lines[..|lines| - 1]);
    }
  }

  /** One more unit of gross moves net pay by at most one unit up and at most k − 1 units down. */
  lemma NetStep(gross: int, p: Partitioned)
    requires gross >= 0 && ValidPartition(p)
    ensures Net(gross, p) + 1 - |p.percentLines| <= Net(gross + 1, p) <= Net(gross, p) + 1
  {
    TaxesStep(gross, p.percentLines);
  }

  /** Net pay stays within half a unit per percent line of the unrounded linear model. */
  lemma NetNearLinear(gross: int, p: Partitioned)
    requires gross >= 0 && ValidPartition(p)
    ensures
      var linear := gross * (BPS_DENOMINATOR - p.aggregateBps);
      var scaled := 10_000 * (Net(gross, p) - p.reimbursement + p.fixedTotal);
      linear - 5_000 * |p.percentLines| <= scaled <= linear + 4_999 * |p.percentLines|
  {
    TaxesBound(gross, p.percentLines);
    assert gross * (BPS_DENOMINATOR - p.aggregateBps) == 10_000 * gross - gross * p.aggregateBps;
  }

  /** A function that climbs at most one unit a step takes, between two values, every value in between. */
  lemma {:induction false} FirstReach(lo: int, net: int, hi: int, p: Partitioned) returns (gross: int)
    requires ValidPartition(p) && 0 <= lo <= hi
    requires Net(lo, p) <= net <= Net(hi, p)
    ensures lo <= gross <= hi && Net(gross, p) == net
    ensures forall g :: lo <= g < gross ==> Net(g, p) != net
  {
    gross := lo;
    while Net(gross, p) != net
      invariant lo <= gross <= hi && Net(gross, p) <= net
      invariant forall g :: lo <= g < gross ==> Net(g, p) != net
      decreases hi - gross
    {
      NetStep(gross, p);
      gross := gross + 1;
    }
  }

  // The seed and the window around it.

  function SeedBase(net: int, p: Partitioned): int {
    net - p.reimbursement + p.fixedTotal
  }

  function Denominator(p: Partitioned): int {
    BPS_DENOMINATOR - p.aggregateBps
  }

  function Seed(net: int, p: Partitioned): int
    requires Denominator(p) > 0
  {
    var numerator := SeedBase(net, p) * BPS_DENOMINATOR;
    if numerator == 0 then 0 else CeilDiv(numerator, Denominator(p))
  }

  function Pad(p: Partitioned): int
    requires Denominator(p) > 0
  {
    var k := |p.percentLines|;
    if k == 0 then 2 else CeilDiv(k * BPS_DENOMINATOR, Denominator(p)) + 2
  }

  function WindowLow(net: int, p: Partitioned): int
    requires Denominator(p) > 0
  {
    var lo := Seed(net, p) - Pad(p);
    if lo < 0 then 0 else lo
  }

  lemma CeilDivBound(a: int, b: int)
    requires a >= 0 && b > 0
    ensures a <= b * CeilDiv(a, b) <= a + b - 1
    ensures 0 <= CeilDiv(a, b) <= a
  {
    var q := CeilDiv(a, b);
    assert a + b - 1 == b * q + (a + b - 1) % b;
    if a == 0 {
      assert q == 0;
    } else {
      Increasing(a - 1, 1, b);
      Distribute(b, q, -a);
      assert q <= a by {
        if q > a {
          Increasing(b, a + 1, q);
          Distribute(b, a, 1);
        }
      }
    }
  }

  lemma SeedBound(net: int, p: Partitioned)
    requires ValidPartition(p) && SeedBase(net, p) >= 0
    ensures var d, n := Denominator(p), 10_000 * SeedBase(net, p); n <= d * Seed(net, p) <= n + d - 1
    ensures 0 <= Seed(net, p) <= 10_000 * SeedBase(net, p)
    ensures Denominator(p) * Pad(p) >= 10_000 * |p.percentLines| + 2 * Denominator(p)
    ensures 2 <= Pad(p) <= 10_000 * |p.percentLines| + 2
  {
    var d := Denominator(p);
    CeilDivBound(SeedBase(net, p) * 10_000, d);
    CeilDivBound(|p.percentLines| * 10_000, d);
    assert d * (CeilDiv(|p.percentLines| * 10_000, d) + 2) == d * CeilDiv(|p.percentLines| * 10_000, d) + 2 * d;
  }

  lemma BelowSeed(d: int, gross: int, seed: int, pad: int, n: int, slack: int)
    requires d > 0 && gross < seed - pad
    requires d * seed <= n + d - 1 && d * pad >= slack + 2 * d
    ensures gross * d + slack < n
  {
    Distribute(d, seed - pad, pad);
    Distribute(d, gross, 1);
    Increasing(d, gross + 1, seed - pad);
  }

  lemma Increasing(d: int, a: int, b: int)
    requires d >= 0 && a <= b
    ensures d * a <= d * b
  {
  }

  lemma NoSolutionBelowWindow(gross: int, net: int, p: Partitioned)
    requires ValidPartition(p) && SeedBase(net, p) >= 0
    requires 0 <= gross < WindowLow(net, p)
    ensures Net(gross, p) < net
  {
    SeedBound(net, p);
    NetNearLinear(gross, p);
    BelowSeed(Denominator(p), gross, Seed(net, p), Pad(p), 10_000 * SeedBase(net, p), 10_000 * |p.percentLines|);
  }

  lemma AtWindowTop(d: int, seed: int, pad: int, n: int, slack: int)
    requires d > 0 && n <= d * seed && d * pad >= slack + 2 * d
    ensures n <= (seed + pad) * d - slack
  {
    assert (seed + pad) * d == d * seed + d * pad;
  }

  lemma WindowTopReaches(net: int, p: Partitioned)
    requires ValidPartition(p) && SeedBase(net, p) >= 0
    ensures net <= Net(Seed(net, p) + Pad(p), p)
  {
    SeedBound(net, p);
    NetNearLinear(Seed(net, p) + Pad(p), p);
    AtWindowTop(Denominator(p), Seed(net, p), Pad(p), 10_000 * SeedBase(net, p), 10_000 * |p.percentLines|);
  }

  /**
   * Every net of at least R − ΣF is the take-home of some gross, and the least such gross lies in
   * the scanned window.
   */
  lemma LeastGrossInWindow(net: int, p: Partitioned) returns (gross: int)
    requires ValidPartition(p) && SeedBase(net, p) >= 0
    ensures IsLeastGross(gross, net, p)
    ensures WindowLow(net, p) <= gross <= Seed(net, p) + Pad(p)
  {
    SeedBound(net, p);
    WindowTopReaches(net, p);
    TaxesAtZero(p.percentLines);
    gross := FirstReach(0, net, Seed(net, p) + Pad(p), p);
    if gross < WindowLow(net, p) {
      NoSolutionBelowWindow(gross, net, p);
    }
  }

  // When the gross is unique, and when the early rejection is right.

  /** Net pay grows beyond every bound: some gross of at least lo pays at least net. */
  lemma NetUnbounded(lo: nat, net: int, p: Partitioned) returns (hi: int)
    requires ValidPartition(p)
    ensures lo <= hi && net <= Net(hi, p)
  {
    var base := SeedBase(net, p);
    hi := lo + 10_000 * (if base < 0 then 0 else base) + 5_000 * |p.percentLines|;
    NetNearLinear(hi, p);
    Increasing(hi, 1, Denominator(p));
  }

  /** Once net pay is at or below a value, it takes that value again further on. */
  lemma Returns(lo: nat, net: int, p: Partitioned) returns (gross: int)
    requires ValidPartition(p) && Net(lo, p) <= net
    ensures lo <= gross && Net(gross, p) == net
  {
    var hi := NetUnbounded(lo, net, p);
    gross := FirstReach(lo, net, hi, p);
  }

  lemma {:induction false} TaxesAtTenThousand(lines: seq<Line>)
    requires PercentLines(lines)
    ensures Taxes(10_000, lines) == Total(lines, Bps) && (lines != [] ==> Total(lines, Bps) > 0)
  {
    if lines != [] {
      TaxesAtTenThousand(lines[..|lines| - 1]);
      assert HalfUp(10_000, Bps(lines[|lines| - 1])) == Bps(lines[|lines| - 1]);
    }
  }

  /** With percent lines net pay stalls or dips somewhere: ten thousand steps gain less than ten thousand. */
  lemma NetStalls(p: Partitioned) returns (gross: nat)
    requires ValidPartition(p) && p.percentLines != []
    ensures Net(gross + 1, p) <= Net(gross, p)
  {
    TaxesAtZero(p.percentLines);
    TaxesAtTenThousand(p.percentLines);
    gross := 0;
    while Net(gross + 1, p) > Net(gross, p)
      invariant Net(gross, p) == Net(0, p) + gross && gross < 10_000
      decreases 10_000 - gross
    {
      NetStep(gross, p);
      gross := gross + 1;
    }
  }

  ghost predicate GrossIsUnique(p: Partitioned) {
    forall g: nat, h: nat :: Net(g, p) == Net(h, p) ==> g == h
  }

  /** The gross of a net deposit is unique exactly when the template has no percent line. */
  lemma GrossIsUniqueExactly(p: Partitioned)
    requires ValidPartition(p)
    ensures GrossIsUnique(p) <==> p.percentLines == []
  {
    if p.percentLines != [] {
      var g := NetStalls(p);
      var h := Returns(g + 1, Net(g, p), p);
      assert g != h && Net(g, p) == Net(h, p);
    } else {
      assert forall g: nat :: Taxes(g, p.percentLines) == 0;
    }
  }

  /** An instance: with two 4999 bps lines a gross of 2 pays what a gross of 0 pays. */
  lemma GrossIsNotUnique(a: Line, b: Line, p: Partitioned)
    requires a.bps == b.bps == Some(4_999)
    requires p.percentLines == [a, b] && p.fixedTotal == 0 && p.reimbursement == 0
    ensures Net(0, p) == 0 && Net(1, p) == 1 && Net(2, p) == 0
  {
    assert [a, b][..1] == [a];
    assert forall g :: Taxes(g, [a, b]) == Taxes(g, [a]) + HalfUp(g, 4_999);
    assert forall g :: Taxes(g, [a]) == HalfUp(g, 4_999);
  }

  /** Some gross pays the net. */
  ghost predicate Reachable(net: int, p: Partitioned) {
    exists gross: nat :: Net(gross, p) == net
  }

  /** Net pay dips to the net or below, at a gross small enough for rounding to outweigh the slope. */
  ghost predicate DipsTo(net: int, p: Partitioned) {
    exists gross: nat :: gross * Denominator(p) < 5_000 * |p.percentLines| && Net(gross, p) <= net
  }

  /**
   * A net below R − ΣF is turned away before the scan; some gross pays it all the same exactly when net pay
   * dips to it.
   */
  lemma RejectedYetReachableExactly(net: int, p: Partitioned)
    requires ValidPartition(p) && SeedBase(net, p) < 0
    ensures Reachable(net, p) <==> DipsTo(net, p)
  {
    if Reachable(net, p) {
      var gross: nat :| Net(gross, p) == net;
      NetNearLinear(gross, p);
      assert gross * Denominator(p) < 5_000 * |p.percentLines|;
    }
    if DipsTo(net, p) {
      var gross: nat :| gross * Denominator(p) < 5_000 * |p.percentLines| && Net(gross, p) <= net;
      var again := Returns(gross, net, p);
    }
  }

  /** An instance: with three 3333 bps lines and one unit reimbursed, gross 2 pays the rejected net 0. */
  lemma RejectedYetReachable(l: Line, p: Partitioned)
    requires l.bps == Some(3_333)
    requires p.percentLines == [l, l, l] && p.fixedTotal == 0 && p.reimbursement == 1
    ensures SeedBase(0, p) < 0 && Net(2, p) == 0
  {
    assert [l, l, l][..2] == [l, l] && [l, l][..1] == [l];
    assert Taxes(2, [l]) == 1 && Taxes(2, [l, l]) == 2;
  }

  // The guarded scan.

  method NetAtGross(gross: int, p: Partitioned) returns (r: Result<int, Rejection>)
    requires gross >= 0 && PercentLines(p.percentLines)
    ensures r == if GuardsPass(gross, p.percentLines) then Ok(Net(gross, p)) else Err(BigintOverflow)
  {
    var taxes := 0;
    for i := 0 to |p.percentLines|
      invariant taxes == Taxes(gross, p.percentLines[..i]) <= INT64_MAX
      invariant forall k :: 0 <= k < i ==> gross * Bps(p.percentLines[k]) + 5_000 <= INT64_MAX
    {
      TaxesPrefix(gross, p.percentLines, i + 1);
      TaxOfLine(gross, p.percentLines, i);
      var tax :- PercentHalfUp(gross, Bps(p.percentLines[i]));
      taxes :- AddGuarded(taxes, tax);
    }
    assert p.percentLines[..|p.percentLines|] == p.percentLines;
    return Ok(gross + p.reimbursement - p.fixedTotal - taxes);
  }

  lemma TaxOfLine(gross: int, lines: seq<Line>, i: nat)
    requires gross >= 0 && PercentLines(lines) && i < |lines|
    ensures var bps := Bps(lines[i]);
      && PercentHalfUp(gross, bps) ==
        (if gross * bps + 5_000 <= INT64_MAX then Ok(HalfUp(gross, bps)) else Err(BigintOverflow))
      && Taxes(gross, lines[..i + 1]) == Taxes(gross, lines[..i]) + HalfUp(gross, bps)
  {
    assert lines[..i + 1][..i] == lines[..i];
  }

  lemma {:induction false} TaxesPrefix(gross: int, lines: seq<Line>, i: nat)
    requires gross >= 0 && PercentLines(lines) && i <= |lines|
    ensures Taxes(gross, lines[..i]) <= Taxes(gross, lines)
    decreases |lines| - i
  {
    if i == |lines| {
      assert lines[..i] == lines;
    } else {
      TaxesPrefix(gross, lines, i + 1);
      assert lines[..i + 1][..i] == lines[..i];
      HalfUpStep(gross, Bps(lines[i]));
    }
  }

  lemma {:induction false} GuardsMonotone(low: int, high: int, lines: seq<Line>)
    requires 0 <= low <= high && PercentLines(lines) && GuardsPass(high, lines)
    ensures GuardsPass(low, lines)
    decreases high - low
  {
    if low < high {
      TaxesStep(high - 1, lines);
      forall i | 0 <= i < |lines| ensures (high - 1) * Bps(lines[i]) + 5_000 <= INT64_MAX {
        HalfUpStep(high - 1, Bps(lines[i]));
      }
      GuardsMonotone(low, high - 1, lines);
    }
  }

  /** Whether any guard on the way to this answer fires. */
  ghost predicate FitsInt64(gross: int, net: int, p: Partitioned) {
    && SeedBase(net, p) * BPS_DENOMINATOR <= INT64_MAX
    && |p.percentLines| * BPS_DENOMINATOR <= INT64_MAX
    && GuardsPass(gross, p.percentLines)
  }

  method SelectGross(net: int, p: Partitioned) returns (r: Result<int, Rejection>)
    requires ValidPartition(p)
    ensures SeedBase(net, p) < 0 ==> r == Err(ReimbursementExceedsSeed(p.reimbursement))
    ensures SeedBase(net, p) >= 0 ==> exists gross :: IsLeastGross(gross, net, p)
    ensures forall gross :: SeedBase(net, p) >= 0 && IsLeastGross(gross, net, p) ==>
      r == if FitsInt64(gross, net, p) then Ok(gross) else Err(BigintOverflow)
  {
    var base := SeedBase(net, p);
    if base < 0 {
      return Err(ReimbursementExceedsSeed(p.reimbursement));
    }
    ghost var least := LeastGrossInWindow(net, p);
    LeastIsUnique(least, net, p);
    var numerator :- MulGuarded(base, BPS_DENOMINATOR);
    var denominator := BPS_DENOMINATOR - p.aggregateBps;
    var seed := if numerator == 0 then 0 else CeilDiv(numerator, denominator);
    var k := |p.percentLines|;
    var pad := 2;
    if k != 0 {
      var scaled :- MulGuarded(k, BPS_DENOMINATOR);
      pad := CeilDiv(scaled, denominator) + 2;
    }
    var lo := if seed - pad < 0 then 0 else seed - pad;
    var hi := seed + pad;
    var gross := lo;
    while gross <= hi
      invariant lo <= gross <= least
    {
      var attempt := NetAtGross(gross, p);
      if attempt.Err? {
        if GuardsPass(least, p.percentLines) {
          GuardsMonotone(gross, least, p.percentLines);
        }
        return Err(BigintOverflow);
      }
      if attempt.value == net {
        return Ok(gross);
      }
      gross := gross + 1;
    }
    return Err(DoesNotReconcile(NoIntegerGross));
  }

  lemma LeastIsUnique(least: int, net: int, p: Partitioned)
    requires IsLeastGross(least, net, p)
    ensures forall gross :: IsLeastGross(gross, net, p) ==> gross == least
  {
  }

  lemma SmallGrossFits(gross: int, p: Partitioned)
    requires ValidPartition(p) && 0 <= gross <= 900_000_000_000_002
    requires |p.percentLines| <= 90_000_000_000
    ensures GuardsPass(gross, p.percentLines)
  {
    forall i | 0 <= i < |p.percentLines| ensures gross * Bps(p.percentLines[i]) + 5_000 <= INT64_MAX {
      AtMostTenThousandfold(gross, Bps(p.percentLines[i]));
    }
    TaxesBound(gross, p.percentLines);
    AtMostTenThousandfold(gross, p.aggregateBps);
  }

  lemma AtMostTenThousandfold(gross: int, bps: int)
    requires gross >= 0 && bps <= 10_000
    ensures gross * bps <= gross * 10_000
  {
  }

  /** Up to ninety billion minor units and percent lines together, no int64 guard can fire. */
  lemma SmallPaycheckFits(gross: int, net: int, p: Partitioned)
    requires ValidPartition(p) && SeedBase(net, p) >= 0
    requires SeedBase(net, p) + |p.percentLines| <= 90_000_000_000
    requires IsLeastGross(gross, net, p)
    ensures FitsInt64(gross, net, p)
  {
    var least := LeastGrossInWindow(net, p);
    LeastIsUnique(least, net, p);
    SeedBound(net, p);
    SmallGrossFits(gross, p);
  }
}

/** The greedy matching both detectors run over ranked candidate pairs. */
module Matching {
  import opened Sorting

  // A candidate pair of a left and a right participant, named by their identities.
  datatype Ends<L, R> = Ends(left: L, right: R)

  predicate Clash<L(==), R(==)>(a: Ends<L, R>, b: Ends<L, R>) {
    a.left == b.left || a.right == b.right
  }

  function Lefts<C, L(==), R>(pairs: seq<C>, ends: C -> Ends<L, R>): set<L> {
    set i | 0 <= i < |pairs| :: ends(pairs[i]).left
  }

  function Rights<C, L, R(==)>(pairs: seq<C>, ends: C -> Ends<L, R>): set<R> {
    set i | 0 <= i < |pairs| :: ends(pairs[i]).right
  }

  predicate Free<C, L(==), R(==)>(chosen: seq<C>, ends: C -> Ends<L, R>, c: C) {
    ends(c).left !in Lefts(chosen, ends) && ends(c).right !in Rights(chosen, ends)
  }

  /** Taking each ranked pair whose ends are both still unused. */
  function Greedy<C, L(==), R(==)>(ranked: seq<C>, ends: C -> Ends<L, R>): seq<C> {
    if ranked == [] then []
    else
      var before, c := Greedy(ranked[..|ranked| - 1], ends), ranked[|ranked| - 1];
      if Free(before, ends, c) then before + [c] else before
  }

  ghost predicate IsMatching<C(!new), L, R>(pairs: seq<C>, ends: C -> Ends<L, R>) {
    forall i, j :: 0 <= i < j < |pairs| ==> !Clash(ends(pairs[i]), ends(pairs[j]))
  }

  lemma {:induction false} GreedyIsMatching<C(!new), L, R>(ranked: seq<C>, ends: C -> Ends<L, R>)
    ensures IsMatching(Greedy(ranked, ends), ends)
    ensures forall c :: c in Greedy(ranked, ends) ==> c in ranked
  {
    if ranked != [] {
      var init, c := ranked[..|ranked| - 1], ranked[|ranked| - 1];
      GreedyIsMatching(init, ends);
      var before := Greedy(init, ends);
      if Free(before, ends, c) {
        forall i | 0 <= i < |before| ensures !Clash(ends(before[i]), ends(c)) {
          assert before[i] in before;
        }
      }
    }
  }

  /** A chosen pair ranked no later shares an end with c. */
  ghost predicate Settled<C, L, R>(chosen: seq<C>, ends: C -> Ends<L, R>, le: (C, C) -> bool, c: C) {
    exists k :: 0 <= k < |chosen| && Clash(ends(chosen[k]), ends(c)) && le(chosen[k], c)
  }

  lemma SettledStays<C, L, R>(chosen: seq<C>, x: C, ends: C -> Ends<L, R>, le: (C, C) -> bool, c: C)
    requires Settled(chosen, ends, le, c)
    ensures Settled(chosen + [x], ends, le, c)
  {
    var k :| 0 <= k < |chosen| && Clash(ends(chosen[k]), ends(c)) && le(chosen[k], c);
    assert (chosen + [x])[k] == chosen[k];
  }

  lemma LastIsSettled<C(!new), L, R>(ranked: seq<C>, ends: C -> Ends<L, R>, le: (C, C) -> bool)
    requires ranked != [] && SortedBy(ranked, le) && le(ranked[|ranked| - 1], ranked[|ranked| - 1])
    ensures Settled(Greedy(ranked, ends), ends, le, ranked[|ranked| - 1])
  {
    var init, last := ranked[..|ranked| - 1], ranked[|ranked| - 1];
    var before := Greedy(init, ends);
    if Free(before, ends, last) {
      assert (before + [last])[|before|] == last;
    } else {
      var k :| 0 <= k < |before| && Clash(ends(before[k]), ends(last));
      GreedyIsMatching(init, ends);
      assert before[k] in before;
      var i :| 0 <= i < |init| && init[i] == before[k];
      assert le(ranked[i], ranked[|ranked| - 1]);
    }
  }

  /** No blocking pair: every candidate is, or clashes with, a chosen pair ranked no later. */
  lemma {:induction false} GreedyLeavesNoBlockingPair<C(!new), L, R>(ranked: seq<C>, ends: C -> Ends<L, R>,
                                                                     le: (C, C) -> bool)
    requires TotalPreorder(le) && SortedBy(ranked, le)
    ensures forall i :: 0 <= i < |ranked| ==> Settled(Greedy(ranked, ends), ends, le, ranked[i])
  {
    if ranked != [] {
      var init, last := ranked[..|ranked| - 1], ranked[|ranked| - 1];
      GreedyLeavesNoBlockingPair(init, ends, le);
      assert le(last, last);
      LastIsSettled(ranked, ends, le);
      hide Settled, SortedBy, TotalPreorder;
      forall i | 0 <= i < |ranked| ensures Settled(Greedy(ranked, ends), ends, le, ranked[i]) {
        if i < |init| {
          assert Settled(Greedy(init, ends), ends, le, init[i]);
          if Free(Greedy(init, ends), ends, last) {
            SettledStays(Greedy(init, ends), last, ends, le, ranked[i]);
          }
        }
      }
    }
  }

  // A matching whose every pair touches one of two sets of ends is no larger than the two together.
  lemma {:induction false} CoveredMatching<C(!new), L, R>(pairs: seq<C>, ends: C -> Ends<L, R>,
                                                          lefts: set<L>, rights: set<R>)
    requires IsMatching(pairs, ends)
    requires forall i :: 0 <= i < |pairs| ==> ends(pairs[i]).left in lefts || ends(pairs[i]).right in rights
    ensures |pairs| <= |lefts| + |rights|
  {
    if pairs != [] {
      var init, e := pairs[..|pairs| - 1], ends(pairs[|pairs| - 1]);
      forall i | 0 <= i < |init| ensures !Clash(ends(init[i]), e) {
        assert init[i] == pairs[i];
      }
      if e.left in lefts {
        CoveredMatching(init, ends, lefts - {e.left}, rights);
      } else {
        CoveredMatching(init, ends, lefts, rights - {e.right});
      }
    }
  }

  lemma EndsAppend<C(!new), L, R>(pairs: seq<C>, c: C, ends: C -> Ends<L, R>)
    ensures Lefts(pairs + [c], ends) == Lefts(pairs, ends) + {ends(c).left}
    ensures Rights(pairs + [c], ends) == Rights(pairs, ends) + {ends(c).right}
  {
    var all := pairs + [c];
    assert all[|pairs|] == c;
    assert forall i :: 0 <= i < |pairs| ==> all[i] == pairs[i];
    forall x ensures x in Lefts(all, ends) <==> x in Lefts(pairs, ends) + {ends(c).left} {
      if x in Lefts(pairs, ends) {
        var i :| 0 <= i < |pairs| && ends(pairs[i]).left == x;
        assert ends(all[i]).left == x;
      } else if x == ends(c).left {
        assert ends(all[|pairs|]).left == x;
      }
    }
    forall x ensures x in Rights(all, ends) <==> x in Rights(pairs, ends) + {ends(c).right} {
      if x in Rights(pairs, ends) {
        var i :| 0 <= i < |pairs| && ends(pairs[i]).right == x;
        assert ends(all[i]).right == x;
      } else if x == ends(c).right {
        assert ends(all[|pairs|]).right == x;
      }
    }
  }

  lemma {:induction false} EndsAtMost<C(!new), L, R>(pairs: seq<C>, ends: C -> Ends<L, R>)
    ensures |Lefts(pairs, ends)| <= |pairs| && |Rights(pairs, ends)| <= |pairs|
  {
    if pairs == [] {
      assert Lefts(pairs, ends) == {} && Rights(pairs, ends) == {};
    } else {
      var init, last := pairs[..|pairs| - 1], pairs[|pairs| - 1];
      EndsAtMost(init, ends);
      assert pairs == init + [last];
      EndsAppend(init, last, ends);
    }
  }

  /** The greedy matching has at least half the size of any matching of the candidates. */
  lemma GreedyIsHalfOptimal<C(!new), L, R>(ranked: seq<C>, ends: C -> Ends<L, R>, le: (C, C) -> bool, other: seq<C>)
    requires TotalPreorder(le) && SortedBy(ranked, le)
    requires IsMatching(other, ends) && forall c :: c in other ==> c in ranked
    ensures |other| <= 2 * |Greedy(ranked, ends)|
  {
    var chosen := Greedy(ranked, ends);
    GreedyLeavesNoBlockingPair(ranked, ends, le);
    EndsAtMost(chosen, ends);
    forall i | 0 <= i < |other|
      ensures ends(other[i]).left in Lefts(chosen, ends) || ends(other[i]).right in Rights(chosen, ends)
    {
      assert other[i] in other;
      var j :| 0 <= j < |ranked| && ranked[j] == other[i];
      assert Settled(chosen, ends, le, ranked[j]);
      var k :| 0 <= k < |chosen| && Clash(ends(chosen[k]), ends(other[i])) && le(chosen[k], other[i]);
    }
    CoveredMatching(other, ends, Lefts(chosen, ends), Rights(chosen, ends));
  }

  // One step of the loop that keeps the used ends in two sets.
  lemma GreedyStep<C(!new), L, R>(ranked: seq<C>, i: nat, ends: C -> Ends<L, R>)
    requires i < |ranked|
    ensures var before, c := Greedy(ranked[..i], ends), ranked[i];
      && Greedy(ranked[..i + 1], ends) == (if Free(before, ends, c) then before + [c] else before)
      && Lefts(before + [c], ends) == Lefts(before, ends) + {ends(c).left}
      && Rights(before + [c], ends) == Rights(before, ends) + {ends(c).right}
  {
    assert ranked[..i + 1][..i] == ranked[..i];
    EndsAppend(Greedy(ranked[..i], ends), ranked[i], ends);
  }
}

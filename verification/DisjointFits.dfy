/** Choosing, among all fits proposed for a group, a set that never claims a transaction twice. */
module DisjointFits {
  import opened Wrappers
  import opened Sorting
  import opened RecurringFits
  import opened Cadence

  function CadencePriority(cadence: CadenceName): int {
    match cadence
    case Weekly => 0
    case Biweekly => 1
    case Semimonthly => 2
    case Monthly => 3
    case Quarterly => 4
    case Annual => 5
  }

  // a sorts no later than b: score, matches, residual, cadence, then the fit key.
  predicate FitLe(keyLe: (FitKey, FitKey) -> bool, a: Fit, b: Fit) {
    if a.scoreBps != b.scoreBps then a.scoreBps > b.scoreBps
    else if |a.matched| != |b.matched| then |a.matched| > |b.matched|
    else if a.residualDays != b.residualDays then a.residualDays < b.residualDays
    else if CadencePriority(a.cadence) != CadencePriority(b.cadence)
    then CadencePriority(a.cadence) < CadencePriority(b.cadence)
    else keyLe(a.fitKey, b.fitKey)
  }

  function FitOrder(keyLe: (FitKey, FitKey) -> bool): (Fit, Fit) -> bool {
    (a, b) => FitLe(keyLe, a, b)
  }

  lemma FitOrderIsPreorder(keyLe: (FitKey, FitKey) -> bool)
    requires TotalOrder(keyLe)
    ensures TotalPreorder(FitOrder(keyLe))
  {
  }

  /** The cadence comes before the other, from weekly to annual. */
  predicate Faster(a: CadenceName, b: CadenceName) {
    match a
    case Weekly => b != Weekly
    case Biweekly => b != Weekly && b != Biweekly
    case Semimonthly => b == Monthly || b == Quarterly || b == Annual
    case Monthly => b == Quarterly || b == Annual
    case Quarterly => b == Annual
    case Annual => false
  }

  /**
   * A fit goes first if it scores higher; if it scores the same and matches more; then if it is off by fewer
   * days, then if its cadence is faster, and last by its key.
   */
  predicate GoesFirst(keyLe: (FitKey, FitKey) -> bool, a: Fit, b: Fit) {
    || a.scoreBps > b.scoreBps
    || (a.scoreBps == b.scoreBps && |a.matched| > |b.matched|)
    || (a.scoreBps == b.scoreBps && |a.matched| == |b.matched| && a.residualDays < b.residualDays)
    || (a.scoreBps == b.scoreBps && |a.matched| == |b.matched| && a.residualDays == b.residualDays
        && (Faster(a.cadence, b.cadence) || (a.cadence == b.cadence && keyLe(a.fitKey, b.fitKey))))
  }

  lemma FitOrderByFields(keyLe: (FitKey, FitKey) -> bool)
    ensures forall a, b :: FitOrder(keyLe)(a, b) <==> GoesFirst(keyLe, a, b)
  {
  }

  // Keeping the best fit of every key, in the order the keys first appear.

  function PlaceOf(unique: seq<Fit>, key: FitKey): (i: nat)
    ensures i <= |unique| && (i < |unique| ==> unique[i].fitKey == key)
    ensures i == |unique| ==> forall k :: 0 <= k < |unique| ==> unique[k].fitKey != key
  {
    if unique == [] then 0
    else
      var n := |unique| - 1;
      var before := PlaceOf(unique[..n], key);
      if before < n then before else if unique[n].fitKey == key then n else n + 1
  }

  function Offered(unique: seq<Fit>, fit: Fit, keyLe: (FitKey, FitKey) -> bool): seq<Fit> {
    var i := PlaceOf(unique, fit.fitKey);
    if i == |unique| then unique + [fit]
    else if FitLe(keyLe, fit, unique[i]) && !FitLe(keyLe, unique[i], fit) then unique[i := fit]
    else unique
  }

  /** The fit MakeFit returns for a proposal. */
  ghost function Made(p: Proposal, idLe: (string, string) -> bool): Option<Fit>
    requires Collation(idLe)
  {
    var chosen := Chosen(p.subset, p.slots, p.toleranceDays, idLe);
    if |chosen| >= 3 && PassesQualityGate(|chosen|, SlotSpan(chosen), GapOf(chosen)) then
      FitIsSpanned(p, idLe);
      Some(FitFor(p, idLe))
    else None
  }

  ghost function UniqueFits(proposals: seq<Proposal>, idLe: (string, string) -> bool,
                            keyLe: (FitKey, FitKey) -> bool): seq<Fit>
    requires Collation(idLe)
  {
    if proposals == [] then []
    else
      var before := UniqueFits(proposals[..|proposals| - 1], idLe, keyLe);
      var made := Made(proposals[|proposals| - 1], idLe);
      if made.Some? then Offered(before, made.value, keyLe) else before
  }

  ghost predicate DistinctKeys(fits: seq<Fit>) {
    forall i, j :: 0 <= i < j < |fits| ==> fits[i].fitKey != fits[j].fitKey
  }

  ghost predicate Represented(unique: seq<Fit>, fit: Fit, keyLe: (FitKey, FitKey) -> bool) {
    exists i :: 0 <= i < |unique| && unique[i].fitKey == fit.fitKey && GoesFirst(keyLe, unique[i], fit)
  }

  lemma OfferedKeepsRepresented(unique: seq<Fit>, fit: Fit, other: Fit, keyLe: (FitKey, FitKey) -> bool)
    requires TotalOrder(keyLe) && Represented(unique, other, keyLe)
    ensures Represented(Offered(unique, fit, keyLe), other, keyLe)
  {
    FitOrderIsPreorder(keyLe);
    FitOrderByFields(keyLe);
    var after, order := Offered(unique, fit, keyLe), FitOrder(keyLe);
    var i :| 0 <= i < |unique| && unique[i].fitKey == other.fitKey && GoesFirst(keyLe, unique[i], other);
    hide GoesFirst;
    assert order(unique[i], other);
    assert after[i].fitKey == other.fitKey;
    if after[i] != unique[i] {
      assert order(after[i], unique[i]) && order(unique[i], other);
      assert order(after[i], other);
    }
  }

  lemma OfferedIsRepresented(unique: seq<Fit>, fit: Fit, keyLe: (FitKey, FitKey) -> bool)
    requires TotalOrder(keyLe)
    ensures Represented(Offered(unique, fit, keyLe), fit, keyLe)
  {
    FitOrderIsPreorder(keyLe);
    FitOrderByFields(keyLe);
    hide GoesFirst;
    var after, order, i := Offered(unique, fit, keyLe), FitOrder(keyLe), PlaceOf(unique, fit.fitKey);
    assert order(fit, fit);
    assert i < |unique| ==> order(fit, unique[i]) || order(unique[i], fit);
    assert after[i].fitKey == fit.fitKey && order(after[i], fit);
  }

  ghost predicate Proposed(fit: Fit, proposals: seq<Proposal>, idLe: (string, string) -> bool)
    requires Collation(idLe)
  {
    exists p :: p in proposals && Made(p, idLe) == Some(fit)
  }

  /** The fit is made by a proposal, and none made before under its key goes no later. */
  ghost predicate FirstOfBest(fit: Fit, proposals: seq<Proposal>, idLe: (string, string) -> bool,
                              keyLe: (FitKey, FitKey) -> bool)
    requires Collation(idLe)
  {
    exists i :: 0 <= i < |proposals| && MadeAt(fit, proposals, i, idLe, keyLe)
  }

  ghost predicate MadeAt(fit: Fit, proposals: seq<Proposal>, i: int, idLe: (string, string) -> bool,
                         keyLe: (FitKey, FitKey) -> bool)
    requires Collation(idLe) && 0 <= i < |proposals|
  {
    && Made(proposals[i], idLe) == Some(fit)
    && forall j :: 0 <= j < i ==> !TiesOrBeats(Made(proposals[j], idLe), fit, keyLe)
  }

  predicate TiesOrBeats(made: Option<Fit>, fit: Fit, keyLe: (FitKey, FitKey) -> bool) {
    match made
    case Some(other) => other.fitKey == fit.fitKey && GoesFirst(keyLe, other, fit)
    case None => false
  }

  /** Among fits of one key that tie, the first proposed stays. */
  lemma {:induction false} UniqueFitsKeepFirst(proposals: seq<Proposal>, idLe: (string, string) -> bool,
                                               keyLe: (FitKey, FitKey) -> bool)
    requires Collation(idLe) && TotalOrder(keyLe)
    ensures forall f :: f in UniqueFits(proposals, idLe, keyLe) ==> FirstOfBest(f, proposals, idLe, keyLe)
  {
    hide Made, FitLe, GoesFirst, TiesOrBeats, Offered, Collation, TotalOrder;
    if proposals != [] {
      var n := |proposals| - 1;
      var init, made := proposals[..n], Made(proposals[n], idLe);
      var before := UniqueFits(init, idLe, keyLe);
      UniqueFitsKeepFirst(init, idLe, keyLe);
      UniqueFitsKeepBest(init, idLe, keyLe);
      forall f | f in before ensures FirstOfBest(f, proposals, idLe, keyLe) {
        var i :| 0 <= i < |init| && MadeAt(f, init, i, idLe, keyLe);
        assert MadeAt(f, proposals, i, idLe, keyLe);
      }
      if made.Some? {
        OfferedMembers(before, made.value, keyLe);
        if made.value in Offered(before, made.value, keyLe) && made.value !in before {
          forall j | 0 <= j < n ensures !TiesOrBeats(Made(proposals[j], idLe), made.value, keyLe) {
            assert proposals[j] == init[j] && init[j] in init;
            OfferedOnlyBetter(before, made.value, Made(proposals[j], idLe), keyLe);
          }
          assert MadeAt(made.value, proposals, n, idLe, keyLe);
        }
      }
    }
  }

  /** A fit enters only if nothing under its key ties with it. */
  lemma OfferedOnlyBetter(unique: seq<Fit>, fit: Fit, made: Option<Fit>, keyLe: (FitKey, FitKey) -> bool)
    requires TotalOrder(keyLe) && DistinctKeys(unique) && fit !in unique && fit in Offered(unique, fit, keyLe)
    requires made.Some? ==> Represented(unique, made.value, keyLe)
    ensures !TiesOrBeats(made, fit, keyLe)
  {
    if TiesOrBeats(made, fit, keyLe) {
      var k :| 0 <= k < |unique| && unique[k].fitKey == made.value.fitKey && GoesFirst(keyLe, unique[k], made.value);
      TieIsKept(unique, fit, made.value, k, keyLe);
    }
  }

  lemma TieIsKept(unique: seq<Fit>, fit: Fit, other: Fit, k: int, keyLe: (FitKey, FitKey) -> bool)
    requires TotalOrder(keyLe) && DistinctKeys(unique) && 0 <= k < |unique|
    requires unique[k].fitKey == other.fitKey == fit.fitKey
    requires GoesFirst(keyLe, unique[k], other) && GoesFirst(keyLe, other, fit)
    ensures Offered(unique, fit, keyLe) == unique
  {
    FitOrderIsPreorder(keyLe);
    FitOrderByFields(keyLe);
    hide GoesFirst, TotalOrder;
    assert FitOrder(keyLe)(unique[k], other) && FitOrder(keyLe)(other, fit);
    assert FitOrder(keyLe)(unique[k], fit);
  }

  /** One fit a key survives, no proposal's fit beats it, and each survivor was proposed. */
  lemma {:induction false} UniqueFitsKeepBest(proposals: seq<Proposal>, idLe: (string, string) -> bool,
                                              keyLe: (FitKey, FitKey) -> bool)
    requires Collation(idLe) && TotalOrder(keyLe)
    ensures var unique := UniqueFits(proposals, idLe, keyLe);
      && DistinctKeys(unique)
      && (forall p :: p in proposals && Made(p, idLe).Some? ==> Represented(unique, Made(p, idLe).value, keyLe))
      && (forall f :: f in unique ==> Proposed(f, proposals, idLe))
  {
    if proposals != [] {
      var init, last := proposals[..|proposals| - 1], proposals[|proposals| - 1];
      UniqueFitsKeepBest(init, idLe, keyLe);
      assert forall p :: p in proposals <==> p in init || p == last by {
        assert proposals == init + [last];
      }
      var before, made := UniqueFits(init, idLe, keyLe), Made(last, idLe);
      hide Made, FitLe, GoesFirst;
      if made.Some? {
        OfferedIsRepresented(before, made.value, keyLe);
        OfferedMembers(before, made.value, keyLe);
        forall p | p in init && Made(p, idLe).Some?
          ensures Represented(Offered(before, made.value, keyLe), Made(p, idLe).value, keyLe)
        {
          OfferedKeepsRepresented(before, made.value, Made(p, idLe).value, keyLe);
        }
      }
    }
  }

  lemma OfferedMembers(unique: seq<Fit>, fit: Fit, keyLe: (FitKey, FitKey) -> bool)
    requires DistinctKeys(unique)
    ensures DistinctKeys(Offered(unique, fit, keyLe))
    ensures forall f :: f in Offered(unique, fit, keyLe) ==> f in unique || f == fit
  {
  }

  // Semimonthly fits that explain everything another fit explains, and more.

  predicate Covers(semi: Fit, other: Fit) {
    forall id :: id in TxnIds(other.matched) ==> id in TxnIds(semi.matched)
  }

  predicate Dominates(semi: Fit, other: Fit) {
    && semi.cadence == Semimonthly
    && other.cadence in {Weekly, Biweekly, Monthly}
    && semi.fitKey != other.fitKey
    && |other.matched| > 0 && |semi.matched| > |other.matched|
    && !(other.amountFixed && !semi.amountFixed)
    && Covers(semi, other)
  }

  predicate Dominated(fits: seq<Fit>, other: Fit) {
    exists i :: 0 <= i < |fits| && Dominates(fits[i], other)
  }

  function DominatedKeys(fits: seq<Fit>): set<FitKey> {
    set f | f in fits && Dominated(fits, f) :: f.fitKey
  }

  function IdSet(fit: Fit): set<string> {
    set i | 0 <= i < |fit.matched| :: fit.matched[i].txnId
  }

  function ClaimedBy(fits: seq<Fit>): set<string> {
    if fits == [] then {} else ClaimedBy(fits[..|fits| - 1]) + IdSet(fits[|fits| - 1])
  }

  ghost predicate NothingClaimedTwice(fits: seq<Fit>) {
    forall i, j :: 0 <= i < j < |fits| ==> IdSet(fits[i]) !! IdSet(fits[j])
  }

  // Taking each undominated fit, best first, that claims nothing already claimed.
  function Disjoint(ranked: seq<Fit>, dominated: set<FitKey>): seq<Fit> {
    if ranked == [] then []
    else
      var before, fit := Disjoint(ranked[..|ranked| - 1], dominated), ranked[|ranked| - 1];
      if fit.fitKey in dominated || IdSet(fit) * ClaimedBy(before) != {} then before else before + [fit]
  }

  method ChooseDisjointFits(proposals: seq<Proposal>, idLe: (string, string) -> bool, keyLe: (FitKey, FitKey) -> bool)
    returns (chosen: seq<Fit>)
    requires Collation(idLe) && TotalOrder(keyLe)
    ensures chosen == ChosenFits(UniqueFits(proposals, idLe, keyLe), keyLe)
    ensures Settles(UniqueFits(proposals, idLe, keyLe), keyLe, chosen)
  {
    ChosenFitsSettle(proposals, idLe, keyLe);
    hide Settles;
    var unique: seq<Fit> := [];
    for i := 0 to |proposals|
      invariant unique == UniqueFits(proposals[..i], idLe, keyLe)
    {
      assert proposals[..i + 1][..i] == proposals[..i];
      var made := MakeFit(proposals[i], idLe);
      assert made == Made(proposals[i], idLe);
      if made.Some? {
        unique := Offered(unique, made.value, keyLe);
      }
    }
    assert proposals[..|proposals|] == proposals;
    var dominated := FindDominated(unique);
    chosen := TakeDisjoint(Sort(unique, FitOrder(keyLe)), dominated);
  }

  method FindDominated(fits: seq<Fit>) returns (dominated: set<FitKey>)
    ensures dominated == DominatedKeys(fits)
  {
    dominated := {};
    for i := 0 to |fits|
      invariant dominated == set k | 0 <= k < i && Dominated(fits, fits[k]) :: fits[k].fitKey
    {
      if Dominated(fits, fits[i]) {
        dominated := dominated + {fits[i].fitKey};
      }
    }
    forall key ensures key in dominated <==> key in DominatedKeys(fits) {
      if f :| f in fits && Dominated(fits, f) && f.fitKey == key {
        var k :| 0 <= k < |fits| && fits[k] == f;
        assert fits[k].fitKey in dominated;
      }
    }
  }

  method TakeDisjoint(ranked: seq<Fit>, dominated: set<FitKey>) returns (chosen: seq<Fit>)
    ensures chosen == Disjoint(ranked, dominated)
  {
    var used: set<string> := {};
    chosen := [];
    for i := 0 to |ranked|
      invariant chosen == Disjoint(ranked[..i], dominated) && used == ClaimedBy(chosen)
    {
      assert ranked[..i + 1][..i] == ranked[..i];
      var fit := ranked[i];
      if fit.fitKey in dominated || IdSet(fit) * used != {} {
        continue;
      }
      assert (chosen + [fit])[..|chosen|] == chosen;
      used := used + IdSet(fit);
      chosen := chosen + [fit];
    }
    assert ranked[..|ranked|] == ranked;
  }

  lemma {:induction false} ClaimedExactly(fits: seq<Fit>)
    ensures forall id :: id in ClaimedBy(fits) <==> exists i :: 0 <= i < |fits| && id in IdSet(fits[i])
  {
    if fits != [] {
      ClaimedExactly(fits[..|fits| - 1]);
    }
  }

  /** The fits chosen so far claim no transaction twice and come from the undominated ones, best first. */
  lemma {:induction false} DisjointIsDisjoint(ranked: seq<Fit>, dominated: set<FitKey>)
    ensures var chosen := Disjoint(ranked, dominated);
      && NothingClaimedTwice(chosen)
      && (forall f :: f in chosen ==> f in ranked && f.fitKey !in dominated)
  {
    hide IdSet;
    if ranked != [] {
      var init, fit := ranked[..|ranked| - 1], ranked[|ranked| - 1];
      DisjointIsDisjoint(init, dominated);
      assert ranked == init + [fit];
      if IdSet(fit) * ClaimedBy(Disjoint(init, dominated)) == {} {
        ClaimsNothingTwice(Disjoint(init, dominated), fit);
      }
    }
  }

  lemma ClaimsNothingTwice(fits: seq<Fit>, fit: Fit)
    requires IdSet(fit) * ClaimedBy(fits) == {}
    ensures forall i :: 0 <= i < |fits| ==> IdSet(fits[i]) !! IdSet(fit)
  {
    hide IdSet;
    ClaimedExactly(fits);
    forall i | 0 <= i < |fits| ensures IdSet(fits[i]) !! IdSet(fit) {
      forall id | id in IdSet(fits[i]) ensures id !in IdSet(fit) {
        assert id in ClaimedBy(fits) && id !in IdSet(fit) * ClaimedBy(fits);
      }
    }
  }

  ghost predicate Outranked(chosen: seq<Fit>, keyLe: (FitKey, FitKey) -> bool, fit: Fit) {
    exists i :: 0 <= i < |chosen| && IdSet(chosen[i]) * IdSet(fit) != {} && FitOrder(keyLe)(chosen[i], fit)
  }

  /** An undominated fit is left out only if a chosen fit that sorts no later claims one of its transactions. */
  lemma {:induction false} LeftOutOnlyIfOutranked(ranked: seq<Fit>, dominated: set<FitKey>,
                                                  keyLe: (FitKey, FitKey) -> bool)
    requires SortedBy(ranked, FitOrder(keyLe))
    ensures forall k :: 0 <= k < |ranked| && ranked[k].fitKey !in dominated ==>
      ranked[k] in Disjoint(ranked, dominated) || Outranked(Disjoint(ranked, dominated), keyLe, ranked[k])
  {
    if ranked != [] {
      var init, fit := ranked[..|ranked| - 1], ranked[|ranked| - 1];
      LeftOutOnlyIfOutranked(init, dominated, keyLe);
      var before, after := Disjoint(init, dominated), Disjoint(ranked, dominated);
      assert forall i :: 0 <= i < |before| ==> after[i] == before[i];
      forall k | 0 <= k < |ranked| && ranked[k].fitKey !in dominated
        ensures ranked[k] in after || Outranked(after, keyLe, ranked[k])
      {
        if k < |init| {
          assert ranked[k] == init[k];
          if init[k] !in before {
            var i :| 0 <= i < |before| && IdSet(before[i]) * IdSet(init[k]) != {}
              && FitOrder(keyLe)(before[i], init[k]);
            assert after[i] == before[i];
          }
        } else if after == before {
          ClaimedExactly(before);
          DisjointIsDisjoint(init, dominated);
          var id :| id in IdSet(fit) * ClaimedBy(before);
          var i :| 0 <= i < |before| && id in IdSet(before[i]);
          assert before[i] in init;
          var at :| 0 <= at < |init| && init[at] == before[i];
          assert FitOrder(keyLe)(ranked[at], ranked[k]);
          assert id in IdSet(after[i]) * IdSet(fit);
        } else {
          assert after[|before|] == fit;
        }
      }
    }
  }

  /**
   * The fit is what one of the proposals makes, and on its grid the matched slots leave out no two periods
   * in a row.
   */
  ghost predicate Spaced(fit: Fit, proposals: seq<Proposal>, idLe: (string, string) -> bool)
    requires Collation(idLe)
  {
    exists p :: p in proposals && Made(p, idLe) == Some(fit)
      && GapOf(Chosen(p.subset, p.slots, p.toleranceDays, idLe)) <= MAX_PERIOD_GAP
  }

  /** The fits chosen for a group. */
  ghost function ChosenFits(unique: seq<Fit>, keyLe: (FitKey, FitKey) -> bool): seq<Fit> {
    Disjoint(Sort(unique, FitOrder(keyLe)), DominatedKeys(unique))
  }

  /** Each chosen fit is one of the unique, undominated ones, and no two claim the same transaction. */
  lemma ChosenFitsAreDisjoint(unique: seq<Fit>, keyLe: (FitKey, FitKey) -> bool)
    requires DistinctKeys(unique)
    ensures var chosen := ChosenFits(unique, keyLe);
      && (forall f :: f in chosen ==> f in unique && !Dominated(unique, f))
      && NothingClaimedTwice(chosen)
  {
    SameElements(unique, FitOrder(keyLe));
    DisjointIsDisjoint(Sort(unique, FitOrder(keyLe)), DominatedKeys(unique));
    KeysTellDominated(unique);
  }

  // The choice told by the transactions the fits claim.

  /** The fits claim a transaction in common. */
  predicate Share(a: Fit, b: Fit) {
    exists i, j :: 0 <= i < |a.matched| && 0 <= j < |b.matched| && a.matched[i].txnId == b.matched[j].txnId
  }

  /** A transaction of the same id is among those the fit claims. */
  predicate Claims(fit: Fit, id: string) {
    exists i :: 0 <= i < |fit.matched| && fit.matched[i].txnId == id
  }

  /**
   * A semimonthly fit explains a weekly, biweekly or monthly one if it claims all its transactions and more, and
   * is of one amount if the other is.
   */
  ghost predicate Explains(semi: Fit, other: Fit) {
    && semi.cadence == Semimonthly
    && (other.cadence == Weekly || other.cadence == Biweekly || other.cadence == Monthly)
    && semi.fitKey != other.fitKey && 1 <= |other.matched| < |semi.matched|
    && (other.amountFixed ==> semi.amountFixed)
    && forall i :: 0 <= i < |other.matched| ==> Claims(semi, other.matched[i].txnId)
  }

  ghost predicate Explained(fits: seq<Fit>, other: Fit) {
    exists i :: 0 <= i < |fits| && Explains(fits[i], other)
  }

  /** A fit that goes first claims one of its transactions. */
  ghost predicate LosesTo(keyLe: (FitKey, FitKey) -> bool, chosen: seq<Fit>, fit: Fit) {
    exists i :: 0 <= i < |chosen| && Share(chosen[i], fit) && GoesFirst(keyLe, chosen[i], fit)
  }

  /**
   * The chosen fits share nothing and come best first; none is explained by another fit, and a fit that is
   * neither chosen nor explained loses to a chosen one.
   */
  ghost predicate Settles(unique: seq<Fit>, keyLe: (FitKey, FitKey) -> bool, chosen: seq<Fit>) {
    && (forall f :: f in chosen ==> f in unique && !Explained(unique, f))
    && (forall i, j :: 0 <= i < j < |chosen| ==>
         !Share(chosen[i], chosen[j]) && GoesFirst(keyLe, chosen[i], chosen[j]))
    && (forall f :: f in unique && !Explained(unique, f) && f !in chosen ==> LosesTo(keyLe, chosen, f))
  }

  lemma ShareIsIntersection(a: Fit, b: Fit)
    ensures Share(a, b) <==> IdSet(a) * IdSet(b) != {}
  {
    if Share(a, b) {
      var i, j :| 0 <= i < |a.matched| && 0 <= j < |b.matched| && a.matched[i].txnId == b.matched[j].txnId;
      assert a.matched[i].txnId in IdSet(a) * IdSet(b);
    }
    if IdSet(a) * IdSet(b) != {} {
      var id :| id in IdSet(a) * IdSet(b);
      var i :| 0 <= i < |a.matched| && a.matched[i].txnId == id;
      var j :| 0 <= j < |b.matched| && b.matched[j].txnId == id;
    }
  }

  lemma ExplainsIsDominates(semi: Fit, other: Fit)
    ensures Explains(semi, other) <==> Dominates(semi, other)
  {
    forall id ensures id in TxnIds(semi.matched) <==> Claims(semi, id) {
      if Claims(semi, id) {
        var i :| 0 <= i < |semi.matched| && semi.matched[i].txnId == id;
        assert TxnIds(semi.matched)[i] == id;
      }
    }
    assert forall i :: 0 <= i < |other.matched| ==> TxnIds(other.matched)[i] == other.matched[i].txnId;
    assert Covers(semi, other) <==> forall i :: 0 <= i < |other.matched| ==> Claims(semi, other.matched[i].txnId);
  }

  lemma {:induction false} DisjointSorted(ranked: seq<Fit>, dominated: set<FitKey>, le: (Fit, Fit) -> bool)
    requires SortedBy(ranked, le)
    ensures SortedBy(Disjoint(ranked, dominated), le)
  {
    hide IdSet;
    if ranked != [] {
      var init, fit := ranked[..|ranked| - 1], ranked[|ranked| - 1];
      DisjointSorted(init, dominated, le);
      DisjointIsDisjoint(init, dominated);
      var before := Disjoint(init, dominated);
      forall i | 0 <= i < |before| ensures le(before[i], fit) {
        assert before[i] in init;
        var k :| 0 <= k < |init| && init[k] == before[i];
        assert le(ranked[k], ranked[|ranked| - 1]);
      }
    }
  }

  lemma ExplainedIsDominated(fits: seq<Fit>, f: Fit)
    ensures Explained(fits, f) <==> Dominated(fits, f)
  {
    hide Explains, Dominates;
    forall i | 0 <= i < |fits| ensures Explains(fits[i], f) <==> Dominates(fits[i], f) {
      ExplainsIsDominates(fits[i], f);
    }
  }

  lemma OutrankedLoses(keyLe: (FitKey, FitKey) -> bool, chosen: seq<Fit>, f: Fit)
    requires Outranked(chosen, keyLe, f)
    ensures LosesTo(keyLe, chosen, f)
  {
    hide IdSet, GoesFirst, Share;
    FitOrderByFields(keyLe);
    var i :| 0 <= i < |chosen| && IdSet(chosen[i]) * IdSet(f) != {} && FitOrder(keyLe)(chosen[i], f);
    ShareIsIntersection(chosen[i], f);
  }

  lemma ChosenFitsSettle(proposals: seq<Proposal>, idLe: (string, string) -> bool, keyLe: (FitKey, FitKey) -> bool)
    requires Collation(idLe) && TotalOrder(keyLe)
    ensures var unique := UniqueFits(proposals, idLe, keyLe);
      Settles(unique, keyLe, ChosenFits(unique, keyLe))
  {
    hide Made, UniqueFits, GoesFirst, Share, Collation, IdSet, ChosenFits, Dominated, Explained, FitOrder, TotalOrder,
      Outranked, LosesTo;
    var unique := UniqueFits(proposals, idLe, keyLe);
    var chosen := ChosenFits(unique, keyLe);
    UniqueFitsKeepBest(proposals, idLe, keyLe);
    ChosenFitsAreDisjoint(unique, keyLe);
    LeftOutFitsLose(unique, keyLe);
    ChosenBestFirst(unique, keyLe);
    FitOrderByFields(keyLe);
    forall f ensures Explained(unique, f) <==> Dominated(unique, f) {
      ExplainedIsDominated(unique, f);
    }
    forall f | Outranked(chosen, keyLe, f) ensures LosesTo(keyLe, chosen, f) {
      OutrankedLoses(keyLe, chosen, f);
    }
    forall i, j | 0 <= i < j < |chosen| ensures !Share(chosen[i], chosen[j]) {
      ShareIsIntersection(chosen[i], chosen[j]);
      assert IdSet(chosen[i]) !! IdSet(chosen[j]);
    }
  }

  lemma ChosenBestFirst(unique: seq<Fit>, keyLe: (FitKey, FitKey) -> bool)
    requires TotalOrder(keyLe)
    ensures SortedBy(ChosenFits(unique, keyLe), FitOrder(keyLe))
  {
    FitOrderIsPreorder(keyLe);
    SortSorts(unique, FitOrder(keyLe));
    DisjointSorted(Sort(unique, FitOrder(keyLe)), DominatedKeys(unique), FitOrder(keyLe));
  }

  /** The first chosen fit has the best score of all fits that no other explains. */
  lemma BestScoreIsChosen(unique: seq<Fit>, keyLe: (FitKey, FitKey) -> bool, chosen: seq<Fit>)
    requires Settles(unique, keyLe, chosen)
    ensures forall f :: f in unique && !Explained(unique, f) ==> chosen != [] && chosen[0].scoreBps >= f.scoreBps
  {
    hide Explained, Share;
    forall f | f in unique && !Explained(unique, f) ensures chosen != [] && chosen[0].scoreBps >= f.scoreBps {
      if f in chosen {
        var k :| 0 <= k < |chosen| && chosen[k] == f;
        assert 0 < k ==> GoesFirst(keyLe, chosen[0], chosen[k]);
      } else {
        assert LosesTo(keyLe, chosen, f);
        var k :| 0 <= k < |chosen| && Share(chosen[k], f) && GoesFirst(keyLe, chosen[k], f);
        assert 0 < k ==> GoesFirst(keyLe, chosen[0], chosen[k]);
      }
    }
  }

  /** An undominated fit left out shares a transaction with a chosen fit sorted before it. */
  lemma LeftOutFitsLose(unique: seq<Fit>, keyLe: (FitKey, FitKey) -> bool)
    requires DistinctKeys(unique) && TotalOrder(keyLe)
    ensures var chosen := ChosenFits(unique, keyLe);
      forall f :: f in unique && !Dominated(unique, f) && f !in chosen ==> Outranked(chosen, keyLe, f)
  {
    var ranked := Sort(unique, FitOrder(keyLe));
    FitOrderIsPreorder(keyLe);
    SortSorts(unique, FitOrder(keyLe));
    SameElements(unique, FitOrder(keyLe));
    LeftOutOnlyIfOutranked(ranked, DominatedKeys(unique), keyLe);
    var chosen := ChosenFits(unique, keyLe);
    assert chosen == Disjoint(ranked, DominatedKeys(unique));
    hide *;
    KeysTellDominated(unique);
    forall f | f in unique && !Dominated(unique, f) && f !in chosen ensures Outranked(chosen, keyLe, f) {
      assert f in ranked;
      var k :| 0 <= k < |ranked| && ranked[k] == f;
    }
  }

  /**
   * Every fit chosen for a group passes the quality gate on a one-to-one matching of its proposal:
   * at least three matches, no more than the slots spanned, three fifths of them filled.
   */
  lemma ChosenFitsHaveQuality(proposals: seq<Proposal>, idLe: (string, string) -> bool, keyLe: (FitKey, FitKey) -> bool)
    requires Collation(idLe) && TotalOrder(keyLe)
    ensures forall f :: f in ChosenFits(UniqueFits(proposals, idLe, keyLe), keyLe) ==>
      Quality(f) && Spaced(f, proposals, idLe)
  {
    var unique := UniqueFits(proposals, idLe, keyLe);
    UniqueFitsKeepBest(proposals, idLe, keyLe);
    ChosenFitsAreDisjoint(unique, keyLe);
    forall f | f in ChosenFits(unique, keyLe) ensures Quality(f) && Spaced(f, proposals, idLe) {
      assert Proposed(f, proposals, idLe);
      var p :| p in proposals && Made(p, idLe) == Some(f);
      MadeHasQuality(p, idLe);
    }
  }

  /** What dominates a fit is a semimonthly fit, and nothing dominates those: some fit is always undominated. */
  lemma SomeUndominated(unique: seq<Fit>) returns (fit: Fit)
    requires unique != []
    ensures fit in unique && !Dominated(unique, fit)
  {
    fit := unique[0];
    if Dominated(unique, fit) {
      var i :| 0 <= i < |unique| && Dominates(unique[i], fit);
      fit := unique[i];
    }
  }

  /** Detection finds something in a group exactly when some proposal passes the quality gate. */
  lemma SomethingIsChosen(proposals: seq<Proposal>, idLe: (string, string) -> bool, keyLe: (FitKey, FitKey) -> bool)
    requires Collation(idLe) && TotalOrder(keyLe)
    ensures ChosenFits(UniqueFits(proposals, idLe, keyLe), keyLe) != [] <==>
      exists p :: p in proposals && Made(p, idLe).Some?
  {
    hide Made, UniqueFits, ChosenFits, Dominated, Collation, TotalOrder, FitLe;
    var unique := UniqueFits(proposals, idLe, keyLe);
    UniqueFitsKeepBest(proposals, idLe, keyLe);
    ChosenFitsAreDisjoint(unique, keyLe);
    if unique != [] {
      assert unique[0] in unique;
      assert Proposed(unique[0], proposals, idLe);
      var fit := SomeUndominated(unique);
      LeftOutFitsLose(unique, keyLe);
      assert fit in ChosenFits(unique, keyLe) || Outranked(ChosenFits(unique, keyLe), keyLe, fit);
    } else {
      NothingRepresented(proposals, idLe, keyLe);
      SomeMember(ChosenFits(unique, keyLe));
    }
  }

  lemma SomeMember(fits: seq<Fit>)
    ensures fits != [] ==> exists f :: f in fits
  {
    if fits != [] {
      assert fits[0] in fits;
    }
  }

  lemma NothingRepresented(proposals: seq<Proposal>, idLe: (string, string) -> bool, keyLe: (FitKey, FitKey) -> bool)
    requires Collation(idLe)
    requires forall p :: p in proposals && Made(p, idLe).Some? ==> Represented([], Made(p, idLe).value, keyLe)
    ensures forall p :: p in proposals ==> Made(p, idLe).None?
  {
    hide Made;
  }

  lemma KeysTellDominated(unique: seq<Fit>)
    requires DistinctKeys(unique)
    ensures forall f :: f in unique ==> (f.fitKey in DominatedKeys(unique) <==> Dominated(unique, f))
  {
  }

  lemma MadeHasQuality(p: Proposal, idLe: (string, string) -> bool)
    requires Collation(idLe) && Made(p, idLe).Some?
    ensures Quality(Made(p, idLe).value)
  {
    FitIsSpanned(p, idLe);
  }
}

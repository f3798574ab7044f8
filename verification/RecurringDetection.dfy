/** Detecting the recurring series of one group: its subsets, their proposals, and the fits chosen. */
module RecurringDetection {
  import opened Wrappers
  import opened Arithmetic
  import opened Sorting
  import opened CivilDate
  import opened Cadence
  import opened RecurringFits
  import opened DisjointFits
  import opened RecurringGrids

  // The subsets: every amount seen three times or more, then the whole group, without repeats.

  function Amounts(group: seq<Txn>): (r: seq<int>)
    ensures |r| == |group| && forall i :: 0 <= i < |group| ==> r[i] == group[i].amount
  {
    seq(|group|, i requires 0 <= i < |group| => group[i].amount)
  }

  function Bucket(group: seq<Txn>, amount: int): seq<Txn> {
    if group == [] then []
    else
      var last := group[|group| - 1];
      Bucket(group[..|group| - 1], amount) + if last.amount == amount then [last] else []
  }

  function LargeBuckets(group: seq<Txn>, amounts: seq<int>): seq<seq<Txn>> {
    if amounts == [] then []
    else
      var bucket := Bucket(group, amounts[|amounts| - 1]);
      LargeBuckets(group, amounts[..|amounts| - 1]) + if |bucket| >= 3 then [bucket] else []
  }

  function SubsetKey(subset: seq<Txn>, idLe: (string, string) -> bool): seq<string> {
    Sort(TxnIds(subset), idLe)
  }

  function KeysOf(subsets: seq<seq<Txn>>, idLe: (string, string) -> bool): set<seq<string>> {
    set i | 0 <= i < |subsets| :: SubsetKey(subsets[i], idLe)
  }

  function FirstOfKey(subsets: seq<seq<Txn>>, idLe: (string, string) -> bool): seq<seq<Txn>> {
    if subsets == [] then []
    else
      var init, last := subsets[..|subsets| - 1], subsets[|subsets| - 1];
      FirstOfKey(init, idLe) + if SubsetKey(last, idLe) in KeysOf(init, idLe) then [] else [last]
  }

  function Subsets(group: seq<Txn>, idLe: (string, string) -> bool): seq<seq<Txn>> {
    FirstOfKey(LargeBuckets(group, Unique(Amounts(group))) + [group], idLe)
  }

  ghost predicate Bucketed(group: seq<Txn>, byAmount: map<int, seq<Txn>>, order: seq<int>) {
    && order == Unique(Amounts(group))
    && (forall a :: a in byAmount <==> a in order)
    && (forall a :: a in byAmount ==> byAmount[a] == Bucket(group, a))
  }

  lemma {:induction false} AbsentAmount(group: seq<Txn>, a: int)
    requires a !in Amounts(group)
    ensures Bucket(group, a) == []
  {
    if group != [] {
      var init := group[..|group| - 1];
      assert forall i :: 0 <= i < |init| ==> Amounts(init)[i] == Amounts(group)[i];
      assert Amounts(group)[|group| - 1] != a;
      AbsentAmount(init, a);
    }
  }

  lemma BucketExtends(group: seq<Txn>, n: nat, a: int)
    requires n < |group|
    ensures Bucket(group[..n + 1], a) == Bucket(group[..n], a) + if group[n].amount == a then [group[n]] else []
    ensures Unique(Amounts(group[..n + 1])) ==
      var before := Unique(Amounts(group[..n]));
      if group[n].amount in before then before else before + [group[n].amount]
  {
    assert group[..n + 1][..n] == group[..n];
    assert Amounts(group[..n + 1])[..n] == Amounts(group[..n]);
  }

  lemma BucketOne(group: seq<Txn>, n: nat, byAmount: map<int, seq<Txn>>, order: seq<int>)
    requires n < |group| && Bucketed(group[..n], byAmount, order)
    ensures var t := group[n];
      Bucketed(group[..n + 1], byAmount[t.amount := (if t.amount in byAmount then byAmount[t.amount] else []) + [t]],
        if t.amount in byAmount then order else order + [t.amount])
  {
    hide Bucket, Unique, Amounts;
    if group[n].amount !in byAmount {
      AbsentAmount(group[..n], group[n].amount);
    }
    forall a
      ensures Bucket(group[..n + 1], a) == Bucket(group[..n], a) + if group[n].amount == a then [group[n]] else []
    {
      BucketExtends(group, n, a);
    }
    BucketExtends(group, n, 0);
  }

  method BucketByAmount(group: seq<Txn>) returns (byAmount: map<int, seq<Txn>>, order: seq<int>)
    ensures Bucketed(group, byAmount, order)
  {
    byAmount, order := map[], [];
    assert group[..0] == [];
    for n := 0 to |group|
      invariant Bucketed(group[..n], byAmount, order)
    {
      var t := group[n];
      BucketOne(group, n, byAmount, order);
      if t.amount !in byAmount {
        order := order + [t.amount];
      }
      byAmount := byAmount[t.amount := (if t.amount in byAmount then byAmount[t.amount] else []) + [t]];
    }
    assert group[..|group|] == group;
  }

  method SubsetsFor(group: seq<Txn>, idLe: (string, string) -> bool) returns (subsets: seq<seq<Txn>>)
    ensures subsets == Subsets(group, idLe)
  {
    var byAmount, order := BucketByAmount(group);
    hide Bucket, Unique;
    var all: seq<seq<Txn>> := [];
    for i := 0 to |order|
      invariant all == LargeBuckets(group, order[..i])
    {
      assert order[..i + 1][..i] == order[..i];
      assert order[i] in order && byAmount[order[i]] == Bucket(group, order[i]);
      if |byAmount[order[i]]| >= 3 {
        all := all + [byAmount[order[i]]];
      }
    }
    assert order[..|order|] == order;
    subsets := WithoutRepeats(all + [group], idLe);
  }

  method WithoutRepeats(all: seq<seq<Txn>>, idLe: (string, string) -> bool) returns (subsets: seq<seq<Txn>>)
    ensures subsets == FirstOfKey(all, idLe)
  {
    hide SubsetKey;
    var seen: set<seq<string>> := {};
    subsets := [];
    for i := 0 to |all|
      invariant subsets == FirstOfKey(all[..i], idLe) && seen == KeysOf(all[..i], idLe)
    {
      assert all[..i + 1][..i] == all[..i];
      KeysOneMore(all, i, idLe);
      if SubsetKey(all[i], idLe) !in seen {
        subsets := subsets + [all[i]];
      }
      seen := seen + {SubsetKey(all[i], idLe)};
    }
    assert all[..|all|] == all;
  }

  lemma KeysOneMore(subsets: seq<seq<Txn>>, n: nat, idLe: (string, string) -> bool)
    requires n < |subsets|
    ensures KeysOf(subsets[..n + 1], idLe) == KeysOf(subsets[..n], idLe) + {SubsetKey(subsets[n], idLe)}
  {
    hide SubsetKey;
    var longer, shorter := subsets[..n + 1], subsets[..n];
    assert forall i :: 0 <= i < n ==> longer[i] == shorter[i];
    assert longer[n] == subsets[n];
  }

  // What the subsets are.

  lemma {:induction false} BucketMembers(group: seq<Txn>, a: int)
    ensures forall t :: t in Bucket(group, a) ==> t in group
    ensures |Bucket(group, a)| <= |group|
    ensures |Bucket(group, a)| == |group| ==> Bucket(group, a) == group
  {
    if group != [] {
      BucketMembers(group[..|group| - 1], a);
      assert group == group[..|group| - 1] + [group[|group| - 1]];
    }
  }

  ghost predicate IsBucket(group: seq<Txn>, s: seq<Txn>) {
    exists a :: s == Bucket(group, a)
  }

  lemma {:induction false} LargeBucketsAre(group: seq<Txn>, amounts: seq<int>)
    ensures forall s :: s in LargeBuckets(group, amounts) ==> |s| >= 3 && IsBucket(group, s)
  {
    hide Bucket;
    if amounts != [] {
      LargeBucketsAre(group, amounts[..|amounts| - 1]);
      assert IsBucket(group, Bucket(group, amounts[|amounts| - 1]));
    }
  }

  ghost predicate Kept(kept: seq<seq<Txn>>, idLe: (string, string) -> bool, s: seq<Txn>) {
    exists i :: 0 <= i < |kept| && SubsetKey(kept[i], idLe) == SubsetKey(s, idLe)
  }

  lemma {:induction false} FirstOfKeyKeeps(subsets: seq<seq<Txn>>, idLe: (string, string) -> bool)
    ensures forall s :: s in FirstOfKey(subsets, idLe) ==> s in subsets
    ensures forall i :: 0 <= i < |subsets| ==> Kept(FirstOfKey(subsets, idLe), idLe, subsets[i])
  {
    hide SubsetKey;
    if subsets != [] {
      var init, last := subsets[..|subsets| - 1], subsets[|subsets| - 1];
      FirstOfKeyKeeps(init, idLe);
      var before, after := FirstOfKey(init, idLe), FirstOfKey(subsets, idLe);
      assert forall k :: 0 <= k < |before| ==> after[k] == before[k];
      forall i | 0 <= i < |subsets| ensures Kept(after, idLe, subsets[i]) {
        if i < |init| {
          KeptStays(before, after, idLe, init[i]);
        } else if SubsetKey(last, idLe) in KeysOf(init, idLe) {
          var j :| 0 <= j < |init| && SubsetKey(init[j], idLe) == SubsetKey(last, idLe);
          assert Kept(before, idLe, init[j]);
        } else {
          assert after[|before|] == last;
        }
      }
    }
  }

  lemma KeptStays(before: seq<seq<Txn>>, after: seq<seq<Txn>>, idLe: (string, string) -> bool, s: seq<Txn>)
    requires Kept(before, idLe, s) && |before| <= |after| && forall k :: 0 <= k < |before| ==> after[k] == before[k]
    ensures Kept(after, idLe, s)
  {
    hide SubsetKey;
    var i :| 0 <= i < |before| && SubsetKey(before[i], idLe) == SubsetKey(s, idLe);
    assert SubsetKey(after[i], idLe) == SubsetKey(s, idLe);
  }

  /** A subset draws on the group, and is the group if it is as large. */
  ghost predicate DrawnFrom(group: seq<Txn>, s: seq<Txn>) {
    s != [] && (|s| == |group| ==> s == group) && forall t :: t in s ==> t in group
  }

  lemma BucketsAreDrawn(group: seq<Txn>, amounts: seq<int>)
    ensures forall s :: s in LargeBuckets(group, amounts) ==> DrawnFrom(group, s)
  {
    hide Bucket;
    LargeBucketsAre(group, amounts);
    forall s | s in LargeBuckets(group, amounts) ensures DrawnFrom(group, s) {
      var a :| s == Bucket(group, a);
      BucketMembers(group, a);
    }
  }

  lemma SameKeySameSize(a: seq<Txn>, b: seq<Txn>, idLe: (string, string) -> bool)
    requires SubsetKey(a, idLe) == SubsetKey(b, idLe)
    ensures |a| == |b|
  {
    SameElements(TxnIds(a), idLe);
    SameElements(TxnIds(b), idLe);
  }

  /** Every subset draws on the group, and the group itself is always among them. */
  lemma SubsetsCoverTheGroup(group: seq<Txn>, idLe: (string, string) -> bool)
    requires group != []
    ensures group in Subsets(group, idLe)
    ensures forall s :: s in Subsets(group, idLe) ==> s != [] && forall t :: t in s ==> t in group
  {
    hide SubsetKey, LargeBuckets, FirstOfKey, Unique, Amounts;
    var all := LargeBuckets(group, Unique(Amounts(group))) + [group];
    BucketsAreDrawn(group, Unique(Amounts(group)));
    FirstOfKeyKeeps(all, idLe);
    var kept := Subsets(group, idLe);
    assert all[|all| - 1] == group && Kept(kept, idLe, all[|all| - 1]);
    var i :| 0 <= i < |kept| && SubsetKey(kept[i], idLe) == SubsetKey(group, idLe);
    SameKeySameSize(kept[i], group, idLe);
    assert kept[i] in all;
    assert DrawnFrom(group, group);
    assert kept[i] == group;
  }

  // The fits of a group.

  ghost predicate ProposedIn(group: seq<Txn>, idLe: (string, string) -> bool, p: Proposal) {
    exists s :: s in Subsets(group, idLe) && s != [] && IsProposal(s, p)
  }

  method GroupProposals(group: seq<Txn>, idLe: (string, string) -> bool) returns (r: Result<seq<Proposal>, DateError>)
    requires group != [] && Dated(group)
    ensures r.Ok? <==> YearsInside(group)
    ensures r.Ok? ==> forall p :: p in r.value <==> ProposedIn(group, idLe, p)
  {
    hide IsProposal, Subsets, CivilFromDay, YearsInside, Dated;
    var subsets := SubsetsFor(group, idLe);
    SubsetsCoverTheGroup(group, idLe);
    var proposals: seq<Proposal> := [];
    for i := 0 to |subsets|
      invariant forall j :: 0 <= j < i ==> YearsInside(subsets[j])
      invariant forall p :: p in proposals <==> exists j :: 0 <= j < i && subsets[j] != [] && IsProposal(subsets[j], p)
    {
      assert subsets[i] in subsets;
      DatesInSubset(group, subsets[i]);
      var some := ProposalsFor(subsets[i]);
      if some.Err? {
        return Err(some.error);
      }
      proposals := proposals + some.value;
    }
    var at :| 0 <= at < |subsets| && subsets[at] == group;
    assert forall p :: ProposedIn(group, idLe, p) <==>
      exists j :: 0 <= j < |subsets| && subsets[j] != [] && IsProposal(subsets[j], p);
    return Ok(proposals);
  }

  lemma DatesInSubset(group: seq<Txn>, subset: seq<Txn>)
    requires Dated(group) && forall t :: t in subset ==> t in group
    ensures Dated(subset) && (YearsInside(group) ==> YearsInside(subset))
  {
    hide CivilFromDay;
    forall i | 0 <= i < |subset| ensures exists j :: 0 <= j < |group| && group[j] == subset[i] {
      assert subset[i] in group;
    }
  }

  /** The transaction happened within tolerance of a date on the grid. */
  ghost predicate NearGrid(anchor: Anchor, t: Txn, tolerance: nat)
    requires WellFormed(anchor)
  {
    exists c :: Valid(c) && OnGrid(anchor, c) && Near(t, c, tolerance)
  }

  ghost predicate Follows(group: seq<Txn>, fit: Fit) {
    && WellFormed(fit.fitKey.anchor)
    && forall t :: t in fit.matched ==> t in group && NearGrid(fit.fitKey.anchor, t, DetectorTolerance(fit.cadence))
  }

  lemma CandidateNearGrid(subset: seq<Txn>, p: Proposal, c: Candidate)
    requires subset != [] && IsProposal(subset, p) && c in Candidates(p.subset, p.slots, p.toleranceDays)
    ensures WellFormed(p.anchor) && c.txn in subset && NearGrid(p.anchor, c.txn, DetectorTolerance(p.cadence))
  {
    hide IsProposal, DayFromCivil, CivilFromDay, Candidates;
    SlotsAreTheAnchorGrid(subset, p);
    CandidatesExact(p.subset, p.slots, p.toleranceDays);
    var day := p.slots[c.slotIndex].epochDay;
    assert OnGridDay(p.anchor, day);
    var date :| Valid(date) && DayFromCivil(date) == day && OnGrid(p.anchor, date);
    assert Near(c.txn, date, p.toleranceDays);
  }

  lemma MadeFitFollows(subset: seq<Txn>, p: Proposal, idLe: (string, string) -> bool)
    requires Collation(idLe) && subset != [] && IsProposal(subset, p) && Made(p, idLe).Some?
    ensures Follows(subset, Made(p, idLe).value)
  {
    hide IsProposal, DayFromCivil, CivilFromDay, Chosen, Candidates, NearGrid;
    var chosen := Chosen(p.subset, p.slots, p.toleranceDays, idLe);
    FitIsSpanned(p, idLe);
    FitSlotsMatches(p.subset, p.slots, p.toleranceDays, idLe);
    SlotsAreTheAnchorGrid(subset, p);
    SameElements(TxnsOf(chosen), Chronology(idLe));
    forall t | t in Made(p, idLe).value.matched
      ensures t in subset && NearGrid(p.anchor, t, DetectorTolerance(p.cadence))
    {
      assert t in TxnsOf(chosen);
      var i :| 0 <= i < |chosen| && TxnsOf(chosen)[i] == t;
      assert chosen[i] in chosen;
      CandidateNearGrid(subset, p, chosen[i]);
    }
  }

  /**
   * Every fit chosen for a group carries a well-formed anchor, and each transaction it claims lies
   * within its cadence's tolerance of a date on that anchor's grid: the grid it will be projected on.
   */
  lemma ChosenFitsFollowTheirGrid(group: seq<Txn>, proposals: seq<Proposal>, idLe: (string, string) -> bool,
                                  keyLe: (FitKey, FitKey) -> bool)
    requires Collation(idLe) && TotalOrder(keyLe) && group != []
    requires forall p :: p in proposals ==> ProposedIn(group, idLe, p)
    ensures forall f :: f in ChosenFits(UniqueFits(proposals, idLe, keyLe), keyLe) ==> Follows(group, f)
  {
    hide Made, UniqueFits, ChosenFits, IsProposal, Subsets, WellFormed, NearGrid, Collation, TotalOrder;
    var unique := UniqueFits(proposals, idLe, keyLe);
    UniqueFitsKeepBest(proposals, idLe, keyLe);
    ChosenFitsAreDisjoint(unique, keyLe);
    SubsetsCoverTheGroup(group, idLe);
    forall f | f in ChosenFits(unique, keyLe) ensures Follows(group, f) {
      assert Proposed(f, proposals, idLe);
      var p :| p in proposals && Made(p, idLe) == Some(f);
      var s :| s in Subsets(group, idLe) && s != [] && IsProposal(s, p);
      MadeFitFollows(s, p, idLe);
    }
  }

  /** Detection in a group fails exactly when a transaction falls in the first or last year dates can name. */
  method DetectInGroup(group: seq<Txn>, idLe: (string, string) -> bool, keyLe: (FitKey, FitKey) -> bool)
    returns (r: Result<seq<Fit>, DateError>, ghost proposals: seq<Proposal>)
    requires Collation(idLe) && TotalOrder(keyLe) && group != [] && Dated(group)
    ensures r.Ok? <==> YearsInside(group)
    ensures r.Ok? ==> forall p :: p in proposals <==> ProposedIn(group, idLe, p)
    ensures r.Ok? ==> r.value == ChosenFits(UniqueFits(proposals, idLe, keyLe), keyLe)
    ensures r.Ok? ==> Settles(UniqueFits(proposals, idLe, keyLe), keyLe, r.value)
    ensures r.Ok? ==> NothingClaimedTwice(r.value)
    ensures r.Ok? ==> forall f :: f in r.value ==> Quality(f) && Follows(group, f) && Spaced(f, proposals, idLe)
    ensures r.Ok? ==> (r.value != [] <==> exists p :: p in proposals && Made(p, idLe).Some?)
  {
    hide Made, UniqueFits, ChosenFits, ProposedIn, Follows, Quality, Spaced, NothingClaimedTwice, YearsInside, Dated,
      Settles;
    var found := GroupProposals(group, idLe);
    if found.Err? {
      return Err(found.error), [];
    }
    proposals := found.value;
    var fits := ChooseDisjointFits(found.value, idLe, keyLe);
    UniqueFitsKeepBest(proposals, idLe, keyLe);
    ChosenFitsAreDisjoint(UniqueFits(proposals, idLe, keyLe), keyLe);
    ChosenFitsHaveQuality(proposals, idLe, keyLe);
    SomethingIsChosen(proposals, idLe, keyLe);
    ChosenFitsFollowTheirGrid(group, proposals, idLe, keyLe);
    return Ok(fits), proposals;
  }
}

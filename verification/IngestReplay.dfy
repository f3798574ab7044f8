/** Reconciling the same batch again: every event arrives a second time and the state stays as it was. */
module IngestReplay {
  import opened Wrappers
  import opened Sorting
  import opened IngestPlan
  import opened IngestReconcile

  // Adds.

  predicate AddsKnown(s: State, events: seq<Event>) {
    forall i :: 0 <= i < |events| ==> events[i].Added? && TargetOf(events[i]) in s
  }

  lemma {:induction false} KnownAddsChangeNothing(s: State, adds: seq<Event>, ctx: Context)
    requires AddsKnown(s, adds)
    ensures Final(s, adds, ctx) == s
    ensures forall a :: a in Run(s, adds, ctx).0 ==> a.Noop?
  {
    if adds != [] {
      KnownAddsChangeNothing(s, adds[..|adds| - 1], ctx);
    }
  }

  lemma {:induction false} KnownStaysKnown(s: State, events: seq<Event>, ctx: Context)
    ensures forall id :: id in s ==> id in Final(s, events, ctx)
  {
    hide PlanEvent;
    if events != [] {
      var init, last := events[..|events| - 1], events[|events| - 1];
      KnownStaysKnown(s, init, ctx);
      StepKnows(Final(s, init, ctx), last, ctx);
    }
  }

  lemma {:induction false} AddedIsKnown(s: State, events: seq<Event>, ctx: Context)
    ensures forall i :: 0 <= i < |events| && events[i].Added? ==> TargetOf(events[i]) in Final(s, events, ctx)
  {
    hide PlanEvent;
    if events != [] {
      var init, last := events[..|events| - 1], events[|events| - 1];
      AddedIsKnown(s, init, ctx);
      StepKnows(Final(s, init, ctx), last, ctx);
      AddIsKnown(Final(s, init, ctx), last, ctx);
      forall i | 0 <= i < |events| && events[i].Added? ensures TargetOf(events[i]) in Final(s, events, ctx) {
        if i < |init| {
          assert events[i] == init[i];
        }
      }
    }
  }

  lemma AddIsKnown(s: State, e: Event, ctx: Context)
    ensures e.Added? ==> TargetOf(e) in PlanEvent(s, e, ctx).next
  {
  }

  // Modifications: the last one accepted wins, and which are accepted does not change.

  predicate AllModified(events: seq<Event>) {
    forall i :: 0 <= i < |events| ==> events[i].Modified?
  }

  /** A live view takes the changes delivered under its own provider id. */
  predicate Accepts(v: View, e: Event) {
    v.status != Voided && TargetOf(e) == v.providerTransactionId
  }

  function Taken(v: View, e: Event): View
    requires e.Modified?
  {
    if Accepts(v, e) then ViewFrom(e.transaction, v.economicKey, DeliveredStatus(e.transaction)) else v
  }

  /** A view after a run of modifications: the last it accepts, if any. */
  function LastAccepted(v: View, mods: seq<Event>): View
    requires AllModified(mods)
  {
    if mods == [] then v
    else
      var last := mods[|mods| - 1];
      if Accepts(v, last) then Taken(v, last) else LastAccepted(v, mods[..|mods| - 1])
  }

  /** A modification keeps what decides acceptance. */
  predicate SameStanding(v: View, w: View) {
    && v.economicKey == w.economicKey && v.providerTransactionId == w.providerTransactionId
    && (v.status == Voided <==> w.status == Voided)
  }

  lemma {:induction false} StandingKept(v: View, mods: seq<Event>)
    requires AllModified(mods)
    ensures SameStanding(v, LastAccepted(v, mods))
    ensures v.status == Voided ==> LastAccepted(v, mods) == v
  {
    if mods != [] {
      StandingKept(v, mods[..|mods| - 1]);
    }
  }

  /** Taking the same modifications again changes nothing. */
  lemma {:induction false} LastAcceptedTwice(v: View, w: View, mods: seq<Event>)
    requires AllModified(mods) && SameStanding(v, w) && w == LastAccepted(v, mods)
    ensures LastAccepted(w, mods) == w
  {
    hide ViewFrom, DeliveredStatus;
    SameChoice(v, w, mods);
  }

  lemma {:induction false} SameChoice(v: View, w: View, mods: seq<Event>)
    requires AllModified(mods) && SameStanding(v, w)
    ensures LastAccepted(w, mods) == w || LastAccepted(w, mods) == LastAccepted(v, mods)
    ensures LastAccepted(v, mods) == v || LastAccepted(w, mods) == LastAccepted(v, mods)
  {
    hide ViewFrom, DeliveredStatus;
    if mods != [] {
      SameChoice(v, w, mods[..|mods| - 1]);
    }
  }

  ghost predicate Modifies(s: State, next: State, mods: seq<Event>)
    requires AllModified(mods)
  {
    next.Keys == s.Keys && forall id :: id in s ==> id in next && next[id] == LastAccepted(s[id], mods)
  }

  lemma {:induction false} ModifiedViews(s: State, mods: seq<Event>, ctx: Context)
    requires Inv(s, ctx) && AllModified(mods)
    ensures Modifies(s, Final(s, mods, ctx), mods)
  {
    hide Inv, PlanEvent, LastAccepted;
    if mods == [] {
      NoModification(s, ctx);
    } else {
      var init, last := mods[..|mods| - 1], mods[|mods| - 1];
      ModifiedViews(s, init, ctx);
      RunKeepsInv(s, init, ctx);
      OneModification(Final(s, init, ctx), last, ctx);
      ModificationJoins(s, Final(s, init, ctx), Final(s, mods, ctx), mods);
    }
  }

  lemma NoModification(s: State, ctx: Context)
    ensures Modifies(s, Final(s, [], ctx), [])
  {
  }

  ghost predicate ModifiesOnce(s: State, next: State, e: Event)
    requires e.Modified?
  {
    next.Keys == s.Keys && forall id :: id in s ==> next[id] == Taken(s[id], e)
  }

  lemma OneModification(s: State, e: Event, ctx: Context)
    requires Inv(s, ctx) && e.Modified?
    ensures ModifiesOnce(s, PlanEvent(s, e, ctx).next, e)
  {
    hide Rooted;
    var target, next := TargetOf(e), PlanEvent(s, e, ctx).next;
    if target in s && s[target].status != Voided && s[target].providerTransactionId == target {
      var v := ViewFrom(e.transaction, s[target].economicKey, DeliveredStatus(e.transaction));
      assert next == if v == s[target] then s else Replaced(s, v, None);
      forall id | id in s ensures id in next && next[id] == Taken(s[id], e) {
        AcceptsIsAlias(s, e, id);
      }
    } else {
      forall id | id in s ensures Taken(s[id], e) == s[id] {
        AcceptsIsAlias(s, e, id);
      }
    }
  }

  /** A live view takes the change exactly when it is the view of the changed id under its own name. */
  lemma AcceptsIsAlias(s: State, e: Event, id: string)
    requires AliasesAgree(s) && SelfNamed(s) && id in s
    ensures Accepts(s[id], e) <==>
      TargetOf(e) in s && s[TargetOf(e)] == s[id] && s[id].status != Voided
        && s[id].providerTransactionId == TargetOf(e)
    ensures TargetOf(e) in s && s[id].economicKey == s[TargetOf(e)].economicKey ==> s[id] == s[TargetOf(e)]
  {
  }

  lemma ModificationJoins(s: State, before: State, after: State, mods: seq<Event>)
    requires mods != [] && AllModified(mods) && Modifies(s, before, mods[..|mods| - 1])
    requires ModifiesOnce(before, after, mods[|mods| - 1])
    ensures Modifies(s, after, mods)
  {
    hide ViewFrom;
    forall id | id in s ensures after[id] == LastAccepted(s[id], mods) {
      StandingKept(s[id], mods[..|mods| - 1]);
    }
  }

  /** No id is modified twice. */
  ghost predicate OncePerId(mods: seq<Event>) {
    forall i, j :: 0 <= i < j < |mods| ==> TargetOf(mods[i]) != TargetOf(mods[j])
  }

  lemma {:induction false} OnlyAccepted(v: View, mods: seq<Event>, i: nat)
    requires AllModified(mods) && OncePerId(mods) && i < |mods| && Accepts(v, mods[i])
    ensures LastAccepted(v, mods) == Taken(v, mods[i])
  {
    hide ViewFrom;
    if i < |mods| - 1 {
      OnlyAccepted(v, mods[..|mods| - 1], i);
    }
  }

  lemma SpentModification(s: State, mods: seq<Event>, i: nat, ctx: Context)
    requires Inv(s, ctx) && AllModified(mods) && OncePerId(mods) && i < |mods|
    requires forall id :: id in s ==> LastAccepted(s[id], mods) == s[id]
    ensures PlanEvent(s, mods[i], ctx).action.Noop? && PlanEvent(s, mods[i], ctx).next == s
  {
    hide ViewFrom, LastAccepted;
    var id := TargetOf(mods[i]);
    if id in s && Accepts(s[id], mods[i]) {
      OnlyAccepted(s[id], mods, i);
    }
  }

  lemma {:induction false} SpentModifications(s: State, mods: seq<Event>, n: nat, ctx: Context)
    requires Inv(s, ctx) && AllModified(mods) && OncePerId(mods) && n <= |mods|
    requires forall id :: id in s ==> LastAccepted(s[id], mods) == s[id]
    ensures Final(s, mods[..n], ctx) == s
    ensures forall a :: a in Run(s, mods[..n], ctx).0 ==> a.Noop?
  {
    hide PlanEvent, LastAccepted, Inv;
    if n > 0 {
      SpentModifications(s, mods, n - 1, ctx);
      SpentModification(s, mods, n - 1, ctx);
      RunLast(s, mods[..n - 1], mods[n - 1], ctx);
      assert mods[..n] == mods[..n - 1] + [mods[n - 1]];
    }
  }

  // Removals.

  predicate AllRemoved(events: seq<Event>) {
    forall i :: 0 <= i < |events| ==> events[i].Removed?
  }

  ghost predicate Retires(s: State, next: State) {
    next.Keys == s.Keys && forall id :: id in s ==> next[id] == s[id] || next[id] == s[id].(status := Voided)
  }

  lemma {:induction false} RemovalsRetire(s: State, removals: seq<Event>, ctx: Context)
    requires Inv(s, ctx) && AllRemoved(removals)
    ensures Retires(s, Final(s, removals, ctx))
  {
    hide Inv, PlanEvent;
    if removals != [] {
      var init, last := removals[..|removals| - 1], removals[|removals| - 1];
      RemovalsRetire(s, init, ctx);
      RunKeepsInv(s, init, ctx);
      OneRemoval(Final(s, init, ctx), last, ctx);
    }
  }

  lemma OneRemoval(s: State, e: Event, ctx: Context)
    requires Inv(s, ctx) && e.Removed?
    ensures Retires(s, PlanEvent(s, e, ctx).next)
  {
    hide Rooted, SelfNamed;
  }

  predicate RemovesNothing(s: State, removals: seq<Event>) {
    forall i :: 0 <= i < |removals| ==>
      removals[i].Removed? && (TargetOf(removals[i]) in s ==> s[TargetOf(removals[i])].status == Voided)
  }

  lemma {:induction false} SpentRemovals(s: State, removals: seq<Event>, ctx: Context)
    requires RemovesNothing(s, removals)
    ensures Final(s, removals, ctx) == s
    ensures forall a :: a in Run(s, removals, ctx).0 ==> a.Noop?
  {
    if removals != [] {
      SpentRemovals(s, removals[..|removals| - 1], ctx);
    }
  }

  lemma RemovalsAreSpent(s: State, removals: seq<Event>, ctx: Context)
    requires Inv(s, ctx) && AllRemoved(removals)
    ensures RemovesNothing(Final(s, removals, ctx), removals)
  {
    hide Inv, PlanEvent, Run;
    RemovalsRetire(s, removals, ctx);
    forall i | 0 <= i < |removals| && TargetOf(removals[i]) in Final(s, removals, ctx)
      ensures Final(s, removals, ctx)[TargetOf(removals[i])].status == Voided
    {
      assert removals[i] in removals;
      RemovalInOrderVoids(s, removals, removals[i], ctx);
    }
  }

  // The three stretches of a batch's phases.

  predicate AllAdded(events: seq<Event>) {
    forall i :: 0 <= i < |events| ==> events[i].Added?
  }

  ghost predicate InStretches(order: seq<Event>, adds: seq<Event>, mods: seq<Event>, removals: seq<Event>) {
    order == adds + mods + removals && AllAdded(adds) && AllModified(mods) && AllRemoved(removals)
  }

  lemma PhasesAreStretches(batch: seq<Event>, le: (Event, Event) -> bool)
    returns (adds: seq<Event>, mods: seq<Event>, removals: seq<Event>)
    requires Distinct(batch)
    ensures InStretches(Phases(batch, le), adds, mods, removals)
    ensures ModifiedOnce(batch) ==> OncePerId(mods)
  {
    hide Select, Sort, Distinct;
    var pairing := Pairing(Select(batch, Adds, map[]), RemovedIds(batch));
    var paired := Sort(Select(batch, PairedAdds, pairing), le);
    adds, mods := Select(batch, OtherAdds, pairing) + paired, Select(batch, Modifications, pairing);
    removals := Select(batch, OtherRemovals, pairing);
    InSelect(batch, OtherAdds, pairing);
    InSelect(batch, PairedAdds, pairing);
    SameElements(Select(batch, PairedAdds, pairing), le);
    InSelect(batch, Modifications, pairing);
    InSelect(batch, OtherRemovals, pairing);
    SelectDistinct(batch, Modifications, pairing);
    forall i | 0 <= i < |adds| ensures adds[i].Added? {
      assert adds[i] in Select(batch, OtherAdds, pairing) || adds[i] in paired;
    }
    forall i | 0 <= i < |mods| ensures mods[i].Modified? && mods[i] in batch {
      assert mods[i] in mods;
    }
    forall i | 0 <= i < |removals| ensures removals[i].Removed? {
      assert removals[i] in removals;
    }
    Apart(batch, mods);
  }

  /** No id is modified by two different events. */
  ghost predicate ModifiedOnce(events: seq<Event>) {
    forall e, other :: e in events && other in events && e.Modified? && other.Modified? && e != other ==>
      TargetOf(e) != TargetOf(other)
  }

  lemma Apart(batch: seq<Event>, mods: seq<Event>)
    requires Distinct(mods) && forall i :: 0 <= i < |mods| ==> mods[i].Modified? && mods[i] in batch
    ensures ModifiedOnce(batch) ==> OncePerId(mods)
  {
  }

  lemma {:induction false} SelectDistinct(batch: seq<Event>, group: Group, pairing: map<string, Event>)
    requires Distinct(batch)
    ensures Distinct(Select(batch, group, pairing))
  {
    hide InGroup;
    if batch != [] {
      var init := batch[..|batch| - 1];
      SelectDistinct(init, group, pairing);
      InSelect(init, group, pairing);
      assert batch[|batch| - 1] !in init;
      var before := Select(init, group, pairing);
      assert forall i :: 0 <= i < |before| ==> before[i] in before;
    }
  }

  lemma RunInStretches(s: State, order: seq<Event>, adds: seq<Event>, mods: seq<Event>, removals: seq<Event>,
                       ctx: Context)
    requires InStretches(order, adds, mods, removals)
    ensures var added := Final(s, adds, ctx);
      var modified := Final(added, mods, ctx);
      && Final(s, order, ctx) == Final(modified, removals, ctx)
      && Run(s, order, ctx).0 == Run(s, adds, ctx).0 + Run(added, mods, ctx).0 + Run(modified, removals, ctx).0
  {
    hide Run;
    RunSplits(s, adds + mods, removals, ctx);
    RunSplits(s, adds, mods, ctx);
  }

  lemma ModificationsAreSpent(added: State, modified: State, final: State, mods: seq<Event>, ctx: Context)
    requires AllModified(mods) && Inv(final, ctx) && Modifies(added, modified, mods) && Retires(modified, final)
    ensures Final(final, mods, ctx) == final
    ensures OncePerId(mods) ==> forall a :: a in Run(final, mods, ctx).0 ==> a.Noop?
  {
    hide Inv, Run, LastAccepted;
    ModifiedViews(final, mods, ctx);
    forall id | id in final ensures LastAccepted(final[id], mods) == final[id] {
      StandingKept(added[id], mods);
      StandingKept(final[id], mods);
      if final[id].status != Voided {
        LastAcceptedTwice(added[id], modified[id], mods);
      }
    }
    if OncePerId(mods) {
      SpentModifications(final, mods, |mods|, ctx);
      assert mods[..|mods|] == mods;
    }
  }

  lemma OrderReplayed(s: State, order: seq<Event>, adds: seq<Event>, mods: seq<Event>, removals: seq<Event>,
                      ctx: Context)
    requires Inv(s, ctx) && InStretches(order, adds, mods, removals)
    ensures Final(Final(s, order, ctx), order, ctx) == Final(s, order, ctx)
    ensures OncePerId(mods) ==> forall a :: a in Run(Final(s, order, ctx), order, ctx).0 ==> a.Noop?
  {
    hide Inv, Run, PlanEvent;
    var added := Final(s, adds, ctx);
    var modified := Final(added, mods, ctx);
    var final := Final(modified, removals, ctx);
    RunInStretches(s, order, adds, mods, removals, ctx);
    RunKeepsInv(s, adds, ctx);
    RunKeepsInv(added, mods, ctx);
    RunKeepsInv(modified, removals, ctx);
    AddedIsKnown(s, adds, ctx);
    KnownStaysKnown(added, mods, ctx);
    KnownStaysKnown(modified, removals, ctx);
    KnownAddsChangeNothing(final, adds, ctx);
    ModifiedViews(added, mods, ctx);
    RemovalsRetire(modified, removals, ctx);
    ModificationsAreSpent(added, modified, final, mods, ctx);
    RemovalsAreSpent(modified, removals, ctx);
    SpentRemovals(final, removals, ctx);
    RunInStretches(final, order, adds, mods, removals, ctx);
  }

  /**
   * Reconciling a batch a second time leaves the state as the first time left it; unless two of its events
   * modify one id, every action is a no-op.
   */
  lemma BatchReplayed(events: seq<Event>, prior: State, ctx: Context, le: (Event, Event) -> bool)
    requires TotalOrder(le) && Inv(prior, ctx)
    ensures var once := Reconciled(events, prior, ctx, le).1;
      && Reconciled(events, once, ctx, le).1 == once
      && (ModifiedOnce(events) ==> forall a :: a in Reconciled(events, once, ctx, le).0 ==> a.Noop?)
  {
    hide Inv, Run, Phases, TotalOrder, UniqueSorted, Distinct;
    var batch := UniqueSorted(events, le);
    UniqueSortedIsSubset(events, le);
    BatchDistinct(events, le);
    var adds, mods, removals := PhasesAreStretches(batch, le);
    OrderReplayed(prior, Phases(batch, le), adds, mods, removals, ctx);
  }

  lemma BatchDistinct(events: seq<Event>, le: (Event, Event) -> bool)
    requires TotalOrder(le)
    ensures Distinct(UniqueSorted(events, le))
  {
    SortSorts(events, le);
    FirstByIdSorted(Sort(events, le), le);
  }
}

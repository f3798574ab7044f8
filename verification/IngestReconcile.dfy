/** Reconciling a sync batch: the phases its events are folded in, and what that order guarantees. */
module IngestReconcile {
  import opened Wrappers
  import opened Sorting
  import opened IngestPlan

  function IdsOf(events: seq<Event>): set<string> {
    set e | e in events :: e.eventId
  }

  // The first event of every event id.
  function FirstById(events: seq<Event>): seq<Event> {
    if events == [] then []
    else
      var init, last := events[..|events| - 1], events[|events| - 1];
      FirstById(init) + if last.eventId in IdsOf(init) then [] else [last]
  }

  function UniqueSorted(events: seq<Event>, le: (Event, Event) -> bool): seq<Event> {
    FirstById(Sort(events, le))
  }

  datatype Group = Adds | OtherAdds | PairedAdds | Modifications | OtherRemovals

  // Membership in a group, given each paired pending id with its add.
  predicate InGroup(e: Event, group: Group, pairing: map<string, Event>) {
    match group
    case Adds => e.Added?
    case OtherAdds => e.Added? && e !in pairing.Values
    case PairedAdds => e.Added? && e in pairing.Values
    case Modifications => e.Modified?
    case OtherRemovals => e.Removed? && e.providerTransactionId !in pairing
  }

  function Select(batch: seq<Event>, group: Group, pairing: map<string, Event>): seq<Event> {
    if batch == [] then []
    else
      var last := batch[|batch| - 1];
      Select(batch[..|batch| - 1], group, pairing) + if InGroup(last, group, pairing) then [last] else []
  }

  function RemovedIds(batch: seq<Event>): set<string> {
    set e | e in batch && e.Removed? :: e.providerTransactionId
  }

  // Each removed id with the first add in the batch that names it as its pending predecessor.
  function Pairing(batch: seq<Event>, removed: set<string>): map<string, Event> {
    if batch == [] then map[]
    else
      var before, e := Pairing(batch[..|batch| - 1], removed), batch[|batch| - 1];
      if e.Added? && e.transaction.pendingTransactionId.Some?
        && e.transaction.pendingTransactionId.value in removed
        && e.transaction.pendingTransactionId.value !in before
      then before[e.transaction.pendingTransactionId.value := e]
      else before
  }

  // The order a batch is folded in: other adds, paired adds, modifications, other removals.
  function Phases(batch: seq<Event>, le: (Event, Event) -> bool): seq<Event> {
    var pairing := Pairing(Select(batch, Adds, map[]), RemovedIds(batch));
    Select(batch, OtherAdds, pairing)
    + Sort(Select(batch, PairedAdds, pairing), le)
    + Select(batch, Modifications, pairing)
    + Select(batch, OtherRemovals, pairing)
  }

  function Reconciled(events: seq<Event>, prior: State, ctx: Context,
                      le: (Event, Event) -> bool): (seq<Action>, State) {
    Run(prior, Phases(UniqueSorted(events, le), le), ctx)
  }

  method ReconcileSyncBatch(events: seq<Event>, prior: State, ctx: Context, le: (Event, Event) -> bool)
    returns (actions: seq<Action>, nextState: State)
    ensures (actions, nextState) == Reconciled(events, prior, ctx, le)
  {
    var batch := UniqueSorted(events, le);
    var addedEvents := Select(batch, Adds, map[]);
    var removedIds := RemovedIds(batch);
    var pairing: map<string, Event> := map[];
    for i := 0 to |addedEvents|
      invariant pairing == Pairing(addedEvents[..i], removedIds)
    {
      assert addedEvents[..i + 1][..i] == addedEvents[..i];
      var event := addedEvents[i];
      if event.Added? && event.transaction.pendingTransactionId.Some?
        && event.transaction.pendingTransactionId.value in removedIds
        && event.transaction.pendingTransactionId.value !in pairing {
        pairing := pairing[event.transaction.pendingTransactionId.value := event];
      }
    }
    assert addedEvents[..|addedEvents|] == addedEvents;
    var unpairedAdds := Select(batch, OtherAdds, pairing);
    var pairedAdds := Sort(Select(batch, PairedAdds, pairing), le);
    var modified := Select(batch, Modifications, pairing);
    var unpairedRemovals := Select(batch, OtherRemovals, pairing);
    assert Phases(batch, le) == unpairedAdds + pairedAdds + modified + unpairedRemovals;

    actions, nextState := FoldEvents(unpairedAdds, prior, ctx);
    var more: seq<Action>;
    more, nextState := FoldEvents(pairedAdds, nextState, ctx);
    RunSplits(prior, unpairedAdds, pairedAdds, ctx);
    actions := actions + more;
    more, nextState := FoldEvents(modified, nextState, ctx);
    RunSplits(prior, unpairedAdds + pairedAdds, modified, ctx);
    actions := actions + more;
    more, nextState := FoldEvents(unpairedRemovals, nextState, ctx);
    RunSplits(prior, unpairedAdds + pairedAdds + modified, unpairedRemovals, ctx);
    actions := actions + more;
  }

  // The result depends only on the set of events.

  ghost predicate LeastOfItsId(e: Event, events: seq<Event>, le: (Event, Event) -> bool) {
    e in events && forall other :: other in events && other.eventId == e.eventId ==> le(e, other)
  }

  lemma {:induction false} FirstByIdKeepsLeast(s: seq<Event>, le: (Event, Event) -> bool)
    requires TotalOrder(le) && SortedBy(s, le)
    ensures forall e :: e in FirstById(s) <==> LeastOfItsId(e, s, le)
  {
    if s != [] {
      var init, last := s[..|s| - 1], s[|s| - 1];
      FirstByIdKeepsLeast(init, le);
      assert s == init + [last];
      assert forall e :: e in init ==> le(e, last);
      assert le(last, last);
      forall e ensures e in FirstById(s) <==> LeastOfItsId(e, s, le) {
        if last.eventId in IdsOf(init) {
          var other :| other in init && other.eventId == last.eventId;
          assert e in FirstById(s) <==> LeastOfItsId(e, init, le);
          if e == last && e !in init {
            assert le(other, last) && !le(last, other);
          }
        } else {
          assert e in FirstById(s) <==> LeastOfItsId(e, init, le) || e == last;
          assert forall other :: other in init ==> other.eventId != last.eventId;
        }
      }
    }
  }

  lemma {:induction false} FirstByIdSorted(s: seq<Event>, le: (Event, Event) -> bool)
    requires SortedBy(s, le)
    ensures SortedBy(FirstById(s), le)
    ensures forall e :: e in FirstById(s) ==> e in s
    ensures forall i, j :: 0 <= i < j < |FirstById(s)| ==> FirstById(s)[i].eventId != FirstById(s)[j].eventId
  {
    if s != [] {
      var init, last := s[..|s| - 1], s[|s| - 1];
      FirstByIdSorted(init, le);
      var first := FirstById(init);
      forall i | 0 <= i < |first| ensures le(first[i], last) && first[i].eventId in IdsOf(init) {
        assert first[i] in first;
        assert first[i] in init;
      }
    }
  }

  lemma {:induction false} DistinctSameElements(a: seq<Event>, b: seq<Event>)
    requires Distinct(a) && Distinct(b)
    requires forall e :: e in a <==> e in b
    ensures multiset(a) == multiset(b)
  {
    forall e ensures multiset(a)[e] == multiset(b)[e] {
      OccursOnce(a, e);
      OccursOnce(b, e);
    }
  }

  /** Permuting the events of a batch, or repeating any of them, changes neither actions nor state. */
  lemma OnlyTheSetMatters(a: seq<Event>, b: seq<Event>, prior: State, ctx: Context, le: (Event, Event) -> bool)
    requires TotalOrder(le)
    requires forall e :: e in a <==> e in b
    ensures Reconciled(a, prior, ctx, le) == Reconciled(b, prior, ctx, le)
  {
    SortSorts(a, le);
    SortSorts(b, le);
    SameElements(a, le);
    SameElements(b, le);
    FirstByIdKeepsLeast(Sort(a, le), le);
    FirstByIdKeepsLeast(Sort(b, le), le);
    FirstByIdSorted(Sort(a, le), le);
    FirstByIdSorted(Sort(b, le), le);
    var u, v := UniqueSorted(a, le), UniqueSorted(b, le);
    forall e ensures e in u <==> e in v {
      assert LeastOfItsId(e, Sort(a, le), le) <==> LeastOfItsId(e, Sort(b, le), le);
    }
    DistinctSameElements(u, v);
    SortedUnique(u, v, le);
  }

  // Pending → posted lineage within one batch.

  predicate Carries(s: State, id: string, key: EconomicKey) {
    id in s && s[id].economicKey == key
  }

  /** An event that cannot change the views of a key: it adds a known id, or stays off the key's ids. */
  predicate StaysOff(s: State, e: Event, key: EconomicKey) {
    || (e.Added? && TargetOf(e) in s)
    || (&& !Carries(s, TargetOf(e), key)
        && (e.Added? && e.transaction.pendingTransactionId.Some? ==>
              var q := e.transaction.pendingTransactionId.value;
              Carries(s, q, key) ==> s[q].status != Pending))
  }

  ghost predicate SameCarriers(s: State, next: State, key: EconomicKey) {
    && (forall id :: Carries(s, id, key) <==> Carries(next, id, key))
    && (forall id :: Carries(s, id, key) ==> next[id] == s[id])
    && (forall id :: id in s ==> id in next)
  }

  predicate VoidsKey(a: Action, key: EconomicKey) {
    a.Void? && a.view.economicKey == key
  }

  lemma ReplaceStaysOff(s: State, v: View, additional: Option<string>, key: EconomicKey)
    requires v.economicKey != key && (additional.Some? ==> additional.value !in s)
    ensures SameCarriers(s, Replaced(s, v, additional), key)
  {
  }

  lemma StepStaysOff(s: State, e: Event, key: EconomicKey, ctx: Context)
    requires Inv(s, ctx) && Carries(s, key.root, key) && StaysOff(s, e, key)
    ensures var p := PlanEvent(s, e, ctx); SameCarriers(s, p.next, key) && !VoidsKey(p.action, key)
  {
    hide Replaced, AliasesAgree, SelfNamed;
    var p := PlanEvent(s, e, ctx);
    if p.action.Revise? && e.Added? {
      ReplaceStaysOff(s, p.action.next, Some(TargetOf(e)), key);
    } else if p.action.Revise? {
      ReplaceStaysOff(s, p.action.next, None, key);
    } else if p.action.Void? {
      ReplaceStaysOff(s, p.action.view, None, key);
    }
  }

  lemma {:induction false} RunStaysOff(s: State, events: seq<Event>, key: EconomicKey, ctx: Context)
    requires Inv(s, ctx) && Carries(s, key.root, key)
    requires forall e :: e in events ==> StaysOff(s, e, key)
    ensures SameCarriers(s, Final(s, events, ctx), key)
    ensures forall a :: a in Run(s, events, ctx).0 ==> !VoidsKey(a, key)
  {
    hide PlanEvent, VoidsKey, Inv;
    if events != [] {
      var init, last := events[..|events| - 1], events[|events| - 1];
      assert forall e :: e in init ==> e in events;
      RunStaysOff(s, init, key, ctx);
      RunKeepsInv(s, init, ctx);
      var before := Final(s, init, ctx);
      assert last in events;
      StepStaysOff(before, last, key, ctx);
    }
  }

  predicate Names(e: Event, p: string) {
    e.Added? && e.transaction.pendingTransactionId == Some(p)
  }

  /** An add of an unknown id that names the pending transaction. */
  predicate Rival(prior: State, e: Event, p: string) {
    Names(e, p) && TargetOf(e) !in prior
  }

  /** An event about other transactions than the key's. */
  predicate OffKey(prior: State, e: Event, key: EconomicKey) {
    && !Carries(prior, TargetOf(e), key)
    && (e.Added? && e.transaction.pendingTransactionId.Some? ==>
      !Carries(prior, e.transaction.pendingTransactionId.value, key))
  }

  /** An event that cannot reach the key: it adds an id known before, or is about other transactions. */
  predicate Aside(prior: State, e: Event, key: EconomicKey) {
    (e.Added? && TargetOf(e) in prior) || OffKey(prior, e, key)
  }

  ghost predicate OnlyRivals(prior: State, events: seq<Event>, p: string)
    requires p in prior
  {
    forall e :: e in events ==> Rival(prior, e, p) || Aside(prior, e, prior[p].economicKey)
  }

  ghost predicate OwnTarget(events: seq<Event>, rival: Event) {
    forall e :: e in events && e != rival ==> TargetOf(e) != TargetOf(rival)
  }

  ghost predicate OwnEventId(events: seq<Event>, own: Event) {
    forall e :: e in events && e != own ==> e.eventId != own.eventId
  }

  predicate Removes(e: Event, p: string) {
    e.Removed? && TargetOf(e) == p
  }

  /**
   * A batch removes a known id. Any of its adds may name it, new ones and ones delivered before, each with an
   * event id of its own and each new one with an id of its own; the rest of the batch adds known ids again or
   * is about other transactions.
   */
  ghost predicate Contest(prior: State, events: seq<Event>, p: string, removal: Event) {
    && p in prior && removal in events && Removes(removal, p) && OwnEventId(events, removal)
    && (forall e :: e in events ==> Removes(e, p) || Rival(prior, e, p) || Aside(prior, e, prior[p].economicKey))
    && (forall e :: e in events && Names(e, p) ==> OwnEventId(events, e))
    && (forall e :: e in events && Rival(prior, e, p) ==> OwnTarget(events, e))
  }

  predicate HasRival(prior: State, events: seq<Event>, p: string) {
    exists i :: 0 <= i < |events| && Rival(prior, events[i], p)
  }

  predicate HasNamer(events: seq<Event>, p: string) {
    exists i :: 0 <= i < |events| && Names(events[i], p)
  }

  /** The add that is paired with the removal: the least that names the id. */
  ghost predicate IsPaired(events: seq<Event>, p: string, paired: Event, le: (Event, Event) -> bool) {
    paired in events && Names(paired, p) && forall e :: e in events && Names(e, p) ==> le(paired, e)
  }

  lemma {:induction false} InSelect(batch: seq<Event>, group: Group, pairing: map<string, Event>)
    ensures forall e :: e in Select(batch, group, pairing) <==> e in batch && InGroup(e, group, pairing)
  {
    if batch != [] {
      InSelect(batch[..|batch| - 1], group, pairing);
      assert batch == batch[..|batch| - 1] + [batch[|batch| - 1]];
    }
  }

  lemma {:induction false} SelectSorted(batch: seq<Event>, group: Group, pairing: map<string, Event>,
                                        le: (Event, Event) -> bool)
    requires SortedBy(batch, le)
    ensures SortedBy(Select(batch, group, pairing), le)
  {
    hide InGroup;
    if batch != [] {
      var init, last := batch[..|batch| - 1], batch[|batch| - 1];
      SelectSorted(init, group, pairing, le);
      InSelect(init, group, pairing);
      var before := Select(init, group, pairing);
      forall i | 0 <= i < |before| ensures le(before[i], last) {
        assert before[i] in before;
        var k :| 0 <= k < |init| && init[k] == before[i];
        assert le(batch[k], batch[|batch| - 1]);
      }
    }
  }

  /** Each removed id is paired with the least add that names it, if any does. */
  lemma {:induction false} PairedIsLeast(adds: seq<Event>, removed: set<string>, p: string, le: (Event, Event) -> bool)
    requires TotalOrder(le) && SortedBy(adds, le) && p in removed
    ensures forall e :: e in adds && Names(e, p) ==> p in Pairing(adds, removed)
    ensures p in Pairing(adds, removed) ==>
      Pairing(adds, removed)[p] in adds && Names(Pairing(adds, removed)[p], p)
      && forall e :: e in adds && Names(e, p) ==> le(Pairing(adds, removed)[p], e)
  {
    hide TotalOrder;
    if adds != [] {
      var init, last := adds[..|adds| - 1], adds[|adds| - 1];
      PairedIsLeast(init, removed, p, le);
      assert adds == init + [last];
      OrderReflexive(le, last);
      forall e | e in init ensures le(e, last) {
        var k :| 0 <= k < |init| && init[k] == e;
        assert le(adds[k], adds[|adds| - 1]);
      }
    }
  }

  lemma OrderReflexive(le: (Event, Event) -> bool, e: Event)
    requires TotalOrder(le)
    ensures le(e, e)
  {
  }

  lemma {:induction false} PairedNamesItsKey(adds: seq<Event>, removed: set<string>)
    ensures forall q :: q in Pairing(adds, removed) ==> Names(Pairing(adds, removed)[q], q)
  {
    if adds != [] {
      PairedNamesItsKey(adds[..|adds| - 1], removed);
    }
  }

  // Neither event shares its id with another, so both survive deduplication.
  lemma BothSurvive(events: seq<Event>, e: Event, le: (Event, Event) -> bool)
    requires TotalOrder(le) && e in events
    requires forall other :: other in events && other != e ==> other.eventId != e.eventId
    ensures e in UniqueSorted(events, le)
  {
    SortSorts(events, le);
    SameElements(events, le);
    FirstByIdKeepsLeast(Sort(events, le), le);
    assert le(e, e);
    assert LeastOfItsId(e, Sort(events, le), le);
  }

  lemma UniqueSortedIsSubset(events: seq<Event>, le: (Event, Event) -> bool)
    requires TotalOrder(le)
    ensures forall e :: e in UniqueSorted(events, le) ==> e in events
  {
    SortSorts(events, le);
    SameElements(events, le);
    FirstByIdSorted(Sort(events, le), le);
  }

  lemma PairingOf(batch: seq<Event>, p: string, removal: Event, paired: Event, le: (Event, Event) -> bool)
    requires TotalOrder(le) && SortedBy(batch, le) && IsPaired(batch, p, paired, le)
    requires removal in batch && Removes(removal, p)
    ensures var pairing := Pairing(Select(batch, Adds, map[]), RemovedIds(batch));
      p in pairing && forall e :: Names(e, p) ==> (e in pairing.Values <==> e == paired)
  {
    var adds, removed := Select(batch, Adds, map[]), RemovedIds(batch);
    var pairing := Pairing(adds, removed);
    InSelect(batch, Adds, map[]);
    SelectSorted(batch, Adds, map[], le);
    PairedIsLeast(adds, removed, p, le);
    PairedNamesItsKey(adds, removed);
    assert paired in adds;
    assert le(pairing[p], paired) && le(paired, pairing[p]);
  }

  /** The rest of the phases, after the adds that are not paired. */
  function LaterPhases(batch: seq<Event>, le: (Event, Event) -> bool): seq<Event> {
    var pairing := Pairing(Select(batch, Adds, map[]), RemovedIds(batch));
    Sort(Select(batch, PairedAdds, pairing), le) + Select(batch, Modifications, pairing)
      + Select(batch, OtherRemovals, pairing)
  }

  function FirstPhase(batch: seq<Event>): seq<Event> {
    Select(batch, OtherAdds, Pairing(Select(batch, Adds, map[]), RemovedIds(batch)))
  }

  /** The adds naming a removed id come first, in order, but for the paired one; its removal is dropped. */
  lemma ContestedPhases(batch: seq<Event>, p: string, removal: Event, paired: Event, le: (Event, Event) -> bool)
    requires TotalOrder(le) && SortedBy(batch, le) && IsPaired(batch, p, paired, le)
    requires removal in batch && Removes(removal, p)
    ensures Phases(batch, le) == FirstPhase(batch) + LaterPhases(batch, le) && SortedBy(FirstPhase(batch), le)
    ensures forall e :: e in Phases(batch, le) ==> e in batch && !Removes(e, p)
    ensures forall e :: Names(e, p) ==> (e in FirstPhase(batch) <==> e in batch && e != paired)
    ensures forall e :: Names(e, p) ==> (e in LaterPhases(batch, le) <==> e == paired)
  {
    var pairing := Pairing(Select(batch, Adds, map[]), RemovedIds(batch));
    hide Select, Pairing, RemovedIds, TotalOrder, SortedBy, Sort;
    PairingOf(batch, p, removal, paired, le);
    InSelect(batch, OtherAdds, pairing);
    InSelect(batch, PairedAdds, pairing);
    InSelect(batch, Modifications, pairing);
    InSelect(batch, OtherRemovals, pairing);
    SelectSorted(batch, OtherAdds, pairing, le);
    SameElements(Select(batch, PairedAdds, pairing), le);
  }

  // Who carries the key on.

  /** The key is posted with the add's view, carried by its old ids and the new one, and never voided. */
  ghost predicate LineageKept(prior: State, result: (seq<Action>, State), key: EconomicKey, add: Event)
    requires add.Added?
  {
    var (actions, final) := result;
    && (forall id :: Carries(final, id, key) <==> Carries(prior, id, key) || id == TargetOf(add))
    && (forall id :: Carries(final, id, key) ==> final[id] == ViewFrom(add.transaction, key, Posted))
    && (forall a :: a in actions ==> !VoidsKey(a, key))
  }

  lemma ReplacedCarriers(s: State, v: View, id: string, key: EconomicKey)
    requires v.economicKey == key && id !in s
    ensures var next := Replaced(s, v, Some(id));
      && (forall x :: Carries(next, x, key) <==> Carries(s, x, key) || x == id)
      && (forall x :: Carries(next, x, key) ==> next[x] == v)
      && (forall x :: x in s ==> x in next)
  {
  }

  lemma AtThePair(s: State, p: string, add: Event, ctx: Context)
    requires p in s && s[p].status == Pending && TargetOf(add) !in s
    requires add.Added? && add.transaction.pendingTransactionId == Some(p)
    ensures var key := s[p].economicKey;
      var planned := PlanEvent(s, add, ctx);
      LineageKept(s, ([planned.action], planned.next), key, add)
  {
    var posted := ViewFrom(add.transaction, s[p].economicKey, Posted);
    assert PlanEvent(s, add, ctx) ==
      Planned(Revise(Supersession, s[p], posted), Replaced(s, posted, Some(TargetOf(add))));
    ReplacedCarriers(s, ViewFrom(add.transaction, s[p].economicKey, Posted), TargetOf(add), s[p].economicKey);
  }

  /** The first new add to name a pending transaction takes its key over, whatever else names it. */
  lemma FirstRivalKeeps(order: seq<Event>, i: nat, prior: State, p: string, ctx: Context)
    requires Inv(prior, ctx) && p in prior && prior[p].status == Pending
    requires OnlyRivals(prior, order, p)
    requires i < |order| && Rival(prior, order[i], p) && OwnTarget(order, order[i])
    requires forall j :: 0 <= j < i ==> !Rival(prior, order[j], p)
    ensures LineageKept(prior, Run(prior, order, ctx), prior[p].economicKey, order[i])
  {
    hide Inv, Run, PlanEvent, Rival, Aside, LineageKept;
    var key, winner, before, after := prior[p].economicKey, order[i], order[..i], order[i + 1..];
    assert order == before + [winner] + after;
    forall e | e in before ensures Aside(prior, e, key) && e != winner && e in order {
      var k :| 0 <= k < i && order[k] == e;
    }
    assert forall e :: e in after ==> e in order;
    RivalIsAdd(prior, winner, p);
    BeforeTheRival(before, prior, p, winner, ctx);
    var s := Final(prior, before, ctx);
    AtThePair(s, p, winner, ctx);
    StepKeepsInv(s, winner, ctx);
    var planned := PlanEvent(s, winner, ctx);
    StepKnows(s, winner, ctx);
    AfterTheRival(prior, s, planned, after, p, winner, ctx);
    RunLast(prior, before, winner, ctx);
    RunSplits(prior, before + [winner], after, ctx);
    assert Run(prior, order, ctx).0 == Run(prior, before, ctx).0 + [planned.action] + Run(planned.next, after, ctx).0;
    LineageJoins(prior, s, planned, Run(prior, before, ctx).0, Run(planned.next, after, ctx), key, winner);
  }

  lemma StepKnows(s: State, e: Event, ctx: Context)
    ensures forall id :: id in s ==> id in PlanEvent(s, e, ctx).next
  {
  }

  lemma RivalIsAdd(prior: State, e: Event, p: string)
    requires Rival(prior, e, p)
    ensures e.Added? && e.transaction.pendingTransactionId == Some(p) && TargetOf(e) !in prior
  {
  }

  lemma BeforeTheRival(before: seq<Event>, prior: State, p: string, winner: Event, ctx: Context)
    requires Inv(prior, ctx) && p in prior && TargetOf(winner) !in prior
    requires forall e :: e in before ==> Aside(prior, e, prior[p].economicKey) && TargetOf(e) != TargetOf(winner)
    ensures var (actions, s) := Run(prior, before, ctx);
      && Inv(s, ctx) && TargetOf(winner) !in s && p in s && s[p] == prior[p]
      && SameCarriers(prior, s, prior[p].economicKey)
      && (forall a :: a in actions ==> !VoidsKey(a, prior[p].economicKey))
  {
    hide PlanEvent, VoidsKey;
    var key := prior[p].economicKey;
    assert forall e :: e in before ==> StaysOff(prior, e, key);
    assert Carries(prior, p, key) && Carries(prior, key.root, key);
    RunStaysOff(prior, before, key, ctx);
    KnownByAdds(prior, before, TargetOf(winner), ctx);
    RunKeepsInv(prior, before, ctx);
  }

  lemma AfterTheRival(prior: State, s: State, planned: Planned, after: seq<Event>, p: string, winner: Event,
                      ctx: Context)
    requires p in prior && Rival(prior, winner, p) && SameCarriers(prior, s, prior[p].economicKey)
    requires Inv(planned.next, ctx) && LineageKept(s, ([planned.action], planned.next), prior[p].economicKey, winner)
    requires forall id :: id in s ==> id in planned.next
    requires forall e :: e in after && e != winner ==> TargetOf(e) != TargetOf(winner)
    requires OnlyRivals(prior, after, p)
    ensures SameCarriers(planned.next, Final(planned.next, after, ctx), prior[p].economicKey)
    ensures forall a :: a in Run(planned.next, after, ctx).0 ==> !VoidsKey(a, prior[p].economicKey)
  {
    hide Run, PlanEvent, VoidsKey, ViewFrom;
    var key, next := prior[p].economicKey, planned.next;
    PostedCarriers(s, planned, key, winner);
    forall e | e in after ensures StaysOff(next, e, key) {
      assert Rival(prior, e, p) || Aside(prior, e, key);
    }
    assert Carries(next, TargetOf(winner), key) && Carries(next, key.root, key);
    RunStaysOff(next, after, key, ctx);
  }

  lemma PostedCarriers(s: State, planned: Planned, key: EconomicKey, winner: Event)
    requires winner.Added? && LineageKept(s, ([planned.action], planned.next), key, winner)
    ensures forall id :: Carries(planned.next, id, key) <==> Carries(s, id, key) || id == TargetOf(winner)
    ensures forall id :: Carries(planned.next, id, key) ==> planned.next[id].status == Posted
  {
  }

  lemma LineageJoins(prior: State, s: State, planned: Planned, earlier: seq<Action>, rest: (seq<Action>, State),
                     key: EconomicKey, winner: Event)
    requires winner.Added? && SameCarriers(prior, s, key)
    requires LineageKept(s, ([planned.action], planned.next), key, winner)
    requires SameCarriers(planned.next, rest.1, key)
    requires forall a :: a in earlier || a in rest.0 ==> !VoidsKey(a, key)
    ensures LineageKept(prior, (earlier + [planned.action] + rest.0, rest.1), key, winner)
  {
    hide VoidsKey, ViewFrom;
    assert planned.action in [planned.action];
  }

  lemma FirstRival(prior: State, events: seq<Event>, p: string) returns (i: nat)
    requires exists e :: e in events && Rival(prior, e, p)
    ensures i < |events| && Rival(prior, events[i], p) && forall j :: 0 <= j < i ==> !Rival(prior, events[j], p)
  {
    i := 0;
    while !Rival(prior, events[i], p)
      invariant i < |events| && forall j :: 0 <= j < i ==> !Rival(prior, events[j], p)
      invariant exists e :: e in events[i..] && Rival(prior, e, p)
      decreases |events| - i
    {
      var e :| e in events[i..] && Rival(prior, e, p);
      assert events[i..] == [events[i]] + events[i + 1..];
      assert e in events[i + 1..];
      i := i + 1;
    }
  }

  /** Sorting and deduplication keep the removal and every add that names its id, in order. */
  lemma ContestSurvives(prior: State, events: seq<Event>, p: string, removal: Event, le: (Event, Event) -> bool)
    requires TotalOrder(le) && Contest(prior, events, p, removal)
    ensures var batch := UniqueSorted(events, le);
      && SortedBy(batch, le) && removal in batch && Contest(prior, batch, p, removal)
      && (forall e :: e in batch ==> e in events)
      && (forall e :: Names(e, p) ==> (e in batch <==> e in events))
  {
    hide TotalOrder, SortedBy, UniqueSorted, OffKey;
    UniqueSortedIsSubset(events, le);
    BatchSorted(events, le);
    BothSurvive(events, removal, le);
    forall e | Names(e, p) && e in events ensures e in UniqueSorted(events, le) {
      BothSurvive(events, e, le);
    }
  }

  lemma BatchSorted(events: seq<Event>, le: (Event, Event) -> bool)
    requires TotalOrder(le)
    ensures SortedBy(UniqueSorted(events, le), le)
  {
    SortSorts(events, le);
    FirstByIdSorted(Sort(events, le), le);
  }

  /** In a contested batch with a paired add, the phases hold no removal of the id. */
  lemma OrderOfContest(prior: State, events: seq<Event>, p: string, removal: Event, paired: Event,
                       le: (Event, Event) -> bool)
    requires TotalOrder(le) && Contest(prior, events, p, removal) && IsPaired(events, p, paired, le)
    ensures var order := Phases(UniqueSorted(events, le), le);
      && OnlyRivals(prior, order, p)
      && (forall e :: e in order ==> e in events)
      && (forall e :: Names(e, p) ==> (e in order <==> e in events))
  {
    hide TotalOrder, UniqueSorted, Phases, FirstPhase, LaterPhases, Aside;
    ContestSurvives(prior, events, p, removal, le);
    ContestedPhases(UniqueSorted(events, le), p, removal, paired, le);
  }

  /**
   * The first new add in the phases that names the id is the paired one if that is the only new one, and
   * otherwise the least of the others.
   */
  lemma WinnerInPhases(prior: State, events: seq<Event>, p: string, removal: Event, paired: Event,
                       le: (Event, Event) -> bool)
    returns (order: seq<Event>, i: nat)
    requires TotalOrder(le) && Contest(prior, events, p, removal) && IsPaired(events, p, paired, le)
    requires HasRival(prior, events, p)
    ensures order == Phases(UniqueSorted(events, le), le) && OnlyRivals(prior, order, p)
    ensures i < |order| && order[i] in events && Rival(prior, order[i], p) && OwnTarget(order, order[i])
    ensures forall j :: 0 <= j < i ==> !Rival(prior, order[j], p)
    ensures order[i] == paired ==> OnlyRival(prior, events, p, paired)
    ensures order[i] != paired ==> forall e :: e in events && Rival(prior, e, p) && e != paired ==> le(order[i], e)
  {
    hide TotalOrder, UniqueSorted, Phases, FirstPhase, LaterPhases, OffKey;
    ContestSurvives(prior, events, p, removal, le);
    OrderOfContest(prior, events, p, removal, paired, le);
    var batch := UniqueSorted(events, le);
    ContestedPhases(batch, p, removal, paired, le);
    order := Phases(batch, le);
    var early := FirstPhase(batch);
    RivalInOrder(prior, events, order, p);
    i := FirstRival(prior, order, p);
    assert order[i] in order;
    if i < |early| {
      assert order[i] == early[i] && early[i] in early;
      forall e | e in events && Rival(prior, e, p) && e != paired ensures le(order[i], e) {
        var k :| 0 <= k < |early| && early[k] == e;
        assert order[k] == early[k];
        OrderReflexive(le, e);
        assert i == k || le(early[i], early[k]);
      }
    } else {
      assert order[i] == LaterPhases(batch, le)[i - |early|];
      assert forall k :: 0 <= k < |early| ==> order[k] == early[k];
      assert forall e :: e in early ==> !Rival(prior, e, p);
    }
  }

  /** The add is new, and no other new add names the id. */
  ghost predicate OnlyRival(prior: State, events: seq<Event>, p: string, e: Event) {
    Rival(prior, e, p) && forall other :: other in events && Rival(prior, other, p) ==> other == e
  }

  lemma RivalInOrder(prior: State, events: seq<Event>, order: seq<Event>, p: string)
    requires HasRival(prior, events, p) && forall e :: Names(e, p) && e in events ==> e in order
    ensures exists e :: e in order && Rival(prior, e, p)
  {
    var k :| 0 <= k < |events| && Rival(prior, events[k], p);
    assert events[k] in order;
  }

  lemma NoRivalMeans(prior: State, events: seq<Event>, p: string)
    requires !HasRival(prior, events, p)
    ensures forall e :: e in events ==> !Rival(prior, e, p)
  {
  }

  /**
   * Of the adds in a batch that name a removed pending transaction, the least is paired with the removal. It
   * carries the key on if and only if it is new and no other new add names the transaction. If others do, the
   * least of them does instead, because adds that are not paired are folded first.
   */
  lemma LineageGoesTo(events: seq<Event>, prior: State, p: string, removal: Event, paired: Event,
                      ctx: Context, le: (Event, Event) -> bool) returns (winner: Event)
    requires TotalOrder(le) && Inv(prior, ctx) && Contest(prior, events, p, removal) && prior[p].status == Pending
    requires IsPaired(events, p, paired, le)
    ensures LineageKept(prior, Reconciled(events, prior, ctx, le), prior[p].economicKey, paired)
      <==> OnlyRival(prior, events, p, paired)
    ensures HasRival(prior, events, p) ==>
      winner in events && Rival(prior, winner, p)
      && LineageKept(prior, Reconciled(events, prior, ctx, le), prior[p].economicKey, winner)
      && (winner != paired ==> forall e :: e in events && Rival(prior, e, p) && e != paired ==> le(winner, e))
  {
    hide TotalOrder, Inv, Phases, UniqueSorted, Run, Aside, ViewFrom, VoidsKey;
    if HasRival(prior, events, p) {
      var order, i := WinnerInPhases(prior, events, p, removal, paired, le);
      winner := order[i];
      FirstRivalKeeps(order, i, prior, p, ctx);
      if winner != paired {
        assert TargetOf(winner) != TargetOf(paired);
        assert Carries(Reconciled(events, prior, ctx, le).1, TargetOf(winner), prior[p].economicKey);
      }
    } else {
      winner := paired;
      NoRivalMeans(prior, events, p);
      OrderOfContest(prior, events, p, removal, paired, le);
      Unreached(Phases(UniqueSorted(events, le), le), prior, p, ctx);
      NotPosted(prior, Reconciled(events, prior, ctx, le), p, paired);
    }
  }

  lemma NotPosted(prior: State, result: (seq<Action>, State), p: string, paired: Event)
    requires p in prior && prior[p].status == Pending && p in result.1 && result.1[p] == prior[p] && paired.Added?
    ensures !LineageKept(prior, result, prior[p].economicKey, paired)
  {
    assert Carries(result.1, p, prior[p].economicKey);
  }

  ghost predicate PendingPair(prior: State, p: string, add: Event, removal: Event) {
    && p in prior && prior[p].status == Pending && Rival(prior, add, p)
    && removal.Removed? && removal.providerTransactionId == p && removal.eventId != add.eventId
  }

  /** The rest of a batch keeps away from a key, from the id about to join it and from two event ids. */
  ghost predicate Unrelated(e: Event, prior: State, key: EconomicKey, add: Event, removal: Event) {
    e.eventId != add.eventId && e.eventId != removal.eventId && TargetOf(e) != TargetOf(add) && OffKey(prior, e, key)
  }

  /**
   * A pending transaction whose removal arrives with the one add that names it keeps its economic
   * key: whatever their order, the key becomes posted with the new view, the old ids and the new one
   * alias it, and nothing voids it.
   */
  lemma PendingBecomesPosted(events: seq<Event>, prior: State, p: string, add: Event, removal: Event,
                             ctx: Context, le: (Event, Event) -> bool)
    requires TotalOrder(le) && Inv(prior, ctx) && PendingPair(prior, p, add, removal)
    requires add in events && removal in events
    requires forall e :: e in events && e != add && e != removal ==>
      Unrelated(e, prior, prior[p].economicKey, add, removal)
    ensures LineageKept(prior, Reconciled(events, prior, ctx, le), prior[p].economicKey, add)
    ensures var final := Reconciled(events, prior, ctx, le).1;
      p in final && TargetOf(add) in final && final[p] == final[TargetOf(add)] && final[p].status == Posted
  {
    hide TotalOrder, Inv, Reconciled;
    OrderReflexive(le, add);
    assert Carries(prior, p, prior[p].economicKey);
    assert IsPaired(events, p, add, le);
    var winner := LineageGoesTo(events, prior, p, removal, add, ctx, le);
    assert Carries(Reconciled(events, prior, ctx, le).1, TargetOf(add), prior[p].economicKey);
    assert Carries(Reconciled(events, prior, ctx, le).1, p, prior[p].economicKey);
  }

  /** An instance: of two adds that name the pending transaction, the greater one takes the key from the paired one. */
  lemma RivalAddTakesTheKey(prior: State, p: string, first: Event, second: Event, removal: Event,
                            ctx: Context, le: (Event, Event) -> bool)
    requires TotalOrder(le) && Inv(prior, ctx) && PendingPair(prior, p, first, removal)
    requires PendingPair(prior, p, second, removal)
    requires TargetOf(first) != TargetOf(second) && first.eventId != second.eventId && le(first, second)
    ensures LineageKept(prior, Reconciled([first, second, removal], prior, ctx, le), prior[p].economicKey, second)
    ensures !LineageKept(prior, Reconciled([first, second, removal], prior, ctx, le), prior[p].economicKey, first)
  {
    hide TotalOrder, Inv, Reconciled, LineageKept, OffKey;
    var events := [first, second, removal];
    assert first in events && second in events && removal in events;
    OrderReflexive(le, first);
    var winner := LineageGoesTo(events, prior, p, removal, first, ctx, le);
  }

  // A transaction that is born pending, removed and posted within one batch.

  /** The batch adds p as pending, removes it and posts it under a new id; the rest does not touch or name it. */
  ghost predicate BornAndPosted(prior: State, events: seq<Event>, p: string, born: Event, add: Event, removal: Event) {
    && p !in prior && born in events && born.Added? && TargetOf(born) == p && OwnEventId(events, born)
    && born.transaction.pending && born.transaction.pendingTransactionId.None?
    && add in events && Rival(prior, add, p) && TargetOf(add) != p && OwnEventId(events, add) && OwnTarget(events, add)
    && removal in events && Removes(removal, p) && OwnEventId(events, removal)
    && forall e :: e in events ==> e == born || e == add || Removes(e, p) || (TargetOf(e) != p && !Names(e, p))
  }

  /** The key p would create is posted with the add's view under both ids and no other, and never voided. */
  ghost predicate PostedUnderBoth(result: (seq<Action>, State), p: string, add: Event, key: EconomicKey)
    requires add.Added?
  {
    var (actions, final) := result;
    && (forall id :: Carries(final, id, key) <==> id == p || id == TargetOf(add))
    && (forall id :: Carries(final, id, key) ==> final[id] == ViewFrom(add.transaction, key, Posted))
    && (forall a :: a in actions ==> !VoidsKey(a, key))
  }

  lemma {:induction false} FirstOccurrence(events: seq<Event>, e: Event) returns (i: nat)
    requires e in events
    ensures i < |events| && events[i] == e && e !in events[..i]
  {
    var init := events[..|events| - 1];
    if e in init {
      i := FirstOccurrence(init, e);
      assert init[..i] == events[..i];
    } else {
      i := |events| - 1;
    }
  }

  lemma BornBeforePosted(prior: State, events: seq<Event>, p: string, born: Event, add: Event, removal: Event,
                         le: (Event, Event) -> bool) returns (order: seq<Event>, i: nat)
    requires TotalOrder(le) && BornAndPosted(prior, events, p, born, add, removal)
    ensures order == Phases(UniqueSorted(events, le), le) && i < |order| && order[i] == born
    ensures born !in order[..i] && add !in order[..i] && add in order[i + 1..]
    ensures forall e :: e in order ==> e in events && !Removes(e, p)
  {
    hide TotalOrder, UniqueSorted, Phases, FirstPhase, LaterPhases, Select, Pairing, RemovedIds;
    UniqueSortedIsSubset(events, le);
    BatchSorted(events, le);
    BothSurvive(events, born, le);
    BothSurvive(events, add, le);
    BothSurvive(events, removal, le);
    OrderReflexive(le, add);
    var batch := UniqueSorted(events, le);
    assert IsPaired(batch, p, add, le);
    ContestedPhases(batch, p, removal, add, le);
    UnnamingIsEarly(batch, born);
    var early, late := FirstPhase(batch), LaterPhases(batch, le);
    order := Phases(batch, le);
    i := FirstOccurrence(early, born);
    assert order[..i] == early[..i];
    assert forall e :: e in early[..i] ==> e in early;
    assert order[i + 1..] == early[i + 1..] + late;
  }

  lemma UnnamingIsEarly(batch: seq<Event>, born: Event)
    requires born in batch && born.Added? && born.transaction.pendingTransactionId.None?
    ensures born in FirstPhase(batch)
  {
    var adds, removed := Select(batch, Adds, map[]), RemovedIds(batch);
    PairedNamesItsKey(adds, removed);
    InSelect(batch, OtherAdds, Pairing(adds, removed));
  }

  /** While its root is unknown, nothing voids a key. */
  lemma {:induction false} NoVoidOfUnknown(s: State, events: seq<Event>, p: string, ctx: Context)
    requires Inv(s, ctx) && p !in Final(s, events, ctx)
    ensures forall a :: a in Run(s, events, ctx).0 ==> !VoidsKey(a, EconomicKeyFor(p, ctx))
  {
    hide PlanEvent, Inv;
    if events != [] {
      var init, last := events[..|events| - 1], events[|events| - 1];
      var before := Final(s, init, ctx);
      StepKnows(before, last, ctx);
      NoVoidOfUnknown(s, init, p, ctx);
      RunKeepsInv(s, init, ctx);
      VoidsAKnownKey(before, last, p, ctx);
    }
  }

  lemma VoidsAKnownKey(s: State, e: Event, p: string, ctx: Context)
    requires Inv(s, ctx) && p !in s
    ensures !VoidsKey(PlanEvent(s, e, ctx).action, EconomicKeyFor(p, ctx))
  {
  }

  lemma Born(s: State, p: string, born: Event, add: Event, after: seq<Event>, ctx: Context)
    requires Inv(s, ctx) && p !in s && TargetOf(add) !in s && Names(add, p) && TargetOf(add) != p
    requires born.Added? && TargetOf(born) == p && born.transaction.pending
    requires born.transaction.pendingTransactionId.None?
    requires forall e :: e in after ==> e == born || e == add || (TargetOf(e) != p && !Names(e, p))
    ensures var planned := PlanEvent(s, born, ctx);
      var next := planned.next;
      && Inv(next, ctx) && p in next && next[p].status == Pending && next[p].economicKey == EconomicKeyFor(p, ctx)
      && (forall id :: Carries(next, id, EconomicKeyFor(p, ctx)) <==> id == p)
      && OnlyRivals(next, after, p) && Rival(next, add, p) && planned.action.Create?
  {
    CreateIsFresh(s, p, ctx);
    StepKeepsInv(s, born, ctx);
    var next := PlanEvent(s, born, ctx).next;
    assert next == s[p := next[p]];
    forall e | e in after ensures Rival(next, e, p) || Aside(next, e, EconomicKeyFor(p, ctx)) {}
  }

  /**
   * The law holds from the batch's own start as well: a transaction added as pending, removed and posted under
   * a new id in one batch, in whatever order, ends posted under one key with both its ids, and nothing voids it.
   */
  lemma PostedWithinOneBatch(events: seq<Event>, prior: State, p: string, born: Event, add: Event, removal: Event,
                             ctx: Context, le: (Event, Event) -> bool)
    requires TotalOrder(le) && Inv(prior, ctx) && BornAndPosted(prior, events, p, born, add, removal)
    ensures PostedUnderBoth(Reconciled(events, prior, ctx, le), p, add, EconomicKeyFor(p, ctx))
  {
    hide TotalOrder, Inv, Run, PlanEvent, Phases, UniqueSorted, LineageKept, Rival, OnlyRivals, VoidsKey, ViewFrom;
    RivalIsAdd(prior, add, p);
    var order, i := BornBeforePosted(prior, events, p, born, add, removal, le);
    var key, before, after := EconomicKeyFor(p, ctx), order[..i], order[i + 1..];
    assert order == before + [born] + after;
    assert forall e :: e in before || e in after ==> e in order;
    KnownByAdds(prior, before, p, ctx);
    KnownByAdds(prior, before, TargetOf(add), ctx);
    Untargeted(events, before, p, born, add);
    var s := Final(prior, before, ctx);
    RunKeepsInv(prior, before, ctx);
    NoVoidOfUnknown(prior, before, p, ctx);
    Born(s, p, born, add, after, ctx);
    var planned := PlanEvent(s, born, ctx);
    var j := FirstRival(planned.next, after, p);
    RivalIsAdd(planned.next, after[j], p);
    assert after[j] in after && after[j] == add;
    FirstRivalKeeps(after, j, planned.next, p, ctx);
    RunLast(prior, before, born, ctx);
    RunSplits(prior, before + [born], after, ctx);
    assert Run(prior, order, ctx).0 == Run(prior, before, ctx).0 + [planned.action] + Run(planned.next, after, ctx).0;
    BornJoins(planned, Run(prior, before, ctx).0, Run(planned.next, after, ctx), p, add, key);
  }

  lemma Untargeted(events: seq<Event>, before: seq<Event>, p: string, born: Event, add: Event)
    requires forall e :: e in before ==> e in events && e != born && e != add && (TargetOf(e) != p || !e.Added?)
    requires OwnTarget(events, add)
    ensures !AddsId(before, p) && !AddsId(before, TargetOf(add))
  {
    assert forall k :: 0 <= k < |before| ==> before[k] in before;
  }

  lemma BornJoins(planned: Planned, earlier: seq<Action>, rest: (seq<Action>, State), p: string, add: Event,
                  key: EconomicKey)
    requires add.Added? && planned.action.Create? && LineageKept(planned.next, rest, key, add)
    requires forall id :: Carries(planned.next, id, key) <==> id == p
    requires forall a :: a in earlier ==> !VoidsKey(a, key)
    ensures PostedUnderBoth((earlier + [planned.action] + rest.0, rest.1), p, add, key)
  {
    hide ViewFrom;
    assert planned.action in [planned.action] && !VoidsKey(planned.action, key);
  }

  // What becomes of the removal.

  lemma RemovalInOrderVoids(s: State, order: seq<Event>, r: Event, ctx: Context)
    requires Inv(s, ctx) && r in order && r.Removed? && TargetOf(r) in s
    ensures TargetOf(r) in Final(s, order, ctx) && Final(s, order, ctx)[TargetOf(r)].status == Voided
  {
    hide Inv, PlanEvent, Run;
    var i :| 0 <= i < |order| && order[i] == r;
    var before, after := order[..i], order[i + 1..];
    assert order == before + [r] + after;
    StreamFreezes(s, before, TargetOf(r), ctx);
    RunLast(s, before, r, ctx);
    RemovedOnce(Final(s, before, ctx), r, ctx);
    RunKeepsInv(s, before + [r], ctx);
    StreamFreezes(Final(s, before + [r], ctx), after, TargetOf(r), ctx);
    RunSplits(s, before + [r], after, ctx);
  }

  /** Whatever else a batch holds: a removal is folded exactly when no add of the batch names its id. */
  lemma RemovalFoldedExactly(batch: seq<Event>, removal: Event, le: (Event, Event) -> bool)
    requires removal in batch && removal.Removed?
    ensures removal in Phases(batch, le) <==> !HasNamer(batch, TargetOf(removal))
  {
    hide Select, Pairing, RemovedIds, Sort;
    var adds, removed := Select(batch, Adds, map[]), RemovedIds(batch);
    var pairing := Pairing(adds, removed);
    InSelect(batch, Adds, map[]);
    InSelect(batch, OtherAdds, pairing);
    InSelect(batch, PairedAdds, pairing);
    InSelect(batch, Modifications, pairing);
    InSelect(batch, OtherRemovals, pairing);
    SameElements(Select(batch, PairedAdds, pairing), le);
    PairedNamesItsKey(adds, removed);
    PairedAreAdds(adds, removed);
    RemovedIdsHas(batch, removal);
    NamedIsPaired(adds, removed, TargetOf(removal));
    if TargetOf(removal) in pairing {
      var e := pairing[TargetOf(removal)];
      assert e in batch;
    }
  }

  lemma RemovedIdsHas(batch: seq<Event>, removal: Event)
    requires removal in batch && removal.Removed?
    ensures TargetOf(removal) in RemovedIds(batch)
  {
  }

  lemma {:induction false} NamedIsPaired(adds: seq<Event>, removed: set<string>, p: string)
    requires p in removed
    ensures forall e :: e in adds && Names(e, p) ==> p in Pairing(adds, removed)
  {
    if adds != [] {
      NamedIsPaired(adds[..|adds| - 1], removed, p);
      assert adds == adds[..|adds| - 1] + [adds[|adds| - 1]];
    }
  }

  lemma {:induction false} PairedAreAdds(adds: seq<Event>, removed: set<string>)
    ensures forall q :: q in Pairing(adds, removed) ==> Pairing(adds, removed)[q] in adds
  {
    if adds != [] {
      PairedAreAdds(adds[..|adds| - 1], removed);
      assert adds == adds[..|adds| - 1] + [adds[|adds| - 1]];
    }
  }

  lemma NamersKept(batch: seq<Event>, events: seq<Event>, p: string)
    requires forall e :: e in batch ==> e in events
    ensures HasNamer(batch, p) ==> HasNamer(events, p)
  {
    forall k | 0 <= k < |batch| && Names(batch[k], p) ensures HasNamer(events, p) {
      assert batch[k] in batch;
      var j :| 0 <= j < |events| && events[j] == batch[k];
    }
  }

  /** In any batch, a known id that is removed and that no add names ends voided. */
  lemma UnnamedRemovalVoids(events: seq<Event>, prior: State, removal: Event, ctx: Context, le: (Event, Event) -> bool)
    requires TotalOrder(le) && Inv(prior, ctx) && removal in events && removal.Removed? && OwnEventId(events, removal)
    requires TargetOf(removal) in prior && !HasNamer(events, TargetOf(removal))
    ensures var final := Reconciled(events, prior, ctx, le).1;
      TargetOf(removal) in final && final[TargetOf(removal)].status == Voided
  {
    hide TotalOrder, Inv, Phases, UniqueSorted, Run;
    UniqueSortedIsSubset(events, le);
    BothSurvive(events, removal, le);
    var batch := UniqueSorted(events, le);
    NamersKept(batch, events, TargetOf(removal));
    RemovalFoldedExactly(batch, removal, le);
    RemovalInOrderVoids(prior, Phases(batch, le), removal, ctx);
  }

  /** The removed transaction ends voided, or superseded by a new add that names it. */
  ghost predicate Honoured(prior: State, events: seq<Event>, final: State, p: string)
    requires p in prior
  {
    p in final && (final[p].status == Voided
      || exists a ::
           a in events && Rival(prior, a, p) && final[p] == ViewFrom(a.transaction, prior[p].economicKey, Posted))
  }

  /** No add names the id, or it is voided already, or a new add can supersede it. */
  predicate Removable(prior: State, events: seq<Event>, p: string)
    requires p in prior
  {
    !HasNamer(events, p) || prior[p].status == Voided || (prior[p].status == Pending && HasRival(prior, events, p))
  }

  /**
   * The removal of a known id is dropped when an add of the batch names it. It is lost, and the transaction
   * left as it was, exactly when that add cannot supersede: the transaction is posted already, or every add
   * that names it was delivered before.
   */
  lemma RemovalHonouredExactly(events: seq<Event>, prior: State, p: string, removal: Event,
                               ctx: Context, le: (Event, Event) -> bool)
    requires TotalOrder(le) && Inv(prior, ctx) && Contest(prior, events, p, removal)
    ensures var final := Reconciled(events, prior, ctx, le).1;
      && (Honoured(prior, events, final, p) <==> Removable(prior, events, p))
      && (!Removable(prior, events, p) ==> p in final && final[p] == prior[p])
  {
    hide TotalOrder, Inv, Phases, UniqueSorted, Run, Aside;
    if !HasNamer(events, p) {
      UnnamedRemovalVoids(events, prior, removal, ctx, le);
    } else {
      var paired := SomePaired(events, prior, p, removal, le);
      if prior[p].status == Pending && HasRival(prior, events, p) {
        var winner := LineageGoesTo(events, prior, p, removal, paired, ctx, le);
        assert Carries(prior, p, prior[p].economicKey);
        assert Carries(Reconciled(events, prior, ctx, le).1, p, prior[p].economicKey);
      } else {
        OrderOfContest(prior, events, p, removal, paired, le);
        NoRivalAmong(prior, events, Phases(UniqueSorted(events, le), le), p);
        Unreached(Phases(UniqueSorted(events, le), le), prior, p, ctx);
        NotAView(prior, events, p, ctx);
      }
    }
  }

  lemma NoRivalAmong(prior: State, events: seq<Event>, order: seq<Event>, p: string)
    requires forall e :: e in order ==> e in events
    ensures !HasRival(prior, events, p) ==> forall e :: e in order ==> !Rival(prior, e, p)
  {
    if !HasRival(prior, events, p) {
      NoRivalMeans(prior, events, p);
    }
  }

  lemma SomePaired(events: seq<Event>, prior: State, p: string, removal: Event, le: (Event, Event) -> bool)
    returns (paired: Event)
    requires TotalOrder(le) && Contest(prior, events, p, removal) && HasNamer(events, p)
    ensures IsPaired(events, p, paired, le)
  {
    hide UniqueSorted, OffKey;
    ContestSurvives(prior, events, p, removal, le);
    var batch := UniqueSorted(events, le);
    var k :| 0 <= k < |events| && Names(events[k], p);
    assert events[k] in batch && Rival(EMPTY, events[k], p);
    var i := FirstRival(EMPTY, batch, p);
    paired := batch[i];
    forall e | e in events && Names(e, p) ensures le(paired, e) {
      var j :| 0 <= j < |batch| && batch[j] == e;
      assert Rival(EMPTY, batch[j], p);
      assert i == j || le(batch[i], batch[j]);
    }
  }

  /** A transaction that is not pending, or that no new add names, is reached by nothing else. */
  lemma Unreached(order: seq<Event>, prior: State, p: string, ctx: Context)
    requires Inv(prior, ctx) && p in prior && OnlyRivals(prior, order, p)
    requires prior[p].status != Pending || forall e :: e in order ==> !Rival(prior, e, p)
    ensures p in Final(prior, order, ctx) && Final(prior, order, ctx)[p] == prior[p]
  {
    hide PlanEvent, Run, VoidsKey;
    var key := prior[p].economicKey;
    assert Carries(prior, p, key) && Carries(prior, key.root, key);
    forall e | e in order ensures StaysOff(prior, e, key) {
      assert Rival(prior, e, p) || Aside(prior, e, key);
    }
    RunStaysOff(prior, order, key, ctx);
  }

  lemma NotAView(prior: State, events: seq<Event>, p: string, ctx: Context)
    requires Inv(prior, ctx) && p in prior
    ensures forall a :: a in events && Rival(prior, a, p) ==>
      prior[p] != ViewFrom(a.transaction, prior[p].economicKey, Posted)
  {
  }

  // A pending transaction whose removal is lost to an add delivered before.

  function Delivery(eventId: string, id: string, names: Option<string>, pending: bool): Event {
    Added(eventId, Transaction(id, names, "account", 100, pending, "coffee", "2024-01-01"))
  }

  /** The posted add comes first, then the pending one it names: two keys, and the pending one stays pending. */
  lemma PostedBeforePending(ctx: Context)
    ensures var s := Final(EMPTY, [Delivery("e1", "q", Some("p"), false), Delivery("e2", "p", None, true)], ctx);
      Inv(s, ctx) && "p" in s && "q" in s && s["p"].status == Pending && s["p"].economicKey.root == "p"
  {
    var first, second := Delivery("e1", "q", Some("p"), false), Delivery("e2", "p", None, true);
    assert [first, second][..1] == [first] && [first][..0] == [];
    assert Run(EMPTY, [], ctx) == ([], EMPTY);
    assert Run(EMPTY, [first], ctx).1 == PlanEvent(EMPTY, first, ctx).next;
    RunKeepsInv(EMPTY, [first, second], ctx);
  }

  /** An instance: the redelivered add is paired with the removal, which is lost although nothing is posted over p. */
  lemma RedeliveredAddLosesRemoval(ctx: Context, le: (Event, Event) -> bool)
    requires TotalOrder(le)
    ensures var prior := Final(EMPTY, [Delivery("e1", "q", Some("p"), false), Delivery("e2", "p", None, true)], ctx);
      var events := [Delivery("e3", "q", Some("p"), false), Removed("e4", "p")];
      var final := Reconciled(events, prior, ctx, le).1;
      "p" in prior && prior["p"].status == Pending && "p" in final && final["p"] == prior["p"]
  {
    hide Run, PlanEvent, TotalOrder, Reconciled, Inv;
    PostedBeforePending(ctx);
    var prior := Final(EMPTY, [Delivery("e1", "q", Some("p"), false), Delivery("e2", "p", None, true)], ctx);
    var add, removal := Delivery("e3", "q", Some("p"), false), Removed("e4", "p");
    var events := [add, removal];
    assert add in events && removal in events && events[0] == add;
    assert Contest(prior, events, "p", removal);
    assert !Removable(prior, events, "p");
    RemovalHonouredExactly(events, prior, "p", removal, ctx, le);
  }
}

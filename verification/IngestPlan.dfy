/** Bank-event ingestion: one event's plan, streams of events, and the journal their actions form. */
module IngestPlan {
  import opened Wrappers

  datatype Status = Pending | Posted | Voided

  // One transaction's identity: the provider id it was first created under, within a connection.
  datatype EconomicKey = EconomicKey(provider: string, connectionExternalRef: string, root: string)

  datatype View = View(
    economicKey: EconomicKey, providerTransactionId: string, accountExternalRef: string,
    amountMinor: int, status: Status, description: string, effectiveDate: string)

  // byProviderTxnId: every known provider id and the view it shares with its aliases.
  type State = map<string, View>

  const EMPTY: State := map[]

  datatype Transaction = Transaction(
    providerTransactionId: string, pendingTransactionId: Option<string>, accountExternalRef: string,
    amountMinor: int, pending: bool, description: string, date: string)

  datatype Event =
    | Added(eventId: string, transaction: Transaction)
    | Modified(eventId: string, transaction: Transaction)
    | Removed(eventId: string, providerTransactionId: string)

  function TargetOf(e: Event): string {
    if e.Removed? then e.providerTransactionId else e.transaction.providerTransactionId
  }

  datatype Context = Context(provider: string, connectionExternalRef: string)

  datatype ReviseReason = Supersession | ProviderModified

  datatype NoopReason = Duplicate | UnknownTarget | AlreadyApplied

  datatype Action =
    | Create(view: View)
    | Revise(reason: ReviseReason, prev: View, next: View)
    | Void(view: View)
    | Noop(why: NoopReason)

  datatype Planned = Planned(action: Action, next: State)

  function EconomicKeyFor(id: string, ctx: Context): EconomicKey {
    EconomicKey(ctx.provider, ctx.connectionExternalRef, id)
  }

  // The string the source stores for a key.
  function Rendered(key: EconomicKey): string {
    "txn:" + key.provider + ":" + key.connectionExternalRef + ":" + key.root
  }

  /** Within one connection, rendering loses nothing, so keys can be compared unrendered. */
  lemma RenderedIsInjective(a: string, b: string, ctx: Context)
    requires Rendered(EconomicKeyFor(a, ctx)) == Rendered(EconomicKeyFor(b, ctx))
    ensures a == b
  {
    var prefix := "txn:" + ctx.provider + ":" + ctx.connectionExternalRef + ":";
    assert (prefix + a)[|prefix|..] == a && (prefix + b)[|prefix|..] == b;
  }

  function DeliveredStatus(t: Transaction): Status {
    if t.pending then Pending else Posted
  }

  function ViewFrom(t: Transaction, economicKey: EconomicKey, status: Status): View {
    View(economicKey, t.providerTransactionId, t.accountExternalRef, t.amountMinor, status, t.description, t.date)
  }

  // The view of a key replaced under all its aliases, plus one more id if given.
  function Replaced(state: State, next: View, additional: Option<string>): State {
    var aliased := map id | id in state :: if state[id].economicKey == next.economicKey then next else state[id];
    if additional.Some? then aliased[additional.value := next] else aliased
  }

  method ReplaceEconomicView(state: State, next: View, additional: Option<string>) returns (r: State)
    ensures r == Replaced(state, next, additional)
  {
    r := state;
    var todo := state.Keys;
    while todo != {}
      invariant todo <= state.Keys && r.Keys == state.Keys
      invariant forall id :: id in state ==>
        r[id] == if id !in todo && state[id].economicKey == next.economicKey then next else state[id]
    {
      var id :| id in todo;
      if state[id].economicKey == next.economicKey {
        r := r[id := next];
      }
      todo := todo - {id};
    }
    if additional.Some? {
      r := r[additional.value := next];
    }
  }

  // The three planners.

  function PlanAdded(state: State, t: Transaction, ctx: Context): Planned {
    var id := t.providerTransactionId;
    if id in state then
      var delivered := ViewFrom(t, state[id].economicKey, DeliveredStatus(t));
      Planned(Noop(if state[id] == delivered then Duplicate else AlreadyApplied), state)
    else if t.pendingTransactionId.Some? && t.pendingTransactionId.value in state
      && state[t.pendingTransactionId.value].status == Pending then
      var prev := state[t.pendingTransactionId.value];
      var next := ViewFrom(t, prev.economicKey, Posted);
      Planned(Revise(Supersession, prev, next), Replaced(state, next, Some(id)))
    else
      var created := ViewFrom(t, EconomicKeyFor(id, ctx), DeliveredStatus(t));
      Planned(Create(created), state[id := created])
  }

  function PlanModified(state: State, t: Transaction): Planned {
    var id := t.providerTransactionId;
    if id !in state then Planned(Noop(UnknownTarget), state)
    else
      var prev := state[id];
      if prev.status == Voided || prev.providerTransactionId != id then Planned(Noop(AlreadyApplied), state)
      else
        var next := ViewFrom(t, prev.economicKey, DeliveredStatus(t));
        if prev == next then Planned(Noop(Duplicate), state)
        else Planned(Revise(ProviderModified, prev, next), Replaced(state, next, None))
  }

  function PlanRemoved(state: State, id: string): Planned {
    if id !in state then Planned(Noop(UnknownTarget), state)
    else if state[id].status == Voided then Planned(Noop(AlreadyApplied), state)
    else
      var voided := state[id].(status := Voided);
      Planned(Void(voided), Replaced(state, voided, None))
  }

  function PlanEvent(state: State, event: Event, ctx: Context): Planned {
    match event
    case Added(_, t) => PlanAdded(state, t, ctx)
    case Modified(_, t) => PlanModified(state, t)
    case Removed(_, id) => PlanRemoved(state, id)
  }

  // A whole run.

  function Run(state: State, events: seq<Event>, ctx: Context): (seq<Action>, State) {
    if events == [] then ([], state)
    else
      var before := Run(state, events[..|events| - 1], ctx);
      var last := PlanEvent(before.1, events[|events| - 1], ctx);
      (before.0 + [last.action], last.next)
  }

  function Final(state: State, events: seq<Event>, ctx: Context): State {
    Run(state, events, ctx).1
  }

  function Flatten(pages: seq<seq<Event>>): seq<Event> {
    if pages == [] then [] else Flatten(pages[..|pages| - 1]) + pages[|pages| - 1]
  }

  lemma RunLast(state: State, events: seq<Event>, e: Event, ctx: Context)
    ensures var before := Run(state, events, ctx);
      var last := PlanEvent(before.1, e, ctx);
      Run(state, events + [e], ctx) == (before.0 + [last.action], last.next)
  {
    assert (events + [e])[..|events|] == events;
  }

  lemma {:induction false} RunSplits(state: State, a: seq<Event>, b: seq<Event>, ctx: Context)
    ensures Final(state, a + b, ctx) == Final(Final(state, a, ctx), b, ctx)
    ensures Run(state, a + b, ctx).0 == Run(state, a, ctx).0 + Run(Final(state, a, ctx), b, ctx).0
  {
    hide PlanEvent;
    if b == [] {
      assert a + b == a;
    } else {
      RunSplits(state, a, b[..|b| - 1], ctx);
      assert (a + b)[..|a + b| - 1] == a + b[..|b| - 1];
    }
  }

  method PlanStream(state: State, pages: seq<seq<Event>>, ctx: Context)
    returns (actions: seq<Action>, nextState: State)
    ensures (actions, nextState) == Run(state, Flatten(pages), ctx)
  {
    actions, nextState := [], state;
    for i := 0 to |pages|
      invariant (actions, nextState) == Run(state, Flatten(pages[..i]), ctx)
    {
      var planned, next := FoldEvents(pages[i], nextState, ctx);
      RunSplits(state, Flatten(pages[..i]), pages[i], ctx);
      assert pages[..i + 1][..i] == pages[..i];
      actions, nextState := actions + planned, next;
    }
    assert pages[..|pages|] == pages;
  }

  method FoldEvents(events: seq<Event>, state: State, ctx: Context)
    returns (actions: seq<Action>, nextState: State)
    ensures (actions, nextState) == Run(state, events, ctx)
  {
    actions, nextState := [], state;
    for i := 0 to |events|
      invariant (actions, nextState) == Run(state, events[..i], ctx)
    {
      var planned := PlanEvent(nextState, events[i], ctx);
      assert events[..i + 1] == events[..i] + [events[i]];
      RunLast(state, events[..i], events[i], ctx);
      actions := actions + [planned.action];
      nextState := planned.next;
    }
    assert events[..|events|] == events;
  }

  // The invariant of every state reachable from the empty one under one context.

  ghost predicate AliasesAgree(s: State) {
    forall a, b :: a in s && b in s && s[a].economicKey == s[b].economicKey ==> s[a] == s[b]
  }

  // The id a key was created under is known and still carries the key.
  ghost predicate Rooted(s: State, ctx: Context) {
    forall id :: id in s ==>
      var key := s[id].economicKey;
      key == EconomicKeyFor(key.root, ctx) && key.root in s && s[key.root].economicKey == key
  }

  ghost predicate SelfNamed(s: State) {
    forall id :: id in s ==> s[id].providerTransactionId in s && s[s[id].providerTransactionId] == s[id]
  }

  ghost predicate Inv(s: State, ctx: Context) {
    AliasesAgree(s) && Rooted(s, ctx) && SelfNamed(s)
  }

  lemma StepKeepsInv(s: State, e: Event, ctx: Context)
    requires Inv(s, ctx)
    ensures Inv(PlanEvent(s, e, ctx).next, ctx)
  {
    match e
    case Added(_, t) =>
      AddedKeepsInv(s, t, ctx);
    case Modified(_, t) =>
      var p := PlanModified(s, t);
      if p.action.Revise? {
        ReplaceKeepsInv(s, p.action.next, t.providerTransactionId, None, ctx);
      }
    case Removed(_, id) =>
      var p := PlanRemoved(s, id);
      if p.action.Void? {
        ReplaceKeepsInv(s, p.action.view, id, None, ctx);
      }
  }

  lemma AddedKeepsInv(s: State, t: Transaction, ctx: Context)
    requires Inv(s, ctx)
    ensures Inv(PlanAdded(s, t, ctx).next, ctx)
  {
    var p := PlanAdded(s, t, ctx);
    if p.action.Create? {
      CreateKeepsInv(s, p.action.view, ctx);
    } else if p.action.Revise? {
      ReplaceKeepsInv(s, p.action.next, t.pendingTransactionId.value, Some(t.providerTransactionId), ctx);
    }
  }

  lemma CreateIsFresh(s: State, id: string, ctx: Context)
    requires Inv(s, ctx) && id !in s
    ensures forall other :: other in s ==> s[other].economicKey != EconomicKeyFor(id, ctx)
  {
  }

  lemma CreateKeepsInv(s: State, v: View, ctx: Context)
    requires Inv(s, ctx) && v.providerTransactionId !in s
    requires v.economicKey == EconomicKeyFor(v.providerTransactionId, ctx)
    ensures Inv(s[v.providerTransactionId := v], ctx)
  {
    CreateIsFresh(s, v.providerTransactionId, ctx);
  }

  lemma ReplaceKeepsInv(s: State, v: View, known: string, additional: Option<string>, ctx: Context)
    requires Inv(s, ctx) && known in s && s[known].economicKey == v.economicKey
    requires additional.Some? ==> additional.value !in s && additional.value == v.providerTransactionId
    requires additional.None? ==>
      v.providerTransactionId in s && s[v.providerTransactionId].economicKey == v.economicKey
    ensures Inv(Replaced(s, v, additional), ctx)
  {
    ReplaceKeepsAgreement(s, v, additional);
    ReplaceKeepsRoots(s, v, known, additional, ctx);
    ReplaceKeepsNames(s, v, additional);
  }

  lemma ReplaceKeepsAgreement(s: State, v: View, additional: Option<string>)
    requires AliasesAgree(s)
    ensures AliasesAgree(Replaced(s, v, additional))
  {
  }

  lemma ReplaceKeepsRoots(s: State, v: View, known: string, additional: Option<string>, ctx: Context)
    requires Rooted(s, ctx) && known in s && s[known].economicKey == v.economicKey
    requires additional.Some? ==> additional.value !in s
    ensures Rooted(Replaced(s, v, additional), ctx)
  {
    var next := Replaced(s, v, additional);
    forall id | id in next
      ensures var key := next[id].economicKey;
        key == EconomicKeyFor(key.root, ctx) && key.root in next && next[key.root].economicKey == key
    {
      assert next[id].economicKey == s[if id in s then id else known].economicKey;
    }
  }

  lemma ReplaceKeepsNames(s: State, v: View, additional: Option<string>)
    requires SelfNamed(s) && AliasesAgree(s)
    requires additional.Some? ==> additional.value !in s && additional.value == v.providerTransactionId
    requires additional.None? ==>
      v.providerTransactionId in s && s[v.providerTransactionId].economicKey == v.economicKey
    ensures SelfNamed(Replaced(s, v, additional))
  {
    var next := Replaced(s, v, additional);
    forall id | id in next
      ensures next[id].providerTransactionId in next && next[next[id].providerTransactionId] == next[id]
    {
      if next[id] != v {
        assert s[s[id].providerTransactionId] == s[id];
      }
    }
  }

  lemma {:induction false} RunKeepsInv(s: State, events: seq<Event>, ctx: Context)
    requires Inv(s, ctx)
    ensures Inv(Final(s, events, ctx), ctx)
  {
    if events != [] {
      RunKeepsInv(s, events[..|events| - 1], ctx);
      StepKeepsInv(Final(s, events[..|events| - 1], ctx), events[|events| - 1], ctx);
    }
  }

  // The action log as a journal over economic keys.

  type Ledger = map<EconomicKey, View>

  ghost function ViewOf(s: State, key: EconomicKey): View
    requires exists id :: id in s && s[id].economicKey == key
  {
    var id :| id in s && s[id].economicKey == key;
    s[id]
  }

  /** The economic-key → view map a state stands for. */
  ghost function Canonical(s: State): Ledger {
    map key | key in (set id | id in s :: s[id].economicKey) :: ViewOf(s, key)
  }

  lemma CanonicalAtId(s: State, id: string)
    requires AliasesAgree(s) && id in s
    ensures s[id].economicKey in Canonical(s) && Canonical(s)[s[id].economicKey] == s[id]
  {
    assert s[id].economicKey in (set x | x in s :: s[x].economicKey);
  }

  lemma CanonicalHas(s: State, key: EconomicKey) returns (id: string)
    requires AliasesAgree(s) && key in Canonical(s)
    ensures id in s && s[id].economicKey == key && Canonical(s)[key] == s[id]
  {
    id :| id in s && s[id].economicKey == key;
    CanonicalAtId(s, id);
  }

  function Recorded(m: Ledger, a: Action): Ledger {
    match a
    case Create(v) => m[v.economicKey := v]
    case Revise(_, _, next) => m[next.economicKey := next]
    case Void(v) => m[v.economicKey := v]
    case Noop(_) => m
  }

  function RecordedAll(m: Ledger, actions: seq<Action>): Ledger {
    if actions == [] then m
    else Recorded(RecordedAll(m, actions[..|actions| - 1]), actions[|actions| - 1])
  }

  /** What each action promises about the ledger it is recorded on. */
  predicate Truthful(m: Ledger, a: Action) {
    match a
    case Create(v) => v.economicKey !in m && v.status != Voided
    case Revise(_, prev, next) =>
      && next.economicKey == prev.economicKey && prev.economicKey in m
      && m[prev.economicKey] == prev && prev != next
      && prev.status != Voided && next.status != Voided
    case Void(v) =>
      && v.economicKey in m && v.status == Voided
      && m[v.economicKey].status != Voided && v == m[v.economicKey].(status := Voided)
    case Noop(_) => true
  }

  predicate AllTruthful(m: Ledger, actions: seq<Action>) {
    actions == [] ||
    (AllTruthful(m, actions[..|actions| - 1])
     && Truthful(RecordedAll(m, actions[..|actions| - 1]), actions[|actions| - 1]))
  }

  // Two states that differ only in the views of one key differ in one ledger entry.
  lemma OneEntryChanged(s: State, next: State, v: View, id: string)
    requires AliasesAgree(s) && AliasesAgree(next)
    requires id in next && next[id] == v
    requires forall x :: x in s ==> x in next && next[x].economicKey == s[x].economicKey
    requires forall x :: x in next && next[x].economicKey != v.economicKey ==> x in s && next[x] == s[x]
    ensures Canonical(next) == Canonical(s)[v.economicKey := v]
  {
    CanonicalAtId(next, id);
    var m := Canonical(s)[v.economicKey := v];
    forall key ensures key in Canonical(next) <==> key in m {
      if key != v.economicKey && key in Canonical(next) {
        var x := CanonicalHas(next, key);
        CanonicalAtId(s, x);
      } else if key != v.economicKey && key in Canonical(s) {
        var x := CanonicalHas(s, key);
        CanonicalAtId(next, x);
      }
    }
    forall key | key in Canonical(next) && key != v.economicKey ensures Canonical(next)[key] == Canonical(s)[key] {
      var x := CanonicalHas(next, key);
      CanonicalAtId(s, x);
    }
  }

  lemma ReplacedLedger(s: State, v: View, known: string, additional: Option<string>)
    requires AliasesAgree(s) && known in s && s[known].economicKey == v.economicKey
    requires additional.Some? ==> additional.value !in s
    ensures Canonical(Replaced(s, v, additional)) == Canonical(s)[v.economicKey := v]
  {
    ReplaceKeepsAgreement(s, v, additional);
    OneEntryChanged(s, Replaced(s, v, additional), v, known);
  }

  lemma CreatedLedger(s: State, v: View, ctx: Context)
    requires Inv(s, ctx) && v.providerTransactionId !in s
    requires v.economicKey == EconomicKeyFor(v.providerTransactionId, ctx)
    ensures v.economicKey !in Canonical(s)
    ensures Canonical(s[v.providerTransactionId := v]) == Canonical(s)[v.economicKey := v]
  {
    CreateKeepsInv(s, v, ctx);
    CreateIsFresh(s, v.providerTransactionId, ctx);
    if v.economicKey in Canonical(s) {
      var id := CanonicalHas(s, v.economicKey);
      assert false;
    }
    OneEntryChanged(s, s[v.providerTransactionId := v], v, v.providerTransactionId);
  }

  ghost predicate IsRecorded(s: State, p: Planned) {
    Truthful(Canonical(s), p.action) && Canonical(p.next) == Recorded(Canonical(s), p.action)
  }

  lemma StepIsRecorded(s: State, e: Event, ctx: Context)
    requires Inv(s, ctx)
    ensures IsRecorded(s, PlanEvent(s, e, ctx))
  {
    match e
    case Added(_, t) => AddedIsRecorded(s, t, ctx);
    case Modified(_, t) => ModifiedIsRecorded(s, t);
    case Removed(_, id) => RemovedIsRecorded(s, id);
  }

  lemma AddedIsRecorded(s: State, t: Transaction, ctx: Context)
    requires Inv(s, ctx)
    ensures IsRecorded(s, PlanAdded(s, t, ctx))
  {
    match PlanAdded(s, t, ctx).action
    case Noop(_) =>
    case Create(v) =>
      CreatedLedger(s, v, ctx);
    case Revise(_, prev, next) =>
      var pending := t.pendingTransactionId.value;
      CanonicalAtId(s, pending);
      ReplacedLedger(s, next, pending, Some(t.providerTransactionId));
      assert prev.status == Pending && next.status == Posted;
  }

  lemma ModifiedIsRecorded(s: State, t: Transaction)
    requires AliasesAgree(s)
    ensures IsRecorded(s, PlanModified(s, t))
  {
    var p := PlanModified(s, t);
    if p.action.Revise? {
      CanonicalAtId(s, t.providerTransactionId);
      ReplacedLedger(s, p.action.next, t.providerTransactionId, None);
    }
  }

  lemma RemovedIsRecorded(s: State, id: string)
    requires AliasesAgree(s)
    ensures IsRecorded(s, PlanRemoved(s, id))
  {
    var p := PlanRemoved(s, id);
    if p.action.Void? {
      CanonicalAtId(s, id);
      ReplacedLedger(s, p.action.view, id, None);
    }
  }

  /**
   * The action log is a complete journal: recording it on the ledger of the start state gives the
   * ledger of the final state, and every action is truthful about the ledger it met.
   */
  lemma {:induction false} LogIsCompleteJournal(s: State, events: seq<Event>, ctx: Context)
    requires Inv(s, ctx)
    ensures var (actions, final) := Run(s, events, ctx);
      AllTruthful(Canonical(s), actions) && RecordedAll(Canonical(s), actions) == Canonical(final)
  {
    if events != [] {
      var init := events[..|events| - 1];
      LogIsCompleteJournal(s, init, ctx);
      RunKeepsInv(s, init, ctx);
      StepIsRecorded(Final(s, init, ctx), events[|events| - 1], ctx);
      var actions := Run(s, events, ctx).0;
      assert actions[..|actions| - 1] == Run(s, init, ctx).0;
    }
  }

  /** Recording the whole log on nothing rebuilds the ledger of any state reached from the empty one. */
  lemma LogRebuildsLedger(events: seq<Event>, ctx: Context)
    ensures var (actions, final) := Run(EMPTY, events, ctx);
      && Inv(final, ctx) && AllTruthful(map[], actions) && RecordedAll(map[], actions) == Canonical(final)
  {
    assert Canonical(EMPTY) == map[];
    RunKeepsInv(EMPTY, events, ctx);
    LogIsCompleteJournal(EMPTY, events, ctx);
  }

  // Conservation of the live total and the live count.

  function LiveAmount(v: View): int {
    if v.status == Voided then 0 else v.amountMinor
  }

  function LiveCount(v: View): int {
    if v.status == Voided then 0 else 1
  }

  ghost function Total(m: Ledger, weight: View -> int): int {
    if m == map[] then 0
    else
      var key :| key in m;
      weight(m[key]) + Total(m - {key}, weight)
  }

  /** What an action adds to a total of live views. */
  function Delta(a: Action, weight: View -> int): int {
    match a
    case Create(v) => weight(v)
    case Revise(_, prev, next) => weight(next) - weight(prev)
    case Void(v) => weight(v) - weight(v.(status := Posted))
    case Noop(_) => 0
  }

  function DeltaSum(actions: seq<Action>, weight: View -> int): int {
    if actions == [] then 0
    else DeltaSum(actions[..|actions| - 1], weight) + Delta(actions[|actions| - 1], weight)
  }

  lemma {:induction false} TotalWithout(m: Ledger, key: EconomicKey, weight: View -> int)
    requires key in m
    ensures Total(m, weight) == weight(m[key]) + Total(m - {key}, weight)
    decreases |m|
  {
    var first :| first in m && Total(m, weight) == weight(m[first]) + Total(m - {first}, weight);
    if first != key {
      assert |m - {first}| < |m| && |m - {key}| < |m|;
      TotalWithout(m - {first}, key, weight);
      TotalWithout(m - {key}, first, weight);
      assert m - {first} - {key} == m - {key} - {first};
    }
  }

  lemma TotalUpdated(m: Ledger, key: EconomicKey, v: View, weight: View -> int)
    ensures Total(m[key := v], weight) == Total(m, weight) + weight(v) - if key in m then weight(m[key]) else 0
  {
    TotalWithout(m[key := v], key, weight);
    if key in m {
      TotalWithout(m, key, weight);
      assert m[key := v] - {key} == m - {key};
    } else {
      assert m[key := v] - {key} == m;
    }
  }

  /** A weight that looks at nothing but whether a view is live and its amount. */
  ghost predicate CountsLive(weight: View -> int) {
    weight == LiveAmount || weight == LiveCount
  }

  lemma {:induction false} TotalsMoveByDeltas(m: Ledger, actions: seq<Action>, weight: View -> int)
    requires AllTruthful(m, actions) && CountsLive(weight)
    ensures Total(RecordedAll(m, actions), weight) == Total(m, weight) + DeltaSum(actions, weight)
  {
    if actions != [] {
      var init, last := actions[..|actions| - 1], actions[|actions| - 1];
      TotalsMoveByDeltas(m, init, weight);
      var before := RecordedAll(m, init);
      match last
      case Noop(_) =>
      case Create(v) => TotalUpdated(before, v.economicKey, v, weight);
      case Revise(_, prev, next) => TotalUpdated(before, next.economicKey, next, weight);
      case Void(v) =>
        TotalUpdated(before, v.economicKey, v, weight);
        assert weight(before[v.economicKey]) == weight(v.(status := Posted));
    }
  }

  /** The sum and the number of live transactions move by exactly what the actions say. */
  lemma LiveTotalsConserved(s: State, events: seq<Event>, ctx: Context)
    requires Inv(s, ctx)
    ensures var (actions, final) := Run(s, events, ctx);
      && Total(Canonical(final), LiveAmount) == Total(Canonical(s), LiveAmount) + DeltaSum(actions, LiveAmount)
      && Total(Canonical(final), LiveCount) == Total(Canonical(s), LiveCount) + DeltaSum(actions, LiveCount)
  {
    LogIsCompleteJournal(s, events, ctx);
    var actions := Run(s, events, ctx).0;
    TotalsMoveByDeltas(Canonical(s), actions, LiveAmount);
    TotalsMoveByDeltas(Canonical(s), actions, LiveCount);
  }

  // The projection handed to readers.

  datatype Projection = Projection(
    economicKey: EconomicKey, accountExternalRef: string, amountMinor: int, status: Status, description: string)

  function Project(v: View): Projection {
    Projection(v.economicKey, v.accountExternalRef, v.amountMinor, v.status, v.description)
  }

  lemma CanonicalOfIds(state: State)
    requires AliasesAgree(state)
    ensures forall key :: key in Canonical(state) <==> exists id :: id in state && state[id].economicKey == key
    ensures forall id :: id in state ==> Canonical(state)[state[id].economicKey] == state[id]
  {
    forall id | id in state
      ensures state[id].economicKey in Canonical(state) && Canonical(state)[state[id].economicKey] == state[id]
    {
      CanonicalAtId(state, id);
    }
  }

  method ProjectCanonicalState(state: State) returns (byEconomicKey: map<EconomicKey, Projection>)
    requires AliasesAgree(state)
    ensures byEconomicKey == map key | key in Canonical(state) :: Project(Canonical(state)[key])
    ensures forall key :: key in byEconomicKey <==> exists id :: id in state && state[id].economicKey == key
    ensures forall id :: id in state ==>
      byEconomicKey[state[id].economicKey] == Projection(state[id].economicKey, state[id].accountExternalRef,
        state[id].amountMinor, state[id].status, state[id].description)
  {
    hide Canonical, Project, AliasesAgree;
    byEconomicKey := map[];
    var todo := state.Keys;
    while todo != {}
      invariant todo <= state.Keys
      invariant forall id :: id in state && id !in todo ==> state[id].economicKey in byEconomicKey
      invariant forall key :: key in byEconomicKey ==>
        key in Canonical(state) && byEconomicKey[key] == Project(Canonical(state)[key])
    {
      var id :| id in todo;
      CanonicalAtId(state, id);
      byEconomicKey := byEconomicKey[state[id].economicKey := Project(state[id])];
      todo := todo - {id};
    }
    forall key | key in Canonical(state) ensures key in byEconomicKey {
      var id := CanonicalHas(state, key);
    }
    ProjectionByIds(state, byEconomicKey);
  }

  lemma ProjectionByIds(state: State, byEconomicKey: map<EconomicKey, Projection>)
    requires AliasesAgree(state)
    requires byEconomicKey == map key | key in Canonical(state) :: Project(Canonical(state)[key])
    ensures forall key :: key in byEconomicKey <==> exists id :: id in state && state[id].economicKey == key
    ensures forall id :: id in state ==>
      byEconomicKey[state[id].economicKey] == Projection(state[id].economicKey, state[id].accountExternalRef,
        state[id].amountMinor, state[id].status, state[id].description)
  {
    CanonicalOfIds(state);
    hide Canonical;
  }

  // What never changes along a stream, and redelivery.

  ghost predicate Frozen(s: State, next: State, id: string) {
    && id in s && id in next && next[id].economicKey == s[id].economicKey
    && (s[id].status == Voided ==> next[id] == s[id])
  }

  lemma ReplaceFreezes(s: State, v: View, known: string, additional: Option<string>, id: string)
    requires AliasesAgree(s) && known in s && s[known].economicKey == v.economicKey && s[known].status != Voided
    requires id in s && (additional.Some? ==> additional.value !in s)
    ensures Frozen(s, Replaced(s, v, additional), id)
  {
    if s[id].economicKey == v.economicKey {
      assert s[id] == s[known];
    }
  }

  lemma StepFreezes(s: State, e: Event, id: string, ctx: Context)
    requires Inv(s, ctx) && id in s
    ensures Frozen(s, PlanEvent(s, e, ctx).next, id)
  {
    hide Replaced, Rooted, SelfNamed;
    var p := PlanEvent(s, e, ctx);
    if p.action.Revise? && e.Added? {
      var t := e.transaction;
      ReplaceFreezes(s, p.action.next, t.pendingTransactionId.value, Some(t.providerTransactionId), id);
    } else if p.action.Revise? {
      ReplaceFreezes(s, p.action.next, e.transaction.providerTransactionId, None, id);
    } else if p.action.Void? {
      ReplaceFreezes(s, p.action.view, e.providerTransactionId, None, id);
    }
  }

  /** Known ids stay known, an id keeps its economic key, and a voided view never changes again. */
  lemma {:induction false} StreamFreezes(s: State, events: seq<Event>, id: string, ctx: Context)
    requires Inv(s, ctx) && id in s
    ensures Frozen(s, Final(s, events, ctx), id)
  {
    if events != [] {
      var init := events[..|events| - 1];
      StreamFreezes(s, init, id, ctx);
      RunKeepsInv(s, init, ctx);
      StepFreezes(Final(s, init, ctx), events[|events| - 1], id, ctx);
    }
  }

  /** Delivering any event twice in a row is delivering it once. */
  lemma TwiceInARow(s: State, e: Event, ctx: Context)
    ensures var once := PlanEvent(s, e, ctx).next;
      PlanEvent(once, e, ctx).next == once && PlanEvent(once, e, ctx).action.Noop?
  {
  }

  /** An add for an id seen before changes nothing, wherever it is delivered again. */
  lemma AddRedelivered(s: State, before: seq<Event>, add: Event, between: seq<Event>, again: Event, after: seq<Event>,
                       ctx: Context)
    requires Inv(s, ctx) && add.Added? && again.Added?
    requires again.transaction.providerTransactionId == add.transaction.providerTransactionId
    ensures Final(s, before + [add] + between + [again] + after, ctx) == Final(s, before + [add] + between + after, ctx)
  {
    var id := add.transaction.providerTransactionId;
    var prefix := before + [add];
    RunLast(s, before, add, ctx);
    RunKeepsInv(s, prefix, ctx);
    StreamFreezes(Final(s, prefix, ctx), between, id, ctx);
    RunSplits(s, prefix, between, ctx);
    RunLast(s, prefix + between, again, ctx);
    RunSplits(s, prefix + between + [again], after, ctx);
    RunSplits(s, prefix + between, after, ctx);
  }

  lemma RemovalIsNoop(s: State, e: Event, ctx: Context)
    requires e.Removed?
    ensures PlanEvent(s, e, ctx).next == s <==>
      e.providerTransactionId !in s || s[e.providerTransactionId].status == Voided
  {
    var id := e.providerTransactionId;
    if id in s && s[id].status != Voided {
      assert PlanEvent(s, e, ctx).next[id].status == Voided;
    }
  }

  predicate AddsId(events: seq<Event>, id: string) {
    exists i :: 0 <= i < |events| && events[i].Added? && TargetOf(events[i]) == id
  }

  /** An unknown id becomes known exactly by an add for it. */
  lemma {:induction false} KnownByAdds(s: State, events: seq<Event>, id: string, ctx: Context)
    requires id !in s
    ensures id in Final(s, events, ctx) <==> AddsId(events, id)
  {
    if events != [] {
      var init, last := events[..|events| - 1], events[|events| - 1];
      KnownByAdds(s, init, id, ctx);
      assert forall i :: 0 <= i < |init| ==> init[i] == events[i];
    }
  }

  /** No add for the id came since, or it is voided by now. */
  predicate SafeToReplay(s: State, before: seq<Event>, r: Event, between: seq<Event>, ctx: Context) {
    || !AddsId(between, TargetOf(r))
    || var now := Final(s, before + [r] + between, ctx); TargetOf(r) in now && now[TargetOf(r)].status == Voided
  }

  lemma RemovedOnce(s: State, r: Event, ctx: Context)
    requires r.Removed?
    ensures var next := PlanEvent(s, r, ctx).next;
      if TargetOf(r) in s then TargetOf(r) in next && next[TargetOf(r)].status == Voided else next == s
  {
  }

  lemma AfterRemoval(s: State, before: seq<Event>, r: Event, between: seq<Event>, ctx: Context)
    requires Inv(s, ctx) && r.Removed?
    ensures var now := Final(s, before + [r] + between, ctx);
      (TargetOf(r) !in now || now[TargetOf(r)].status == Voided) <==> SafeToReplay(s, before, r, between, ctx)
  {
    hide PlanEvent, Inv, AddsId;
    var id := TargetOf(r);
    RunLast(s, before, r, ctx);
    RemovedOnce(Final(s, before, ctx), r, ctx);
    RunSplits(s, before + [r], between, ctx);
    RunKeepsInv(s, before, ctx);
    RunKeepsInv(s, before + [r], ctx);
    var known := Final(s, before, ctx);
    if id in known {
      StreamFreezes(Final(s, before + [r], ctx), between, id, ctx);
    } else {
      KnownByAdds(Final(s, before + [r], ctx), between, id, ctx);
    }
  }

  /**
   * A removal, unlike an add, is not always safe to deliver again later: the copy changes nothing exactly
   * when its id has not been added since, or is voided by then. After a safe copy
   * the stream goes on as if it had not come.
   */
  lemma RemovalRedelivered(s: State, before: seq<Event>, r: Event, between: seq<Event>, again: Event, after: seq<Event>,
                           ctx: Context)
    requires Inv(s, ctx) && r.Removed? && again.Removed? && TargetOf(again) == TargetOf(r)
    ensures Final(s, before + [r] + between + [again], ctx) == Final(s, before + [r] + between, ctx)
      <==> SafeToReplay(s, before, r, between, ctx)
    ensures SafeToReplay(s, before, r, between, ctx) ==>
      Final(s, before + [r] + between + [again] + after, ctx) == Final(s, before + [r] + between + after, ctx)
  {
    var prefix := before + [r] + between;
    AfterRemoval(s, before, r, between, ctx);
    RemovalIsNoop(Final(s, prefix, ctx), again, ctx);
    RunLast(s, prefix, again, ctx);
    RunSplits(s, prefix + [again], after, ctx);
    RunSplits(s, prefix, after, ctx);
  }

  /** An instance, from any state: an id removed while unknown, then added, is voided by the copy of the removal. */
  lemma ReplayVoidsTheAdd(s: State, r: Event, add: Event, ctx: Context)
    requires Inv(s, ctx) && r.Removed? && add.Added? && TargetOf(add) == TargetOf(r) && TargetOf(r) !in s
    ensures var once, twice := Final(s, [] + [r] + [add], ctx), Final(s, [] + [r] + [add] + [r], ctx);
      && TargetOf(r) in once && once[TargetOf(r)].status != Voided
      && TargetOf(r) in twice && twice[TargetOf(r)].status == Voided
  {
    RunLast(s, [], r, ctx);
    RunLast(s, [] + [r], add, ctx);
    RunLast(s, [] + [r] + [add], r, ctx);
    assert Final(s, [], ctx) == s;
  }

  // What an event does to the transaction it names, told field by field.

  /** The view carries what the bank delivered; its key and status are not the bank's to say. */
  predicate Carried(v: View, t: Transaction) {
    && v.providerTransactionId == t.providerTransactionId && v.accountExternalRef == t.accountExternalRef
    && v.amountMinor == t.amountMinor && v.description == t.description && v.effectiveDate == t.date
  }

  predicate CarriedAs(v: View, t: Transaction) {
    Carried(v, t) && (if t.pending then v.status == Pending else v.status == Posted)
  }

  /** The add names a pending transaction. */
  predicate NamesPending(s: State, t: Transaction) {
    match t.pendingTransactionId
    case Some(p) => p in s && s[p].status == Pending
    case None => false
  }

  /** A change is accepted for a live view that shows under its own id. */
  predicate Accepts(s: State, t: Transaction) {
    var id := t.providerTransactionId;
    id in s && s[id].status != Voided && s[id].providerTransactionId == id
  }

  /** The id shows a view of the key, all its aliases show the same, and nothing else changes. */
  ghost predicate OnlyShows(s: State, next: State, id: string, key: EconomicKey) {
    && next.Keys == s.Keys + {id} && next[id].economicKey == key
    && (forall x :: x in s && s[x].economicKey == key ==> next[x] == next[id])
    && (forall x :: x in s && s[x].economicKey != key && x != id ==> next[x] == s[x])
  }

  ghost predicate AddTakesEffect(s: State, t: Transaction, planned: Planned, ctx: Context) {
    var id, next := t.providerTransactionId, planned.next;
    if id in s then next == s && planned.action == Noop(if CarriedAs(s[id], t) then Duplicate else AlreadyApplied)
    else if NamesPending(s, t) then
      var prev := s[t.pendingTransactionId.value];
      && OnlyShows(s, next, id, prev.economicKey) && Carried(next[id], t) && next[id].status == Posted
      && planned.action == Revise(Supersession, prev, next[id])
    else
      && OnlyShows(s, next, id, EconomicKey(ctx.provider, ctx.connectionExternalRef, id))
      && CarriedAs(next[id], t) && planned.action == Create(next[id])
  }

  ghost predicate ChangeTakesEffect(s: State, t: Transaction, planned: Planned) {
    var id, next := t.providerTransactionId, planned.next;
    if !Accepts(s, t) then next == s && planned.action == Noop(if id in s then AlreadyApplied else UnknownTarget)
    else
      && OnlyShows(s, next, id, s[id].economicKey) && CarriedAs(next[id], t)
      && planned.action == if CarriedAs(s[id], t) then Noop(Duplicate) else Revise(ProviderModified, s[id], next[id])
  }

  ghost predicate RemovalTakesEffect(s: State, id: string, planned: Planned) {
    var next := planned.next;
    if id !in s then next == s && planned.action == Noop(UnknownTarget)
    else
      && OnlyShows(s, next, id, s[id].economicKey) && next[id].status == Voided
      && next[id].providerTransactionId == s[id].providerTransactionId
      && next[id].accountExternalRef == s[id].accountExternalRef && next[id].amountMinor == s[id].amountMinor
      && next[id].description == s[id].description && next[id].effectiveDate == s[id].effectiveDate
      && planned.action == if s[id].status == Voided then Noop(AlreadyApplied) else Void(next[id])
  }

  /**
   * An event that is not stale shows in the view of its id, and of every alias of it: an add or a change
   * as delivered, a removal by the status alone; nothing else moves. A change may take a posted view back to
   * pending.
   */
  lemma EventTakesEffect(s: State, e: Event, ctx: Context)
    requires Inv(s, ctx)
    ensures var planned := PlanEvent(s, e, ctx);
      match e
      case Added(_, t) => AddTakesEffect(s, t, planned, ctx)
      case Modified(_, t) => ChangeTakesEffect(s, t, planned)
      case Removed(_, id) => RemovalTakesEffect(s, id, planned)
  {
    match e
    case Added(_, t) => AddEffect(s, t, ctx);
    case Modified(_, t) => ChangeEffect(s, t, ctx);
    case Removed(_, id) => RemovalEffect(s, id, ctx);
  }

  lemma AddEffect(s: State, t: Transaction, ctx: Context)
    requires Inv(s, ctx)
    ensures AddTakesEffect(s, t, PlanAdded(s, t, ctx), ctx)
  {
    hide SelfNamed, Rooted, AliasesAgree, OnlyShows, Replaced;
    var id := t.providerTransactionId;
    if id !in s {
      if NamesPending(s, t) {
        var key := s[t.pendingTransactionId.value].economicKey;
        TakenOver(s, id, ViewFrom(t, key, Posted));
      } else {
        Created(s, id, ViewFrom(t, EconomicKeyFor(id, ctx), DeliveredStatus(t)), ctx);
      }
    }
  }

  lemma TakenOver(s: State, id: string, view: View)
    requires id !in s
    ensures OnlyShows(s, Replaced(s, view, Some(id)), id, view.economicKey)
    ensures Replaced(s, view, Some(id))[id] == view
  {
  }

  lemma Created(s: State, id: string, view: View, ctx: Context)
    requires Inv(s, ctx) && id !in s && view.economicKey == EconomicKeyFor(id, ctx)
    ensures OnlyShows(s, s[id := view], id, view.economicKey)
  {
    CreateIsFresh(s, id, ctx);
    hide Inv;
  }

  lemma ChangeEffect(s: State, t: Transaction, ctx: Context)
    requires Inv(s, ctx)
    ensures ChangeTakesEffect(s, t, PlanModified(s, t))
  {
    hide SelfNamed, Rooted;
    assert t.providerTransactionId in s ==> s.Keys + {t.providerTransactionId} == s.Keys;
  }

  lemma RemovalEffect(s: State, id: string, ctx: Context)
    requires Inv(s, ctx)
    ensures RemovalTakesEffect(s, id, PlanRemoved(s, id))
  {
    hide SelfNamed, Rooted;
    assert id in s ==> s.Keys + {id} == s.Keys;
  }

  /** What the live total gains from an event, read off the delivery. */
  function AmountGained(s: State, e: Event): int {
    match e
    case Added(_, t) =>
      if t.providerTransactionId in s then 0
      else if NamesPending(s, t) then t.amountMinor - s[t.pendingTransactionId.value].amountMinor
      else t.amountMinor
    case Modified(_, t) => if Accepts(s, t) then t.amountMinor - s[t.providerTransactionId].amountMinor else 0
    case Removed(_, id) => if id in s && s[id].status != Voided then -s[id].amountMinor else 0
  }

  /** How many more transactions are live after an event. */
  function TransactionsGained(s: State, e: Event): int {
    match e
    case Added(_, t) => if t.providerTransactionId in s || NamesPending(s, t) then 0 else 1
    case Modified(_, t) => 0
    case Removed(_, id) => if id in s && s[id].status != Voided then -1 else 0
  }

  /**
   * The live total moves by what the bank delivered: by the amount of a first add, by the difference when an
   * add takes over or a change is accepted, and back by the amount of what is removed.
   */
  lemma TotalsFollowDeliveries(s: State, e: Event, ctx: Context)
    requires Inv(s, ctx)
    ensures var next := PlanEvent(s, e, ctx).next;
      && Total(Canonical(next), LiveAmount) == Total(Canonical(s), LiveAmount) + AmountGained(s, e)
      && Total(Canonical(next), LiveCount) == Total(Canonical(s), LiveCount) + TransactionsGained(s, e)
  {
    hide PlanEvent, Inv, Canonical, Delta, AmountGained, TransactionsGained, LiveAmount, LiveCount;
    StepTotals(s, e, ctx, LiveAmount);
    StepTotals(s, e, ctx, LiveCount);
    DeltaIsGained(s, e, ctx);
  }

  lemma StepTotals(s: State, e: Event, ctx: Context, weight: View -> int)
    requires Inv(s, ctx) && CountsLive(weight)
    ensures var planned := PlanEvent(s, e, ctx);
      Total(Canonical(planned.next), weight) == Total(Canonical(s), weight) + Delta(planned.action, weight)
  {
    hide PlanEvent, Inv, Canonical;
    StepIsRecorded(s, e, ctx);
    var a, m := PlanEvent(s, e, ctx).action, Canonical(s);
    assert [a][..0] == [] && RecordedAll(m, []) == m && AllTruthful(m, []);
    assert AllTruthful(m, [a]) && RecordedAll(m, [a]) == Recorded(m, a);
    TotalsMoveByDeltas(m, [a], weight);
  }

  lemma DeltaIsGained(s: State, e: Event, ctx: Context)
    requires Inv(s, ctx)
    ensures Delta(PlanEvent(s, e, ctx).action, LiveAmount) == AmountGained(s, e)
    ensures Delta(PlanEvent(s, e, ctx).action, LiveCount) == TransactionsGained(s, e)
  {
    hide PlanEvent, Inv, OnlyShows, Delta, AddTakesEffect, ChangeTakesEffect, RemovalTakesEffect, AmountGained,
      TransactionsGained;
    EventTakesEffect(s, e, ctx);
    var planned := PlanEvent(s, e, ctx);
    match e
    case Added(_, t) => AddGains(s, e, planned, ctx);
    case Modified(_, t) => ChangeGains(s, e, planned);
    case Removed(_, id) => RemovalGains(s, e, planned);
  }

  lemma AddGains(s: State, e: Event, planned: Planned, ctx: Context)
    requires e.Added? && AddTakesEffect(s, e.transaction, planned, ctx)
    ensures Delta(planned.action, LiveAmount) == AmountGained(s, e)
    ensures Delta(planned.action, LiveCount) == TransactionsGained(s, e)
  {
    hide OnlyShows;
  }

  lemma ChangeGains(s: State, e: Event, planned: Planned)
    requires e.Modified? && ChangeTakesEffect(s, e.transaction, planned)
    ensures Delta(planned.action, LiveAmount) == AmountGained(s, e)
    ensures Delta(planned.action, LiveCount) == TransactionsGained(s, e)
  {
    hide OnlyShows;
  }

  lemma RemovalGains(s: State, e: Event, planned: Planned)
    requires e.Removed? && RemovalTakesEffect(s, e.providerTransactionId, planned)
    ensures Delta(planned.action, LiveAmount) == AmountGained(s, e)
    ensures Delta(planned.action, LiveCount) == TransactionsGained(s, e)
  {
    hide OnlyShows;
  }

  function GainedAlong(s: State, events: seq<Event>, ctx: Context): (int, int) {
    if events == [] then (0, 0)
    else
      var init, last := events[..|events| - 1], events[|events| - 1];
      var before, now := GainedAlong(s, init, ctx), Final(s, init, ctx);
      (before.0 + AmountGained(now, last), before.1 + TransactionsGained(now, last))
  }

  /** Along any run the live total and the live count are what the deliveries add up to. */
  lemma {:induction false} RunFollowsDeliveries(s: State, events: seq<Event>, ctx: Context)
    requires Inv(s, ctx)
    ensures var final := Final(s, events, ctx);
      && Total(Canonical(final), LiveAmount) == Total(Canonical(s), LiveAmount) + GainedAlong(s, events, ctx).0
      && Total(Canonical(final), LiveCount) == Total(Canonical(s), LiveCount) + GainedAlong(s, events, ctx).1
  {
    hide PlanEvent, Inv, Canonical, AmountGained, TransactionsGained;
    if events != [] {
      var init, last := events[..|events| - 1], events[|events| - 1];
      RunFollowsDeliveries(s, init, ctx);
      RunKeepsInv(s, init, ctx);
      TotalsFollowDeliveries(Final(s, init, ctx), last, ctx);
    }
  }
}

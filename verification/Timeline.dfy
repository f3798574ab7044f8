/** The status of a recurring series over its timeline of status events. */
module Timeline {
  import opened Wrappers
  import opened Sorting
  import opened CivilDate

  datatype Status = Suggested | Confirmed | Paused | Cancelled | Rejected

  datatype Transition = ToSuggested | ToConfirmed | ToPaused | Resumed | ToCancelled | ToRejected

  // createdAt and commandId only break ties: each stands for its rank in the collation order.
  datatype StatusEvent = StatusEvent(transition: Transition, effectiveDate: Civil, createdAt: int, commandId: int)

  predicate EventOrder(a: StatusEvent, b: StatusEvent) {
    || Before(a.effectiveDate, b.effectiveDate)
    || (a.effectiveDate == b.effectiveDate
        && (a.createdAt < b.createdAt || (a.createdAt == b.createdAt && a.commandId <= b.commandId)))
  }

  function Moved(status: Status, transition: Transition): Status {
    match transition
    case ToSuggested => status
    case ToConfirmed => if status in {Suggested, Rejected, Cancelled} then Confirmed else status
    case ToPaused => if status == Confirmed then Paused else status
    case Resumed => if status == Paused then Confirmed else status
    case ToCancelled => if status in {Confirmed, Paused} then Cancelled else status
    case ToRejected => if status == Suggested then Rejected else status
  }

  function MovedThrough(events: seq<StatusEvent>): Status {
    if events == [] then Suggested
    else Moved(MovedThrough(events[..|events| - 1]), events[|events| - 1].transition)
  }

  predicate InEffect(e: StatusEvent, date: Civil) {
    AtMost(e.effectiveDate, date)
  }

  function EventsInEffect(events: seq<StatusEvent>, date: Civil): seq<StatusEvent> {
    if events == [] then []
    else
      var last := events[|events| - 1];
      EventsInEffect(events[..|events| - 1], date) + if InEffect(last, date) then [last] else []
  }

  predicate ValidDates(events: seq<StatusEvent>) {
    forall e :: e in events ==> FourDigits(e.effectiveDate)
  }

  /** The status a day has: every event in effect by then, in timeline order. */
  function StatusOn(events: seq<StatusEvent>, date: Civil): Status {
    MovedThrough(EventsInEffect(Sort(events, EventOrder), date))
  }

  lemma TimelineOrderIsTotal()
    ensures TotalPreorder(EventOrder)
  {
  }

  method StatusOnDate(events: seq<StatusEvent>, date: Civil) returns (r: Result<Status, DateError>)
    ensures r == if FourDigits(date) && ValidDates(events) then Ok(StatusOn(events, date)) else Err(InvalidDate)
    ensures r.Ok? ==> HasStatus(events, date, r.value)
  {
    if !FourDigits(date) || !ValidDates(events) {
      return Err(InvalidDate);
    }
    SortedTimeline(events);
    StatusByHistory(events, date);
    var status := StatusAlong(Sort(events, EventOrder), date);
    return Ok(status);
  }

  lemma SortedTimeline(events: seq<StatusEvent>)
    ensures SortedBy(Sort(events, EventOrder), EventOrder)
  {
    TimelineOrderIsTotal();
    SortSorts(events, EventOrder);
  }

  method StatusAlong(ordered: seq<StatusEvent>, date: Civil) returns (status: Status)
    requires SortedBy(ordered, EventOrder)
    ensures status == MovedThrough(EventsInEffect(ordered, date))
  {
    status := Suggested;
    for i := 0 to |ordered|
      invariant status == MovedThrough(EventsInEffect(ordered[..i], date))
    {
      if Before(date, ordered[i].effectiveDate) {
        NothingLater(ordered, i, date);
        return;
      }
      NextInEffect(ordered, i, date);
      status := Moved(status, ordered[i].transition);
    }
    assert ordered[..|ordered|] == ordered;
  }

  lemma NextInEffect(ordered: seq<StatusEvent>, i: nat, date: Civil)
    requires i < |ordered| && !Before(date, ordered[i].effectiveDate)
    ensures MovedThrough(EventsInEffect(ordered[..i + 1], date)) ==
      Moved(MovedThrough(EventsInEffect(ordered[..i], date)), ordered[i].transition)
  {
    assert ordered[..i + 1][..i] == ordered[..i];
    var before := EventsInEffect(ordered[..i], date);
    assert (before + [ordered[i]])[..|before|] == before;
  }

  // Once one event of a sorted timeline is too late, the rest are.
  lemma {:induction false} NothingLater(ordered: seq<StatusEvent>, i: nat, date: Civil)
    requires SortedBy(ordered, EventOrder) && i < |ordered| && Before(date, ordered[i].effectiveDate)
    ensures EventsInEffect(ordered, date) == EventsInEffect(ordered[..i], date)
    decreases |ordered|
  {
    var init := ordered[..|ordered| - 1];
    assert i < |ordered| - 1 ==> EventOrder(ordered[i], ordered[|ordered| - 1]);
    if i < |ordered| - 1 {
      NothingLater(init, i, date);
      assert init[..i] == ordered[..i];
    }
  }

  ghost predicate DistinctSortKeys(events: seq<StatusEvent>) {
    Separates(EventOrder, events)
  }

  lemma {:induction false} InEffectKeeps(events: seq<StatusEvent>, date: Civil)
    ensures forall e ::
      multiset(EventsInEffect(events, date))[e] == if InEffect(e, date) then multiset(events)[e] else 0
    ensures forall e :: e in EventsInEffect(events, date) ==> e in events
  {
    hide EventOrder, InEffect;
    if events != [] {
      InEffectKeeps(events[..|events| - 1], date);
      assert events == events[..|events| - 1] + [events[|events| - 1]];
    }
  }

  lemma {:induction false} InEffectSorted(events: seq<StatusEvent>, date: Civil)
    requires SortedBy(events, EventOrder)
    ensures SortedBy(EventsInEffect(events, date), EventOrder)
  {
    hide EventOrder, InEffect;
    if events != [] {
      var init, last := events[..|events| - 1], events[|events| - 1];
      var before := EventsInEffect(init, date);
      InEffectSorted(init, date);
      InEffectKeeps(init, date);
      forall i | 0 <= i < |before| ensures EventOrder(before[i], last) {
        assert before[i] in before;
      }
    }
  }

  lemma InEffectOfSorted(events: seq<StatusEvent>, date: Civil)
    ensures var s := EventsInEffect(Sort(events, EventOrder), date);
      && multiset(s) == multiset(EventsInEffect(events, date))
      && SortedBy(s, EventOrder)
      && forall e :: e in s ==> e in events
  {
    SortedTimeline(events);
    SortKeeps(events, EventOrder);
    SameElements(events, EventOrder);
    InEffectKeeps(events, date);
    InEffectKeeps(Sort(events, EventOrder), date);
    InEffectSorted(Sort(events, EventOrder), date);
  }

  /**
   * Only the events in effect by a date decide its status: neither the order of the list nor any
   * event effective later makes a difference.
   */
  lemma OnlyEventsInEffectMatter(a: seq<StatusEvent>, b: seq<StatusEvent>, date: Civil)
    requires DistinctSortKeys(a)
    requires multiset(EventsInEffect(a, date)) == multiset(EventsInEffect(b, date))
    ensures StatusOn(a, date) == StatusOn(b, date)
  {
    TimelineOrderIsTotal();
    InEffectOfSorted(a, date);
    InEffectOfSorted(b, date);
    SortedUnique(EventsInEffect(Sort(a, EventOrder), date), EventsInEffect(Sort(b, EventOrder), date), EventOrder);
  }

  // What the status means, told from the events alone.

  /** The transition takes place by the date. */
  predicate Happens(events: seq<StatusEvent>, date: Civil, i: int, transition: Transition) {
    0 <= i < |events| && !Before(date, events[i].effectiveDate) && events[i].transition == transition
  }

  /** One event comes after another: by date, then creation, then command, then place in the list. */
  predicate Follows(events: seq<StatusEvent>, i: int, j: int)
    requires 0 <= i < |events| && 0 <= j < |events|
  {
    var a, b := events[i], events[j];
    || Before(a.effectiveDate, b.effectiveDate)
    || (a.effectiveDate == b.effectiveDate && a.createdAt < b.createdAt)
    || (a.effectiveDate == b.effectiveDate && a.createdAt == b.createdAt && a.commandId < b.commandId)
    || (a.effectiveDate == b.effectiveDate && a.createdAt == b.createdAt && a.commandId == b.commandId && i < j)
  }

  ghost predicate EverHappens(events: seq<StatusEvent>, date: Civil, transition: Transition) {
    exists i :: Happens(events, date, i, transition)
  }

  /** No such transition takes place after the event. */
  ghost predicate NoneAfter(events: seq<StatusEvent>, date: Civil, i: int, transition: Transition)
    requires 0 <= i < |events|
  {
    forall j :: Happens(events, date, j, transition) ==> !Follows(events, i, j)
  }

  /** A confirmation that no cancellation follows. */
  ghost predicate Stands(events: seq<StatusEvent>, date: Civil, i: int) {
    Happens(events, date, i, ToConfirmed) && NoneAfter(events, date, i, ToCancelled)
  }

  ghost predicate Standing(events: seq<StatusEvent>, date: Civil) {
    exists i :: Stands(events, date, i)
  }

  /** A pause after a standing confirmation, and no resumption after the pause. */
  ghost predicate OnHold(events: seq<StatusEvent>, date: Civil, i: int, j: int) {
    && Stands(events, date, i) && Happens(events, date, j, ToPaused)
    && Follows(events, i, j) && NoneAfter(events, date, j, Resumed)
  }

  ghost predicate Held(events: seq<StatusEvent>, date: Civil) {
    exists i, j :: OnHold(events, date, i, j)
  }

  /**
   * What the events by a date make of a series: standing ones are paused or confirmed, fallen ones cancelled,
   * and before the first confirmation one rejection rejects.
   */
  ghost predicate HasStatus(events: seq<StatusEvent>, date: Civil, status: Status) {
    match status
    case Confirmed => Standing(events, date) && !Held(events, date)
    case Paused => Held(events, date)
    case Cancelled => EverHappens(events, date, ToConfirmed) && !Standing(events, date)
    case Rejected => !EverHappens(events, date, ToConfirmed) && EverHappens(events, date, ToRejected)
    case Suggested => !EverHappens(events, date, ToConfirmed) && !EverHappens(events, date, ToRejected)
  }

  lemma StatusIsDetermined(events: seq<StatusEvent>, date: Civil, a: Status, b: Status)
    requires HasStatus(events, date, a) && HasStatus(events, date, b)
    ensures a == b
  {
    hide Happens, NoneAfter, Follows;
    HoldImpliesStanding(events, date);
  }

  lemma HoldImpliesStanding(events: seq<StatusEvent>, date: Civil)
    ensures Held(events, date) ==> Standing(events, date)
    ensures Standing(events, date) ==> EverHappens(events, date, ToConfirmed)
  {
    hide Happens, NoneAfter, Follows;
  }

  /** The status of a date is the one its history tells, in whatever order the events are listed. */
  lemma StatusByHistory(events: seq<StatusEvent>, date: Civil)
    ensures HasStatus(events, date, StatusOn(events, date))
  {
    hide HasStatus, EventOrder, Follows;
    var ordered := Sort(events, EventOrder);
    SortedTimeline(events);
    HistoryInOrder(ordered, date);
    TimelineOrderIsTotal();
    var place := SortIsStable(events, EventOrder);
    SameHistory(events, ordered, place, date);
  }

  lemma HistoryDecides(events: seq<StatusEvent>, date: Civil, status: Status)
    ensures StatusOn(events, date) == status <==> HasStatus(events, date, status)
  {
    hide StatusOn, HasStatus;
    StatusByHistory(events, date);
    if HasStatus(events, date, status) {
      StatusIsDetermined(events, date, StatusOn(events, date), status);
    }
  }

  lemma SortedFollows(ordered: seq<StatusEvent>)
    requires SortedBy(ordered, EventOrder)
    ensures forall i, j :: 0 <= i < |ordered| && 0 <= j < |ordered| ==> (Follows(ordered, i, j) <==> i < j)
  {
    forall i, j | 0 <= i < |ordered| && 0 <= j < |ordered| ensures Follows(ordered, i, j) <==> i < j {
      if i < j {
        assert EventOrder(ordered[i], ordered[j]);
      } else if j < i {
        assert EventOrder(ordered[j], ordered[i]);
      }
    }
  }

  lemma {:induction false} HistoryInOrder(ordered: seq<StatusEvent>, date: Civil)
    requires SortedBy(ordered, EventOrder)
    ensures HasStatus(ordered, date, MovedThrough(EventsInEffect(ordered, date)))
  {
    hide EventOrder, Follows, HasStatus, Happens, NoneAfter, Moved;
    if ordered != [] {
      var n := |ordered| - 1;
      var init := ordered[..n];
      var before := MovedThrough(EventsInEffect(init, date));
      HistoryInOrder(init, date);
      SortedFollows(ordered);
      SortedFollows(init);
      OneMore(ordered, init, date, before);
      LastInEffect(ordered, date);
    } else {
      NoHistory(date);
    }
  }

  lemma LastInEffect(ordered: seq<StatusEvent>, date: Civil)
    requires ordered != []
    ensures var init, last := ordered[..|ordered| - 1], ordered[|ordered| - 1];
      var before := MovedThrough(EventsInEffect(init, date));
      MovedThrough(EventsInEffect(ordered, date)) ==
        if InEffect(last, date) then Moved(before, last.transition) else before
  {
    var before := EventsInEffect(ordered[..|ordered| - 1], date);
    assert (before + [ordered[|ordered| - 1]])[..|before|] == before && before + [] == before;
  }

  lemma NoHistory(date: Civil)
    ensures HasStatus([], date, Suggested)
  {
  }

  /** The same positions in the same order, and nothing more happens than the last event if it is in effect. */
  ghost predicate Extends(ordered: seq<StatusEvent>, init: seq<StatusEvent>) {
    && |ordered| == |init| + 1 && init == ordered[..|init|]
    && (forall i, j :: 0 <= i < |ordered| && 0 <= j < |ordered| ==> (Follows(ordered, i, j) <==> i < j))
    && (forall i, j :: 0 <= i < |init| && 0 <= j < |init| ==> (Follows(init, i, j) <==> i < j))
  }

  lemma OneMore(ordered: seq<StatusEvent>, init: seq<StatusEvent>, date: Civil, status: Status)
    requires Extends(ordered, init) && HasStatus(init, date, status)
    ensures var last := ordered[|init|];
      HasStatus(ordered, date, if InEffect(last, date) then Moved(status, last.transition) else status)
  {
    hide Happens, Extends, Standing, Held, EverHappens;
    HoldImpliesStanding(init, date);
    EverMore(ordered, init, date);
    StandingMore(ordered, init, date);
    HeldMore(ordered, init, date);
  }

  lemma HappensMore(ordered: seq<StatusEvent>, init: seq<StatusEvent>, date: Civil)
    requires Extends(ordered, init)
    ensures var n, last := |init|, ordered[|init|];
      forall i, t :: Happens(ordered, date, i, t) <==>
        Happens(init, date, i, t) || (i == n && InEffect(last, date) && last.transition == t)
    ensures forall i, t :: Happens(init, date, i, t) ==> 0 <= i < |init|
  {
    hide Follows;
  }

  lemma EverMore(ordered: seq<StatusEvent>, init: seq<StatusEvent>, date: Civil)
    requires Extends(ordered, init)
    ensures var last := ordered[|init|];
      forall t :: EverHappens(ordered, date, t) <==>
        EverHappens(init, date, t) || (InEffect(last, date) && last.transition == t)
  {
    hide Happens, Follows;
    HappensMore(ordered, init, date);
    forall t | InEffect(ordered[|init|], date) && ordered[|init|].transition == t
      ensures EverHappens(ordered, date, t)
    {
      assert Happens(ordered, date, |init|, t);
    }
  }

  lemma StandsMore(ordered: seq<StatusEvent>, init: seq<StatusEvent>, date: Civil)
    requires Extends(ordered, init)
    ensures var n, last := |init|, ordered[|init|];
      forall i :: Stands(ordered, date, i) <==>
        || (Stands(init, date, i) && !(InEffect(last, date) && last.transition == ToCancelled))
        || (i == n && InEffect(last, date) && last.transition == ToConfirmed)
  {
    hide Follows;
    HappensMore(ordered, init, date);
    NoneAfterMore(ordered, init, date);
  }

  lemma NoneAfterMore(ordered: seq<StatusEvent>, init: seq<StatusEvent>, date: Civil)
    requires Extends(ordered, init)
    ensures var n, last := |init|, ordered[|init|];
      && (forall i, t :: 0 <= i < n ==>
           (NoneAfter(ordered, date, i, t) <==>
             NoneAfter(init, date, i, t) && !(InEffect(last, date) && last.transition == t)))
      && (forall t :: NoneAfter(ordered, date, n, t))
  {
    hide Follows, Happens;
    var n, last := |init|, ordered[|init|];
    HappensMore(ordered, init, date);
    forall i, t | 0 <= i < n
      ensures NoneAfter(ordered, date, i, t) <==>
        NoneAfter(init, date, i, t) && !(InEffect(last, date) && last.transition == t)
    {
      assert Happens(ordered, date, n, t) <==> InEffect(last, date) && last.transition == t;
    }
  }

  lemma StandingMore(ordered: seq<StatusEvent>, init: seq<StatusEvent>, date: Civil)
    requires Extends(ordered, init)
    ensures var last := ordered[|init|];
      Standing(ordered, date) <==>
        || (Standing(init, date) && !(InEffect(last, date) && last.transition == ToCancelled))
        || (InEffect(last, date) && last.transition == ToConfirmed)
  {
    hide Stands, Extends, InEffect;
    StandsMore(ordered, init, date);
    assert Stands(ordered, date, |init|) ==> Standing(ordered, date);
  }

  lemma HeldMore(ordered: seq<StatusEvent>, init: seq<StatusEvent>, date: Civil)
    requires Extends(ordered, init)
    ensures var last := ordered[|init|];
      Held(ordered, date) <==>
        || (Held(init, date) && !(InEffect(last, date) && last.transition in {ToCancelled, Resumed}))
        || (Standing(init, date) && InEffect(last, date) && last.transition == ToPaused)
  {
    hide Stands, Happens, NoneAfter, InEffect;
    var n, last := |init|, ordered[|init|];
    StandsMore(ordered, init, date);
    HappensMore(ordered, init, date);
    NoneAfterMore(ordered, init, date);
    assert forall i :: Stands(init, date, i) ==> 0 <= i < n by {
      StandsInside(init, date);
    }
    forall i, j ensures OnHold(ordered, date, i, j) <==>
      || (OnHold(init, date, i, j) && !(InEffect(last, date) && last.transition in {ToCancelled, Resumed}))
      || (Stands(init, date, i) && j == n && InEffect(last, date) && last.transition == ToPaused)
    {
    }
    if Standing(init, date) && InEffect(last, date) && last.transition == ToPaused {
      var i :| Stands(init, date, i);
      assert OnHold(ordered, date, i, n);
    }
  }

  lemma StandsInside(events: seq<StatusEvent>, date: Civil)
    ensures forall i :: Stands(events, date, i) ==> 0 <= i < |events|
  {
  }

  // The sorted timeline tells the same history as the list it was sorted from.

  /** Each event happens at its place, and follows another exactly when its place comes later. */
  ghost predicate Arranged(events: seq<StatusEvent>, ordered: seq<StatusEvent>, place: seq<int>, date: Civil) {
    && |place| == |events| == |ordered|
    && (forall i :: 0 <= i < |place| ==> 0 <= place[i] < |ordered|)
    && (forall k :: 0 <= k < |ordered| ==> k in place)
    && (forall i, t :: 0 <= i < |place| ==> (Happens(events, date, i, t) <==> Happens(ordered, date, place[i], t)))
    && (forall i, j :: 0 <= i < |place| && 0 <= j < |place| ==>
         (Follows(events, i, j) <==> Follows(ordered, place[i], place[j])))
  }

  lemma SortArranges(events: seq<StatusEvent>, ordered: seq<StatusEvent>, place: seq<int>, date: Civil)
    requires StablePlaces(events, EventOrder, ordered, place) && SortedBy(ordered, EventOrder)
    ensures Arranged(events, ordered, place, date)
  {
    hide SortedBy;
    SortedFollows(ordered);
    forall i, j | 0 <= i < |events| && 0 <= j < |events|
      ensures Follows(events, i, j) <==> place[i] < place[j]
    {
      if i < j {
        assert place[i] < place[j] <==> EventOrder(events[i], events[j]);
      } else if j < i {
        assert place[j] < place[i] <==> EventOrder(events[j], events[i]);
      }
    }
  }

  lemma SameNoneAfter(events: seq<StatusEvent>, ordered: seq<StatusEvent>, place: seq<int>, date: Civil,
                      i: int, t: Transition)
    requires Arranged(events, ordered, place, date) && 0 <= i < |events|
    ensures NoneAfter(events, date, i, t) <==> NoneAfter(ordered, date, place[i], t)
  {
    hide Follows;
    if NoneAfter(events, date, i, t) {
      forall k | Happens(ordered, date, k, t) ensures !Follows(ordered, place[i], k) {
        assert k in place;
        var j :| 0 <= j < |place| && place[j] == k;
        assert Happens(events, date, j, t);
      }
    }
    if NoneAfter(ordered, date, place[i], t) {
      forall j | Happens(events, date, j, t) ensures !Follows(events, i, j) {
        assert Happens(ordered, date, place[j], t);
      }
    }
  }

  lemma SameStands(events: seq<StatusEvent>, ordered: seq<StatusEvent>, place: seq<int>, date: Civil)
    requires Arranged(events, ordered, place, date)
    ensures forall i :: 0 <= i < |events| ==> (Stands(events, date, i) <==> Stands(ordered, date, place[i]))
    ensures forall i, j :: 0 <= i < |events| && 0 <= j < |events| ==>
      (OnHold(events, date, i, j) <==> OnHold(ordered, date, place[i], place[j]))
  {
    hide Follows, Happens, NoneAfter;
    forall i, t | 0 <= i < |events|
      ensures NoneAfter(events, date, i, t) <==> NoneAfter(ordered, date, place[i], t)
    {
      SameNoneAfter(events, ordered, place, date, i, t);
    }
    assert forall i :: 0 <= i < |events| ==>
      (Happens(events, date, i, ToConfirmed) <==> Happens(ordered, date, place[i], ToConfirmed));
    assert forall i :: 0 <= i < |events| ==>
      (Happens(events, date, i, ToPaused) <==> Happens(ordered, date, place[i], ToPaused));
  }

  lemma SameHistory(events: seq<StatusEvent>, ordered: seq<StatusEvent>, place: seq<int>, date: Civil)
    requires StablePlaces(events, EventOrder, ordered, place) && SortedBy(ordered, EventOrder)
    ensures forall status :: HasStatus(ordered, date, status) <==> HasStatus(events, date, status)
  {
    SortArranges(events, ordered, place, date);
    hide StablePlaces, SortedBy, Follows, EventOrder, NoneAfter;
    SameStands(events, ordered, place, date);
    SameEver(events, ordered, place, date);
    SameStanding(events, ordered, place, date);
    SameHeld(events, ordered, place, date);
    hide Standing, Held, EverHappens, Arranged;
  }

  lemma SameEver(events: seq<StatusEvent>, ordered: seq<StatusEvent>, place: seq<int>, date: Civil)
    requires Arranged(events, ordered, place, date)
    ensures forall t :: EverHappens(ordered, date, t) <==> EverHappens(events, date, t)
  {
    hide Follows;
    forall t ensures EverHappens(ordered, date, t) <==> EverHappens(events, date, t) {
      if EverHappens(ordered, date, t) {
        var k :| Happens(ordered, date, k, t);
        assert k in place;
        var i :| 0 <= i < |place| && place[i] == k;
        assert Happens(events, date, i, t);
      }
      if EverHappens(events, date, t) {
        var i :| Happens(events, date, i, t);
        assert Happens(ordered, date, place[i], t);
      }
    }
  }

  lemma SameStanding(events: seq<StatusEvent>, ordered: seq<StatusEvent>, place: seq<int>, date: Civil)
    requires Arranged(events, ordered, place, date)
    ensures Standing(ordered, date) <==> Standing(events, date)
  {
    hide Follows, Happens, NoneAfter;
    SameStands(events, ordered, place, date);
    StandsInside(events, date);
    StandsInside(ordered, date);
    if Standing(ordered, date) {
      var k :| Stands(ordered, date, k);
      assert k in place;
      var i :| 0 <= i < |place| && place[i] == k;
      assert Stands(events, date, i);
    }
    if Standing(events, date) {
      var i :| Stands(events, date, i);
      assert Stands(ordered, date, place[i]);
    }
  }

  lemma SameHeld(events: seq<StatusEvent>, ordered: seq<StatusEvent>, place: seq<int>, date: Civil)
    requires Arranged(events, ordered, place, date)
    ensures Held(ordered, date) <==> Held(events, date)
  {
    hide Follows, NoneAfter;
    SameStands(events, ordered, place, date);
    StandsInside(events, date);
    StandsInside(ordered, date);
    if Held(ordered, date) {
      var k, l :| OnHold(ordered, date, k, l);
      assert k in place && l in place;
      var i :| 0 <= i < |place| && place[i] == k;
      var j :| 0 <= j < |place| && place[j] == l;
      assert OnHold(events, date, i, j);
    }
    if Held(events, date) {
      var i, j :| OnHold(events, date, i, j);
      assert OnHold(ordered, date, place[i], place[j]);
    }
  }
}

/** Projecting the expected occurrences of a confirmed series. */
module Projection {
  import opened Wrappers
  import opened CivilDate
  import opened Cadence
  import opened Timeline

  datatype Series = Series(
    status: Status, statusEvents: seq<StatusEvent>, anchor: Anchor, lastSeen: Civil, expectedAmount: Option<int>)

  datatype Occurrence = Occurrence(expectedDate: Civil, expectedAmount: int)

  datatype ProjectionError = BadDate(error: DateError) | BadHorizon | NoAmount

  function ActiveDates(events: seq<StatusEvent>, dates: seq<Civil>): seq<Civil> {
    if dates == [] then []
    else
      var last := dates[|dates| - 1];
      ActiveDates(events, dates[..|dates| - 1]) + if StatusOn(events, last) == Confirmed then [last] else []
  }

  function Occurrences(dates: seq<Civil>, amount: int): (r: seq<Occurrence>)
    ensures |r| == |dates| && forall i :: 0 <= i < |dates| ==> r[i] == Occurrence(dates[i], amount)
  {
    seq(|dates|, i requires 0 <= i < |dates| => Occurrence(dates[i], amount))
  }

  function ProjectOccurrences(series: Series, asOf: Civil, horizonDays: int): Result<seq<Occurrence>, ProjectionError>
    requires WellFormed(series.anchor)
  {
    if !FourDigits(asOf) then Err(BadDate(InvalidDate))
    else if horizonDays < 0 || horizonDays > MAX_SAFE_INTEGER then Err(BadHorizon)
    else if series.status == Suggested || series.status == Rejected then Ok([])
    else
      var end := AddCivilDays(asOf, horizonDays);
      var start := AddCivilDays(series.lastSeen, 1);
      if end.Err? then Err(BadDate(end.error))
      else if start.Err? then Err(BadDate(start.error))
      else if series.expectedAmount.None? then Err(NoAmount)
      else
        var dates := GridDates(series.anchor, DayFromCivil(start.value), DayFromCivil(end.value));
        if dates != [] && !ValidDates(series.statusEvents) then Err(BadDate(InvalidDate))
        else Ok(Occurrences(ActiveDates(series.statusEvents, dates), series.expectedAmount.value))
  }

  /** The range runs from the day after lastSeen to the horizon, within four-digit years. */
  predicate InRange(series: Series, asOf: Civil, horizonDays: int) {
    && FourDigits(series.lastSeen) && DayFromCivil(series.lastSeen) + 1 <= 2_932_896
    && DayFromCivil(asOf) + horizonDays <= 2_932_896
  }

  /** Some date of the range is on the grid. */
  ghost predicate SomeGridDate(series: Series, asOf: Civil, horizonDays: int)
    requires WellFormed(series.anchor)
  {
    exists c :: Valid(c) && OnGrid(series.anchor, c)
      && DayFromCivil(series.lastSeen) + 1 <= DayFromCivil(c) <= DayFromCivil(asOf) + horizonDays
  }

  /**
   * Nothing is projected for a series suggested or rejected; for another it takes a date, a safe horizon, a range
   * within four-digit years, an amount, and valid status dates if any date of the range is on the grid.
   */
  lemma ProjectionSucceedsExactly(series: Series, asOf: Civil, horizonDays: int)
    requires WellFormed(series.anchor)
    ensures ProjectOccurrences(series, asOf, horizonDays).Ok? <==>
      && FourDigits(asOf) && 0 <= horizonDays <= 9_007_199_254_740_991
      && (series.status == Suggested || series.status == Rejected
          || (InRange(series, asOf, horizonDays) && series.expectedAmount.Some?
              && (SomeGridDate(series, asOf, horizonDays) ==> ValidDates(series.statusEvents))))
    ensures series.status == Suggested || series.status == Rejected ==>
      ProjectOccurrences(series, asOf, horizonDays).Err? || ProjectOccurrences(series, asOf, horizonDays) == Ok([])
    ensures ProjectOccurrences(series, asOf, horizonDays) == Err(BadHorizon) <==>
      FourDigits(asOf) && (horizonDays < 0 || horizonDays > 9_007_199_254_740_991)
  {
    hide DayFromCivil, CivilFromDay, GridDates, ActiveDates;
    if FourDigits(asOf) {
      AddDaysMoves(asOf, horizonDays);
      FourDigitRange(asOf);
    }
    if FourDigits(series.lastSeen) {
      AddDaysMoves(series.lastSeen, 1);
      FourDigitRange(series.lastSeen);
    }
    var lo, hi := DayFromCivil(series.lastSeen) + 1, DayFromCivil(asOf) + horizonDays;
    GridDatesExact(series.anchor, lo, hi);
    var dates := GridDates(series.anchor, lo, hi);
    if dates != [] {
      assert dates[0] in dates;
    }
  }

  lemma {:induction false} ActiveDatesExact(events: seq<StatusEvent>, dates: seq<Civil>)
    ensures forall c :: c in ActiveDates(events, dates) <==> c in dates && StatusOn(events, c) == Confirmed
  {
    if dates != [] {
      ActiveDatesExact(events, dates[..|dates| - 1]);
      assert dates == dates[..|dates| - 1] + [dates[|dates| - 1]];
    }
  }

  lemma {:induction false} ActiveDatesConcat(events: seq<StatusEvent>, a: seq<Civil>, b: seq<Civil>)
    ensures ActiveDates(events, a + b) == ActiveDates(events, a) + ActiveDates(events, b)
  {
    hide StatusOn;
    if b == [] {
      assert a + b == a;
    } else {
      ActiveDatesConcat(events, a, b[..|b| - 1]);
      assert (a + b)[..|a + b| - 1] == a + b[..|b| - 1];
    }
  }

  ghost predicate Increasing(dates: seq<Civil>) {
    forall i, j {:trigger dates[i], dates[j]} :: 0 <= i < j < |dates| ==> Before(dates[i], dates[j])
  }

  lemma {:induction false} ActiveDatesOrdered(events: seq<StatusEvent>, dates: seq<Civil>)
    requires Increasing(dates)
    ensures Increasing(ActiveDates(events, dates))
  {
    hide StatusOn, Before;
    if dates != [] {
      var init, last := dates[..|dates| - 1], dates[|dates| - 1];
      ActiveDatesOrdered(events, init);
      ActiveDatesExact(events, init);
      var before := ActiveDates(events, init);
      forall i | 0 <= i < |before| ensures Before(before[i], last) {
        assert before[i] in before;
        var k :| 0 <= k < |init| && init[k] == before[i];
        assert Before(dates[k], dates[|dates| - 1]);
      }
    }
  }

  /** Occurrences come in strictly increasing order, each with the expected amount of the series. */
  lemma ProjectionIsOrdered(series: Series, asOf: Civil, horizonDays: int)
    requires WellFormed(series.anchor) && ProjectOccurrences(series, asOf, horizonDays).Ok?
    ensures var projected := ProjectOccurrences(series, asOf, horizonDays).value;
      && (forall i :: 0 <= i < |projected| ==> Some(projected[i].expectedAmount) == series.expectedAmount)
      && Increasing(DatesOf(projected))
  {
    hide DayFromCivil, CivilFromDay, ActiveDates, GridDates;
    if series.status != Suggested && series.status != Rejected {
      var end, start := AddCivilDays(asOf, horizonDays).value, AddCivilDays(series.lastSeen, 1).value;
      var dates := GridDates(series.anchor, DayFromCivil(start), DayFromCivil(end));
      GridDatesExact(series.anchor, DayFromCivil(start), DayFromCivil(end));
      assert Increasing(dates);
      ActiveDatesOrdered(series.statusEvents, dates);
      assert DatesOf(ProjectOccurrences(series, asOf, horizonDays).value) == ActiveDates(series.statusEvents, dates);
    }
  }

  function DatesOf(occurrences: seq<Occurrence>): (r: seq<Civil>)
    ensures |r| == |occurrences| && forall i :: 0 <= i < |occurrences| ==> r[i] == occurrences[i].expectedDate
  {
    seq(|occurrences|, i requires 0 <= i < |occurrences| => occurrences[i].expectedDate)
  }

  /** The projection lists exactly the confirmed grid days after lastSeen up to the horizon. */
  lemma ProjectsConfirmedGridDays(series: Series, asOf: Civil, horizonDays: int)
    requires WellFormed(series.anchor) && series.status != Suggested && series.status != Rejected
    requires ProjectOccurrences(series, asOf, horizonDays).Ok?
    ensures forall c ::
      (exists o :: o in ProjectOccurrences(series, asOf, horizonDays).value && o.expectedDate == c) <==>
      && FourDigits(c) && Before(series.lastSeen, c) && DayFromCivil(c) <= DayFromCivil(asOf) + horizonDays
      && OnGrid(series.anchor, c) && HasStatus(series.statusEvents, c, Confirmed)
  {
    hide DayFromCivil, CivilFromDay, StatusOn, HasStatus;
    var end, start := AddCivilDays(asOf, horizonDays).value, AddCivilDays(series.lastSeen, 1).value;
    AddDaysMoves(asOf, horizonDays);
    AddDaysMoves(series.lastSeen, 1);
    var dates := GridDates(series.anchor, DayFromCivil(start), DayFromCivil(end));
    var active := ActiveDates(series.statusEvents, dates);
    GridDatesExact(series.anchor, DayFromCivil(start), DayFromCivil(end));
    ActiveDatesExact(series.statusEvents, dates);
    var projected := ProjectOccurrences(series, asOf, horizonDays).value;
    forall c
      ensures (exists o :: o in projected && o.expectedDate == c) <==>
        && FourDigits(c) && Before(series.lastSeen, c) && DayFromCivil(c) <= DayFromCivil(asOf) + horizonDays
        && OnGrid(series.anchor, c) && HasStatus(series.statusEvents, c, Confirmed)
    {
      HistoryDecides(series.statusEvents, c, Confirmed);
      if Valid(c) {
        OrderPreserved(series.lastSeen, c);
        FourDigitRange(c);
        FourDigitRange(start);
        FourDigitRange(end);
      }
      assert (exists o :: o in projected && o.expectedDate == c) <==> c in active by {
        if c in active {
          var i :| 0 <= i < |active| && active[i] == c;
          assert projected[i] in projected;
        }
      }
    }
  }

  /** A longer horizon only appends. */
  lemma LongerHorizonAppends(series: Series, asOf: Civil, near: int, far: int)
    requires WellFormed(series.anchor) && near <= far
    requires ProjectOccurrences(series, asOf, near).Ok? && ProjectOccurrences(series, asOf, far).Ok?
    ensures ProjectOccurrences(series, asOf, near).value <= ProjectOccurrences(series, asOf, far).value
  {
    hide DayFromCivil, CivilFromDay;
    if series.status != Suggested && series.status != Rejected {
      AddDaysMoves(asOf, near);
      AddDaysMoves(asOf, far);
      var start := DayFromCivil(AddCivilDays(series.lastSeen, 1).value);
      var mid, end := DayFromCivil(asOf) + near, DayFromCivil(asOf) + far;
      if start <= mid + 1 {
        GridDatesSplit(series.anchor, start, mid, end);
        ActiveDatesConcat(series.statusEvents, GridDates(series.anchor, start, mid),
          GridDates(series.anchor, mid + 1, end));
      }
    }
  }
}

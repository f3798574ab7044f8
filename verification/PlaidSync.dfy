/**
 * The live cursor loop against an arbitrary provider: what a returned window is, when each failure
 * is reported, and how many calls a run can make.
 */
module PlaidSync {
  import opened Wrappers

  datatype ErrorCode = Mutation | Reauth | OtherCode | NoCode

  datatype Answer =
    | PostFailed(failure: Failure)                    // the post itself threw one of the loop's own errors
    | Dropped                                         // it threw anything else, or the body could not be read
    | Unparsable
    | NotOk(status: int, code: ErrorCode)
    | Body(bodyText: string, nextCursor: Option<string>, hasMore: Option<bool>)

  datatype Failure =
    | LeaseRenewal | Budget | Network | Http(code: ErrorCode) | InvalidResponse
    | MutationRestartExhausted | StalledCursor

  // Everything outside the loop. Each reaction may depend on all earlier request cursors.
  datatype World = World(
    renews: seq<string> -> bool,
    reserves: seq<string> -> bool,
    answer: (seq<string>, string) -> Answer)

  datatype Page = Page(index: nat, bodyText: string)

  datatype SyncStatus = Terminal | Partial

  datatype Outcome =
    | Window(status: SyncStatus, pages: seq<Page>, hasMore: bool, nextCursor: string)
    | Failed(failure: Failure)

  datatype Call = Renewal | Request(cursor: string)

  const MAX_LIVE_RESTARTS := 3

  function Requests(calls: seq<Call>): seq<string> {
    if calls == [] then []
    else
      var last := calls[|calls| - 1];
      Requests(calls[..|calls| - 1]) + if last.Request? then [last.cursor] else []
  }

  /** Every request directly follows a lease renewal of its own. */
  ghost predicate EachRequestLeased(calls: seq<Call>) {
    forall i :: 0 <= i < |calls| && calls[i].Request? ==> i > 0 && calls[i - 1] == Renewal
  }

  predicate IsMutation(a: Answer) {
    a == NotOk(400, Mutation)
  }

  function MutationCount(w: World, requests: seq<string>): nat {
    if requests == [] then 0
    else
      var n := |requests| - 1;
      MutationCount(w, requests[..n]) + if IsMutation(w.answer(requests[..n], requests[n])) then 1 else 0
  }

  /**
   * The pages are the provider's answers to the last requests, each asked with the cursor the page
   * before it returned, the first with the base cursor; every page but possibly the last has more.
   */
  ghost predicate UnbrokenChain(w: World, requests: seq<string>, base: string, pages: seq<Page>, cursor: string,
                                more: bool) {
    && |pages| <= |requests|
    && (if pages == [] then cursor == base else requests[|requests| - |pages|] == base)
    && forall i :: 0 <= i < |pages| ==> Link(w, requests, pages, cursor, more, i)
  }

  /** Page i answers the request made with its cursor and names the cursor the next one was asked with. */
  ghost predicate Link(w: World, requests: seq<string>, pages: seq<Page>, cursor: string, more: bool, i: nat)
    requires i < |pages| <= |requests|
  {
    var k := |requests| - |pages| + i;
    && pages[i].index == i
    && w.answer(requests[..k], requests[k]) == Body(
         pages[i].bodyText,
         Some(if i + 1 < |pages| then requests[k + 1] else cursor),
         Some(i + 1 < |pages| || more))
  }

  /** The last thing that happened explains the reported failure. */
  ghost predicate Explains(w: World, requests: seq<string>, calls: seq<Call>, failure: Failure) {
    if calls == [] || calls[|calls| - 1] == Renewal then
      (failure == LeaseRenewal && !w.renews(requests))
        || (failure == Budget && w.renews(requests) && !w.reserves(requests))
    else
      requests != []
      && AnswerExplains(w, requests, w.answer(requests[..|requests| - 1], requests[|requests| - 1]), failure)
  }

  ghost predicate AnswerExplains(w: World, requests: seq<string>, answer: Answer, failure: Failure)
    requires requests != []
  {
    match answer
    case PostFailed(f) => failure == f
    case Dropped => failure == Network
    case Unparsable => failure == InvalidResponse
    case NotOk(status, code) =>
      if status == 400 && code == Mutation
      then failure == MutationRestartExhausted && MutationCount(w, requests) == 4
      else failure == Http(code)
    case Body(_, next, more) =>
      if next.None? || more.None? then failure == InvalidResponse
      else failure == StalledCursor && more.value && (next.value == "" || next.value == requests[|requests| - 1])
  }

  /** A continued page never hands back an empty cursor or the one it was asked with. */
  ghost predicate Advances(requests: seq<string>, pages: nat) {
    forall j :: 0 < j < |requests| && |requests| - pages < j ==> MovedOn(requests, j)
  }

  predicate MovedOn(requests: seq<string>, j: nat)
    requires 0 < j < |requests|
  {
    requests[j] != "" && requests[j] != requests[j - 1]
  }

  /** Each request was made under a lease just renewed and within the call budget. */
  ghost predicate Permitted(w: World, requests: seq<string>) {
    forall i :: 0 <= i < |requests| ==> w.renews(requests[..i]) && w.reserves(requests[..i])
  }

  /** The call log of a run with this many restarts behind it. */
  ghost predicate Logged(w: World, requests: seq<string>, calls: seq<Call>, restarts: nat) {
    && Requests(calls) == requests && EachRequestLeased(calls) && Permitted(w, requests)
    && restarts == MutationCount(w, requests) <= MAX_LIVE_RESTARTS
  }

  /** The attempt in progress: nothing in it stems from before the last restart. */
  ghost predicate Attempt(w: World, requests: seq<string>, base: string, pages: seq<Page>, cursor: string) {
    && UnbrokenChain(w, requests, base, pages, cursor, true)
    && Advances(requests, |pages|)
    && (pages != [] ==> cursor != "" && cursor != requests[|requests| - 1])
  }

  ghost predicate GoodWindow(w: World, requests: seq<string>, base: string, maxPages: int, outcome: Outcome)
    requires outcome.Window?
  {
    && UnbrokenChain(w, requests, base, outcome.pages, outcome.nextCursor, outcome.hasMore)
    && Advances(requests, |outcome.pages|)
    && 1 <= |outcome.pages| <= maxPages
    && (outcome.status == Terminal <==> !outcome.hasMore)
    && (outcome.status == Partial ==> |outcome.pages| == maxPages)
  }

  // A positive safe integer.
  predicate PageLimit(maxPages: int) {
    0 < maxPages <= 9_007_199_254_740_991
  }

  method FetchSyncPagesLive(w: World, baseCursor: string, maxPages: int) returns (outcome: Outcome, calls: seq<Call>)
    ensures maxPages < 1 || maxPages > 9_007_199_254_740_991 ==>
      outcome == Failed(InvalidResponse) && calls == []
    ensures outcome.Window? ==> GoodWindow(w, Requests(calls), baseCursor, maxPages, outcome)
    ensures outcome.Window? ==> MutationCount(w, Requests(calls)) <= 3
    ensures 1 <= maxPages <= 9_007_199_254_740_991 && outcome.Failed? ==>
      Explains(w, Requests(calls), calls, outcome.failure)
    ensures EachRequestLeased(calls) && Permitted(w, Requests(calls))
    ensures 1 <= maxPages <= 9_007_199_254_740_991 ==> |Requests(calls)| <= 4 * maxPages
  {
    hide Requests, MutationCount, EachRequestLeased, Permitted, UnbrokenChain, Advances;
    Beginning(w);
    FreshAttempt(w, [], baseCursor);
    calls := [];
    if !PageLimit(maxPages) {
      return Failed(InvalidResponse), calls;
    }
    var cursor := baseCursor;
    var restarts := 0;
    var pages: seq<Page> := [];
    var history: seq<string> := [];
    while |pages| < maxPages
      invariant |pages| <= maxPages && |history| <= restarts * maxPages + |pages|
      invariant Logged(w, history, calls, restarts)
      invariant Attempt(w, history, baseCursor, pages, cursor)
      decreases MAX_LIVE_RESTARTS - restarts, maxPages - |pages|
    {
      MoreRoom(restarts, maxPages, |history| + 1);
      LogRenewal(w, history, calls, restarts);
      if !w.renews(history) {
        return Failed(LeaseRenewal), calls + [Renewal];
      }
      if !w.reserves(history) {
        return Failed(Budget), calls + [Renewal];
      }
      LogRequest(w, history, calls, cursor);
      calls := calls + [Renewal, Request(cursor)];
      var answer := w.answer(history, cursor);
      var asked := history + [cursor];
      if answer.PostFailed? {
        return Failed(answer.failure), calls;
      } else if answer.Dropped? {
        return Failed(Network), calls;
      } else if answer.Unparsable? {
        return Failed(InvalidResponse), calls;
      } else if answer.NotOk? {
        if answer.status != 400 || answer.code != Mutation {
          return Failed(Http(answer.code)), calls;
        }
        if restarts >= MAX_LIVE_RESTARTS {
          return Failed(MutationRestartExhausted), calls;
        }
        FreshAttempt(w, asked, baseCursor);
        pages := [];
        cursor := baseCursor;
        restarts := restarts + 1;
      } else {
        if answer.nextCursor.None? || answer.hasMore.None? {
          return Failed(InvalidResponse), calls;
        }
        var next, more := answer.nextCursor.value, answer.hasMore.value;
        if more && (next == "" || next == cursor) {
          return Failed(StalledCursor), calls;
        }
        PageJoins(w, history, baseCursor, pages, cursor, answer.bodyText, next, more);
        pages := pages + [Page(|pages|, answer.bodyText)];
        cursor := next;
        if !more {
          return Window(Terminal, pages, false, cursor), calls;
        }
      }
      history := asked;
    }
    return Window(Partial, pages, true, cursor), calls;
  }

  lemma LogRenewal(w: World, history: seq<string>, calls: seq<Call>, restarts: nat)
    requires Logged(w, history, calls, restarts)
    ensures Requests(calls + [Renewal]) == history && EachRequestLeased(calls + [Renewal])
  {
    RequestsLast(calls, Renewal);
  }

  lemma Beginning(w: World)
    ensures Logged(w, [], [], 0)
  {
  }

  lemma FreshAttempt(w: World, requests: seq<string>, base: string)
    ensures Attempt(w, requests, base, [], base)
  {
  }

  // The log after one more renewal and request.
  lemma LogRequest(w: World, history: seq<string>, calls: seq<Call>, cursor: string)
    requires Requests(calls) == history && EachRequestLeased(calls) && Permitted(w, history)
    requires w.renews(history) && w.reserves(history)
    ensures var asked, log := history + [cursor], calls + [Renewal, Request(cursor)];
      && Requests(log) == asked && EachRequestLeased(log) && Permitted(w, asked)
      && asked[..|history|] == history
      && MutationCount(w, asked) == MutationCount(w, history) + if IsMutation(w.answer(history, cursor)) then 1 else 0
  {
    var log := calls + [Renewal] + [Request(cursor)];
    assert calls + [Renewal, Request(cursor)] == log;
    hide *;
    LeasedLast(calls, cursor);
    RequestsLast(calls, Renewal);
    RequestsLast(calls + [Renewal], Request(cursor));
    CountLast(w, history, cursor);
    PermittedOne(w, history, cursor);
  }

  lemma LeasedLast(calls: seq<Call>, cursor: string)
    requires EachRequestLeased(calls)
    ensures EachRequestLeased(calls + [Renewal] + [Request(cursor)])
  {
    var log := calls + [Renewal] + [Request(cursor)];
    forall i | 0 <= i < |log| && log[i].Request? ensures i > 0 && log[i - 1] == Renewal {
      if i < |calls| {
        assert log[i] == calls[i] && (i > 0 ==> log[i - 1] == calls[i - 1]);
      }
    }
  }

  lemma PermittedOne(w: World, history: seq<string>, cursor: string)
    requires Permitted(w, history) && w.renews(history) && w.reserves(history)
    ensures Permitted(w, history + [cursor])
  {
    var asked := history + [cursor];
    forall i | 0 <= i < |asked| ensures w.renews(asked[..i]) && w.reserves(asked[..i]) {
      if i < |history| {
        assert asked[..i] == history[..i];
      } else {
        assert asked[..i] == history;
      }
    }
  }

  lemma PageJoins(w: World, history: seq<string>, base: string, pages: seq<Page>, cursor: string,
                  bodyText: string, next: string, more: bool)
    requires Attempt(w, history, base, pages, cursor)
    requires w.answer(history, cursor) == Body(bodyText, Some(next), Some(more))
    ensures var requests, grown := history + [cursor], pages + [Page(|pages|, bodyText)];
      && UnbrokenChain(w, requests, base, grown, next, more)
      && Advances(requests, |grown|)
      && (more && next != "" && next != cursor ==> Attempt(w, requests, base, grown, next))
  {
    ChainGrows(w, history, base, pages, cursor, bodyText, next, more);
    AdvancesOne(history, |pages|, cursor);
  }

  lemma AdvancesOne(history: seq<string>, pages: nat, cursor: string)
    requires Advances(history, pages)
    requires pages > 0 ==> history != [] && cursor != "" && cursor != history[|history| - 1]
    ensures Advances(history + [cursor], pages + 1)
  {
    var requests := history + [cursor];
    forall j | 0 < j < |requests| && |requests| - (pages + 1) < j ensures MovedOn(requests, j) {
      if j < |history| {
        assert MovedOn(history, j);
      }
    }
  }

  lemma RequestsLast(calls: seq<Call>, call: Call)
    ensures Requests(calls + [call]) == Requests(calls) + if call.Request? then [call.cursor] else []
  {
    assert (calls + [call])[..|calls|] == calls;
  }

  lemma CountLast(w: World, history: seq<string>, cursor: string)
    ensures MutationCount(w, history + [cursor]) ==
      MutationCount(w, history) + if IsMutation(w.answer(history, cursor)) then 1 else 0
  {
    assert (history + [cursor])[..|history|] == history;
  }

  lemma MoreRoom(restarts: nat, maxPages: nat, requests: nat)
    requires restarts <= MAX_LIVE_RESTARTS && requests <= restarts * maxPages + maxPages
    ensures requests <= (restarts + 1) * maxPages <= (MAX_LIVE_RESTARTS + 1) * maxPages
  {
    assert restarts * maxPages + maxPages == (restarts + 1) * maxPages;
    assert (MAX_LIVE_RESTARTS - restarts) * maxPages >= 0;
    assert (MAX_LIVE_RESTARTS + 1) * maxPages == (restarts + 1) * maxPages + (MAX_LIVE_RESTARTS - restarts) * maxPages;
  }

  lemma ChainGrows(w: World, history: seq<string>, base: string, pages: seq<Page>, cursor: string,
                   bodyText: string, next: string, more: bool)
    requires UnbrokenChain(w, history, base, pages, cursor, true)
    requires w.answer(history, cursor) == Body(bodyText, Some(next), Some(more))
    ensures UnbrokenChain(w, history + [cursor], base, pages + [Page(|pages|, bodyText)], next, more)
  {
    var requests, grown, k := history + [cursor], pages + [Page(|pages|, bodyText)], |history| - |pages|;
    assert requests[..|history|] == history;
    forall i | 0 <= i < |grown| ensures Link(w, requests, grown, next, more, i) {
      if i < |pages| {
        assert Link(w, history, pages, cursor, true, i);
        assert requests[..k + i] == history[..k + i];
      }
    }
  }

  // A provider that, mutations and failures aside, serves one fixed feed.

  ghost predicate Serves(w: World, cursors: seq<string>, bodies: seq<string>)
    requires |cursors| == |bodies| + 1
  {
    forall history, i :: 0 <= i < |bodies| && w.answer(history, cursors[i]).Body? ==>
      w.answer(history, cursors[i]) == Body(bodies[i], Some(cursors[i + 1]), Some(i + 1 < |bodies|))
  }

  /**
   * Against a provider serving one feed, however often it forces a restart, a window is the feed's
   * first pages in order without gap or repeat, and it is terminal exactly at the feed's end.
   */
  lemma WindowCopiesTheFeed(w: World, requests: seq<string>, cursors: seq<string>, bodies: seq<string>,
                            pages: seq<Page>, cursor: string, more: bool)
    requires |cursors| == |bodies| + 1 && bodies != [] && Serves(w, cursors, bodies)
    requires pages != [] && UnbrokenChain(w, requests, cursors[0], pages, cursor, more)
    ensures |pages| <= |bodies| && cursor == cursors[|pages|]
    ensures forall i :: 0 <= i < |pages| ==> pages[i] == Page(i, bodies[i])
    ensures more <==> |pages| < |bodies|
  {
    FeedPrefix(w, requests, cursors, bodies, pages, cursor, more, |pages| - 1);
  }

  lemma {:induction false} FeedPrefix(w: World, requests: seq<string>, cursors: seq<string>, bodies: seq<string>,
                                      pages: seq<Page>, cursor: string, more: bool, n: nat)
    requires |cursors| == |bodies| + 1 && bodies != [] && Serves(w, cursors, bodies)
    requires n < |pages| && UnbrokenChain(w, requests, cursors[0], pages, cursor, more)
    ensures n < |bodies|
    ensures requests[|requests| - |pages| + n] == cursors[n]
    ensures forall i :: 0 <= i <= n ==> pages[i] == Page(i, bodies[i])
    ensures (if n + 1 < |pages| then requests[|requests| - |pages| + n + 1] else cursor) == cursors[n + 1]
    ensures (n + 1 < |pages| || more) <==> n + 1 < |bodies|
  {
    var k := |requests| - |pages|;
    if n > 0 {
      FeedPrefix(w, requests, cursors, bodies, pages, cursor, more, n - 1);
    }
    assert requests[k + n] == cursors[n];
    assert Link(w, requests, pages, cursor, more, n);
  }
}

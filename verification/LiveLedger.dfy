/** The append-only ledger, its live batches, and what its postings balance to over any history. */
module LiveLedger {
  import opened Wrappers
  import opened Allocation
  import opened Journal
  import opened TrialBalance

  datatype Status = Pending | Posted | Voided

  datatype BatchRow = BatchRow(
    id: string, transactionId: Option<string>, description: string, effectiveDate: string, reverses: Option<string>)

  datatype RevisionRow = RevisionRow(originalBatchId: string, reversalBatchId: string,
    replacementBatchId: Option<string>)

  datatype Ledger = Ledger(
    transactions: map<string, Status>, batches: seq<BatchRow>, postings: seq<PostingRow>, revisions: seq<RevisionRow>)

  // The live view of a snapshot.

  function LiveTransactions(s: Ledger): set<string> {
    set t | t in s.transactions && s.transactions[t] != Voided
  }

  function Superseded(s: Ledger): set<string> {
    set i | 0 <= i < |s.revisions| :: s.revisions[i].originalBatchId
  }

  function FilterLive(batches: seq<BatchRow>, live: set<string>, superseded: set<string>): seq<BatchRow> {
    if batches == [] then []
    else
      var n := |batches| - 1;
      var b := batches[n];
      FilterLive(batches[..n], live, superseded)
      + if b.transactionId.Some? && b.transactionId.value in live && b.reverses.None? && b.id !in superseded
        then [b] else []
  }

  function CurrentLiveJournalBatches(s: Ledger): seq<BatchRow> {
    FilterLive(s.batches, LiveTransactions(s), Superseded(s))
  }

  function LiveIds(s: Ledger): set<string> {
    set b | b in CurrentLiveJournalBatches(s) :: b.id
  }

  lemma {:induction false} FilterLiveExact(batches: seq<BatchRow>, live: set<string>, superseded: set<string>,
                                           b: BatchRow)
    ensures b in FilterLive(batches, live, superseded) <==>
      b in batches && b.transactionId.Some? && b.transactionId.value in live && b.reverses.None? && b.id !in superseded
  {
    if batches != [] {
      var n := |batches| - 1;
      FilterLiveExact(batches[..n], live, superseded, b);
      assert batches == batches[..n] + [batches[n]];
    }
  }

  // Batches in force: not a reversal and not superseded, whatever they belong to.

  predicate InForce(s: Ledger, b: BatchRow) {
    b in s.batches && b.reverses.None? && b.id !in Superseded(s)
  }

  function Standing(s: Ledger): set<string> {
    set b | b in s.batches && InForce(s, b) :: b.id
  }

  /** Standing batches that belong to no transaction: opening balances. */
  function Openings(s: Ledger): set<string> {
    set b | b in s.batches && InForce(s, b) && b.transactionId.None? :: b.id
  }

  function Known(s: Ledger): set<string> {
    set b | b in s.batches :: b.id
  }

  // Rows of some batches, and a batch read back from its rows.

  function RowIn(row: PostingRow, ids: set<string>): seq<PostingRow> {
    if row.batchId in ids then [row] else []
  }

  function RowsIn(rows: seq<PostingRow>, ids: set<string>): seq<PostingRow> {
    if rows == [] then [] else RowsIn(rows[..|rows| - 1], ids) + RowIn(rows[|rows| - 1], ids)
  }

  function RowOf(id: string, p: Posting): PostingRow {
    PostingRow(id, Some(p.ledgerAccountId), Some(p.money.currency), Some(p.money.amountMinor))
  }

  function RowsOf(id: string, ps: seq<Posting>): (r: seq<PostingRow>)
    ensures |r| == |ps| && forall i :: 0 <= i < |ps| ==> r[i] == RowOf(id, ps[i])
  {
    seq(|ps|, i requires 0 <= i < |ps| => RowOf(id, ps[i]))
  }

  function PostingIn(row: PostingRow, id: string): seq<Posting> {
    if row.batchId == id && row.Valid()
    then [Posting(row.ledgerAccountId.value, Money(row.amountMinor.value, row.currency.value))] else []
  }

  function PostingsOf(rows: seq<PostingRow>, id: string): seq<Posting> {
    if rows == [] then [] else PostingsOf(rows[..|rows| - 1], id) + PostingIn(rows[|rows| - 1], id)
  }

  function FindBatch(batches: seq<BatchRow>, id: string): (r: Option<BatchRow>)
    ensures r.Some? ==> r.value in batches && r.value.id == id
    ensures r.None? ==> forall b :: b in batches ==> b.id != id
  {
    if batches == [] then None
    else if batches[0].id == id then Some(batches[0])
    else FindBatch(batches[1..], id)
  }

  // The steps of a history.

  datatype Step =
    | Record(transactionId: Option<string>, pending: bool, input: Batch)
    | Revise(original: string, opts: ReverseOptions, replacement: Batch, pending: bool)
    | Reverse(original: string, opts: ReverseOptions)

  datatype StepError = DuplicateBatch | AlreadyRecorded | NoLiveBatch | Unpostable(error: MoneyError)

  function WithStatus(s: Ledger, transactionId: Option<string>, status: Status): Ledger {
    if transactionId.Some? then s.(transactions := s.transactions[transactionId.value := status]) else s
  }

  function PostBatch(s: Ledger, transactionId: Option<string>, batch: Batch, reverses: Option<string>): Ledger {
    s.(batches := s.batches
         + [BatchRow(batch.batchId, transactionId, batch.description, batch.effectiveDate, reverses)],
       postings := s.postings + RowsOf(batch.batchId, batch.postings))
  }

  /** Book a reversal and the revision row that takes its original out of force. */
  function Compensate(s: Ledger, target: BatchRow, reversal: ReversalBatch, replacement: Option<string>): Ledger {
    var posted := PostBatch(s, target.transactionId, reversal.batch, Some(reversal.reverses));
    posted.(revisions := s.revisions + [RevisionRow(reversal.reverses, reversal.batch.batchId, replacement)])
  }

  predicate HasStanding(s: Ledger, transactionId: string) {
    exists b :: b in s.batches && InForce(s, b) && b.transactionId == Some(transactionId)
  }

  function Original(s: Ledger, target: BatchRow): Batch {
    Batch(target.id, target.description, target.effectiveDate, PostingsOf(s.postings, target.id))
  }

  function Target(s: Ledger, original: string): Result<BatchRow, StepError> {
    match FindBatch(s.batches, original)
    case Some(b) => if InForce(s, b) then Ok(b) else Err(NoLiveBatch)
    case None => Err(NoLiveBatch)
  }

  function Try<T>(r: Result<T, MoneyError>): Result<T, StepError> {
    match r
    case Ok(value) => Ok(value)
    case Err(error) => Err(Unpostable(error))
  }

  function StatusOf(pending: bool): Status {
    if pending then Pending else Posted
  }

  function ApplyRecord(s: Ledger, step: Step): Result<Ledger, StepError>
    requires step.Record?
  {
    if step.input.batchId in Known(s) then Err(DuplicateBatch)
    else if step.transactionId.Some? && HasStanding(s, step.transactionId.value) then Err(AlreadyRecorded)
    else
      var batch :- Try(BuiltBatch(step.input));
      Ok(PostBatch(WithStatus(s, step.transactionId, StatusOf(step.pending)), step.transactionId, batch, None))
  }

  function ApplyRevise(s: Ledger, step: Step): Result<Ledger, StepError>
    requires step.Revise?
  {
    var target :- Target(s, step.original);
    if step.opts.reversalBatchId in Known(s) || step.replacement.batchId in Known(s)
      || step.opts.reversalBatchId == step.replacement.batchId then Err(DuplicateBatch)
    else
      var revision :- Try(ReviseBatch(Original(s, target), step.opts, step.replacement));
      var reversed := Compensate(s, target, revision.reversal, Some(step.replacement.batchId));
      Ok(PostBatch(WithStatus(reversed, target.transactionId, StatusOf(step.pending)),
        target.transactionId, revision.replacement, None))
  }

  /** Reversing the batch of a transaction without a replacement voids the transaction. */
  function ApplyReverse(s: Ledger, step: Step): Result<Ledger, StepError>
    requires step.Reverse?
  {
    var target :- Target(s, step.original);
    if step.opts.reversalBatchId in Known(s) then Err(DuplicateBatch)
    else
      var reversal :- Try(ReverseBatch(Original(s, target), step.opts));
      Ok(WithStatus(Compensate(s, target, reversal, None), target.transactionId, Voided))
  }

  function Apply(s: Ledger, step: Step): Result<Ledger, StepError> {
    match step
    case Record(_, _, _) => ApplyRecord(s, step)
    case Revise(_, _, _, _) => ApplyRevise(s, step)
    case Reverse(_, _) => ApplyReverse(s, step)
  }

  const EMPTY := Ledger(map[], [], [], [])

  /** A failing step leaves the ledger as it was. */
  function Run(steps: seq<Step>): Ledger {
    if steps == [] then EMPTY
    else
      var s := Run(steps[..|steps| - 1]);
      match Apply(s, steps[|steps| - 1])
      case Ok(next) => next
      case Err(_) => s
  }

  // Sums over rows.

  lemma Regroup<T>(x: seq<T>, y: seq<T>, z: seq<T>)
    ensures x + y + z == x + (y + z)
  {
  }

  lemma OneRow(rows: seq<PostingRow>, row: PostingRow, ids: set<string>)
    ensures RowsIn(rows + [row], ids) == RowsIn(rows, ids) + RowIn(row, ids)
  {
    assert (rows + [row])[..|rows|] == rows;
  }

  lemma EmptyRowsIn(ids: set<string>)
    ensures RowsIn([], ids) == []
  {
  }

  lemma {:induction false} RowsInAppend(a: seq<PostingRow>, b: seq<PostingRow>, ids: set<string>)
    ensures RowsIn(a + b, ids) == RowsIn(a, ids) + RowsIn(b, ids)
  {
    hide *;
    if b == [] {
      assert a + b == a;
      EmptyRowsIn(ids);
    } else {
      var init, last := b[..|b| - 1], b[|b| - 1];
      RowsInAppend(a, init, ids);
      OneRow(a + init, last, ids);
      OneRow(init, last, ids);
      assert init + [last] == b;
      Regroup(a, init, [last]);
      Regroup(RowsIn(a, ids), RowsIn(init, ids), RowIn(last, ids));
    }
  }

  lemma {:induction false} AccountAppend(a: seq<PostingRow>, b: seq<PostingRow>, k: LedgerKey)
    ensures AccountBalance(a + b, k) == AccountBalance(a, k) + AccountBalance(b, k)
  {
    if b == [] {
      assert a + b == a;
    } else {
      var n := |b| - 1;
      AccountAppend(a, b[..n], k);
      assert (a + b)[..|a| + n] == a + b[..n];
    }
  }

  lemma {:induction false} CurrencyAppend(a: seq<PostingRow>, b: seq<PostingRow>, c: string)
    ensures CurrencyTotal(a + b, c) == CurrencyTotal(a, c) + CurrencyTotal(b, c)
  {
    if b == [] {
      assert a + b == a;
    } else {
      var n := |b| - 1;
      CurrencyAppend(a, b[..n], c);
      assert (a + b)[..|a| + n] == a + b[..n];
    }
  }

  lemma {:induction false} RowsInBatch(id: string, ps: seq<Posting>, ids: set<string>)
    ensures RowsIn(RowsOf(id, ps), ids) == if id in ids then RowsOf(id, ps) else []
  {
    if ps != [] {
      var n := |ps| - 1;
      var rows := RowsOf(id, ps);
      assert rows[n].batchId == id;
      assert rows == rows[..n] + [rows[n]];
      assert RowsIn(rows, ids) == RowsIn(rows[..n], ids) + if id in ids then [rows[n]] else [];
      hide RowsIn, RowOf;
      RowsInBatch(id, ps[..n], ids);
      assert rows[..n] == RowsOf(id, ps[..n]);
    }
  }

  lemma {:induction false} BatchCurrency(id: string, ps: seq<Posting>, c: string)
    ensures CurrencyTotal(RowsOf(id, ps), c) == Balance(ps, c)
  {
    if ps != [] {
      var n := |ps| - 1;
      BatchCurrency(id, ps[..n], c);
      assert RowsOf(id, ps)[..n] == RowsOf(id, ps[..n]);
    }
  }

  lemma {:induction false} NegatedRows(id: string, other: string, ps: seq<Posting>, k: LedgerKey)
    ensures AccountBalance(RowsOf(id, Negated(ps)), k) == -AccountBalance(RowsOf(other, ps), k)
  {
    if ps != [] {
      var n := |ps| - 1;
      NegatedRows(id, other, ps[..n], k);
      assert Negated(ps)[..n] == Negated(ps[..n]);
      assert RowsOf(id, Negated(ps))[..n] == RowsOf(id, Negated(ps[..n]));
      assert RowsOf(other, ps)[..n] == RowsOf(other, ps[..n]);
    }
  }

  /** The rows of one batch are its postings. */
  lemma {:induction false} RowsOfOne(rows: seq<PostingRow>, id: string)
    requires AllValid(rows)
    ensures RowsIn(rows, {id}) == RowsOf(id, PostingsOf(rows, id))
  {
    if rows != [] {
      var n := |rows| - 1;
      RowsOfOne(rows[..n], id);
    }
  }

  lemma OnePosting(rows: seq<PostingRow>, row: PostingRow, id: string)
    ensures PostingsOf(rows + [row], id) == PostingsOf(rows, id) + PostingIn(row, id)
  {
    assert (rows + [row])[..|rows|] == rows;
  }

  lemma EmptyPostingsOf(id: string)
    ensures PostingsOf([], id) == []
  {
  }

  lemma {:induction false} PostingsAppend(a: seq<PostingRow>, b: seq<PostingRow>, id: string)
    ensures PostingsOf(a + b, id) == PostingsOf(a, id) + PostingsOf(b, id)
  {
    hide *;
    if b == [] {
      assert a + b == a;
      EmptyPostingsOf(id);
    } else {
      var init, last := b[..|b| - 1], b[|b| - 1];
      PostingsAppend(a, init, id);
      OnePosting(a + init, last, id);
      OnePosting(init, last, id);
      assert init + [last] == b;
      Regroup(a, init, [last]);
      Regroup(PostingsOf(a, id), PostingsOf(init, id), PostingIn(last, id));
    }
  }

  lemma {:induction false} PostingsOfBatch(batch: string, ps: seq<Posting>, id: string)
    ensures PostingsOf(RowsOf(batch, ps), id) == if id == batch then ps else []
  {
    if ps != [] {
      var n := |ps| - 1;
      PostingsOfBatch(batch, ps[..n], id);
      assert RowsOf(batch, ps)[..n] == RowsOf(batch, ps[..n]);
      assert ps == ps[..n] + [ps[n]];
    }
  }

  lemma {:induction false} Unposted(rows: seq<PostingRow>, ids: set<string>, known: set<string>)
    requires forall i :: 0 <= i < |rows| ==> rows[i].batchId in known
    requires ids !! known
    ensures RowsIn(rows, ids) == []
  {
    if rows != [] {
      Unposted(rows[..|rows| - 1], ids, known);
    }
  }

  lemma {:induction false} NoPostings(rows: seq<PostingRow>, id: string, known: set<string>)
    requires forall i :: 0 <= i < |rows| ==> rows[i].batchId in known
    requires id !in known
    ensures PostingsOf(rows, id) == []
  {
    if rows != [] {
      NoPostings(rows[..|rows| - 1], id, known);
    }
  }

  lemma {:induction false} EveryRow(rows: seq<PostingRow>, known: set<string>)
    requires forall i :: 0 <= i < |rows| ==> rows[i].batchId in known
    ensures RowsIn(rows, known) == rows
  {
    if rows != [] {
      EveryRow(rows[..|rows| - 1], known);
    }
  }

  function BalanceIn(rows: seq<PostingRow>, ids: set<string>, k: LedgerKey): int {
    AccountBalance(RowsIn(rows, ids), k)
  }

  /** Disjoint sets of batches have their balances added. */
  lemma {:induction false} BalanceOfUnion(rows: seq<PostingRow>, a: set<string>, b: set<string>, k: LedgerKey)
    requires a !! b
    ensures BalanceIn(rows, a + b, k) == BalanceIn(rows, a, k) + BalanceIn(rows, b, k)
  {
    if rows != [] {
      var n := |rows| - 1;
      BalanceOfUnion(rows[..n], a, b, k);
      AddRow(rows, a, k);
      AddRow(rows, b, k);
      AddRow(rows, a + b, k);
    }
  }

  lemma AddRow(rows: seq<PostingRow>, ids: set<string>, k: LedgerKey)
    requires rows != []
    ensures BalanceIn(rows, ids, k) == BalanceIn(rows[..|rows| - 1], ids, k)
      + if rows[|rows| - 1].batchId in ids then Amount(rows[|rows| - 1], k) else 0
  {
    var before, last := RowsIn(rows[..|rows| - 1], ids), rows[|rows| - 1];
    assert before + [] == before;
    assert (before + [last])[..|before|] == before;
  }

  // The books: what every step keeps.

  ghost predicate Registered(s: Ledger) {
    && AllValid(s.postings)
    && (forall i :: 0 <= i < |s.postings| ==> s.postings[i].batchId in Known(s))
    && Superseded(s) <= Known(s)
    && (forall b, b' :: b in s.batches && b' in s.batches && b.id == b'.id ==> b == b')
  }

  ghost predicate BatchesPostable(s: Ledger) {
    forall id :: id in Known(s) ==> Postable(PostingsOf(s.postings, id))
  }

  ghost predicate Balanced(s: Ledger) {
    forall ids: set<string>, c :: CurrencyTotal(RowsIn(s.postings, ids), c) == 0
  }

  /** Everything posted amounts to what the batches in force post. */
  ghost predicate Reconciled(s: Ledger) {
    forall k :: AccountBalance(s.postings, k) == BalanceIn(s.postings, Standing(s), k)
  }

  /** A transaction has at most one batch in force, and none once it is voided. */
  ghost predicate OneStanding(s: Ledger) {
    && (forall b :: b in s.batches && InForce(s, b) && b.transactionId.Some? ==>
        b.transactionId.value in LiveTransactions(s))
    && (forall b, b' :: b in s.batches && b' in s.batches && InForce(s, b) && InForce(s, b') ==>
        b.transactionId.Some? ==> b.transactionId == b'.transactionId ==> b == b')
  }

  ghost predicate Books(s: Ledger) {
    Registered(s) && BatchesPostable(s) && Balanced(s) && Reconciled(s)
  }

  lemma PostRegisters(s: Ledger, t: Option<string>, batch: Batch, reverses: Option<string>)
    requires Registered(s) && batch.batchId !in Known(s)
    ensures Registered(PostBatch(s, t, batch, reverses))
    ensures Known(PostBatch(s, t, batch, reverses)) == Known(s) + {batch.batchId}
    ensures forall b :: b in s.batches ==> b in PostBatch(s, t, batch, reverses).batches
  {
    var next := PostBatch(s, t, batch, reverses);
    var row := next.batches[|s.batches|];
    assert forall b :: b in next.batches <==> b in s.batches || b == row;
    assert forall b :: b in s.batches ==> b.id in Known(s);
    assert Known(next) == Known(s) + {batch.batchId};
    assert forall i :: 0 <= i < |s.postings| ==> next.postings[i] == s.postings[i];
  }

  lemma PostPostable(s: Ledger, t: Option<string>, batch: Batch, reverses: Option<string>)
    requires Registered(s) && BatchesPostable(s) && batch.batchId !in Known(s) && Postable(batch.postings)
    ensures BatchesPostable(PostBatch(s, t, batch, reverses))
  {
    PostRegisters(s, t, batch, reverses);
    NoPostings(s.postings, batch.batchId, Known(s));
    var next := PostBatch(s, t, batch, reverses);
    assert next.postings == s.postings + RowsOf(batch.batchId, batch.postings);
    hide Postable, Registered, PostingsOf, PostingIn, RowsOf, Known, Superseded, PostBatch;
    forall id | id in Known(next) ensures Postable(PostingsOf(next.postings, id)) {
      PostedAfter(s.postings, batch, id);
    }
  }

  lemma PostedAfter(rows: seq<PostingRow>, batch: Batch, id: string)
    requires PostingsOf(rows, batch.batchId) == []
    ensures PostingsOf(rows + RowsOf(batch.batchId, batch.postings), id)
         == if id == batch.batchId then batch.postings else PostingsOf(rows, id)
  {
    PostingsAppend(rows, RowsOf(batch.batchId, batch.postings), id);
    PostingsOfBatch(batch.batchId, batch.postings, id);
    hide *;
    assert PostingsOf(rows, id) + [] == PostingsOf(rows, id);
    assert [] + batch.postings == batch.postings;
  }

  lemma PostBalanced(s: Ledger, t: Option<string>, batch: Batch, reverses: Option<string>)
    requires Balanced(s) && Postable(batch.postings)
    ensures Balanced(PostBatch(s, t, batch, reverses))
  {
    var added := RowsOf(batch.batchId, batch.postings);
    forall ids: set<string>, c ensures CurrencyTotal(RowsIn(s.postings + added, ids), c) == 0 {
      RowsInAppend(s.postings, added, ids);
      RowsInBatch(batch.batchId, batch.postings, ids);
      CurrencyAppend(RowsIn(s.postings, ids), RowsIn(added, ids), c);
      BatchCurrency(batch.batchId, batch.postings, c);
    }
  }

  /** What one more batch does to the balance of any set of batches. */
  lemma PostBalance(s: Ledger, t: Option<string>, batch: Batch, reverses: Option<string>, ids: set<string>,
                    k: LedgerKey)
    ensures var added := RowsOf(batch.batchId, batch.postings);
      && AccountBalance(PostBatch(s, t, batch, reverses).postings, k)
         == AccountBalance(s.postings, k) + AccountBalance(added, k)
      && BalanceIn(PostBatch(s, t, batch, reverses).postings, ids, k)
         == BalanceIn(s.postings, ids, k) + if batch.batchId in ids then AccountBalance(added, k) else 0
  {
    var added := RowsOf(batch.batchId, batch.postings);
    AccountAppend(s.postings, added, k);
    RowsInAppend(s.postings, added, ids);
    RowsInBatch(batch.batchId, batch.postings, ids);
    AccountAppend(RowsIn(s.postings, ids), RowsIn(added, ids), k);
  }

  lemma PostStanding(s: Ledger, t: Option<string>, batch: Batch)
    requires Registered(s) && batch.batchId !in Known(s)
    ensures Standing(PostBatch(s, t, batch, None)) == Standing(s) + {batch.batchId}
    ensures Standing(s) <= Known(s)
  {
    var next := PostBatch(s, t, batch, None);
    var row := next.batches[|s.batches|];
    assert forall b :: b in next.batches <==> b in s.batches || b == row;
    assert Superseded(next) == Superseded(s);
    assert InForce(next, row);
  }

  lemma PostKeepsBooks(s: Ledger, t: Option<string>, batch: Batch)
    requires Books(s) && batch.batchId !in Known(s) && Postable(batch.postings)
    ensures Books(PostBatch(s, t, batch, None))
  {
    var next := PostBatch(s, t, batch, None);
    PostRegisters(s, t, batch, None);
    PostPostable(s, t, batch, None);
    PostBalanced(s, t, batch, None);
    PostStanding(s, t, batch);
    forall k ensures AccountBalance(next.postings, k) == BalanceIn(next.postings, Standing(next), k) {
      PostBalance(s, t, batch, None, Standing(next), k);
      BalanceOfUnion(s.postings, Standing(s), {batch.batchId}, k);
      Unposted(s.postings, {batch.batchId}, Known(s));
    }
  }

  /** A reversal booked with its revision row takes exactly its original out of force. */
  lemma CompensateStanding(s: Ledger, target: BatchRow, reversal: ReversalBatch, replacement: Option<string>)
    requires Registered(s) && reversal.batch.batchId !in Known(s) && InForce(s, target)
    requires reversal.reverses == target.id
    ensures var next := Compensate(s, target, reversal, replacement);
      && Registered(next) && Known(next) == Known(s) + {reversal.batch.batchId}
      && Superseded(next) == Superseded(s) + {target.id}
      && (forall b :: InForce(next, b) <==> InForce(s, b) && b != target)
      && Standing(next) == Standing(s) - {target.id}
  {
    var next := Compensate(s, target, reversal, replacement);
    var posted := PostBatch(s, target.transactionId, reversal.batch, Some(reversal.reverses));
    PostRegisters(s, target.transactionId, reversal.batch, Some(reversal.reverses));
    var row := next.batches[|s.batches|];
    assert forall b :: b in next.batches <==> b in s.batches || b == row;
    assert next.revisions[|s.revisions|].originalBatchId == target.id;
    assert forall i :: 0 <= i < |s.revisions| ==> next.revisions[i] == s.revisions[i];
    SupersededAppend(s, next);
    assert Known(next) == Known(posted);
    assert forall b :: InForce(next, b) <==> InForce(s, b) && b != target;
    StandingWithout(s, next, target);
  }

  lemma SupersededAppend(s: Ledger, next: Ledger)
    requires |next.revisions| == |s.revisions| + 1 && next.revisions[..|s.revisions|] == s.revisions
    ensures Superseded(next) == Superseded(s) + {next.revisions[|s.revisions|].originalBatchId}
  {
    assert forall i :: 0 <= i < |s.revisions| ==> next.revisions[i] == s.revisions[i];
  }

  lemma StandingWithout(s: Ledger, next: Ledger, target: BatchRow)
    requires Registered(s) && InForce(s, target)
    requires forall b :: InForce(next, b) <==> InForce(s, b) && b != target
    ensures Standing(next) == Standing(s) - {target.id}
  {
  }

  lemma CompensateKeepsBooks(s: Ledger, target: BatchRow, opts: ReverseOptions, replacement: Option<string>)
    requires Books(s) && InForce(s, target) && opts.reversalBatchId !in Known(s)
    ensures ReverseBatch(Original(s, target), opts).Ok?
    ensures Books(Compensate(s, target, ReverseBatch(Original(s, target), opts).value, replacement))
  {
    ReversalCancels(Original(s, target), opts);
    var reversal := ReverseBatch(Original(s, target), opts).value;
    var next := Compensate(s, target, reversal, replacement);
    var ps := PostingsOf(s.postings, target.id);
    NegatedPostable(ps);
    CompensateStanding(s, target, reversal, replacement);
    PostPostable(s, target.transactionId, reversal.batch, Some(target.id));
    PostBalanced(s, target.transactionId, reversal.batch, Some(target.id));
    CompensateReconciled(s, target, reversal, replacement);
  }

  lemma CompensateReconciled(s: Ledger, target: BatchRow, reversal: ReversalBatch, replacement: Option<string>)
    requires Registered(s) && Reconciled(s) && InForce(s, target)
    requires reversal.batch.batchId !in Known(s) && reversal.reverses == target.id
    requires reversal.batch.postings == Negated(PostingsOf(s.postings, target.id))
    ensures Reconciled(Compensate(s, target, reversal, replacement))
  {
    var next := Compensate(s, target, reversal, replacement);
    var kept := Standing(s) - {target.id};
    CompensateStanding(s, target, reversal, replacement);
    assert Standing(s) == kept + {target.id};
    assert reversal.batch.batchId !in kept;
    forall k ensures AccountBalance(next.postings, k) == BalanceIn(next.postings, Standing(next), k) {
      PostBalance(s, target.transactionId, reversal.batch, Some(target.id), kept, k);
      BalanceOfUnion(s.postings, kept, {target.id}, k);
      RowsOfOne(s.postings, target.id);
      NegatedRows(reversal.batch.batchId, target.id, PostingsOf(s.postings, target.id), k);
    }
  }

  // Steps.

  lemma WithStatusKeepsBooks(s: Ledger, transactionId: Option<string>, status: Status)
    requires Books(s)
    ensures var next := WithStatus(s, transactionId, status);
      && Books(next) && Known(next) == Known(s) && Standing(next) == Standing(s)
      && forall b :: InForce(next, b) <==> InForce(s, b)
  {
    var next := WithStatus(s, transactionId, status);
    assert forall b :: InForce(next, b) <==> InForce(s, b);
    assert Standing(next) == Standing(s);
    hide AccountBalance, RowsIn, CurrencyTotal, Postable;
  }

  /** Posting a batch for a transaction with none in force, and marking it live, leaves it with one. */
  lemma PostOneStanding(s: Ledger, t: Option<string>, batch: Batch, status: Status)
    requires Registered(s) && OneStanding(s) && batch.batchId !in Known(s) && status != Voided
    requires t.Some? ==> !HasStanding(s, t.value)
    ensures OneStanding(PostBatch(WithStatus(s, t, status), t, batch, None))
  {
    var next := PostBatch(WithStatus(s, t, status), t, batch, None);
    var row := next.batches[|s.batches|];
    assert forall b :: b in next.batches <==> b in s.batches || b == row;
    assert forall b :: InForce(next, b) ==> InForce(s, b) || b == row;
    assert forall id :: id in LiveTransactions(s) ==> id in LiveTransactions(next);
    forall b, b' | b in next.batches && b' in next.batches && InForce(next, b) && InForce(next, b')
        && b.transactionId.Some? && b.transactionId == b'.transactionId
      ensures b == b'
    {
      if b != row && b' != row {
        assert InForce(s, b) && InForce(s, b');
      }
    }
  }

  /** Taking the batch of a transaction out of force leaves it with none, so its status may change freely. */
  lemma CompensateOneStanding(s: Ledger, target: BatchRow, reversal: ReversalBatch, replacement: Option<string>,
                              status: Status)
    requires Registered(s) && OneStanding(s) && InForce(s, target)
    requires reversal.batch.batchId !in Known(s) && reversal.reverses == target.id
    ensures var next := WithStatus(Compensate(s, target, reversal, replacement), target.transactionId, status);
      OneStanding(next) && (target.transactionId.Some? ==> !HasStanding(next, target.transactionId.value))
  {
    CompensateStanding(s, target, reversal, replacement);
    var next := WithStatus(Compensate(s, target, reversal, replacement), target.transactionId, status);
    assert forall b :: InForce(next, b) <==> InForce(s, b) && b != target;
    hide Registered;
  }

  lemma RecordKeeps(s: Ledger, step: Step)
    requires Books(s) && OneStanding(s) && step.Record? && ApplyRecord(s, step).Ok?
    ensures Books(ApplyRecord(s, step).value) && OneStanding(ApplyRecord(s, step).value)
  {
    var marked := WithStatus(s, step.transactionId, StatusOf(step.pending));
    BuiltExactlyWhenPostable(step.input);
    WithStatusKeepsBooks(s, step.transactionId, StatusOf(step.pending));
    PostKeepsBooks(marked, step.transactionId, step.input);
    PostOneStanding(s, step.transactionId, step.input, StatusOf(step.pending));
  }

  lemma ReverseKeeps(s: Ledger, step: Step)
    requires Books(s) && OneStanding(s) && step.Reverse? && ApplyReverse(s, step).Ok?
    ensures Books(ApplyReverse(s, step).value) && OneStanding(ApplyReverse(s, step).value)
  {
    var target := Target(s, step.original).value;
    ReversalCancels(Original(s, target), step.opts);
    CompensateKeepsBooks(s, target, step.opts, None);
    var reversal := ReverseBatch(Original(s, target), step.opts).value;
    WithStatusKeepsBooks(Compensate(s, target, reversal, None), target.transactionId, Voided);
    CompensateOneStanding(s, target, reversal, None, Voided);
  }

  lemma ReviseKeeps(s: Ledger, step: Step)
    requires Books(s) && OneStanding(s) && step.Revise? && ApplyRevise(s, step).Ok?
    ensures Books(ApplyRevise(s, step).value) && OneStanding(ApplyRevise(s, step).value)
  {
    hide Books, OneStanding, Postable, Registered, Known, HasStanding, Compensate, BuiltBatch, ReverseBatch, InForce;
    var target := Target(s, step.original).value;
    var original, status := Original(s, target), StatusOf(step.pending);
    TargetInForce(s, step.original);
    ReversalCancels(original, step.opts);
    BuiltExactlyWhenPostable(step.replacement);
    CompensateKeepsBooks(s, target, step.opts, Some(step.replacement.batchId));
    BooksRegister(s);
    var reversal := ReverseBatch(original, step.opts).value;
    CompensateStanding(s, target, reversal, Some(step.replacement.batchId));
    var reversed := Compensate(s, target, reversal, Some(step.replacement.batchId));
    CompensateOneStanding(s, target, reversal, Some(step.replacement.batchId), status);
    ReplacementKeeps(reversed, target.transactionId, step.replacement, status);
  }

  lemma TargetInForce(s: Ledger, original: string)
    ensures Target(s, original).Ok? ==>
      InForce(s, Target(s, original).value) && Target(s, original).value.id == original
  {
  }

  lemma ReplacementKeeps(reversed: Ledger, t: Option<string>, batch: Batch, status: Status)
    requires Books(reversed) && OneStanding(WithStatus(reversed, t, status)) && status != Voided
    requires batch.batchId !in Known(reversed) && Postable(batch.postings)
    requires t.Some? ==> !HasStanding(WithStatus(reversed, t, status), t.value)
    ensures var next := PostBatch(WithStatus(reversed, t, status), t, batch, None); Books(next) && OneStanding(next)
  {
    var marked := WithStatus(reversed, t, status);
    WithStatusKeepsBooks(reversed, t, status);
    PostKeepsBooks(marked, t, batch);
    PostOneStanding(marked, t, batch, status);
    assert WithStatus(marked, t, status) == marked;
  }

  lemma {:induction false} RunKeepsBooks(steps: seq<Step>)
    ensures Books(Run(steps)) && OneStanding(Run(steps))
  {
    if steps == [] {
      EmptyBooks();
    } else {
      var s, step := Run(steps[..|steps| - 1]), steps[|steps| - 1];
      RunKeepsBooks(steps[..|steps| - 1]);
      if Apply(s, step).Ok? {
        match step
        case Record(_, _, _) => RecordKeeps(s, step);
        case Revise(_, _, _, _) => ReviseKeeps(s, step);
        case Reverse(_, _) => ReverseKeeps(s, step);
      }
    }
  }

  lemma EmptyBooks()
    ensures Books(EMPTY) && OneStanding(EMPTY)
  {
    assert Standing(EMPTY) == {};
  }

  /** The live view holds exactly the batches in force that belong to a transaction. */
  lemma LiveIsStandingLinked(s: Ledger)
    requires OneStanding(s) && Registered(s)
    ensures LiveIds(s) !! Openings(s) && LiveIds(s) + Openings(s) == Standing(s)
    ensures forall b :: b in CurrentLiveJournalBatches(s) <==> InForce(s, b) && b.transactionId.Some?
  {
    forall b ensures b in CurrentLiveJournalBatches(s) <==> InForce(s, b) && b.transactionId.Some? {
      FilterLiveExact(s.batches, LiveTransactions(s), Superseded(s), b);
    }
    hide OneStanding, CurrentLiveJournalBatches;
  }

  function LiveRows(s: Ledger): seq<PostingRow> {
    RowsIn(s.postings, LiveIds(s))
  }

  /** After any history, all postings balance to the live batches and the opening balances in force. */
  lemma HistoryBalancesToLive(steps: seq<Step>, k: LedgerKey)
    ensures var s := Run(steps);
      AccountBalance(s.postings, k) == AccountBalance(LiveRows(s), k) + BalanceIn(s.postings, Openings(s), k)
  {
    var s := Run(steps);
    RunKeepsBooks(steps);
    LiveIsStandingLinked(s);
    BalanceOfUnion(s.postings, LiveIds(s), Openings(s), k);
  }

  ghost predicate OpeningsNetToNothing(s: Ledger) {
    forall k :: BalanceIn(s.postings, Openings(s), k) == 0
  }

  /** The two trial balances have the same rows, rows of zero aside, exactly when opening balances net to nothing. */
  lemma TrialBalanceIsLive(steps: seq<Step>, full: seq<TrialRow>, live: seq<TrialRow>)
    requires IsTrialBalance(Run(steps).postings, full) && IsTrialBalance(LiveRows(Run(steps)), live)
    ensures OpeningsNetToNothing(Run(steps)) <==>
      forall row: TrialRow :: row.balanceMinor != 0 ==> (row in full <==> row in live)
  {
    var s := Run(steps);
    forall k
      ensures AccountBalance(s.postings, k) == AccountBalance(LiveRows(s), k) + BalanceIn(s.postings, Openings(s), k)
    {
      HistoryBalancesToLive(steps, k);
    }
    if OpeningsNetToNothing(s) {
      forall row: TrialRow | row.balanceMinor != 0 ensures row in full <==> row in live {
        SameBalancesSameRows(s.postings, LiveRows(s), full, live, row);
      }
    }
    if forall row: TrialRow :: row.balanceMinor != 0 ==> (row in full <==> row in live) {
      forall k ensures AccountBalance(s.postings, k) == AccountBalance(LiveRows(s), k) {
        SameRowsSameBalance(s.postings, LiveRows(s), full, live, k);
      }
    }
  }

  lemma SameRowsSameBalance(rows: seq<PostingRow>, others: seq<PostingRow>, balance: seq<TrialRow>,
                            other: seq<TrialRow>, k: LedgerKey)
    requires IsTrialBalance(rows, balance) && IsTrialBalance(others, other)
    requires forall row: TrialRow :: row.balanceMinor != 0 ==> (row in balance <==> row in other)
    ensures AccountBalance(rows, k) == AccountBalance(others, k)
  {
    RowOfBalance(rows, balance, k);
    RowOfBalance(others, other, k);
    var row, row' := TrialRow(k, AccountBalance(rows, k)), TrialRow(k, AccountBalance(others, k));
    hide Posts, AccountBalance;
    if row.balanceMinor != 0 {
      assert row in other;
    }
  }

  lemma RowOfBalance(rows: seq<PostingRow>, balance: seq<TrialRow>, k: LedgerKey)
    requires IsTrialBalance(rows, balance)
    ensures AccountBalance(rows, k) != 0 ==> TrialRow(k, AccountBalance(rows, k)) in balance
  {
    if AccountBalance(rows, k) != 0 {
      if !Posts(rows, k) {
        NoPostsNoBalance(rows, k);
      }
      var i :| 0 <= i < |balance| && balance[i].key == k;
      assert balance[i] == TrialRow(k, AccountBalance(rows, k));
    }
  }

  lemma {:induction false} RowsInValid(rows: seq<PostingRow>, ids: set<string>)
    requires AllValid(rows)
    ensures AllValid(RowsIn(rows, ids))
  {
    if rows != [] {
      RowsInValid(rows[..|rows| - 1], ids);
    }
  }

  /** Both trial balances, of all postings and of the live ones, sum to zero in every currency. */
  lemma TrialBalanceSumsToZero(steps: seq<Step>, full: seq<TrialRow>, live: seq<TrialRow>, currency: string)
    requires IsTrialBalance(Run(steps).postings, full) && IsTrialBalance(LiveRows(Run(steps)), live)
    ensures BalanceTotal(full, currency) == 0 == BalanceTotal(live, currency)
  {
    var s := Run(steps);
    RunKeepsBooks(steps);
    EveryRow(s.postings, Known(s));
    RowsInValid(s.postings, LiveIds(s));
    TrialBalanceLosesNothing(s.postings, full, currency);
    TrialBalanceLosesNothing(LiveRows(s), live, currency);
    assert CurrencyTotal(RowsIn(s.postings, Known(s)), currency) == 0;
    assert CurrencyTotal(RowsIn(s.postings, LiveIds(s)), currency) == 0;
  }

  predicate Linked(steps: seq<Step>) {
    forall i :: 0 <= i < |steps| && steps[i].Record? ==> steps[i].transactionId.Some?
  }

  /** Without opening balances, the ledger is its live batches. */
  lemma {:induction false} LinkedHistoryHasNoOpenings(steps: seq<Step>)
    requires Linked(steps)
    ensures forall b :: b in Run(steps).batches ==> b.transactionId.Some?
    ensures OpeningsNetToNothing(Run(steps))
  {
    if steps != [] {
      LinkedHistoryHasNoOpenings(steps[..|steps| - 1]);
      LinkedStep(Run(steps[..|steps| - 1]), steps[|steps| - 1]);
    }
    var s := Run(steps);
    hide Run, Apply;
    assert Openings(s) == {};
    forall k ensures BalanceIn(s.postings, {}, k) == 0 {
      NoneIn(s.postings);
    }
  }

  /** One opening balance on top of any such history takes the two trial balances apart. */
  lemma OpeningIsNotLive(steps: seq<Step>, pending: bool, opening: Batch, k: LedgerKey)
    requires Linked(steps) && opening.batchId !in Known(Run(steps)) && Postable(opening.postings)
    requires AccountBalance(RowsOf(opening.batchId, opening.postings), k) != 0
    ensures !OpeningsNetToNothing(Run(steps + [Record(None, pending, opening)]))
  {
    var s, step := Run(steps), Record(None, pending, opening);
    RunKeepsBooks(steps);
    LinkedHistoryHasNoOpenings(steps);
    BuiltExactlyWhenPostable(opening);
    assert (steps + [step])[..|steps|] == steps;
    var next := PostBatch(s, None, opening, None);
    assert Run(steps + [step]) == next;
    OpeningsAfter(s, opening);
    PostBalance(s, None, opening, None, {opening.batchId}, k);
    Unposted(s.postings, {opening.batchId}, Known(s));
    assert BalanceIn(next.postings, Openings(next), k) != 0;
  }

  lemma OpeningsAfter(s: Ledger, opening: Batch)
    requires Superseded(s) <= Known(s) && opening.batchId !in Known(s)
    requires forall b :: b in s.batches ==> b.transactionId.Some?
    ensures Openings(PostBatch(s, None, opening, None)) == {opening.batchId}
  {
    var next := PostBatch(s, None, opening, None);
    var row := next.batches[|s.batches|];
    assert forall b :: b in next.batches <==> b in s.batches || b == row;
    assert InForce(next, row);
  }

  /** An instance: a first opening balance of one unit of cash. */
  lemma FirstOpening()
    ensures var opening := Batch("opening", "Opening balance", "2024-01-01",
        [Posting("cash", Money(1, "USD")), Posting("equity", Money(-1, "USD"))]);
      !OpeningsNetToNothing(Run([Record(None, false, opening)]))
  {
    var cash, equity := Posting("cash", Money(1, "USD")), Posting("equity", Money(-1, "USD"));
    var opening := Batch("opening", "Opening balance", "2024-01-01", [cash, equity]);
    assert [cash, equity][..1] == [cash] && [cash][..0] == [];
    assert forall c :: Balance([cash], c) == (if c == "USD" then 1 else 0);
    assert forall c :: Balance([cash, equity], c) == Balance([cash], c) + (if c == "USD" then -1 else 0);
    assert Postable(opening.postings);
    var rows, k := RowsOf("opening", opening.postings), LedgerKey("cash", "USD");
    assert rows[..1][..0] == [];
    assert AccountBalance(rows[..1], k) == 1;
    assert AccountBalance(rows, k) == 1;
    OpeningIsNotLive([], false, opening, k);
    assert [] + [Record(None, false, opening)] == [Record(None, false, opening)];
  }

  lemma LinkedStep(s: Ledger, step: Step)
    requires forall b :: b in s.batches ==> b.transactionId.Some?
    requires step.Record? ==> step.transactionId.Some?
    ensures Apply(s, step).Ok? ==> forall b :: b in Apply(s, step).value.batches ==> b.transactionId.Some?
  {
    hide BuiltBatch, ReverseBatch, ReviseBatch, Known, HasStanding, PostingsOf;
  }

  lemma {:induction false} NoneIn(rows: seq<PostingRow>)
    ensures RowsIn(rows, {}) == []
  {
    if rows != [] {
      NoneIn(rows[..|rows| - 1]);
    }
  }

  /** The reversal of a batch in force can be booked, and its revision row takes it alone out of force. */
  lemma TakenOutOfForce(s: Ledger, target: BatchRow, opts: ReverseOptions, replacement: Option<string>)
    requires Books(s) && InForce(s, target) && opts.reversalBatchId !in Known(s)
    ensures Target(s, target.id) == Ok(target) && ReverseBatch(Original(s, target), opts).Ok?
    ensures var next := Compensate(s, target, ReverseBatch(Original(s, target), opts).value, replacement);
      && Books(next) && Standing(next) == Standing(s) - {target.id} && Known(next) == Known(s) + {opts.reversalBatchId}
      && next.revisions == s.revisions + [RevisionRow(target.id, opts.reversalBatchId, replacement)]
      && next.transactions == s.transactions
  {
    assert Target(s, target.id) == Ok(target);
    CompensateKeepsBooks(s, target, opts, replacement);
    ReversalCancels(Original(s, target), opts);
    hide InForce, Books, Known, ReverseBatch, Standing, FindBatch, BatchesPostable, Balanced, Reconciled;
    assert Registered(s);
    CompensateStanding(s, target, ReverseBatch(Original(s, target), opts).value, replacement);
  }

  /** A batch in force can always be reversed; its transaction is then voided and has no live batch. */
  lemma StandingCanBeReversed(steps: seq<Step>, target: BatchRow, opts: ReverseOptions)
    requires InForce(Run(steps), target) && opts.reversalBatchId !in Known(Run(steps))
    ensures var s, r := Run(steps), Apply(Run(steps), Reverse(target.id, opts));
      && r.Ok? && Standing(r.value) == Standing(s) - {target.id}
      && r.value.revisions == s.revisions + [RevisionRow(target.id, opts.reversalBatchId, None)]
      && (target.transactionId.Some? ==>
          r.value.transactions == s.transactions[target.transactionId.value := Voided]
          && forall b :: b in CurrentLiveJournalBatches(r.value) ==> b.transactionId != target.transactionId)
  {
    hide *;
    var s := Run(steps);
    RunKeepsBooks(steps);
    TakenOutOfForce(s, target, opts, None);
    ReverseOutcome(s, target, opts);
    var reversal := ReverseBatch(Original(s, target), opts).value;
    var reversed := Compensate(s, target, reversal, None);
    WithStatusKeepsBooks(reversed, target.transactionId, Voided);
    VoidedIsNotLive(WithStatus(reversed, target.transactionId, Voided), target.transactionId);
  }

  lemma ReverseOutcome(s: Ledger, target: BatchRow, opts: ReverseOptions)
    requires Target(s, target.id) == Ok(target) && opts.reversalBatchId !in Known(s)
    requires ReverseBatch(Original(s, target), opts).Ok?
    ensures var reversed := Compensate(s, target, ReverseBatch(Original(s, target), opts).value, None);
      var next := WithStatus(reversed, target.transactionId, Voided);
      && Apply(s, Reverse(target.id, opts)) == Ok(next)
      && next.revisions == reversed.revisions
      && (target.transactionId.Some? ==>
        next.transactions == reversed.transactions[target.transactionId.value := Voided])
  {
    hide Target, ReverseBatch, Known, Original, Compensate;
  }

  /** A batch in force can be revised with any postable replacement, which alone takes its place. */
  lemma StandingCanBeRevised(steps: seq<Step>, target: BatchRow, opts: ReverseOptions, replacement: Batch,
                             pending: bool)
    requires InForce(Run(steps), target) && Postable(replacement.postings)
    requires opts.reversalBatchId !in Known(Run(steps)) && replacement.batchId !in Known(Run(steps))
    requires opts.reversalBatchId != replacement.batchId
    ensures var s, r := Run(steps), Apply(Run(steps), Revise(target.id, opts, replacement, pending));
      && r.Ok? && Standing(r.value) == Standing(s) - {target.id} + {replacement.batchId}
      && r.value.revisions == s.revisions + [RevisionRow(target.id, opts.reversalBatchId, Some(replacement.batchId))]
      && (target.transactionId.Some? ==>
           r.value.transactions == s.transactions[target.transactionId.value := if pending then Pending else Posted])
  {
    hide *;
    var s := Run(steps);
    RunKeepsBooks(steps);
    TakenOutOfForce(s, target, opts, Some(replacement.batchId));
    BuiltExactlyWhenPostable(replacement);
    ReviseOutcome(s, target, opts, replacement, pending);
    var reversal := ReverseBatch(Original(s, target), opts).value;
    var reversed := Compensate(s, target, reversal, Some(replacement.batchId));
    WithStatusKeepsBooks(reversed, target.transactionId, StatusOf(pending));
    var marked := WithStatus(reversed, target.transactionId, StatusOf(pending));
    BooksRegister(marked);
    PostStanding(marked, target.transactionId, replacement);
  }

  function Marked(transactions: map<string, Status>, transactionId: Option<string>,
                  pending: bool): map<string, Status> {
    match transactionId
    case Some(id) => transactions[id := if pending then Pending else Posted]
    case None => transactions
  }

  /** Recording adds the batch as given, in force, and marks its transaction pending or posted. */
  lemma RecordedAsGiven(s: Ledger, transactionId: Option<string>, pending: bool, input: Batch)
    ensures Apply(s, Record(transactionId, pending, input)).Ok? <==>
      && input.batchId !in Known(s) && Postable(input.postings)
      && (transactionId.Some? ==> !HasStanding(s, transactionId.value))
    ensures var r := Apply(s, Record(transactionId, pending, input));
      r.Ok? ==>
        && r.value.batches ==
           s.batches + [BatchRow(input.batchId, transactionId, input.description, input.effectiveDate, None)]
        && |r.value.postings| == |s.postings| + |input.postings| && r.value.revisions == s.revisions
        && r.value.transactions == Marked(s.transactions, transactionId, pending)
  {
    hide Known, HasStanding, Postable;
    BuiltExactlyWhenPostable(input);
  }

  lemma BooksRegister(s: Ledger)
    requires Books(s)
    ensures Registered(s)
  {
  }

  lemma ReviseOutcome(s: Ledger, target: BatchRow, opts: ReverseOptions, replacement: Batch, pending: bool)
    requires Target(s, target.id) == Ok(target) && BuiltBatch(replacement) == Ok(replacement)
    requires opts.reversalBatchId !in Known(s) && replacement.batchId !in Known(s)
    requires opts.reversalBatchId != replacement.batchId && ReverseBatch(Original(s, target), opts).Ok?
    ensures var reversed := Compensate(s, target, ReverseBatch(Original(s, target), opts).value,
      Some(replacement.batchId));
      var next := PostBatch(WithStatus(reversed, target.transactionId, StatusOf(pending)), target.transactionId,
        replacement, None);
      && Apply(s, Revise(target.id, opts, replacement, pending)) == Ok(next)
      && next.revisions == reversed.revisions
      && (target.transactionId.Some? ==>
           next.transactions ==
             reversed.transactions[target.transactionId.value := if pending then Pending else Posted])
  {
    hide Target, BuiltBatch, ReverseBatch, Known, Original, Compensate;
  }

  lemma VoidedIsNotLive(s: Ledger, t: Option<string>)
    ensures t.Some? && t.value in s.transactions && s.transactions[t.value] == Voided ==>
      forall b :: b in CurrentLiveJournalBatches(s) ==> b.transactionId != t
  {
    forall b | b in CurrentLiveJournalBatches(s)
      ensures b.transactionId.Some? && b.transactionId.value in LiveTransactions(s)
    {
      FilterLiveExact(s.batches, LiveTransactions(s), Superseded(s), b);
    }
  }
}

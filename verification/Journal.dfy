/** Balanced journal batches, their reversals and their revisions. */
module Journal {
  import opened Wrappers
  import opened Allocation

  datatype Posting = Posting(ledgerAccountId: string, money: Money)

  datatype Batch = Batch(batchId: string, description: string, effectiveDate: string, postings: seq<Posting>)

  datatype ReversalBatch = ReversalBatch(batch: Batch, reverses: string)

  datatype ReverseOptions = ReverseOptions(reversalBatchId: string, reason: string)

  /** The sum of the amounts posted in one currency. */
  function Balance(postings: seq<Posting>, currency: string): int {
    if postings == [] then 0
    else
      var n := |postings| - 1;
      Balance(postings[..n], currency)
      + if postings[n].money.currency == currency then postings[n].money.amountMinor else 0
  }

  /** What double entry asks of a batch. */
  ghost predicate Postable(postings: seq<Posting>) {
    && |postings| >= 2
    && (forall i :: 0 <= i < |postings| ==> postings[i].money.amountMinor != 0)
    && (forall c :: Balance(postings, c) == 0)
  }

  // The currencies of a batch in the order they first appear, as an insertion-ordered map keeps them.
  function Currencies(postings: seq<Posting>): seq<string> {
    if postings == [] then []
    else
      var before, c := Currencies(postings[..|postings| - 1]), postings[|postings| - 1].money.currency;
      if c in before then before else before + [c]
  }

  function FirstUnbalanced(currencies: seq<string>, postings: seq<Posting>): Option<string> {
    if currencies == [] then None
    else if Balance(postings, currencies[0]) != 0 then Some(currencies[0])
    else FirstUnbalanced(currencies[1..], postings)
  }

  function BuiltBatch(input: Batch): Result<Batch, MoneyError> {
    if |input.postings| < 2 then Err(InvalidMoney)
    else if exists i :: 0 <= i < |input.postings| && input.postings[i].money.amountMinor == 0 then Err(InvalidMoney)
    else
      match FirstUnbalanced(Currencies(input.postings), input.postings)
      case Some(c) => Err(UnbalancedBatch(c, Balance(input.postings, c)))
      case None => Ok(input)
  }

  lemma {:induction false} CurrenciesComplete(postings: seq<Posting>)
    ensures forall i :: 0 <= i < |postings| ==> postings[i].money.currency in Currencies(postings)
  {
    if postings != [] {
      var n := |postings| - 1;
      CurrenciesComplete(postings[..n]);
      assert forall i :: 0 <= i < n ==> postings[i] == postings[..n][i];
    }
  }

  lemma {:induction false} AbsentCurrency(postings: seq<Posting>, c: string)
    requires c !in Currencies(postings)
    ensures Balance(postings, c) == 0
  {
    if postings != [] {
      AbsentCurrency(postings[..|postings| - 1], c);
    }
  }

  lemma {:induction false} FirstUnbalancedMeans(currencies: seq<string>, postings: seq<Posting>)
    ensures match FirstUnbalanced(currencies, postings)
      case None => forall c :: c in currencies ==> Balance(postings, c) == 0
      case Some(c) => c in currencies && Balance(postings, c) != 0
  {
    if currencies != [] {
      FirstUnbalancedMeans(currencies[1..], postings);
    }
  }

  /** A batch is built exactly when it has two or more postings, none zero, and balances in every currency. */
  lemma BuiltExactlyWhenPostable(input: Batch)
    ensures BuiltBatch(input).Ok? <==> Postable(input.postings)
    ensures BuiltBatch(input).Ok? ==> BuiltBatch(input).value == input
    ensures BuiltBatch(input).Err? && BuiltBatch(input).error.UnbalancedBatch? ==>
      BuiltBatch(input).error.delta == Balance(input.postings, BuiltBatch(input).error.currency) != 0
  {
    var ps := input.postings;
    FirstUnbalancedMeans(Currencies(ps), ps);
    if FirstUnbalanced(Currencies(ps), ps).None? {
      forall c ensures Balance(ps, c) == 0 {
        if c !in Currencies(ps) {
          AbsentCurrency(ps, c);
        }
      }
    }
  }

  ghost predicate Accumulated(balances: map<string, int>, currencies: seq<string>, postings: seq<Posting>) {
    && currencies == Currencies(postings)
    && (forall c :: c in balances <==> c in currencies)
    && (forall c :: c in balances ==> balances[c] == Balance(postings, c))
  }

  lemma AccumulateOne(balances: map<string, int>, currencies: seq<string>, postings: seq<Posting>, n: nat)
    requires n < |postings| && Accumulated(balances, currencies, postings[..n])
    ensures var p := postings[n].money;
      Accumulated(
        balances[p.currency := (if p.currency in balances then balances[p.currency] else 0) + p.amountMinor],
        if p.currency in balances then currencies else currencies + [p.currency], postings[..n + 1])
  {
    assert postings[..n + 1][..n] == postings[..n];
    if postings[n].money.currency !in balances {
      AbsentCurrency(postings[..n], postings[n].money.currency);
    }
  }

  /** The balance of every currency, or none when a posting is zero. */
  method CurrencyBalances(ps: seq<Posting>) returns (r: Option<map<string, int>>, currencies: seq<string>)
    ensures r.None? <==> exists i :: 0 <= i < |ps| && ps[i].money.amountMinor == 0
    ensures r.Some? ==> Accumulated(r.value, currencies, ps)
  {
    hide Accumulated;
    var balances: map<string, int> := map[];
    currencies := [];
    Nothing();
    assert ps[..0] == [];
    for n := 0 to |ps|
      invariant forall i :: 0 <= i < n ==> ps[i].money.amountMinor != 0
      invariant Accumulated(balances, currencies, ps[..n])
    {
      var p := ps[n].money;
      if p.amountMinor == 0 {
        return None, [];
      }
      AccumulateOne(balances, currencies, ps, n);
      if p.currency !in balances {
        currencies := currencies + [p.currency];
      }
      balances := balances[p.currency := (if p.currency in balances then balances[p.currency] else 0) + p.amountMinor];
    }
    assert ps[..|ps|] == ps;
    return Some(balances), currencies;
  }

  method BuildBatch(input: Batch) returns (r: Result<Batch, MoneyError>)
    ensures r == BuiltBatch(input)
    ensures r.Ok? <==> Postable(input.postings)
  {
    BuiltExactlyWhenPostable(input);
    hide Balance, Currencies, Postable;
    var ps := input.postings;
    if |ps| < 2 {
      return Err(InvalidMoney);
    }
    var sums, currencies := CurrencyBalances(ps);
    if sums.None? {
      return Err(InvalidMoney);
    }
    var balances := sums.value;
    for k := 0 to |currencies|
      invariant FirstUnbalanced(currencies, ps) == FirstUnbalanced(currencies[k..], ps)
    {
      if balances[currencies[k]] != 0 {
        return Err(UnbalancedBatch(currencies[k], balances[currencies[k]]));
      }
      assert currencies[k..][1..] == currencies[k + 1..];
    }
    return Ok(input);
  }

  lemma Nothing()
    ensures Accumulated(map[], [], [])
  {
  }

  /** The sum of the amounts posted to one ledger account in one currency. */
  function PostedTo(postings: seq<Posting>, ledgerAccountId: string, currency: string): int {
    if postings == [] then 0
    else
      var n := |postings| - 1;
      PostedTo(postings[..n], ledgerAccountId, currency)
      + if postings[n].ledgerAccountId == ledgerAccountId && postings[n].money.currency == currency
        then postings[n].money.amountMinor else 0
  }

  /** A posting counts with its amount in its own account and currency, and nowhere else. */
  lemma PostedToOne(p: Posting, a: string, c: string)
    ensures PostedTo([p], a, c) == if p.ledgerAccountId == a && p.money.currency == c then p.money.amountMinor else 0
  {
    assert [p][..0] == [];
  }

  // Reversals.

  function NegateMoney(m: Money): Money {
    Money(-m.amountMinor, m.currency)
  }

  function Negated(postings: seq<Posting>): (r: seq<Posting>)
    ensures |r| == |postings|
    ensures forall i :: 0 <= i < |postings| ==>
      r[i] == Posting(postings[i].ledgerAccountId, NegateMoney(postings[i].money))
  {
    seq(|postings|, i requires 0 <= i < |postings| =>
      Posting(postings[i].ledgerAccountId, NegateMoney(postings[i].money)))
  }

  function ReverseBatch(original: Batch, opts: ReverseOptions): Result<ReversalBatch, MoneyError> {
    var reversal :- BuiltBatch(Batch(
      opts.reversalBatchId,
      "Reversal of " + original.description + ": " + opts.reason,
      original.effectiveDate,
      Negated(original.postings)));
    Ok(ReversalBatch(reversal, original.batchId))
  }

  datatype Revision = Revision(reversal: ReversalBatch, replacement: Batch)

  function ReviseBatch(original: Batch, opts: ReverseOptions, replacement: Batch): Result<Revision, MoneyError> {
    var reversal :- ReverseBatch(original, opts);
    var built :- BuiltBatch(replacement);
    Ok(Revision(reversal, built))
  }

  lemma {:induction false} NegatedBalance(postings: seq<Posting>, c: string)
    ensures Balance(Negated(postings), c) == -Balance(postings, c)
  {
    if postings != [] {
      var n := |postings| - 1;
      NegatedBalance(postings[..n], c);
      assert Negated(postings)[..n] == Negated(postings[..n]);
    }
  }

  lemma NegatedPostable(postings: seq<Posting>)
    ensures Postable(Negated(postings)) <==> Postable(postings)
  {
    forall c ensures Balance(Negated(postings), c) == -Balance(postings, c) {
      NegatedBalance(postings, c);
    }
    assert forall i :: 0 <= i < |postings| ==>
      Negated(postings)[i].money.amountMinor == -postings[i].money.amountMinor;
  }

  lemma {:induction false} NegatedPosted(postings: seq<Posting>, a: string, c: string)
    ensures PostedTo(Negated(postings), a, c) == -PostedTo(postings, a, c)
  {
    if postings != [] {
      var n := |postings| - 1;
      NegatedPosted(postings[..n], a, c);
      assert Negated(postings)[..n] == Negated(postings[..n]);
    }
  }

  lemma {:induction false} PostedAppend(x: seq<Posting>, y: seq<Posting>, a: string, c: string)
    ensures PostedTo(x + y, a, c) == PostedTo(x, a, c) + PostedTo(y, a, c)
  {
    if y == [] {
      assert x + y == x;
    } else {
      var n := |y| - 1;
      PostedAppend(x, y[..n], a, c);
      assert (x + y)[..|x| + n] == x + y[..n];
    }
  }

  /** A reversal fails only for a batch that could not have been built, and cancels it account by account. */
  lemma ReversalCancels(original: Batch, opts: ReverseOptions)
    ensures ReverseBatch(original, opts).Ok? <==> Postable(original.postings)
    ensures ReverseBatch(original, opts).Ok? ==>
      var r := ReverseBatch(original, opts).value;
      && r.reverses == original.batchId && r.batch.batchId == opts.reversalBatchId
      && r.batch.effectiveDate == original.effectiveDate
      && r.batch.description == "Reversal of " + original.description + ": " + opts.reason
      && r.batch.postings == Negated(original.postings)
      && forall a, c :: PostedTo(original.postings + r.batch.postings, a, c) == 0
  {
    var input := Batch(opts.reversalBatchId, "Reversal of " + original.description + ": " + opts.reason,
      original.effectiveDate, Negated(original.postings));
    BuiltExactlyWhenPostable(input);
    NegatedPostable(original.postings);
    forall a, c ensures PostedTo(original.postings + Negated(original.postings), a, c) == 0 {
      NegatedPosted(original.postings, a, c);
      PostedAppend(original.postings, Negated(original.postings), a, c);
    }
  }

  lemma {:induction false} BalanceAppend(a: seq<Posting>, b: seq<Posting>, c: string)
    ensures Balance(a + b, c) == Balance(a, c) + Balance(b, c)
  {
    if b == [] {
      assert a + b == a;
    } else {
      var n := |b| - 1;
      BalanceAppend(a, b[..n], c);
      assert (a + b)[..|a| + n] == a + b[..n];
    }
  }

  /** Reversing a reversal posts the original amounts again. */
  lemma ReversalOfReversal(original: Batch, opts: ReverseOptions, again: ReverseOptions)
    requires Postable(original.postings)
    ensures ReverseBatch(original, opts).Ok?
    ensures var undone := ReverseBatch(ReverseBatch(original, opts).value.batch, again);
      undone.Ok? && undone.value.batch.postings == original.postings && undone.value.reverses == opts.reversalBatchId
  {
    ReversalCancels(original, opts);
    NegatedPostable(original.postings);
    ReversalCancels(ReverseBatch(original, opts).value.batch, again);
    assert Negated(Negated(original.postings)) == original.postings;
  }

  /**
   * A revision of a built batch fails only for an unpostable replacement; account by account the three net
   * to the replacement.
   */
  lemma RevisionNetsToReplacement(original: Batch, opts: ReverseOptions, replacement: Batch)
    requires Postable(original.postings)
    ensures ReviseBatch(original, opts, replacement).Ok? <==> Postable(replacement.postings)
    ensures ReviseBatch(original, opts, replacement).Ok? ==>
      var r := ReviseBatch(original, opts, replacement).value;
      && r.replacement == replacement && r.reversal.reverses == original.batchId
      && r.reversal.batch.postings == Negated(original.postings)
      && forall a, c ::
        PostedTo(original.postings + r.reversal.batch.postings + r.replacement.postings, a, c) ==
          PostedTo(replacement.postings, a, c)
  {
    ReversalCancels(original, opts);
    BuiltExactlyWhenPostable(replacement);
    forall a, c
      ensures PostedTo(original.postings + Negated(original.postings) + replacement.postings, a, c) ==
        PostedTo(replacement.postings, a, c)
    {
      PostedAppend(original.postings + Negated(original.postings), replacement.postings, a, c);
      NegatedPosted(original.postings, a, c);
      PostedAppend(original.postings, Negated(original.postings), a, c);
    }
  }
}

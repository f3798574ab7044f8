/** The trial balance rebuilt from exported postings. */
module TrialBalance {
  import opened Wrappers
  import opened Sorting

  datatype LedgerKey = LedgerKey(ledgerAccountId: string, currency: string)

  datatype PostingRow = PostingRow(
    batchId: string, ledgerAccountId: Option<string>, currency: Option<string>, amountMinor: Option<int>)
  {
    predicate Valid() {
      ledgerAccountId.Some? && currency.Some? && amountMinor.Some?
    }

    function Key(): LedgerKey
      requires Valid()
    {
      LedgerKey(ledgerAccountId.value, currency.value)
    }
  }

  datatype TrialRow = TrialRow(key: LedgerKey, balanceMinor: int)

  datatype ExportError = InvalidPosting

  predicate AllValid(rows: seq<PostingRow>) {
    forall i :: 0 <= i < |rows| ==> rows[i].Valid()
  }

  // The amount a row posts to an account.
  function Amount(row: PostingRow, key: LedgerKey): int {
    if row.Valid() && row.Key() == key then row.amountMinor.value else 0
  }

  function AccountBalance(rows: seq<PostingRow>, key: LedgerKey): int {
    if rows == [] then 0 else AccountBalance(rows[..|rows| - 1], key) + Amount(rows[|rows| - 1], key)
  }

  function CurrencyAmount(row: PostingRow, currency: string): int {
    if row.Valid() && row.currency.value == currency then row.amountMinor.value else 0
  }

  function CurrencyTotal(rows: seq<PostingRow>, currency: string): int {
    if rows == [] then 0
    else CurrencyTotal(rows[..|rows| - 1], currency) + CurrencyAmount(rows[|rows| - 1], currency)
  }

  ghost predicate Posts(rows: seq<PostingRow>, key: LedgerKey) {
    exists i :: 0 <= i < |rows| && rows[i].Valid() && rows[i].Key() == key
  }

  /** One row per account and currency posted to, each with its exact balance. */
  ghost predicate IsTrialBalance(rows: seq<PostingRow>, balance: seq<TrialRow>) {
    && (forall i, j :: 0 <= i < j < |balance| ==> balance[i].key != balance[j].key)
    && (forall i :: 0 <= i < |balance| ==> Posts(rows, balance[i].key))
    && (forall i :: 0 <= i < |balance| ==> balance[i].balanceMinor == AccountBalance(rows, balance[i].key))
    && (forall key :: Posts(rows, key) ==> exists i :: 0 <= i < |balance| && balance[i].key == key)
  }

  ghost predicate Totalled(rows: seq<PostingRow>, totals: map<LedgerKey, int>, keys: seq<LedgerKey>) {
    && Distinct(keys)
    && (forall k :: k in totals <==> k in keys)
    && (forall k :: k in totals <==> Posts(rows, k))
    && (forall k :: k in totals ==> totals[k] == AccountBalance(rows, k))
  }

  lemma {:induction false} NoPostsNoBalance(rows: seq<PostingRow>, key: LedgerKey)
    requires !Posts(rows, key)
    ensures AccountBalance(rows, key) == 0
  {
    if rows != [] {
      var init := rows[..|rows| - 1];
      assert forall i :: 0 <= i < |init| ==> init[i] == rows[i];
      NoPostsNoBalance(init, key);
    }
  }

  lemma PostsOneMore(rows: seq<PostingRow>, n: nat, key: LedgerKey)
    requires n < |rows| && rows[n].Valid()
    ensures Posts(rows[..n + 1], key) <==> Posts(rows[..n], key) || rows[n].Key() == key
  {
    var longer, shorter := rows[..n + 1], rows[..n];
    assert forall i :: 0 <= i < n ==> longer[i] == shorter[i];
    assert longer[n] == rows[n];
  }

  lemma TotalOne(rows: seq<PostingRow>, totals: map<LedgerKey, int>, keys: seq<LedgerKey>, n: nat)
    requires n < |rows| && rows[n].Valid() && Totalled(rows[..n], totals, keys)
    ensures var key := rows[n].Key();
      Totalled(rows[..n + 1],
        totals[key := (if key in totals then totals[key] else 0) + rows[n].amountMinor.value],
        if key in totals then keys else keys + [key])
  {
    var key := rows[n].Key();
    assert rows[..n + 1][..n] == rows[..n];
    if key !in totals {
      NoPostsNoBalance(rows[..n], key);
    }
    forall k ensures Posts(rows[..n + 1], k) <==> Posts(rows[..n], k) || key == k {
      PostsOneMore(rows, n, k);
    }
    hide Posts;
  }

  lemma Untotalled()
    ensures Totalled([], map[], [])
  {
  }

  method AccountTotals(rows: seq<PostingRow>) returns (r: Option<map<LedgerKey, int>>, keys: seq<LedgerKey>)
    ensures r.Some? <==> AllValid(rows)
    ensures r.Some? ==> Totalled(rows, r.value, keys)
  {
    hide Totalled;
    var totals: map<LedgerKey, int> := map[];
    keys := [];
    Untotalled();
    assert rows[..0] == [];
    for n := 0 to |rows|
      invariant AllValid(rows[..n])
      invariant Totalled(rows[..n], totals, keys)
    {
      if !rows[n].Valid() {
        return None, [];
      }
      var key := rows[n].Key();
      TotalOne(rows, totals, keys, n);
      if key !in totals {
        keys := keys + [key];
      }
      totals := totals[key := (if key in totals then totals[key] else 0) + rows[n].amountMinor.value];
    }
    assert rows[..|rows|] == rows;
    return Some(totals), keys;
  }

  /** Sorted by the given collation, the balance has a row for each account and currency, and is exact. */
  method ReconstructTrialBalance(rows: seq<PostingRow>, le: (TrialRow, TrialRow) -> bool)
    returns (r: Result<seq<TrialRow>, ExportError>)
    requires TotalPreorder(le)
    ensures r.Ok? <==> AllValid(rows)
    ensures r.Ok? ==> IsTrialBalance(rows, r.value) && SortedBy(r.value, le)
  {
    var found, keys := AccountTotals(rows);
    if found.None? {
      return Err(InvalidPosting);
    }
    var totals := found.value;
    var balance := seq(|keys|, i requires 0 <= i < |keys| && keys[i] in totals => TrialRow(keys[i], totals[keys[i]]));
    TotalsBalance(rows, totals, keys, balance);
    SortSorts(balance, le);
    SortedBalance(rows, balance, le);
    return Ok(Sort(balance, le));
  }

  lemma TotalsBalance(rows: seq<PostingRow>, totals: map<LedgerKey, int>, keys: seq<LedgerKey>, balance: seq<TrialRow>)
    requires Totalled(rows, totals, keys) && |balance| == |keys|
    requires forall i :: 0 <= i < |keys| ==> keys[i] in totals && balance[i] == TrialRow(keys[i], totals[keys[i]])
    ensures IsTrialBalance(rows, balance)
  {
    hide Posts, AccountBalance;
    forall i | 0 <= i < |keys| ensures balance[i].key == keys[i] && keys[i] in totals {}
    forall key | Posts(rows, key) ensures exists i :: 0 <= i < |balance| && balance[i].key == key {
      assert key in keys;
      var i :| 0 <= i < |keys| && keys[i] == key;
      assert balance[i].key == key;
    }
  }

  /** Two rows of a balance with one key are the same row: sorting keeps the balance. */
  lemma SortedBalance(rows: seq<PostingRow>, balance: seq<TrialRow>, le: (TrialRow, TrialRow) -> bool)
    requires IsTrialBalance(rows, balance)
    ensures IsTrialBalance(rows, Sort(balance, le))
  {
    var sorted := Sort(balance, le);
    SameElements(balance, le);
    SortDistinct(balance, le);
    hide Posts, AccountBalance, Sort;
    forall i | 0 <= i < |sorted|
      ensures Posts(rows, sorted[i].key) && sorted[i].balanceMinor == AccountBalance(rows, sorted[i].key)
    {
      assert sorted[i] in balance;
    }
    forall i, j | 0 <= i < j < |sorted| ensures sorted[i].key != sorted[j].key {
      assert sorted[i] in balance && sorted[j] in balance && sorted[i] != sorted[j];
    }
    forall key | Posts(rows, key) ensures exists i :: 0 <= i < |sorted| && sorted[i].key == key {
      var i :| 0 <= i < |balance| && balance[i].key == key;
      assert balance[i] in sorted;
    }
  }

  // What a trial balance adds up to.

  function BalanceTotal(balance: seq<TrialRow>, currency: string): int {
    if balance == [] then 0
    else
      var n := |balance| - 1;
      BalanceTotal(balance[..n], currency)
      + if balance[n].key.currency == currency then balance[n].balanceMinor else 0
  }

  function KeysTotal(rows: seq<PostingRow>, keys: seq<LedgerKey>, currency: string): int {
    if keys == [] then 0
    else
      var n := |keys| - 1;
      KeysTotal(rows, keys[..n], currency) + if keys[n].currency == currency then AccountBalance(rows, keys[n]) else 0
  }

  /** A posting reaches the total of a currency through the one key it is posted under. */
  lemma {:induction false} KeysTotalStep(rows: seq<PostingRow>, keys: seq<LedgerKey>, currency: string)
    requires rows != [] && AllValid(rows) && Distinct(keys)
    ensures KeysTotal(rows, keys, currency) == KeysTotal(rows[..|rows| - 1], keys, currency)
      + if rows[|rows| - 1].Key() in keys then CurrencyAmount(rows[|rows| - 1], currency) else 0
  {
    if keys != [] {
      var n := |keys| - 1;
      KeysTotalStep(rows, keys[..n], currency);
      assert keys == keys[..n] + [keys[n]];
      assert keys[n] !in keys[..n];
    }
  }

  lemma {:induction false} KeysTotalIsCurrencyTotal(rows: seq<PostingRow>, keys: seq<LedgerKey>, currency: string)
    requires AllValid(rows) && Distinct(keys) && forall i :: 0 <= i < |rows| ==> rows[i].Key() in keys
    ensures KeysTotal(rows, keys, currency) == CurrencyTotal(rows, currency)
  {
    if rows == [] {
      NothingPosted(keys, currency);
    } else {
      KeysTotalIsCurrencyTotal(rows[..|rows| - 1], keys, currency);
      KeysTotalStep(rows, keys, currency);
    }
  }

  lemma {:induction false} NothingPosted(keys: seq<LedgerKey>, currency: string)
    ensures KeysTotal([], keys, currency) == 0
  {
    if keys != [] {
      NothingPosted(keys[..|keys| - 1], currency);
    }
  }

  lemma {:induction false} BalanceTotalIsKeysTotal(rows: seq<PostingRow>, balance: seq<TrialRow>, keys: seq<LedgerKey>,
                                                   currency: string)
    requires |keys| == |balance|
    requires forall i :: 0 <= i < |keys| ==> balance[i] == TrialRow(keys[i], AccountBalance(rows, keys[i]))
    ensures BalanceTotal(balance, currency) == KeysTotal(rows, keys, currency)
  {
    if keys != [] {
      var n := |keys| - 1;
      BalanceTotalIsKeysTotal(rows, balance[..n], keys[..n], currency);
    }
  }

  /** The rows of a trial balance add up, in each currency, to everything posted in it. */
  lemma TrialBalanceLosesNothing(rows: seq<PostingRow>, balance: seq<TrialRow>, currency: string)
    requires AllValid(rows) && IsTrialBalance(rows, balance)
    ensures BalanceTotal(balance, currency) == CurrencyTotal(rows, currency)
  {
    var keys := seq(|balance|, i requires 0 <= i < |balance| => balance[i].key);
    forall i | 0 <= i < |rows| ensures rows[i].Key() in keys {
      assert Posts(rows, rows[i].Key());
      var k :| 0 <= k < |balance| && balance[k].key == rows[i].Key();
      assert keys[k] == rows[i].Key();
    }
    BalanceTotalIsKeysTotal(rows, balance, keys, currency);
    KeysTotalIsCurrencyTotal(rows, keys, currency);
  }

  /** Sets of postings with the same account balances give the same rows, but for rows of zero. */
  lemma SameBalancesSameRows(rows: seq<PostingRow>, others: seq<PostingRow>,
      balance: seq<TrialRow>, other: seq<TrialRow>, row: TrialRow)
    requires IsTrialBalance(rows, balance) && IsTrialBalance(others, other)
    requires forall key :: AccountBalance(rows, key) == AccountBalance(others, key)
    requires row.balanceMinor != 0
    ensures row in balance <==> row in other
  {
    SameRowsOneWay(rows, others, balance, other, row);
    SameRowsOneWay(others, rows, other, balance, row);
  }

  lemma SameRowsOneWay(rows: seq<PostingRow>, others: seq<PostingRow>,
      balance: seq<TrialRow>, other: seq<TrialRow>, row: TrialRow)
    requires IsTrialBalance(rows, balance) && IsTrialBalance(others, other)
    requires AccountBalance(rows, row.key) == AccountBalance(others, row.key)
    requires row.balanceMinor != 0
    ensures row in balance ==> row in other
  {
    if row in balance {
      if !Posts(others, row.key) {
        NoPostsNoBalance(others, row.key);
      }
      hide Posts, AccountBalance;
      var i :| 0 <= i < |other| && other[i].key == row.key;
      assert other[i] == row;
    }
  }
}

/** The dashboard's figures: the user's total balance per currency, the value of their stock per
    currency, and the count of recent transactions. */
module DashboardPage {
  import opened Base
  import opened Ledger
  import opened Reconciler
  import opened TransactionsPage

  // ---------------------------------------------------------------------
  // The two totals, as functions of the rows read
  // ---------------------------------------------------------------------

  /** What an account adds to the total for currency `c`. */
  function BalanceIn(a: Account, c: string): int {
    if a.currency == c then a.balance else 0
  }

  /** The sum of the balances of the accounts in currency `c`. */
  function BalanceTotal(accounts: seq<Account>, c: string): int {
    if accounts == [] then 0
    else BalanceTotal(accounts[..|accounts| - 1], c) + BalanceIn(accounts[|accounts| - 1], c)
  }

  /** What a material's stock is worth, in the material's currency. */
  function StockValue(m: Material): int {
    m.pricePerUnit * m.quantity
  }

  /** What a material adds to the stock value for currency `c`. */
  function ValueIn(m: Material, c: string): int {
    if m.currency == c then StockValue(m) else 0
  }

  /** The sum of price times quantity over the materials in currency `c`. */
  function ValueTotal(materials: seq<Material>, c: string): int {
    if materials == [] then 0
    else ValueTotal(materials[..|materials| - 1], c) + ValueIn(materials[|materials| - 1], c)
  }

  /** The currencies the accounts are in. */
  function AccountCurrencies(accounts: seq<Account>): set<string> {
    set a | a in accounts :: a.currency
  }

  /** The currencies the materials are priced in. */
  function MaterialCurrencies(materials: seq<Material>): set<string> {
    set m | m in materials :: m.currency
  }

  /** One more account adds its currency and, to each total, what it holds in that currency. */
  lemma AccountAppended(accounts: seq<Account>, a: Account)
    ensures AccountCurrencies(accounts + [a]) == AccountCurrencies(accounts) + {a.currency}
    ensures forall c :: BalanceTotal(accounts + [a], c) == BalanceTotal(accounts, c) + BalanceIn(a, c)
  {
    assert (accounts + [a])[..|accounts|] == accounts;
    assert forall b :: b in accounts + [a] <==> b in accounts || b == a;
  }

  /** One more material adds its currency and, to each value, what its stock is worth in it. */
  lemma MaterialAppended(materials: seq<Material>, m: Material)
    ensures MaterialCurrencies(materials + [m]) == MaterialCurrencies(materials) + {m.currency}
    ensures forall c :: ValueTotal(materials + [m], c) == ValueTotal(materials, c) + ValueIn(m, c)
  {
    assert (materials + [m])[..|materials|] == materials;
    assert forall b :: b in materials + [m] <==> b in materials || b == m;
  }

  /** No account in currency `c`, nothing in the total for `c`. */
  lemma {:induction false} NoAccountsNoBalance(accounts: seq<Account>, c: string)
    requires c !in AccountCurrencies(accounts)
    ensures BalanceTotal(accounts, c) == 0
  {
    if accounts != [] {
      var init := accounts[..|accounts| - 1];
      assert forall a :: a in init ==> a in accounts;
      assert accounts[|accounts| - 1] in accounts;
      NoAccountsNoBalance(init, c);
    }
  }

  // ---------------------------------------------------------------------
  // The loops of fetchData
  // ---------------------------------------------------------------------

  /** The first forEach: the map holds exactly the currencies some account is in, and for each
      the sum of those accounts' balances. */
  method TotalBalanceByCurrency(accounts: seq<Account>) returns (totals: map<string, int>)
    ensures totals.Keys == AccountCurrencies(accounts)
    ensures forall c :: c in totals ==> totals[c] == BalanceTotal(accounts, c)
  {
    totals := map[];
    var i := 0;
    while i < |accounts|
      invariant 0 <= i <= |accounts|
      invariant totals.Keys == AccountCurrencies(accounts[..i])
      invariant forall c :: c in totals ==> totals[c] == BalanceTotal(accounts[..i], c)
    {
      var acc := accounts[i];
      assert accounts[..i + 1] == accounts[..i] + [acc];
      AccountAppended(accounts[..i], acc);
      var before := if acc.currency in totals then totals[acc.currency] else 0;
      if acc.currency !in totals {
        NoAccountsNoBalance(accounts[..i], acc.currency);
      }
      totals := totals[acc.currency := before + acc.balance];
      i := i + 1;
    }
    assert accounts[..i] == accounts;
  }

  /** No material in currency `c`, nothing in the stock value for `c`. */
  lemma {:induction false} NoMaterialsNoValue(materials: seq<Material>, c: string)
    requires c !in MaterialCurrencies(materials)
    ensures ValueTotal(materials, c) == 0
  {
    if materials != [] {
      var init := materials[..|materials| - 1];
      assert forall m :: m in init ==> m in materials;
      assert materials[|materials| - 1] in materials;
      NoMaterialsNoValue(init, c);
    }
  }

  /** The second forEach: the map holds exactly the currencies some material is priced in, and
      for each the sum of price times quantity over those materials. */
  method TotalMaterialsValueByCurrency(materials: seq<Material>) returns (totals: map<string, int>)
    ensures totals.Keys == MaterialCurrencies(materials)
    ensures forall c :: c in totals ==> totals[c] == ValueTotal(materials, c)
  {
    totals := map[];
    var i := 0;
    while i < |materials|
      invariant 0 <= i <= |materials|
      invariant totals.Keys == MaterialCurrencies(materials[..i])
      invariant forall c :: c in totals ==> totals[c] == ValueTotal(materials[..i], c)
    {
      var mat := materials[i];
      assert materials[..i + 1] == materials[..i] + [mat];
      MaterialAppended(materials[..i], mat);
      var value := mat.pricePerUnit * mat.quantity;
      var before := if mat.currency in totals then totals[mat.currency] else 0;
      if mat.currency !in totals {
        NoMaterialsNoValue(materials[..i], mat.currency);
      }
      totals := totals[mat.currency := before + value];
      i := i + 1;
    }
    assert materials[..i] == materials;
  }

  /** The recent transactions the dashboard lists: the first five of the rows, newest first, as
      the query's limit keeps them. */
  function Recent(txs: seq<Transaction>): (r: seq<Transaction>)
    ensures |r| <= 5
    ensures |r| == (if |txs| < 5 then |txs| else 5)
    ensures r <= txs
  {
    if |txs| <= 5 then txs else txs[..5]
  }

  // ---------------------------------------------------------------------
  // fetchData
  // ---------------------------------------------------------------------

  /** What a query gave back: the user's rows, or an error. */
  datatype Rows<T> = Rows(rows: seq<T>) | QueryError

  datatype Stats = Stats(
    totalAccountBalance: map<string, int>, totalMaterialsValue: map<string, int>,
    recentTransactionsCount: nat)

  /** The dashboard's state. */
  class Dashboard {
    var stats: Stats
    var recentTransactions: seq<Transaction>
    var loading: bool
    var failed: bool

    constructor ()
      ensures stats == Stats(map[], map[], 0) && recentTransactions == []
      ensures loading && !failed
    {
      stats := Stats(map[], map[], 0);
      recentTransactions := [];
      loading := true;
      failed := false;
    }

    /** fetchData: with no user, only stop loading. Otherwise read the accounts, then the
        materials, then the recent transactions; the first query that fails stops the rest,
        marks the dashboard failed and leaves the figures as they were. */
    method FetchData(signedIn: bool, accountRows: Rows<Account>, materialRows: Rows<Material>,
                     txRows: Rows<Transaction>)
      modifies this
      ensures !loading
      ensures !signedIn ==>
                stats == old(stats) && recentTransactions == old(recentTransactions) && failed == old(failed)
      ensures signedIn && (accountRows.QueryError? || materialRows.QueryError? || txRows.QueryError?) ==>
                stats == old(stats) && recentTransactions == old(recentTransactions) && failed
      ensures signedIn && accountRows.Rows? && materialRows.Rows? && txRows.Rows? ==>
                && !failed
                && stats.totalAccountBalance.Keys == AccountCurrencies(accountRows.rows)
                && (forall c :: c in stats.totalAccountBalance ==>
                      stats.totalAccountBalance[c] == BalanceTotal(accountRows.rows, c))
                && stats.totalMaterialsValue.Keys == MaterialCurrencies(materialRows.rows)
                && (forall c :: c in stats.totalMaterialsValue ==>
                      stats.totalMaterialsValue[c] == ValueTotal(materialRows.rows, c))
                && recentTransactions == Recent(txRows.rows)
                && stats.recentTransactionsCount == |recentTransactions| <= 5
    {
      if !signedIn {
        loading := false;
        return;
      }
      loading := true;
      failed := false;
      if accountRows.QueryError? {
        failed := true;
        loading := false;
        return;
      }
      var balances := TotalBalanceByCurrency(accountRows.rows);
      if materialRows.QueryError? {
        failed := true;
        loading := false;
        return;
      }
      var values := TotalMaterialsValueByCurrency(materialRows.rows);
      if txRows.QueryError? {
        failed := true;
        loading := false;
        return;
      }
      var recent := Recent(txRows.rows);
      stats := Stats(balances, values, |recent|);
      recentTransactions := recent;
      loading := false;
    }
  }

  // ---------------------------------------------------------------------
  // A transfer leaves every total as it was
  // ---------------------------------------------------------------------

  /** Changing one account row changes each currency's total by what that row contributed. */
  lemma {:induction false} ReplaceOneRow(accounts: seq<Account>, k: nat, a: Account, c: string)
    requires k < |accounts|
    ensures BalanceTotal(accounts[k := a], c) ==
            BalanceTotal(accounts, c) - BalanceIn(accounts[k], c) + BalanceIn(a, c)
  {
    var n := |accounts| - 1;
    var updated := accounts[k := a];
    if k == n {
      assert updated[..n] == accounts[..n];
    } else {
      assert updated[..n] == accounts[..n][k := a];
      ReplaceOneRow(accounts[..n], k, a, c);
    }
  }

  /** `rows` lists accounts of the store, each at most once and as stored. */
  predicate Lists(rows: seq<Account>, accounts: map<Id, Account>) {
    && (forall k :: 0 <= k < |rows| ==> rows[k].id in accounts && accounts[rows[k].id] == rows[k])
    && (forall k, l :: 0 <= k < l < |rows| ==> rows[k].id != rows[l].id)
  }

  /** The same rows read again from the store after it changed. */
  function Reread(rows: seq<Account>, accounts: map<Id, Account>): (r: seq<Account>)
    ensures |r| == |rows|
    ensures forall k :: 0 <= k < |rows| && rows[k].id in accounts ==> r[k] == accounts[rows[k].id]
    ensures forall k :: 0 <= k < |rows| && rows[k].id !in accounts ==> r[k] == rows[k]
  {
    seq(|rows|, k requires 0 <= k < |rows| => if rows[k].id in accounts then accounts[rows[k].id] else rows[k])
  }

  /** A transfer between two of the user's accounts in the same currency, once both legs are
      reconciled, leaves the dashboard's total balance for every currency unchanged. */
  lemma TransferKeepsTotals(accounts: map<Id, Account>, rows: seq<Account>, expense: Transaction,
                            income: Transaction, fails: set<Write>, i: nat, j: nat, c: string)
    requires expense.txType == Expense && income.txType == Income && expense.amount == income.amount
    requires expense.accountId != "" && income.accountId != "" && expense.accountId != income.accountId
    requires AccountRead(expense.accountId) !in fails && AccountWrite(expense.accountId) !in fails
    requires AccountRead(income.accountId) !in fails && AccountWrite(income.accountId) !in fails
    requires Lists(rows, accounts)
    requires i < |rows| && rows[i].id == expense.accountId
    requires j < |rows| && rows[j].id == income.accountId
    requires rows[i].currency == rows[j].currency
    ensures BalanceTotal(Reread(rows, LegsReconciled(accounts, expense, income, fails)), c) ==
            BalanceTotal(rows, c)
  {
    TransferMovesAmount(accounts, expense, income, fails);
    var after := LegsReconciled(accounts, expense, income, fails);
    var src := rows[i].(balance := rows[i].balance - expense.amount);
    var dst := rows[j].(balance := rows[j].balance + income.amount);
    var moved := rows[i := src][j := dst];
    forall k | 0 <= k < |rows|
      ensures Reread(rows, after)[k] == moved[k]
    {
      if k != i && k != j {
        assert rows[k].id != rows[i].id && rows[k].id != rows[j].id;
      }
    }
    assert Reread(rows, after) == moved;
    ReplaceOneRow(rows, i, src, c);
    ReplaceOneRow(rows[i := src], j, dst, c);
  }
}

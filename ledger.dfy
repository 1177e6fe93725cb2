/** The records the bookkeeping pages keep in the database, and the database itself as an
    in-memory store: one map from id to record per table. Amounts and balances are integer
    cents; material quantities are integers. */
module Ledger {
  import opened Base

  type Id = string

  datatype TxType = Income | Expense

  datatype AccountType = Cash | Bank | Customer | Supplier | Other

  datatype Account = Account(
    id: Id, userId: Id, name: string, accountType: AccountType,
    currency: string, balance: int, description: string)

  datatype Material = Material(
    id: Id, userId: Id, name: string, pricePerUnit: int, currency: string,
    quantity: int, unitType: string, imageUrl: Option<string>)

  /** A row of the transactions table. `accountId` is "" when the row names no account;
      `materialId` and `materialQty` are null when no material is affected. */
  datatype Transaction = Transaction(
    id: Id, userId: Id, txType: TxType, amount: int, currency: string, date: string,
    notes: string, accountId: Id, materialId: Option<Id>, materialQty: Option<int>,
    imageUrl: Option<string>)

  datatype DebtType = IOwe | OwedToMe

  datatype DebtStatus = Active | PartiallyPaid | Paid

  datatype Debt = Debt(
    id: Id, userId: Id, name: string, debtType: DebtType, partyName: string,
    initialAmount: int, currency: string, currentOwed: int, dueDate: Option<string>,
    status: DebtStatus, notes: string)

  datatype CurrencyRecord = CurrencyRecord(
    id: Id, userId: Id, code: string, name: string, symbol: string, isCustom: bool)

  /** The database calls that can report an error. Each handler is given the set of calls
      that fail, which stands for the network and the server. The reads are the single-row
      fetches the reconciler and the purchase debit make before they write. */
  datatype Write =
    | AccountRead(id: Id) | MaterialRead(id: Id)
    | AccountWrite(id: Id) | MaterialWrite(id: Id) | DebtWrite(id: Id) | CurrencyWrite(id: Id)
    | AccountInsert | MaterialInsert | TxInsert | DebtInsert | CurrencyInsert
    | TxDelete(id: Id) | TxSearch | AccountSearch

  /** Why a handler stopped: a refusal shown to the user, or a database error. */
  datatype Reason =
    | AccountFetchFailed | AccountUpdateFailed | MaterialFetchFailed | MaterialUpdateFailed
    | InvalidAccountsSelected | TransferCurrencyMismatch | InsufficientFunds
    | DebtNotFound | PaymentAccountCurrencyMismatch | DebtNameExists | DebtHasTransactions
    | MaterialSavedButTxFailed | MaterialHasTransactions | AccountHasTransactions
    | CurrencyCodeExists | CurrencyInUse | RowNotFound
    | DatabaseError(w: Write)

  /** A handler either finishes, returns early without doing anything (no id given), or stops
      with a reason. */
  datatype Outcome = Success | Skipped | Failure(reason: Reason)

  /** What the transaction form hands to the transactions page on submit. */
  datatype Entry =
    | TransferEntry(fromAccountId: Id, toAccountId: Id, amount: int, currency: string,
                    date: string, notes: string, imageUrl: Option<string>)
    | PlainEntry(txType: TxType, accountId: Id, materialId: Option<Id>, materialQty: Option<int>,
                 amount: int, currency: string, date: string, notes: string, imageUrl: Option<string>)

  /** Array.prototype.find by id over a fetched list of accounts: the first one with the id. */
  function FindAccount(accounts: seq<Account>, id: Id): (r: Option<Account>)
    ensures r.Some? ==> r.value in accounts && r.value.id == id
    ensures r.None? <==> forall i :: 0 <= i < |accounts| ==> accounts[i].id != id
  {
    if accounts == [] then None
    else if accounts[0].id == id then Some(accounts[0])
    else FindAccount(accounts[1..], id)
  }

  /** The tag a generated note ends with: " (Ref: <ref>)". Transfer legs and debt payments
      both carry one. */
  function RefTag(ref: string): string {
    " (Ref: " + ref + ")"
  }

  predicate EndsWith(s: string, suffix: string) {
    |suffix| <= |s| && s[|s| - |suffix|..] == suffix
  }

  /** The database. Every table is a map keyed by the rows' ids. */
  class Store {
    var accounts: map<Id, Account>
    var materials: map<Id, Material>
    var transactions: map<Id, Transaction>
    var debts: map<Id, Debt>
    var currencies: map<Id, CurrencyRecord>
    /** False once clearCurrencyCache has dropped the cached currency list. */
    var currencyCacheValid: bool

    /** Every row is stored under its own id. */
    predicate Valid()
      reads this
    {
      && (forall k :: k in accounts ==> accounts[k].id == k)
      && (forall k :: k in materials ==> materials[k].id == k)
      && (forall k :: k in transactions ==> transactions[k].id == k)
      && (forall k :: k in debts ==> debts[k].id == k)
      && (forall k :: k in currencies ==> currencies[k].id == k)
    }

    constructor ()
      ensures Valid()
      ensures accounts == map[] && materials == map[] && transactions == map[]
      ensures debts == map[] && currencies == map[] && !currencyCacheValid
    {
      accounts := map[];
      materials := map[];
      transactions := map[];
      debts := map[];
      currencies := map[];
      currencyCacheValid := false;
    }
  }
}

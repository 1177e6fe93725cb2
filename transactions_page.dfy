/** The transactions page: entering a transfer or a plain transaction, and deleting one. Each
    insert or delete of a row is followed by a reconciliation of the balance and stock. */
module TransactionsPage {
  import opened Base
  import opened Ledger
  import opened Reconciler

  /** `transfer-<ms since epoch>`: the reference both legs of a transfer carry. */
  function TransferRef(nowMs: nat): string {
    "transfer-" + NatToString(nowMs)
  }

  /** A leg's note: the translated caption, the other account's name, the user's note after " - "
      when there is one, and the reference tag. */
  function TransferNote(caption: string, otherName: string, notes: string, ref: string): (r: string)
    ensures EndsWith(r, RefTag(ref))
    ensures notes != "" ==> r == caption + " " + otherName + " - " + notes + RefTag(ref)
    ensures notes == "" ==> r == caption + " " + otherName + RefTag(ref)
  {
    var head := caption + " " + otherName + (if notes != "" then " - " + notes else "");
    assert (head + RefTag(ref))[|head|..] == RefTag(ref);
    head + RefTag(ref)
  }

  /** `image_url || null`: an empty URL is stored as no image. */
  function UrlOrNull(url: Option<string>): (r: Option<string>)
    ensures r.Some? <==> url.Some? && url.value != ""
    ensures r.Some? ==> r == url
  {
    if url == Some("") then None else url
  }

  /** The checks a transfer passes before anything is written, and the two legs it produces.
      The accounts come from the page's cached list, not from the store. */
  datatype TransferPlan = Refused(reason: Reason) | Legs(expense: Transaction, income: Transaction)

  function PlanTransfer(cache: seq<Account>, e: Entry, userId: Id, labelTo: string,
                        labelFrom: string, nowMs: nat, expenseId: Id, incomeId: Id): (r: TransferPlan)
    requires e.TransferEntry?
    ensures r.Refused? <==>
              || FindAccount(cache, e.fromAccountId).None? || FindAccount(cache, e.toAccountId).None?
              || FindAccount(cache, e.fromAccountId).value.currency != e.currency
              || FindAccount(cache, e.toAccountId).value.currency != e.currency
              || FindAccount(cache, e.fromAccountId).value.balance < e.amount
    ensures r.Refused? && (FindAccount(cache, e.fromAccountId).None? || FindAccount(cache, e.toAccountId).None?) ==>
              r.reason == InvalidAccountsSelected
    ensures r.Refused? && FindAccount(cache, e.fromAccountId).Some? && FindAccount(cache, e.toAccountId).Some?
            && (FindAccount(cache, e.fromAccountId).value.currency != e.currency
                || FindAccount(cache, e.toAccountId).value.currency != e.currency) ==>
              r.reason == TransferCurrencyMismatch
    ensures r.Refused? && FindAccount(cache, e.fromAccountId).Some? && FindAccount(cache, e.toAccountId).Some?
            && FindAccount(cache, e.fromAccountId).value.currency == e.currency
            && FindAccount(cache, e.toAccountId).value.currency == e.currency ==>
              r.reason == InsufficientFunds
    ensures r.Legs? ==>
              && r.expense.txType == Expense && r.income.txType == Income
              && r.expense.accountId == e.fromAccountId && r.income.accountId == e.toAccountId
              && r.expense.amount == e.amount == r.income.amount
              && r.expense.currency == e.currency == r.income.currency
              && r.expense.date == e.date == r.income.date
              && r.expense.userId == userId == r.income.userId
              && r.expense.id == expenseId && r.income.id == incomeId
              && r.expense.materialId.None? && r.income.materialId.None?
              && r.expense.materialQty.None? && r.income.materialQty.None?
              && r.expense.imageUrl == UrlOrNull(e.imageUrl) == r.income.imageUrl
              && r.expense.notes == TransferNote(labelTo, FindAccount(cache, e.toAccountId).value.name, e.notes, TransferRef(nowMs))
              && r.income.notes == TransferNote(labelFrom, FindAccount(cache, e.fromAccountId).value.name, e.notes, TransferRef(nowMs))
              && EndsWith(r.expense.notes, RefTag(TransferRef(nowMs)))
              && EndsWith(r.income.notes, RefTag(TransferRef(nowMs)))
  {
    var source := FindAccount(cache, e.fromAccountId);
    var dest := FindAccount(cache, e.toAccountId);
    if source.None? || dest.None? then Refused(InvalidAccountsSelected)
    else if source.value.currency != e.currency || dest.value.currency != e.currency then Refused(TransferCurrencyMismatch)
    else if source.value.balance < e.amount then Refused(InsufficientFunds)
    else
      var ref := TransferRef(nowMs);
      Legs(
        Transaction(expenseId, userId, Expense, e.amount, e.currency, e.date,
                    TransferNote(labelTo, dest.value.name, e.notes, ref), e.fromAccountId, None, None, UrlOrNull(e.imageUrl)),
        Transaction(incomeId, userId, Income, e.amount, e.currency, e.date,
                    TransferNote(labelFrom, source.value.name, e.notes, ref), e.toAccountId, None, None, UrlOrNull(e.imageUrl)))
  }

  /** The accounts table after both legs are reconciled; the second leg is skipped when the
      first fails. */
  function LegsReconciled(accounts: map<Id, Account>, expense: Transaction, income: Transaction,
                          fails: set<Write>): map<Id, Account>
  {
    var first := AccountStep(accounts, Some(expense), None, fails);
    if first.error.Some? then first.rows else AccountStep(first.rows, Some(income), None, fails).rows
  }

  /** What the transfer reports once both legs are reconciled: the first leg's failure, else the
      second leg's failure, else success. A transfer leg names no material, so only the account
      half can fail. */
  function LegsOutcome(accounts: map<Id, Account>, expense: Transaction, income: Transaction,
                       fails: set<Write>): (r: Outcome)
    ensures var first := AccountStep(accounts, Some(expense), None, fails);
            var second := AccountStep(first.rows, Some(income), None, fails);
            && (r == Success <==> first.error.None? && second.error.None?)
            && (first.error.Some? ==> r == Failure(first.error.value))
            && (first.error.None? && second.error.Some? ==> r == Failure(second.error.value))
            && r != Skipped
  {
    var first := AccountStep(accounts, Some(expense), None, fails);
    if first.error.Some? then Failure(first.error.value)
    else CallOutcome(AccountStep(first.rows, Some(income), None, fails).error, None)
  }

  /** The row a plain entry inserts. */
  function PlainRow(e: Entry, id: Id, userId: Id): Transaction
    requires e.PlainEntry?
  {
    Transaction(id, userId, e.txType, e.amount, e.currency, e.date, e.notes, e.accountId,
                e.materialId, e.materialQty, e.imageUrl)
  }

  /** The transfer branch of handleSubmitTransactionOrTransfer. `rowsReturned` is how many rows
      the insert reported back; the legs are reconciled only when it is two. */
  method SubmitTransfer(s: Store, cache: seq<Account>, e: Entry, userId: Id, labelTo: string,
                        labelFrom: string, nowMs: nat, expenseId: Id, incomeId: Id,
                        rowsReturned: nat, fails: set<Write>) returns (outcome: Outcome)
    requires e.TransferEntry?
    requires s.Valid() && expenseId != incomeId
    requires expenseId !in s.transactions && incomeId !in s.transactions
    modifies s
    ensures s.Valid()
    ensures s.materials == old(s.materials) && s.debts == old(s.debts)
    ensures s.currencies == old(s.currencies) && s.currencyCacheValid == old(s.currencyCacheValid)
    ensures var plan := PlanTransfer(cache, e, userId, labelTo, labelFrom, nowMs, expenseId, incomeId);
            && (plan.Refused? ==>
                  && outcome == Failure(plan.reason) && s.transactions == old(s.transactions)
                  && s.accounts == old(s.accounts))
            && (plan.Legs? && TxInsert in fails ==>
                  && outcome == Failure(DatabaseError(TxInsert)) && s.transactions == old(s.transactions)
                  && s.accounts == old(s.accounts))
            && (plan.Legs? && TxInsert !in fails ==>
                  && s.transactions == old(s.transactions)[expenseId := plan.expense][incomeId := plan.income]
                  && (rowsReturned == 2 ==>
                        && s.accounts == LegsReconciled(old(s.accounts), plan.expense, plan.income, fails)
                        && outcome == LegsOutcome(old(s.accounts), plan.expense, plan.income, fails))
                  && (rowsReturned != 2 ==> s.accounts == old(s.accounts) && outcome == Success))
  {
    var plan := PlanTransfer(cache, e, userId, labelTo, labelFrom, nowMs, expenseId, incomeId);
    if plan.Refused? {
      return Failure(plan.reason);
    }
    if TxInsert in fails {
      return Failure(DatabaseError(TxInsert));
    }
    s.transactions := s.transactions[expenseId := plan.expense][incomeId := plan.income];
    outcome := Success;
    if rowsReturned == 2 {
      NoMaterialLeavesStock(s.materials, Some(plan.expense), None, fails);
      NoMaterialLeavesStock(s.materials, Some(plan.income), None, fails);
      outcome := UpdateRelatedData(s, Some(plan.expense), None, fails);
      if outcome.Failure? {
        return;
      }
      outcome := UpdateRelatedData(s, Some(plan.income), None, fails);
    }
  }

  /** The plain branch: insert the row, then reconcile it as a create. */
  method SubmitPlain(s: Store, e: Entry, userId: Id, newId: Id, fails: set<Write>) returns (outcome: Outcome)
    requires e.PlainEntry?
    requires s.Valid() && newId !in s.transactions
    modifies s
    ensures s.Valid()
    ensures s.debts == old(s.debts) && s.currencies == old(s.currencies)
    ensures s.currencyCacheValid == old(s.currencyCacheValid)
    ensures TxInsert in fails ==>
              && outcome == Failure(DatabaseError(TxInsert)) && s.transactions == old(s.transactions)
              && s.accounts == old(s.accounts) && s.materials == old(s.materials)
    ensures TxInsert !in fails ==>
              var t := PlainRow(e, newId, userId);
              && s.transactions == old(s.transactions)[newId := t]
              && s.accounts == AccountStep(old(s.accounts), Some(t), None, fails).rows
              && s.materials == MaterialStep(old(s.materials), Some(t), None, fails).rows
              && outcome == CallOutcome(AccountStep(old(s.accounts), Some(t), None, fails).error,
                                        MaterialStep(old(s.materials), Some(t), None, fails).error)
  {
    if TxInsert in fails {
      return Failure(DatabaseError(TxInsert));
    }
    var t := PlainRow(e, newId, userId);
    s.transactions := s.transactions[newId := t];
    outcome := UpdateRelatedData(s, Some(t), None, fails);
  }

  /** handleSubmitTransactionOrTransfer: a transfer or a plain entry. */
  method SubmitTransactionOrTransfer(s: Store, cache: seq<Account>, e: Entry, userId: Id,
                                     labelTo: string, labelFrom: string, nowMs: nat,
                                     id1: Id, id2: Id, rowsReturned: nat, fails: set<Write>)
    returns (outcome: Outcome)
    requires s.Valid() && id1 != id2 && id1 !in s.transactions && id2 !in s.transactions
    modifies s
    ensures s.Valid()
    ensures s.debts == old(s.debts) && s.currencies == old(s.currencies)
    ensures e.TransferEntry? ==> s.materials == old(s.materials)
    ensures e.PlainEntry? && TxInsert !in fails ==>
              s.transactions == old(s.transactions)[id1 := PlainRow(e, id1, userId)]
  {
    if e.TransferEntry? {
      outcome := SubmitTransfer(s, cache, e, userId, labelTo, labelFrom, nowMs, id1, id2, rowsReturned, fails);
    } else {
      outcome := SubmitPlain(s, e, userId, id1, fails);
    }
  }

  /** handleDeleteTransaction: delete the row (only the owner's), then reconcile the page's copy
      of it as a delete. */
  method DeleteTransaction(s: Store, tx: Transaction, userId: Id, fails: set<Write>) returns (outcome: Outcome)
    requires s.Valid()
    modifies s
    ensures s.Valid()
    ensures s.debts == old(s.debts) && s.currencies == old(s.currencies)
    ensures s.currencyCacheValid == old(s.currencyCacheValid)
    ensures tx.id == "" ==>
              && outcome == Skipped && s.transactions == old(s.transactions)
              && s.accounts == old(s.accounts) && s.materials == old(s.materials)
    ensures tx.id != "" && TxDelete(tx.id) in fails ==>
              && outcome == Failure(DatabaseError(TxDelete(tx.id))) && s.transactions == old(s.transactions)
              && s.accounts == old(s.accounts) && s.materials == old(s.materials)
    ensures tx.id != "" && TxDelete(tx.id) !in fails ==>
              && (tx.id in old(s.transactions) && old(s.transactions)[tx.id].userId == userId ==>
                    s.transactions == old(s.transactions) - {tx.id})
              && (tx.id !in old(s.transactions) || old(s.transactions)[tx.id].userId != userId ==>
                    s.transactions == old(s.transactions))
              && s.accounts == AccountStep(old(s.accounts), None, Some(tx), fails).rows
              && s.materials == MaterialStep(old(s.materials), None, Some(tx), fails).rows
              && outcome == CallOutcome(AccountStep(old(s.accounts), None, Some(tx), fails).error,
                                        MaterialStep(old(s.materials), None, Some(tx), fails).error)
  {
    if tx.id == "" {
      return Skipped;
    }
    if TxDelete(tx.id) in fails {
      return Failure(DatabaseError(TxDelete(tx.id)));
    }
    if tx.id in s.transactions && s.transactions[tx.id].userId == userId {
      s.transactions := s.transactions - {tx.id};
    }
    outcome := UpdateRelatedData(s, None, Some(tx), fails);
  }

  /** Entering a plain transaction and then deleting it leaves the store as it was, whenever the
      database accepts every write. */
  method EnterThenDelete(s: Store, e: Entry, userId: Id, newId: Id, fails: set<Write>)
    requires e.PlainEntry? && newId != ""
    requires s.Valid() && newId !in s.transactions
    requires TxInsert !in fails && TxDelete(newId) !in fails
    requires AccountRead(e.accountId) !in fails && AccountWrite(e.accountId) !in fails
    requires e.materialId.Some? ==> MaterialRead(e.materialId.value) !in fails && MaterialWrite(e.materialId.value) !in fails
    modifies s
    ensures s.transactions == old(s.transactions)
    ensures s.accounts == old(s.accounts) && s.materials == old(s.materials)
    ensures s.debts == old(s.debts) && s.currencies == old(s.currencies)
  {
    var t := PlainRow(e, newId, userId);
    DeleteUndoesCreate(s.accounts, s.materials, t, fails);
    var _ := SubmitPlain(s, e, userId, newId, fails);
    assert s.transactions[newId] == t;
    var _ := DeleteTransaction(s, t, userId, fails);
    assert s.transactions == old(s.transactions);
  }

  /** A successful transfer between two different accounts takes the amount off the source and
      puts it on the destination; no other account moves. */
  lemma TransferMovesAmount(accounts: map<Id, Account>, expense: Transaction, income: Transaction, fails: set<Write>)
    requires expense.txType == Expense && income.txType == Income && expense.amount == income.amount
    requires expense.accountId != "" && income.accountId != "" && expense.accountId != income.accountId
    requires expense.accountId in accounts && income.accountId in accounts
    requires AccountRead(expense.accountId) !in fails && AccountWrite(expense.accountId) !in fails
    requires AccountRead(income.accountId) !in fails && AccountWrite(income.accountId) !in fails
    ensures var r := LegsReconciled(accounts, expense, income, fails);
            var src := expense.accountId;
            var dst := income.accountId;
            && r == accounts[src := accounts[src].(balance := accounts[src].balance - expense.amount)]
                            [dst := accounts[dst].(balance := accounts[dst].balance + income.amount)]
            && LegsOutcome(accounts, expense, income, fails) == Success
  {
  }
}

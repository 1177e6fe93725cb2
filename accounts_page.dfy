/** The accounts page: saving an account and deleting one. */
module AccountsPage {
  import opened Base
  import opened Ledger
  import AccountForm

  /** An edit writes only the name, the type and the description. */
  function EditedAccount(a: Account, p: AccountForm.AccountPayload): (r: Account)
    ensures r.id == a.id && r.userId == a.userId
    ensures r.balance == a.balance && r.currency == a.currency
    ensures r.name == p.name && r.accountType == p.accountType && r.description == p.description
  {
    a.(name := p.name, accountType := p.accountType, description := p.description)
  }

  /** The row a new account inserts: the form's record, starting balance included, under the
      current user. */
  function NewAccount(p: AccountForm.AccountPayload, id: Id, userId: Id): (r: Account)
    ensures r.id == id && r.userId == userId && r.balance == p.balance && r.currency == p.currency
  {
    Account(id, userId, p.name, p.accountType, p.currency, p.balance, p.description)
  }

  /** handleSubmitAccount: update the account being edited (the owner's only), or insert a new
      one. No edit changes any account's balance or currency. */
  method SubmitAccount(s: Store, currentAccount: Option<Account>, p: AccountForm.AccountPayload,
                       userId: Id, newId: Id, fails: set<Write>) returns (outcome: Outcome)
    requires s.Valid() && newId !in s.accounts
    modifies s
    ensures s.Valid()
    ensures s.materials == old(s.materials) && s.transactions == old(s.transactions)
    ensures s.debts == old(s.debts) && s.currencies == old(s.currencies)
    ensures s.currencyCacheValid == old(s.currencyCacheValid)
    ensures AccountForm.Editing(currentAccount) ==>
              var id := currentAccount.value.id;
              && s.accounts.Keys == old(s.accounts).Keys
              && (forall k :: k in old(s.accounts) ==>
                    s.accounts[k].balance == old(s.accounts)[k].balance
                    && s.accounts[k].currency == old(s.accounts)[k].currency)
              && if AccountWrite(id) in fails then
                   outcome == Failure(DatabaseError(AccountWrite(id))) && s.accounts == old(s.accounts)
                 else
                   && outcome == Success
                   && s.accounts == (if id in old(s.accounts) && old(s.accounts)[id].userId == userId
                                     then old(s.accounts)[id := EditedAccount(old(s.accounts)[id], p)]
                                     else old(s.accounts))
    ensures !AccountForm.Editing(currentAccount) ==>
              if AccountInsert in fails then
                outcome == Failure(DatabaseError(AccountInsert)) && s.accounts == old(s.accounts)
              else
                outcome == Success && s.accounts == old(s.accounts)[newId := NewAccount(p, newId, userId)]
  {
    if currentAccount.Some? && currentAccount.value.id != "" {
      var id := currentAccount.value.id;
      if AccountWrite(id) in fails {
        return Failure(DatabaseError(AccountWrite(id)));
      }
      if id in s.accounts && s.accounts[id].userId == userId {
        s.accounts := s.accounts[id := EditedAccount(s.accounts[id], p)];
      }
    } else {
      if AccountInsert in fails {
        return Failure(DatabaseError(AccountInsert));
      }
      s.accounts := s.accounts[newId := NewAccount(p, newId, userId)];
    }
    outcome := Success;
  }

  /** Some transaction is on the account: the foreign key then refuses the delete. */
  predicate Referenced(transactions: map<Id, Transaction>, accountId: Id) {
    exists k :: k in transactions && transactions[k].accountId == accountId
  }

  /** Every account a transaction is on is still stored. */
  predicate AccountRefsIntact(accounts: map<Id, Account>, transactions: map<Id, Transaction>) {
    forall k :: k in transactions && transactions[k].accountId != "" ==> transactions[k].accountId in accounts
  }

  /** handleDeleteAccount: delete the owner's account, unless transactions are on it, in which
      case the user is told and nothing is raised. */
  method DeleteAccount(s: Store, accountId: Id, userId: Id, fails: set<Write>) returns (outcome: Outcome)
    requires s.Valid()
    modifies s
    ensures s.Valid()
    ensures s.materials == old(s.materials) && s.transactions == old(s.transactions)
    ensures s.debts == old(s.debts) && s.currencies == old(s.currencies)
    ensures s.currencyCacheValid == old(s.currencyCacheValid)
    ensures outcome != Success ==> s.accounts == old(s.accounts)
    ensures AccountRefsIntact(old(s.accounts), old(s.transactions)) ==> AccountRefsIntact(s.accounts, s.transactions)
    ensures accountId == "" ==> outcome == Skipped
    ensures var owned := accountId in old(s.accounts) && old(s.accounts)[accountId].userId == userId;
            accountId != "" ==>
              if owned && Referenced(old(s.transactions), accountId) then
                outcome == Failure(AccountHasTransactions)
              else if AccountWrite(accountId) in fails then
                outcome == Failure(DatabaseError(AccountWrite(accountId)))
              else
                outcome == Success
                && s.accounts == (if owned then old(s.accounts) - {accountId} else old(s.accounts))
  {
    if accountId == "" {
      return Skipped;
    }
    var owned := accountId in s.accounts && s.accounts[accountId].userId == userId;
    if owned && Referenced(s.transactions, accountId) {
      return Failure(AccountHasTransactions);
    }
    if AccountWrite(accountId) in fails {
      return Failure(DatabaseError(AccountWrite(accountId)));
    }
    if owned {
      s.accounts := s.accounts - {accountId};
    }
    outcome := Success;
  }
}

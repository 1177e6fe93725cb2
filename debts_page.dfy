/** The debts page: saving a debt, deleting one, and recording a payment against one. A payment
    writes its transaction and the account balance itself, from the page's cached copies of the
    account and the debt, without the balance reconciliation of the transactions page. */
module DebtsPage {
  import opened Base
  import opened Ledger
  import DebtForm
  import DebtPaymentForm

  // ---------------------------------------------------------------------
  // Saving a debt
  // ---------------------------------------------------------------------

  /** Another debt of the same user (other than `except`) already has this name. The database
      keeps debt names unique per user and refuses such a write. */
  predicate NameTaken(debts: map<Id, Debt>, userId: Id, name: string, except: Option<Id>) {
    exists k :: k in debts && Some(k) != except && debts[k].userId == userId && debts[k].name == name
  }

  /** No user has two debts with the same name. */
  predicate NamesUnique(debts: map<Id, Debt>) {
    forall a, b :: a in debts && b in debts && a != b && debts[a].userId == debts[b].userId ==>
      debts[a].name != debts[b].name
  }

  /** The row a new debt inserts. */
  function NewDebt(p: DebtForm.DebtPayload, id: Id, userId: Id): (r: Debt)
    ensures r.id == id && r.userId == userId && r.currentOwed == p.currentOwed
    ensures r.name == p.name && r.initialAmount == p.initialAmount && r.currency == p.currency
  {
    Debt(id, userId, p.name, p.debtType, p.partyName, p.initialAmount, p.currency,
         p.currentOwed, p.dueDate, p.status, p.notes)
  }

  /** An edit writes every field of the form except the amount still owed. */
  function EditedDebt(d: Debt, p: DebtForm.DebtPayload): (r: Debt)
    ensures r.id == d.id && r.userId == d.userId && r.currentOwed == d.currentOwed
    ensures r.name == p.name && r.initialAmount == p.initialAmount && r.status == p.status
  {
    d.(name := p.name, debtType := p.debtType, partyName := p.partyName,
       initialAmount := p.initialAmount, currency := p.currency, dueDate := p.dueDate,
       status := p.status, notes := p.notes)
  }

  /** handleSubmitDebt: update the debt being edited (the owner's only, and never its amount
      owed), or insert a new one. An update that matches no row of the user writes nothing, so
      no duplicate name can be refused and it reports success. A duplicate name on insert is
      reported without aborting, so the currency cache is still cleared; any other error aborts
      before the cache is cleared. */
  method SubmitDebt(s: Store, currentDebt: Option<Debt>, p: DebtForm.DebtPayload, userId: Id,
                    newId: Id, fails: set<Write>) returns (outcome: Outcome)
    requires s.Valid() && newId !in s.debts
    modifies s
    ensures s.Valid()
    ensures s.accounts == old(s.accounts) && s.materials == old(s.materials)
    ensures s.transactions == old(s.transactions) && s.currencies == old(s.currencies)
    ensures currentDebt.Some? && currentDebt.value.id != "" ==>
              var id := currentDebt.value.id;
              var owned := id in old(s.debts) && old(s.debts)[id].userId == userId;
              if DebtWrite(id) in fails || (owned && NameTaken(old(s.debts), userId, p.name, Some(id))) then
                && outcome == Failure(DatabaseError(DebtWrite(id)))
                && s.debts == old(s.debts) && s.currencyCacheValid == old(s.currencyCacheValid)
              else
                && outcome == Success && !s.currencyCacheValid
                && s.debts == (if owned then old(s.debts)[id := EditedDebt(old(s.debts)[id], p)]
                               else old(s.debts))
    ensures currentDebt.None? || currentDebt.value.id == "" ==>
              if NameTaken(old(s.debts), userId, p.name, None) then
                outcome == Failure(DebtNameExists) && s.debts == old(s.debts) && !s.currencyCacheValid
              else if DebtInsert in fails then
                && outcome == Failure(DatabaseError(DebtInsert))
                && s.debts == old(s.debts) && s.currencyCacheValid == old(s.currencyCacheValid)
              else
                outcome == Success && s.debts == old(s.debts)[newId := NewDebt(p, newId, userId)]
                && !s.currencyCacheValid
    ensures NamesUnique(old(s.debts)) ==> NamesUnique(s.debts)
  {
    if currentDebt.Some? && currentDebt.value.id != "" {
      var id := currentDebt.value.id;
      var owned := id in s.debts && s.debts[id].userId == userId;
      if DebtWrite(id) in fails || (owned && NameTaken(s.debts, userId, p.name, Some(id))) {
        return Failure(DatabaseError(DebtWrite(id)));
      }
      if owned {
        s.debts := s.debts[id := EditedDebt(s.debts[id], p)];
      }
      outcome := Success;
    } else {
      if NameTaken(s.debts, userId, p.name, None) {
        outcome := Failure(DebtNameExists);
      } else if DebtInsert in fails {
        return Failure(DatabaseError(DebtInsert));
      } else {
        s.debts := s.debts[newId := NewDebt(p, newId, userId)];
        outcome := Success;
      }
    }
    s.currencyCacheValid := false;
  }

  // ---------------------------------------------------------------------
  // Deleting a debt
  // ---------------------------------------------------------------------

  /** The reference a payment's note carries. */
  function PaymentRef(debtId: Id): string {
    "debt_" + debtId
  }

  /** The delete guard as written: a note mentioning `debt_ref_<id>` or `دين_مرجع_<id>`. */
  predicate LinkedAsWritten(notes: string, debtId: Id) {
    ILikeContains(notes, "debt_ref_" + debtId) || ILikeContains(notes, "دين_مرجع_" + debtId)
  }

  /** The delete guard this model uses: the patterns above, or the tag `(Ref: debt_<id>)` that a
      payment's note ends with. The closing parenthesis keeps debt 7 from matching debt 77. */
  predicate Linked(notes: string, debtId: Id) {
    LinkedAsWritten(notes, debtId) || ILikeContains(notes, "(Ref: " + PaymentRef(debtId) + ")")
  }

  /** Some transaction's note links it to the debt. The search is not limited to the user. */
  predicate HasLinkedTransaction(transactions: map<Id, Transaction>, debtId: Id) {
    exists k :: k in transactions && Linked(transactions[k].notes, debtId)
  }

  /** handleDeleteDebt: refuse while a transaction is linked to the debt, else delete it (the
      owner's only) and clear the currency cache. */
  method DeleteDebt(s: Store, debtId: Id, userId: Id, fails: set<Write>) returns (outcome: Outcome)
    requires s.Valid()
    modifies s
    ensures s.Valid()
    ensures s.accounts == old(s.accounts) && s.materials == old(s.materials)
    ensures s.transactions == old(s.transactions) && s.currencies == old(s.currencies)
    ensures debtId == "" ==>
              outcome == Skipped && s.debts == old(s.debts) && s.currencyCacheValid == old(s.currencyCacheValid)
    ensures debtId != "" ==>
              if TxSearch in fails then
                && outcome == Failure(DatabaseError(TxSearch))
                && s.debts == old(s.debts) && s.currencyCacheValid == old(s.currencyCacheValid)
              else if HasLinkedTransaction(old(s.transactions), debtId) then
                && outcome == Failure(DebtHasTransactions)
                && s.debts == old(s.debts) && s.currencyCacheValid == old(s.currencyCacheValid)
              else if DebtWrite(debtId) in fails then
                && outcome == Failure(DatabaseError(DebtWrite(debtId)))
                && s.debts == old(s.debts) && s.currencyCacheValid == old(s.currencyCacheValid)
              else
                && outcome == Success && !s.currencyCacheValid
                && s.debts == (if debtId in old(s.debts) && old(s.debts)[debtId].userId == userId
                               then old(s.debts) - {debtId} else old(s.debts))
  {
    if debtId == "" {
      return Skipped;
    }
    if TxSearch in fails {
      return Failure(DatabaseError(TxSearch));
    }
    if HasLinkedTransaction(s.transactions, debtId) {
      return Failure(DebtHasTransactions);
    }
    if DebtWrite(debtId) in fails {
      return Failure(DatabaseError(DebtWrite(debtId)));
    }
    if debtId in s.debts && s.debts[debtId].userId == userId {
      s.debts := s.debts - {debtId};
    }
    s.currencyCacheValid := false;
    outcome := Success;
  }

  // ---------------------------------------------------------------------
  // Recording a payment
  // ---------------------------------------------------------------------

  /** Paying a debt I owe is an expense; being paid a debt owed to me is an income. */
  function PaymentTxType(t: DebtType): (r: TxType)
    ensures r == Expense <==> t == IOwe
  {
    if t == IOwe then Expense else Income
  }

  /** The caption before the debt's name, translated by debt type. */
  function PaymentCaption(t: DebtType, labelIOwe: string, labelOwedToMe: string): string {
    if t == IOwe then labelIOwe else labelOwedToMe
  }

  /** The note before the tag: caption, the debt's name in double quotes, the user's note after
      " - " when there is one. */
  function PaymentHead(caption: string, name: string, notes: string): string {
    caption + " \"" + name + "\"" + (if notes != "" then " - " + notes else "")
  }

  /** A payment's note ends with the tag `(Ref: debt_<id>)`. */
  function PaymentNote(caption: string, name: string, notes: string, debtId: Id): (r: string)
    ensures EndsWith(r, RefTag(PaymentRef(debtId)))
    ensures r == PaymentHead(caption, name, notes) + RefTag(PaymentRef(debtId))
  {
    var head := PaymentHead(caption, name, notes);
    assert (head + RefTag(PaymentRef(debtId)))[|head|..] == RefTag(PaymentRef(debtId));
    head + RefTag(PaymentRef(debtId))
  }

  /** The status after a payment: paid once nothing is owed, partially paid while something
      below the initial amount is owed, active otherwise. */
  function StatusAfterPayment(owed: int, initialAmount: int): (r: DebtStatus)
    ensures r == Paid <==> owed <= 0
    ensures r == PartiallyPaid <==> 0 < owed < initialAmount
    ensures r == Active <==> 0 < owed && initialAmount <= owed
  {
    if owed <= 0 then Paid else if owed < initialAmount then PartiallyPaid else Active
  }

  /** The balance written to the paying account: the balance moves against an expense and with
      an income. */
  function PaidBalance(balance: int, txType: TxType, amount: int): (r: int)
    ensures txType == Expense ==> r + amount == balance
    ensures txType == Income ==> r - amount == balance
  {
    if txType == Expense then balance - amount else balance + amount
  }

  /** The payment account, looked up in the page's cached list, exists and is in the debt's
      currency. */
  predicate PaymentAccountOk(cache: seq<Account>, debt: Debt, accountId: Id) {
    FindAccount(cache, accountId).Some? && FindAccount(cache, accountId).value.currency == debt.currency
  }

  /** How far a payment gets: 0 when it is refused or its transaction is not written, 1 when
      the transaction is written but the balance is not, 2 when the balance is written but the
      debt is not, 3 when all three writes succeed. */
  function WritesDone(cache: seq<Account>, currentDebt: Option<Debt>, p: DebtPaymentForm.PaymentPayload,
                      fails: set<Write>): (n: nat)
    ensures n <= 3
    ensures n >= 1 <==> currentDebt.Some? && currentDebt.value.id != ""
                        && PaymentAccountOk(cache, currentDebt.value, p.accountId) && TxInsert !in fails
    ensures n >= 2 <==> n >= 1 && AccountWrite(p.accountId) !in fails
    ensures n == 3 <==> n >= 2 && DebtWrite(currentDebt.value.id) !in fails
  {
    if currentDebt.None? || currentDebt.value.id == "" then 0
    else if !PaymentAccountOk(cache, currentDebt.value, p.accountId) || TxInsert in fails then 0
    else if AccountWrite(p.accountId) in fails then 1
    else if DebtWrite(currentDebt.value.id) in fails then 2
    else 3
  }

  /** What handleSubmitDebtPayment reports. The two refusals come before any write. */
  function PaymentOutcome(cache: seq<Account>, currentDebt: Option<Debt>, p: DebtPaymentForm.PaymentPayload,
                          fails: set<Write>): (r: Outcome)
    ensures r == Success <==> WritesDone(cache, currentDebt, p, fails) == 3
    ensures r == Failure(DebtNotFound) <==> currentDebt.None? || currentDebt.value.id == ""
    ensures r == Failure(PaymentAccountCurrencyMismatch) <==>
              currentDebt.Some? && currentDebt.value.id != "" && !PaymentAccountOk(cache, currentDebt.value, p.accountId)
  {
    if currentDebt.None? || currentDebt.value.id == "" then Failure(DebtNotFound)
    else if !PaymentAccountOk(cache, currentDebt.value, p.accountId) then Failure(PaymentAccountCurrencyMismatch)
    else if TxInsert in fails then Failure(DatabaseError(TxInsert))
    else if AccountWrite(p.accountId) in fails then Failure(DatabaseError(AccountWrite(p.accountId)))
    else if DebtWrite(currentDebt.value.id) in fails then Failure(DatabaseError(DebtWrite(currentDebt.value.id)))
    else Success
  }

  /** The transaction a payment inserts: in the debt's currency, on the chosen account. */
  function PaymentTransaction(debt: Debt, p: DebtPaymentForm.PaymentPayload, userId: Id, caption: string,
                              id: Id): (r: Transaction)
    ensures r.id == id && r.txType == PaymentTxType(debt.debtType) && r.amount == p.amount
    ensures r.currency == debt.currency && r.accountId == p.accountId
    ensures r.userId == userId && r.date == p.date
    ensures r.materialId.None? && r.materialQty.None? && r.imageUrl.None?
    ensures r.notes == PaymentNote(caption, debt.name, p.notes, debt.id)
    ensures EndsWith(r.notes, RefTag(PaymentRef(debt.id)))
  {
    Transaction(id, userId, PaymentTxType(debt.debtType), p.amount, debt.currency, p.date,
                PaymentNote(caption, debt.name, p.notes, debt.id), p.accountId, None, None, None)
  }

  /** The accounts table after the balance update, which touches the row with that id if any. */
  function BalanceWritten(accounts: map<Id, Account>, id: Id, balance: int): map<Id, Account> {
    if id in accounts then accounts[id := accounts[id].(balance := balance)] else accounts
  }

  /** The debts table after the payment's update of the amount owed and the status, computed
      from the page's copy of the debt. */
  function OwedWritten(debts: map<Id, Debt>, debt: Debt, amount: int): map<Id, Debt> {
    var owed := debt.currentOwed - amount;
    if debt.id in debts
    then debts[debt.id := debts[debt.id].(currentOwed := owed, status := StatusAfterPayment(owed, debt.initialAmount))]
    else debts
  }

  /** The payment's insert into the transactions table. */
  method InsertTransaction(s: Store, tx: Transaction)
    requires s.Valid()
    modifies s
    ensures s.Valid()
    ensures s.transactions == old(s.transactions)[tx.id := tx]
    ensures s.accounts == old(s.accounts) && s.materials == old(s.materials) && s.debts == old(s.debts)
    ensures s.currencies == old(s.currencies) && s.currencyCacheValid == old(s.currencyCacheValid)
  {
    s.transactions := s.transactions[tx.id := tx];
  }

  /** The payment's update of the account's balance. */
  method WriteBalance(s: Store, id: Id, balance: int)
    requires s.Valid()
    modifies s
    ensures s.Valid()
    ensures s.accounts == BalanceWritten(old(s.accounts), id, balance)
    ensures s.transactions == old(s.transactions) && s.materials == old(s.materials) && s.debts == old(s.debts)
    ensures s.currencies == old(s.currencies) && s.currencyCacheValid == old(s.currencyCacheValid)
  {
    s.accounts := BalanceWritten(s.accounts, id, balance);
  }

  /** The payment's update of the debt's amount owed and status. */
  method WriteOwed(s: Store, debt: Debt, amount: int)
    requires s.Valid()
    modifies s
    ensures s.Valid()
    ensures s.debts == OwedWritten(old(s.debts), debt, amount)
    ensures s.transactions == old(s.transactions) && s.materials == old(s.materials) && s.accounts == old(s.accounts)
    ensures s.currencies == old(s.currencies) && s.currencyCacheValid == old(s.currencyCacheValid)
  {
    s.debts := OwedWritten(s.debts, debt, amount);
  }

  /** handleSubmitDebtPayment: check the debt and the account, then insert the transaction,
      write the account's new balance and write the debt's new amount owed and status, stopping
      at the first write that fails. The balance and the amount owed are computed from the
      page's cached account and debt; neither update is limited to the user. */
  method SubmitDebtPayment(s: Store, cache: seq<Account>, currentDebt: Option<Debt>,
                           p: DebtPaymentForm.PaymentPayload, userId: Id, labelIOwe: string,
                           labelOwedToMe: string, newTxId: Id, fails: set<Write>)
    returns (outcome: Outcome)
    requires s.Valid() && newTxId !in s.transactions
    modifies s
    ensures s.Valid()
    ensures s.materials == old(s.materials) && s.currencies == old(s.currencies)
    ensures s.currencyCacheValid == old(s.currencyCacheValid)
    ensures outcome == PaymentOutcome(cache, currentDebt, p, fails)
    ensures WritesDone(cache, currentDebt, p, fails) == 0 ==> s.transactions == old(s.transactions)
    ensures WritesDone(cache, currentDebt, p, fails) >= 1 ==>
              s.transactions == old(s.transactions)[newTxId :=
                PaymentTransaction(currentDebt.value, p, userId,
                  PaymentCaption(currentDebt.value.debtType, labelIOwe, labelOwedToMe), newTxId)]
    ensures WritesDone(cache, currentDebt, p, fails) < 2 ==> s.accounts == old(s.accounts)
    ensures WritesDone(cache, currentDebt, p, fails) >= 2 ==>
              s.accounts == BalanceWritten(old(s.accounts), p.accountId,
                PaidBalance(FindAccount(cache, p.accountId).value.balance,
                            PaymentTxType(currentDebt.value.debtType), p.amount))
    ensures WritesDone(cache, currentDebt, p, fails) < 3 ==> s.debts == old(s.debts)
    ensures WritesDone(cache, currentDebt, p, fails) == 3 ==>
              s.debts == OwedWritten(old(s.debts), currentDebt.value, p.amount)
  {
    if currentDebt.None? || currentDebt.value.id == "" {
      return Failure(DebtNotFound);
    }
    var debt := currentDebt.value;
    var account := FindAccount(cache, p.accountId);
    if account.None? || account.value.currency != debt.currency {
      return Failure(PaymentAccountCurrencyMismatch);
    }
    var txType := PaymentTxType(debt.debtType);
    var caption := PaymentCaption(debt.debtType, labelIOwe, labelOwedToMe);
    if TxInsert in fails {
      return Failure(DatabaseError(TxInsert));
    }
    InsertTransaction(s, PaymentTransaction(debt, p, userId, caption, newTxId));

    var newBalance := account.value.balance;
    if txType == Expense {
      newBalance := newBalance - p.amount;
    } else {
      newBalance := newBalance + p.amount;
    }
    if AccountWrite(p.accountId) in fails {
      return Failure(DatabaseError(AccountWrite(p.accountId)));
    }
    assert newBalance == PaidBalance(account.value.balance, txType, p.amount);
    WriteBalance(s, p.accountId, newBalance);

    var newOwed := debt.currentOwed - p.amount;
    var status := Active;
    if newOwed <= 0 {
      status := Paid;
    } else if newOwed < debt.initialAmount {
      status := PartiallyPaid;
    }
    if DebtWrite(debt.id) in fails {
      return Failure(DatabaseError(DebtWrite(debt.id)));
    }
    assert status == StatusAfterPayment(newOwed, debt.initialAmount);
    WriteOwed(s, debt, p.amount);
    outcome := Success;
  }

  // ---------------------------------------------------------------------
  // Properties
  // ---------------------------------------------------------------------

  /** A payment moves the account and the debt by the same amount, so the user's net position
      against that debt is unchanged: what I hold minus what I owe, or what I hold plus what I
      am owed. */
  lemma PaymentKeepsNetPosition(balance: int, debt: Debt, amount: int)
    ensures var b := PaidBalance(balance, PaymentTxType(debt.debtType), amount);
            var owed := debt.currentOwed - amount;
            && (debt.debtType == IOwe ==> b - owed == balance - debt.currentOwed)
            && (debt.debtType == OwedToMe ==> b + owed == balance + debt.currentOwed)
  {
  }

  /** A payment the form accepts, on a debt that owes no more than it started with, leaves the
      debt partially paid or paid, and paid exactly when it covers all that is owed. The page does
      not keep that bound: an edit may lower the initial amount below what is still owed, since
      the edit leaves the amount owed alone (see EditedDebt). A debt so edited can stay Active
      after a partial payment; the amount owed stays at zero or more either way (see
      DebtPaymentForm.AcceptedPaymentFits). */
  lemma AcceptedPaymentStatus(f: DebtPaymentForm.PaymentFields, debt: Debt, details: Option<Account>)
    requires DebtPaymentForm.Acceptable(f, debt, details)
    requires debt.currentOwed <= debt.initialAmount
    ensures var owed := debt.currentOwed - f.amount.value;
            var st := StatusAfterPayment(owed, debt.initialAmount);
            && owed >= 0 && st != Active
            && (st == Paid <==> f.amount.value == debt.currentOwed)
  {
  }

  /** Once a payment's transaction is stored, the delete guard finds it. */
  lemma PaymentBlocksDelete(transactions: map<Id, Transaction>, k: Id, caption: string, name: string,
                            notes: string, debtId: Id)
    requires k in transactions && transactions[k].notes == PaymentNote(caption, name, notes, debtId)
    ensures HasLinkedTransaction(transactions, debtId)
  {
    PaymentNoteLinked(caption, name, notes, debtId);
  }

  /** The corrected guard matches every payment's note. */
  lemma PaymentNoteLinked(caption: string, name: string, notes: string, debtId: Id)
    ensures Linked(PaymentNote(caption, name, notes, debtId), debtId)
  {
    var head := PaymentHead(caption, name, notes);
    var pat := "(Ref: " + PaymentRef(debtId) + ")";
    assert RefTag(PaymentRef(debtId)) == " " + pat;
    assert PaymentNote(caption, name, notes, debtId) == (head + " ") + pat + "";
    ILikeContainsInfix(head + " ", pat, "");
  }

  /** An id with no `_`, space or `(`, as every UUID is. */
  predicate PlainId(id: Id) {
    id != "" && forall i :: 0 <= i < |id| ==> id[i] != '_' && id[i] != ' ' && id[i] != '('
  }

  /** A pattern made of a nine-character prefix and a plain id finds nothing in the payment tag
      and cannot begin before the tag and end inside it. The prefix's first character occurs in
      the tag only at `debt_`, too close to the end; a tail of the pattern would have to start
      with `_` or a space against the tag's space, then match its `(`. */
  lemma TagAddsNoMatch(prefix: string, debtId: Id)
    requires PlainId(debtId)
    requires |prefix| == 9 && prefix[0] != '_' && prefix[8] == '_'
    requires FreeOf(" (Ref: ", LowerChar(prefix[0]))
    requires forall m :: 0 < m < 8 ==> !CharLike(' ', prefix[m]) || !CharLike('(', prefix[m + 1])
    ensures var tag := RefTag(PaymentRef(debtId));
            var pat := prefix + debtId;
            && !ILikeContains(tag, pat)
            && forall m :: 0 < m < |pat| ==> !LikePrefix(tag, pat[m..])
  {
    var tag := RefTag(PaymentRef(debtId));
    var pat := prefix + debtId;
    var c := LowerChar(pat[0]);
    assert tag == " (Ref: " + ("debt_" + debtId + ")");
    forall i | 0 <= i < 7
      ensures LowerChar(tag[i]) != c
    {
      assert tag[i] == " (Ref: "[i];
    }
    NoRoomNoMatch(tag, pat);
    forall m | 0 < m < |pat|
      ensures !LikePrefix(tag, pat[m..])
    {
      var q := pat[m..];
      assert tag[0] == ' ' && tag[1..][0] == '(';
      if m < 8 {
        assert q[0] == prefix[m] && q[1..][0] == prefix[m + 1];
      } else if m == 8 {
        assert q[1..][0] == debtId[0];
      } else {
        assert q[0] == debtId[m - 9];
      }
    }
  }

  /** The as-written guard sees only the text before the tag: for a plain id, a payment's note
      matches it exactly when the caption, the debt's name and the user's note (as the payment
      joins them) already hold `debt_ref_<id>` or `دين_مرجع_<id>`. */
  lemma AsWrittenGuardIgnoresTag(caption: string, name: string, notes: string, debtId: Id)
    requires PlainId(debtId)
    ensures LinkedAsWritten(PaymentNote(caption, name, notes, debtId), debtId)
            <==> LinkedAsWritten(PaymentHead(caption, name, notes), debtId)
  {
    var head := PaymentHead(caption, name, notes);
    var tag := RefTag(PaymentRef(debtId));
    var latin := "debt_ref_";
    var arabic := "دين_مرجع_";
    forall m | 0 < m < 8
      ensures !CharLike(' ', latin[m]) || !CharLike('(', latin[m + 1])
      ensures !CharLike(' ', arabic[m]) || !CharLike('(', arabic[m + 1])
    {
      assert m == 1 || m == 2 || m == 3 || m == 4 || m == 5 || m == 6 || m == 7;
    }
    forall i | 0 <= i < 7
      ensures LowerChar(" (Ref: "[i]) != 'd' && LowerChar(" (Ref: "[i]) != 'د'
    {
      assert i == 0 || i == 1 || i == 2 || i == 3 || i == 4 || i == 5 || i == 6;
    }
    TagAddsNoMatch(latin, debtId);
    TagAddsNoMatch(arabic, debtId);
    ILikeContainsExtend(head, tag, latin + debtId);
    ILikeContainsExtend(head, tag, arabic + debtId);
    if !ILikeContains(head, latin + debtId) {
      NoStraddle(head, tag, latin + debtId);
    }
    if !ILikeContains(head, arabic + debtId) {
      NoStraddle(head, tag, arabic + debtId);
    }
  }

  /** The payment in the example: caption "Payment", debt "Car loan", no note, debt 7. The
      as-written guard misses it, the corrected one finds it. */
  lemma AsWrittenGuardMissesExample(caption: string, name: string, debtId: Id)
    requires caption == "Payment" && name == "Car loan" && debtId == "7"
    ensures !LinkedAsWritten(PaymentNote(caption, name, "", debtId), debtId)
    ensures Linked(PaymentNote(caption, name, "", debtId), debtId)
  {
    var head := PaymentHead(caption, name, "");
    ExampleHeadFree(head);
    NoRoomNoMatch(head, "debt_ref_" + debtId);
    NoRoomNoMatch(head, "دين_مرجع_" + debtId);
    AsWrittenGuardIgnoresTag(caption, name, "", debtId);
    PaymentNoteLinked(caption, name, "", debtId);
  }

  /** The example's text before the tag holds neither `d` nor `د`. */
  lemma ExampleHeadFree(head: string)
    requires head == "Payment \"Car loan\""
    ensures forall i :: 0 <= i < |head| ==> LowerChar(head[i]) != 'd' && LowerChar(head[i]) != 'د'
  {
    forall i | 0 <= i < |head|
      ensures LowerChar(head[i]) != 'd' && LowerChar(head[i]) != 'د'
    {
      assert i < 9 || 9 <= i < 18;
      if i < 9 {
        assert i == 0 || i == 1 || i == 2 || i == 3 || i == 4 || i == 5 || i == 6 || i == 7 || i == 8;
      } else {
        assert i == 9 || i == 10 || i == 11 || i == 12 || i == 13 || i == 14 || i == 15 || i == 16 || i == 17;
      }
    }
  }
}

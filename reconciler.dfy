/** updateRelatedData: after a transaction row is created, edited or deleted, bring the balance
    of one account and the stock of one material back in step with it. */
module Reconciler {
  import opened Base
  import opened Ledger

  /** How a call is classified from which of the two transactions it is given. The delete
      handler passes a new object without a type; the model passes no new transaction. */
  datatype Kind = Create | Edit | Delete | Untouched

  function Classify(newTx: Option<Transaction>, oldTx: Option<Transaction>): Kind {
    match (oldTx, newTx)
    case (None, Some(_)) => Create
    case (Some(_), Some(_)) => Edit
    case (Some(_), None) => Delete
    case (None, None) => Untouched
  }

  /** What a transaction does to its account: income adds the amount, anything else subtracts it. */
  function SignedAmount(tx: Transaction): int {
    if tx.txType == Income then tx.amount else -tx.amount
  }

  /** `old.account_id || new.account_id`: the one account a call looks at. */
  function AccountTarget(newTx: Option<Transaction>, oldTx: Option<Transaction>): Option<Id> {
    if oldTx.Some? && oldTx.value.accountId != "" then Some(oldTx.value.accountId)
    else if newTx.Some? && newTx.value.accountId != "" then Some(newTx.value.accountId)
    else None
  }

  /** The balance after reverting the old transaction (edit, delete) and applying the new one
      (create, edit). */
  function BalanceAfter(balance: int, newTx: Option<Transaction>, oldTx: Option<Transaction>): int {
    balance
    - (if oldTx.Some? then SignedAmount(oldTx.value) else 0)
    + (if newTx.Some? then SignedAmount(newTx.value) else 0)
  }

  /** Create and delete write the row back even when nothing changed. */
  predicate AlwaysWrites(newTx: Option<Transaction>, oldTx: Option<Transaction>) {
    Classify(newTx, oldTx) == Create || Classify(newTx, oldTx) == Delete
  }

  datatype StepResult<T> = StepResult(rows: map<Id, T>, error: Option<Reason>)

  /** The account half of the reconciliation, as a function of the accounts table. */
  function AccountStep(accounts: map<Id, Account>, newTx: Option<Transaction>,
                       oldTx: Option<Transaction>, fails: set<Write>): StepResult<Account>
  {
    match AccountTarget(newTx, oldTx)
    case None => StepResult(accounts, None)
    case Some(id) =>
      if id !in accounts || AccountRead(id) in fails then StepResult(accounts, Some(AccountFetchFailed))
      else
        var b := BalanceAfter(accounts[id].balance, newTx, oldTx);
        if b == accounts[id].balance && !AlwaysWrites(newTx, oldTx) then StepResult(accounts, None)
        else if AccountWrite(id) in fails then StepResult(accounts, Some(AccountUpdateFailed))
        else StepResult(accounts[id := accounts[id].(balance := b)], None)
  }

  predicate Present(m: Option<Id>) {
    m.Some? && m.value != ""
  }

  /** `old.material_id || new.material_id`: the one material a call looks at. */
  function MaterialTarget(newTx: Option<Transaction>, oldTx: Option<Transaction>): Option<Id> {
    if oldTx.Some? && Present(oldTx.value.materialId) then oldTx.value.materialId
    else if newTx.Some? && Present(newTx.value.materialId) then newTx.value.materialId
    else None
  }

  /** A transaction moves the stock of `target` only when it names that material and carries a
      quantity. */
  function QtyEffect(tx: Transaction, target: Id): int {
    if tx.materialId == Some(target) && tx.materialQty.Some? then tx.materialQty.value else 0
  }

  function QuantityAfter(q: int, newTx: Option<Transaction>, oldTx: Option<Transaction>, target: Id): int {
    q
    - (if oldTx.Some? then QtyEffect(oldTx.value, target) else 0)
    + (if newTx.Some? then QtyEffect(newTx.value, target) else 0)
  }

  /** The material half of the reconciliation, as a function of the materials table. */
  function MaterialStep(materials: map<Id, Material>, newTx: Option<Transaction>,
                        oldTx: Option<Transaction>, fails: set<Write>): StepResult<Material>
  {
    match MaterialTarget(newTx, oldTx)
    case None => StepResult(materials, None)
    case Some(id) =>
      if id !in materials || MaterialRead(id) in fails then StepResult(materials, Some(MaterialFetchFailed))
      else
        var q := QuantityAfter(materials[id].quantity, newTx, oldTx, id);
        if q == materials[id].quantity && !AlwaysWrites(newTx, oldTx) then StepResult(materials, None)
        else if MaterialWrite(id) in fails then StepResult(materials, Some(MaterialUpdateFailed))
        else StepResult(materials[id := materials[id].(quantity := q)], None)
  }

  /** Promise.all fails when either half failed; the account's failure is reported first. */
  function CallOutcome(accountError: Option<Reason>, materialError: Option<Reason>): Outcome {
    if accountError.Some? then Failure(accountError.value)
    else if materialError.Some? then Failure(materialError.value)
    else Success
  }

  /** The account half as the source performs it: read the balance, adjust a working value
      step by step, and write it back when it changed or the call is a create or a delete. */
  method ReconcileAccount(s: Store, newTx: Option<Transaction>, oldTx: Option<Transaction>,
                          fails: set<Write>) returns (accountError: Option<Reason>)
    requires s.Valid()
    modifies s
    ensures s.Valid()
    ensures AccountStep(old(s.accounts), newTx, oldTx, fails) == StepResult(s.accounts, accountError)
    ensures s.materials == old(s.materials) && s.transactions == old(s.transactions)
    ensures s.debts == old(s.debts) && s.currencies == old(s.currencies)
    ensures s.currencyCacheValid == old(s.currencyCacheValid)
  {
    var isCreate := oldTx.None? && newTx.Some?;
    var isDelete := oldTx.Some? && newTx.None?;
    var isEdit := oldTx.Some? && newTx.Some?;
    accountError := None;
    var accountId := AccountTarget(newTx, oldTx);
    if accountId.Some? {
      var id := accountId.value;
      if id !in s.accounts || AccountRead(id) in fails {
        accountError := Some(AccountFetchFailed);
      } else {
        var currentBalance := s.accounts[id].balance;
        var calculated := currentBalance;
        if isEdit || isDelete {
          if oldTx.value.txType == Income {
            calculated := calculated - oldTx.value.amount;
          } else {
            calculated := calculated + oldTx.value.amount;
          }
        }
        if isCreate || isEdit {
          if newTx.value.txType == Income {
            calculated := calculated + newTx.value.amount;
          } else {
            calculated := calculated - newTx.value.amount;
          }
        }
        assert calculated == BalanceAfter(currentBalance, newTx, oldTx);
        if calculated != currentBalance || isCreate || isDelete {
          if AccountWrite(id) in fails {
            accountError := Some(AccountUpdateFailed);
          } else {
            s.accounts := s.accounts[id := s.accounts[id].(balance := calculated)];
          }
        }
      }
    }
  }

  /** The material half: the same read-adjust-write, guarded by the material ids. */
  method ReconcileMaterial(s: Store, newTx: Option<Transaction>, oldTx: Option<Transaction>,
                           fails: set<Write>) returns (materialError: Option<Reason>)
    requires s.Valid()
    modifies s
    ensures s.Valid()
    ensures MaterialStep(old(s.materials), newTx, oldTx, fails) == StepResult(s.materials, materialError)
    ensures s.accounts == old(s.accounts) && s.transactions == old(s.transactions)
    ensures s.debts == old(s.debts) && s.currencies == old(s.currencies)
    ensures s.currencyCacheValid == old(s.currencyCacheValid)
  {
    var isCreate := oldTx.None? && newTx.Some?;
    var isDelete := oldTx.Some? && newTx.None?;
    var isEdit := oldTx.Some? && newTx.Some?;
    materialError := None;
    var materialId := MaterialTarget(newTx, oldTx);
    if materialId.Some? {
      var id := materialId.value;
      if id !in s.materials || MaterialRead(id) in fails {
        materialError := Some(MaterialFetchFailed);
      } else {
        var currentQuantity := s.materials[id].quantity;
        var calculated := currentQuantity;
        if (isEdit || isDelete) && oldTx.value.materialId == Some(id) && oldTx.value.materialQty.Some? {
          calculated := calculated - oldTx.value.materialQty.value;
        }
        if (isCreate || isEdit) && newTx.value.materialId == Some(id) && newTx.value.materialQty.Some? {
          calculated := calculated + newTx.value.materialQty.value;
        }
        assert calculated == QuantityAfter(currentQuantity, newTx, oldTx, id);
        if calculated != currentQuantity || isCreate || isDelete {
          if MaterialWrite(id) in fails {
            materialError := Some(MaterialUpdateFailed);
          } else {
            s.materials := s.materials[id := s.materials[id].(quantity := calculated)];
          }
        }
      }
    }
  }

  /** updateRelatedData: both halves, then one outcome for the pair. */
  method UpdateRelatedData(s: Store, newTx: Option<Transaction>, oldTx: Option<Transaction>,
                           fails: set<Write>) returns (outcome: Outcome)
    requires s.Valid()
    modifies s
    ensures s.Valid()
    ensures s.accounts == AccountStep(old(s.accounts), newTx, oldTx, fails).rows
    ensures s.materials == MaterialStep(old(s.materials), newTx, oldTx, fails).rows
    ensures outcome == CallOutcome(AccountStep(old(s.accounts), newTx, oldTx, fails).error,
                                   MaterialStep(old(s.materials), newTx, oldTx, fails).error)
    ensures s.transactions == old(s.transactions) && s.debts == old(s.debts)
    ensures s.currencies == old(s.currencies) && s.currencyCacheValid == old(s.currencyCacheValid)
  {
    var accountError := ReconcileAccount(s, newTx, oldTx, fails);
    var materialError := ReconcileMaterial(s, newTx, oldTx, fails);
    outcome := CallOutcome(accountError, materialError);
  }

  // ---------------------------------------------------------------------
  // Properties of the reconciliation
  // ---------------------------------------------------------------------

  /** The account looked at is the old transaction's whenever it names one, else the new one's. */
  lemma TargetPrefersOldAccount(newTx: Option<Transaction>, oldTx: Option<Transaction>)
    ensures oldTx.Some? && oldTx.value.accountId != "" ==> AccountTarget(newTx, oldTx) == Some(oldTx.value.accountId)
    ensures (oldTx.None? || oldTx.value.accountId == "") && newTx.Some? && newTx.value.accountId != "" ==>
              AccountTarget(newTx, oldTx) == Some(newTx.value.accountId)
    ensures AccountTarget(newTx, oldTx).Some? ==> AccountTarget(newTx, oldTx).value != ""
  {
  }

  /** At most one account changes, and only its balance: every other row, and the set of rows,
      stays as it was. */
  lemma AccountStepTouchesOnlyTarget(accounts: map<Id, Account>, newTx: Option<Transaction>,
                                     oldTx: Option<Transaction>, fails: set<Write>)
    ensures var r := AccountStep(accounts, newTx, oldTx, fails);
            && r.rows.Keys == accounts.Keys
            && (forall k :: k in accounts && Some(k) != AccountTarget(newTx, oldTx) ==> r.rows[k] == accounts[k])
            && (forall k :: k in accounts ==> r.rows[k] == accounts[k].(balance := r.rows[k].balance))
  {
  }

  /** Creating an income adds its amount to its account; creating an expense subtracts it. */
  lemma CreateAppliesSignedAmount(accounts: map<Id, Account>, t: Transaction, fails: set<Write>)
    requires t.accountId in accounts && t.accountId != ""
    requires AccountRead(t.accountId) !in fails && AccountWrite(t.accountId) !in fails
    ensures var r := AccountStep(accounts, Some(t), None, fails);
            && r.error.None?
            && r.rows == accounts[t.accountId := accounts[t.accountId].(balance := r.rows[t.accountId].balance)]
            && (t.txType == Income ==> r.rows[t.accountId].balance == accounts[t.accountId].balance + t.amount)
            && (t.txType == Expense ==> r.rows[t.accountId].balance == accounts[t.accountId].balance - t.amount)
  {
  }

  /** A missing account, or a failing read of it, rejects the call and no account is written. */
  lemma MissingAccountRejects(accounts: map<Id, Account>, newTx: Option<Transaction>,
                              oldTx: Option<Transaction>, fails: set<Write>)
    requires AccountTarget(newTx, oldTx).Some?
    requires AccountTarget(newTx, oldTx).value !in accounts || AccountRead(AccountTarget(newTx, oldTx).value) in fails
    ensures AccountStep(accounts, newTx, oldTx, fails) == StepResult(accounts, Some(AccountFetchFailed))
  {
  }

  /** A missing material, or a failing read of it, rejects the call and no material is written. */
  lemma MissingMaterialRejects(materials: map<Id, Material>, newTx: Option<Transaction>,
                               oldTx: Option<Transaction>, fails: set<Write>)
    requires MaterialTarget(newTx, oldTx).Some?
    requires MaterialTarget(newTx, oldTx).value !in materials || MaterialRead(MaterialTarget(newTx, oldTx).value) in fails
    ensures MaterialStep(materials, newTx, oldTx, fails) == StepResult(materials, Some(MaterialFetchFailed))
  {
  }

  /** Deleting a transaction reverts exactly what creating it applied, to the balance and to the
      stock, whenever the writes go through. */
  lemma DeleteUndoesCreate(accounts: map<Id, Account>, materials: map<Id, Material>,
                           t: Transaction, fails: set<Write>)
    requires AccountRead(t.accountId) !in fails && AccountWrite(t.accountId) !in fails
    requires t.materialId.Some? ==> MaterialRead(t.materialId.value) !in fails && MaterialWrite(t.materialId.value) !in fails
    ensures AccountStep(AccountStep(accounts, Some(t), None, fails).rows, None, Some(t), fails).rows == accounts
    ensures MaterialStep(MaterialStep(materials, Some(t), None, fails).rows, None, Some(t), fails).rows == materials
  {
    var id := t.accountId;
    if id != "" && id in accounts {
      var a := accounts[id];
      var after := accounts[id := a.(balance := a.balance + SignedAmount(t))];
      assert AccountStep(accounts, Some(t), None, fails).rows == after;
      assert after[id := a] == accounts;
    }
    if Present(t.materialId) && t.materialId.value in materials {
      var m := t.materialId.value;
      var x := materials[m];
      var after := materials[m := x.(quantity := x.quantity + QtyEffect(t, m))];
      assert MaterialStep(materials, Some(t), None, fails).rows == after;
      assert after[m := x] == materials;
    }
  }

  /** An edit that keeps the account ends where deleting the old row and creating the new one
      would have ended. */
  lemma EditIsDeleteThenCreate(accounts: map<Id, Account>, o: Transaction, n: Transaction, fails: set<Write>)
    requires o.accountId == n.accountId
    requires AccountRead(o.accountId) !in fails && AccountWrite(o.accountId) !in fails
    ensures AccountStep(accounts, Some(n), Some(o), fails).rows
         == AccountStep(AccountStep(accounts, None, Some(o), fails).rows, Some(n), None, fails).rows
  {
    var id := o.accountId;
    if id != "" && id in accounts {
      var a := accounts[id];
      var mid := accounts[id := a.(balance := a.balance - SignedAmount(o))];
      assert AccountStep(accounts, None, Some(o), fails).rows == mid;
      var fin := a.(balance := a.balance - SignedAmount(o) + SignedAmount(n));
      assert mid[id := fin] == accounts[id := fin];
      if fin == a {
        assert accounts[id := fin] == accounts;
      }
    }
  }

  /** As written, an edit that moves a transaction to another account reverts the old amount and
      applies the new one, both on the old account; the new account is not touched. */
  lemma EditMovingAccountHitsOldAccount(accounts: map<Id, Account>, o: Transaction, n: Transaction, fails: set<Write>)
    requires o.accountId != "" && o.accountId in accounts && n.accountId != o.accountId
    requires AccountRead(o.accountId) !in fails && AccountWrite(o.accountId) !in fails
    ensures var r := AccountStep(accounts, Some(n), Some(o), fails);
            && r.error.None?
            && r.rows[o.accountId].balance == accounts[o.accountId].balance - SignedAmount(o) + SignedAmount(n)
            && (n.accountId in accounts ==> r.rows[n.accountId] == accounts[n.accountId])
  {
  }

  /** An edit whose revert and apply cancel out writes nothing, so once the row is read it
      succeeds even when the write would have failed. */
  lemma CancellingEditWritesNothing(accounts: map<Id, Account>, o: Transaction, n: Transaction, fails: set<Write>)
    requires o.accountId != "" && o.accountId in accounts
    requires SignedAmount(o) == SignedAmount(n) && AccountRead(o.accountId) !in fails
    ensures AccountStep(accounts, Some(n), Some(o), fails) == StepResult(accounts, None)
  {
  }

  /** Create and delete always write the balance back: a failing write is reported even when the
      balance would not change. */
  lemma CreateAndDeleteAlwaysWrite(accounts: map<Id, Account>, t: Transaction, fails: set<Write>)
    requires t.accountId != "" && t.accountId in accounts
    requires AccountRead(t.accountId) !in fails && AccountWrite(t.accountId) in fails
    ensures AccountStep(accounts, Some(t), None, fails) == StepResult(accounts, Some(AccountUpdateFailed))
    ensures AccountStep(accounts, None, Some(t), fails) == StepResult(accounts, Some(AccountUpdateFailed))
  {
  }

  /** A call whose transactions name no material leaves every material as it was. */
  lemma NoMaterialLeavesStock(materials: map<Id, Material>, newTx: Option<Transaction>,
                              oldTx: Option<Transaction>, fails: set<Write>)
    requires newTx.Some? ==> !Present(newTx.value.materialId)
    requires oldTx.Some? ==> !Present(oldTx.value.materialId)
    ensures MaterialStep(materials, newTx, oldTx, fails) == StepResult(materials, None)
  {
  }

  /** Creating a transaction with a material and a quantity adds that quantity (signed) to the
      material's stock and to no other material's. */
  lemma CreateAppliesQuantity(materials: map<Id, Material>, t: Transaction, fails: set<Write>)
    requires Present(t.materialId) && t.materialId.value in materials && t.materialQty.Some?
    requires MaterialRead(t.materialId.value) !in fails && MaterialWrite(t.materialId.value) !in fails
    ensures var m := t.materialId.value;
            var r := MaterialStep(materials, Some(t), None, fails);
            && r.error.None?
            && r.rows == materials[m := materials[m].(quantity := materials[m].quantity + t.materialQty.value)]
  {
  }

  /** As written, an edit that switches the material reverts the old material's quantity and does
      not apply the new quantity anywhere. */
  lemma MaterialSwitchRevertsOldOnly(materials: map<Id, Material>, o: Transaction, n: Transaction, fails: set<Write>)
    requires Present(o.materialId) && o.materialId.value in materials && o.materialQty.Some?
    requires n.materialId != o.materialId
    requires MaterialRead(o.materialId.value) !in fails && MaterialWrite(o.materialId.value) !in fails
    ensures var m := o.materialId.value;
            var r := MaterialStep(materials, Some(n), Some(o), fails);
            && r.error.None?
            && r.rows == materials[m := materials[m].(quantity := materials[m].quantity - o.materialQty.value)]
  {
  }

  /** Creates applied one after another, all on one account. */
  function ApplyCreates(accounts: map<Id, Account>, txs: seq<Transaction>, fails: set<Write>): map<Id, Account>
    decreases |txs|
  {
    if txs == [] then accounts
    else ApplyCreates(AccountStep(accounts, Some(txs[0]), None, fails).rows, txs[1..], fails)
  }

  function SignedTotal(txs: seq<Transaction>): int
    decreases |txs|
  {
    if txs == [] then 0 else SignedAmount(txs[0]) + SignedTotal(txs[1..])
  }

  /** The account's balance moves by the signed total of the transactions created on it, and no
      other account moves. */
  lemma {:induction false} CreatesAccumulate(accounts: map<Id, Account>, id: Id, txs: seq<Transaction>, fails: set<Write>)
    requires id != "" && id in accounts && AccountRead(id) !in fails && AccountWrite(id) !in fails
    requires forall i :: 0 <= i < |txs| ==> txs[i].accountId == id
    ensures var r := ApplyCreates(accounts, txs, fails);
            r == accounts[id := accounts[id].(balance := accounts[id].balance + SignedTotal(txs))]
    decreases |txs|
  {
    if txs == [] {
      assert accounts[id := accounts[id].(balance := accounts[id].balance)] == accounts;
    } else {
      var next := AccountStep(accounts, Some(txs[0]), None, fails).rows;
      assert next == accounts[id := accounts[id].(balance := accounts[id].balance + SignedAmount(txs[0]))];
      CreatesAccumulate(next, id, txs[1..], fails);
      assert next[id := next[id].(balance := next[id].balance + SignedTotal(txs[1..]))]
          == accounts[id := accounts[id].(balance := accounts[id].balance + SignedTotal(txs))];
    }
  }
}

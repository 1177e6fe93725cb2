/** The materials page: saving a material (a restock when editing), recording the purchase that
    brought the new stock in, debiting the paying account, and the refusal to delete a material
    that transactions still name. */
module MaterialsPage {
  import opened Base
  import opened Ledger
  import Reconciler
  import MaterialForm

  /** What the purchase part of the form would hand over: the transaction's own fields. */
  datatype PurchasePayload = PurchasePayload(
    txType: TxType, accountId: Id, amount: int, currency: string, date: string, notes: string)

  // ---------------------------------------------------------------------
  // updateAccountForPurchase
  // ---------------------------------------------------------------------

  /** The debit applies only to an expense that names an account and has a non-zero amount. */
  predicate Debits(tx: Transaction) {
    tx.accountId != "" && tx.amount != 0 && tx.txType == Expense
  }

  /** The account row is read and its write goes through. */
  predicate Debitable(accounts: map<Id, Account>, tx: Transaction, fails: set<Write>) {
    tx.accountId in accounts && AccountRead(tx.accountId) !in fails && AccountWrite(tx.accountId) !in fails
  }

  /** The accounts table after the debit: the account loses the amount when the debit applies,
      the account exists and its write succeeds; otherwise nothing changes. */
  function DebitedAccounts(accounts: map<Id, Account>, tx: Transaction, fails: set<Write>): (r: map<Id, Account>)
    ensures r.Keys == accounts.Keys
    ensures forall k :: k in r && k != tx.accountId ==> r[k] == accounts[k]
  {
    if Debits(tx) && Debitable(accounts, tx, fails)
    then accounts[tx.accountId := accounts[tx.accountId].(balance := accounts[tx.accountId].balance - tx.amount)]
    else accounts
  }

  /** updateAccountForPurchase: take the purchase off the account's stored balance. A missing
      account or a failed write is reported to the user and goes no further. */
  method UpdateAccountForPurchase(s: Store, tx: Transaction, fails: set<Write>) returns (outcome: Outcome)
    requires s.Valid()
    modifies s
    ensures s.Valid()
    ensures s.materials == old(s.materials) && s.transactions == old(s.transactions)
    ensures s.debts == old(s.debts) && s.currencies == old(s.currencies)
    ensures s.currencyCacheValid == old(s.currencyCacheValid)
    ensures outcome == Skipped <==> !Debits(tx)
    ensures outcome == Failure(AccountFetchFailed) <==>
              Debits(tx) && (tx.accountId !in old(s.accounts) || AccountRead(tx.accountId) in fails)
    ensures outcome == Failure(AccountUpdateFailed) <==>
              Debits(tx) && tx.accountId in old(s.accounts) && AccountRead(tx.accountId) !in fails
              && AccountWrite(tx.accountId) in fails
    ensures outcome == Success <==> Debits(tx) && Debitable(old(s.accounts), tx, fails)
    ensures s.accounts == DebitedAccounts(old(s.accounts), tx, fails)
  {
    if !Debits(tx) {
      return Skipped;
    }
    if tx.accountId !in s.accounts || AccountRead(tx.accountId) in fails {
      return Failure(AccountFetchFailed);
    }
    var account := s.accounts[tx.accountId];
    var newBalance := account.balance - tx.amount;
    if AccountWrite(tx.accountId) in fails {
      return Failure(AccountUpdateFailed);
    }
    s.accounts := s.accounts[tx.accountId := account.(balance := newBalance)];
    outcome := Success;
  }

  /** The purchase debit is exactly what the transaction reconciler does on creating the same
      expense: the reconciler's target is the transaction's account, and an expense subtracts
      its amount. */
  lemma PurchaseDebitIsReconcilerCreate(accounts: map<Id, Account>, tx: Transaction, fails: set<Write>)
    requires Debits(tx) && Debitable(accounts, tx, fails)
    ensures Reconciler.AccountStep(accounts, Some(tx), None, fails) ==
              Reconciler.StepResult(accounts[tx.accountId := accounts[tx.accountId].(
                balance := accounts[tx.accountId].balance - tx.amount)], None)
  {
    assert Reconciler.AccountTarget(Some(tx), None) == Some(tx.accountId);
    assert Reconciler.SignedAmount(tx) == -tx.amount;
  }

  // ---------------------------------------------------------------------
  // handleSubmitMaterial
  // ---------------------------------------------------------------------

  /** `quantity_to_add > 0 ? quantity_to_add : 0`. */
  function ToAdd(p: MaterialForm.MaterialPayload): (r: int)
    ensures r >= 0
    ensures p.quantityToAdd.Some? && p.quantityToAdd.value > 0 ==> r == p.quantityToAdd.value
  {
    if p.quantityToAdd.Some? && p.quantityToAdd.value > 0 then p.quantityToAdd.value else 0
  }

  /** The stock an edit writes: the current quantity (0 when absent) plus what is added. */
  function EditedQuantity(p: MaterialForm.MaterialPayload): (r: int)
    ensures r >= p.currentQuantity.GetOr(0)
    ensures ToAdd(p) == 0 ==> r == p.currentQuantity.GetOr(0)
  {
    p.currentQuantity.GetOr(0) + ToAdd(p)
  }

  /** The stock an insert writes: the quantity to add. When the record has none the column's
      default applies, taken to be 0. */
  function CreatedQuantity(p: MaterialForm.MaterialPayload): int {
    p.quantityToAdd.GetOr(0)
  }

  /** The stored material after an edit: the form's fields and the new stock. */
  function EditedMaterial(m: Material, p: MaterialForm.MaterialPayload): (r: Material)
    ensures r.id == m.id && r.userId == m.userId && r.quantity == EditedQuantity(p)
    ensures r.name == p.name && r.pricePerUnit == p.pricePerUnit && r.currency == p.currency
  {
    m.(name := p.name, pricePerUnit := p.pricePerUnit, currency := p.currency,
       quantity := EditedQuantity(p), unitType := p.unitType, imageUrl := p.imageUrl)
  }

  function NewMaterial(p: MaterialForm.MaterialPayload, id: Id, userId: Id): (r: Material)
    ensures r.id == id && r.userId == userId && r.quantity == CreatedQuantity(p)
    ensures r.name == p.name && r.pricePerUnit == p.pricePerUnit && r.currency == p.currency
  {
    Material(id, userId, p.name, p.pricePerUnit, p.currency, CreatedQuantity(p), p.unitType, p.imageUrl)
  }

  /** A purchase is recorded only when there is one to record and stock is being added. */
  predicate RecordsPurchase(p: MaterialForm.MaterialPayload, purchase: Option<PurchasePayload>) {
    purchase.Some? && p.quantityToAdd.Some? && p.quantityToAdd.value > 0
  }

  /** The purchase transaction: linked to the saved material, affecting the quantity added. */
  function PurchaseTransaction(purchase: PurchasePayload, p: MaterialForm.MaterialPayload,
                               materialId: Id, userId: Id, id: Id): (r: Transaction)
    requires p.quantityToAdd.Some?
    ensures r.id == id && r.materialId == Some(materialId) && r.materialQty == p.quantityToAdd
    ensures r.accountId == purchase.accountId && r.amount == purchase.amount && r.txType == purchase.txType
  {
    Transaction(id, userId, purchase.txType, purchase.amount, purchase.currency, purchase.date,
                purchase.notes, purchase.accountId, Some(materialId), p.quantityToAdd, None)
  }

  /** Whether the record edits an existing material. */
  predicate Editing(p: MaterialForm.MaterialPayload) {
    p.id.Some? && p.id.value != ""
  }

  /** The material save goes through: an edit of an existing row of the user's, or an insert,
      that the database accepts. */
  predicate Saves(materials: map<Id, Material>, p: MaterialForm.MaterialPayload, userId: Id, fails: set<Write>) {
    if Editing(p) then
      MaterialWrite(p.id.value) !in fails && p.id.value in materials && materials[p.id.value].userId == userId
    else MaterialInsert !in fails
  }

  /** handleSubmitMaterial: update (the owner's row, which must exist) or insert the material;
      then, when a purchase comes with added stock, insert its transaction and debit the account.
      A failed purchase insert keeps the saved material and leaves the account alone; the
      debit's own outcome is reported separately and does not undo anything. */
  method SubmitMaterial(s: Store, p: MaterialForm.MaterialPayload, purchase: Option<PurchasePayload>,
                        userId: Id, newMaterialId: Id, newTxId: Id, fails: set<Write>)
    returns (outcome: Outcome, debit: Outcome)
    requires s.Valid() && newMaterialId != "" && newMaterialId !in s.materials && newTxId !in s.transactions
    modifies s
    ensures s.Valid()
    ensures s.debts == old(s.debts) && s.currencies == old(s.currencies)
    ensures s.currencyCacheValid == old(s.currencyCacheValid)
    ensures !Saves(old(s.materials), p, userId, fails) ==>
              && outcome.Failure? && s.materials == old(s.materials)
              && s.transactions == old(s.transactions) && s.accounts == old(s.accounts)
    ensures Editing(p) ==>
              var id := p.id.value;
              if MaterialWrite(id) in fails then outcome == Failure(DatabaseError(MaterialWrite(id)))
              else if id !in old(s.materials) || old(s.materials)[id].userId != userId then outcome == Failure(RowNotFound)
              else s.materials == old(s.materials)[id := EditedMaterial(old(s.materials)[id], p)]
    ensures !Editing(p) ==>
              if MaterialInsert in fails then outcome == Failure(DatabaseError(MaterialInsert))
              else s.materials == old(s.materials)[newMaterialId := NewMaterial(p, newMaterialId, userId)]
    ensures Saves(old(s.materials), p, userId, fails) && !RecordsPurchase(p, purchase) ==>
              && outcome == Success && debit == Skipped
              && s.transactions == old(s.transactions) && s.accounts == old(s.accounts)
    ensures Saves(old(s.materials), p, userId, fails) && RecordsPurchase(p, purchase) && TxInsert in fails ==>
              && outcome == Failure(MaterialSavedButTxFailed) && debit == Skipped
              && s.transactions == old(s.transactions) && s.accounts == old(s.accounts)
    ensures Saves(old(s.materials), p, userId, fails) && RecordsPurchase(p, purchase) && TxInsert !in fails ==>
              var savedId := if Editing(p) then p.id.value else newMaterialId;
              var tx := PurchaseTransaction(purchase.value, p, savedId, userId, newTxId);
              && outcome == Success
              && s.transactions == old(s.transactions)[newTxId := tx]
              && s.accounts == DebitedAccounts(old(s.accounts), tx, fails)
              && (debit == Success <==> Debits(tx) && Debitable(old(s.accounts), tx, fails))
  {
    debit := Skipped;
    var savedId: Id;
    if Editing(p) {
      var id := p.id.value;
      var currentQty := p.currentQuantity.GetOr(0);
      var quantityToAdd := if p.quantityToAdd.Some? && p.quantityToAdd.value > 0 then p.quantityToAdd.value else 0;
      var newTotal := currentQty + quantityToAdd;
      if MaterialWrite(id) in fails {
        return Failure(DatabaseError(MaterialWrite(id))), debit;
      }
      if id !in s.materials || s.materials[id].userId != userId {
        return Failure(RowNotFound), debit;
      }
      var m := s.materials[id];
      s.materials := s.materials[id := m.(name := p.name, pricePerUnit := p.pricePerUnit,
        currency := p.currency, quantity := newTotal, unitType := p.unitType, imageUrl := p.imageUrl)];
      savedId := id;
    } else {
      if MaterialInsert in fails {
        return Failure(DatabaseError(MaterialInsert)), debit;
      }
      s.materials := s.materials[newMaterialId := NewMaterial(p, newMaterialId, userId)];
      savedId := newMaterialId;
    }
    outcome := Success;
    if purchase.Some? && p.quantityToAdd.Some? && p.quantityToAdd.value > 0 {
      if TxInsert in fails {
        return Failure(MaterialSavedButTxFailed), debit;
      }
      var tx := PurchaseTransaction(purchase.value, p, savedId, userId, newTxId);
      s.transactions := s.transactions[newTxId := tx];
      debit := UpdateAccountForPurchase(s, tx, fails);
    }
  }

  // ---------------------------------------------------------------------
  // handleDeleteMaterial
  // ---------------------------------------------------------------------

  /** Some transaction names the material: the foreign key then refuses the delete. */
  predicate Referenced(transactions: map<Id, Transaction>, materialId: Id) {
    exists k :: k in transactions && transactions[k].materialId == Some(materialId)
  }

  /** Every material a transaction names is still stored. */
  predicate MaterialRefsIntact(materials: map<Id, Material>, transactions: map<Id, Transaction>) {
    forall k :: k in transactions && transactions[k].materialId.Some? ==> transactions[k].materialId.value in materials
  }

  /** The storage path of a material's image: the URL from the first `<userId>/` on. The URL is
      cut at indexOf, which is -1 (and so cuts nothing) when the folder is absent; the cut text
      is used only when it starts with the folder. An empty URL or user id gives no path. */
  function StoragePath(url: string, userId: Id): (r: Option<string>)
    ensures r.Some? <==> url != "" && userId != "" && exists j :: OccursAt(url, userId + "/", j)
    ensures r.Some? ==> EndsWith(url, r.value) && OccursAt(r.value, userId + "/", 0)
    ensures r.Some? ==> forall j :: 0 <= j < |url| - |r.value| ==> !OccursAt(url, userId + "/", j)
  {
    var folder := userId + "/";
    if url == "" || userId == "" then None
    else
      var i := IndexOf(url, folder);
      var path := if i < 0 then url else url[i..];
      if |path| >= |folder| && path[..|folder|] == folder then
        Some(path)
      else None
  }

  /** handleDeleteMaterial: delete the owner's material. When transactions still name it the
      database refuses, the user is told, and its image is kept. `removePath` is the storage
      path of the image then removed, if any. */
  method DeleteMaterial(s: Store, materialId: Id, imageUrl: Option<string>, userId: Id, fails: set<Write>)
    returns (outcome: Outcome, removePath: Option<string>)
    requires s.Valid()
    modifies s
    ensures s.Valid()
    ensures s.accounts == old(s.accounts) && s.transactions == old(s.transactions)
    ensures s.debts == old(s.debts) && s.currencies == old(s.currencies)
    ensures s.currencyCacheValid == old(s.currencyCacheValid)
    ensures removePath.Some? ==> outcome == Success && imageUrl.Some?
    ensures outcome != Success ==> s.materials == old(s.materials)
    ensures MaterialRefsIntact(old(s.materials), old(s.transactions)) ==> MaterialRefsIntact(s.materials, s.transactions)
    ensures materialId == "" ==> outcome == Skipped
    ensures var owned := materialId in old(s.materials) && old(s.materials)[materialId].userId == userId;
            materialId != "" ==>
              if owned && Referenced(old(s.transactions), materialId) then
                outcome == Failure(MaterialHasTransactions)
              else if MaterialWrite(materialId) in fails then
                outcome == Failure(DatabaseError(MaterialWrite(materialId)))
              else
                && outcome == Success
                && removePath == (if imageUrl.Some? then StoragePath(imageUrl.value, userId) else None)
                && s.materials == (if owned then old(s.materials) - {materialId} else old(s.materials))
  {
    removePath := None;
    if materialId == "" {
      return Skipped, removePath;
    }
    var owned := materialId in s.materials && s.materials[materialId].userId == userId;
    if owned && Referenced(s.transactions, materialId) {
      return Failure(MaterialHasTransactions), removePath;
    }
    if MaterialWrite(materialId) in fails {
      return Failure(DatabaseError(MaterialWrite(materialId))), removePath;
    }
    if owned {
      s.materials := s.materials - {materialId};
    }
    if imageUrl.Some? {
      removePath := StoragePath(imageUrl.value, userId);
    }
    outcome := Success;
  }

  // ---------------------------------------------------------------------
  // The form and the page together
  // ---------------------------------------------------------------------

  /** As written, saving an edited material writes a stock of 0, whatever it held and whatever
      the form showed. */
  lemma AsWrittenEditResetsStock(fp: MaterialForm.FormPayload)
    ensures EditedQuantity(MaterialForm.AsPageReadsIt(fp)) == 0
    ensures CreatedQuantity(MaterialForm.AsPageReadsIt(fp)) == 0
    ensures !RecordsPurchase(MaterialForm.AsPageReadsIt(fp), None)
  {
  }

  /** Through the interface the page expects, an edit stores the form's total and a new
      material starts with the form's quantity. */
  lemma InterfaceStoresFormQuantity(fp: MaterialForm.FormPayload)
    ensures fp.id.Some? ==> EditedQuantity(MaterialForm.PageInterface(fp)) == fp.quantity
    ensures fp.id.None? ==> CreatedQuantity(MaterialForm.PageInterface(fp)) == fp.quantity
  {
  }

  /** A material the form accepts keeps a non-negative stock after an edit through the
      interface the page expects. */
  lemma AcceptedEditKeepsStock(f: MaterialForm.MaterialFields, initial: Material, imageUrl: Option<string>)
    requires MaterialForm.Acceptable(f) && initial.id != ""
    ensures var fp := MaterialForm.Payload(f, Some(initial), imageUrl);
            && fp.id == Some(initial.id)
            && EditedQuantity(MaterialForm.PageInterface(fp)) == f.quantity.value >= 0
  {
  }
}

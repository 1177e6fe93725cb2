# Ledger core of a small-business bookkeeping app

This project models the part of a React and Supabase bookkeeping app that keeps the books
consistent. The books are:

- account balances;
- the stock of materials;
- the amount still owed on debts;
- the user's custom currencies.

All of these move with the transactions the user records. The database is modelled as one
object, `Ledger.Store`. It holds one map per table (accounts, materials, transactions, debts
and currencies), keyed by row id, and a flag for the cached currency list. Each page's handler
is a method that changes that store.

- Every handler takes `fails`, the set of database calls that report an error. Its contract
  says what each failure leaves behind. The single-row reads made by the reconciler and by the
  purchase debit (`AccountRead`, `MaterialRead`) can fail too. A failed read ends the same way
  as a row that is not there.
- Amounts and balances are integer cents; quantities are integers.
- A numeric form field is one of `Blank`, `NotNumber` or `Number(v)`. This stands for what
  `parseFloat` or `parseInt` yields.

The modules follow the source files:

| module | source file |
|---|---|
| Reconciler | `updateRelatedData` in src/pages/TransactionsPage.jsx |
| TransactionsPage | the transfer, plain-entry and delete handlers of the same page |
| TransactionForm | src/components/transactions/TransactionForm.jsx |
| AccountsTransactionForm | src/components/accounts/TransactionForm.jsx |
| DebtsPage | src/pages/DebtsPage.jsx |
| DebtForm | src/components/debts/DebtForm.jsx |
| DebtPaymentForm | src/components/debts/DebtPaymentForm.jsx |
| MaterialsPage | src/pages/MaterialsPage.jsx |
| MaterialForm | src/components/materials/MaterialForm.jsx |
| AccountsPage | src/pages/AccountsPage.jsx |
| AccountForm | src/components/accounts/AccountForm.jsx |
| CustomCurrenciesPage | src/pages/CustomCurrenciesPage.jsx |
| DashboardPage | src/pages/DashboardPage.jsx |
| Currencies | src/utils/currencies.js |

The older form's `validate` and `handleSubmit` (src/components/accounts/TransactionForm.jsx:136-137)
do the same checks and build the same payload as the newer form's. They are modelled once, by
`TransactionForm.Validate` and `TransactionForm.Payload`. `AccountsTransactionForm` holds only
what the older form does differently: its initial state and its source-account sync.

Two modules are shared by the others:

- `Base`: Option, numeric fields, JavaScript `trim`, ASCII upper-casing, decimal digits, and
  SQL `ILIKE '%…%'` matching.
- `Ledger`: the records, the store, and JavaScript's `find` by id.

The form validators are written as the source writes them: each fills an error map field by
field. Each one comes with:

- a `…FieldsMatch` predicate that says which fields carry which message;
- an `Acceptable` predicate that states the rules directly;
- a proof that the map is empty exactly when the input is `Acceptable`.

In three places the code does less than its names suggest; the model follows the code:

- The transfer handler does not itself check that source and destination differ; the form
  does that. The handler checks that both accounts are in the page's list, that both have
  the transfer currency, and that the source holds enough.
- The handler reconciles the two legs only when the insert reports two rows back.
- The debt payment and the material purchase write the account balance themselves. They do
  not go through the reconciler.

## Model

| member | source | states |
|---|---|---|
| Reconciler.ReconcileAccount | src/pages/TransactionsPage.jsx:29-79 | The account half, performed step by step: the new accounts table and the error equal `AccountStep`. The target is `old.account_id` or else `new.account_id`; it subtracts the old signed amount on edit or delete and adds the new one on create or edit. The row is written when the balance changed, and always on create and delete. A missing account or a failed read gives a fetch error; a failed write gives an update error. Nothing else in the store changes. |
| Reconciler.ReconcileMaterial | src/pages/TransactionsPage.jsx:83-123 | The material half: the materials table and the error equal `MaterialStep`. Revert and apply act only when that transaction's material id is the chosen material and its quantity is non-null. The same write-back and error rules apply, a failed read included. Nothing else changes. |
| Reconciler.UpdateRelatedData | src/pages/TransactionsPage.jsx:19-135 | Both halves in turn. The outcome is a failure when either half failed, the account's error first; transactions, debts, currencies and the cache are unchanged. |
| Reconciler.TargetPrefersOldAccount | src/pages/TransactionsPage.jsx:29 | The account looked at is the old transaction's when it names one, else the new one's, and is never the empty id. |
| Reconciler.AccountStepTouchesOnlyTarget | src/pages/TransactionsPage.jsx:29-79 | At most one account changes, only in its balance; the set of accounts is unchanged. |
| Reconciler.CreateAppliesSignedAmount | src/pages/TransactionsPage.jsx:58-65 | Creating an income adds its amount to its account; creating an expense subtracts it; no other account changes. |
| Reconciler.MissingAccountRejects | src/pages/TransactionsPage.jsx:39-42 | A target account not in the table, or one whose read fails, gives `AccountFetchFailed`, and no account is written. |
| Reconciler.MissingMaterialRejects | src/pages/TransactionsPage.jsx:93-96 | A target material not in the table, or one whose read fails, gives `MaterialFetchFailed`, and no material is written. |
| Reconciler.DeleteUndoesCreate | src/pages/TransactionsPage.jsx:49-65 | Reconciling a delete of a transaction after its create restores both the accounts table and the materials table exactly. |
| Reconciler.EditIsDeleteThenCreate | src/pages/TransactionsPage.jsx:49-79 | An edit that keeps the account ends in the same accounts table as reverting the old row and then applying the new one. |
| Reconciler.EditMovingAccountHitsOldAccount | src/pages/TransactionsPage.jsx:29-65 | As written, an edit that moves a transaction to another account applies both the revert and the apply to the old account, and the new account is untouched. |
| Reconciler.CancellingEditWritesNothing | src/pages/TransactionsPage.jsx:67-79 | An edit whose revert and apply cancel out writes nothing, so once the row is read it succeeds even when the write would fail. |
| Reconciler.CreateAndDeleteAlwaysWrite | src/pages/TransactionsPage.jsx:67-79 | Create and delete always write the account, so a failing write is reported even when the balance is unchanged. |
| Reconciler.NoMaterialLeavesStock | src/pages/TransactionsPage.jsx:83-85 | A call whose transactions name no material leaves every material as it was, with no error. |
| Reconciler.CreateAppliesQuantity | src/pages/TransactionsPage.jsx:106-109 | Creating a transaction with a material and a quantity adds the signed quantity to that material only. |
| Reconciler.MaterialSwitchRevertsOldOnly | src/pages/TransactionsPage.jsx:83-109 | As written, an edit that switches the material reverts the old material's quantity and applies the new quantity nowhere. |
| Reconciler.CreatesAccumulate | src/pages/TransactionsPage.jsx:58-79 | A run of creates on one account moves its balance by the signed total of their amounts and moves no other account. |
| TransactionsPage.TransferNote | src/pages/TransactionsPage.jsx:223 | A leg's note is the caption, the other account's name, then ` - ` and the user's note when there is one. It ends with the ` (Ref: transfer-<ts>)` tag. |
| TransactionsPage.UrlOrNull | src/pages/TransactionsPage.jsx:223 | `image_url \|\| null`: the result is an image exactly when the entry has a non-empty URL, and then it is that URL. |
| TransactionsPage.PlanTransfer | src/pages/TransactionsPage.jsx:223 | A transfer is refused exactly when an account is missing from the page's list, either account is in another currency, or the source holds less than the amount; a missing account gives `InvalidAccountsSelected`. With both accounts found, a currency difference gives `TransferCurrencyMismatch`, and a short balance with matching currencies gives `InsufficientFunds`. Otherwise it yields an expense on the source and an income on the destination. Both legs share the amount, currency, date and user, and name no material or quantity. Both carry the entry's image URL, with an empty URL stored as none (`UrlOrNull`). The expense's note names the destination account and the income's names the source, each with the user's note and the same reference tag (`TransferNote`). |
| TransactionsPage.SubmitTransfer | src/pages/TransactionsPage.jsx:223 | A refused plan writes nothing and reports its reason. A failed insert writes nothing. Otherwise both legs are inserted. When two rows come back the accounts are reconciled leg after leg and the outcome is `LegsOutcome`: the first leg's failure, else the second's, else success. Otherwise the accounts are left alone and the transfer succeeds. Materials, debts, currencies and the cache are unchanged. |
| TransactionsPage.LegsOutcome | src/pages/TransactionsPage.jsx:223 | The transfer succeeds exactly when neither leg's account update fails; otherwise it reports the first failing leg's reason. |
| TransactionsPage.SubmitPlain | src/pages/TransactionsPage.jsx:223 | A failed insert changes nothing. Otherwise the row is inserted, and the accounts, materials and outcome are those of reconciling it as a create. |
| TransactionsPage.SubmitTransactionOrTransfer | src/pages/TransactionsPage.jsx:223 | A transfer entry never changes a material; a plain entry whose insert succeeds adds exactly its row; debts and currencies are unchanged. |
| TransactionsPage.DeleteTransaction | src/pages/TransactionsPage.jsx:224 | No id returns early with nothing changed. A failed delete changes nothing. Otherwise the owner's row is removed, and balance and stock are reconciled as a delete of the page's copy; the outcome is success exactly when neither reconcile step fails, and otherwise the account step's error, or else the material step's. |
| TransactionsPage.EnterThenDelete | src/pages/TransactionsPage.jsx:223-224 | Entering a plain transaction and then deleting it leaves transactions, accounts, materials, debts and currencies as they were, whenever every write succeeds. |
| TransactionsPage.TransferMovesAmount | src/pages/TransactionsPage.jsx:223 | Reconciling both legs of a transfer between two different accounts takes the amount off the source and adds it to the destination; no other account moves. |
| TransactionForm.AccountRules | src/components/transactions/TransactionForm.jsx:107 | The source is required. A transfer needs a destination that differs from the source. |
| TransactionForm.AmountRules | src/components/transactions/TransactionForm.jsx:107 | The amount must be positive and a date given. A transfer must be in the source's currency. An entry that is not an income must not exceed the source's balance, and that message overrides the others on the amount. |
| TransactionForm.MaterialRules | src/components/transactions/TransactionForm.jsx:107 | Except on transfers, a chosen material needs a non-zero quantity, and a quantity without a material is an error. |
| TransactionForm.Validate | src/components/transactions/TransactionForm.jsx:107 | The three rule groups together: every field's message is the one its rule gives, and the entry passes exactly when it is `Acceptable`. |
| TransactionForm.NoErrorsIffAcceptable | src/components/transactions/TransactionForm.jsx:107 | An error map that follows the rules is empty exactly when the entry is `Acceptable`. |
| TransactionForm.Payload | src/components/transactions/TransactionForm.jsx:108 | A transfer submits both account ids. Otherwise the source account and the type are submitted. The material quantity is −\|q\| for an expense, +\|q\| for an income, and null without a material. The notes are trimmed; the date and the image URL pass through. |
| TransactionForm.AcceptedQuantitySign | src/components/transactions/TransactionForm.jsx:107-108 | For an accepted entry, the quantity is strictly negative on an expense and strictly positive on an income. The amount is positive, and a transfer's two accounts differ. |
| TransactionForm.DestinationCandidates | src/components/transactions/TransactionForm.jsx:89-102 | The destinations offered are exactly the listed accounts other than the source, restricted to the source's currency once it is known, in list order. |
| TransactionForm.EntryFormState.constructor | src/components/transactions/TransactionForm.jsx:24-43 | The form starts with the accounts the edited entry brings (none for a new one), the hard-coded default currency, no source details and no candidates. |
| TransactionForm.EntryFormState.ResetForNewEntry | src/components/transactions/TransactionForm.jsx:63-79 | A new entry clears both accounts. Its currency is JOD when listed, else the first listed, else the hard-coded default. |
| TransactionForm.EntryFormState.SyncSourceAccount | src/components/transactions/TransactionForm.jsx:83-104 | The source's details are looked up, and the currency follows the source account. With no source, the default currency applies unless the edited entry brought its own. A transfer's candidates are recomputed, and a destination that no longer qualifies is cleared. |
| TransactionForm.KeptDestinationIsCandidate | src/components/transactions/TransactionForm.jsx:89-92 | A destination the effect keeps is one of the offered candidates. |
| AccountsTransactionForm.AccountEntryFormState.constructor | src/components/accounts/TransactionForm.jsx:62-91 | The older form starts in JOD with no accounts selected. |
| AccountsTransactionForm.AccountEntryFormState.Initialise | src/components/accounts/TransactionForm.jsx:62-91 | An edited entry brings its account and its currency, or JOD when it has none. A new entry starts empty in JOD. |
| AccountsTransactionForm.AccountEntryFormState.SyncSourceAccount | src/components/accounts/TransactionForm.jsx:93-110 | The currency is the source account's, or JOD with no source. Transfer destinations exclude the source and, once it is known, share its currency. A destination that no longer qualifies is cleared. |
| DebtsPage.NewDebt | src/pages/DebtsPage.jsx:61 | A new debt's row is the form's record under the new id and user, owing what the record says. |
| DebtsPage.EditedDebt | src/pages/DebtsPage.jsx:61 | An edit writes the form's fields and keeps the id, the owner and the amount still owed. |
| DebtsPage.SubmitDebt | src/pages/DebtsPage.jsx:61 | Saving a debt: an edit changes only the owner's row and never its amount owed; an insert adds the new row. A name the user already uses is refused: on edit of the user's own row as a database error that leaves the cache, on insert as `DebtNameExists` that still clears it. An edit of a row that is missing or not the user's writes nothing and succeeds. Any other failure leaves both the debts and the cache, and success clears the cache. No user ends up with two debts of one name. |
| DebtsPage.DeleteDebt | src/pages/DebtsPage.jsx:62 | No id returns early. A failed search, a linked transaction, or a failed delete each leave the debts and the cache alone. Otherwise the owner's debt is removed and the cache cleared. The guard used is the corrected one (see Findings). |
| DebtsPage.PaymentTxType | src/pages/DebtsPage.jsx:86 | A payment is an expense exactly when the debt is one I owe. |
| DebtsPage.PaymentNote | src/pages/DebtsPage.jsx:87 | A payment's note is the caption, the debt's name in quotes and the user's note, and it ends with ` (Ref: debt_<id>)`. |
| DebtsPage.StatusAfterPayment | src/pages/DebtsPage.jsx:119-127 | Paid exactly when nothing is owed. Partially paid exactly when something below the initial amount is owed. Active otherwise. |
| DebtsPage.PaidBalance | src/pages/DebtsPage.jsx:105-110 | The account's new balance is the cached balance less the amount for an expense, plus it for an income. |
| DebtsPage.WritesDone | src/pages/DebtsPage.jsx:67-133 | How far a payment gets. It reaches the transaction only when the debt is known, the account is in the page's list in the debt's currency, and the insert succeeds. It reaches the balance only after that and if its write succeeds, and the debt only after both. |
| DebtsPage.PaymentOutcome | src/pages/DebtsPage.jsx:67-151 | The outcome is success exactly when all three writes succeed. It is `DebtNotFound` exactly when there is no debt. It is a currency mismatch exactly when the account is unknown or in another currency. |
| DebtsPage.PaymentTransaction | src/pages/DebtsPage.jsx:86-101 | The payment's transaction has the debt's currency, the chosen account, the payment's amount and the type by debt type. It carries the user, the payment's date and no image or material. Its note is `PaymentNote` of the caption, the debt's name and the user's note, ending with the debt's reference tag. |
| DebtsPage.SubmitDebtPayment | src/pages/DebtsPage.jsx:64-151 | The three writes run in order: transaction, account, debt. The first failure stops the rest, and each table changes exactly when its write was reached. The balance written comes from the cached account (`PaidBalance`). The debt's amount owed drops by the payment and its status follows `StatusAfterPayment`. Materials, currencies and the cache are unchanged. |
| DebtsPage.PaymentKeepsNetPosition | src/pages/DebtsPage.jsx:105-118 | A payment moves the account and the debt by the same amount, so what I hold minus what I owe (or plus what I am owed) is unchanged. |
| DebtsPage.AcceptedPaymentStatus | src/pages/DebtsPage.jsx:118-127 | A payment the form accepts, on a debt owing no more than its initial amount, leaves the amount owed at zero or more. The status is then partially paid or paid, and paid exactly when the whole amount owed is paid. |
| DebtsPage.PaymentBlocksDelete | src/pages/DebtsPage.jsx:62-87 | Once a payment's transaction is stored, the delete guard finds it. |
| DebtsPage.TagAddsNoMatch | src/pages/DebtsPage.jsx:62-87 | For an id with no `_`, space or `(`, neither guard pattern matches inside the payment tag, and none can begin before the tag and end inside it. |
| DebtsPage.AsWrittenGuardIgnoresTag | src/pages/DebtsPage.jsx:62-87 | As written, and for such an id, the guard finds a payment exactly when the text before its tag already holds `debt_ref_<id>` or `دين_مرجع_<id>`: the tag never helps. |
| DebtsPage.AsWrittenGuardMissesExample | src/pages/DebtsPage.jsx:62-87 | The payment "Payment" on debt "Car loan" with no note and id 7 is missed by the guard as written and found by the corrected guard. |
| DebtForm.InitialCurrency | src/components/debts/DebtForm.jsx:33-60 | An edited debt starts in its own currency, or JOD or the hard-coded default when it has none. A new debt starts in JOD when offered, else the first offered currency, else the hard-coded default. |
| DebtForm.PartyRules | src/components/debts/DebtForm.jsx:67-73 | The name, type and party are required. |
| DebtForm.TermRules | src/components/debts/DebtForm.jsx:74-79 | The initial amount must be positive, and a currency and a status given. |
| DebtForm.Validate | src/components/debts/DebtForm.jsx:67-80 | Every field carries its rule's message, and the debt passes exactly when it is `Acceptable`. |
| DebtForm.NoErrorsIffAcceptable | src/components/debts/DebtForm.jsx:67-80 | An error map that follows the rules is empty exactly when the debt is `Acceptable`. |
| DebtForm.Payload | src/components/debts/DebtForm.jsx:82-98 | Name, party and notes are trimmed, and an empty due date becomes null. An edit carries the id and the existing amount owed; a new debt owes its initial amount. |
| DebtForm.NewDebtOwesInitialAmount | src/components/debts/DebtForm.jsx:67-98 | An accepted new debt has a name and a party, and owes its whole positive initial amount. |
| DebtPaymentForm.SuitableAccounts | src/components/debts/DebtPaymentForm.jsx:27 | The accounts offered are exactly those in the debt's currency, in list order. |
| DebtPaymentForm.AccountDetails | src/components/debts/DebtPaymentForm.jsx:17-24 | With no account chosen there are no details; otherwise the details are the listed account with that id. |
| DebtPaymentForm.Validate | src/components/debts/DebtPaymentForm.jsx:29-50 | An account is required. The amount must be positive and no more than what is owed. For a debt I owe, the amount must not exceed a known account's balance, and that message wins. A date is required. The payment passes exactly when it is `Acceptable`. |
| DebtPaymentForm.NoErrorsIffAcceptable | src/components/debts/DebtPaymentForm.jsx:29-50 | An error map that follows the rules is empty exactly when the payment is `Acceptable`. |
| DebtPaymentForm.Payload | src/components/debts/DebtPaymentForm.jsx:52-66 | The payment is in the debt's currency, for the parsed amount, on the chosen account, with trimmed notes. |
| DebtPaymentForm.AcceptedPaymentFits | src/components/debts/DebtPaymentForm.jsx:34-45 | An accepted payment is positive and leaves the debt owing zero or more. When I pay, it leaves the account at zero or more. |
| MaterialsPage.DebitedAccounts | src/pages/MaterialsPage.jsx:14-42 | The debit changes at most the purchase's account, and keeps the set of accounts. |
| MaterialsPage.UpdateAccountForPurchase | src/pages/MaterialsPage.jsx:14-42 | It is skipped unless the transaction is an expense with an account and a non-zero amount. A missing account, a failed read or a failed write is reported and changes nothing. Otherwise the balance drops by the amount. Only the accounts table can change. |
| MaterialsPage.PurchaseDebitIsReconcilerCreate | src/pages/MaterialsPage.jsx:28-35 | The purchase debit is exactly what the reconciler does on creating the same expense. |
| MaterialsPage.ToAdd | src/pages/MaterialsPage.jsx:71-72 | The quantity to add is never negative, and is the record's when that is positive. |
| MaterialsPage.EditedQuantity | src/pages/MaterialsPage.jsx:71-73 | A restock stores at least the current quantity, and exactly it when nothing positive is added. |
| MaterialsPage.EditedMaterial | src/pages/MaterialsPage.jsx:70-91 | An edit keeps the id and the owner, writes the form's fields, and stores the restocked quantity. |
| MaterialsPage.NewMaterial | src/pages/MaterialsPage.jsx:92-109 | A new material starts with the quantity to add. |
| MaterialsPage.PurchaseTransaction | src/pages/MaterialsPage.jsx:111-122 | The purchase transaction names the saved material and affects exactly the quantity added, on the purchase's account and amount. |
| MaterialsPage.SubmitMaterial | src/pages/MaterialsPage.jsx:65-144 | An edit of a missing or foreign row, or a failed save, writes nothing else. A saved material records a purchase only when one is given with a positive quantity to add. A failed purchase insert keeps the saved material, reports `MaterialSavedButTxFailed`, and leaves the account alone. Otherwise the transaction is inserted and the account debited, and the debit's own outcome is separate. |
| MaterialsPage.DeleteMaterial | src/pages/MaterialsPage.jsx:146 | A material that transactions still name is kept and no image is removed. Otherwise the owner's material is deleted, and the image path removed is `StoragePath` of its URL, if it has one. No transaction is left naming a missing material. |
| MaterialsPage.StoragePath | src/pages/MaterialsPage.jsx:146 | An image is removed exactly when the URL and the user id are non-empty and the URL holds `<userId>/`; the path is the URL's tail from the first such folder on. |
| Base.IndexOf | src/pages/MaterialsPage.jsx:146 | `indexOf`: the first position where the text occurs, or -1 exactly when it occurs nowhere. |
| MaterialsPage.AsWrittenEditResetsStock | src/pages/MaterialsPage.jsx:71-99 | As written, the form's record makes an edit store a stock of 0, gives a new material 0, and records no purchase, whatever quantity was entered. |
| MaterialsPage.InterfaceStoresFormQuantity | src/pages/MaterialsPage.jsx:71-99 | Through the interface the page expects, an edit stores the form's quantity and a new material starts with it. |
| MaterialsPage.AcceptedEditKeepsStock | src/components/materials/MaterialForm.jsx:68-135 | A material the form accepts keeps its id and has a non-negative stock, the form's, after an edit through the expected interface. |
| MaterialForm.ImageCheck | src/components/materials/MaterialForm.jsx:47-66 | A file is refused exactly when it is over 5 MB or not a JPEG, PNG, WebP or GIF image; size is checked first. |
| MaterialForm.ImageState.constructor | src/components/materials/MaterialForm.jsx:25-45 | The preview starts as the stored image, with no file and no error. |
| MaterialForm.ImageState.SelectImage | src/components/materials/MaterialForm.jsx:47-66 | A refused file clears the selection and shows the stored image again. An accepted one is kept and previewed. Choosing nothing changes nothing. |
| MaterialForm.Validate | src/components/materials/MaterialForm.jsx:68-81 | A name is required. The price and the quantity must be numbers of zero or more. A currency and a unit are required. The material passes exactly when it is `Acceptable`. |
| MaterialForm.NoErrorsIffAcceptable | src/components/materials/MaterialForm.jsx:68-81 | An error map that follows the rules is empty exactly when the material is `Acceptable`. |
| MaterialForm.Payload | src/components/materials/MaterialForm.jsx:127-135 | Name and unit are trimmed, price and quantity parsed. The id is present only when editing. |
| MaterialForm.AsPageReadsIt | src/components/materials/MaterialForm.jsx:127-135 | The page reads neither a current quantity nor a quantity to add from the form's record. |
| MaterialForm.PageInterface | src/pages/MaterialsPage.jsx:71-99 | The record the page expects: on create, the quantity to add; on edit, the form's total as the current quantity, with nothing added. |
| AccountsPage.EditedAccount | src/pages/AccountsPage.jsx:92-102 | An edit writes only name, type and description; id, owner, balance and currency are kept. |
| AccountsPage.NewAccount | src/pages/AccountsPage.jsx:104-110 | A new account is the form's record, with its starting balance, under the new id and the current user. |
| AccountsPage.SubmitAccount | src/pages/AccountsPage.jsx:88-118 | An edit never changes any balance or currency, and it changes only the owner's row with that id. A failed write changes nothing. An insert adds the new account. The other tables are unchanged. |
| AccountsPage.DeleteAccount | src/pages/AccountsPage.jsx:120-142 | An account with transactions is refused with `AccountHasTransactions`, not raised. Otherwise the owner's account is deleted. No transaction is left on a missing account. |
| AccountForm.TypesOfferedAndDistinct | src/components/accounts/AccountForm.jsx:17-23 | Every account type is offered, and the five stored values are distinct. |
| AccountForm.Validate | src/components/accounts/AccountForm.jsx:45-56 | A name, a type and a currency are required. The starting balance must be a number, and may be negative. The account passes exactly when it is `Acceptable`. |
| AccountForm.NoErrorsIffAcceptable | src/components/accounts/AccountForm.jsx:45-56 | An error map that follows the rules is empty exactly when the account is `Acceptable`. |
| AccountForm.InitialFields | src/components/accounts/AccountForm.jsx:25-43 | A new account starts blank with balance 0 and the default currency. An edited one starts from its stored balance and currency. |
| AccountForm.Payload | src/components/accounts/AccountForm.jsx:58-72 | The submitted balance is the parsed starting balance, the texts are trimmed, and the id is present only when editing. |
| CustomCurrenciesPage.Validate | src/pages/CustomCurrenciesPage.jsx:30-39 | After trimming, the code must be present and at most 10 characters, and likewise the symbol. A name is required. The currency passes exactly when it is `Acceptable`. |
| CustomCurrenciesPage.NoErrorsIffAcceptable | src/pages/CustomCurrenciesPage.jsx:30-39 | An error map that follows the rules is empty exactly when the currency is `Acceptable`. |
| CustomCurrenciesPage.Payload | src/pages/CustomCurrenciesPage.jsx:44-50 | The code is trimmed and upper-cased, and the name and symbol trimmed. The record is marked custom, and the id is present only when editing. |
| CustomCurrenciesPage.AcceptedCodeIsNormal | src/pages/CustomCurrenciesPage.jsx:30-50 | An accepted code and symbol are 1 to 10 characters, and normalising the code again changes nothing. |
| CustomCurrenciesPage.EditKeepsCodesUnique | src/pages/CustomCurrenciesPage.jsx:110 | An edit the unique index lets through keeps each user's custom codes distinct. |
| CustomCurrenciesPage.InsertKeepsCodesUnique | src/pages/CustomCurrenciesPage.jsx:114-119 | An insert the unique index lets through keeps each user's custom codes distinct. |
| CustomCurrenciesPage.EditedCurrency | src/pages/CustomCurrenciesPage.jsx:110 | An edit writes the code, name and symbol, and keeps the id, the owner and the custom flag. |
| CustomCurrenciesPage.SubmitCurrency | src/pages/CustomCurrenciesPage.jsx:106-125 | An edit changes only the owner's row; a code the user already uses is refused only on the user's own row, and an edit of a missing or foreign row writes nothing and succeeds. A duplicate code on insert gives `CurrencyCodeExists`, inserts nothing, and still clears the cache. Any other failure leaves the currencies and the cache. Success clears the cache. Codes stay unique. |
| CustomCurrenciesPage.DeleteCurrency | src/pages/CustomCurrenciesPage.jsx:127-147 | No id returns early. A currency one of the user's accounts uses is refused with `CurrencyInUse`. A failed search or delete changes nothing. Otherwise the user's custom currency is deleted and the cache cleared. |
| DashboardPage.NoAccountsNoBalance | src/pages/DashboardPage.jsx:49-54 | A currency no account is in has a total of 0. |
| DashboardPage.TotalBalanceByCurrency | src/pages/DashboardPage.jsx:49-54 | The map's keys are exactly the accounts' currencies, and each total is the sum of the balances of the accounts in that currency. |
| DashboardPage.NoMaterialsNoValue | src/pages/DashboardPage.jsx:62-68 | A currency no material is priced in has a stock value of 0. |
| DashboardPage.TotalMaterialsValueByCurrency | src/pages/DashboardPage.jsx:62-68 | The map's keys are exactly the materials' currencies, and each value is the sum of price times quantity over the materials in that currency. |
| DashboardPage.Recent | src/pages/DashboardPage.jsx:70-76 | The recent list is the first rows, at most five, and all of them when there are fewer. |
| DashboardPage.Dashboard.constructor | src/pages/DashboardPage.jsx:34-91 | The dashboard starts loading with empty figures. |
| DashboardPage.Dashboard.FetchData | src/pages/DashboardPage.jsx:34-91 | With no user, it only stops loading. A failing query marks the dashboard failed and leaves the figures. Otherwise both totals are stated as above, the recent list is `Recent` of the rows, and the count is its length, at most 5. |
| DashboardPage.ReplaceOneRow | src/pages/DashboardPage.jsx:49-54 | Changing one account row changes each currency's total by exactly that row's change. |
| DashboardPage.Reread | src/pages/DashboardPage.jsx:43-46 | The rows read again after a change are the stored versions of the same accounts, in the same order. |
| DashboardPage.TransferKeepsTotals | src/pages/DashboardPage.jsx:49-54 | Once both legs of a transfer between two listed accounts of one currency are reconciled, every currency's total balance is unchanged. |
| Currencies.FindIn | src/utils/currencies.js:17 | The lookup gives the first entry with the code, and nothing exactly when no entry has it. |
| Currencies.DefaultCurrencyIsJod | src/utils/currencies.js:12 | The default currency is the catalog's JOD entry. |
| Currencies.CatalogCodesDistinct | src/utils/currencies.js:2-9 | The catalog has six entries with distinct codes. |
| Currencies.Display | src/utils/currencies.js:16-24 | An unknown code is shown as itself. A known one shows its translated name when a name is asked for and a translator is given, and its symbol otherwise. |
| Currencies.FixedTwo | src/utils/currencies.js:49 | Two-decimal rendering of an amount in cents: well formed, and reading it back gives the amount. The text is canonical: a leading `-` exactly for a negative amount, and no leading zero in the integer part. |
| Currencies.FormatCurrency | src/utils/currencies.js:29-50 | A non-numeric amount gives ''. A successful locale format is returned as is. Otherwise the result is the two-decimal amount, a space, and the symbol or code. |
| Currencies.FormatFallbackShape | src/utils/currencies.js:45-50 | The fallback text splits at the space before the symbol into the exact two-decimal amount and the symbol, or the code for a currency outside the catalog. |
| Currencies.PreferredCurrency | src/components/transactions/TransactionForm.jsx:76-78 | JOD when offered, else the first offered currency, else the hard-coded default. |
| Ledger.FindAccount | src/pages/DebtsPage.jsx:77 | The lookup gives an account of the list with that id, and nothing exactly when none has it. |

## Left out

- Supabase I/O is not modelled. Queries, `.select().single()`, realtime channels and their
  refetches are replaced by the in-memory store. A database error is a member of the `fails`
  parameter, and the database's own id generation is an id parameter.
- Errors recognised by matching message text become store conditions. The duplicate-key
  message for currency codes becomes `CodeTaken`, and the foreign-key refusals for accounts
  and materials become `Referenced`.
- Row-level security is not modelled. Only the handlers' own `user_id` filters are.
- Image upload and removal in blob storage are left out. A material delete only says which
  storage path would be removed.
- Floating point is not modelled: amounts are integer cents. `toFixed(2)` is modelled exactly
  on cents. `Intl.NumberFormat` is a parameter that may fail, and `parseFloat`/`parseInt` are
  reduced to the three kinds of `NumField`.
- Concurrency is not modelled. The `Promise.all` of the two reconciliation halves runs
  sequentially, since the halves touch different tables. The read-then-write race on balances
  is also left out.
- These are left out as thin checks in front of library calls or as markup: authentication,
  routing, layout, translations, the detail and history pages, query filters, date presets,
  and the CSV/PDF exports.
- Undefined-name errors that would be thrown at run time are left out. These are `t` inside
  the reconciliation and the purchase debit, and `formatCurrency` in the older transaction
  form.
- Editing a transfer is left out; the source does not support it.
- HARDCODED_DEFAULT_CURRENCY, getAllCurrenciesForUser, clearCurrencyCache and
  getCurrencyDisplayInfo are not part of this model. The hard-coded default is a parameter.
  The cache is the store's `currencyCacheValid` flag.
- Case mapping is ASCII only, and trim removes the common whitespace characters. Lengths
  count characters, not UTF-16 units.
- Dates are opaque strings; their ISO normalisation is not modelled.
- Ordering and limits in the dashboard's queries are the database's. A query's data is
  modelled as a row list, with no data read as no rows.
- MaterialsPage.CreatedQuantity: a new material with no quantity to add is taken to start at
  the column default of 0. The schema is not part of this model.
- MaterialsPage.SubmitMaterial: the purchase record is a parameter. The form's single-argument
  submit never passes one, so through the form it is always absent.
- DebtsPage.SubmitDebt: debt names are taken to be unique per user, as the duplicate-name
  message implies. The database schema is not modelled.
- DebtsPage.DeleteDebt: uses the corrected guard (`Linked`). The as-written guard is
  `LinkedAsWritten`, whose miss is proved as a finding.
- CustomCurrenciesPage.DeleteCurrency: the code checked is the one the page holds for the
  currency being deleted. It is a parameter, as the page takes it from its own state.
- TransactionsPage.SubmitTransactionOrTransfer: states only what the dispatch guarantees. The
  branch contracts (`SubmitTransfer`, `SubmitPlain`) state the rest.

## Findings

| source | as written | input that shows it | evidently intended | confidence | as-written member | corrected member |
|---|---|---|---|---|---|---|
| src/pages/DebtsPage.jsx:62-87 | The delete guard searches transaction notes for `debt_ref_<id>` or `دين_مرجع_<id>`. A payment's note instead ends with `(Ref: debt_<id>)`, which adds nothing the guard can match: for any id without `_`, space or `(`, as UUIDs are, a payment is found only when its caption, debt name or note happen to hold a pattern themselves. | A payment with caption "Payment", debt name "Car loan", no note and debt id "7" has the note `Payment "Car loan" (Ref: debt_7)`. No guard pattern matches it, so the debt is deleted and its payment remains. | A debt is refused deletion while any of its payments is recorded. | not executed | DebtsPage.AsWrittenGuardMissesExample | DebtsPage.PaymentBlocksDelete |
| src/components/materials/MaterialForm.jsx:127-135; src/pages/MaterialsPage.jsx:71-99 | The form submits the quantity under `quantity`, but the page reads `current_quantity` and `quantity_to_add`. An edit therefore stores 0 + 0, and a create stores none. | Editing a material that holds 5 units and saving the form unchanged stores a quantity of 0. | An edit stores the form's total, and a create starts with the entered quantity. | not executed | MaterialsPage.AsWrittenEditResetsStock | MaterialsPage.InterfaceStoresFormQuantity |

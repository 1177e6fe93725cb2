/** The transaction entry form: its validation, the payload it submits, and the effect that
    keeps the currency and the destination list in step with the chosen source account. The
    older form under components/accounts shares the validation and the payload. */
module TransactionForm {
  import opened Base
  import opened Ledger
  import opened Currencies

  datatype FormType = IncomeForm | ExpenseForm | TransferForm

  /** The form's fields. Ids are "" when nothing is selected. */
  datatype EntryForm = EntryForm(
    formType: FormType, fromAccountId: Id, toAccountId: Id, amount: NumField,
    currency: string, date: string, notes: string, materialId: Id,
    materialQuantity: NumField, imageUrl: Option<string>)

  datatype Field =
    | FromAccountField | ToAccountField | AmountField | DateField | CurrencyField
    | MaterialQuantityField | MaterialIdField

  datatype ErrorKey =
    | RequiredField | SelectDestinationAccount | SourceDestSame | InvalidAmountPositive
    | TransferCurrencyMustMatchSource | InsufficientFundsError | InvalidMaterialQuantity
    | SelectMaterialForQuantity

  predicate PositiveAmount(n: NumField) {
    n.Number? && n.value > 0
  }

  /** The funds check: a known source whose balance is below a parsed amount, on anything but
      an income. */
  predicate FundsShort(f: EntryForm, source: Option<Account>) {
    source.Some? && f.amount.Number? && source.value.balance < f.amount.value && f.formType != IncomeForm
  }

  /** The conditions an entry must meet to be submitted, stated field by field. */
  predicate Acceptable(f: EntryForm, source: Option<Account>) {
    && f.fromAccountId != ""
    && (f.formType == TransferForm ==> f.toAccountId != "" && f.toAccountId != f.fromAccountId)
    && PositiveAmount(f.amount)
    && f.date != ""
    && (f.formType == TransferForm && source.Some? ==> source.value.currency == f.currency)
    && (f.formType != IncomeForm && source.Some? ==> source.value.balance >= f.amount.value)
    && (f.formType != TransferForm && f.materialId != "" ==>
          f.materialQuantity.Number? && f.materialQuantity.value != 0)
    && (f.formType != TransferForm && f.materialId == "" ==> f.materialQuantity == Blank)
  }

  /** The account rules: a source is required, and a transfer needs a destination different
      from the source (the second rule overwrites the first on the same field). */
  method AccountRules(f: EntryForm) returns (errors: map<Field, ErrorKey>)
    ensures errors.Keys <= {FromAccountField, ToAccountField}
    ensures AccountFieldsMatch(errors, f)
  {
    errors := map[];
    if f.fromAccountId == "" {
      errors := errors[FromAccountField := RequiredField];
    }
    if f.formType == TransferForm && f.toAccountId == "" {
      errors := errors[ToAccountField := SelectDestinationAccount];
    }
    if f.formType == TransferForm && f.fromAccountId != "" && f.toAccountId != "" && f.fromAccountId == f.toAccountId {
      errors := errors[ToAccountField := SourceDestSame];
    }
  }

  /** The amount, date and currency rules; the funds check overwrites the amount error. */
  method AmountRules(f: EntryForm, source: Option<Account>) returns (errors: map<Field, ErrorKey>)
    ensures errors.Keys <= {AmountField, DateField, CurrencyField}
    ensures AmountFieldsMatch(errors, f, source)
  {
    errors := map[];
    if f.amount.Blank? || f.amount.NotNumber? || f.amount.value <= 0 {
      errors := errors[AmountField := InvalidAmountPositive];
    }
    if f.date == "" {
      errors := errors[DateField := RequiredField];
    }
    if source.Some? && source.value.currency != f.currency {
      if f.formType == TransferForm {
        errors := errors[CurrencyField := TransferCurrencyMustMatchSource];
      }
    }
    if source.Some? && f.amount.Number? && source.value.balance < f.amount.value && f.formType != IncomeForm {
      errors := errors[AmountField := InsufficientFundsError];
    }
  }

  /** The material rules, which do not apply to transfers. */
  method MaterialRules(f: EntryForm) returns (errors: map<Field, ErrorKey>)
    ensures errors.Keys <= {MaterialQuantityField, MaterialIdField}
    ensures MaterialFieldsMatch(errors, f)
  {
    errors := map[];
    if f.materialId != "" && f.formType != TransferForm {
      if f.materialQuantity.Blank? || f.materialQuantity.NotNumber? || f.materialQuantity.value == 0 {
        errors := errors[MaterialQuantityField := InvalidMaterialQuantity];
      }
    } else if !f.materialQuantity.Blank? && f.formType != TransferForm && f.materialId == "" {
      errors := errors[MaterialIdField := SelectMaterialForQuantity];
    }
  }

  /** validate: the rules in source order, each group on its own fields; the entry passes
      exactly when no field carries an error, which is exactly when it is Acceptable. */
  method Validate(f: EntryForm, source: Option<Account>) returns (errors: map<Field, ErrorKey>, ok: bool)
    ensures ok <==> errors == map[]
    ensures ok <==> Acceptable(f, source)
    ensures AccountFieldsMatch(errors, f)
    ensures AmountFieldsMatch(errors, f, source)
    ensures MaterialFieldsMatch(errors, f)
  {
    var accountErrors := AccountRules(f);
    var amountErrors := AmountRules(f, source);
    var materialErrors := MaterialRules(f);
    errors := accountErrors + amountErrors + materialErrors;
    assert FromAccountField !in amountErrors && FromAccountField !in materialErrors;
    assert ToAccountField !in amountErrors && ToAccountField !in materialErrors;
    assert AmountField !in accountErrors && AmountField !in materialErrors;
    assert DateField !in accountErrors && DateField !in materialErrors;
    assert CurrencyField !in accountErrors && CurrencyField !in materialErrors;
    assert MaterialQuantityField !in accountErrors && MaterialQuantityField !in amountErrors;
    assert MaterialIdField !in accountErrors && MaterialIdField !in amountErrors;
    ok := errors == map[];
    NoErrorsIffAcceptable(errors, f, source);
  }

  /** Which account fields carry an error, and which message. */
  predicate AccountFieldsMatch(errors: map<Field, ErrorKey>, f: EntryForm) {
    && (FromAccountField in errors <==> f.fromAccountId == "")
    && (FromAccountField in errors ==> errors[FromAccountField] == RequiredField)
    && (ToAccountField in errors <==>
          f.formType == TransferForm && (f.toAccountId == "" || f.toAccountId == f.fromAccountId))
    && (ToAccountField in errors ==>
          errors[ToAccountField] == (if f.toAccountId == "" then SelectDestinationAccount else SourceDestSame))
  }

  /** Which of the amount, date and currency fields carry an error, and which message. */
  predicate AmountFieldsMatch(errors: map<Field, ErrorKey>, f: EntryForm, source: Option<Account>) {
    && (AmountField in errors <==> !PositiveAmount(f.amount) || FundsShort(f, source))
    && (AmountField in errors ==>
          errors[AmountField] == (if FundsShort(f, source) then InsufficientFundsError else InvalidAmountPositive))
    && (DateField in errors <==> f.date == "")
    && (DateField in errors ==> errors[DateField] == RequiredField)
    && (CurrencyField in errors <==>
          source.Some? && source.value.currency != f.currency && f.formType == TransferForm)
    && (CurrencyField in errors ==> errors[CurrencyField] == TransferCurrencyMustMatchSource)
  }

  /** Which material fields carry an error, and which message. */
  predicate MaterialFieldsMatch(errors: map<Field, ErrorKey>, f: EntryForm) {
    && (MaterialQuantityField in errors <==>
          f.materialId != "" && f.formType != TransferForm
          && !(f.materialQuantity.Number? && f.materialQuantity.value != 0))
    && (MaterialQuantityField in errors ==> errors[MaterialQuantityField] == InvalidMaterialQuantity)
    && (MaterialIdField in errors <==>
          f.materialId == "" && f.formType != TransferForm && f.materialQuantity != Blank)
    && (MaterialIdField in errors ==> errors[MaterialIdField] == SelectMaterialForQuantity)
  }

  /** An error map built by these rules is empty exactly when the entry is Acceptable. */
  lemma NoErrorsIffAcceptable(errors: map<Field, ErrorKey>, f: EntryForm, source: Option<Account>)
    requires AccountFieldsMatch(errors, f) && AmountFieldsMatch(errors, f, source) && MaterialFieldsMatch(errors, f)
    ensures errors == map[] <==> Acceptable(f, source)
  {
    if errors != map[] {
      var k :| k in errors;
      match k
      case FromAccountField =>
      case ToAccountField =>
      case AmountField =>
      case DateField =>
      case CurrencyField =>
      case MaterialQuantityField =>
      case MaterialIdField =>
    }
  }

  /** What handleSubmit relies on having been validated. */
  predicate Submittable(f: EntryForm) {
    f.amount.Number? && (f.formType != TransferForm && f.materialId != "" ==> f.materialQuantity.Number?)
  }

  /** handleSubmit's payload: a transfer with both ids, or a plain entry on the source account
      whose material quantity is negative for an expense and positive for an income. */
  function Payload(f: EntryForm): (r: Entry)
    requires Submittable(f)
    ensures f.formType == TransferForm <==> r.TransferEntry?
    ensures r.TransferEntry? ==>
              r == TransferEntry(f.fromAccountId, f.toAccountId, f.amount.value, f.currency, f.date, Trim(f.notes), f.imageUrl)
    ensures r.PlainEntry? ==>
              && r.accountId == f.fromAccountId
              && r.txType == (if f.formType == IncomeForm then Income else Expense)
              && r.amount == f.amount.value && r.currency == f.currency && r.notes == Trim(f.notes)
              && r.date == f.date && r.imageUrl == f.imageUrl
              && (r.materialId.None? <==> f.materialId == "")
              && (r.materialId.Some? ==> r.materialId.value == f.materialId)
              && (r.materialQty.None? <==> f.materialId == "")
              && (r.materialQty.Some? ==> Abs(r.materialQty.value) == Abs(f.materialQuantity.value))
              && (r.materialQty.Some? && r.txType == Expense ==> r.materialQty.value <= 0)
              && (r.materialQty.Some? && r.txType == Income ==> r.materialQty.value >= 0)
  {
    var notes := Trim(f.notes);
    if f.formType == TransferForm then
      TransferEntry(f.fromAccountId, f.toAccountId, f.amount.value, f.currency, f.date, notes, f.imageUrl)
    else
      var txType := if f.formType == IncomeForm then Income else Expense;
      var qty: Option<int> :=
        if f.materialId == "" then None
        else if txType == Expense then Some(0 - Abs(f.materialQuantity.value))
        else Some(Abs(f.materialQuantity.value) as int);
      PlainEntry(txType, f.fromAccountId, if f.materialId == "" then None else Some(f.materialId), qty,
                 f.amount.value, f.currency, f.date, notes, f.imageUrl)
  }

  /** An accepted entry can be submitted, and its material quantity is strictly negative for an
      expense and strictly positive for an income. */
  lemma AcceptedQuantitySign(f: EntryForm, source: Option<Account>)
    requires Acceptable(f, source)
    ensures Submittable(f)
    ensures var r := Payload(f);
            && (r.PlainEntry? && r.materialQty.Some? && r.txType == Expense ==> r.materialQty.value < 0)
            && (r.PlainEntry? && r.materialQty.Some? && r.txType == Income ==> r.materialQty.value > 0)
            && (r.PlainEntry? ==> r.amount > 0)
            && (r.TransferEntry? ==> r.amount > 0 && r.fromAccountId != r.toAccountId)
  {
  }

  /** The accounts offered as destinations: every account but the source, restricted to the
      source's currency once a source is known; list order is kept. */
  function DestinationCandidates(accounts: seq<Account>, fromId: Id, currency: Option<string>): (r: seq<Account>)
    ensures |r| <= |accounts| && SubsequenceOf(r, accounts)
    ensures forall a :: a in r <==>
              a in accounts && a.id != fromId && (currency.Some? ==> a.currency == currency.value)
  {
    if accounts == [] then []
    else
      var rest := DestinationCandidates(accounts[1..], fromId, currency);
      var a := accounts[0];
      assert forall b :: b in accounts <==> b == a || b in accounts[1..];
      if a.id != fromId && (currency.Some? ==> a.currency == currency.value) then
        assert ([a] + rest)[1..] == rest;
        [a] + rest
      else
        assert rest != [] ==> rest[0] in rest;
        rest
  }

  /** `find(acc => acc.id === to && acc.id !== from && acc.currency === c)`: whether the chosen
      destination is still among the candidates. */
  predicate IsCandidate(accounts: seq<Account>, toId: Id, fromId: Id, currency: string) {
    exists a :: a in accounts && a.id == toId && a.id != fromId && a.currency == currency
  }

  /** The state the newer form keeps for its source account and destination choices. */
  class EntryFormState {
    var formType: FormType
    var fromAccountId: Id
    var toAccountId: Id
    var currency: string
    var sourceDetails: Option<Account>
    var availableTo: seq<Account>

    /** The first render: the accounts the entry being edited brings ("" for none), the
        hard-coded default currency, no source details and no candidates yet. */
    constructor (formType: FormType, initialFrom: Id, initialTo: Id, hardcoded: string)
      ensures this.formType == formType && fromAccountId == initialFrom && toAccountId == initialTo
      ensures currency == hardcoded && sourceDetails.None? && availableTo == []
    {
      this.formType := formType;
      fromAccountId := initialFrom;
      toAccountId := initialTo;
      currency := hardcoded;
      sourceDetails := None;
      availableTo := [];
    }

    /** The form's reset for a new entry: JOD if listed, else the first listed currency, else
        the hard-coded default. */
    method ResetForNewEntry(availableCurrencies: seq<string>, hardcoded: string)
      modifies this
      ensures fromAccountId == "" && toAccountId == ""
      ensures currency == PreferredCurrency(availableCurrencies, hardcoded)
      ensures formType == old(formType) && sourceDetails == old(sourceDetails) && availableTo == old(availableTo)
    {
      fromAccountId := "";
      toAccountId := "";
      currency := PreferredCurrency(availableCurrencies, hardcoded);
    }

    /** The effect run when the source account, the list or the type changes. With a source,
        the currency follows it and a stale destination is cleared; without one, the default
        currency is set unless the entry being edited brought its own currency. */
    method SyncSourceAccount(accounts: seq<Account>, availableCurrencies: seq<string>,
                             initialCurrency: string, hardcoded: string)
      modifies this
      ensures sourceDetails == FindAccount(accounts, fromAccountId)
      ensures fromAccountId == old(fromAccountId) && formType == old(formType)
      ensures sourceDetails.Some? ==> currency == sourceDetails.value.currency
      ensures sourceDetails.None? ==>
                currency == (if initialCurrency == "" then PreferredCurrency(availableCurrencies, hardcoded) else old(currency))
      ensures formType == TransferForm ==>
                availableTo == DestinationCandidates(accounts, fromAccountId,
                  if sourceDetails.Some? then Some(sourceDetails.value.currency) else None)
      ensures formType != TransferForm ==> availableTo == old(availableTo)
      ensures toAccountId == (if formType == TransferForm && sourceDetails.Some? && old(toAccountId) != ""
                                 && !IsCandidate(accounts, old(toAccountId), fromAccountId, sourceDetails.value.currency)
                              then "" else old(toAccountId))
    {
      var current := FindAccount(accounts, fromAccountId);
      sourceDetails := current;
      if current.Some? {
        currency := current.value.currency;
        if formType == TransferForm {
          availableTo := DestinationCandidates(accounts, fromAccountId, Some(current.value.currency));
          if toAccountId != "" && !IsCandidate(accounts, toAccountId, fromAccountId, current.value.currency) {
            toAccountId := "";
          }
        }
      } else {
        if initialCurrency == "" {
          currency := PreferredCurrency(availableCurrencies, hardcoded);
        }
        if formType == TransferForm {
          availableTo := DestinationCandidates(accounts, fromAccountId, None);
        }
      }
    }
  }

  /** After the effect, the destination left selected in a transfer is one of the offered
      candidates, or nothing. */
  lemma KeptDestinationIsCandidate(accounts: seq<Account>, fromId: Id, toId: Id, source: Account)
    requires source in accounts && source.id == fromId
    requires toId != "" && IsCandidate(accounts, toId, fromId, source.currency)
    ensures exists a :: a in DestinationCandidates(accounts, fromId, Some(source.currency)) && a.id == toId
  {
    var a :| a in accounts && a.id == toId && a.id != fromId && a.currency == source.currency;
    assert a in DestinationCandidates(accounts, fromId, Some(source.currency));
  }
}

/** The account form: the account types it offers, its validation, and the record it submits. */
module AccountForm {
  import opened Base
  import opened Ledger

  /** The types the type select offers, in its order. */
  const AccountTypes: seq<AccountType> := [Cash, Bank, Customer, Supplier, Other]

  /** The value the database stores for each type. */
  function TypeValue(t: AccountType): string {
    match t
    case Cash => "cash"
    case Bank => "bank"
    case Customer => "customer"
    case Supplier => "supplier"
    case Other => "other"
  }

  /** Every type is offered, and the five stored values are distinct. */
  lemma TypesOfferedAndDistinct(a: AccountType, b: AccountType)
    ensures a in AccountTypes
    ensures TypeValue(a) == TypeValue(b) ==> a == b
  {
  }

  /** The form's fields. The type is None while the select shows its placeholder. The starting
      balance is read with parseFloat. */
  datatype AccountFields = AccountFields(
    name: string, accountType: Option<AccountType>, initialBalance: NumField, currency: string,
    description: string)

  datatype Field = NameField | TypeField | InitialBalanceField | CurrencyField

  datatype ErrorKey = RequiredField | InvalidAmount

  /** The conditions an account must meet: a name, a type, a starting balance that is a number
      (negative balances are allowed) and a currency. */
  predicate Acceptable(f: AccountFields) {
    && !IsBlank(f.name)
    && f.accountType.Some?
    && f.initialBalance.Number?
    && f.currency != ""
  }

  /** Which fields carry an error, and which message. */
  predicate FieldsMatch(errors: map<Field, ErrorKey>, f: AccountFields) {
    && (NameField in errors <==> IsBlank(f.name))
    && (NameField in errors ==> errors[NameField] == RequiredField)
    && (TypeField in errors <==> f.accountType.None?)
    && (TypeField in errors ==> errors[TypeField] == RequiredField)
    && (InitialBalanceField in errors <==> !f.initialBalance.Number?)
    && (InitialBalanceField in errors ==> errors[InitialBalanceField] == InvalidAmount)
    && (CurrencyField in errors <==> f.currency == "")
    && (CurrencyField in errors ==> errors[CurrencyField] == RequiredField)
  }

  /** validate: one rule per field, in source order; the account passes exactly when it is
      Acceptable. */
  method Validate(f: AccountFields) returns (errors: map<Field, ErrorKey>, ok: bool)
    ensures FieldsMatch(errors, f)
    ensures ok <==> errors == map[]
    ensures ok <==> Acceptable(f)
  {
    errors := map[];
    if IsBlank(f.name) {
      errors := errors[NameField := RequiredField];
    }
    if f.accountType.None? {
      errors := errors[TypeField := RequiredField];
    }
    if f.initialBalance.Blank? || f.initialBalance.NotNumber? {
      errors := errors[InitialBalanceField := InvalidAmount];
    }
    if f.currency == "" {
      errors := errors[CurrencyField := RequiredField];
    }
    ok := errors == map[];
    NoErrorsIffAcceptable(errors, f);
  }

  /** An error map that matches the rules is empty exactly when the account is Acceptable. */
  lemma NoErrorsIffAcceptable(errors: map<Field, ErrorKey>, f: AccountFields)
    requires FieldsMatch(errors, f)
    ensures errors == map[] <==> Acceptable(f)
  {
    if errors != map[] {
      var k :| k in errors;
      match k
      case NameField =>
      case TypeField =>
      case InitialBalanceField =>
      case CurrencyField =>
    }
  }

  /** What the form hands to the accounts page. */
  datatype AccountPayload = AccountPayload(
    name: string, accountType: AccountType, balance: int, currency: string, description: string,
    id: Option<Id>)

  /** Whether an existing account is being edited. */
  predicate Editing(initial: Option<Account>) {
    initial.Some? && initial.value.id != ""
  }

  /** The starting balance is shown only for a new account, and the currency can be changed
      only there; an edited account's form starts from its stored balance and currency. */
  function InitialFields(initial: Option<Account>, defaultCurrency: string): (r: AccountFields)
    ensures initial.None? ==> r == AccountFields("", None, Number(0), defaultCurrency, "")
    ensures initial.Some? ==> r.initialBalance == Number(initial.value.balance)
    ensures initial.Some? && initial.value.currency != "" ==> r.currency == initial.value.currency
  {
    if initial.None? then AccountFields("", None, Number(0), defaultCurrency, "")
    else
      var a := initial.value;
      AccountFields(a.name, Some(a.accountType), Number(a.balance),
                    if a.currency != "" then a.currency else defaultCurrency, a.description)
  }

  predicate ShowsInitialBalance(initial: Option<Account>) {
    !Editing(initial)
  }

  predicate CurrencyLocked(initial: Option<Account>) {
    Editing(initial)
  }

  /** handleSubmit's record: trimmed texts, the parsed starting balance, and the id only when
      editing. */
  function Payload(f: AccountFields, initial: Option<Account>): (r: AccountPayload)
    requires f.accountType.Some? && f.initialBalance.Number?
    ensures r.name == Trim(f.name) && r.description == Trim(f.description)
    ensures r.accountType == f.accountType.value && r.currency == f.currency
    ensures r.balance == f.initialBalance.value
    ensures r.id.Some? <==> Editing(initial)
    ensures r.id.Some? ==> r.id.value == initial.value.id
  {
    AccountPayload(Trim(f.name), f.accountType.value, f.initialBalance.value, f.currency,
                   Trim(f.description), if Editing(initial) then Some(initial.value.id) else None)
  }
}

/** The debt payment form: the accounts it offers, its validation, and the payment it submits. */
module DebtPaymentForm {
  import opened Base
  import opened Ledger

  /** The form's fields; the account id is "" when none is chosen. */
  datatype PaymentFields = PaymentFields(accountId: Id, amount: NumField, date: string, notes: string)

  datatype Field = PaymentAccountField | PaymentAmountField | PaymentDateField

  datatype ErrorKey =
    | SelectAccount | InvalidAmountPositive | PaymentExceedsDebt
    | InsufficientFundsInPaymentAccount | RequiredField

  /** What the form hands to the debts page. */
  datatype PaymentPayload = PaymentPayload(
    debtId: Id, debtType: DebtType, debtName: string, amount: int, currency: string,
    accountId: Id, date: string, notes: string, currentOwed: int)

  /** The accounts offered for a payment: those in the debt's currency, in list order. */
  function SuitableAccounts(accounts: seq<Account>, debt: Debt): (r: seq<Account>)
    ensures |r| <= |accounts| && SubsequenceOf(r, accounts)
    ensures forall a :: a in r <==> a in accounts && a.currency == debt.currency
  {
    if accounts == [] then []
    else
      var rest := SuitableAccounts(accounts[1..], debt);
      assert forall a :: a in accounts <==> a == accounts[0] || a in accounts[1..];
      if accounts[0].currency == debt.currency then
        assert ([accounts[0]] + rest)[1..] == rest;
        [accounts[0]] + rest
      else
        assert rest != [] ==> rest[0] in rest;
        rest
  }

  /** The chosen account as the form looks it up among all the page's accounts. */
  function AccountDetails(accounts: seq<Account>, accountId: Id): (r: Option<Account>)
    ensures accountId == "" ==> r.None?
    ensures r.Some? ==> r.value in accounts && r.value.id == accountId
  {
    if accountId == "" then None else FindAccount(accounts, accountId)
  }

  predicate PositiveAmount(n: NumField) {
    n.Number? && n.value > 0
  }

  /** Paying a debt I owe from a known account holding less than a parsed amount. */
  predicate FundsShort(f: PaymentFields, debt: Debt, details: Option<Account>) {
    debt.debtType == IOwe && details.Some? && f.amount.Number? && f.amount.value > details.value.balance
  }

  /** The conditions a payment must meet: an account, a positive amount no larger than what is
      owed (nor than the account holds, when I am the one paying), and a date. */
  predicate Acceptable(f: PaymentFields, debt: Debt, details: Option<Account>) {
    && f.accountId != ""
    && PositiveAmount(f.amount)
    && f.amount.value <= debt.currentOwed
    && !FundsShort(f, debt, details)
    && f.date != ""
  }

  /** Which fields carry an error, and which message. The funds check overrides the other
      amount messages. */
  predicate FieldsMatch(errors: map<Field, ErrorKey>, f: PaymentFields, debt: Debt, details: Option<Account>) {
    && (PaymentAccountField in errors <==> f.accountId == "")
    && (PaymentAccountField in errors ==> errors[PaymentAccountField] == SelectAccount)
    && (PaymentAmountField in errors <==>
          !PositiveAmount(f.amount) || f.amount.value > debt.currentOwed || FundsShort(f, debt, details))
    && (PaymentAmountField in errors ==>
          errors[PaymentAmountField] ==
            (if FundsShort(f, debt, details) then InsufficientFundsInPaymentAccount
             else if !PositiveAmount(f.amount) then InvalidAmountPositive
             else PaymentExceedsDebt))
    && (PaymentDateField in errors <==> f.date == "")
    && (PaymentDateField in errors ==> errors[PaymentDateField] == RequiredField)
  }

  /** validate: the rules in source order; the payment passes exactly when it is Acceptable. */
  method Validate(f: PaymentFields, debt: Debt, details: Option<Account>)
    returns (errors: map<Field, ErrorKey>, ok: bool)
    ensures FieldsMatch(errors, f, debt, details)
    ensures ok <==> errors == map[]
    ensures ok <==> Acceptable(f, debt, details)
  {
    errors := map[];
    if f.accountId == "" {
      errors := errors[PaymentAccountField := SelectAccount];
    }
    if f.amount.Blank? || f.amount.NotNumber? || f.amount.value <= 0 {
      errors := errors[PaymentAmountField := InvalidAmountPositive];
    } else if f.amount.value > debt.currentOwed {
      errors := errors[PaymentAmountField := PaymentExceedsDebt];
    }
    if debt.debtType == IOwe && details.Some? && f.amount.Number? && f.amount.value > details.value.balance {
      errors := errors[PaymentAmountField := InsufficientFundsInPaymentAccount];
    }
    if f.date == "" {
      errors := errors[PaymentDateField := RequiredField];
    }
    ok := errors == map[];
    NoErrorsIffAcceptable(errors, f, debt, details);
  }

  /** An error map that matches the rules is empty exactly when the payment is Acceptable. */
  lemma NoErrorsIffAcceptable(errors: map<Field, ErrorKey>, f: PaymentFields, debt: Debt, details: Option<Account>)
    requires FieldsMatch(errors, f, debt, details)
    ensures errors == map[] <==> Acceptable(f, debt, details)
  {
    if errors != map[] {
      var k :| k in errors;
      match k
      case PaymentAccountField =>
      case PaymentAmountField =>
      case PaymentDateField =>
    }
  }

  /** handleSubmit's payment: in the debt's currency, with the parsed amount and trimmed notes. */
  function Payload(f: PaymentFields, debt: Debt): (r: PaymentPayload)
    requires f.amount.Number?
    ensures r.debtId == debt.id && r.debtType == debt.debtType && r.debtName == debt.name
    ensures r.currency == debt.currency && r.currentOwed == debt.currentOwed
    ensures r.amount == f.amount.value && r.accountId == f.accountId
    ensures r.date == f.date && r.notes == Trim(f.notes)
  {
    PaymentPayload(debt.id, debt.debtType, debt.name, f.amount.value, debt.currency,
                   f.accountId, f.date, Trim(f.notes), debt.currentOwed)
  }

  /** An accepted payment is positive, leaves the debt owing nothing less than zero, and, when I
      am paying, leaves the chosen account no lower than zero. */
  lemma AcceptedPaymentFits(f: PaymentFields, debt: Debt, details: Option<Account>)
    requires Acceptable(f, debt, details)
    ensures var p := Payload(f, debt);
            && p.amount > 0 && p.currentOwed - p.amount >= 0
            && (debt.debtType == IOwe && details.Some? ==> details.value.balance - p.amount >= 0)
  {
  }
}

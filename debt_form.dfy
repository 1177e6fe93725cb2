/** The debt form: its default currency, its validation, and the record it submits. */
module DebtForm {
  import opened Base
  import opened Ledger
  import opened Currencies

  /** The form's fields. The type and status selects are None when emptied; the due date is ""
      when not set. */
  datatype DebtFields = DebtFields(
    name: string, debtType: Option<DebtType>, partyName: string, initialAmount: NumField,
    currency: string, dueDate: string, status: Option<DebtStatus>, notes: string)

  datatype Field =
    | NameField | TypeField | PartyNameField | InitialAmountField | CurrencyField | StatusField

  datatype ErrorKey = RequiredField | InvalidAmountPositive

  /** What the form hands to the debts page. `id` is present only when an existing debt is edited. */
  datatype DebtPayload = DebtPayload(
    name: string, debtType: DebtType, partyName: string, initialAmount: int, currency: string,
    currentOwed: int, dueDate: Option<string>, status: DebtStatus, notes: string, id: Option<Id>)

  /** The currency the form starts with: an edited debt's own currency (JOD when it has none and
      JOD is offered, else the hard-coded default); for a new debt JOD, else the first offered,
      else the hard-coded default. */
  function InitialCurrency(initial: Option<Debt>, available: seq<string>, hardcoded: string): (r: string)
    ensures initial.Some? && initial.value.currency != "" ==> r == initial.value.currency
    ensures initial.Some? && initial.value.currency == "" ==>
              r == (if "JOD" in available then "JOD" else hardcoded)
    ensures initial.None? ==> r == PreferredCurrency(available, hardcoded)
    ensures initial.None? ==> r in available || (available == [] && r == hardcoded)
  {
    if initial.Some? then
      if initial.value.currency != "" then initial.value.currency
      else if "JOD" in available then "JOD" else hardcoded
    else PreferredCurrency(available, hardcoded)
  }

  /** The conditions a debt must meet to be submitted. The due date is optional. */
  predicate Acceptable(f: DebtFields) {
    && !IsBlank(f.name)
    && f.debtType.Some?
    && !IsBlank(f.partyName)
    && f.initialAmount.Number? && f.initialAmount.value > 0
    && f.currency != ""
    && f.status.Some?
  }

  /** Which of the name, type and party fields carry an error; each says the field is required. */
  predicate PartyFieldsMatch(errors: map<Field, ErrorKey>, f: DebtFields) {
    && (NameField in errors <==> IsBlank(f.name))
    && (NameField in errors ==> errors[NameField] == RequiredField)
    && (TypeField in errors <==> f.debtType.None?)
    && (TypeField in errors ==> errors[TypeField] == RequiredField)
    && (PartyNameField in errors <==> IsBlank(f.partyName))
    && (PartyNameField in errors ==> errors[PartyNameField] == RequiredField)
  }

  /** Which of the amount, currency and status fields carry an error, and which message. */
  predicate TermFieldsMatch(errors: map<Field, ErrorKey>, f: DebtFields) {
    && (InitialAmountField in errors <==> !(f.initialAmount.Number? && f.initialAmount.value > 0))
    && (InitialAmountField in errors ==> errors[InitialAmountField] == InvalidAmountPositive)
    && (CurrencyField in errors <==> f.currency == "")
    && (CurrencyField in errors ==> errors[CurrencyField] == RequiredField)
    && (StatusField in errors <==> f.status.None?)
    && (StatusField in errors ==> errors[StatusField] == RequiredField)
  }

  /** The rules on who the debt is with. */
  method PartyRules(f: DebtFields) returns (errors: map<Field, ErrorKey>)
    ensures errors.Keys <= {NameField, TypeField, PartyNameField}
    ensures PartyFieldsMatch(errors, f)
  {
    errors := map[];
    if IsBlank(f.name) {
      errors := errors[NameField := RequiredField];
    }
    if f.debtType.None? {
      errors := errors[TypeField := RequiredField];
    }
    if IsBlank(f.partyName) {
      errors := errors[PartyNameField := RequiredField];
    }
  }

  /** The rules on the amount, its currency and the status. */
  method TermRules(f: DebtFields) returns (errors: map<Field, ErrorKey>)
    ensures errors.Keys <= {InitialAmountField, CurrencyField, StatusField}
    ensures TermFieldsMatch(errors, f)
  {
    errors := map[];
    if f.initialAmount.Blank? || f.initialAmount.NotNumber? || f.initialAmount.value <= 0 {
      errors := errors[InitialAmountField := InvalidAmountPositive];
    }
    if f.currency == "" {
      errors := errors[CurrencyField := RequiredField];
    }
    if f.status.None? {
      errors := errors[StatusField := RequiredField];
    }
  }

  /** validate: one rule per field, in source order; the debt passes exactly when it is
      Acceptable. */
  method Validate(f: DebtFields) returns (errors: map<Field, ErrorKey>, ok: bool)
    ensures PartyFieldsMatch(errors, f) && TermFieldsMatch(errors, f)
    ensures ok <==> errors == map[]
    ensures ok <==> Acceptable(f)
  {
    var partyErrors := PartyRules(f);
    var termErrors := TermRules(f);
    errors := partyErrors + termErrors;
    PartyReportsKept(partyErrors, termErrors, f);
    TermReportsKept(partyErrors, termErrors, f);
    ok := errors == map[];
    NoErrorsIffAcceptable(errors, f);
  }

  /** Adding reports on the amount, currency and status fields keeps the party fields' reports. */
  lemma PartyReportsKept(partyErrors: map<Field, ErrorKey>, termErrors: map<Field, ErrorKey>, f: DebtFields)
    requires termErrors.Keys <= {InitialAmountField, CurrencyField, StatusField}
    requires PartyFieldsMatch(partyErrors, f)
    ensures PartyFieldsMatch(partyErrors + termErrors, f)
  {
    assert NameField !in termErrors && TypeField !in termErrors && PartyNameField !in termErrors;
  }

  /** The party fields' reports leave the amount, currency and status reports as they are. */
  lemma TermReportsKept(partyErrors: map<Field, ErrorKey>, termErrors: map<Field, ErrorKey>, f: DebtFields)
    requires partyErrors.Keys <= {NameField, TypeField, PartyNameField}
    requires TermFieldsMatch(termErrors, f)
    ensures TermFieldsMatch(partyErrors + termErrors, f)
  {
    assert InitialAmountField !in partyErrors && CurrencyField !in partyErrors && StatusField !in partyErrors;
  }

  /** An error map that matches the rules is empty exactly when the debt is Acceptable. */
  lemma NoErrorsIffAcceptable(errors: map<Field, ErrorKey>, f: DebtFields)
    requires PartyFieldsMatch(errors, f) && TermFieldsMatch(errors, f)
    ensures errors == map[] <==> Acceptable(f)
  {
    if errors != map[] {
      var k :| k in errors;
      match k
      case NameField =>
      case TypeField =>
      case PartyNameField =>
      case InitialAmountField =>
      case CurrencyField =>
      case StatusField =>
    }
  }

  /** What handleSubmit relies on having been validated. */
  predicate Submittable(f: DebtFields) {
    f.initialAmount.Number? && f.debtType.Some? && f.status.Some?
  }

  /** handleSubmit's record: trimmed texts, the parsed amount, no due date when none was set.
      An edited debt (one with an id) keeps the amount still owed and carries its id; a new debt
      owes its whole initial amount. */
  function Payload(f: DebtFields, initial: Option<Debt>): (r: DebtPayload)
    requires Submittable(f)
    ensures r.name == Trim(f.name) && r.partyName == Trim(f.partyName) && r.notes == Trim(f.notes)
    ensures r.initialAmount == f.initialAmount.value && r.currency == f.currency
    ensures r.debtType == f.debtType.value && r.status == f.status.value
    ensures r.dueDate.None? <==> f.dueDate == ""
    ensures r.dueDate.Some? ==> r.dueDate.value == f.dueDate
    ensures r.id.Some? <==> initial.Some? && initial.value.id != ""
    ensures r.id.Some? ==> r.id.value == initial.value.id && r.currentOwed == initial.value.currentOwed
    ensures r.id.None? ==> r.currentOwed == r.initialAmount
  {
    var editing := initial.Some? && initial.value.id != "";
    DebtPayload(Trim(f.name), f.debtType.value, Trim(f.partyName), f.initialAmount.value, f.currency,
                if editing then initial.value.currentOwed else f.initialAmount.value,
                if f.dueDate == "" then None else Some(f.dueDate),
                f.status.value, Trim(f.notes),
                if editing then Some(initial.value.id) else None)
  }

  /** An accepted new debt names itself and its party, and starts out owing its whole, positive,
      initial amount. */
  lemma NewDebtOwesInitialAmount(f: DebtFields)
    requires Acceptable(f)
    ensures Submittable(f)
    ensures var r := Payload(f, None);
            && r.currentOwed == r.initialAmount && r.initialAmount > 0
            && r.name != "" && r.partyName != "" && r.id.None?
  {
  }
}

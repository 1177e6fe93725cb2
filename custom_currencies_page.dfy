/** The custom currencies page and its form: validating and normalising a user's own currency,
    saving it, and refusing to delete one that an account still uses. Every save or delete that
    goes through clears the cached currency list. */
module CustomCurrenciesPage {
  import opened Base
  import opened Ledger

  /** The form's fields as typed. */
  datatype CurrencyFields = CurrencyFields(code: string, name: string, symbol: string)

  datatype Field = CodeField | NameField | SymbolField

  datatype ErrorKey = RequiredField | CurrencyCodeTooLong | CurrencySymbolTooLong

  const MaxCodeLength: nat := 10
  const MaxSymbolLength: nat := 10

  /** The conditions a currency must meet: after trimming, a code and a symbol of one to ten
      characters, and a name. */
  predicate Acceptable(f: CurrencyFields) {
    && !IsBlank(f.code) && |Trim(f.code)| <= MaxCodeLength
    && !IsBlank(f.name)
    && !IsBlank(f.symbol) && |Trim(f.symbol)| <= MaxSymbolLength
  }

  /** Which fields carry an error, and which message. */
  predicate FieldsMatch(errors: map<Field, ErrorKey>, f: CurrencyFields) {
    && (CodeField in errors <==> IsBlank(f.code) || |Trim(f.code)| > MaxCodeLength)
    && (CodeField in errors ==>
          errors[CodeField] == (if IsBlank(f.code) then RequiredField else CurrencyCodeTooLong))
    && (NameField in errors <==> IsBlank(f.name))
    && (NameField in errors ==> errors[NameField] == RequiredField)
    && (SymbolField in errors <==> IsBlank(f.symbol) || |Trim(f.symbol)| > MaxSymbolLength)
    && (SymbolField in errors ==>
          errors[SymbolField] == (if IsBlank(f.symbol) then RequiredField else CurrencySymbolTooLong))
  }

  /** CustomCurrencyForm.validate; the currency passes exactly when it is Acceptable. */
  method Validate(f: CurrencyFields) returns (errors: map<Field, ErrorKey>, ok: bool)
    ensures FieldsMatch(errors, f)
    ensures ok <==> errors == map[]
    ensures ok <==> Acceptable(f)
  {
    errors := map[];
    if IsBlank(f.code) {
      errors := errors[CodeField := RequiredField];
    } else if |Trim(f.code)| > MaxCodeLength {
      errors := errors[CodeField := CurrencyCodeTooLong];
    }
    if IsBlank(f.name) {
      errors := errors[NameField := RequiredField];
    }
    if IsBlank(f.symbol) {
      errors := errors[SymbolField := RequiredField];
    } else if |Trim(f.symbol)| > MaxSymbolLength {
      errors := errors[SymbolField := CurrencySymbolTooLong];
    }
    ok := errors == map[];
    NoErrorsIffAcceptable(errors, f);
  }

  /** An error map that matches the rules is empty exactly when the currency is Acceptable. */
  lemma NoErrorsIffAcceptable(errors: map<Field, ErrorKey>, f: CurrencyFields)
    requires FieldsMatch(errors, f)
    ensures errors == map[] <==> Acceptable(f)
  {
    if errors != map[] {
      var k :| k in errors;
      match k
      case CodeField =>
      case NameField =>
      case SymbolField =>
    }
  }

  /** What the form hands to the page. */
  datatype CurrencyPayload = CurrencyPayload(code: string, name: string, symbol: string, isCustom: bool, id: Option<Id>)

  /** handleSubmit's record: the code trimmed and upper-cased, the name and symbol trimmed,
      marked custom, and the id only when an existing currency is edited. */
  function Payload(f: CurrencyFields, initial: Option<CurrencyRecord>): (r: CurrencyPayload)
    ensures r.code == ToUpper(Trim(f.code)) && r.name == Trim(f.name) && r.symbol == Trim(f.symbol)
    ensures r.isCustom
    ensures r.id.Some? <==> initial.Some? && initial.value.id != ""
    ensures r.id.Some? ==> r.id.value == initial.value.id
  {
    CurrencyPayload(ToUpper(Trim(f.code)), Trim(f.name), Trim(f.symbol), true,
                    if initial.Some? && initial.value.id != "" then Some(initial.value.id) else None)
  }

  /** An accepted currency's code is one to ten characters long and already upper-case, so
      normalising it again changes nothing. */
  lemma AcceptedCodeIsNormal(f: CurrencyFields, initial: Option<CurrencyRecord>)
    requires Acceptable(f)
    ensures var r := Payload(f, initial);
            && 1 <= |r.code| <= MaxCodeLength && 1 <= |r.symbol| <= MaxSymbolLength
            && ToUpper(Trim(r.code)) == r.code
  {
    var c := ToUpper(Trim(f.code));
    TrimHasNoOuterSpace(f.code);
    UpperKeepsOuterSpace(Trim(f.code));
    TrimOfUntrimmable(c);
    ToUpperIdempotent(Trim(f.code));
  }

  /** Upper-casing leaves whitespace where it was at both ends. */
  lemma UpperKeepsOuterSpace(s: string)
    ensures s != [] ==> (IsSpace(ToUpper(s)[0]) <==> IsSpace(s[0]))
    ensures s != [] ==> (IsSpace(ToUpper(s)[|s| - 1]) <==> IsSpace(s[|s| - 1]))
  {
  }

  /** A string with no whitespace at either end is its own trim. */
  lemma TrimOfUntrimmable(s: string)
    requires s != [] ==> !IsSpace(s[0]) && !IsSpace(s[|s| - 1])
    ensures Trim(s) == s
  {
  }

  /** The database keeps custom codes unique per user: another custom currency of the user
      (other than `except`) already has this code. */
  predicate CodeTaken(currencies: map<Id, CurrencyRecord>, userId: Id, code: string, except: Option<Id>) {
    exists k :: k in currencies && Some(k) != except && currencies[k].userId == userId
                && currencies[k].isCustom && currencies[k].code == code
  }

  /** No user has two custom currencies with the same code. */
  predicate CodesUnique(currencies: map<Id, CurrencyRecord>) {
    forall a, b ::
      (a in currencies && b in currencies && a != b && currencies[a].isCustom && currencies[b].isCustom
       && currencies[a].userId == currencies[b].userId) ==> currencies[a].code != currencies[b].code
  }

  /** An edit that the unique index lets through keeps the codes unique. */
  lemma EditKeepsCodesUnique(currencies: map<Id, CurrencyRecord>, id: Id, p: CurrencyPayload)
    requires CodesUnique(currencies) && id in currencies
    requires !CodeTaken(currencies, currencies[id].userId, p.code, Some(id))
    ensures CodesUnique(currencies[id := EditedCurrency(currencies[id], p)])
  {
    var after := currencies[id := EditedCurrency(currencies[id], p)];
    forall a, b | a in after && b in after && a != b && after[a].isCustom && after[b].isCustom
                  && after[a].userId == after[b].userId
      ensures after[a].code != after[b].code
    {
      if a == id {
        assert currencies[b] == after[b];
      } else if b == id {
        assert currencies[a] == after[a];
      }
    }
  }

  /** An insert that the unique index lets through keeps the codes unique. */
  lemma InsertKeepsCodesUnique(currencies: map<Id, CurrencyRecord>, r: CurrencyRecord)
    requires CodesUnique(currencies) && r.id !in currencies
    requires r.isCustom ==> !CodeTaken(currencies, r.userId, r.code, None)
    ensures CodesUnique(currencies[r.id := r])
  {
    var after := currencies[r.id := r];
    forall a, b | a in after && b in after && a != b && after[a].isCustom && after[b].isCustom
                  && after[a].userId == after[b].userId
      ensures after[a].code != after[b].code
    {
      if a == r.id {
        assert currencies[b] == after[b];
      } else if b == r.id {
        assert currencies[a] == after[a];
      }
    }
  }

  /** An edit writes the code, the name and the symbol. */
  function EditedCurrency(c: CurrencyRecord, p: CurrencyPayload): (r: CurrencyRecord)
    ensures r.id == c.id && r.userId == c.userId && r.isCustom == c.isCustom
    ensures r.code == p.code && r.name == p.name && r.symbol == p.symbol
  {
    c.(code := p.code, name := p.name, symbol := p.symbol)
  }

  /** A write of one row of the currencies table. */
  method PutCurrency(s: Store, r: CurrencyRecord)
    requires s.Valid()
    modifies s
    ensures s.Valid()
    ensures s.currencies == old(s.currencies)[r.id := r]
    ensures s.accounts == old(s.accounts) && s.materials == old(s.materials)
    ensures s.transactions == old(s.transactions) && s.debts == old(s.debts)
    ensures s.currencyCacheValid == old(s.currencyCacheValid)
  {
    s.currencies := s.currencies[r.id := r];
  }

  /** handleSubmitCurrency: update the currency being edited (the owner's only) or insert a new
      custom one. A duplicate code on insert is reported, nothing is inserted, and the cache is
      still cleared; any other error aborts before the cache is cleared. An update that matches no
      row of the user writes nothing, so no duplicate code can be refused and it reports success. */
  method SubmitCurrency(s: Store, currentCurrency: Option<CurrencyRecord>, p: CurrencyPayload,
                        userId: Id, newId: Id, fails: set<Write>) returns (outcome: Outcome)
    requires s.Valid() && newId !in s.currencies
    modifies s
    ensures s.Valid()
    ensures s.accounts == old(s.accounts) && s.materials == old(s.materials)
    ensures s.transactions == old(s.transactions) && s.debts == old(s.debts)
    ensures outcome.Failure? && outcome.reason != CurrencyCodeExists ==>
              s.currencies == old(s.currencies) && s.currencyCacheValid == old(s.currencyCacheValid)
    ensures outcome == Success || outcome == Failure(CurrencyCodeExists) ==> !s.currencyCacheValid
    ensures currentCurrency.Some? && currentCurrency.value.id != "" ==>
              var id := currentCurrency.value.id;
              var owned := id in old(s.currencies) && old(s.currencies)[id].userId == userId;
              if CurrencyWrite(id) in fails || (owned && CodeTaken(old(s.currencies), userId, p.code, Some(id))) then
                outcome == Failure(DatabaseError(CurrencyWrite(id)))
              else
                && outcome == Success
                && s.currencies == (if owned then old(s.currencies)[id := EditedCurrency(old(s.currencies)[id], p)]
                                    else old(s.currencies))
    ensures currentCurrency.None? || currentCurrency.value.id == "" ==>
              if CodeTaken(old(s.currencies), userId, p.code, None) then
                outcome == Failure(CurrencyCodeExists) && s.currencies == old(s.currencies)
              else if CurrencyInsert in fails then
                outcome == Failure(DatabaseError(CurrencyInsert))
              else
                && outcome == Success
                && s.currencies == old(s.currencies)[newId := CurrencyRecord(newId, userId, p.code, p.name, p.symbol, true)]
    ensures CodesUnique(old(s.currencies)) ==> CodesUnique(s.currencies)
  {
    if currentCurrency.Some? && currentCurrency.value.id != "" {
      var id := currentCurrency.value.id;
      var owned := id in s.currencies && s.currencies[id].userId == userId;
      if CurrencyWrite(id) in fails || (owned && CodeTaken(s.currencies, userId, p.code, Some(id))) {
        return Failure(DatabaseError(CurrencyWrite(id)));
      }
      if owned {
        if CodesUnique(s.currencies) {
          EditKeepsCodesUnique(s.currencies, id, p);
        }
        PutCurrency(s, EditedCurrency(s.currencies[id], p));
      }
      outcome := Success;
    } else if CodeTaken(s.currencies, userId, p.code, None) {
      outcome := Failure(CurrencyCodeExists);
    } else if CurrencyInsert in fails {
      return Failure(DatabaseError(CurrencyInsert));
    } else {
      if CodesUnique(s.currencies) {
        InsertKeepsCodesUnique(s.currencies, CurrencyRecord(newId, userId, p.code, p.name, p.symbol, true));
      }
      PutCurrency(s, CurrencyRecord(newId, userId, p.code, p.name, p.symbol, true));
      outcome := Success;
    }
    s.currencyCacheValid := false;
  }

  /** Some account of the user is in this currency. */
  predicate InUse(accounts: map<Id, Account>, userId: Id, code: string) {
    exists k :: k in accounts && accounts[k].userId == userId && accounts[k].currency == code
  }

  /** handleDeleteCurrency: refuse while one of the user's accounts is in the currency (by the
      code the page holds for it), else delete the user's custom currency and clear the cache. */
  method DeleteCurrency(s: Store, currencyId: Id, code: string, userId: Id, fails: set<Write>)
    returns (outcome: Outcome)
    requires s.Valid()
    modifies s
    ensures s.Valid()
    ensures s.accounts == old(s.accounts) && s.materials == old(s.materials)
    ensures s.transactions == old(s.transactions) && s.debts == old(s.debts)
    ensures outcome != Success ==>
              s.currencies == old(s.currencies) && s.currencyCacheValid == old(s.currencyCacheValid)
    ensures currencyId == "" ==> outcome == Skipped
    ensures currencyId != "" ==>
              if AccountSearch in fails then outcome == Failure(DatabaseError(AccountSearch))
              else if InUse(old(s.accounts), userId, code) then outcome == Failure(CurrencyInUse)
              else if CurrencyWrite(currencyId) in fails then outcome == Failure(DatabaseError(CurrencyWrite(currencyId)))
              else
                && outcome == Success && !s.currencyCacheValid
                && s.currencies == (if currencyId in old(s.currencies) && old(s.currencies)[currencyId].userId == userId
                                       && old(s.currencies)[currencyId].isCustom
                                    then old(s.currencies) - {currencyId} else old(s.currencies))
  {
    if currencyId == "" {
      return Skipped;
    }
    if AccountSearch in fails {
      return Failure(DatabaseError(AccountSearch));
    }
    if InUse(s.accounts, userId, code) {
      return Failure(CurrencyInUse);
    }
    if CurrencyWrite(currencyId) in fails {
      return Failure(DatabaseError(CurrencyWrite(currencyId)));
    }
    if currencyId in s.currencies && s.currencies[currencyId].userId == userId && s.currencies[currencyId].isCustom {
      s.currencies := s.currencies - {currencyId};
    }
    s.currencyCacheValid := false;
    outcome := Success;
  }
}

/** The older transaction form kept under components/accounts. Its validation and payload are
    the same rules as the newer form's (TransactionForm.Validate and TransactionForm.Payload);
    what differs is its state effect, which falls back to the catalog's default currency. */
module AccountsTransactionForm {
  import opened Base
  import opened Ledger
  import opened Currencies
  import opened TransactionForm

  class AccountEntryFormState {
    var formType: FormType
    var fromAccountId: Id
    var toAccountId: Id
    var currency: string
    var sourceDetails: Option<Account>
    var availableTo: seq<Account>

    constructor (formType: FormType)
      ensures this.formType == formType && fromAccountId == "" && toAccountId == ""
      ensures currency == "JOD" && sourceDetails.None? && availableTo == []
    {
      DefaultCurrencyIsJod();
      this.formType := formType;
      fromAccountId := "";
      toAccountId := "";
      currency := DefaultCurrency.code;
      sourceDetails := None;
      availableTo := [];
    }

    /** The initialising effect: an edited entry brings its account and its currency (JOD when
        it has none); a new entry starts empty in JOD. */
    method Initialise(initial: Option<Transaction>)
      modifies this
      ensures initial.Some? ==> fromAccountId == initial.value.accountId
      ensures initial.Some? && initial.value.currency != "" ==> currency == initial.value.currency
      ensures initial.None? || initial.value.currency == "" ==> currency == "JOD"
      ensures initial.None? ==> fromAccountId == "" && toAccountId == ""
      ensures initial.Some? ==> toAccountId == old(toAccountId)
      ensures formType == old(formType) && sourceDetails == old(sourceDetails) && availableTo == old(availableTo)
    {
      DefaultCurrencyIsJod();
      if initial.Some? {
        currency := if initial.value.currency != "" then initial.value.currency else DefaultCurrency.code;
        fromAccountId := initial.value.accountId;
      } else {
        currency := DefaultCurrency.code;
        fromAccountId := "";
        toAccountId := "";
      }
    }

    /** The source-account effect: the currency is the source account's, or JOD when no source
        is selected; transfer destinations exclude the source and, once a source is known, must
        share its currency, and a destination that no longer qualifies is cleared. */
    method SyncSourceAccount(accounts: seq<Account>)
      modifies this
      ensures sourceDetails == FindAccount(accounts, fromAccountId)
      ensures fromAccountId == old(fromAccountId) && formType == old(formType)
      ensures currency == (if sourceDetails.Some? then sourceDetails.value.currency else "JOD")
      ensures formType == TransferForm ==>
                availableTo == DestinationCandidates(accounts, fromAccountId,
                  if sourceDetails.Some? then Some(sourceDetails.value.currency) else None)
      ensures formType != TransferForm ==> availableTo == old(availableTo)
      ensures toAccountId == (if formType == TransferForm && sourceDetails.Some? && old(toAccountId) != ""
                                 && !IsCandidate(accounts, old(toAccountId), fromAccountId, sourceDetails.value.currency)
                              then "" else old(toAccountId))
    {
      DefaultCurrencyIsJod();
      var current := FindAccount(accounts, fromAccountId);
      sourceDetails := current;
      if current.Some? {
        currency := current.value.currency;
        if formType == TransferForm {
          availableTo := DestinationCandidates(accounts, fromAccountId, Some(current.value.currency));
          if toAccountId != "" && !IsCandidate(accounts, toAccountId, fromAccountId, current.value.currency) {
            toAccountId := "";
          }
        }
      } else {
        currency := DefaultCurrency.code;
        if formType == TransferForm {
          availableTo := DestinationCandidates(accounts, fromAccountId, None);
        }
      }
    }
  }
}

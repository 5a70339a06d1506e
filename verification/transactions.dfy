/** The Transaction record and the TransactionType enum. */
module Transactions {
  import opened Failures
  import opened Calendar
  import opened Text

  datatype TransactionType = DEPOSIT | WITHDRAWAL | TRANSFER | INTEREST_CREDIT | FEE_DEBIT

  /** Enum.name() */
  function Name(t: TransactionType): string {
    match t
    case DEPOSIT => "DEPOSIT"
    case WITHDRAWAL => "WITHDRAWAL"
    case TRANSFER => "TRANSFER"
    case INTEREST_CREDIT => "INTEREST_CREDIT"
    case FEE_DEBIT => "FEE_DEBIT"
  }

  const AllTypes: seq<TransactionType> := [DEPOSIT, WITHDRAWAL, TRANSFER, INTEREST_CREDIT, FEE_DEBIT]

  /** There are exactly five types, with five distinct names. */
  lemma ExactlyFiveTypes()
    ensures |AllTypes| == 5
    ensures forall t: TransactionType :: t in AllTypes
    ensures forall i, j :: 0 <= i < j < |AllTypes| ==> Name(AllTypes[i]) != Name(AllTypes[j])
  {
    forall t: TransactionType
      ensures t in AllTypes
    {
      match t
      case DEPOSIT => assert AllTypes[0] == t;
      case WITHDRAWAL => assert AllTypes[1] == t;
      case TRANSFER => assert AllTypes[2] == t;
      case INTEREST_CREDIT => assert AllTypes[3] == t;
      case FEE_DEBIT => assert AllTypes[4] == t;
    }
  }

  /** TransactionType.valueOf on a non-null name: an exact, case-sensitive match. */
  function ValueOf(name: string): (r: Result<TransactionType>)
    ensures r.Ok? ==> Name(r.value) == name
    ensures r.Err? ==> forall t :: Name(t) != name
    ensures r.Err? ==> r.error == IllegalArgument("No enum constant model.transaction.TransactionType." + name)
  {
    if name == "DEPOSIT" then Ok(DEPOSIT)
    else if name == "WITHDRAWAL" then Ok(WITHDRAWAL)
    else if name == "TRANSFER" then Ok(TRANSFER)
    else if name == "INTEREST_CREDIT" then Ok(INTEREST_CREDIT)
    else if name == "FEE_DEBIT" then Ok(FEE_DEBIT)
    else Err(IllegalArgument("No enum constant model.transaction.TransactionType." + name))
  }

  /** isValidType: only IllegalArgumentException is caught, so a null name escapes as the
      NullPointerException valueOf throws. */
  function IsValidType(name: Option<string>): (r: Result<bool>)
    ensures name.None? <==> r.Err?
    ensures name.Some? ==> (r == Ok(true) <==> exists t :: Name(t) == name.value)
  {
    match name
    case None => Err(NullReference)
    case Some(s) => Ok(ValueOf(s).Ok?)
  }

  /** The valid names are exactly the upper-case constants; "deposit" is not one. */
  lemma IsValidTypeSamples()
    ensures IsValidType(Some("DEPOSIT")) == Ok(true)
    ensures IsValidType(Some("deposit")) == Ok(false)
    ensures IsValidType(None).Err?
  {
    assert "deposit" != "DEPOSIT" by { assert "deposit"[0] != "DEPOSIT"[0]; }
  }

  /** Free-text description. DepositOf and WithdrawalOf stand for "Deposit of " and
      "Withdrawal of " followed by the printed amount. */
  datatype Note = Plain(text: string) | DepositOf(amount: real) | WithdrawalOf(amount: real)

  /** The account is held by its account number. */
  datatype Transaction = Transaction(
    transactionId: string,
    accountNumber: string,
    amount: real,
    kind: TransactionType,
    timestamp: DateTime,
    description: Option<Note>)

  /** The record's validating constructor; the description is never checked. */
  function NewTransaction(id: Option<string>, account: Option<string>, amount: real,
                          kind: Option<TransactionType>, timestamp: Option<DateTime>,
                          description: Option<Note>): (r: Result<Transaction>)
    ensures r.Ok? <==> id.Some? && !IsBlank(id.value) && account.Some? && amount > 0.0
                       && kind.Some? && timestamp.Some?
    ensures r.Ok? ==> r.value == Transaction(id.value, account.value, amount, kind.value, timestamp.value, description)
    ensures r.Err? ==> r.error.IllegalArgument?
  {
    if id.None? || IsBlank(id.value) then Err(IllegalArgument("Transaction ID cannot be null or blank"))
    else if account.None? then Err(IllegalArgument("Account cannot be null"))
    else if amount <= 0.0 then Err(IllegalArgument("Amount must be positive"))
    else if kind.None? then Err(IllegalArgument("Transaction type cannot be null"))
    else if timestamp.None? then Err(IllegalArgument("Timestamp cannot be null"))
    else Ok(Transaction(id.value, account.value, amount, kind.value, timestamp.value, description))
  }

  predicate IsDeposit(t: Transaction) {
    t.kind == DEPOSIT
  }

  predicate IsWithdrawal(t: Transaction) {
    t.kind == WITHDRAWAL
  }

  predicate IsTransfer(t: Transaction) {
    t.kind == TRANSFER
  }

  /** At most one of the three kind tests holds, and none holds for interest credits and fee debits. */
  lemma KindTestsExclusive(t: Transaction)
    ensures !(IsDeposit(t) && IsWithdrawal(t)) && !(IsDeposit(t) && IsTransfer(t)) && !(IsWithdrawal(t) && IsTransfer(t))
    ensures t.kind in {INTEREST_CREDIT, FEE_DEBIT} <==> !IsDeposit(t) && !IsWithdrawal(t) && !IsTransfer(t)
  {
  }
}

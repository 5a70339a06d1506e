/** The value records of the common package: AccountDetails, KYCInfo, TransferRequest and
    AccountSummary. Each constructor checks its arguments in order and throws
    IllegalArgumentException on the first it refuses. */
module Common {
  import opened Failures
  import opened Calendar
  import opened Text
  import opened Validation
  import opened Accounts

  // ---------------------------------------------------------------------------------
  // AccountDetails

  /** branchCity is never checked and may be null. */
  datatype AccountDetails = AccountDetails(
    accountNumber: string,
    ifscCode: string,
    branchName: string,
    branchCity: Option<string>,
    openingDate: Date)

  function NewAccountDetails(accountNumber: Option<string>, ifscCode: Option<string>, branchName: Option<string>,
                             branchCity: Option<string>, openingDate: Option<Date>): (r: Result<AccountDetails>)
    ensures r.Ok? <==> IsValidString(accountNumber) && IsValidString(ifscCode) && IsValidString(branchName)
                       && openingDate.Some?
    ensures !IsValidString(accountNumber) ==> r == Err(IllegalArgument("Account number cannot be null or blank"))
    ensures IsValidString(accountNumber) && !IsValidString(ifscCode)
            ==> r == Err(IllegalArgument("IFSC code cannot be null or blank"))
    ensures IsValidString(accountNumber) && IsValidString(ifscCode) && !IsValidString(branchName)
            ==> r == Err(IllegalArgument("Branch name cannot be null or blank"))
    ensures r.Ok? ==> && Some(r.value.accountNumber) == accountNumber && Some(r.value.ifscCode) == ifscCode
                      && Some(r.value.branchName) == branchName && r.value.branchCity == branchCity
                      && Some(r.value.openingDate) == openingDate
  {
    if !IsValidString(accountNumber) then Err(IllegalArgument("Account number cannot be null or blank"))
    else if !IsValidString(ifscCode) then Err(IllegalArgument("IFSC code cannot be null or blank"))
    else if !IsValidString(branchName) then Err(IllegalArgument("Branch name cannot be null or blank"))
    else if openingDate.None? then Err(IllegalArgument("Opening date cannot be null"))
    else Ok(AccountDetails(accountNumber.value, ifscCode.value, branchName.value, branchCity, openingDate.value))
  }

  /** equals against any object: another AccountDetails with the same account number, IFSC
      code and branch name. The identity shortcut is subsumed by the field comparison. */
  predicate DetailsEquals(d: AccountDetails, other: Option<AccountDetails>) {
    && other.Some?
    && d.accountNumber == other.value.accountNumber
    && d.ifscCode == other.value.ifscCode
    && d.branchName == other.value.branchName
  }

  /** hashCode: 31-fold composition of the three fields' String.hashCode in int arithmetic. */
  function DetailsHash(d: AccountDetails): (h: int)
    ensures -TwoTo31 <= h < TwoTo31
  {
    var h1 := StringHash(d.accountNumber);
    var h2 := WrapInt32(31 * h1 + StringHash(d.ifscCode));
    WrapInt32(31 * h2 + StringHash(d.branchName))
  }

  /** equals is an equivalence that ignores the city and the opening date, is false against
      null, and equal details hash alike. */
  lemma DetailsEqualityLaws(a: AccountDetails, b: AccountDetails, c: AccountDetails)
    ensures DetailsEquals(a, Some(a)) && !DetailsEquals(a, None)
    ensures DetailsEquals(a, Some(b)) <==> DetailsEquals(b, Some(a))
    ensures DetailsEquals(a, Some(b)) && DetailsEquals(b, Some(c)) ==> DetailsEquals(a, Some(c))
    ensures DetailsEquals(a, Some(b)) ==> DetailsHash(a) == DetailsHash(b)
    ensures DetailsEquals(a, Some(a.(branchCity := b.branchCity, openingDate := b.openingDate)))
  {
  }

  /** Details that differ only in the city hash alike but are still told apart from details
      with another branch name, whose hash may coincide. */
  lemma DetailsHashIgnoresCity(a: AccountDetails, city: Option<string>, date: Date)
    ensures DetailsHash(a.(branchCity := city, openingDate := date)) == DetailsHash(a)
    ensures DetailsEquals(a, Some(a.(branchName := a.branchName + "x"))) == false
  {
    assert |a.branchName + "x"| != |a.branchName|;
  }

  // ---------------------------------------------------------------------------------
  // KYCInfo

  datatype KycInfo = KycInfo(
    documentType: string,
    documentNumber: string,
    documentIssuingCountry: string,
    issueDate: Date,
    expiryDate: Date)

  function NewKycInfo(documentType: Option<string>, documentNumber: Option<string>, country: Option<string>,
                      issueDate: Option<Date>, expiryDate: Option<Date>): (r: Result<KycInfo>)
    ensures r.Ok? <==> && IsValidString(documentType) && IsValidString(documentNumber) && IsValidString(country)
                       && issueDate.Some? && expiryDate.Some? && issueDate.value <= expiryDate.value
    ensures !IsValidString(documentType) ==> r == Err(IllegalArgument("Document type cannot be null or blank"))
    ensures IsValidString(documentType) && IsValidString(documentNumber) && IsValidString(country)
            && issueDate.Some? && expiryDate.Some? && issueDate.value > expiryDate.value
            ==> r == Err(IllegalArgument("Issue date cannot be after expiry date"))
    ensures r.Ok? ==> r.value.issueDate <= r.value.expiryDate
    ensures r.Ok? ==> Some(r.value.issueDate) == issueDate && Some(r.value.expiryDate) == expiryDate
  {
    if !IsValidString(documentType) then Err(IllegalArgument("Document type cannot be null or blank"))
    else if !IsValidString(documentNumber) then Err(IllegalArgument("Document number cannot be null or blank"))
    else if !IsValidString(country) then Err(IllegalArgument("Document issuing country cannot be null or blank"))
    else if issueDate.None? || expiryDate.None? then Err(IllegalArgument("Issue and expiry dates cannot be null"))
    else if issueDate.value > expiryDate.value then Err(IllegalArgument("Issue date cannot be after expiry date"))
    else Ok(KycInfo(documentType.value, documentNumber.value, country.value, issueDate.value, expiryDate.value))
  }

  /** isValid, with the clock's date passed in: today is strictly before the expiry. */
  predicate KycIsValid(k: KycInfo, today: Date) {
    today < k.expiryDate
  }

  /** isExpiringSoon: still valid, and the expiry falls before today plus thirty days. */
  predicate KycIsExpiringSoon(k: KycInfo, today: Date) {
    today < k.expiryDate && k.expiryDate < today + 30
  }

  /** A document expiring soon is valid; it is expiring soon on exactly the 29 days before
      its expiry; and validity only ends, it never resumes. */
  lemma KycWindows(k: KycInfo, today: Date, later: Date)
    ensures KycIsExpiringSoon(k, today) ==> KycIsValid(k, today)
    ensures KycIsExpiringSoon(k, today) <==> k.expiryDate - 29 <= today <= k.expiryDate - 1
    ensures today <= later && KycIsValid(k, later) ==> KycIsValid(k, today)
    ensures !KycIsValid(k, k.expiryDate)
  {
  }

  /** A document issued and expiring on the same day is accepted but is never valid from
      its issue date on. */
  lemma SameDayDocument(t: string, n: string, c: string, d: Date)
    requires !IsBlank(t) && !IsBlank(n) && !IsBlank(c)
    ensures NewKycInfo(Some(t), Some(n), Some(c), Some(d), Some(d)).Ok?
    ensures !KycIsValid(NewKycInfo(Some(t), Some(n), Some(c), Some(d), Some(d)).value, d)
  {
  }

  // ---------------------------------------------------------------------------------
  // TransferRequest

  /** The record holds references to two live accounts. A reference is modelled by the
      account's number; the account's state at the time of a call is passed to the call.
      Status is free text and never checked. */
  datatype TransferRequest = TransferRequest(
    requestId: string,
    fromAccount: string,
    toAccount: string,
    amount: real,
    purpose: string,
    requestTime: Option<DateTime>,
    status: Option<string>)

  function NewTransferRequest(requestId: Option<string>, fromAccount: Option<Account>, toAccount: Option<Account>,
                              amount: real, purpose: Option<string>, requestTime: Option<DateTime>,
                              status: Option<string>): (r: Result<TransferRequest>)
    ensures r.Ok? <==> IsValidString(requestId) && fromAccount.Some? && toAccount.Some? && amount > 0.0
                       && IsValidString(purpose)
    ensures !IsValidString(requestId) ==> r == Err(IllegalArgument("Request ID cannot be null or blank"))
    ensures IsValidString(requestId) && (fromAccount.None? || toAccount.None?)
            ==> r == Err(IllegalArgument("Accounts cannot be null"))
    ensures IsValidString(requestId) && fromAccount.Some? && toAccount.Some? && amount <= 0.0
            ==> r == Err(IllegalArgument("Transfer amount must be positive"))
    ensures r.Ok? ==> && r.value.amount == amount && r.value.fromAccount == fromAccount.value.accountNumber
                      && r.value.toAccount == toAccount.value.accountNumber && r.value.status == status
                      && r.value.requestId == requestId.value && r.value.purpose == purpose.value
                      && r.value.requestTime == requestTime
  {
    if !IsValidString(requestId) then Err(IllegalArgument("Request ID cannot be null or blank"))
    else if fromAccount.None? || toAccount.None? then Err(IllegalArgument("Accounts cannot be null"))
    else if amount <= 0.0 then Err(IllegalArgument("Transfer amount must be positive"))
    else if !IsValidString(purpose) then Err(IllegalArgument("Purpose cannot be null or blank"))
    else Ok(TransferRequest(requestId.value, fromAccount.value.accountNumber, toAccount.value.accountNumber,
                            amount, purpose.value, requestTime, status))
  }

  /** isValid: the source account's balance at the time of the call covers the amount;
      `from` is the referenced source account in its current state. */
  predicate TransferIsValid(t: TransferRequest, from: Account)
    requires from.accountNumber == t.fromAccount
  {
    from.balance >= t.amount
  }

  /** isValid agrees with a savings account's withdraw on a built request, but ignores the
      overdraft of a current account and the lock of a deposit account: a valid request may
      still be refused, and an invalid one may still go through. */
  lemma TransferValidityVersusWithdraw(t: TransferRequest, from: Account)
    requires t.amount > 0.0 && from.accountNumber == t.fromAccount
    ensures from.variant.Savings? ==> (TransferIsValid(t, from) <==> Withdraw(from, t.amount).Ok?)
    ensures from.variant.Current? && from.variant.overdraftLimit >= 0.0 && TransferIsValid(t, from)
            ==> Withdraw(from, t.amount).Ok?
    ensures (from.variant.FixedDeposit? || from.variant.RecurringDeposit?)
            ==> Withdraw(from, t.amount).Err?
  {
  }

  /** isValid reads the live balance: a request that was valid when it was built stops
      being valid once a later withdrawal leaves less than its amount, and a deposit can
      make an invalid request valid. */
  lemma ValidityFollowsLiveBalance(t: TransferRequest, from: Account, spent: real, added: real)
    requires from.accountNumber == t.fromAccount && from.variant.Savings?
    requires Withdraw(from, spent).Ok? && Deposit(from, added).Ok?
    ensures TransferIsValid(t, Withdraw(from, spent).value) <==> from.balance - spent >= t.amount
    ensures TransferIsValid(t, Deposit(from, added).value) <==> from.balance + added >= t.amount
  {
  }

  /** The case built from the constructor: 80 out of 100 is valid, and after 50 is
      withdrawn the same request is not. */
  lemma RequestInvalidatedByWithdrawal(a: Account)
    requires a.variant.Savings? && a.balance == 100.0
    ensures NewTransferRequest(Some("R"), Some(a), Some(a), 80.0, Some("p"), None, None).Ok?
    ensures var t := NewTransferRequest(Some("R"), Some(a), Some(a), 80.0, Some("p"), None, None).value;
            TransferIsValid(t, a) && Withdraw(a, 50.0).Ok? && !TransferIsValid(t, Withdraw(a, 50.0).value)
  {
    ValidWithVisibleChar("R", 0);
    ValidWithVisibleChar("p", 0);
  }

  /** A request from an account to itself is accepted by the constructor. */
  lemma SelfTransferRequestAccepted(a: Account, amount: real)
    requires amount > 0.0
    ensures NewTransferRequest(Some("R"), Some(a), Some(a), amount, Some("p"), None, None).Ok?
  {
    ValidWithVisibleChar("R", 0);
    ValidWithVisibleChar("p", 0);
  }

  // ---------------------------------------------------------------------------------
  // AccountSummary

  /** accountType is never checked; transactionCount is a Java int. */
  datatype AccountSummary = AccountSummary(
    accountNumber: string,
    customerName: string,
    accountType: Option<string>,
    balance: real,
    openingDate: Option<Date>,
    transactionCount: int)

  function NewAccountSummary(accountNumber: Option<string>, customerName: Option<string>, accountType: Option<string>,
                             balance: real, openingDate: Option<Date>, transactionCount: int): (r: Result<AccountSummary>)
    ensures r.Ok? <==> IsValidString(accountNumber) && IsValidString(customerName) && balance >= 0.0
                       && transactionCount >= 0
    ensures IsValidString(accountNumber) && IsValidString(customerName) && balance < 0.0
            ==> r == Err(IllegalArgument("Balance cannot be negative"))
    ensures r.Ok? ==> IsValidBalance(r.value.balance) && r.value.balance == balance
                      && r.value.transactionCount == transactionCount && r.value.accountType == accountType
  {
    if !IsValidString(accountNumber) then Err(IllegalArgument("Account number cannot be null or blank"))
    else if !IsValidString(customerName) then Err(IllegalArgument("Customer name cannot be null or blank"))
    else if balance < 0.0 then Err(IllegalArgument("Balance cannot be negative"))
    else if transactionCount < 0 then Err(IllegalArgument("Transaction count cannot be negative"))
    else Ok(AccountSummary(accountNumber.value, customerName.value, accountType, balance, openingDate, transactionCount))
  }

  const HighBalanceThreshold: real := 50000.0

  /** isHighBalance: strictly above 50000. */
  predicate IsHighBalance(s: AccountSummary) {
    s.balance > HighBalanceThreshold
  }

  /** The summary's edges: a zero balance and a zero count are accepted, exactly 50000 is
      not high, an account in overdraft cannot be summarised, and every account kept at
      its floor other than a current account can. */
  lemma SummaryBoundaries(number: string, name: string, a: Account)
    requires !IsBlank(number) && !IsBlank(name)
    ensures NewAccountSummary(Some(number), Some(name), None, 0.0, None, 0).Ok?
    ensures !IsHighBalance(NewAccountSummary(Some(number), Some(name), None, HighBalanceThreshold, None, 0).value)
    ensures a.balance < 0.0 ==> NewAccountSummary(Some(number), Some(name), None, a.balance, None, |a.log|).Err?
    ensures AboveFloor(a) && !a.variant.Current?
            ==> NewAccountSummary(Some(number), Some(name), Some(AccountType(a)), a.balance, Some(a.openingDate), |a.log|).Ok?
  {
  }
}

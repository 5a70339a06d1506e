/** The Account base class and its four final variants: balance, transaction log,
    per-variant withdrawal ceiling and monthly interest rule. */
module Accounts {
  import opened Failures
  import opened Calendar
  import opened Powers

  /** The variant-specific fields. interestRate is a fraction per year (0.04 is 4%). */
  datatype Variant =
    | Savings(interestRate: real)
    | Current(overdraftLimit: real)
    | FixedDeposit(interestRate: real, tenureMonths: int, monthsCompleted: int)
    | RecurringDeposit(monthlyDeposit: real, interestRate: real, tenureMonths: int, monthsCompleted: int)

  /** One entry of the account's description log. Note is any text handed to
      recordTransaction or addTransaction; the other entries stand for the strings
      the services build, whose rendering of a double is not modelled. */
  datatype LogEntry =
    | Note(text: string)
    | DepositLine(amount: real, at: DateTime)
    | WithdrawalLine(amount: real, at: DateTime)
    | TransferOutLine(amount: real, toAccount: string)
    | TransferInLine(amount: real, fromAccount: string)
    | DisbursementLine(amount: real)

  /** The owning customer is held by its user id. */
  datatype Account = Account(
    accountNumber: string,
    customerId: string,
    balance: real,
    openingDate: Date,
    isActive: bool,
    variant: Variant,
    log: seq<LogEntry>)

  /** getAccountType: the string each variant's constructor assigns. */
  function AccountType(a: Account): string {
    match a.variant
    case Savings(_) => "Savings"
    case Current(_) => "Current"
    case FixedDeposit(_, _, _) => "Fixed Deposit"
    case RecurringDeposit(_, _, _, _) => "Recurring Deposit"
  }

  /** The base constructor: active, empty log, opened today. */
  function Open(accountNumber: string, customerId: string, balance: real, today: Date, variant: Variant): (a: Account)
    ensures a.isActive && a.log == [] && a.balance == balance && a.variant == variant
    ensures a.accountNumber == accountNumber && a.customerId == customerId && a.openingDate == today
  {
    Account(accountNumber, customerId, balance, today, true, variant, [])
  }

  function NewSavingsAccount(accountNumber: string, customerId: string, balance: real, interestRate: real, today: Date): (a: Account)
    ensures AccountType(a) == "Savings" && a.variant.interestRate == interestRate
  {
    Open(accountNumber, customerId, balance, today, Savings(interestRate))
  }

  function NewCurrentAccount(accountNumber: string, customerId: string, balance: real, overdraftLimit: real, today: Date): (a: Account)
    ensures AccountType(a) == "Current" && a.variant.overdraftLimit == overdraftLimit
  {
    Open(accountNumber, customerId, balance, today, Current(overdraftLimit))
  }

  function NewFixedDepositAccount(accountNumber: string, customerId: string, amount: real, interestRate: real,
                                  tenureMonths: int, today: Date): (a: Account)
    ensures AccountType(a) == "Fixed Deposit" && a.variant.monthsCompleted == 0
  {
    Open(accountNumber, customerId, amount, today, FixedDeposit(interestRate, tenureMonths, 0))
  }

  function NewRecurringDepositAccount(accountNumber: string, customerId: string, initialBalance: real,
                                      monthlyDeposit: real, interestRate: real, tenureMonths: int, today: Date): (a: Account)
    ensures AccountType(a) == "Recurring Deposit" && a.variant.monthsCompleted == 0
    ensures a.variant.monthlyDeposit == monthlyDeposit
  {
    Open(accountNumber, customerId, initialBalance, today, RecurringDeposit(monthlyDeposit, interestRate, tenureMonths, 0))
  }

  /** The lowest balance each variant may reach: zero, or minus the overdraft limit. */
  predicate AboveFloor(a: Account) {
    match a.variant
    case Current(limit) => a.balance >= -limit
    case _ => a.balance >= 0.0
  }

  /** The largest amount withdraw accepts; None when the variant refuses every withdrawal. */
  function Ceiling(a: Account): Option<real> {
    match a.variant
    case Savings(_) => Some(a.balance)
    case Current(limit) => Some(a.balance + limit)
    case FixedDeposit(_, _, _) => None
    case RecurringDeposit(_, _, _, _) => None
  }

  /** Account.deposit; no variant overrides it, and it never consults isActive. */
  function Deposit(a: Account, amount: real): (r: Result<Account>)
    ensures r.Err? <==> amount <= 0.0
    ensures r.Err? ==> r.error == IllegalArgument("Deposit amount must be positive")
    ensures r.Ok? ==> r.value.balance - a.balance == amount
    ensures r.Ok? ==> r.value == a.(balance := r.value.balance)
    ensures r.Ok? && AboveFloor(a) ==> AboveFloor(r.value)
  {
    if amount <= 0.0 then Err(IllegalArgument("Deposit amount must be positive"))
    else Ok(a.(balance := a.balance + amount))
  }

  /** Account.withdraw, the base rule Savings inherits. */
  function BaseWithdraw(a: Account, amount: real): Result<Account> {
    if amount <= 0.0 then Err(IllegalArgument("Withdrawal amount must be positive"))
    else if amount > a.balance then Err(InsufficientFunds(a.balance))
    else Ok(a.(balance := a.balance - amount))
  }

  /** withdraw, dispatched on the variant. */
  function Withdraw(a: Account, amount: real): (r: Result<Account>)
    ensures r.Ok? <==> Ceiling(a).Some? && 0.0 < amount <= Ceiling(a).value
    ensures r.Ok? ==> a.balance - r.value.balance == amount
    ensures r.Ok? ==> r.value == a.(balance := r.value.balance)
    ensures r.Ok? ==> AboveFloor(r.value)
    ensures Ceiling(a).Some? && amount <= 0.0 ==> r == Err(IllegalArgument("Withdrawal amount must be positive"))
    ensures Ceiling(a).None? ==> r == Err(WithdrawalLocked(AccountType(a)))
  {
    match a.variant
    case Savings(_) => BaseWithdraw(a, amount)
    case Current(limit) =>
      if amount <= 0.0 then Err(IllegalArgument("Withdrawal amount must be positive"))
      else if amount > a.balance + limit then Err(OverdraftExceeded(a.balance + limit))
      else Ok(a.(balance := a.balance - amount))
    case FixedDeposit(_, _, _) => Err(WithdrawalLocked("Fixed Deposit"))
    case RecurringDeposit(_, _, _, _) => Err(WithdrawalLocked("Recurring Deposit"))
  }

  /** One month's interest at a yearly fraction rate. */
  function MonthlyInterest(balance: real, annualRate: real): real {
    balance * annualRate / 12.0
  }

  /** calculateInterest, dispatched on the variant. */
  function CalculateInterest(a: Account): (r: Account)
    ensures r == a.(balance := r.balance, variant := r.variant)
    ensures r.variant.Savings? <==> a.variant.Savings?
    ensures r.variant.Current? <==> a.variant.Current?
    ensures r.variant.FixedDeposit? <==> a.variant.FixedDeposit?
    ensures r.variant.RecurringDeposit? <==> a.variant.RecurringDeposit?
    ensures a.variant.Savings? || a.variant.Current? ==> r.variant == a.variant
    ensures a.variant.FixedDeposit? || a.variant.RecurringDeposit? ==>
      r.variant == a.variant.(monthsCompleted := r.variant.monthsCompleted)
  {
    match a.variant
    case Savings(rate) => a.(balance := a.balance + MonthlyInterest(a.balance, rate))
    case Current(_) => a
    case FixedDeposit(rate, tenure, done) =>
      if done < tenure then
        a.(balance := a.balance + MonthlyInterest(a.balance, rate),
           variant := FixedDeposit(rate, tenure, done + 1))
      else a
    case RecurringDeposit(monthly, rate, tenure, done) =>
      if done < tenure then
        var contributed := a.balance + monthly;
        a.(balance := contributed + MonthlyInterest(contributed, rate),
           variant := RecurringDeposit(monthly, rate, tenure, done + 1))
      else a
  }

  /** recordTransaction and addTransaction: append one entry at the end of the log. */
  function Record(a: Account, entry: LogEntry): (r: Account)
    ensures |r.log| == |a.log| + 1 && r.log[..|a.log|] == a.log && r.log[|a.log|] == entry
    ensures r == a.(log := r.log)
  {
    a.(log := a.log + [entry])
  }

  /** Applying calculateInterest k times, once per simulated month. */
  function AccrueMonths(a: Account, k: nat): (r: Account)
    ensures r.variant.FixedDeposit? <==> a.variant.FixedDeposit?
    ensures r.variant.RecurringDeposit? <==> a.variant.RecurringDeposit?
    ensures r.accountNumber == a.accountNumber && r.log == a.log
    decreases k
  {
    if k == 0 then a else AccrueMonths(CalculateInterest(a), k - 1)
  }

  // ---------------------------------------------------------------- properties

  /** The variant's rates and contributions are non-negative: the source does not check
      this, and interest can push a balance below its floor without it. */
  predicate NonNegativeTerms(a: Account) {
    match a.variant
    case Savings(rate) => rate >= 0.0
    case Current(_) => true
    case FixedDeposit(rate, _, _) => rate >= 0.0
    case RecurringDeposit(monthly, rate, _, _) => monthly >= 0.0 && rate >= 0.0
  }

  /** Deposit, withdraw and interest all keep a balance at or above its variant's floor. */
  lemma FloorPreserved(a: Account, amount: real)
    requires AboveFloor(a) && NonNegativeTerms(a)
    ensures Deposit(a, amount).Ok? ==> AboveFloor(Deposit(a, amount).value)
    ensures Withdraw(a, amount).Ok? ==> AboveFloor(Withdraw(a, amount).value)
    ensures AboveFloor(CalculateInterest(a)) && NonNegativeTerms(CalculateInterest(a))
  {
    match a.variant
    case Savings(rate) =>
      assert a.balance * rate >= 0.0;
    case Current(_) =>
    case FixedDeposit(rate, _, _) =>
      assert a.balance * rate >= 0.0;
    case RecurringDeposit(monthly, rate, _, _) =>
      assert (a.balance + monthly) * rate >= 0.0;
  }

  /** A base-rule withdrawal succeeds exactly up to the balance, and taking all of it leaves zero. */
  lemma BaseWithdrawBoundary(a: Account, amount: real)
    requires a.variant.Savings?
    ensures Withdraw(a, amount).Ok? <==> 0.0 < amount <= a.balance
    ensures amount > 0.0 && amount > a.balance ==> Withdraw(a, amount) == Err(InsufficientFunds(a.balance))
    ensures a.balance > 0.0 ==> Withdraw(a, a.balance) == Ok(a.(balance := 0.0))
  {
  }

  /** Current accounts: the exact ceiling balance + overdraftLimit succeeds and leaves
      -overdraftLimit; any amount above it fails. */
  lemma OverdraftBoundary(a: Account, excess: real)
    requires a.variant.Current? && a.balance + a.variant.overdraftLimit > 0.0 && excess > 0.0
    ensures Withdraw(a, a.balance + a.variant.overdraftLimit)
         == Ok(a.(balance := -a.variant.overdraftLimit))
    ensures Withdraw(a, a.balance + a.variant.overdraftLimit + excess)
         == Err(OverdraftExceeded(a.balance + a.variant.overdraftLimit))
  {
  }

  /** Fixed and recurring deposits refuse every amount, whatever the balance or months completed. */
  lemma DepositAccountsLocked(a: Account, amount: real)
    requires a.variant.FixedDeposit? || a.variant.RecurringDeposit?
    ensures Withdraw(a, amount).Err? && Withdraw(a, amount).error.WithdrawalLocked?
  {
  }

  /** deposit(x) then withdraw(x) restores the account, for the variants that allow withdrawal. */
  lemma DepositWithdrawRoundTrip(a: Account, amount: real)
    requires AboveFloor(a) && amount > 0.0
    requires a.variant.Savings? || a.variant.Current?
    ensures Deposit(a, amount).Ok?
    ensures Withdraw(Deposit(a, amount).value, amount) == Ok(a)
  {
    var d := Deposit(a, amount).value;
    assert d.balance - amount == a.balance;
  }

  /** Savings accrual: balance grows by balance * rate / 12, never shrinks for a non-negative
      rate and balance, and a zero balance stays zero. */
  lemma SavingsAccrual(a: Account)
    requires a.variant.Savings?
    ensures CalculateInterest(a).balance == a.balance * (1.0 + a.variant.interestRate / 12.0)
    ensures a.balance >= 0.0 && a.variant.interestRate >= 0.0 ==> CalculateInterest(a).balance >= a.balance
    ensures a.balance == 0.0 ==> CalculateInterest(a).balance == 0.0
    ensures CalculateInterest(a).variant == a.variant
  {
    var rate := a.variant.interestRate;
    assert a.balance + a.balance * rate / 12.0 == a.balance * (1.0 + rate / 12.0);
    if a.balance >= 0.0 && rate >= 0.0 {
      assert a.balance * rate >= 0.0;
    }
  }

  /** A savings account of 1000 at 4% holds 1000 + 1000 * 0.04 / 12 after one month. */
  lemma SavingsScenario(number: string, customerId: string, today: Date)
    ensures CalculateInterest(NewSavingsAccount(number, customerId, 1000.0, 0.04, today)).balance == 3010.0 / 3.0
  {
  }

  /** Interest leaves current accounts untouched. */
  lemma CurrentHasNoInterest(a: Account)
    requires a.variant.Current?
    ensures CalculateInterest(a) == a
  {
  }

  /** Fixed deposit accrual: before maturity one month of interest and one more month
      completed; at or after maturity nothing changes. */
  lemma FixedDepositAccrual(a: Account)
    requires a.variant.FixedDeposit?
    ensures a.variant.monthsCompleted < a.variant.tenureMonths ==>
      && CalculateInterest(a).balance == a.balance * (1.0 + a.variant.interestRate / 12.0)
      && CalculateInterest(a).variant.monthsCompleted == a.variant.monthsCompleted + 1
    ensures CalculateInterest(a).variant.interestRate == a.variant.interestRate
    ensures CalculateInterest(a).variant.tenureMonths == a.variant.tenureMonths
    ensures a.variant.monthsCompleted >= a.variant.tenureMonths ==> CalculateInterest(a) == a
  {
    var rate := a.variant.interestRate;
    assert a.balance + a.balance * rate / 12.0 == a.balance * (1.0 + rate / 12.0);
  }

  /** Recurring deposit accrual: the monthly contribution is credited first, then a month
      of interest on the sum; nothing changes at or after maturity. */
  lemma RecurringDepositAccrual(a: Account)
    requires a.variant.RecurringDeposit?
    ensures a.variant.monthsCompleted < a.variant.tenureMonths ==>
      && CalculateInterest(a).balance
         == (a.balance + a.variant.monthlyDeposit) * (1.0 + a.variant.interestRate / 12.0)
      && CalculateInterest(a).variant.monthsCompleted == a.variant.monthsCompleted + 1
      && CalculateInterest(a).variant.monthlyDeposit == a.variant.monthlyDeposit
    ensures CalculateInterest(a).variant.interestRate == a.variant.interestRate
    ensures CalculateInterest(a).variant.tenureMonths == a.variant.tenureMonths
    ensures a.variant.monthsCompleted >= a.variant.tenureMonths ==> CalculateInterest(a) == a
  {
    var b := a.balance + a.variant.monthlyDeposit;
    var rate := a.variant.interestRate;
    assert b + b * rate / 12.0 == b * (1.0 + rate / 12.0);
  }

  function MonthsCompleted(a: Account): int
    requires a.variant.FixedDeposit? || a.variant.RecurringDeposit?
  {
    a.variant.monthsCompleted
  }

  /** After k monthly sweeps a fixed or recurring deposit has completed min(start + k, tenure)
      months (or its starting count if that was already at or past tenure): the counter
      never passes the tenure. */
  lemma {:induction false} MonthsCompletedAfter(a: Account, k: nat)
    requires a.variant.FixedDeposit? || a.variant.RecurringDeposit?
    ensures var b := AccrueMonths(a, k);
      && (b.variant.FixedDeposit? || b.variant.RecurringDeposit?)
      && b.variant.tenureMonths == a.variant.tenureMonths
      && MonthsCompleted(b) == (if MonthsCompleted(a) >= a.variant.tenureMonths then MonthsCompleted(a)
                                else if MonthsCompleted(a) + k <= a.variant.tenureMonths then MonthsCompleted(a) + k
                                else a.variant.tenureMonths)
    decreases k
  {
    if k > 0 {
      var c := CalculateInterest(a);
      MonthsCompletedAfter(c, k - 1);
    }
  }

  /** A new fixed or recurring deposit never counts more than max(tenure, 0) completed
      months, and after k <= tenure sweeps it has counted exactly k. */
  lemma FreshDepositMonths(a: Account, k: nat)
    requires a.variant.FixedDeposit? || a.variant.RecurringDeposit?
    requires MonthsCompleted(a) == 0
    ensures MonthsCompleted(AccrueMonths(a, k)) <= (if a.variant.tenureMonths > 0 then a.variant.tenureMonths else 0)
    ensures k <= a.variant.tenureMonths ==> MonthsCompleted(AccrueMonths(a, k)) == k
  {
    MonthsCompletedAfter(a, k);
  }

  /** Before maturity a fixed deposit compounds monthly: k sweeps multiply the balance by
      (1 + rate/12)^k. */
  lemma {:induction false} FixedDepositCompounds(a: Account, k: nat)
    requires a.variant.FixedDeposit?
    requires MonthsCompleted(a) + k <= a.variant.tenureMonths
    ensures AccrueMonths(a, k).balance == a.balance * Pow(1.0 + a.variant.interestRate / 12.0, k)
    decreases k
  {
    if k > 0 {
      var c := CalculateInterest(a);
      FixedDepositAccrual(a);
      FixedDepositCompounds(c, k - 1);
      var g := 1.0 + a.variant.interestRate / 12.0;
      assert c.variant.interestRate == a.variant.interestRate;
      calc {
        AccrueMonths(a, k).balance;
        AccrueMonths(c, k - 1).balance;
        c.balance * Pow(g, k - 1);
        (a.balance * g) * Pow(g, k - 1);
        a.balance * (g * Pow(g, k - 1));
        a.balance * Pow(g, k);
      }
    }
  }
}

# SmartBankSystem core in Dafny

This project models the banking core of SmartBankSystem, a Java console application.
It covers these parts:

- **Accounts.** The four account variants are savings, current (with an overdraft), fixed
  deposit and recurring deposit. The model covers their deposit, withdrawal and monthly
  interest rules.
- **Loans.** The five loan variants share one EMI (equated monthly instalment) formula. A
  loan moves through seven statuses and keeps a list of payments.
- **Records.** Transactions, transaction types, and the value records: account details, KYC
  (know-your-customer) document data, transfer requests, account summaries, loan details and
  loan payments.
- **Users.** The sealed user hierarchy, with a hashed password per user.
- **Repositories and services.** The four in-memory repositories, and the four services that
  combine them: accounts, loans, transactions and users.
- **Utilities.** The validation helpers, and the string-formatting helpers that do not print
  floating-point numbers.

## How the model reads

Everything is a pure function over immutable values.

**Stores.**
- A repository is a `map<string, T>` keyed by the entity's id.
- Java iterates a `HashMap` in an unspecified order. Every sum therefore takes an explicit
  `order` that lists each key once (`Stores.Enumerates`), and the model proves that the sum
  does not depend on it.

**Services and mutation.**
- The Java services mutate accounts and loans in place, through the references the
  repositories hold.
- A service call returns a `Step(state, result)`. The result is an `Ok` value or an `Err`
  that names the exception.
- Where Java changes an object and only then throws, the state returned with the error
  keeps the change (see `LoanService.MakePayment`).
- Opening an account also changes the Customer object in Java. The model returns the
  updated customer to the caller instead (see `AccountService.CreateAccount` under Left out).
- An account is identified by its number, where Java compares Account objects by identity
  (see `Users.AddAccount` under Left out).

**Values.**
- `null` is `Option.None`, used wherever the source tests for or passes `null`.
- Money is an exact `real`.
- A date is an epoch-day `int`. A date-time is a date plus nanoseconds since midnight.
- Strings are `seq<char>`. A Dafny `char` is a Unicode scalar value, so one element stands for one Java `char` only for text in the Basic Multilingual Plane.

**Java behaviour written out.**
- `String.hashCode`, `Integer.toHexString`, 32-bit int overflow, truncating `long` division,
  and `String.isBlank` with `Character.isWhitespace` are all spelled out exactly.
- Case mapping is limited to ASCII letters.
- The loan EMI (equated monthly instalment) of a zero tenure divides by zero. Java's
  floating-point division gives an infinity or NaN there, so the model has an `Emi`
  datatype with those three values besides `Finite`. Payments compare against that value
  as Java compares a double with an infinity or NaN.

**Environment inputs as parameters.**
- The clock enters as a parameter: `today`, `now`, `millis`, the payment month.
- Random UUIDs also enter as parameters (`uuid`).

## Model

| member | source | states |
|---|---|---|
| Accounts.Open | src/model/account/Account.java:18-25 | A new account is active, has an empty log, was opened today, and holds the given number, owner and balance. |
| Accounts.NewSavingsAccount | src/model/account/SavingsAccount.java:10-16 | The account reports type "Savings" and keeps the given yearly rate. |
| Accounts.NewCurrentAccount | src/model/account/CurrentAccount.java:10-15 | The account reports type "Current" and keeps the given overdraft limit. |
| Accounts.NewFixedDepositAccount | src/model/account/FixedDepositAccount.java:11-19 | The account reports type "Fixed Deposit" and starts with no months completed. |
| Accounts.NewRecurringDepositAccount | src/model/account/RecurringDepositAccount.java:13-23 | The account reports type "Recurring Deposit", starts with no months completed, and keeps the monthly contribution. |
| Accounts.AccountType | src/model/account/Account.java:75-77 | The type name each variant's constructor sets: Savings, Current, Fixed Deposit or Recurring Deposit. |
| Accounts.Deposit | src/model/account/Account.java:27-32 | A deposit fails exactly for a non-positive amount, with the source's message. Otherwise it raises the balance by the amount, changes nothing else, and keeps the balance above its floor. |
| Accounts.Withdraw | src/model/account/CurrentAccount.java:18-27 | A withdrawal succeeds exactly for amounts in (0, ceiling]. The ceiling is the balance for savings, the balance plus the overdraft for current accounts, and absent for deposit accounts. A success lowers the balance by the amount, changes nothing else, and leaves the account at or above its floor. A non-positive amount and a locked variant each get their own error. |
| Accounts.CalculateInterest | src/model/account/FixedDepositAccount.java:27-33 | Interest keeps every field but the balance and, for the two deposit variants, the months counter. A savings rate and an overdraft limit stay as they were, and so do a deposit's rate, tenure and monthly contribution. |
| Accounts.Record | src/model/account/Account.java:83-95 | recordTransaction and addTransaction append exactly one entry at the end of the log and change nothing else. |
| Accounts.AccrueMonths | src/model/account/RecurringDepositAccount.java:26-35 | Repeating the monthly interest keeps the variant kind, the number and the log. |
| Accounts.FloorPreserved | src/model/account/Account.java:27-42 | Deposit, withdraw and interest keep each variant at or above its floor: zero, or minus the overdraft limit. This holds while the variant's rates and contributions are non-negative. |
| Accounts.BaseWithdrawBoundary | src/model/account/Account.java:34-42 | Savings withdrawals succeed exactly up to the balance. Above it they fail with the balance in the error. Withdrawing the whole balance leaves exactly zero. |
| Accounts.OverdraftBoundary | src/model/account/CurrentAccount.java:18-27 | Withdrawing exactly balance + overdraft succeeds and leaves minus the limit. Any larger amount fails with the available amount in the error. |
| Accounts.DepositAccountsLocked | src/model/account/FixedDepositAccount.java:22-24 | Fixed and recurring deposits refuse every withdrawal, whatever the amount or the balance. |
| Accounts.DepositWithdrawRoundTrip | src/model/account/Account.java:27-42 | Depositing an amount and then withdrawing it restores the savings or current account exactly. |
| Accounts.SavingsAccrual | src/model/account/SavingsAccount.java:19-23 | One month multiplies the balance by 1 + rate/12. The balance never shrinks for a non-negative balance and rate, a zero balance stays zero, and the rate is untouched. |
| Accounts.SavingsScenario | src/model/account/SavingsAccount.java:19-23 | 1000 at 4% holds 1000 + 1000 * 0.04 / 12 after one month. |
| Accounts.CurrentHasNoInterest | src/model/account/CurrentAccount.java:30-32 | Interest leaves a current account exactly as it was. |
| Accounts.FixedDepositAccrual | src/model/account/FixedDepositAccount.java:27-33 | Before maturity, one month multiplies the balance by 1 + rate/12 and completes one more month. The rate and the tenure are kept. At or after maturity nothing changes. |
| Accounts.RecurringDepositAccrual | src/model/account/RecurringDepositAccount.java:26-35 | Before maturity the contribution is credited first, then interest is paid on the sum, and one more month is completed. The contribution, rate and tenure are kept. At or after maturity nothing changes. |
| Accounts.MonthsCompletedAfter | src/model/account/RecurringDepositAccount.java:26-35 | After k monthly sweeps the counter stands at min(start + k, tenure), or at its start if that was already past the tenure. It never passes the tenure. |
| Accounts.FreshDepositMonths | src/model/account/FixedDepositAccount.java:11-33 | A new deposit never counts more than max(tenure, 0) months, and counts exactly k after k sweeps within the tenure. |
| Accounts.FixedDepositCompounds | src/model/account/FixedDepositAccount.java:27-33 | Within the tenure a fixed deposit compounds monthly: k sweeps multiply the balance by (1 + rate/12)^k. |
| AccountRepository.Save | src/repository/AccountRepository.java:18-24 | A null account is refused with the source's message. Otherwise the account is stored under its number, every other entry is kept, and the store stays keyed by account number. |
| AccountRepository.Update | src/repository/AccountRepository.java:68-73 | Only an account whose number is already stored is replaced. The key set never changes. |
| AccountRepository.FindByAccountNumber | src/repository/AccountRepository.java:26-32 | A lookup finds exactly the stored numbers and fails with "not found" otherwise. |
| AccountRepository.SaveThenFind | src/repository/AccountRepository.java:18-32 | Saving an account makes it findable under its number, unchanged. |
| AccountRepository.FindByCustomer | src/repository/AccountRepository.java:38-42 | Returns exactly the owner's accounts, unchanged. |
| AccountRepository.FindByAccountType | src/repository/AccountRepository.java:44-48 | Returns exactly the accounts whose type equals the argument ignoring case. |
| AccountRepository.FindByAccountTypeIgnoresCase | src/repository/AccountRepository.java:44-48 | Looking up any capitalisation of an account's type name finds exactly the accounts of that variant. |
| AccountRepository.FindActiveAccounts | src/repository/AccountRepository.java:50-54 | Returns exactly the active accounts. |
| AccountRepository.FindWithBalanceAbove | src/repository/AccountRepository.java:56-60 | Returns exactly the accounts strictly above the threshold. |
| AccountRepository.FindWithBalanceBelow | src/repository/AccountRepository.java:62-66 | Returns exactly the accounts strictly below the threshold. |
| AccountRepository.AboveBelowPartition | src/repository/AccountRepository.java:56-66 | The two queries never overlap. Together they miss exactly the accounts whose balance equals the threshold. |
| AccountRepository.TotalBalanceAfterSave | src/repository/AccountRepository.java:89-93 | Saving an account moves the total by its balance less the balance of the account it replaces, in any iteration order. |
| AccountRepository.TotalBalanceIndependentOfOrder | src/repository/AccountRepository.java:89-93 | The total balance does not depend on the map's iteration order. |
| AccountRepository.TotalBalance | src/repository/AccountRepository.java:89-93 | The sum of every stored balance. |
| AccountRepository.Delete | src/repository/AccountRepository.java:75-79 | Removes exactly that number and keeps every other account. |
| AccountRepository.Count | src/repository/AccountRepository.java:85-87 | The count is the number of stored account numbers. |
| AccountRepository.DeleteCount | src/repository/AccountRepository.java:75-87 | Deleting a stored number lowers the count by one. Deleting an absent number changes nothing. |
| AccountService.FreshVariant | src/service/AccountService.java:44-67 | The fixed and recurring deposits the service opens start with no months completed. |
| AccountService.CreateAccount | src/service/AccountService.java:22-67 | Opening fails exactly for a negative opening balance, with each method's own message, and then changes nothing. A success saves an active account numbered "ACC" + the time in milliseconds, with the requested balance and an empty log. The new account is appended to the customer's list even when an earlier one has the same number, so the count grows by one. The ledger stays consistent. |
| AccountService.TransactionIdNotBlank | src/service/AccountService.java:78-87 | The generated transaction id "TXN-" + UUID always passes the Transaction constructor's blank check. |
| AccountService.Deposit | src/service/AccountService.java:69-98 | An unknown number escapes unwrapped. A refused amount is wrapped as a failed deposit. Both leave the ledger unchanged. A success credits the account, appends one log line, and stores one DEPOSIT transaction of that amount. The ledger stays consistent. |
| AccountService.Withdraw | src/service/AccountService.java:101-130 | Succeeds exactly when the variant's withdrawal rule accepts the amount. A failure leaves the ledger unchanged and wraps the account's error. A success debits the account, keeps it above its floor, logs one line, and stores one WITHDRAWAL transaction. |
| AccountService.Transfer | src/service/AccountService.java:133-181 | Both numbers are looked up first, source then destination. The transfer succeeds exactly when the source's withdrawal rule accepts the amount, and a failure changes nothing. No account other than the two is touched, and a success stores the two TRANSFER transactions. |
| AccountService.TransferBetweenDistinctAccounts | src/service/AccountService.java:133-181 | Between two distinct accounts the amount moves from one to the other and the sum of the two balances is kept. Each account logs its own line, the source stays above its floor, and exactly two new TRANSFER transactions of the amount appear. |
| AccountService.SelfTransfer | src/service/AccountService.java:133-181 | A transfer from an account to itself leaves its balance unchanged and logs both lines on it. |
| AccountService.TransferConservesTotal | src/service/AccountService.java:133-181 | A successful transfer keeps the bank's total balance, in any iteration order. |
| AccountService.DepositRaisesTotals | src/service/AccountService.java:69-98 | A deposit raises the total balance by the amount. Under a new transaction id it also raises the transaction total by the amount. |
| AccountService.InterestSweep | src/service/AccountService.java:184-190 | The monthly sweep keeps the set of stored account numbers. |
| AccountService.CalculateMonthlyInterest | src/service/AccountService.java:184-190 | The loop over findAll's order applies calculateInterest to every stored account exactly once. |
| AccountService.SweepKeepsFloors | src/service/AccountService.java:184-190 | While every account's rates and contributions are non-negative, the sweep keeps every account above its floor and keeps the store keyed. |
| Amortization.GeometricClosedForm | src/model/loan/PersonalLoan.java:11-15 | (x - 1) * (1 + x + ... + x^(n-1)) == x^n - 1: the identity behind the EMI formula. |
| Amortization.Annuity | src/model/loan/PersonalLoan.java:11-15 | The EMI p * r * x / (x - 1), with x = (1+r)^n, solves e * (x - 1) == p * r * x. Its denominator is never zero for r > 0 and n >= 1. |
| Amortization.AnnuityAsGeometric | src/model/loan/PersonalLoan.java:11-15 | The EMI equals p * (1+r)^n divided by the sum of the first n powers of 1 + r. |
| Amortization.AnnuityClearsLoan | src/model/loan/PersonalLoan.java:11-15 | Paying the EMI every month, after a month's interest each time, leaves exactly nothing owed after n months. |
| Amortization.AnnuityCoversPrincipal | src/model/loan/PersonalLoan.java:11-15 | n instalments repay at least the principal, so the interest charged is never negative. |
| Amortization.SolutionCoversPrincipal | src/model/loan/LoanDetails.java:33-48 | Any instalment solving the EMI equation for n >= 1 months repays at least the principal over the tenure. |
| Amortization.SingleMonthAnnuity | src/model/loan/PersonalLoan.java:11-15 | A one-month loan is repaid in one instalment of principal plus a month's interest. |
| Amortization.ZeroRateClearsLoan | src/model/loan/LoanDetails.java:33-37 | At a zero rate, n equal instalments of p / n clear the loan. |
| Amortization.OwedClosedForm | src/model/loan/PersonalLoan.java:11-15 | After k instalments the balance owed is p(1+r)^k less e times the first k powers of 1 + r. |
| Powers.PowAboveOne | src/model/loan/PersonalLoan.java:13-14 | A base above one raised to a positive power stays above one, so the EMI denominator is positive. |
| Powers.PowIntIsOneOnlyAtZero | src/model/loan/PersonalLoan.java:13-14 | For a base above one, Math.pow(base, n) is 1 exactly when n is 0: the EMI divides by zero exactly at a zero tenure. |
| Loans.AnnualRate | src/model/loan/PersonalLoan.java:6-8 | Every variant's fixed yearly rate lies strictly between 6% and 10%. |
| Loans.AnnualInterestRate | src/model/loan/Loan.java:80-82 | The fixed yearly rate of the loan's variant. |
| Loans.LoanTypeNames | src/model/loan/PersonalLoan.java:17-20 | The five variants report five different type names, each ending in " Loan". |
| Loans.LoanType | src/model/loan/PersonalLoan.java:17-20 | Each variant's type name: Personal, Home, Auto, Education or Business Loan. |
| Loans.VariantEmi | src/model/loan/HomeLoan.java:16-20 | The EMI is finite exactly for a non-zero tenure, and equals the annuity for a positive tenure. A zero tenure gives +Infinity, -Infinity or NaN according to the sign of the principal. |
| Loans.NewLoan | src/model/loan/Loan.java:19-29 | A new loan is PENDING, has no payments, is dated today and owes its principal. Its EMI is finite exactly for a non-zero tenure, and paying it every month clears the loan at the end of the tenure. |
| Loans.EmiCoversPrincipal | src/model/loan/Loan.java:19-29 | For a non-negative principal and a positive tenure, the instalments over the tenure add up to at least the principal. |
| Loans.PersonalLoanOneMonth | src/model/loan/PersonalLoan.java:6-15 | A one-month personal loan of 1200 has an EMI of 1209. |
| Loans.ZeroTenureRefusesPayments | src/service/LoanService.java:140-144 | With a zero tenure and a positive principal the EMI is +Infinity, so every payment is "below the EMI". |
| Loans.AddPayment | src/model/loan/Loan.java:50-57 | Adding a payment appends it and lowers the remaining balance by its amount. |
| Loans.RemainingAfterPayments | src/model/loan/Loan.java:54-57 | Adding payments one by one lowers the remaining balance by their total. |
| Loans.Remaining | src/model/loan/Loan.java:54-57 | The principal less the sum of the recorded payments. |
| Loans.TotalPaidPositive | src/model/loan/Loan.java:54-57 | Positive payments total a non-negative amount, and a positive one when there is at least one. |
| Loans.SetStatus | src/model/loan/Loan.java:38-40 | setStatus(String) succeeds exactly when the upper-cased name is a status name. It sets that status and changes nothing else. |
| Loans.RejectLoan | src/model/loan/Loan.java:59-61 | Rejecting makes the status REJECTED, a terminal status, and changes nothing else. |
| Loans.ActivateLoan | src/model/loan/Loan.java:63-66 | Activating makes the loan ACTIVE, dated today, with its payments and remaining balance kept. |
| Loans.NewPayment | src/model/loan/LoanPayment.java:13-29 | The payment record is built exactly when the id is non-blank, the loan present, the amount positive, and the month and date present. Every refusal is an IllegalArgumentException. |
| Loans.OnTimeCutOff | src/model/loan/LoanPayment.java:46-48 | A payment on the fifth of the month is on time. One on the sixth is late. |
| Loans.IsOnTime | src/model/loan/LoanPayment.java:46-48 | Paid on or before the fifth day of the month. |
| Calendar.CivilFromDaysSamples | src/model/loan/LoanPayment.java:46-48 | Epoch days 4 and 5 are 1970-01-05 and 1970-01-06, the two sides of the on-time cut-off. |
| LoanDetailsRecord.NewLoanDetails | src/model/loan/LoanDetails.java:15-31 | The record is built exactly for a non-blank id, a present customer, a positive principal, a non-negative rate and a positive tenure. Every refusal is an IllegalArgumentException. A built record keeps the id, customer, principal, rate, tenure and start date. |
| LoanDetailsRecord.CalculateEmi | src/model/loan/LoanDetails.java:33-40 | The EMI clears the loan after exactly the tenure, and over the tenure repays at least the principal. At a zero rate it repays exactly the principal. |
| LoanDetailsRecord.TotalPayable | src/model/loan/LoanDetails.java:42-44 | The total payable is at least the principal. |
| LoanDetailsRecord.TotalInterest | src/model/loan/LoanDetails.java:46-48 | The total interest is never negative, and zero at a zero rate. |
| LoanDetailsRecord.AgreesWithVariantFormula | src/model/loan/LoanDetails.java:33-40 | The record's percent-based EMI agrees with the loan variants' fraction-based formula at the same rate. |
| LoanStatuses.ActiveIsNotTerminal | src/model/loan/LoanStatus.java:22-28 | An ACTIVE loan is never terminal. The terminal statuses are exactly PAID_OFF, CLOSED and REJECTED. |
| LoanStatuses.IsActive | src/model/loan/LoanStatus.java:22-24 | Exactly ACTIVE. |
| LoanStatuses.IsTerminal | src/model/loan/LoanStatus.java:26-28 | Exactly PAID_OFF, CLOSED or REJECTED. |
| LoanStatuses.NamesDistinct | src/model/loan/LoanStatus.java:4-10 | The seven status names are pairwise different. |
| LoanStatuses.ValueOf | src/model/loan/Loan.java:38-40 | valueOf returns a status only for its exact name, and fails exactly when no status has that name. |
| LoanStatuses.ValueOfName | src/model/loan/Loan.java:38-40 | valueOf inverts name for every status. |
| LoanStatuses.Parse | src/model/loan/Loan.java:38-40 | A null name fails on toUpperCase. Any other name is upper-cased before the lookup. |
| LoanStatuses.ParseIgnoresCase | src/model/loan/Loan.java:38-40 | Any capitalisation of a status name parses to that status. |
| LoanStatuses.ParseSamples | src/model/loan/Loan.java:38-40 | "active" and "Paid_Off" parse. "paid off", with a space, does not. |
| LoanRepository.Save | src/repository/LoanRepository.java:20-26 | A null loan is refused. Otherwise the loan is stored under its id, every other loan is kept, and the store stays keyed. |
| LoanRepository.Update | src/repository/LoanRepository.java:110-115 | Only a stored id is replaced. Every other loan and the key set are kept. |
| LoanRepository.FindById | src/repository/LoanRepository.java:28-30 | Finds exactly the stored ids, and null otherwise. |
| LoanRepository.FindByCustomer | src/repository/LoanRepository.java:36-40 | Returns exactly the customer's loans. |
| LoanRepository.FindByStatus | src/repository/LoanRepository.java:42-46 | Returns exactly the loans with that status. |
| LoanRepository.FixedStatusViews | src/repository/LoanRepository.java:48-88 | The active, pending, approved and defaulted views are findByStatus at a fixed status and never share a loan. |
| LoanRepository.FindLoansAbove | src/repository/LoanRepository.java:66-70 | Returns exactly the loans whose principal is strictly above the threshold. |
| LoanRepository.FindLoansBelow | src/repository/LoanRepository.java:72-76 | Returns exactly the loans whose principal is strictly below the threshold. |
| LoanRepository.FindWithRemainingBalance | src/repository/LoanRepository.java:78-82 | Returns exactly the loans that still owe a positive amount. |
| LoanRepository.TotalOutstandingProperties | src/repository/LoanRepository.java:90-95 | The outstanding total does not depend on the iteration order. It is non-negative while every ACTIVE loan owes a non-negative amount. |
| LoanRepository.TotalOutstandingIgnoresInactive | src/repository/LoanRepository.java:90-95 | Storing a loan that is not ACTIVE, over one that was not ACTIVE either, leaves the outstanding total unchanged. |
| LoanRepository.TotalOutstanding | src/repository/LoanRepository.java:90-95 | The remaining balances of the ACTIVE loans, summed. |
| LoanRepository.AverageLoanAmount | src/repository/LoanRepository.java:97-102 | The average is 0 with no loans, and otherwise the mean principal. |
| LoanRepository.CountByStatus | src/repository/LoanRepository.java:104-108 | The count equals the size of findByStatus. |
| LoanRepository.Delete | src/repository/LoanRepository.java:117-121 | Removes exactly that id and keeps every other loan. |
| LoanService.TerminalIsFinal | src/service/LoanService.java:83-180 | No service call moves a loan out of a terminal status. An ACTIVE loan can only become PAID_OFF. |
| LoanService.CreateLoan | src/service/LoanService.java:22-53 | Creating never fails. The new loan is the variant constructor's loan: PENDING under "LOAN-" + UUID, with the requested kind, customer, principal and tenure, disbursed today and with no payments. Its EMI is finite exactly when the tenure is non-zero, and for a positive tenure paying it every month leaves nothing owed. The book stays healthy. |
| LoanService.ApproveLoan | src/service/LoanService.java:83-96 | Approval succeeds exactly for a PENDING loan, which becomes APPROVED. A missing or non-pending loan gives its own error and changes nothing. |
| LoanService.RejectLoan | src/service/LoanService.java:168-180 | Rejection succeeds exactly for a PENDING loan, which becomes REJECTED. Any other status is refused and nothing changes. |
| LoanService.ActivateLoan | src/service/LoanService.java:98-124 | The account is checked before the loan. Activation succeeds exactly for an APPROVED loan with a positive principal. The loan becomes ACTIVE as of today. The account changes only in its balance, which rises by the principal, and its log, which gains a disbursement line. No other account changes. |
| LoanService.MakePayment | src/service/LoanService.java:126-166 | Errors come in source order: missing loan, not ACTIVE, below EMI. A success needs a positive amount, lowers the remaining balance by it, and appends the payment. The loan is PAID_OFF exactly when nothing remains, and no other loan changes. Each of the three early refusals changes nothing. A later refusal, from the payment record's own checks, can only leave that loan marked PAID_OFF. |
| LoanService.MakePaymentKeepsHealth | src/service/LoanService.java:126-166 | In a healthy book a refused payment changes nothing, and every payment keeps the book healthy. |
| LoanService.RefusedPaymentCanSettleLoan | src/service/LoanService.java:146-162 | Outside the service's invariant a refused payment still marks the loan PAID_OFF, because the status is set before the payment record is validated. |
| LoanService.TotalOutstandingBalance | src/service/LoanService.java:182-187 | In a healthy book the outstanding balance is never negative. |
| LoanService.OutstandingAfterActivation | src/service/LoanService.java:98-124 | Activating a loan raises the outstanding total by exactly its principal. |
| LoanService.CreatedLoanCountsAsDisbursed | src/service/LoanService.java:196-200 | A loan still PENDING already adds its principal to the "disbursed" total. |
| LoanService.TotalDisbursedAmount | src/service/LoanService.java:196-200 | The principals of all stored loans, whatever their status. |
| LoanService.AverageLoanAmount | src/service/LoanService.java:189-194 | The average is 0 with no loans, and otherwise the disbursed total divided by the number of loans. |
| Transactions.ExactlyFiveTypes | src/model/transaction/TransactionType.java:5-9 | There are exactly five transaction types, with distinct names. |
| Transactions.ValueOf | src/model/transaction/TransactionType.java:27-34 | valueOf is an exact, case-sensitive name match, and fails exactly when no type has that name, with "No enum constant model.transaction.TransactionType." + name as the message. |
| Transactions.IsValidType | src/model/transaction/TransactionType.java:27-34 | A null name escapes as an exception. Otherwise the answer is true exactly for a type name. |
| Transactions.IsValidTypeSamples | src/model/transaction/TransactionType.java:27-34 | "DEPOSIT" is valid, "deposit" is not, and null throws. |
| Transactions.NewTransaction | src/model/transaction/Transaction.java:14-30 | The record is built exactly for a non-blank id, an account, a positive amount, a type and a timestamp. Every refusal is an IllegalArgumentException. |
| Transactions.KindTestsExclusive | src/model/transaction/Transaction.java:48-58 | At most one of isDeposit, isWithdrawal and isTransfer holds. None holds exactly for interest credits and fee debits. |
| Transactions.IsDeposit | src/model/transaction/Transaction.java:52-54 | The type is DEPOSIT. |
| Transactions.IsWithdrawal | src/model/transaction/Transaction.java:48-50 | The type is WITHDRAWAL. |
| Transactions.IsTransfer | src/model/transaction/Transaction.java:56-58 | The type is TRANSFER. |
| TransactionRepository.Save | src/repository/TransactionRepository.java:20-26 | A null transaction is refused. Otherwise it is stored under its id, and the store stays keyed with positive amounts. |
| TransactionRepository.Update | src/repository/TransactionRepository.java:106-111 | Only a stored id is replaced. Every other entry is kept. |
| TransactionRepository.FindById | src/repository/TransactionRepository.java:28-30 | Finds exactly the stored ids. |
| TransactionRepository.FindByAccount | src/repository/TransactionRepository.java:36-40 | Returns exactly the transactions of that account. |
| TransactionRepository.FindByType | src/repository/TransactionRepository.java:42-46 | Returns exactly the transactions of that type. |
| TransactionRepository.FindDeposits | src/repository/TransactionRepository.java:48-52 | Returns exactly the deposits. |
| TransactionRepository.FindWithdrawals | src/repository/TransactionRepository.java:54-58 | Returns exactly the withdrawals. |
| TransactionRepository.FindTransfers | src/repository/TransactionRepository.java:60-64 | Returns exactly the transfers. |
| TransactionRepository.ShortcutsAreFindByType | src/repository/TransactionRepository.java:42-64 | The three shortcuts equal findByType at their type, and each transaction is found under exactly its own type. |
| TransactionRepository.FindAbove | src/repository/TransactionRepository.java:66-70 | Returns exactly the amounts strictly above the threshold. |
| TransactionRepository.FindBelow | src/repository/TransactionRepository.java:72-76 | Returns exactly the amounts strictly below the threshold. |
| TransactionRepository.AboveBelowPartition | src/repository/TransactionRepository.java:66-76 | A transaction exactly at the threshold is found by neither query. Every other one is found by exactly one. |
| TransactionRepository.FindByDateRange | src/repository/TransactionRepository.java:78-85 | Both ends of the range are inclusive, on the timestamp's date. A reversed range is empty. |
| TransactionRepository.FindByDate | src/repository/TransactionRepository.java:87-91 | Returns exactly the transactions dated that day. |
| TransactionRepository.DateQueriesAgree | src/repository/TransactionRepository.java:78-91 | One day's query equals the range from that day to itself, and a range splits disjointly at any day. |
| TransactionRepository.TotalAmount | src/repository/TransactionRepository.java:93-97 | With positive amounts the total is non-negative. |
| TransactionRepository.TotalAmountAfterSave | src/repository/TransactionRepository.java:20-26 | Saving a new transaction raises the total by its amount, in any iteration order. |
| TransactionRepository.AverageAmount | src/repository/TransactionRepository.java:99-104 | The average is 0 with no transactions, and otherwise the mean amount. |
| TransactionRepository.Delete | src/repository/TransactionRepository.java:113-117 | Removes exactly that id and keeps every other entry. |
| TransactionService.RecordTransaction | src/service/TransactionService.java:19-40 | A null account, then a non-positive amount, are refused as invalid transactions. A null type escapes from the record's constructor. Each refusal changes nothing. A success stores exactly one transaction under "TXN-" + UUID, stamped now. |
| TransactionService.TotalDeposits | src/service/TransactionService.java:113-117 | The sum of the DEPOSIT amounts, in the store's iteration order. It is never negative when every stored amount is positive. |
| TransactionService.TotalWithdrawals | src/service/TransactionService.java:119-123 | The sum of the WITHDRAWAL amounts, in the store's iteration order. It is never negative when every stored amount is positive. |
| TransactionService.NetCashFlow | src/service/TransactionService.java:125-129 | Deposits less withdrawals. Transfers, interest and fees do not enter it. With every stored amount positive, it never exceeds the deposit total. |
| TransactionService.NetCashFlowWithoutWithdrawals | src/service/TransactionService.java:113-129 | With no withdrawals stored, the net cash flow is the deposit total and never negative. |
| TransactionService.NetCashFlowAfterRecord | src/service/TransactionService.java:125-129 | Recording a deposit raises the net flow by its amount, a withdrawal lowers it, and any other type leaves it unchanged. |
| TransactionService.KindCounts | src/service/TransactionService.java:74-92 | The per-type counts over the full order are the sizes of the filtered views. |
| TransactionService.GetStatistics | src/service/TransactionService.java:74-92 | The counts are the view sizes and together stay within the total. The total amount is the sum of the stored amounts, so it is never negative when they are all positive. The average is that sum's mean, and zero for an empty store. |
| Users.RoleNamesDistinct | src/model/user/User.java:36 | getRole tells the four user kinds apart. |
| Users.HashPassword | src/model/user/User.java:22-24 | Hashing fails exactly on a null password. |
| Users.NewUser | src/model/user/User.java:14-20 | The constructor fails exactly on a null password. It stores the password's hash, today's date, and the given id, name, email and role. |
| Users.NewCustomer | src/model/user/Customer.java:18-23 | A new customer has no accounts and keeps the phone number and address. |
| Users.VerifyPassword | src/model/user/User.java:26-28 | A null input throws. Otherwise the check succeeds exactly when the input's hash equals the stored one. |
| Users.VerifyPasswordIffSameHash | src/model/user/User.java:22-28 | A user accepts its own password, and accepts any other password exactly when its String.hashCode collides. |
| Users.CollidingPasswordAccepted | src/model/user/User.java:22-28 | "Aa" and "BB" share a hash, so a user with password "Aa" is also let in with "BB". |
| Users.ToString | src/model/user/User.java:39-41 | toString is the id, " - ", the name, " (", the role name and ")", each at its own position. |
| Users.ToStringDeterminesRole | src/model/user/User.java:39-41 | Two users with the same id and name print alike exactly when their roles have the same name. |
| Users.AddAccount | src/model/user/Customer.java:25-29 | The number is added only when absent. The account set gains exactly that number, and the count grows by one or stays the same. The list stays free of duplicates. |
| Users.AddFreshAccount | src/model/user/Customer.java:25-29 | Adding a just-built account always appends it: the old entries stay in order, the number is added at the end, and the count grows by one. |
| Users.SameNumberListedTwice | src/service/AccountService.java:22-31 | Two accounts opened under one number are both listed. AddAccount with a number already listed leaves the list as it was. |
| Users.AccountCount | src/model/user/Customer.java:35-37 | The size of a customer's account list, and zero for the other roles. |
| Users.RoleName | src/model/user/Customer.java:52-55 | The role name of each subclass: Customer, Teller, Bank Manager or Administrator. |
| Users.CustomerEquals | src/model/user/Customer.java:57-62 | Another Customer with the same user id. |
| Users.CustomerHash | src/model/user/Customer.java:65-67 | A customer's hash is a 32-bit int. |
| Users.CustomerEqualityLaws | src/model/user/Customer.java:58-67 | Customer equality is an equivalence on user ids, false against null, and ignores every other field. Equal customers hash alike. |
| UserRepository.Save | src/repository/UserRepository.java:17-23 | A null user is refused. Otherwise the user is stored under its id and the store stays keyed. |
| UserRepository.Update | src/repository/UserRepository.java:52-57 | Only a stored id is replaced. Every other user is kept. |
| UserRepository.FindById | src/repository/UserRepository.java:25-27 | Finds exactly the stored ids. |
| UserRepository.FindByName | src/repository/UserRepository.java:33-37 | Returns exactly the users whose name equals the argument ignoring case. A null name matches nobody. |
| UserRepository.FindByEmail | src/repository/UserRepository.java:39-43 | Users without an email are skipped. Otherwise the match ignores case. |
| UserRepository.FindByNameIgnoresCase | src/repository/UserRepository.java:33-37 | A name differing only in letter case finds the same users. |
| UserRepository.FindAllCustomers | src/repository/UserRepository.java:45-50 | Returns exactly the customers. |
| UserRepository.Delete | src/repository/UserRepository.java:59-63 | Removes exactly that id and keeps every other user. |
| UserService.CreateCustomer | src/service/UserService.java:17-31 | Name, then email, then password must be non-blank, each with its own error, and a refusal changes nothing. A success stores a customer under "CUST-" + UUID with the given name, email, phone and address, created today, with no accounts, and whose own password verifies. |
| UserService.CreateStaff | src/service/UserService.java:33-73 | The staff creators fail exactly on a null password. Otherwise they store the user under the prefixed id, and its password verifies. |
| UserService.CreateTeller | src/service/UserService.java:33-46 | The name, then the branch code, must be non-blank, and a null password throws. A refusal changes nothing. A success stores the new Teller under "TELLER-" + UUID with the given name and email, created today, and the password it was given verifies. |
| UserService.CreateBankManager | src/service/UserService.java:48-61 | The name, then the branch, must be non-blank, and a null password throws. A refusal changes nothing. A success stores the new manager under "MGR-" + UUID with the given name and email, created today, and the password it was given verifies. |
| UserService.CreateAdministrator | src/service/UserService.java:63-73 | Only the name is checked for blankness, and a null password throws. A success stores an administrator under "ADMIN-" + UUID. |
| UserService.GetUserRole | src/service/UserService.java:95-107 | An unknown id gives "User not found". Otherwise the text is the role name, ": ", the role again and " \| ", followed by the role's own part. For a customer that part is "Accounts: " and a count that reads back as the number of accounts. Staff get "Branch: " and the branch, and an administrator gets "Full System Access". |
| UserService.GetUserDashboard | src/service/UserService.java:109-168 | An unknown id gives "User not found". Otherwise the dashboard starts with the role's heading, then the id, name and email lines, followed by exactly the role's own lines. |
| UserService.DashboardLines | src/service/UserService.java:109-168 | A customer's lines show the account count, which reads back as the number of accounts, and then the role. Tellers and managers show their branch and then their role. An administrator shows the role and full access. |
| UserService.RoleCountsAddUp | src/service/UserService.java:170-180 | Because the hierarchy is sealed, the four role counts add up to the number of users. |
| UserService.GetUserStatistics | src/service/UserService.java:170-180 | Each role count is the size of its filtered view, and the four add up to the total. |
| UserService.UpdateUserEmailAsWritten | src/service/UserService.java:182-201 | A missing user, then a blank email, are refused and change nothing. A success keeps the set of user ids. In a store where every user sits under its own id, a success replaces only that user, with the new email, the same id and name, today's creation date, the stored hash hashed again as its password, no accounts if it was a customer, and the same role otherwise. |
| UserService.UpdateEmailLocksOutUser | src/service/UserService.java:192-199 | After an email change a customer no longer accepts its own password and has lost its accounts. |
| UserService.HashOfA | src/model/user/User.java:22-24 | "a" hashes to 97, printed "61", and "61" hashes to 1723. |
| UserService.UpdateUserEmail | src/service/UserService.java:182-201 | The corrected update has the same refusals, keeps the set of ids, and keeps the store keyed. |
| UserService.UpdateUserEmailKeepsUser | src/service/UserService.java:182-201 | After the corrected update only the email changes: the password still verifies alike, the accounts are kept, and every other user is untouched. |
| UserService.DeleteUser | src/service/UserService.java:203-206 | Removes exactly that id and keeps every other user. |
| Common.NewAccountDetails | src/model/comman/AccountDetails.java:12-32 | The record is built exactly when the number, IFSC code and branch name are valid strings and the date is present. The first failing check gives its own message. |
| Common.DetailsHash | src/model/comman/AccountDetails.java:64-69 | The hash is a 32-bit int. |
| Common.DetailsEqualityLaws | src/model/comman/AccountDetails.java:54-69 | equals is an equivalence, false against null, and ignores the city and the opening date. Equal details hash alike. |
| Common.DetailsHashIgnoresCity | src/model/comman/AccountDetails.java:54-69 | The city and date leave the hash unchanged. A different branch name makes the details unequal. |
| Common.DetailsEquals | src/model/comman/AccountDetails.java:54-61 | Another AccountDetails with the same account number, IFSC code and branch name. |
| Common.NewKycInfo | src/model/comman/KYCInfo.java:12-28 | The record is built exactly for non-blank type, number and country, present dates, and an issue date not after the expiry date. |
| Common.KycWindows | src/model/comman/KYCInfo.java:30-37 | A document expiring soon is valid. It is expiring soon on exactly the 29 days before its expiry. Validity only ends and never resumes, and a document is invalid on its expiry day. |
| Common.KycIsValid | src/model/comman/KYCInfo.java:30-32 | Today is strictly before the expiry date. |
| Common.KycIsExpiringSoon | src/model/comman/KYCInfo.java:34-37 | Still valid, and the expiry falls before today plus 30 days. |
| Common.SameDayDocument | src/model/comman/KYCInfo.java:25-31 | A document issued and expiring on the same day is accepted, but is never valid from its issue date on. |
| Common.NewTransferRequest | src/model/comman/TransferRequest.java:16-29 | The request is built exactly for a valid id, two accounts, a positive amount and a valid purpose. The refusals carry the source's messages in the source's order. A built request refers to the two accounts by number and keeps the id, amount, purpose, time and status. The status is never checked. |
| Common.TransferValidityVersusWithdraw | src/model/comman/TransferRequest.java:35-37 | isValid, judged against the source account's current state, agrees with a savings withdrawal. A valid request from a current account with a non-negative overdraft always withdraws. A deposit account refuses whatever isValid says. |
| Common.TransferIsValid | src/model/comman/TransferRequest.java:35-37 | The source account's balance at the time of the call covers the amount. |
| Common.ValidityFollowsLiveBalance | src/model/comman/TransferRequest.java:35-37 | isValid reads the live balance. After a withdrawal or a deposit, validity is judged against the new balance. |
| Common.RequestInvalidatedByWithdrawal | src/model/comman/TransferRequest.java:16-37 | A request for 80 from an account holding 100 is valid. After 50 is withdrawn, the same request is not. |
| Common.SelfTransferRequestAccepted | src/model/comman/TransferRequest.java:16-29 | A request from an account to itself is accepted. |
| Common.NewAccountSummary | src/model/comman/AccountSummary.java:14-27 | The summary is built exactly for a valid number and name, a non-negative balance and a non-negative count. The type is never checked. |
| Common.SummaryBoundaries | src/model/comman/AccountSummary.java:14-43 | Zero balance and count are accepted, and exactly 50000 is not "high". An account in overdraft cannot be summarised. Any non-current account at its floor can. |
| Common.IsHighBalance | src/model/comman/AccountSummary.java:41-43 | The balance is strictly above 50000. |
| Validation.ValidWithVisibleChar | src/util/ValidationUtil.java:9-11 | A string holding a non-whitespace character is a valid string. |
| Validation.IsValidString | src/util/ValidationUtil.java:9-11 | Not null and not blank. |
| Validation.IsValidAmount | src/util/ValidationUtil.java:13-15 | Strictly positive. Every exact amount is finite. |
| Validation.IsAmountInRange | src/util/ValidationUtil.java:17-19 | min ≤ amount ≤ max, both ends included. isBetween at lines 91-93 is the same test. |
| Validation.IsValidTransactionAmount | src/util/ValidationUtil.java:49-52 | A valid amount of at most 1000000. |
| Validation.IsValidBalance | src/util/ValidationUtil.java:54-56 | Non-negative. |
| Validation.IsValidInterestRate | src/util/ValidationUtil.java:58-60 | Between 0 and 100, both ends included. |
| Validation.IsValidTenure | src/util/ValidationUtil.java:62-64 | From 1 to 360 months. |
| Validation.IsValidAge | src/util/ValidationUtil.java:66-68 | From 18 to 100. |
| Validation.IsValidAccountNumber | src/util/ValidationUtil.java:28-33 | A valid string of 8 to 20 characters. |
| Validation.IsValidLoanId | src/util/ValidationUtil.java:35-40 | A valid string that starts with "LOAN-" and has more than five characters. |
| Validation.IsValidCustomerId | src/util/ValidationUtil.java:42-47 | A valid string that starts with "CUST-" and has more than five characters. |
| Validation.IsValidBranchCode | src/util/ValidationUtil.java:84-89 | A valid string of 3 to 10 characters. |
| Validation.IsValidPhoneNumber | src/util/ValidationUtil.java:70-75 | A valid string that is 10 to 15 ASCII digits after one optional leading '+'. |
| Validation.IsValidIfscCode | src/util/ValidationUtil.java:77-82 | A valid string of eleven characters: four capitals, '0', then six capitals or digits. |
| Validation.IsValidEmail | src/util/ValidationUtil.java:21-26 | A valid string split at its first '@' and last '.' into a non-empty local part, a non-empty domain and a top-level part of at least two letters, each from its allowed characters. |
| Validation.TransactionAmountRange | src/util/ValidationUtil.java:49-56 | A transaction amount is valid exactly in (0, 1000000], and every such amount is a valid balance. |
| Validation.ValidTenureGivesFiniteEmi | src/util/ValidationUtil.java:62-64 | A tenure that passes the validator gives every loan variant a finite EMI. |
| Validation.DigitCount | src/util/ValidationUtil.java:28-33 | A number below 10^k prints in at most k digits. One at or above it prints in more. |
| Validation.GeneratedAccountNumberValid | src/util/ValidationUtil.java:28-33 | "ACC" + millis passes the account-number check exactly for 5 to 17 digit times. |
| Validation.GeneratedIdsValid | src/util/ValidationUtil.java:35-47 | "LOAN-" / "CUST-" + UUID pass their checks exactly for a non-empty UUID. The prefixes are case-sensitive and not interchangeable. |
| Validation.PhoneMatchesPattern | src/util/ValidationUtil.java:70-75 | The one-pass phone check agrees with the regular expression ^[+]?[0-9]{10,15}$. |
| Validation.IfscMatchesPattern | src/util/ValidationUtil.java:77-82 | A string is a valid IFSC code exactly when it matches ^[A-Z]{4}0[A-Z0-9]{6}$: the blank test never rejects a string of that shape. |
| Validation.EmailMatchesPattern | src/util/ValidationUtil.java:21-26 | The one-pass e-mail check agrees with the regular expression in both directions. |
| Validation.EmailSamples | src/util/ValidationUtil.java:21-26 | "a@b.cd" is valid. Without '@', with an empty domain, or with a one-letter top-level domain it is not. |
| Validation.AreAllFieldsPresent | src/util/ValidationUtil.java:104-111 | True exactly when every field is a valid string, and so for no fields. |
| Formatting.MaskAccountNumber | src/util/FormatUtil.java:35-42 | Null or short gives "****". Otherwise the length and the last four characters are kept and every other character is '*'. |
| Formatting.MaskIdempotent | src/util/FormatUtil.java:35-42 | Masking twice is masking once, and the mask depends only on the length and the last four characters. |
| Formatting.FormatTransactionId | src/util/FormatUtil.java:54-61 | Ids under eight characters are kept. Longer ones become the first four, "..." and the last four. |
| Formatting.TransactionIdShortening | src/util/FormatUtil.java:54-61 | A generated "TXN-" + UUID id, with a 36-character UUID, shortens to "TXN-..." + the UUID's last four characters, and shortening again changes nothing. |
| Formatting.FormatPhoneNumber | src/util/FormatUtil.java:44-52 | Numbers under ten characters are kept. Longer ones gain exactly three characters. |
| Formatting.PhoneFormattingRoundTrip | src/util/FormatUtil.java:44-52 | Removing the inserted '+' and the two spaces gives back the number. |
| Formatting.Truncate | src/util/FormatUtil.java:132-137 | Short values are kept. Longer ones become exactly maxLength characters ending in "...". A maxLength below 3 throws. |
| Formatting.TruncateIdempotent | src/util/FormatUtil.java:132-137 | Truncating a truncated value again changes nothing. |
| Formatting.PadLeft | src/util/FormatUtil.java:112-120 | The value ends the result, preceded by pad characters up to the length. Null counts as "". |
| Formatting.PadRight | src/util/FormatUtil.java:122-130 | The value starts the result, followed by pad characters up to the length. |
| Formatting.PaddingLaws | src/util/FormatUtil.java:112-130 | Padding is idempotent, and left and right padding give the same length. |
| Formatting.FormatSeconds | src/util/FormatUtil.java:70-82 | The three ranges print "h:mm:ss", "m:ss" and "s seconds". A negative input prints only the truncated seconds remainder. |
| Formatting.TwoDigitsRoundTrip | src/util/FormatUtil.java:74-76 | %02d of a number under 100 is two digits that read back as the number. |
| Formatting.FormatSecondsRoundTrip | src/util/FormatUtil.java:70-82 | Reading "h:mm:ss" back gives the number of seconds. |
| Formatting.FormatSecondsHourSample | src/util/FormatUtil.java:70-82 | 3661 prints as "1:01:01". |
| Formatting.FormatSecondsNegativeSample | src/util/FormatUtil.java:70-82 | -3661 prints as "-1 seconds". |
| Formatting.Capitalize | src/util/FormatUtil.java:85-90 | Null or blank is kept. Otherwise the length is kept, the first character is upper-cased and the rest lower-cased. |
| Formatting.CaseLaws | src/util/FormatUtil.java:85-90 | ASCII upper- and lower-casing are idempotent, and each absorbs the other. |
| Formatting.CapitalizeIdempotent | src/util/FormatUtil.java:85-90 | Capitalizing twice is capitalizing once. |
| Formatting.CapitalizeIgnoresCase | src/util/FormatUtil.java:85-90 | The result does not depend on the input's letter case. |
| Formatting.RemoveWhitespace | src/util/FormatUtil.java:139-144 | Null stays null. The result contains no regex space, and every other character occurs in it exactly as often as in the input. |
| Formatting.RemoveSpecialCharacters | src/util/FormatUtil.java:146-151 | Null stays null. The result holds only ASCII letters and digits, and each of them occurs in it exactly as often as in the input. |
| Formatting.KeepIdempotent | src/util/FormatUtil.java:139-151 | Removing characters twice is removing them once, and a string with nothing to remove is kept. |
| Formatting.KeepConcat | src/util/FormatUtil.java:139-151 | Removal keeps order: filtering a concatenation filters each part. |
| Formatting.KeepCounts | src/util/FormatUtil.java:139-151 | Every kept character survives as often as it occurs in the input. |
| Formatting.RemovalKeepsOrder | src/util/FormatUtil.java:139-151 | Both removals keep the surviving characters in order. Removing from s + t is removing from s followed by removing from t, and a string with nothing to remove is returned unchanged. |
| Formatting.GetInitials | src/util/FormatUtil.java:153-165 | Null or blank gives "". Otherwise the result has even length, with a dot at every odd position. |
| Formatting.WordsOfJoined | src/util/FormatUtil.java:158 | Splitting names joined by single spaces on \s+ gives the names back. |
| Formatting.InitialsOfJoinedNames | src/util/FormatUtil.java:153-165 | For names joined by single spaces, the initials are each name's first character followed by a dot. |
| Formatting.FormatTableRow | src/util/FormatUtil.java:190-196 | A row starts with '\|'. When every column fits 15 characters, the row is 1 + 18 per column wide, and the 18 characters from position 1 + 18i are a space, column i padded right to 15, and " \|". So each '\|' falls where createTableSeparator puts a '+'. |
| Formatting.CreateTableSeparator | src/util/FormatUtil.java:199-205 | The separator is 1 + 18 per column wide, with '+' exactly at every 18th position. |
| Formatting.RowFitsSeparator | src/util/FormatUtil.java:190-205 | A row of fitting columns is exactly as wide as the separator, so the borders line up. |
| Formatting.FormatBoolean | src/util/FormatUtil.java:207-209 | "Yes" exactly for true, "No" exactly for false. |
| Formatting.FormatStatus | src/util/FormatUtil.java:177-188 | Only a null status fails. |
| Formatting.FormatStatusIgnoresCase | src/util/FormatUtil.java:177-188 | A known status gets the same label in any case. An unknown status is returned unchanged. |
| Formatting.FormatStatusLabels | src/util/FormatUtil.java:177-188 | A known status, in any case, gets a mark, a space and the status capitalised. The mark is a tick exactly for ACTIVE, APPROVED and COMPLETED, and an hourglass exactly for PENDING. |
| Stores.Where | src/repository/AccountRepository.java:50-54 | A stream filter keeps exactly the entries it accepts, unchanged. |
| Stores.SumWhereIndependentOfOrder | src/repository/AccountRepository.java:89-93 | A filtered stream sum does not depend on the map's iteration order. |
| Stores.SumWherePut | src/repository/TransactionRepository.java:93-97 | Putting a new entry raises a filtered sum by its term. |
| Stores.CountWhereIsSizeOfWhere | src/repository/LoanRepository.java:104-108 | A filtered stream count is the size of the filtered view. |
| Text.WrapInt32 | src/model/comman/AccountDetails.java:64-69 | Java int overflow gives the 32-bit value congruent to the exact result. |
| Text.NatToStringRoundTrip | src/util/FormatUtil.java:70-82 | Reading back the printed digits gives the number. |
| Text.HexDigitsRoundTrip | src/model/user/User.java:22-24 | Reading back the hexadecimal digits gives the number. |
| Text.ToHexStringInjective | src/model/user/User.java:22-24 | Distinct int hashes print as distinct hexadecimal strings, so verifying by hex string is verifying by hash. |

## Left out

- BankingApplication, the console menu: it only reads input and prints.
- DateUtil, TransactionStatus and LoanType are not used by the modelled core. The same goes for the `Transactional` interface defaults.
- Exception texts are kept only where they decide behaviour. Messages that embed a printed double are modelled by their parameters (e.g. `InsufficientFunds(balance)`).
- The floating-point formatters (formatCurrency, formatPercentage, formatNumber, formatDecimal, formatBytes, formatBalanceStatus) and every "details"/"summary"/toString string that prints a double are left out: the model has no IEEE doubles or locale formatting.
- capitalizeWords and toTitleCase are left out: they only reformat a display name (split on spaces, capitalize each word, rejoin) and nothing in the modelled core calls them.
- validateWith is left out: it only applies a caller's predicate.
- The account log stores structured entries: Java's log lines embed printed doubles.
- Letter case is mapped for ASCII letters only. Unicode case mapping is left out.
- Money is exact: double rounding, NaN from arithmetic (other than the zero-tenure EMI) and double overflow are not modelled.
- HashMap iteration order is a parameter (`order`) and is not computed.
- Text outside the Basic Multilingual Plane is left out. Java counts such a character as two `char`s (a surrogate pair), so maskAccountNumber, truncate, formatTransactionId, padLeft, padRight and getInitials would cut or count it differently. A lone surrogate cannot be represented at all.
- Users.NewUser: the user id and name are never null in the model. Java's constructors accept null for both, and UserRepository.findByName (line 35) then throws a NullPointerException on a stored user whose name is null.
- Users.AddAccount: a customer's accounts are held by number, so a number already listed is not added again. Java's `contains` compares Account objects by identity, because Account declares no `equals`, so a second object with the same number would be added. The accounts AccountService builds are always fresh objects, and the service uses Users.AddFreshAccount, which always appends.
- AccountService.CreateAccount: the updated customer is returned rather than written back. Java changes the Customer object that the user store also holds, but the Ledger has no user store, so keeping the returned customer is the caller's part.
- TransactionRepository.FindByAccount: transactions are matched by account number. Java compares Account objects by identity. If a second account under the same number replaces the first in the account store, Java's findByAccount with the new object leaves out the old account's transactions, while the model returns them.
- Common.NewTransferRequest: the request refers to its accounts by number, and isValid is given the source account's current state. Which account object a number stands for follows the account identity choice above.
- Clocks and UUIDs are parameters. System.out output is left out.
- Loan variant detail fields (vehicle, property, business, course) only feed printed strings and are left out.
- Loan.setStatus(LoanStatus), setDisbursementDate and the getters are record updates and field reads, with no rows of their own.
- Users.HashPassword: its contract does not restate String.hashCode. The hash is defined concretely in Text.StringHash, and the properties are stated through VerifyPassword.
- Formatting.FormatStatus: the contract states only the null case. The seven labels are stated by FormatStatusLabels, and their case-insensitivity by FormatStatusIgnoresCase.
- Formatting.GetInitials: splitting is proved to invert joining only for names joined by single spaces. Inputs with runs of spaces are computed but not characterised.
- LoanService.TotalOutstandingBalance: non-negativity is stated only for a healthy book, the service's own invariant.
- The services' one-line delegations to repository queries are covered by the queries they call. These are getLoan, getAllLoans, getLoansBy*, getActive/Pending/ApprovedLoans, getTransaction*, getAllDeposits/Withdrawals, getHighValueTransactions, getUserById, getAllUsers, getUsersBy*, getAllCustomers, getActiveAccounts and updateAccount.
- The repositories' findAll, exists, count and deleteAll are plain map reads or a reset. Only AccountRepository's count is modelled.
- getAccounts, getTransactions and getPayments return copies in Java. The model's values are immutable, so a caller can never alias them.
- AccountService.getAccountDetails and the getAccountDetails/get*LoanDetails strings print doubles and are left out.

## Findings

| source | as written | input that shows it | evidently intended | confidence | as-written member | corrected member |
|---|---|---|---|---|---|---|
| src/service/UserService.java:192-197 | updateUserEmail rebuilds the user through its public constructor, passing the stored hash as the password. The constructor hashes it again, resets the creation date, and gives a Customer an empty account list. | Customer "CUST-1" with password "a" (stored as "61") and one account, then updateUserEmail("CUST-1", "b@x"): verifyPassword("a") becomes false and getAccountCount() becomes 0. | Only the email changes; the password still verifies and the accounts are kept. | not executed | UserService.UpdateEmailLocksOutUser | UserService.UpdateUserEmailKeepsUser |

/** AccountService: opening accounts, deposits, withdrawals, transfers and the monthly
    interest sweep over the account store and the transaction store. Accounts are mutated
    in place in the store, so the update calls that follow re-store the same object under
    the same number and are folded into the in-place change. */
module AccountService {
  import opened Failures
  import opened Calendar
  import opened Text
  import opened Stores
  import opened Accounts
  import opened Transactions
  import opened Users
  import AR = AccountRepository
  import TR = TransactionRepository

  datatype Ledger = Ledger(accounts: AR.AccountStore, transactions: TR.TransactionStore)

  /** What the service keeps true of its stores. */
  ghost predicate Consistent(l: Ledger) {
    AR.Keyed(l.accounts) && TR.Keyed(l.transactions) && TR.PositiveAmounts(l.transactions)
  }

  /** The four create*Account methods, by the arguments they take. */
  datatype AccountKind =
    | SavingsKind(interestRate: real)
    | CurrentKind(overdraftLimit: real)
    | FixedDepositKind(interestRate: real, tenureMonths: int)
    | RecurringDepositKind(monthlyDeposit: real, interestRate: real, tenureMonths: int)

  /** The variant each constructor builds; deposits start with no months completed. */
  function FreshVariant(k: AccountKind): (v: Variant)
    ensures (v.FixedDeposit? || v.RecurringDeposit?) ==> v.monthsCompleted == 0
  {
    match k
    case SavingsKind(rate) => Savings(rate)
    case CurrentKind(limit) => Current(limit)
    case FixedDepositKind(rate, tenure) => FixedDeposit(rate, tenure, 0)
    case RecurringDepositKind(monthly, rate, tenure) => RecurringDeposit(monthly, rate, tenure, 0)
  }

  /** Each create method words its refusal after its own argument name. */
  function NegativeOpeningMessage(k: AccountKind): string {
    match k
    case SavingsKind(_) => "Balance cannot be negative"
    case CurrentKind(_) => "Balance cannot be negative"
    case FixedDepositKind(_, _) => "Amount cannot be negative"
    case RecurringDepositKind(_, _, _) => "Initial balance cannot be negative"
  }

  datatype Opened = Opened(customer: User, account: Account)

  /** create*Account: a negative opening balance is refused; zero is accepted. The number
      is "ACC" + the current time in milliseconds; the new account is appended to the
      customer's list and saved. The customer is returned updated; storing it is the
      caller's part, as Java changes the very Customer object the caller passed. */
  function CreateAccount(l: Ledger, customer: User, kind: AccountKind, opening: real, millis: int, today: Date)
    : (r: Step<Ledger, Opened>)
    requires customer.role.Customer?
    ensures r.result.Ok? <==> opening >= 0.0
    ensures r.result.Err? ==> r.result.error == InvalidAccount(NegativeOpeningMessage(kind)) && r.state == l
    ensures r.result.Ok? ==>
      var a := r.result.value.account;
      && a.accountNumber == "ACC" + IntToString(millis) && a.balance == opening && a.isActive && a.log == []
      && a.variant == FreshVariant(kind) && a.customerId == customer.userId
      && r.result.value.customer == AddFreshAccount(customer, a.accountNumber)
      && AccountCount(r.result.value.customer) == AccountCount(customer) + 1
      && r.state == l.(accounts := l.accounts[a.accountNumber := a])
    ensures Consistent(l) ==> Consistent(r.state)
  {
    if opening < 0.0 then Step(l, Err(InvalidAccount(NegativeOpeningMessage(kind))))
    else
      var a := Open("ACC" + IntToString(millis), customer.userId, opening, today, FreshVariant(kind));
      Step(l.(accounts := AR.Save(l.accounts, Some(a)).value), Ok(Opened(AddFreshAccount(customer, a.accountNumber), a)))
  }

  /** "TXN-" + a UUID is never blank, so the Transaction constructor accepts it. */
  lemma TransactionIdNotBlank(uuid: string)
    ensures !IsBlank("TXN-" + uuid)
  {
    assert ("TXN-" + uuid)[0] == 'T';
  }

  /** deposit: an unknown number escapes unwrapped; a refused amount is wrapped as
      "Deposit failed"; otherwise the account is credited, logs one line, and one DEPOSIT
      transaction is saved. */
  function Deposit(l: Ledger, accountNumber: string, amount: real, uuid: string, now: DateTime): (r: Step<Ledger, ()>)
    ensures accountNumber !in l.accounts ==> r.result == Err(AccountNotFound(accountNumber))
    ensures accountNumber in l.accounts && amount <= 0.0
            ==> r.result == Err(OperationFailed(DepositOperation, IllegalArgument("Deposit amount must be positive")))
    ensures r.result.Ok? <==> accountNumber in l.accounts && amount > 0.0
    ensures r.result.Err? ==> r.state == l
    ensures r.result.Ok? ==>
      var a := l.accounts[accountNumber];
      && r.state.accounts == l.accounts[accountNumber := a.(balance := a.balance + amount, log := a.log + [DepositLine(amount, now)])]
      && r.state.transactions == l.transactions["TXN-" + uuid :=
           Transaction("TXN-" + uuid, a.accountNumber, amount, DEPOSIT, now, Some(DepositOf(amount)))]
    ensures Consistent(l) ==> Consistent(r.state)
  {
    match AR.FindByAccountNumber(l.accounts, accountNumber)
    case Err(e) => Step(l, Err(e))
    case Ok(a) =>
      match Accounts.Deposit(a, amount)
      case Err(e) => Step(l, Err(OperationFailed(DepositOperation, e)))
      case Ok(credited) =>
        TransactionIdNotBlank(uuid);
        var t := NewTransaction(Some("TXN-" + uuid), Some(a.accountNumber), amount, Some(DEPOSIT), Some(now),
                                Some(DepositOf(amount))).value;
        var logged := Record(credited, DepositLine(amount, now));
        Step(Ledger(l.accounts[accountNumber := logged], TR.Save(l.transactions, Some(t)).value), Ok(()))
  }

  /** withdraw: as deposit, with the variant's withdrawal rule and a WITHDRAWAL transaction. */
  function Withdraw(l: Ledger, accountNumber: string, amount: real, uuid: string, now: DateTime): (r: Step<Ledger, ()>)
    ensures accountNumber !in l.accounts ==> r.result == Err(AccountNotFound(accountNumber))
    ensures accountNumber in l.accounts && Accounts.Withdraw(l.accounts[accountNumber], amount).Err?
            ==> r.result == Err(OperationFailed(WithdrawalOperation, Accounts.Withdraw(l.accounts[accountNumber], amount).error))
    ensures r.result.Ok? <==> accountNumber in l.accounts && Ceiling(l.accounts[accountNumber]).Some?
                              && 0.0 < amount <= Ceiling(l.accounts[accountNumber]).value
    ensures r.result.Err? ==> r.state == l
    ensures r.result.Ok? ==>
      var a := l.accounts[accountNumber];
      && r.state.accounts == l.accounts[accountNumber := a.(balance := a.balance - amount, log := a.log + [WithdrawalLine(amount, now)])]
      && AboveFloor(r.state.accounts[accountNumber])
      && r.state.transactions == l.transactions["TXN-" + uuid :=
           Transaction("TXN-" + uuid, a.accountNumber, amount, WITHDRAWAL, now, Some(WithdrawalOf(amount)))]
    ensures Consistent(l) ==> Consistent(r.state)
  {
    match AR.FindByAccountNumber(l.accounts, accountNumber)
    case Err(e) => Step(l, Err(e))
    case Ok(a) =>
      match Accounts.Withdraw(a, amount)
      case Err(e) => Step(l, Err(OperationFailed(WithdrawalOperation, e)))
      case Ok(debited) =>
        TransactionIdNotBlank(uuid);
        var t := NewTransaction(Some("TXN-" + uuid), Some(a.accountNumber), amount, Some(WITHDRAWAL), Some(now),
                                Some(WithdrawalOf(amount))).value;
        var logged := Record(debited, WithdrawalLine(amount, now));
        Step(Ledger(l.accounts[accountNumber := logged], TR.Save(l.transactions, Some(t)).value), Ok(()))
  }

  /** transfer: both numbers are looked up first (source, then destination), then the
      source is debited and the destination credited in place, each logs one line, and two
      TRANSFER transactions are saved. When both numbers name the same account the two
      steps act on the one account. */
  function Transfer(l: Ledger, from: string, to: string, amount: real, uuid1: string, uuid2: string, now: DateTime)
    : (r: Step<Ledger, ()>)
    ensures from !in l.accounts ==> r.result == Err(AccountNotFound(from))
    ensures from in l.accounts && to !in l.accounts ==> r.result == Err(AccountNotFound(to))
    ensures from in l.accounts && to in l.accounts && Accounts.Withdraw(l.accounts[from], amount).Err?
            ==> r.result == Err(OperationFailed(TransferOperation, Accounts.Withdraw(l.accounts[from], amount).error))
    ensures r.result.Ok? <==> from in l.accounts && to in l.accounts && Accounts.Withdraw(l.accounts[from], amount).Ok?
    ensures r.result.Err? ==> r.state == l
    ensures r.state.accounts.Keys == l.accounts.Keys
    ensures forall k :: k in l.accounts && k != from && k != to ==> r.state.accounts[k] == l.accounts[k]
    ensures r.result.Ok? ==> r.state.transactions == l.transactions
      ["TXN-" + uuid1 := Transaction("TXN-" + uuid1, l.accounts[from].accountNumber, amount, TRANSFER, now,
                                     Some(Plain("Transfer to account " + to)))]
      ["TXN-" + uuid2 := Transaction("TXN-" + uuid2, l.accounts[to].accountNumber, amount, TRANSFER, now,
                                     Some(Plain("Transfer from account " + from)))]
    ensures Consistent(l) ==> Consistent(r.state)
  {
    match AR.FindByAccountNumber(l.accounts, from)
    case Err(e) => Step(l, Err(e))
    case Ok(source) =>
      match AR.FindByAccountNumber(l.accounts, to)
      case Err(e) => Step(l, Err(e))
      case Ok(_) =>
        match Accounts.Withdraw(source, amount)
        case Err(e) => Step(l, Err(OperationFailed(TransferOperation, e)))
        case Ok(debited) =>
          var s1 := l.accounts[from := debited];
          var s2 := s1[to := Accounts.Deposit(s1[to], amount).value];
          var s3 := s2[from := Record(s2[from], TransferOutLine(amount, to))];
          var s4 := s3[to := Record(s3[to], TransferInLine(amount, from))];
          TransactionIdNotBlank(uuid1);
          TransactionIdNotBlank(uuid2);
          var t1 := NewTransaction(Some("TXN-" + uuid1), Some(source.accountNumber), amount, Some(TRANSFER), Some(now),
                                   Some(Plain("Transfer to account " + to))).value;
          var t2 := NewTransaction(Some("TXN-" + uuid2), Some(s1[to].accountNumber), amount, Some(TRANSFER), Some(now),
                                   Some(Plain("Transfer from account " + from))).value;
          var ts := TR.Save(TR.Save(l.transactions, Some(t1)).value, Some(t2)).value;
          Step(Ledger(s4, ts), Ok(()))
  }

  /** A transfer between two distinct accounts moves the amount from one to the other,
      keeps the sum of the two balances, logs one line on each, and records two TRANSFER
      transactions of that amount. */
  lemma TransferBetweenDistinctAccounts(l: Ledger, from: string, to: string, amount: real,
                                        uuid1: string, uuid2: string, now: DateTime)
    requires from != to && uuid1 != uuid2
    requires Transfer(l, from, to, amount, uuid1, uuid2, now).result.Ok?
    ensures var s := Transfer(l, from, to, amount, uuid1, uuid2, now).state;
      && s.accounts[from].balance == l.accounts[from].balance - amount
      && s.accounts[to].balance == l.accounts[to].balance + amount
      && s.accounts[from].balance + s.accounts[to].balance == l.accounts[from].balance + l.accounts[to].balance
      && s.accounts[from].log == l.accounts[from].log + [TransferOutLine(amount, to)]
      && s.accounts[to].log == l.accounts[to].log + [TransferInLine(amount, from)]
      && AboveFloor(s.accounts[from])
      && s.transactions.Keys == l.transactions.Keys + {"TXN-" + uuid1, "TXN-" + uuid2}
      && s.transactions["TXN-" + uuid1].kind == TRANSFER && s.transactions["TXN-" + uuid1].amount == amount
      && s.transactions["TXN-" + uuid2].kind == TRANSFER && s.transactions["TXN-" + uuid2].amount == amount
  {
    DistinctTransferAccounts(l, from, to, amount, uuid1, uuid2, now);
    DistinctTransferRecords(l, from, to, amount, uuid1, uuid2, now);
  }

  lemma DistinctTransferAccounts(l: Ledger, from: string, to: string, amount: real,
                                 uuid1: string, uuid2: string, now: DateTime)
    requires from != to
    requires Transfer(l, from, to, amount, uuid1, uuid2, now).result.Ok?
    ensures var s := Transfer(l, from, to, amount, uuid1, uuid2, now).state;
      && s.accounts[from].balance == l.accounts[from].balance - amount
      && s.accounts[to].balance == l.accounts[to].balance + amount
      && s.accounts[from].log == l.accounts[from].log + [TransferOutLine(amount, to)]
      && s.accounts[to].log == l.accounts[to].log + [TransferInLine(amount, from)]
      && AboveFloor(s.accounts[from])
  {
  }

  lemma DistinctTransferRecords(l: Ledger, from: string, to: string, amount: real,
                                uuid1: string, uuid2: string, now: DateTime)
    requires uuid1 != uuid2
    requires Transfer(l, from, to, amount, uuid1, uuid2, now).result.Ok?
    ensures var s := Transfer(l, from, to, amount, uuid1, uuid2, now).state;
      && s.transactions.Keys == l.transactions.Keys + {"TXN-" + uuid1, "TXN-" + uuid2}
      && s.transactions["TXN-" + uuid1].kind == TRANSFER && s.transactions["TXN-" + uuid1].amount == amount
      && s.transactions["TXN-" + uuid2].kind == TRANSFER && s.transactions["TXN-" + uuid2].amount == amount
  {
    TransactionIdsDistinct(uuid1, uuid2);
    PutTwice(l.transactions,
             "TXN-" + uuid1, Transaction("TXN-" + uuid1, l.accounts[from].accountNumber, amount, TRANSFER, now,
                                         Some(Plain("Transfer to account " + to))),
             "TXN-" + uuid2, Transaction("TXN-" + uuid2, l.accounts[to].accountNumber, amount, TRANSFER, now,
                                         Some(Plain("Transfer from account " + from))));
  }

  /** Two puts under distinct keys add both keys and keep both values. */
  lemma PutTwice<V>(m: map<Key, V>, k1: Key, v1: V, k2: Key, v2: V)
    requires k1 != k2
    ensures m[k1 := v1][k2 := v2].Keys == m.Keys + {k1, k2}
    ensures m[k1 := v1][k2 := v2][k1] == v1 && m[k1 := v1][k2 := v2][k2] == v2
  {
  }

  lemma TransactionIdsDistinct(uuid1: string, uuid2: string)
    requires uuid1 != uuid2
    ensures "TXN-" + uuid1 != "TXN-" + uuid2
  {
    assert ("TXN-" + uuid1)[4..] == uuid1 && ("TXN-" + uuid2)[4..] == uuid2;
  }

  /** A transfer from an account to itself leaves its balance as it was and logs both lines. */
  lemma SelfTransfer(l: Ledger, number: string, amount: real, uuid1: string, uuid2: string, now: DateTime)
    requires Transfer(l, number, number, amount, uuid1, uuid2, now).result.Ok?
    ensures var s := Transfer(l, number, number, amount, uuid1, uuid2, now).state;
      && s.accounts[number].balance == l.accounts[number].balance
      && s.accounts[number].log == l.accounts[number].log + [TransferOutLine(amount, number), TransferInLine(amount, number)]
  {
  }

  /** A successful transfer keeps the bank's total balance, in any iteration order. */
  lemma TransferConservesTotal(l: Ledger, from: string, to: string, amount: real,
                               uuid1: string, uuid2: string, now: DateTime, order: seq<Key>)
    requires Enumerates(order, l.accounts)
    requires Transfer(l, from, to, amount, uuid1, uuid2, now).result.Ok?
    ensures var s := Transfer(l, from, to, amount, uuid1, uuid2, now).state;
      Enumerates(order, s.accounts) && AR.TotalBalance(s.accounts, order) == AR.TotalBalance(l.accounts, order)
  {
    var m := l.accounts;
    var s := Transfer(l, from, to, amount, uuid1, uuid2, now).state.accounts;
    var debited := Accounts.Withdraw(m[from], amount).value;
    var s1 := m[from := debited];
    var s2 := s1[to := Accounts.Deposit(s1[to], amount).value];
    var s3 := s2[from := Record(s2[from], TransferOutLine(amount, to))];
    assert s == s3[to := Record(s3[to], TransferInLine(amount, from))];
    TotalAfterPut(m, order, from, debited);
    TotalAfterPut(s1, order, to, s2[to]);
    TotalAfterPut(s2, order, from, s3[from]);
    TotalAfterPut(s3, order, to, s[to]);
  }

  /** Replacing one stored account moves the total balance by the change in its balance. */
  lemma TotalAfterPut(m: AR.AccountStore, order: seq<Key>, k: Key, a: Account)
    requires Enumerates(order, m) && k in m
    ensures Enumerates(order, m[k := a])
    ensures AR.TotalBalance(m[k := a], order) == AR.TotalBalance(m, order) - m[k].balance + a.balance
  {
    assert m[k := a].Keys == m.Keys;
    SumWherePut(m, order, order, k, a, Always, AR.Balance);
  }

  /** A deposit raises the bank's total balance by the amount, and adds the amount to the
      transaction total when the transaction id is new. */
  lemma DepositRaisesTotals(l: Ledger, accountNumber: string, amount: real, uuid: string, now: DateTime,
                            order: seq<Key>, torder: seq<Key>, torder': seq<Key>)
    requires Enumerates(order, l.accounts) && Enumerates(torder, l.transactions)
    requires Deposit(l, accountNumber, amount, uuid, now).result.Ok?
    requires "TXN-" + uuid !in l.transactions
    requires Enumerates(torder', Deposit(l, accountNumber, amount, uuid, now).state.transactions)
    ensures var s := Deposit(l, accountNumber, amount, uuid, now).state;
      && Enumerates(order, s.accounts)
      && AR.TotalBalance(s.accounts, order) == AR.TotalBalance(l.accounts, order) + amount
      && TR.TotalAmount(s.transactions, torder') == TR.TotalAmount(l.transactions, torder) + amount
  {
    var s := Deposit(l, accountNumber, amount, uuid, now).state;
    SumWherePut(l.accounts, order, order, accountNumber, s.accounts[accountNumber], Always, AR.Balance);
    TR.TotalAmountAfterSave(l.transactions, torder, s.transactions["TXN-" + uuid], torder');
  }

  /** calculateMonthlyInterest as a whole: every stored account, once. */
  function InterestSweep(m: AR.AccountStore): (r: AR.AccountStore)
    ensures r.Keys == m.Keys
  {
    map k | k in m :: CalculateInterest(m[k])
  }

  /** calculateMonthlyInterest: applies calculateInterest to every account of findAll, in
      its iteration order, updating each in place. */
  method CalculateMonthlyInterest(m: AR.AccountStore, order: seq<Key>) returns (r: AR.AccountStore)
    requires Enumerates(order, m)
    ensures r == InterestSweep(m)
    ensures forall k :: k in m ==> r[k] == CalculateInterest(m[k])
  {
    r := m;
    var i := 0;
    while i < |order|
      invariant 0 <= i <= |order|
      invariant r.Keys == m.Keys
      invariant forall j :: 0 <= j < i ==> r[order[j]] == CalculateInterest(m[order[j]])
      invariant forall j :: i <= j < |order| ==> r[order[j]] == m[order[j]]
    {
      var k := order[i];
      r := r[k := CalculateInterest(r[k])];
      i := i + 1;
    }
    assert forall k :: k in m ==> r[k] == CalculateInterest(m[k]) by {
      forall k | k in m
        ensures r[k] == CalculateInterest(m[k])
      {
        var j :| 0 <= j < |order| && order[j] == k;
      }
    }
  }

  /** The sweep keeps every account at or above its floor, keeps the store keyed, and
      leaves the transaction store alone. */
  lemma SweepKeepsFloors(m: AR.AccountStore)
    requires forall k :: k in m ==> AboveFloor(m[k]) && NonNegativeTerms(m[k])
    ensures forall k :: k in InterestSweep(m) ==> AboveFloor(InterestSweep(m)[k]) && NonNegativeTerms(InterestSweep(m)[k])
    ensures AR.Keyed(m) ==> AR.Keyed(InterestSweep(m))
  {
    forall k | k in m
      ensures AboveFloor(InterestSweep(m)[k]) && NonNegativeTerms(InterestSweep(m)[k])
    {
      FloorPreserved(m[k], 0.0);
    }
  }
}

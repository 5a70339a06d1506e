/** LoanService: the loan life cycle PENDING -> APPROVED -> ACTIVE -> PAID_OFF (or
    PENDING -> REJECTED) over the loan and account stores. Loans and accounts are
    mutated in place in the stores, so the repositories' update calls re-store the same
    object under the same key and are folded into the in-place change. */
module LoanService {
  import opened Failures
  import opened Calendar
  import opened Text
  import opened Stores
  import opened Accounts
  import opened LoanStatuses
  import opened Loans
  import Amortization
  import LR = LoanRepository
  import AR = AccountRepository

  datatype LoanBook = LoanBook(loans: LR.LoanStore, accounts: AR.AccountStore)

  /** What every loan the service has handled satisfies. */
  ghost predicate LoanHealthy(l: Loan) {
    && (forall i :: 0 <= i < |l.payments| ==> l.payments[i].amount > 0.0)
    && (l.status in {PENDING, APPROVED, REJECTED} ==> l.payments == [])
    && (l.status == ACTIVE ==> Remaining(l) > 0.0)
  }

  ghost predicate Healthy(b: LoanBook) {
    LR.Keyed(b.loans) && AR.Keyed(b.accounts) && forall k :: k in b.loans ==> LoanHealthy(b.loans[k])
  }

  /** The status changes the service performs. */
  predicate Transition(from: LoanStatus, to: LoanStatus) {
    || (from == PENDING && to == APPROVED)
    || (from == PENDING && to == REJECTED)
    || (from == APPROVED && to == ACTIVE)
    || (from == ACTIVE && to == PAID_OFF)
  }

  /** The stored loans after a call: the same ids, each keeping its status or taking one
      allowed step, and nothing but status, disbursement date and payments changed. */
  ghost predicate Moves(before: LR.LoanStore, after: LR.LoanStore) {
    && after.Keys == before.Keys
    && forall k :: k in before ==>
         && (after[k].status == before[k].status || Transition(before[k].status, after[k].status))
         && after[k] == before[k].(status := after[k].status, disbursementDate := after[k].disbursementDate,
                                   payments := after[k].payments)
  }

  /** A terminal status has no way out, and an ACTIVE loan can only be paid off. */
  lemma TerminalIsFinal(from: LoanStatus, to: LoanStatus)
    ensures IsTerminal(from) ==> !Transition(from, to)
    ensures Transition(from, to) && from == ACTIVE ==> to == PAID_OFF
    ensures Transition(from, to) ==> !IsTerminal(from) && from != to
  {
  }

  /** The create*Loan methods: a new PENDING loan under "LOAN-" + a fresh UUID. The
      variant constructors cannot throw, so the InvalidLoanException wrapping never fires. */
  function CreateLoan(b: LoanBook, kind: LoanKind, uuid: string, customerId: string, amount: real,
                      tenureMonths: int, today: Date): (r: Step<LoanBook, Loan>)
    ensures r.result.Ok?
    ensures r.result.value.loanId == "LOAN-" + uuid && r.result.value.status == PENDING
    ensures r.result.value.principal == amount && r.result.value.payments == []
    ensures r.result.value == NewLoan(kind, "LOAN-" + uuid, customerId, amount, tenureMonths, today)
    ensures r.result.value.kind == kind && r.result.value.customerId == customerId
    ensures r.result.value.tenureMonths == tenureMonths && r.result.value.disbursementDate == today
    ensures r.result.value.emiAmount.Finite? <==> tenureMonths != 0
    ensures tenureMonths >= 1 ==> Amortization.Owed(amount, AnnualRate(kind) / 12.0, r.result.value.emiAmount.value, tenureMonths) == 0.0
    ensures r.state == b.(loans := b.loans["LOAN-" + uuid := r.result.value])
    ensures Healthy(b) ==> Healthy(r.state)
  {
    var loan := NewLoan(kind, "LOAN-" + uuid, customerId, amount, tenureMonths, today);
    Step(b.(loans := LR.Save(b.loans, Some(loan)).value), Ok(loan))
  }

  /** approveLoan */
  function ApproveLoan(b: LoanBook, loanId: string): (r: Step<LoanBook, ()>)
    ensures r.result.Ok? <==> loanId in b.loans && b.loans[loanId].status == PENDING
    ensures loanId !in b.loans ==> r.result == Err(LoanNotFound)
    ensures loanId in b.loans && b.loans[loanId].status != PENDING ==> r.result == Err(LoanNotPending)
    ensures r.result.Err? ==> r.state == b
    ensures r.result.Ok? ==> r.state.loans == b.loans[loanId := b.loans[loanId].(status := APPROVED)]
    ensures r.state.accounts == b.accounts && Moves(b.loans, r.state.loans)
    ensures Healthy(b) ==> Healthy(r.state)
  {
    match LR.FindById(b.loans, loanId)
    case None => Step(b, Err(LoanNotFound))
    case Some(l) =>
      if l.status != PENDING then Step(b, Err(LoanNotPending))
      else Step(b.(loans := b.loans[loanId := l.(status := APPROVED)]), Ok(()))
  }

  /** rejectLoan: the reason is only printed. */
  function RejectLoan(b: LoanBook, loanId: string): (r: Step<LoanBook, ()>)
    ensures r.result.Ok? <==> loanId in b.loans && b.loans[loanId].status == PENDING
    ensures loanId !in b.loans ==> r.result == Err(LoanNotFound)
    ensures loanId in b.loans && b.loans[loanId].status != PENDING ==> r.result == Err(OnlyPendingRejectable)
    ensures r.result.Err? ==> r.state == b
    ensures r.result.Ok? ==> r.state.loans == b.loans[loanId := b.loans[loanId].(status := REJECTED)]
    ensures r.state.accounts == b.accounts && Moves(b.loans, r.state.loans)
    ensures Healthy(b) ==> Healthy(r.state)
  {
    match LR.FindById(b.loans, loanId)
    case None => Step(b, Err(LoanNotFound))
    case Some(l) =>
      if l.status != PENDING then Step(b, Err(OnlyPendingRejectable))
      else Step(b.(loans := b.loans[loanId := Loans.RejectLoan(l)]), Ok(()))
  }

  /** activateLoan: the account is looked up first (its absence throws before the loan is
      checked); the principal is deposited, the loan becomes ACTIVE as of today, and the
      account records the disbursement. A deposit refusal propagates unwrapped. */
  function ActivateLoan(b: LoanBook, loanId: string, accountNumber: string, today: Date): (r: Step<LoanBook, ()>)
    ensures accountNumber !in b.accounts ==> r.result == Err(AccountNotFound(accountNumber))
    ensures accountNumber in b.accounts && loanId !in b.loans ==> r.result == Err(LoanNotFound)
    ensures accountNumber in b.accounts && loanId in b.loans && b.loans[loanId].status != APPROVED
            ==> r.result == Err(LoanNotApproved)
    ensures r.result.Ok? <==> accountNumber in b.accounts && loanId in b.loans
                              && b.loans[loanId].status == APPROVED && b.loans[loanId].principal > 0.0
    ensures r.result.Err? ==> r.state == b
    ensures r.result.Ok? ==>
      && r.state.loans == b.loans[loanId := b.loans[loanId].(status := ACTIVE, disbursementDate := today)]
      && r.state.accounts.Keys == b.accounts.Keys
      && r.state.accounts[accountNumber]
         == b.accounts[accountNumber].(balance := b.accounts[accountNumber].balance + b.loans[loanId].principal,
                                       log := b.accounts[accountNumber].log + [DisbursementLine(b.loans[loanId].principal)])
      && forall k :: k in b.accounts && k != accountNumber ==> r.state.accounts[k] == b.accounts[k]
    ensures Moves(b.loans, r.state.loans)
    ensures Healthy(b) ==> Healthy(r.state)
  {
    match AR.FindByAccountNumber(b.accounts, accountNumber)
    case Err(e) => Step(b, Err(e))
    case Ok(account) =>
      match LR.FindById(b.loans, loanId)
      case None => Step(b, Err(LoanNotFound))
      case Some(l) =>
        if l.status != APPROVED then Step(b, Err(LoanNotApproved))
        else
          match Deposit(account, l.principal)
          case Err(e) => Step(b, Err(e))
          case Ok(funded) =>
            var account' := Record(funded, DisbursementLine(l.principal));
            Step(LoanBook(b.loans[loanId := Loans.ActivateLoan(l, today)], b.accounts[accountNumber := account']), Ok(()))
  }

  /** makePayment. The loan is marked PAID_OFF in place as soon as the payment would clear
      it, before the LoanPayment record is validated: if that validation then throws, the
      status change stays. */
  function MakePayment(b: LoanBook, loanId: string, amount: real, uuid: string, today: Date, month: YearMonth)
    : (r: Step<LoanBook, ()>)
    ensures loanId !in b.loans ==> r.result == Err(LoanNotFound)
    ensures loanId in b.loans && b.loans[loanId].status != ACTIVE
            ==> r.result == Err(LoanNotActive(Name(b.loans[loanId].status)))
    ensures loanId in b.loans && b.loans[loanId].status == ACTIVE && BelowEmi(amount, b.loans[loanId].emiAmount)
            ==> r.result == Err(PaymentBelowEmi(amount))
    ensures r.result.Ok? <==> loanId in b.loans && b.loans[loanId].status == ACTIVE
                              && !BelowEmi(amount, b.loans[loanId].emiAmount) && amount > 0.0
    ensures r.result.Ok? ==>
      && r.state.accounts == b.accounts && r.state.loans.Keys == b.loans.Keys
      && Remaining(r.state.loans[loanId]) == Remaining(b.loans[loanId]) - amount
      && (r.state.loans[loanId].status == PAID_OFF <==> Remaining(r.state.loans[loanId]) <= 0.0)
      && (r.state.loans[loanId].status == ACTIVE <==> Remaining(r.state.loans[loanId]) > 0.0)
      && r.state.loans[loanId].payments == b.loans[loanId].payments + [Payment("PAY-" + uuid, b.loans[loanId].loanId, amount, month, today)]
      && forall k :: k in b.loans && k != loanId ==> r.state.loans[k] == b.loans[k]
    ensures r.state.accounts == b.accounts && Moves(b.loans, r.state.loans)
    ensures r.result.Err? && (|| loanId !in b.loans || b.loans[loanId].status != ACTIVE
                              || BelowEmi(amount, b.loans[loanId].emiAmount))
            ==> r.state == b
    ensures r.result.Err? && r.state != b ==> r.state.loans == b.loans[loanId := b.loans[loanId].(status := PAID_OFF)]
  {
    match LR.FindById(b.loans, loanId)
    case None => Step(b, Err(LoanNotFound))
    case Some(l) =>
      if l.status != ACTIVE then Step(b, Err(LoanNotActive(Name(l.status))))
      else if BelowEmi(amount, l.emiAmount) then Step(b, Err(PaymentBelowEmi(amount)))
      else SettlePayment(b, loanId, amount, uuid, today, month)
  }

  /** The part of makePayment after its three checks: mark the loan PAID_OFF if the payment
      clears it, then build the LoanPayment record, whose own checks refuse only a
      non-positive amount, and append it. */
  function SettlePayment(b: LoanBook, loanId: string, amount: real, uuid: string, today: Date, month: YearMonth)
    : (r: Step<LoanBook, ()>)
    requires loanId in b.loans && b.loans[loanId].status == ACTIVE
    ensures r.result.Ok? <==> amount > 0.0
    ensures r.state.accounts == b.accounts && Moves(b.loans, r.state.loans)
    ensures r.result.Ok? ==>
      && r.state.loans == b.loans[loanId := r.state.loans[loanId]]
      && Remaining(r.state.loans[loanId]) == Remaining(b.loans[loanId]) - amount
      && (r.state.loans[loanId].status == PAID_OFF <==> Remaining(r.state.loans[loanId]) <= 0.0)
      && r.state.loans[loanId].payments == b.loans[loanId].payments + [Payment("PAY-" + uuid, b.loans[loanId].loanId, amount, month, today)]
    ensures r.result.Err? && r.state != b ==> r.state.loans == b.loans[loanId := b.loans[loanId].(status := PAID_OFF)]
  {
    var l := b.loans[loanId];
    var remainingAfter := Remaining(l) - amount;
    var settled := if remainingAfter <= 0.0 then l.(status := PAID_OFF) else l;
    var b' := b.(loans := b.loans[loanId := settled]);
    assert ("PAY-" + uuid)[0] == 'P';
    assert remainingAfter > 0.0 ==> b'.loans == b.loans;
    match NewPayment(Some("PAY-" + uuid), Some(l.loanId), amount, Some(month), Some(today))
    case Err(e) => (ReplaceMoves(b.loans, loanId, settled); Step(b', Err(e)))
    case Ok(p) =>
      var paid := AddPayment(settled, p);
      ReplaceMoves(b.loans, loanId, paid);
      Step(b'.(loans := b.loans[loanId := paid]), Ok(()))
  }

  /** Replacing one loan by itself with only its payments changed, and its status kept or
      taken from ACTIVE to PAID_OFF, is a move of the store. */
  lemma ReplaceMoves(loans: LR.LoanStore, loanId: string, l': Loan)
    requires loanId in loans && loans[loanId].status == ACTIVE
    requires l'.status == ACTIVE || l'.status == PAID_OFF
    requires l' == loans[loanId].(status := l'.status, payments := l'.payments)
    ensures Moves(loans, loans[loanId := l'])
  {
  }

  /** In a healthy book a refused payment changes nothing: a payment that would settle the
      loan is positive, so the record it builds is always valid. Payments keep the book healthy. */
  lemma MakePaymentKeepsHealth(b: LoanBook, loanId: string, amount: real, uuid: string, today: Date, month: YearMonth)
    requires Healthy(b)
    ensures var r := MakePayment(b, loanId, amount, uuid, today, month);
            (r.result.Err? ==> r.state == b) && Healthy(r.state)
  {
    var r := MakePayment(b, loanId, amount, uuid, today, month);
    if loanId in b.loans && b.loans[loanId].status == ACTIVE && !BelowEmi(amount, b.loans[loanId].emiAmount) {
      var l := b.loans[loanId];
      assert Remaining(l) > 0.0;
      if amount > 0.0 {
        var l' := r.state.loans[loanId];
        PaidLoanHealthy(l, l', Payment("PAY-" + uuid, l.loanId, amount, month, today));
        HealthyAfterReplace(b, r.state, loanId);
      } else {
        assert Remaining(l) - amount > 0.0;
      }
    }
  }

  /** A healthy ACTIVE loan that takes a positive payment stays healthy, whether it stays
      ACTIVE with something left or is PAID_OFF. */
  lemma PaidLoanHealthy(l: Loan, l': Loan, p: Payment)
    requires LoanHealthy(l) && p.amount > 0.0 && l'.payments == l.payments + [p]
    requires l'.status == ACTIVE || l'.status == PAID_OFF
    requires l'.status == ACTIVE ==> Remaining(l') > 0.0
    ensures LoanHealthy(l')
  {
    forall i | 0 <= i < |l'.payments|
      ensures l'.payments[i].amount > 0.0
    {
      if i < |l.payments| {
        assert l'.payments[i] == l.payments[i];
      }
    }
  }

  /** Replacing one loan by a healthy loan with the same id, and nothing else, keeps the
      book healthy. */
  lemma HealthyAfterReplace(b: LoanBook, b': LoanBook, loanId: string)
    requires Healthy(b) && loanId in b.loans && b'.accounts == b.accounts
    requires b'.loans.Keys == b.loans.Keys && b'.loans[loanId].loanId == b.loans[loanId].loanId
    requires LoanHealthy(b'.loans[loanId])
    requires forall k :: k in b.loans && k != loanId ==> b'.loans[k] == b.loans[k]
    ensures Healthy(b')
  {
  }

  /** Outside the service's invariant the early PAID_OFF shows: an ACTIVE loan of negative
      principal accepts a negative payment above its EMI, is marked PAID_OFF, and only then
      is the payment refused. */
  lemma RefusedPaymentCanSettleLoan(today: Date, month: YearMonth)
    ensures var l := Loan("L", "C", -100.0, 0, today, ACTIVE, NegativeInfinity, [], Personal);
            var b := LoanBook(map["L" := l], map[]);
            var r := MakePayment(b, "L", -1.0, "U", today, month);
            r.result == Err(IllegalArgument("Payment amount must be positive"))
            && r.state.loans["L"].status == PAID_OFF
  {
    var l := Loan("L", "C", -100.0, 0, today, ACTIVE, NegativeInfinity, [], Personal);
    var b := LoanBook(map["L" := l], map[]);
    assert Remaining(l) == -100.0;
    assert !BelowEmi(-1.0, l.emiAmount);
    assert LR.FindById(b.loans, "L") == Some(l);
    assert NewPayment(Some("PAY-U"), Some("L"), -1.0, Some(month), Some(today))
           == Err(IllegalArgument("Payment amount must be positive")) by {
      assert !IsWhitespace("PAY-U"[0]);
    }
    assert "PAY-" + "U" == "PAY-U";
    var r := MakePayment(b, "L", -1.0, "U", today, month);
    assert r.state.loans["L"] == l.(status := PAID_OFF);
  }

  /** getTotalOutstandingBalance: the same sum as the repository's outstanding principal. */
  function TotalOutstandingBalance(b: LoanBook, order: seq<Key>): (t: real)
    requires Enumerates(order, b.loans)
    ensures Healthy(b) ==> t >= 0.0
  {
    LR.TotalOutstandingProperties(b.loans, order, order);
    LR.TotalOutstanding(b.loans, order)
  }

  /** Approving, rejecting and activating never lower the outstanding total; activation
      raises it by the loan's principal. */
  lemma OutstandingAfterActivation(b: LoanBook, loanId: string, accountNumber: string, today: Date,
                                   order: seq<Key>)
    requires Healthy(b) && Enumerates(order, b.loans)
    requires ActivateLoan(b, loanId, accountNumber, today).result.Ok?
    ensures var b' := ActivateLoan(b, loanId, accountNumber, today).state;
            Enumerates(order, b'.loans)
            && TotalOutstandingBalance(b', order) == TotalOutstandingBalance(b, order) + b.loans[loanId].principal
  {
    var b' := ActivateLoan(b, loanId, accountNumber, today).state;
    var l := b.loans[loanId];
    assert l.payments == [];
    SumWherePut(b.loans, order, order, loanId, b'.loans[loanId], LR.HasStatus(ACTIVE), LR.RemainingOf);
  }

  /** getTotalDisbursedAmount: the principal of every stored loan, disbursed or not. */
  function TotalDisbursedAmount(b: LoanBook, order: seq<Key>): real
    requires Enumerates(order, b.loans)
  {
    SumWhere(b.loans, order, Always, LR.PrincipalOf)
  }

  /** Creating a loan adds its principal to the "disbursed" total while it is still PENDING. */
  lemma CreatedLoanCountsAsDisbursed(b: LoanBook, kind: LoanKind, uuid: string, customerId: string, amount: real,
                                     tenureMonths: int, today: Date, order: seq<Key>, order': seq<Key>)
    requires Enumerates(order, b.loans) && "LOAN-" + uuid !in b.loans
    requires Enumerates(order', CreateLoan(b, kind, uuid, customerId, amount, tenureMonths, today).state.loans)
    ensures CreateLoan(b, kind, uuid, customerId, amount, tenureMonths, today).result.value.status == PENDING
    ensures TotalDisbursedAmount(CreateLoan(b, kind, uuid, customerId, amount, tenureMonths, today).state, order')
            == TotalDisbursedAmount(b, order) + amount
  {
    var r := CreateLoan(b, kind, uuid, customerId, amount, tenureMonths, today);
    SumWherePut(b.loans, order, order', "LOAN-" + uuid, r.result.value, Always, LR.PrincipalOf);
  }

  /** getAverageLoanAmount */
  function AverageLoanAmount(b: LoanBook, order: seq<Key>): (a: real)
    requires Enumerates(order, b.loans)
    ensures |b.loans| == 0 ==> a == 0.0
    ensures |b.loans| > 0 ==> a * (|b.loans| as real) == TotalDisbursedAmount(b, order)
  {
    LR.AverageLoanAmount(b.loans, order)
  }
}

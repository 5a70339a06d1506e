/** The Loan base class, its five variants, and the LoanPayment record. */
module Loans {
  import opened Failures
  import opened Calendar
  import opened Text
  import opened Powers
  import opened Amortization
  import opened LoanStatuses

  /** The variant-specific fields; only the fixed annual rate and the type name affect behaviour. */
  datatype LoanKind =
    | Personal
    | Home(propertyAddress: string, propertyValue: real)
    | Auto(vehicleModel: string, vehicleValue: real, registrationYear: int)
    | Education(institutionName: string, courseType: string, courseDuration: int)
    | Business(businessName: string, businessType: string, annualTurnover: real, collateralValue: real)

  /** The annual rate each variant's constructor passes up, as a fraction. */
  function AnnualRate(k: LoanKind): (rate: real)
    ensures 0.06 < rate < 0.1
  {
    match k
    case Personal => 0.09
    case Home(_, _) => 0.065
    case Auto(_, _, _) => 0.075
    case Education(_, _, _) => 0.065
    case Business(_, _, _, _) => 0.08
  }

  /** getLoanType */
  function LoanType(k: LoanKind): string {
    match k
    case Personal => "Personal Loan"
    case Home(_, _) => "Home Loan"
    case Auto(_, _, _) => "Auto Loan"
    case Education(_, _, _) => "Education Loan"
    case Business(_, _, _, _) => "Business Loan"
  }

  /** Each variant reports its own type name, and every name ends in " Loan". */
  lemma LoanTypeNames(a: LoanKind, b: LoanKind)
    ensures LoanType(a) == LoanType(b)
            <==> (a.Personal? == b.Personal? && a.Home? == b.Home? && a.Auto? == b.Auto? && a.Education? == b.Education?)
    ensures |LoanType(a)| > 5 && LoanType(a)[|LoanType(a)| - 5..] == " Loan"
  {
  }

  /** A double EMI: the formula divides by (1+r)^n - 1, which is zero for a zero tenure,
      and Java's floating-point division then yields an infinity or NaN. */
  datatype Emi = Finite(value: real) | PositiveInfinity | NegativeInfinity | NotANumber

  /** calculateEMI of every variant: monthly rate r = annual / 12, x = (1+r)^n, and
      p * r * x / (x - 1), with IEEE division when x - 1 is zero. */
  function VariantEmi(p: real, annualRate: real, n: int): (e: Emi)
    requires annualRate > 0.0
    ensures e.Finite? <==> n != 0
    ensures n >= 1 ==> e == Finite(Annuity(p, annualRate / 12.0, n))
    ensures n == 0 ==> e == (if p > 0.0 then PositiveInfinity else if p < 0.0 then NegativeInfinity else NotANumber)
  {
    var r := annualRate / 12.0;
    var x := PowInt(1.0 + r, n);
    PowIntIsOneOnlyAtZero(1.0 + r, n);
    if x == 1.0 then
      var num := p * r * x;
      if num > 0.0 then PositiveInfinity else if num < 0.0 then NegativeInfinity else NotANumber
    else Finite(Instalment(p, r, x))
  }

  /** paymentAmount < emi, as Java compares a double with an infinity or NaN. */
  predicate BelowEmi(amount: real, emi: Emi) {
    match emi
    case Finite(v) => amount < v
    case PositiveInfinity => true
    case NegativeInfinity => false
    case NotANumber => false
  }

  /** The loan is held by its id. */
  datatype Payment = Payment(paymentId: string, loanId: string, amount: real, paymentMonth: YearMonth, paymentDate: Date)

  /** The owning customer is held by its user id. */
  datatype Loan = Loan(
    loanId: string,
    customerId: string,
    principal: real,
    tenureMonths: int,
    disbursementDate: Date,
    status: LoanStatus,
    emiAmount: Emi,
    payments: seq<Payment>,
    kind: LoanKind)

  function AnnualInterestRate(l: Loan): real {
    AnnualRate(l.kind)
  }

  /** The sum of the recorded payments, in the order they were added. */
  function TotalPaid(payments: seq<Payment>): real
    decreases |payments|
  {
    if payments == [] then 0.0 else TotalPaid(payments[..|payments| - 1]) + payments[|payments| - 1].amount
  }

  /** getRemainingBalance */
  function Remaining(l: Loan): real {
    l.principal - TotalPaid(l.payments)
  }

  /** The Loan constructor as each variant calls it: PENDING, no payments, disbursement
      date today, and the EMI computed at once. */
  function NewLoan(kind: LoanKind, loanId: string, customerId: string, principal: real, tenureMonths: int, today: Date): (l: Loan)
    ensures l.status == PENDING && l.payments == [] && l.disbursementDate == today && l.kind == kind
    ensures l.loanId == loanId && l.customerId == customerId && l.tenureMonths == tenureMonths
    ensures Remaining(l) == principal
    ensures l.emiAmount.Finite? <==> tenureMonths != 0
    ensures tenureMonths >= 1 ==> Owed(principal, AnnualRate(kind) / 12.0, l.emiAmount.value, tenureMonths) == 0.0
  {
    var l := Loan(loanId, customerId, principal, tenureMonths, today, PENDING,
                  VariantEmi(principal, AnnualRate(kind), tenureMonths), [], kind);
    if tenureMonths >= 1 then
      AnnuityClearsLoan(principal, AnnualRate(kind) / 12.0, tenureMonths);
      l
    else l
  }

  /** A loan of positive principal and tenure never charges negative interest: its
      instalments over the tenure add up to at least the principal. */
  lemma EmiCoversPrincipal(l: Loan)
    requires l.emiAmount == VariantEmi(l.principal, AnnualRate(l.kind), l.tenureMonths)
    requires l.principal >= 0.0 && l.tenureMonths >= 1
    ensures l.emiAmount.Finite? && l.emiAmount.value * (l.tenureMonths as real) >= l.principal
  {
    AnnuityCoversPrincipal(l.principal, AnnualRate(l.kind) / 12.0, l.tenureMonths);
  }

  /** A one-month personal loan of 1200 has an EMI of 1209: principal plus a month at 9% a year. */
  lemma PersonalLoanOneMonth(today: Date)
    ensures NewLoan(Personal, "L", "C", 1200.0, 1, today).emiAmount == Finite(1209.0)
  {
    SingleMonthAnnuity(1200.0, 0.09 / 12.0);
  }

  /** A zero tenure makes the EMI infinite for a positive principal, so every finite payment is below it. */
  lemma ZeroTenureRefusesPayments(l: Loan, amount: real)
    requires l.emiAmount == VariantEmi(l.principal, AnnualRate(l.kind), 0) && l.principal > 0.0
    ensures BelowEmi(amount, l.emiAmount)
  {
  }

  /** addPayment: appends, and lowers the remaining balance by the payment's amount. */
  function AddPayment(l: Loan, p: Payment): (r: Loan)
    ensures Remaining(r) == Remaining(l) - p.amount
    ensures r.payments == l.payments + [p]
    ensures r == l.(payments := r.payments)
  {
    var r := l.(payments := l.payments + [p]);
    assert r.payments[..|r.payments| - 1] == l.payments;
    r
  }

  /** Adding payments one by one lowers the remaining balance by their total. */
  lemma {:induction false} RemainingAfterPayments(l: Loan, ps: seq<Payment>)
    ensures Remaining(l.(payments := l.payments + ps)) == Remaining(l) - TotalPaid(ps)
    decreases |ps|
  {
    if ps == [] {
      assert l.payments + ps == l.payments;
    } else {
      var init := ps[..|ps| - 1];
      RemainingAfterPayments(l, init);
      assert l.payments + ps == (l.payments + init) + [ps[|ps| - 1]];
      var _ := AddPayment(l.(payments := l.payments + init), ps[|ps| - 1]);
    }
  }

  /** Positive payments only ever lower the remaining balance. */
  lemma {:induction false} TotalPaidPositive(ps: seq<Payment>)
    requires forall i :: 0 <= i < |ps| ==> ps[i].amount > 0.0
    ensures TotalPaid(ps) >= 0.0
    ensures ps != [] ==> TotalPaid(ps) > 0.0
    decreases |ps|
  {
    if ps != [] {
      TotalPaidPositive(ps[..|ps| - 1]);
    }
  }

  /** setStatus(String) */
  function SetStatus(l: Loan, name: Option<string>): (r: Result<Loan>)
    ensures r.Ok? <==> name.Some? && exists s :: Name(s) == ToUpper(name.value)
    ensures r.Ok? ==> r.value == l.(status := r.value.status) && Name(r.value.status) == ToUpper(name.value)
  {
    var s :- Parse(name);
    Ok(l.(status := s))
  }

  /** rejectLoan: the reason is only printed. */
  function RejectLoan(l: Loan): (r: Loan)
    ensures r.status == REJECTED && IsTerminal(r.status)
    ensures r == l.(status := REJECTED)
  {
    l.(status := REJECTED)
  }

  /** activateLoan: active, disbursed today. */
  function ActivateLoan(l: Loan, today: Date): (r: Loan)
    ensures IsActive(r.status) && r.disbursementDate == today
    ensures r.payments == l.payments && Remaining(r) == Remaining(l)
  {
    l.(status := ACTIVE, disbursementDate := today)
  }

  /** The LoanPayment record's validating constructor. */
  function NewPayment(paymentId: Option<string>, loanId: Option<string>, amount: real,
                      month: Option<YearMonth>, date: Option<Date>): (r: Result<Payment>)
    ensures r.Ok? <==> paymentId.Some? && !IsBlank(paymentId.value) && loanId.Some? && amount > 0.0
                       && month.Some? && date.Some?
    ensures r.Ok? ==> r.value == Payment(paymentId.value, loanId.value, amount, month.value, date.value)
    ensures r.Err? ==> r.error.IllegalArgument?
  {
    if paymentId.None? || IsBlank(paymentId.value) then Err(IllegalArgument("Payment ID cannot be null or blank"))
    else if loanId.None? then Err(IllegalArgument("Loan cannot be null"))
    else if amount <= 0.0 then Err(IllegalArgument("Payment amount must be positive"))
    else if month.None? then Err(IllegalArgument("Payment month cannot be null"))
    else if date.None? then Err(IllegalArgument("Payment date cannot be null"))
    else Ok(Payment(paymentId.value, loanId.value, amount, month.value, date.value))
  }

  /** isOnTime: paid on or before the fifth of the month. */
  predicate IsOnTime(p: Payment) {
    DayOfMonth(p.paymentDate) <= 5
  }

  /** A payment on 1970-01-05 is on time; one on 1970-01-06 is late. */
  lemma OnTimeCutOff(p: Payment, q: Payment)
    requires p.paymentDate == 4 && q.paymentDate == 5
    ensures IsOnTime(p) && !IsOnTime(q)
  {
    CivilFromDaysSamples();
  }
}

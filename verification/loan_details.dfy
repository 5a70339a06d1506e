/** The LoanDetails record: a validated loan quote whose rate is a percentage. */
module LoanDetailsRecord {
  import opened Failures
  import opened Calendar
  import opened Text
  import opened Powers
  import opened Amortization

  /** annualInterestRate is in percent (8.0 is 8%); the customer is held by its user id. */
  datatype LoanDetails = LoanDetails(
    loanId: string,
    customerId: string,
    principal: real,
    annualInterestRate: real,
    tenureMonths: int,
    startDate: Option<Date>)

  /** What the record's constructor guarantees of every instance. */
  ghost predicate Valid(d: LoanDetails) {
    !IsBlank(d.loanId) && d.principal > 0.0 && d.annualInterestRate >= 0.0 && d.tenureMonths > 0
  }

  /** The compact constructor, checking in source order; startDate is not checked. */
  function NewLoanDetails(loanId: Option<string>, customerId: Option<string>, principal: real,
                          annualInterestRate: real, tenureMonths: int, startDate: Option<Date>): (r: Result<LoanDetails>)
    ensures r.Ok? <==> loanId.Some? && !IsBlank(loanId.value) && customerId.Some? && principal > 0.0
                       && annualInterestRate >= 0.0 && tenureMonths > 0
    ensures r.Ok? ==> Valid(r.value) && r.value.principal == principal && r.value.tenureMonths == tenureMonths
    ensures r.Ok? ==> && r.value.loanId == loanId.value && r.value.customerId == customerId.value
                      && r.value.annualInterestRate == annualInterestRate && r.value.startDate == startDate
    ensures r.Err? ==> r.error.IllegalArgument?
  {
    if loanId.None? || IsBlank(loanId.value) then Err(IllegalArgument("Loan ID cannot be null or blank"))
    else if customerId.None? then Err(IllegalArgument("Customer cannot be null"))
    else if principal <= 0.0 then Err(IllegalArgument("Principal must be positive"))
    else if annualInterestRate < 0.0 then Err(IllegalArgument("Interest rate cannot be negative"))
    else if tenureMonths <= 0 then Err(IllegalArgument("Tenure must be positive"))
    else Ok(LoanDetails(loanId.value, customerId.value, principal, annualInterestRate, tenureMonths, startDate))
  }

  /** The monthly rate as a fraction: annual percent / 12 / 100. */
  function MonthlyRate(d: LoanDetails): real {
    d.annualInterestRate / 12.0 / 100.0
  }

  /** calculateEMI: an even split at a zero rate, otherwise the annuity formula. */
  function CalculateEmi(d: LoanDetails): (e: real)
    requires Valid(d)
    ensures Owed(d.principal, MonthlyRate(d), e, d.tenureMonths) == 0.0
    ensures e * (d.tenureMonths as real) >= d.principal
    ensures MonthlyRate(d) == 0.0 ==> e * (d.tenureMonths as real) == d.principal
  {
    var r := MonthlyRate(d);
    var n := d.tenureMonths;
    if r == 0.0 then
      ZeroRateClearsLoan(d.principal, n);
      d.principal / (n as real)
    else
      AnnuityClearsLoan(d.principal, r, n);
      AnnuityCoversPrincipal(d.principal, r, n);
      Annuity(d.principal, r, n)
  }

  /** getTotalPayable */
  function TotalPayable(d: LoanDetails): (t: real)
    requires Valid(d)
    ensures t >= d.principal
  {
    CalculateEmi(d) * (d.tenureMonths as real)
  }

  /** getTotalInterest: never negative, and zero at a zero rate. */
  function TotalInterest(d: LoanDetails): (i: real)
    requires Valid(d)
    ensures i >= 0.0
    ensures d.annualInterestRate == 0.0 ==> i == 0.0
  {
    TotalPayable(d) - d.principal
  }

  /** A quote at rate 100 * R percent has the EMI of a loan variant at fraction R. */
  lemma AgreesWithVariantFormula(d: LoanDetails, fraction: real)
    requires Valid(d) && fraction > 0.0 && d.annualInterestRate == fraction * 100.0
    ensures CalculateEmi(d) == Annuity(d.principal, fraction / 12.0, d.tenureMonths)
  {
    assert MonthlyRate(d) == fraction / 12.0;
  }
}

/** LoanRepository: loans keyed by loan id. */
module LoanRepository {
  import opened Failures
  import opened Stores
  import opened LoanStatuses
  import opened Loans

  type LoanStore = map<Key, Loan>

  /** Every entry is filed under its own loan id. */
  ghost predicate Keyed(m: LoanStore) {
    forall k :: k in m ==> m[k].loanId == k
  }

  /** save: a null loan is refused; otherwise the loan is put under its id. */
  function Save(m: LoanStore, loan: Option<Loan>): (r: Result<LoanStore>)
    ensures r.Err? <==> loan.None?
    ensures r.Err? ==> r.error == IllegalArgument("Loan cannot be null")
    ensures r.Ok? ==> r.value.Keys == m.Keys + {loan.value.loanId} && r.value[loan.value.loanId] == loan.value
    ensures r.Ok? ==> forall k :: k in m && k != loan.value.loanId ==> r.value[k] == m[k]
    ensures r.Ok? && Keyed(m) ==> Keyed(r.value)
  {
    match loan
    case None => Err(IllegalArgument("Loan cannot be null"))
    case Some(l) => Ok(Put(m, l.loanId, l))
  }

  /** update: only a loan whose id is already stored is replaced. */
  function Update(m: LoanStore, loan: Option<Loan>): (r: LoanStore)
    ensures r.Keys == m.Keys
    ensures loan.None? || loan.value.loanId !in m ==> r == m
    ensures loan.Some? && loan.value.loanId in m ==> r[loan.value.loanId] == loan.value
    ensures forall k :: k in m && (loan.None? || k != loan.value.loanId) ==> r[k] == m[k]
    ensures Keyed(m) ==> Keyed(r)
  {
    match loan
    case None => m
    case Some(l) => Replace(m, l.loanId, l)
  }

  /** findById: null when absent. */
  function FindById(m: LoanStore, loanId: string): (r: Option<Loan>)
    ensures r.Some? <==> loanId in m
    ensures r.Some? ==> r.value == m[loanId]
  {
    if loanId in m then Some(m[loanId]) else None
  }

  /** findByCustomer: Customer.equals compares user ids. */
  function FindByCustomer(m: LoanStore, customerId: string): (r: LoanStore)
    ensures forall k :: k in r <==> k in m && m[k].customerId == customerId
    ensures forall k :: k in r ==> r[k] == m[k]
  {
    Where(m, (l: Loan) => l.customerId == customerId)
  }

  function HasStatus(s: LoanStatus): Loan -> bool {
    (l: Loan) => l.status == s
  }

  /** findByStatus */
  function FindByStatus(m: LoanStore, s: LoanStatus): (r: LoanStore)
    ensures forall k :: k in r <==> k in m && m[k].status == s
    ensures forall k :: k in r ==> r[k] == m[k]
  {
    Where(m, HasStatus(s))
  }

  /** findActiveLoan, findPendingLoans, findApprovedLoans and findDefaultedLoans are
      findByStatus at a fixed status; the four views never share a loan. */
  lemma FixedStatusViews(m: LoanStore)
    ensures FindByStatus(m, ACTIVE).Keys !! FindByStatus(m, PENDING).Keys
    ensures FindByStatus(m, ACTIVE).Keys !! FindByStatus(m, APPROVED).Keys
    ensures FindByStatus(m, PENDING).Keys !! FindByStatus(m, APPROVED).Keys
    ensures FindByStatus(m, DEFAULT).Keys !! FindByStatus(m, ACTIVE).Keys
    ensures forall s :: FindByStatus(m, s).Keys <= m.Keys
  {
  }

  /** findLoansAbove: principal strictly above the threshold. */
  function FindLoansAbove(m: LoanStore, threshold: real): (r: LoanStore)
    ensures forall k :: k in r <==> k in m && m[k].principal > threshold
    ensures forall k :: k in r ==> r[k] == m[k]
  {
    Where(m, (l: Loan) => l.principal > threshold)
  }

  /** findLoansBelow: principal strictly below the threshold. */
  function FindLoansBelow(m: LoanStore, threshold: real): (r: LoanStore)
    ensures forall k :: k in r <==> k in m && m[k].principal < threshold
    ensures forall k :: k in r ==> r[k] == m[k]
  {
    Where(m, (l: Loan) => l.principal < threshold)
  }

  /** findLoansWithRemainingBalance */
  function FindWithRemainingBalance(m: LoanStore): (r: LoanStore)
    ensures forall k :: k in r <==> k in m && Remaining(m[k]) > 0.0
    ensures forall k :: k in r ==> r[k] == m[k]
  {
    Where(m, (l: Loan) => Remaining(l) > 0.0)
  }

  function RemainingOf(l: Loan): real {
    Remaining(l)
  }

  function PrincipalOf(l: Loan): real {
    l.principal
  }

  /** getTotalOutstandingPrincipal: the remaining balances of the ACTIVE loans only. */
  function TotalOutstanding(m: LoanStore, order: seq<Key>): real
    requires Enumerates(order, m)
  {
    SumWhere(m, order, HasStatus(ACTIVE), RemainingOf)
  }

  /** The outstanding total does not depend on iteration order, ignores every loan that
      is not ACTIVE, and is non-negative while active loans owe a non-negative amount. */
  lemma TotalOutstandingProperties(m: LoanStore, o1: seq<Key>, o2: seq<Key>)
    requires Enumerates(o1, m) && Enumerates(o2, m)
    ensures TotalOutstanding(m, o1) == TotalOutstanding(m, o2)
    ensures (forall k :: k in m && m[k].status == ACTIVE ==> Remaining(m[k]) >= 0.0) ==> TotalOutstanding(m, o1) >= 0.0
  {
    SumWhereIndependentOfOrder(m, o1, o2, HasStatus(ACTIVE), RemainingOf);
    if forall k :: k in m && m[k].status == ACTIVE ==> Remaining(m[k]) >= 0.0 {
      SumWhereNonNegative(m, o1, HasStatus(ACTIVE), RemainingOf);
    }
  }

  /** Storing a loan that is not ACTIVE, over one that was not ACTIVE either, leaves the total unchanged. */
  lemma TotalOutstandingIgnoresInactive(m: LoanStore, order: seq<Key>, l: Loan, order': seq<Key>)
    requires Enumerates(order, m) && Enumerates(order', m[l.loanId := l])
    requires l.status != ACTIVE && (l.loanId in m ==> m[l.loanId].status != ACTIVE)
    ensures TotalOutstanding(m[l.loanId := l], order') == TotalOutstanding(m, order)
  {
    SumWherePut(m, order, order', l.loanId, l, HasStatus(ACTIVE), RemainingOf);
  }

  /** getAverageLoanAmount: the mean principal, or 0 with no loans. */
  function AverageLoanAmount(m: LoanStore, order: seq<Key>): (a: real)
    requires Enumerates(order, m)
    ensures |m| == 0 ==> a == 0.0
    ensures |m| > 0 ==> a * (|m| as real) == SumWhere(m, order, Always, PrincipalOf)
  {
    EnumerationSize(m, order);
    Average(m, order, PrincipalOf)
  }

  /** countByStatus: the size of findByStatus. */
  function CountByStatus(m: LoanStore, order: seq<Key>, s: LoanStatus): (n: nat)
    requires Enumerates(order, m)
    ensures n == |FindByStatus(m, s)|
  {
    CountWhereIsSizeOfWhere(m, order, HasStatus(s));
    CountWhere(m, order, HasStatus(s))
  }

  /** delete */
  function Delete(m: LoanStore, loanId: string): (r: LoanStore)
    ensures loanId !in r && r.Keys == m.Keys - {loanId}
    ensures forall k :: k in r ==> r[k] == m[k]
  {
    Remove(m, loanId)
  }
}

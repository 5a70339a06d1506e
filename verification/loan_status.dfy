/** The LoanStatus enum. */
module LoanStatuses {
  import opened Failures
  import opened Text

  datatype LoanStatus = PENDING | APPROVED | REJECTED | ACTIVE | PAID_OFF | DEFAULT | CLOSED

  /** Enum.name(), which is also what toString and string concatenation print. */
  function Name(s: LoanStatus): string {
    match s
    case PENDING => "PENDING"
    case APPROVED => "APPROVED"
    case REJECTED => "REJECTED"
    case ACTIVE => "ACTIVE"
    case PAID_OFF => "PAID_OFF"
    case DEFAULT => "DEFAULT"
    case CLOSED => "CLOSED"
  }

  predicate IsActive(s: LoanStatus) {
    s == ACTIVE
  }

  predicate IsTerminal(s: LoanStatus) {
    s == PAID_OFF || s == CLOSED || s == REJECTED
  }

  /** An active loan is never terminal, and exactly three of the seven statuses are. */
  lemma ActiveIsNotTerminal(s: LoanStatus)
    ensures IsActive(s) ==> !IsTerminal(s)
    ensures IsTerminal(s) <==> s in {PAID_OFF, CLOSED, REJECTED}
    ensures !IsTerminal(s) <==> s in {PENDING, APPROVED, ACTIVE, DEFAULT}
  {
  }

  /** The seven names are pairwise different, so valueOf can tell every status apart. */
  lemma NamesDistinct(s: LoanStatus, t: LoanStatus)
    ensures Name(s) == Name(t) <==> s == t
  {
    if s != t {
      assert Name(s)[0] != Name(t)[0] || Name(s)[1] != Name(t)[1] || |Name(s)| != |Name(t)|;
    }
  }

  /** LoanStatus.valueOf on a non-null name: an exact match or IllegalArgumentException. */
  function ValueOf(name: string): (r: Result<LoanStatus>)
    ensures r.Ok? ==> Name(r.value) == name
    ensures r.Err? ==> r.error.IllegalArgument? && forall s :: Name(s) != name
  {
    if name == "PENDING" then Ok(PENDING)
    else if name == "APPROVED" then Ok(APPROVED)
    else if name == "REJECTED" then Ok(REJECTED)
    else if name == "ACTIVE" then Ok(ACTIVE)
    else if name == "PAID_OFF" then Ok(PAID_OFF)
    else if name == "DEFAULT" then Ok(DEFAULT)
    else if name == "CLOSED" then Ok(CLOSED)
    else Err(IllegalArgument("No enum constant model.loan.LoanStatus." + name))
  }

  /** valueOf inverts name. */
  lemma ValueOfName(s: LoanStatus)
    ensures ValueOf(Name(s)) == Ok(s)
  {
    NamesDistinct(s, ValueOf(Name(s)).value);
  }

  /** Loan.setStatus(String): the name is upper-cased before the lookup, and a null name
      fails on toUpperCase. */
  function Parse(name: Option<string>): (r: Result<LoanStatus>)
    ensures name.None? ==> r == Err(NullReference)
    ensures name.Some? ==> r == ValueOf(ToUpper(name.value))
  {
    match name
    case None => Err(NullReference)
    case Some(n) => ValueOf(ToUpper(n))
  }

  /** Any capitalisation of a status name parses to that status. */
  lemma ParseIgnoresCase(s: LoanStatus, name: string)
    requires EqualsIgnoreCase(name, Name(s))
    ensures Parse(Some(name)) == Ok(s)
  {
    NameIsUpper(s);
    ValueOfName(s);
  }

  lemma NameIsUpper(s: LoanStatus)
    ensures ToUpper(Name(s)) == Name(s)
  {
    ToUpperFixesUpper(Name(s));
  }

  /** "active" and "Paid_Off" parse; "paid off", with a space, does not. */
  lemma ParseSamples()
    ensures Parse(Some("active")) == Ok(ACTIVE)
    ensures Parse(Some("Paid_Off")) == Ok(PAID_OFF)
    ensures Parse(Some("paid off")).Err?
  {
    ParseActive();
    ParsePaidOff();
    ParseSpaced();
  }

  lemma ParseActive()
    ensures Parse(Some("active")) == Ok(ACTIVE)
  {
    assert ToUpper("active") == "ACTIVE";
    ParseIgnoresCase(ACTIVE, "active");
  }

  lemma ParsePaidOff()
    ensures Parse(Some("Paid_Off")) == Ok(PAID_OFF)
  {
    assert ToUpper("Paid_Off") == "PAID_OFF";
    ParseIgnoresCase(PAID_OFF, "Paid_Off");
  }

  lemma ParseSpaced()
    ensures Parse(Some("paid off")).Err?
  {
    assert ToUpper("paid off") == "PAID OFF";
  }
}

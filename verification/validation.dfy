/** ValidationUtil: stateless checks on strings, identifiers, amounts and ranges. A null
    string is None; amounts are exact reals, so Double.isFinite always holds. */
module Validation {
  import opened Failures
  import opened Text
  import Loans

  /** isValidString: present and not blank. */
  predicate IsValidString(value: Option<string>) {
    value.Some? && !IsBlank(value.value)
  }

  /** A string holding a character that is not whitespace is a valid string. */
  lemma ValidWithVisibleChar(s: string, i: int)
    requires 0 <= i < |s| && !IsWhitespace(s[i])
    ensures IsValidString(Some(s))
  {
  }

  /** isValidAmount */
  predicate IsValidAmount(amount: real) {
    amount > 0.0
  }

  /** isAmountInRange, and isBetween, which has the same body. */
  predicate IsAmountInRange(amount: real, min: real, max: real) {
    min <= amount <= max
  }

  const MaxTransaction: real := 1000000.0

  /** isValidTransactionAmount */
  predicate IsValidTransactionAmount(amount: real) {
    IsValidAmount(amount) && amount <= MaxTransaction
  }

  /** isValidBalance */
  predicate IsValidBalance(balance: real) {
    balance >= 0.0
  }

  /** A transaction amount is valid exactly when it lies in (0, 1000000]; every such amount
      is also a valid balance. */
  lemma TransactionAmountRange(amount: real)
    ensures IsValidTransactionAmount(amount) <==> amount > 0.0 && IsAmountInRange(amount, 0.0, MaxTransaction)
    ensures IsValidTransactionAmount(amount) ==> IsValidBalance(amount)
    ensures !IsValidTransactionAmount(0.0) && IsValidTransactionAmount(MaxTransaction)
  {
  }

  /** isValidInterestRate: a percentage, both ends included. */
  predicate IsValidInterestRate(rate: real) {
    0.0 <= rate <= 100.0
  }

  /** isValidTenure: one month up to thirty years. */
  predicate IsValidTenure(months: int) {
    1 <= months <= 360
  }

  /** isValidAge */
  predicate IsValidAge(age: int) {
    18 <= age <= 100
  }

  /** A tenure that passes the validator gives every loan variant a finite EMI: the
      division by zero of a zero tenure is out of reach. */
  lemma ValidTenureGivesFiniteEmi(kind: Loans.LoanKind, principal: real, months: int)
    requires IsValidTenure(months)
    ensures Loans.VariantEmi(principal, Loans.AnnualRate(kind), months).Finite?
  {
  }

  /** isValidAccountNumber: a valid string of 8 to 20 characters. */
  predicate IsValidAccountNumber(accountNumber: Option<string>) {
    IsValidString(accountNumber) && 8 <= |accountNumber.value| <= 20
  }

  function TenTo(k: nat): (t: nat)
    ensures t >= 1
  {
    if k == 0 then 1 else 10 * TenTo(k - 1)
  }

  /** A number below 10^k prints in at most k digits, one at or above 10^k in more. */
  lemma {:induction false} DigitCount(n: nat, k: nat)
    requires k >= 1
    ensures n < TenTo(k) ==> |NatToString(n)| <= k
    ensures TenTo(k) <= n ==> |NatToString(n)| >= k + 1
    decreases k
  {
    if k > 1 && n >= 10 {
      DigitCount(n / 10, k - 1);
    }
  }

  /** The account numbers the service generates, "ACC" and the creation time in
      milliseconds, pass isValidAccountNumber exactly for times of five to seventeen digits. */
  lemma GeneratedAccountNumberValid(millis: nat)
    ensures IsValidAccountNumber(Some("ACC" + IntToString(millis))) <==> TenTo(4) <= millis < TenTo(17)
  {
    DigitCount(millis, 4);
    DigitCount(millis, 17);
    assert ("ACC" + IntToString(millis))[0] == 'A';
    ValidWithVisibleChar("ACC" + IntToString(millis), 0);
  }

  /** isValidBranchCode: a valid string of 3 to 10 characters. */
  predicate IsValidBranchCode(branchCode: Option<string>) {
    IsValidString(branchCode) && 3 <= |branchCode.value| <= 10
  }

  /** isValidLoanId: starts with "LOAN-" and has something after it. */
  predicate IsValidLoanId(loanId: Option<string>) {
    IsValidString(loanId) && StartsWith(loanId.value, "LOAN-") && |loanId.value| > 5
  }

  /** isValidCustomerId: starts with "CUST-" and has something after it. */
  predicate IsValidCustomerId(customerId: Option<string>) {
    IsValidString(customerId) && StartsWith(customerId.value, "CUST-") && |customerId.value| > 5
  }

  /** The ids the services generate, a prefix followed by a UUID, pass the validators
      exactly when the UUID part is not empty; the prefix is case-sensitive. */
  lemma GeneratedIdsValid(uuid: string)
    ensures IsValidLoanId(Some("LOAN-" + uuid)) <==> uuid != []
    ensures IsValidCustomerId(Some("CUST-" + uuid)) <==> uuid != []
    ensures !IsValidLoanId(Some("CUST-" + uuid)) && !IsValidCustomerId(Some("LOAN-" + uuid))
    ensures !IsValidLoanId(Some("loan-" + uuid))
  {
    assert ("LOAN-" + uuid)[..5] == "LOAN-";
    assert ("CUST-" + uuid)[..5] == "CUST-";
    ValidWithVisibleChar("LOAN-" + uuid, 0);
    ValidWithVisibleChar("CUST-" + uuid, 0);
    assert ("CUST-" + uuid)[0] == 'C';
    assert ("LOAN-" + uuid)[0] == 'L';
    assert ("loan-" + uuid)[0] == 'l';
  }

  /** [0-9]{lo,hi} over the whole of s. */
  predicate DigitRun(s: string, lo: nat, hi: nat) {
    lo <= |s| <= hi && forall i :: 0 <= i < |s| ==> IsAsciiDigit(s[i])
  }

  /** The pattern ^[+]?[0-9]{10,15}$ read as a regular expression: some choice of zero or
      one leading '+' leaves a run of 10 to 15 digits. */
  ghost predicate PhonePattern(s: string) {
    exists k :: 0 <= k <= 1 && PhoneSplit(s, k)
  }

  ghost predicate PhoneSplit(s: string, k: int)
    requires 0 <= k <= 1
  {
    k <= |s| && (k == 1 ==> s[0] == '+') && DigitRun(s[k..], 10, 15)
  }

  /** isValidPhoneNumber: drop one leading '+' if there is one, then expect 10 to 15 digits. */
  predicate IsValidPhoneNumber(phone: Option<string>) {
    && IsValidString(phone)
    && var digits := if |phone.value| > 0 && phone.value[0] == '+' then phone.value[1..] else phone.value;
       DigitRun(digits, 10, 15)
  }

  /** The one-pass check agrees with the regular expression, and the blank test in front of
      it never decides anything. */
  lemma PhoneMatchesPattern(s: string)
    ensures IsValidPhoneNumber(Some(s)) <==> PhonePattern(s)
  {
    if PhonePattern(s) {
      var k :| 0 <= k <= 1 && PhoneSplit(s, k);
      if k == 0 {
        assert s[0..] == s;
        assert IsAsciiDigit(s[0]);
      }
      ValidWithVisibleChar(s, |s| - 1);
    }
    if IsValidPhoneNumber(Some(s)) {
      if |s| > 0 && s[0] == '+' {
        assert PhoneSplit(s, 1);
      } else {
        assert s[0..] == s;
        assert PhoneSplit(s, 0);
      }
    }
  }

  /** isValidIfscCode: ^[A-Z]{4}0[A-Z0-9]{6}$, four capitals, a zero, six capitals or digits. */
  predicate IsValidIfscCode(ifscCode: Option<string>) {
    && IsValidString(ifscCode)
    && var s := ifscCode.value;
       && |s| == 11
       && (forall i :: 0 <= i < 4 ==> IsAsciiUpper(s[i]))
       && s[4] == '0'
       && (forall i :: 5 <= i < 11 ==> IsAsciiUpper(s[i]) || IsAsciiDigit(s[i]))
  }

  /** ^[A-Z]{4}0[A-Z0-9]{6}$ read as a shape. */
  ghost predicate IfscPattern(s: string) {
    && |s| == 11
    && (forall i :: 0 <= i < 4 ==> 'A' <= s[i] <= 'Z')
    && s[4] == '0'
    && (forall i :: 5 <= i < 11 ==> 'A' <= s[i] <= 'Z' || '0' <= s[i] <= '9')
  }

  /** A present string is a valid IFSC code exactly when it matches the pattern: the blank
      test never rejects a string of that shape. */
  lemma IfscMatchesPattern(s: string)
    ensures IsValidIfscCode(Some(s)) <==> IfscPattern(s)
  {
    if IfscPattern(s) {
      ValidWithVisibleChar(s, 4);
    }
  }

  /** The character classes of the e-mail pattern. */
  predicate LocalChar(c: char) {
    IsAsciiLetter(c) || IsAsciiDigit(c) || c == '+' || c == '_' || c == '.' || c == '-'
  }

  predicate DomainChar(c: char) {
    IsAsciiLetter(c) || IsAsciiDigit(c) || c == '.' || c == '-'
  }

  /** The pattern ^[A-Za-z0-9+_.-]+@[A-Za-z0-9.-]+\.[A-Za-z]{2,}$ split at the '@' (index at)
      and at the dot before the top-level domain (index dot). */
  ghost predicate EmailSplit(s: string, at: int, dot: int) {
    && 0 < at < dot - 1 < |s| - 3
    && s[at] == '@' && s[dot] == '.'
    && (forall i :: 0 <= i < at ==> LocalChar(s[i]))
    && (forall i :: at < i < dot ==> DomainChar(s[i]))
    && (forall i :: dot < i < |s| ==> IsAsciiLetter(s[i]))
  }

  /** The regular expression's meaning: some way to split the string fits the pattern. */
  ghost predicate EmailPattern(s: string) {
    exists at, dot :: EmailSplit(s, at, dot)
  }

  /** The first index of c in s, or |s| when there is none. */
  function IndexOf(s: string, c: char): (i: nat)
    ensures i <= |s| && (i < |s| ==> s[i] == c)
    ensures forall j :: 0 <= j < i ==> s[j] != c
    decreases |s|
  {
    if s == [] || s[0] == c then 0 else 1 + IndexOf(s[1..], c)
  }

  /** The last index of c in s, or -1 when there is none. */
  function LastIndexOf(s: string, c: char): (i: int)
    ensures -1 <= i < |s| && (0 <= i ==> s[i] == c)
    ensures forall j :: i < j < |s| ==> s[j] != c
    decreases |s|
  {
    if s == [] then -1 else if s[|s| - 1] == c then |s| - 1 else LastIndexOf(s[..|s| - 1], c)
  }

  /** isValidEmail, computed in one pass: split at the first '@' and the last '.'. */
  predicate IsValidEmail(email: Option<string>) {
    && IsValidString(email)
    && var s := email.value;
       var at := IndexOf(s, '@');
       var dot := LastIndexOf(s, '.');
       && 0 < at < dot - 1 < |s| - 3
       && (forall i :: 0 <= i < at ==> LocalChar(s[i]))
       && (forall i :: at < i < dot ==> DomainChar(s[i]))
       && (forall i :: dot < i < |s| ==> IsAsciiLetter(s[i]))
  }

  /** The split at the first '@' and the last '.' is the only one the pattern can use, so the
      one-pass check agrees with the regular expression in both directions. */
  lemma EmailMatchesPattern(s: string)
    ensures IsValidEmail(Some(s)) <==> EmailPattern(s)
  {
    var at := IndexOf(s, '@');
    var dot := LastIndexOf(s, '.');
    if EmailPattern(s) {
      var a, d :| EmailSplit(s, a, d);
      assert !LocalChar('@');
      assert a == at;
      assert d == dot;
      ValidWithVisibleChar(s, a);
    }
    if IsValidEmail(Some(s)) {
      assert EmailSplit(s, at, dot);
    }
  }

  /** "a@b.cd" is an address; without the '@', with an empty domain, or with a one-letter
      top-level domain it is not. */
  lemma EmailSamples()
    ensures IsValidEmail(Some("a@b.cd"))
    ensures !IsValidEmail(Some("ab.cd")) && !IsValidEmail(Some("a@.cd")) && !IsValidEmail(Some("a@b.c"))
  {
    assert EmailSplit("a@b.cd", 1, 3);
    EmailMatchesPattern("a@b.cd");
  }

  /** areAllFieldsPresent: every field is a valid string (vacuously so for no fields). */
  method AreAllFieldsPresent(fields: seq<Option<string>>) returns (present: bool)
    ensures present <==> forall i :: 0 <= i < |fields| ==> IsValidString(fields[i])
    ensures fields == [] ==> present
  {
    for k := 0 to |fields|
      invariant forall i :: 0 <= i < k ==> IsValidString(fields[i])
    {
      if !IsValidString(fields[k]) {
        return false;
      }
    }
    return true;
  }
}

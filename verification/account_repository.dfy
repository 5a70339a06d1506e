/** AccountRepository: accounts keyed by account number. */
module AccountRepository {
  import opened Failures
  import opened Text
  import opened Stores
  import opened Accounts

  type AccountStore = map<Key, Account>

  /** Every entry is filed under its own account number. */
  ghost predicate Keyed(m: AccountStore) {
    forall k :: k in m ==> m[k].accountNumber == k
  }

  /** save: a null account is refused; otherwise the account is put under its number. */
  function Save(m: AccountStore, account: Option<Account>): (r: Result<AccountStore>)
    ensures r.Err? <==> account.None?
    ensures r.Err? ==> r.error == IllegalArgument("Account cannot be null")
    ensures r.Ok? ==> r.value.Keys == m.Keys + {account.value.accountNumber}
    ensures r.Ok? ==> r.value[account.value.accountNumber] == account.value
    ensures r.Ok? ==> forall k :: k in m && k != account.value.accountNumber ==> r.value[k] == m[k]
    ensures r.Ok? && Keyed(m) ==> Keyed(r.value)
  {
    match account
    case None => Err(IllegalArgument("Account cannot be null"))
    case Some(a) => Ok(Put(m, a.accountNumber, a))
  }

  /** update: only an account whose number is already stored is replaced. */
  function Update(m: AccountStore, account: Option<Account>): (r: AccountStore)
    ensures r.Keys == m.Keys
    ensures account.None? || account.value.accountNumber !in m ==> r == m
    ensures account.Some? && account.value.accountNumber in m ==> r[account.value.accountNumber] == account.value
    ensures Keyed(m) ==> Keyed(r)
  {
    match account
    case None => m
    case Some(a) => Replace(m, a.accountNumber, a)
  }

  /** findByAccountNumber */
  function FindByAccountNumber(m: AccountStore, accountNumber: string): (r: Result<Account>)
    ensures r.Ok? <==> accountNumber in m
    ensures r.Ok? ==> r.value == m[accountNumber]
    ensures r.Err? ==> r.error == AccountNotFound(accountNumber)
  {
    if accountNumber in m then Ok(m[accountNumber]) else Err(AccountNotFound(accountNumber))
  }

  /** Saving an account makes it findable under its number, unchanged. */
  lemma SaveThenFind(m: AccountStore, a: Account)
    ensures Save(m, Some(a)).Ok?
    ensures FindByAccountNumber(Save(m, Some(a)).value, a.accountNumber) == Ok(a)
  {
  }

  /** findByCustomer: Customer.equals compares user ids. */
  function FindByCustomer(m: AccountStore, customerId: string): (r: AccountStore)
    ensures forall k :: k in r <==> k in m && m[k].customerId == customerId
    ensures forall k :: k in r ==> r[k] == m[k]
  {
    Where(m, (a: Account) => a.customerId == customerId)
  }

  /** findByAccountType: getAccountType().equalsIgnoreCase(accountType). */
  function FindByAccountType(m: AccountStore, accountType: string): (r: AccountStore)
    ensures forall k :: k in r <==> k in m && EqualsIgnoreCase(AccountType(m[k]), accountType)
    ensures forall k :: k in r ==> r[k] == m[k]
  {
    Where(m, (a: Account) => EqualsIgnoreCase(AccountType(a), accountType))
  }

  /** Looking up any capitalisation of an account's type name finds exactly the accounts
      of that account's variant: the four names differ in their first letter. */
  lemma FindByAccountTypeIgnoresCase(m: AccountStore, t: string, sample: Account)
    requires EqualsIgnoreCase(t, AccountType(sample))
    ensures forall k :: k in FindByAccountType(m, t) <==> k in m && SameKind(m[k], sample)
  {
    forall k | k in m
      ensures EqualsIgnoreCase(AccountType(m[k]), t) <==> SameKind(m[k], sample)
    {
      if !SameKind(m[k], sample) {
        assert ToUpper(AccountType(m[k]))[0] != ToUpper(AccountType(sample))[0];
      }
    }
  }

  /** The two accounts are of the same variant. */
  predicate SameKind(a: Account, b: Account) {
    && a.variant.Savings? == b.variant.Savings? && a.variant.Current? == b.variant.Current?
    && a.variant.FixedDeposit? == b.variant.FixedDeposit?
  }

  function FindActiveAccounts(m: AccountStore): (r: AccountStore)
    ensures forall k :: k in r <==> k in m && m[k].isActive
    ensures forall k :: k in r ==> r[k] == m[k]
  {
    Where(m, (a: Account) => a.isActive)
  }

  /** findAccountsWithBalanceAbove: strictly above the threshold. */
  function FindWithBalanceAbove(m: AccountStore, threshold: real): (r: AccountStore)
    ensures forall k :: k in r <==> k in m && m[k].balance > threshold
    ensures forall k :: k in r ==> r[k] == m[k]
  {
    Where(m, (a: Account) => a.balance > threshold)
  }

  /** findAccountsWithBalanceBelow: strictly below the threshold. */
  function FindWithBalanceBelow(m: AccountStore, threshold: real): (r: AccountStore)
    ensures forall k :: k in r <==> k in m && m[k].balance < threshold
    ensures forall k :: k in r ==> r[k] == m[k]
  {
    Where(m, (a: Account) => a.balance < threshold)
  }

  /** Above and below the same threshold never overlap, and together miss exactly the
      accounts whose balance equals it. */
  lemma AboveBelowPartition(m: AccountStore, threshold: real)
    ensures FindWithBalanceAbove(m, threshold).Keys !! FindWithBalanceBelow(m, threshold).Keys
    ensures forall k :: k in m ==>
      (k in FindWithBalanceAbove(m, threshold) || k in FindWithBalanceBelow(m, threshold)
       <==> m[k].balance != threshold)
  {
  }

  function Balance(a: Account): real {
    a.balance
  }

  /** getTotalBalance, summed in the map's iteration order. */
  function TotalBalance(m: AccountStore, order: seq<Key>): real
    requires Enumerates(order, m)
  {
    SumWhere(m, order, Always, Balance)
  }

  /** Saving an account changes the total balance by its balance less that of the account it replaces. */
  lemma TotalBalanceAfterSave(m: AccountStore, order: seq<Key>, a: Account, order': seq<Key>)
    requires Enumerates(order, m)
    requires Save(m, Some(a)).Ok? && Enumerates(order', Save(m, Some(a)).value)
    ensures TotalBalance(Save(m, Some(a)).value, order')
            == TotalBalance(m, order) - (if a.accountNumber in m then m[a.accountNumber].balance else 0.0) + a.balance
  {
    SumWherePut(m, order, order', a.accountNumber, a, Always, Balance);
  }

  /** The total does not depend on the iteration order. */
  lemma TotalBalanceIndependentOfOrder(m: AccountStore, o1: seq<Key>, o2: seq<Key>)
    requires Enumerates(o1, m) && Enumerates(o2, m)
    ensures TotalBalance(m, o1) == TotalBalance(m, o2)
  {
    SumWhereIndependentOfOrder(m, o1, o2, Always, Balance);
  }

  /** delete */
  function Delete(m: AccountStore, accountNumber: string): (r: AccountStore)
    ensures accountNumber !in r && r.Keys == m.Keys - {accountNumber}
    ensures forall k :: k in r ==> r[k] == m[k]
  {
    Remove(m, accountNumber)
  }

  /** count: the number of stored accounts, which deleting a stored number lowers by one. */
  function Count(m: AccountStore): (n: nat)
    ensures n == |m.Keys|
  {
    |m|
  }

  lemma DeleteCount(m: AccountStore, accountNumber: string)
    ensures Count(Delete(m, accountNumber)) == if accountNumber in m then Count(m) - 1 else Count(m)
  {
    var r := Delete(m, accountNumber);
    if accountNumber in m {
      assert m.Keys == r.Keys + {accountNumber};
    } else {
      assert r.Keys == m.Keys;
    }
  }
}

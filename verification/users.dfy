/** The sealed User hierarchy: Customer, Teller, BankManager and Administrator share an
    id, a name, an email, a stored password hash and a creation date. */
module Users {
  import opened Failures
  import opened Calendar
  import opened Text

  /** The four permitted subclasses with their own fields. A customer's accounts are
      held by account number. */
  datatype Role =
    | Customer(accounts: seq<string>, phoneNumber: Option<string>, address: Option<string>)
    | Teller(branchCode: Option<string>)
    | BankManager(branch: Option<string>)
    | Administrator

  datatype User = User(
    userId: string,
    name: string,
    email: Option<string>,
    password: string,
    createdDate: Date,
    role: Role)

  /** getRole */
  function RoleName(r: Role): string {
    match r
    case Customer(_, _, _) => "Customer"
    case Teller(_) => "Teller"
    case BankManager(_) => "Bank Manager"
    case Administrator => "Administrator"
  }

  /** The four role names are distinct, so getRole tells the subclasses apart. */
  lemma RoleNamesDistinct(a: Role, b: Role)
    ensures RoleName(a) == RoleName(b)
            <==> (a.Customer? == b.Customer? && a.Teller? == b.Teller? && a.BankManager? == b.BankManager?)
  {
    if a.Customer? != b.Customer? || a.Teller? != b.Teller? || a.BankManager? != b.BankManager? {
      assert RoleName(a)[0] != RoleName(b)[0];
    }
  }

  /** hashPassword: the hexadecimal String.hashCode of the password. A null password
      throws a NullPointerException. */
  function HashPassword(password: Option<string>): (r: Result<string>)
    ensures r.Err? <==> password.None?
    ensures r.Err? ==> r.error == NullReference
  {
    match password
    case None => Err(NullReference)
    case Some(p) => Ok(ToHexString(StringHash(p)))
  }

  /** The User constructor: the password is stored hashed and the creation date is today.
      A Customer starts with no accounts. */
  function NewUser(userId: string, name: string, email: Option<string>, password: Option<string>,
                   today: Date, role: Role): (r: Result<User>)
    ensures r.Err? <==> password.None?
    ensures r.Ok? ==> && r.value.userId == userId && r.value.name == name && r.value.email == email
                      && r.value.createdDate == today && r.value.role == role
                      && Ok(r.value.password) == HashPassword(password)
  {
    var hash :- HashPassword(password);
    Ok(User(userId, name, email, hash, today, role))
  }

  /** The six-argument Customer constructor; the four-argument one passes null phone and address. */
  function NewCustomer(userId: string, name: string, email: Option<string>, password: Option<string>,
                       phone: Option<string>, address: Option<string>, today: Date): (r: Result<User>)
    ensures r.Err? <==> password.None?
    ensures r.Ok? ==> r.value.role == Customer([], phone, address) && AccountCount(r.value) == 0
  {
    NewUser(userId, name, email, password, today, Customer([], phone, address))
  }

  /** verifyPassword: the input's hash against the stored one; a null input throws. */
  function VerifyPassword(u: User, input: Option<string>): (r: Result<bool>)
    ensures r.Err? <==> input.None?
    ensures input.Some? ==> (r == Ok(true) <==> HashPassword(input) == Ok(u.password))
  {
    var hash :- HashPassword(input);
    Ok(u.password == hash)
  }

  /** A user built with password p accepts exactly the passwords whose String.hashCode
      equals p's, p among them. */
  lemma VerifyPasswordIffSameHash(userId: string, name: string, email: Option<string>, p: string,
                                  today: Date, role: Role, q: string)
    ensures NewUser(userId, name, email, Some(p), today, role).Ok?
    ensures VerifyPassword(NewUser(userId, name, email, Some(p), today, role).value, Some(p)) == Ok(true)
    ensures VerifyPassword(NewUser(userId, name, email, Some(p), today, role).value, Some(q)) == Ok(true)
            <==> StringHash(q) == StringHash(p)
  {
    ToHexStringInjective(StringHash(q), StringHash(p));
  }

  /** Hash collisions are accepted: "Aa" and "BB" share the hash 2112, so a user whose
      password is "Aa" is also let in with "BB". */
  lemma CollidingPasswordAccepted(userId: string, name: string, email: Option<string>, today: Date, role: Role)
    ensures NewUser(userId, name, email, Some("Aa"), today, role).Ok?
    ensures VerifyPassword(NewUser(userId, name, email, Some("Aa"), today, role).value, Some("BB")) == Ok(true)
  {
    HashOfTwoChars('A', 'a');
    HashOfTwoChars('B', 'B');
    assert "Aa" == ['A', 'a'] && "BB" == ['B', 'B'];
    VerifyPasswordIffSameHash(userId, name, email, "Aa", today, role, "BB");
  }

  /** toString: "id - name (role)". */
  function ToString(u: User): (s: string)
    ensures |s| == |u.userId| + 3 + |u.name| + 2 + |RoleName(u.role)| + 1
    ensures s[..|u.userId|] == u.userId
    ensures s[|u.userId|..|u.userId| + 3] == " - "
    ensures s[|u.userId| + 3..|u.userId| + 3 + |u.name|] == u.name
    ensures s[|u.userId| + 3 + |u.name|..|u.userId| + 5 + |u.name|] == " ("
    ensures s[|u.userId| + 5 + |u.name|..|s| - 1] == RoleName(u.role)
    ensures s[|s| - 1] == ')'
  {
    u.userId + " - " + u.name + " (" + RoleName(u.role) + ")"
  }

  /** Two users with the same id and name print alike exactly when they have the same
      role, so toString tells the subclasses apart. */
  lemma ToStringDeterminesRole(u: User, v: User)
    requires u.userId == v.userId && u.name == v.name
    ensures ToString(u) == ToString(v) <==> RoleName(u.role) == RoleName(v.role)
  {
    if ToString(u) == ToString(v) {
      var k := |u.userId| + 5 + |u.name|;
      assert RoleName(u.role) == ToString(u)[k..|ToString(u)| - 1];
    }
  }

  /** getAccountCount; zero for the roles that hold no accounts. */
  function AccountCount(u: User): nat {
    if u.role.Customer? then |u.role.accounts| else 0
  }

  predicate NoDuplicates(s: seq<string>) {
    forall i, j :: 0 <= i < j < |s| ==> s[i] != s[j]
  }

  /** Customer.addAccount: appended only when not already present. */
  function AddAccount(c: User, accountNumber: string): (r: User)
    requires c.role.Customer?
    ensures r.role.Customer? && r == c.(role := r.role)
    ensures r.role.phoneNumber == c.role.phoneNumber && r.role.address == c.role.address
    ensures accountNumber in r.role.accounts
    ensures forall a :: a in r.role.accounts <==> a in c.role.accounts || a == accountNumber
    ensures AccountCount(r) == AccountCount(c) + (if accountNumber in c.role.accounts then 0 else 1)
    ensures NoDuplicates(c.role.accounts) ==> NoDuplicates(r.role.accounts)
  {
    if accountNumber in c.role.accounts then c
    else c.(role := c.role.(accounts := c.role.accounts + [accountNumber]))
  }

  /** Customer.addAccount of an account object built just before the call. Account has no
      equals of its own, so the list's contains compares identities, and a fresh object is
      never in the list: it is always appended, even when an earlier account has the same
      number. */
  function AddFreshAccount(c: User, accountNumber: string): (r: User)
    requires c.role.Customer?
    ensures r.role.Customer? && r == c.(role := r.role)
    ensures r.role.phoneNumber == c.role.phoneNumber && r.role.address == c.role.address
    ensures |r.role.accounts| == |c.role.accounts| + 1
    ensures r.role.accounts[..|c.role.accounts|] == c.role.accounts && r.role.accounts[|c.role.accounts|] == accountNumber
    ensures AccountCount(r) == AccountCount(c) + 1
  {
    c.(role := c.role.(accounts := c.role.accounts + [accountNumber]))
  }

  /** Two accounts opened under the same number are both listed. */
  lemma SameNumberListedTwice(c: User, accountNumber: string)
    requires c.role.Customer?
    ensures AccountCount(AddFreshAccount(AddFreshAccount(c, accountNumber), accountNumber)) == AccountCount(c) + 2
    ensures AddAccount(AddAccount(c, accountNumber), accountNumber) == AddAccount(c, accountNumber)
  {
  }

  /** Customer.equals against any object: only a Customer with the same user id. */
  predicate CustomerEquals(c: User, other: Option<User>)
    requires c.role.Customer?
  {
    other.Some? && other.value.role.Customer? && other.value.userId == c.userId
  }

  /** Customer.hashCode */
  function CustomerHash(c: User): (h: int)
    requires c.role.Customer?
    ensures -TwoTo31 <= h < TwoTo31
  {
    StringHash(c.userId)
  }

  /** Customer equality is an equivalence that ignores every field but the id, and equal
      customers hash alike. */
  lemma CustomerEqualityLaws(a: User, b: User, c: User)
    requires a.role.Customer? && b.role.Customer? && c.role.Customer?
    ensures CustomerEquals(a, Some(a))
    ensures CustomerEquals(a, Some(b)) <==> CustomerEquals(b, Some(a))
    ensures CustomerEquals(a, Some(b)) && CustomerEquals(b, Some(c)) ==> CustomerEquals(a, Some(c))
    ensures CustomerEquals(a, Some(b)) ==> CustomerHash(a) == CustomerHash(b)
    ensures !CustomerEquals(a, None)
    ensures CustomerEquals(a, Some(a.(name := b.name, email := b.email, role := b.role)))
  {
  }
}

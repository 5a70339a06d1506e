/** UserService: creating users of each role, role and dashboard lookups, statistics,
    and changing a user's email. */
module UserService {
  import opened Failures
  import opened Calendar
  import opened Text
  import opened Stores
  import opened Users
  import UR = UserRepository
  import Validation

  /** null or isBlank(): what ValidationUtil.isValidString refuses. */
  predicate Blank(s: Option<string>) {
    !Validation.IsValidString(s)
  }

  /** createCustomer: name, then email, then password must be non-blank; the new
      customer is saved under "CUST-" + a fresh UUID. */
  function CreateCustomer(m: UR.UserStore, name: Option<string>, email: Option<string>, password: Option<string>,
                          phone: Option<string>, address: Option<string>, uuid: string, today: Date)
    : (r: Step<UR.UserStore, User>)
    ensures Blank(name) ==> r.result == Err(UserOperation("Customer", "create", "Name cannot be null or blank"))
    ensures !Blank(name) && Blank(email) ==> r.result == Err(UserOperation("Customer", "create", "Email cannot be null or blank"))
    ensures !Blank(name) && !Blank(email) && Blank(password)
            ==> r.result == Err(UserOperation("Customer", "create", "Password cannot be null or blank"))
    ensures r.result.Ok? <==> !Blank(name) && !Blank(email) && !Blank(password)
    ensures r.result.Err? ==> r.state == m
    ensures r.result.Ok? ==>
      && r.result.value.userId == "CUST-" + uuid && r.result.value.role == Customer([], phone, address)
      && r.result.value.name == name.value && r.result.value.email == email
      && r.result.value.createdDate == today && VerifyPassword(r.result.value, password) == Ok(true)
      && r.state == m["CUST-" + uuid := r.result.value]
    ensures UR.Keyed(m) ==> UR.Keyed(r.state)
  {
    if Blank(name) then Step(m, Err(UserOperation("Customer", "create", "Name cannot be null or blank")))
    else if Blank(email) then Step(m, Err(UserOperation("Customer", "create", "Email cannot be null or blank")))
    else if Blank(password) then Step(m, Err(UserOperation("Customer", "create", "Password cannot be null or blank")))
    else
      var c := NewCustomer("CUST-" + uuid, name.value, email, password, phone, address, today).value;
      Step(UR.Save(m, Some(c)).value, Ok(c))
  }

  /** The part the staff creators share: build the user with a "<prefix>" + UUID id and save
      it. The constructor hashes the password, so a null one escapes as a NullPointerException. */
  function CreateStaff(m: UR.UserStore, prefix: string, name: string, email: Option<string>, password: Option<string>,
                       role: Role, uuid: string, today: Date): (r: Step<UR.UserStore, User>)
    ensures r.result.Ok? <==> password.Some?
    ensures r.result.Err? ==> r.result.error == NullReference && r.state == m
    ensures r.result.Ok? ==>
      && r.result.value.userId == prefix + uuid && r.result.value.role == role && r.result.value.name == name
      && r.result.value.email == email && r.result.value.createdDate == today
      && VerifyPassword(r.result.value, password) == Ok(true)
      && r.state == m[prefix + uuid := r.result.value]
    ensures UR.Keyed(m) ==> UR.Keyed(r.state)
  {
    match NewUser(prefix + uuid, name, email, password, today, role)
    case Err(e) => Step(m, Err(e))
    case Ok(u) => Step(UR.Save(m, Some(u)).value, Ok(u))
  }

  /** createTeller: only the name and branch code are checked. */
  function CreateTeller(m: UR.UserStore, name: Option<string>, email: Option<string>, branchCode: Option<string>,
                        password: Option<string>, uuid: string, today: Date): (r: Step<UR.UserStore, User>)
    ensures Blank(name) ==> r.result == Err(UserOperation("Teller", "create", "Name cannot be null or blank"))
    ensures !Blank(name) && Blank(branchCode)
            ==> r.result == Err(UserOperation("Teller", "create", "Branch code cannot be null or blank"))
    ensures r.result.Ok? <==> !Blank(name) && !Blank(branchCode) && password.Some?
    ensures r.result.Err? ==> r.state == m
    ensures r.result.Ok? ==>
      && r.result.value.userId == "TELLER-" + uuid && r.result.value.role == Teller(branchCode)
      && r.result.value.name == name.value && r.result.value.email == email && r.result.value.createdDate == today
      && VerifyPassword(r.result.value, password) == Ok(true)
      && r.state == m["TELLER-" + uuid := r.result.value]
    ensures UR.Keyed(m) ==> UR.Keyed(r.state)
  {
    if Blank(name) then Step(m, Err(UserOperation("Teller", "create", "Name cannot be null or blank")))
    else if Blank(branchCode) then Step(m, Err(UserOperation("Teller", "create", "Branch code cannot be null or blank")))
    else CreateStaff(m, "TELLER-", name.value, email, password, Teller(branchCode), uuid, today)
  }

  /** createBankManager: only the name and branch are checked. */
  function CreateBankManager(m: UR.UserStore, name: Option<string>, email: Option<string>, branch: Option<string>,
                             password: Option<string>, uuid: string, today: Date): (r: Step<UR.UserStore, User>)
    ensures Blank(name) ==> r.result == Err(UserOperation("Manager", "create", "Name cannot be null or blank"))
    ensures !Blank(name) && Blank(branch)
            ==> r.result == Err(UserOperation("Manager", "create", "Branch cannot be null or blank"))
    ensures r.result.Ok? <==> !Blank(name) && !Blank(branch) && password.Some?
    ensures r.result.Err? ==> r.state == m
    ensures r.result.Ok? ==>
      && r.result.value.userId == "MGR-" + uuid && r.result.value.role == BankManager(branch)
      && r.result.value.name == name.value && r.result.value.email == email && r.result.value.createdDate == today
      && VerifyPassword(r.result.value, password) == Ok(true)
      && r.state == m["MGR-" + uuid := r.result.value]
    ensures UR.Keyed(m) ==> UR.Keyed(r.state)
  {
    if Blank(name) then Step(m, Err(UserOperation("Manager", "create", "Name cannot be null or blank")))
    else if Blank(branch) then Step(m, Err(UserOperation("Manager", "create", "Branch cannot be null or blank")))
    else CreateStaff(m, "MGR-", name.value, email, password, BankManager(branch), uuid, today)
  }

  /** createAdministrator: only the name is checked. */
  function CreateAdministrator(m: UR.UserStore, name: Option<string>, email: Option<string>,
                               password: Option<string>, uuid: string, today: Date): (r: Step<UR.UserStore, User>)
    ensures Blank(name) ==> r.result == Err(UserOperation("Admin", "create", "Name cannot be null or blank"))
    ensures r.result.Ok? <==> !Blank(name) && password.Some?
    ensures r.result.Err? ==> r.state == m
    ensures r.result.Ok? ==>
      && r.result.value.userId == "ADMIN-" + uuid && r.result.value.role == Administrator
      && r.result.value.name == name.value && r.result.value.email == email && r.result.value.createdDate == today
      && VerifyPassword(r.result.value, password) == Ok(true)
      && r.state == m["ADMIN-" + uuid := r.result.value]
    ensures UR.Keyed(m) ==> UR.Keyed(r.state)
  {
    if Blank(name) then Step(m, Err(UserOperation("Admin", "create", "Name cannot be null or blank")))
    else CreateStaff(m, "ADMIN-", name.value, email, password, Administrator, uuid, today)
  }

  /** String concatenation and %s print null as "null". */
  function Display(s: Option<string>): string {
    if s.None? then "null" else s.value
  }

  const NotFound: string := "User not found"

  /** getUserRole */
  function GetUserRole(m: UR.UserStore, userId: string): (s: string)
    ensures userId !in m ==> s == NotFound
    ensures userId in m ==> StartsWith(s, RoleName(m[userId].role) + ": " + RoleName(m[userId].role) + " | ")
    ensures userId in m ==>
      var u := m[userId];
      var k := 2 * |RoleName(u.role)| + 5;
      && (u.role.Customer? ==>
            s[k..] == "Accounts: " + NatToString(AccountCount(u)) && DecimalValue(s[k + 10..]) == AccountCount(u))
      && (u.role.Teller? ==> s[k..] == "Branch: " + Display(u.role.branchCode))
      && (u.role.BankManager? ==> s[k..] == "Branch: " + Display(u.role.branch))
      && (u.role.Administrator? ==> s[k..] == "Full System Access")
  {
    match UR.FindById(m, userId)
    case None => NotFound
    case Some(u) =>
      var head := RoleName(u.role) + ": " + RoleName(u.role) + " | ";
      var tail := match u.role
        case Customer(accounts, _, _) =>
          (NatToStringRoundTrip(|accounts|);
           assert ("Accounts: " + NatToString(|accounts|))[10..] == NatToString(|accounts|);
           "Accounts: " + NatToString(|accounts|))
        case Teller(code) => "Branch: " + Display(code)
        case BankManager(branch) => "Branch: " + Display(branch)
        case Administrator => "Full System Access";
      assert (head + tail)[..|head|] == head;
      assert (head + tail)[|head|..] == tail;
      head + tail
  }

  /** The heading of each role's dashboard. */
  function DashboardTitle(r: Role): string {
    match r
    case Customer(_, _, _) => "Customer"
    case Teller(_) => "Teller"
    case BankManager(_) => "Manager"
    case Administrator => "Administrator"
  }

  /** getUserDashboard: a heading with the id, name and email lines, then the role's own
      lines (see DashboardLines). */
  function GetUserDashboard(m: UR.UserStore, userId: string): (s: string)
    ensures userId !in m ==> s == NotFound
    ensures userId in m ==>
      var u := m[userId];
      StartsWith(s, "=== " + DashboardTitle(u.role) + " Dashboard ===\nID: " + u.userId + "\nName: " + u.name
                    + "\nEmail: " + Display(u.email) + "\n")
    ensures userId in m ==> s[|DashboardHead(m[userId])|..] == DashboardRoleLines(m[userId].role)
  {
    match UR.FindById(m, userId)
    case None => NotFound
    case Some(u) =>
      var head := DashboardHead(u);
      var tail := DashboardRoleLines(u.role);
      Split(head, tail);
      head + tail
  }

  /** The id, name and email lines under the dashboard's heading. */
  function DashboardHead(u: User): (h: string)
    ensures |h| == |DashboardTitle(u.role)| + |u.userId| + |u.name| + |Display(u.email)| + 39
  {
    "=== " + DashboardTitle(u.role) + " Dashboard ===\nID: " + u.userId + "\nName: " + u.name
    + "\nEmail: " + Display(u.email) + "\n"
  }

  /** The lines each role adds to its dashboard. */
  function DashboardRoleLines(r: Role): string {
    match r
    case Customer(accounts, _, _) => "Accounts: " + NatToString(|accounts|) + "\nRole: " + RoleName(r)
    case Teller(code) => "Branch: " + Display(code) + "\nRole: " + RoleName(r)
    case BankManager(branch) => "Branch: " + Display(branch) + "\nRole: " + RoleName(r)
    case Administrator => "Role: " + RoleName(r) + "\nAccess Level: FULL"
  }

  /** What follows the heading on each role's dashboard: a customer's account count, which
      reads back as the number of accounts, a branch for staff, full access for an
      administrator; every role but the administrator ends with its role line. */
  lemma DashboardLines(r: Role)
    ensures r.Customer? ==> DashboardRoleLines(r) == "Accounts: " + NatToString(|r.accounts|) + "\nRole: Customer"
    ensures r.Customer? ==> DecimalValue(DashboardRoleLines(r)[10..|DashboardRoleLines(r)| - 15]) == |r.accounts|
    ensures r.Teller? ==> DashboardRoleLines(r) == "Branch: " + Display(r.branchCode) + "\nRole: Teller"
    ensures r.BankManager? ==> DashboardRoleLines(r) == "Branch: " + Display(r.branch) + "\nRole: Bank Manager"
    ensures r.Administrator? ==> DashboardRoleLines(r) == "Role: Administrator\nAccess Level: FULL"
  {
    match r
    case Customer(accounts, _, _) =>
      assert "\nRole: " + "Customer" == "\nRole: Customer";
      Associate("Accounts: " + NatToString(|accounts|), "\nRole: ", "Customer");
      AccountsLineReads(DashboardRoleLines(r), |accounts|);
    case Teller(code) =>
      assert "\nRole: " + "Teller" == "\nRole: Teller";
      Associate("Branch: " + Display(code), "\nRole: ", "Teller");
    case BankManager(branch) =>
      assert "\nRole: " + "Bank Manager" == "\nRole: Bank Manager";
      Associate("Branch: " + Display(branch), "\nRole: ", "Bank Manager");
    case Administrator =>
      assert "Role: " + "Administrator" + "\nAccess Level: FULL" == "Role: Administrator\nAccess Level: FULL";
  }

  /** The digits in a customer's account line read back as the count. */
  lemma AccountsLineReads(line: string, n: nat)
    requires line == "Accounts: " + NatToString(n) + "\nRole: Customer"
    ensures DecimalValue(line[10..|line| - 15]) == n
  {
    NatToStringRoundTrip(n);
    assert line[10..|line| - 15] == NatToString(n);
  }

  lemma Associate(a: string, b: string, c: string)
    ensures a + b + c == a + (b + c)
  {
  }

  lemma Split(h: string, t: string)
    ensures (h + t)[..|h|] == h && (h + t)[|h|..] == t
  {
  }

  datatype UserStatistics = UserStatistics(totalUsers: nat, customerCount: nat, tellerCount: nat,
                                           managerCount: nat, adminCount: nat)

  predicate IsTeller(u: User) {
    u.role.Teller?
  }

  predicate IsManager(u: User) {
    u.role.BankManager?
  }

  predicate IsAdmin(u: User) {
    u.role.Administrator?
  }

  /** The four role counts over any sequence of keys add up to its length. */
  lemma {:induction false} RoleCountsAddUp(m: UR.UserStore, keys: seq<Key>)
    requires AllIn(keys, m)
    ensures CountWhere(m, keys, UR.IsCustomer) + CountWhere(m, keys, IsTeller)
            + CountWhere(m, keys, IsManager) + CountWhere(m, keys, IsAdmin) == |keys|
    decreases |keys|
  {
    if keys != [] {
      RoleCountsAddUp(m, keys[1..]);
    }
  }

  /** getUserStatistics: each role's count is the size of its filtered view, and because
      the hierarchy is sealed the four counts add up to the total. */
  function GetUserStatistics(m: UR.UserStore, order: seq<Key>): (s: UserStatistics)
    requires Enumerates(order, m)
    ensures s.totalUsers == |m|
    ensures s.customerCount == |UR.FindAllCustomers(m)|
    ensures s.tellerCount == |Where(m, IsTeller)| && s.managerCount == |Where(m, IsManager)|
    ensures s.adminCount == |Where(m, IsAdmin)|
    ensures s.customerCount + s.tellerCount + s.managerCount + s.adminCount == s.totalUsers
  {
    EnumerationSize(m, order);
    CountWhereIsSizeOfWhere(m, order, UR.IsCustomer);
    CountWhereIsSizeOfWhere(m, order, IsTeller);
    CountWhereIsSizeOfWhere(m, order, IsManager);
    CountWhereIsSizeOfWhere(m, order, IsAdmin);
    RoleCountsAddUp(m, order);
    UserStatistics(|order|, CountWhere(m, order, UR.IsCustomer), CountWhere(m, order, IsTeller),
                   CountWhere(m, order, IsManager), CountWhere(m, order, IsAdmin))
  }

  /** updateUserEmail as the source writes it: the user is rebuilt through its constructor,
      which hashes the stored hash again, resets the creation date, and gives a Customer an
      empty account list. */
  function UpdateUserEmailAsWritten(m: UR.UserStore, userId: string, newEmail: Option<string>, today: Date)
    : (r: Step<UR.UserStore, ()>)
    ensures userId !in m ==> r.result == Err(UserOperation(userId, "update", "User not found"))
    ensures userId in m && Blank(newEmail) ==> r.result == Err(UserOperation(userId, "update", "Email cannot be blank"))
    ensures r.result.Ok? <==> userId in m && !Blank(newEmail)
    ensures r.result.Err? ==> r.state == m
    ensures r.state.Keys == m.Keys
    ensures UR.Keyed(m) && r.result.Ok? ==>
      && r.state == m[userId := r.state[userId]]
      && r.state[userId].userId == userId && r.state[userId].name == m[userId].name
      && r.state[userId].email == newEmail && r.state[userId].createdDate == today
      && r.state[userId].password == HashPassword(Some(m[userId].password)).value
      && (m[userId].role.Customer? ==> AccountCount(r.state[userId]) == 0)
      && (!m[userId].role.Customer? ==> r.state[userId].role == m[userId].role)
  {
    match UR.FindById(m, userId)
    case None => Step(m, Err(UserOperation(userId, "update", "User not found")))
    case Some(u) =>
      if Blank(newEmail) then Step(m, Err(UserOperation(userId, "update", "Email cannot be blank")))
      else
        var role := if u.role.Customer? then Customer([], u.role.phoneNumber, u.role.address) else u.role;
        var rebuilt := NewUser(u.userId, u.name, newEmail, Some(u.password), today, role).value;
        Step(UR.Update(m, Some(rebuilt)), Ok(()))
  }

  /** The rebuilt customer no longer accepts its own password and has lost its accounts:
      a customer created with password "a" (stored as "61") is stored with the hash of "61"
      after an email change. */
  lemma UpdateEmailLocksOutUser(today: Date)
    ensures var c := NewCustomer("CUST-1", "Ann", Some("a@x"), Some("a"), None, None, today).value;
            var c1 := AddAccount(c, "ACC1");
            var r := UpdateUserEmailAsWritten(map["CUST-1" := c1], "CUST-1", Some("b@x"), today);
            && VerifyPassword(c1, Some("a")) == Ok(true)
            && r.result.Ok?
            && VerifyPassword(r.state["CUST-1"], Some("a")) == Ok(false)
            && AccountCount(c1) == 1 && AccountCount(r.state["CUST-1"]) == 0
  {
    var c := NewCustomer("CUST-1", "Ann", Some("a@x"), Some("a"), None, None, today).value;
    var c1 := AddAccount(c, "ACC1");
    HashOfA();
    assert c.password == "61";
    assert c1.password == "61" && c1.role.accounts == ["ACC1"];
    assert !Blank(Some("b@x")) by {
      assert !IsWhitespace("b@x"[0]);
    }
    var rebuilt := NewUser("CUST-1", "Ann", Some("b@x"), Some("61"), today, Customer([], None, None)).value;
    assert rebuilt.password == ToHexString(1723);
    var r := UpdateUserEmailAsWritten(map["CUST-1" := c1], "CUST-1", Some("b@x"), today);
    assert r.state["CUST-1"] == rebuilt;
    ToHexStringInjective(1723, 97);
  }

  /** The hashes behind UpdateEmailLocksOutUser: "a" hashes to 97, printed "61", and "61" hashes to 1723. */
  lemma HashOfA()
    ensures StringHash("a") == 97 && ToHexString(97) == "61" && StringHash("61") == 1723
  {
    HashOfOneChar('a');
    HashOfTwoChars('6', '1');
    assert "a" == ['a'] && "61" == ['6', '1'];
    HexOf97();
  }

  lemma HexOf97()
    ensures ToHexString(97) == "61"
  {
    assert HexDigits(6) == "6";
    assert HexDigits(97) == HexDigits(6) + [HexDigit(1)];
  }

  /** updateUserEmail as intended: only the email changes. */
  function UpdateUserEmail(m: UR.UserStore, userId: string, newEmail: Option<string>): (r: Step<UR.UserStore, ()>)
    ensures userId !in m ==> r.result == Err(UserOperation(userId, "update", "User not found"))
    ensures userId in m && Blank(newEmail) ==> r.result == Err(UserOperation(userId, "update", "Email cannot be blank"))
    ensures r.result.Ok? <==> userId in m && !Blank(newEmail)
    ensures r.result.Err? ==> r.state == m
    ensures r.state.Keys == m.Keys
    ensures UR.Keyed(m) ==> UR.Keyed(r.state)
  {
    match UR.FindById(m, userId)
    case None => Step(m, Err(UserOperation(userId, "update", "User not found")))
    case Some(u) =>
      if Blank(newEmail) then Step(m, Err(UserOperation(userId, "update", "Email cannot be blank")))
      else Step(UR.Update(m, Some(u.(email := newEmail))), Ok(()))
  }

  /** After the intended update the user keeps its password, accounts, role and creation
      date; its email is the new one; every other user is untouched. */
  lemma UpdateUserEmailKeepsUser(m: UR.UserStore, userId: string, newEmail: Option<string>, password: Option<string>)
    requires UR.Keyed(m) && UpdateUserEmail(m, userId, newEmail).result.Ok?
    ensures var m' := UpdateUserEmail(m, userId, newEmail).state;
            && m'[userId] == m[userId].(email := newEmail)
            && VerifyPassword(m'[userId], password) == VerifyPassword(m[userId], password)
            && AccountCount(m'[userId]) == AccountCount(m[userId])
            && forall k :: k in m && k != userId ==> m'[k] == m[k]
  {
  }

  /** deleteUser */
  function DeleteUser(m: UR.UserStore, userId: string): (r: UR.UserStore)
    ensures userId !in r && r.Keys == m.Keys - {userId}
    ensures forall k :: k in r ==> r[k] == m[k]
  {
    UR.Delete(m, userId)
  }
}

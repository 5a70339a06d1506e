/** UserRepository: users keyed by user id. */
module UserRepository {
  import opened Failures
  import opened Text
  import opened Stores
  import opened Users

  type UserStore = map<Key, User>

  /** Every entry is filed under its own user id. */
  ghost predicate Keyed(m: UserStore) {
    forall k :: k in m ==> m[k].userId == k
  }

  /** save: a null user is refused; otherwise the user is put under its id. */
  function Save(m: UserStore, user: Option<User>): (r: Result<UserStore>)
    ensures r.Err? <==> user.None?
    ensures r.Err? ==> r.error == IllegalArgument("User cannot be null")
    ensures r.Ok? ==> r.value.Keys == m.Keys + {user.value.userId} && r.value[user.value.userId] == user.value
    ensures r.Ok? ==> forall k :: k in m && k != user.value.userId ==> r.value[k] == m[k]
    ensures r.Ok? && Keyed(m) ==> Keyed(r.value)
  {
    match user
    case None => Err(IllegalArgument("User cannot be null"))
    case Some(u) => Ok(Put(m, u.userId, u))
  }

  /** update: only a user whose id is already stored is replaced. */
  function Update(m: UserStore, user: Option<User>): (r: UserStore)
    ensures r.Keys == m.Keys
    ensures user.None? || user.value.userId !in m ==> r == m
    ensures user.Some? && user.value.userId in m ==> r[user.value.userId] == user.value
    ensures forall k :: k in m && (user.None? || k != user.value.userId) ==> r[k] == m[k]
    ensures Keyed(m) ==> Keyed(r)
  {
    match user
    case None => m
    case Some(u) => Replace(m, u.userId, u)
  }

  /** findById: null when absent. */
  function FindById(m: UserStore, userId: string): (r: Option<User>)
    ensures r.Some? <==> userId in m
    ensures r.Some? ==> r.value == m[userId]
  {
    if userId in m then Some(m[userId]) else None
  }

  /** String.equalsIgnoreCase, which is false against null. */
  predicate MatchesIgnoringCase(s: string, target: Option<string>) {
    target.Some? && EqualsIgnoreCase(s, target.value)
  }

  /** findByName: case-insensitive; a null name matches nobody. */
  function FindByName(m: UserStore, name: Option<string>): (r: UserStore)
    ensures forall k :: k in r <==> k in m && name.Some? && ToUpper(m[k].name) == ToUpper(name.value)
    ensures forall k :: k in r ==> r[k] == m[k]
  {
    Where(m, (u: User) => MatchesIgnoringCase(u.name, name))
  }

  /** findByEmail: users without an email are skipped; the match is case-insensitive. */
  function FindByEmail(m: UserStore, email: Option<string>): (r: UserStore)
    ensures forall k :: k in r <==> k in m && m[k].email.Some? && email.Some?
                                     && ToUpper(m[k].email.value) == ToUpper(email.value)
    ensures forall k :: k in r ==> r[k] == m[k]
  {
    Where(m, (u: User) => u.email.Some? && MatchesIgnoringCase(u.email.value, email))
  }

  /** A name differing only in ASCII letter case finds the same users. */
  lemma FindByNameIgnoresCase(m: UserStore, name: string)
    ensures FindByName(m, Some(ToLower(name))) == FindByName(m, Some(name))
    ensures FindByName(m, Some(ToUpper(name))) == FindByName(m, Some(name))
  {
    assert ToUpper(ToLower(name)) == ToUpper(name) by {
      forall i | 0 <= i < |name|
        ensures ToUpper(ToLower(name))[i] == ToUpper(name)[i]
      {
      }
    }
    assert ToUpper(ToUpper(name)) == ToUpper(name);
  }

  predicate IsCustomer(u: User) {
    u.role.Customer?
  }

  /** findAllCustomers */
  function FindAllCustomers(m: UserStore): (r: UserStore)
    ensures forall k :: k in r <==> k in m && m[k].role.Customer?
    ensures forall k :: k in r ==> r[k] == m[k]
  {
    Where(m, IsCustomer)
  }

  /** delete */
  function Delete(m: UserStore, userId: string): (r: UserStore)
    ensures userId !in r && r.Keys == m.Keys - {userId}
    ensures forall k :: k in r ==> r[k] == m[k]
  {
    Remove(m, userId)
  }
}

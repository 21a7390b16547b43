/** Staff accounts: the provisioning that `save()` of Employee, UniversityManager and
    OrganManager performs on first insert, the login serializer, the token role claim and
    logout.

 The three entity kinds share one save routine, differing only in how the login name is
 formed and in the group the new user joins. Password hashing and checking are opaque
 functions passed in; a hash produced by the default hasher starts with "pbkdf2_".
 Entity row and user row are written in two separate steps with no transaction around
 them, so a clash on the user name leaves a saved entity without a user.
 */
module Accounts {
  import opened Wrappers
  import opened Text
  import opened Bilingual

  const HashPrefix: string := "pbkdf2_"

  datatype AccountKind = EmployeeKind | UniversityManagerKind | OrganManagerKind

  /** The identifier a staff entity logs in with: `employee_id` text or integer `manager_id`. */
  datatype LoginName = EmployeeId(id: string) | ManagerId(number: int)

  /** An Employee, UniversityManager or OrganManager row, reduced to what provisioning uses. */
  datatype Account = Account(
    kind: AccountKind,
    login: LoginName,
    nameKo: string,
    nameUz: string,
    password: string,
    user: Option<nat>)

  /** A row of the authentication user table; `groups` lists its group names in the order of
      the groups' primary keys, which is how an unordered `groups` queryset is read. */
  datatype AuthUser = AuthUser(
    id: nat,
    username: string,
    firstName: string,
    password: string,
    groups: seq<string>,
    isActive: bool,
    isStaff: bool)

  datatype Store = Store(accounts: seq<Account>, users: seq<AuthUser>)

  /** The group each kind's user joins. */
  function GroupOf(k: AccountKind): (g: string)
    ensures g == "upsight_staff" <==> k == EmployeeKind
    ensures g == "university_staff" <==> k == UniversityManagerKind
    ensures g == "organ_staff" <==> k == OrganManagerKind
  {
    match k
    case EmployeeKind => "upsight_staff"
    case UniversityManagerKind => "university_staff"
    case OrganManagerKind => "organ_staff"
  }

  /** The user name: `employee_id`, or the manager number written out in decimal. */
  function Username(l: LoginName): (r: string)
    ensures l.EmployeeId? ==> r == l.id
    ensures l.ManagerId? ==> ParseInt(r) == Some(l.number)
  {
    match l
    case EmployeeId(id) => id
    case ManagerId(n) =>
      ParseIntOfIntToString(n);
      IntToString(n)
  }

  /** The password column after a first save: hashed unless empty or already a hash. */
  function StoredPassword(raw: string, hash: string -> string): (r: string)
    ensures raw == "" ==> r == raw
    ensures StartsWith(raw, HashPrefix) ==> r == raw
    ensures raw != "" && !StartsWith(raw, HashPrefix) ==> r == hash(raw)
  {
    if raw != "" && !StartsWith(raw, HashPrefix) then hash(raw) else raw
  }

  /** With a hasher whose output carries the prefix, hashing on save happens at most once:
      storing an already stored password leaves it as it is. */
  lemma StoredPasswordIdempotent(raw: string, hash: string -> string)
    requires forall p :: StartsWith(hash(p), HashPrefix)
    ensures StoredPassword(StoredPassword(raw, hash), hash) == StoredPassword(raw, hash)
  {
  }

  /** The unique column of each kind: an insert clashing with a row of the same kind and
      login name is refused by the database. */
  predicate LoginTaken(accounts: seq<Account>, kind: AccountKind, login: LoginName) {
    exists i :: 0 <= i < |accounts| && accounts[i].kind == kind && accounts[i].login == login
  }

  predicate UsernameTaken(users: seq<AuthUser>, name: string) {
    exists i :: 0 <= i < |users| && users[i].username == name
  }

  /** Every account's login name is unique within its kind. */
  predicate UniqueLogins(accounts: seq<Account>) {
    forall i, j :: 0 <= i < j < |accounts| && accounts[i].kind == accounts[j].kind ==>
      accounts[i].login != accounts[j].login
  }

  /** The result of `save()`: the store afterwards, and whether the call raised. */
  datatype SaveResult = SaveResult(store: Store, raised: bool)

  /** `save()` of a new Employee, UniversityManager or OrganManager. */
  function SaveNew(s: Store, a: Account, hash: string -> string): (r: SaveResult)
    ensures LoginTaken(s.accounts, a.kind, a.login) ==> r == SaveResult(s, true)
    ensures !LoginTaken(s.accounts, a.kind, a.login) ==>
              |r.store.accounts| == |s.accounts| + 1 && r.store.accounts[..|s.accounts|] == s.accounts
    ensures !LoginTaken(s.accounts, a.kind, a.login) && UsernameTaken(s.users, Username(a.login)) ==>
              r.raised && r.store.users == s.users &&
              r.store.accounts[|s.accounts|] == a.(password := StoredPassword(a.password, hash), user := None)
    ensures !LoginTaken(s.accounts, a.kind, a.login) && !UsernameTaken(s.users, Username(a.login)) ==>
              !r.raised && r.store.users == s.users + [NewUser(s, a, hash)] &&
              r.store.accounts[|s.accounts|] == a.(password := StoredPassword(a.password, hash), user := Some(|s.users|))
  {
    if LoginTaken(s.accounts, a.kind, a.login) then SaveResult(s, true)
    else
      var saved := a.(password := StoredPassword(a.password, hash), user := None);
      if UsernameTaken(s.users, Username(a.login)) then
        SaveResult(Store(s.accounts + [saved], s.users), true)
      else
        var u := NewUser(s, a, hash);
        SaveResult(Store(s.accounts + [saved.(user := Some(u.id))], s.users + [u]), false)
  }

  /** The user `User.objects.create` makes for a new account, already in its group. */
  function NewUser(s: Store, a: Account, hash: string -> string): (u: AuthUser)
    ensures u.id == |s.users| && u.username == Username(a.login)
    ensures u.firstName == a.nameKo || u.firstName == a.nameUz
    ensures a.nameKo != "" ==> u.firstName == a.nameKo
    ensures u.password == StoredPassword(a.password, hash)
    ensures u.groups == [GroupOf(a.kind)] && u.isActive && u.isStaff
  {
    AuthUser(|s.users|, Username(a.login), Resolve(a.nameKo, a.nameUz),
             StoredPassword(a.password, hash), [GroupOf(a.kind)], true, true)
  }

  /** Another row of the same kind already has this login name. */
  predicate LoginTakenByOther(accounts: seq<Account>, index: nat, kind: AccountKind, login: LoginName) {
    exists i :: 0 <= i < |accounts| && i != index && accounts[i].kind == kind && accounts[i].login == login
  }

  /** `save()` of a row that already exists: the UPDATE is refused by the unique column when
      the login name now clashes with another row; otherwise the row is written as given,
      the password is not hashed again and no user is created. */
  function SaveExisting(s: Store, index: nat, a: Account): (r: SaveResult)
    requires index < |s.accounts|
    ensures r.store.users == s.users
    ensures r.raised <==> LoginTakenByOther(s.accounts, index, a.kind, a.login)
    ensures r.raised ==> r.store == s
    ensures !r.raised ==> |r.store.accounts| == |s.accounts| && r.store.accounts[index] == a
    ensures !r.raised ==> forall i :: 0 <= i < |s.accounts| && i != index ==> r.store.accounts[i] == s.accounts[i]
  {
    if LoginTakenByOther(s.accounts, index, a.kind, a.login) then SaveResult(s, true)
    else SaveResult(Store(s.accounts[index := a], s.users), false)
  }

  /** Saving an existing row keeps login names unique. */
  lemma SaveExistingKeepsUniqueLogins(s: Store, index: nat, a: Account)
    requires index < |s.accounts| && UniqueLogins(s.accounts)
    ensures UniqueLogins(SaveExisting(s, index, a).store.accounts)
  {
    var r := SaveExisting(s, index, a).store.accounts;
    forall i, j | 0 <= i < j < |r| && r[i].kind == r[j].kind
      ensures r[i].login != r[j].login
    {
      if i == index && !LoginTakenByOther(s.accounts, index, a.kind, a.login) {
        assert r[j] == s.accounts[j];
      } else if j == index && !LoginTakenByOther(s.accounts, index, a.kind, a.login) {
        assert r[i] == s.accounts[i];
      }
    }
  }

  /** A successful first save keeps login names unique. */
  lemma SaveNewKeepsUniqueLogins(s: Store, a: Account, hash: string -> string)
    requires UniqueLogins(s.accounts)
    ensures UniqueLogins(SaveNew(s, a, hash).store.accounts)
  {
    var r := SaveNew(s, a, hash).store.accounts;
    if !LoginTaken(s.accounts, a.kind, a.login) {
      forall i, j | 0 <= i < j < |r| && r[i].kind == r[j].kind
        ensures r[i].login != r[j].login
      {
        if j == |s.accounts| {
          assert r[i] == s.accounts[i];
        } else {
          assert r[i] == s.accounts[i] && r[j] == s.accounts[j];
        }
      }
    }
  }

  /** Exactly one user is created per successful first save, and none on failure. */
  lemma SaveNewCreatesOneUser(s: Store, a: Account, hash: string -> string)
    ensures var r := SaveNew(s, a, hash);
            |r.store.users| == |s.users| + (if r.raised then 0 else 1)
  {
  }

  // ---------------------------------------------------------------------------
  // Login, token claims and logout

  /** `Employee.objects.get(employee_id=...)`: the employee row with this id, if any. */
  function FindEmployee(accounts: seq<Account>, id: string): (r: Option<Account>)
    ensures r.Some? <==> LoginTaken(accounts, EmployeeKind, EmployeeId(id))
    ensures r.Some? ==> r.value in accounts && r.value.kind == EmployeeKind && r.value.login == EmployeeId(id)
  {
    if |accounts| == 0 then None
    else if accounts[0].kind == EmployeeKind && accounts[0].login == EmployeeId(id) then Some(accounts[0])
    else
      var r := FindEmployee(accounts[1..], id);
      assert LoginTaken(accounts, EmployeeKind, EmployeeId(id)) ==> LoginTaken(accounts[1..], EmployeeKind, EmployeeId(id)) by {
        if LoginTaken(accounts, EmployeeKind, EmployeeId(id)) {
          var i :| 0 <= i < |accounts| && accounts[i].kind == EmployeeKind && accounts[i].login == EmployeeId(id);
          assert i > 0 && accounts[1..][i - 1] == accounts[i];
        }
      }
      assert LoginTaken(accounts[1..], EmployeeKind, EmployeeId(id)) ==> LoginTaken(accounts, EmployeeKind, EmployeeId(id)) by {
        if LoginTaken(accounts[1..], EmployeeKind, EmployeeId(id)) {
          var i :| 0 <= i < |accounts[1..]| && accounts[1..][i].kind == EmployeeKind && accounts[1..][i].login == EmployeeId(id);
          assert accounts[i + 1] == accounts[1..][i];
        }
      }
      r
  }

  /** `EmployeeLoginSerializer.validate`: both fields are `CharField`s, which trim surrounding
      whitespace and refuse a blank value; then an employee with the trimmed id and a trimmed
      password that checks against the stored one. Any failure is the same error. */
  function ValidateLogin(accounts: seq<Account>, id: string, password: string,
                         check: (string, string) -> bool): (r: Option<Account>)
    ensures var i, p := Strip(id, Whitespace), Strip(password, Whitespace);
            r.Some? <==> i != "" && p != "" && FindEmployee(accounts, i).Some? &&
                         check(p, FindEmployee(accounts, i).value.password)
    ensures r.Some? ==> r.value.kind == EmployeeKind && r.value.login == EmployeeId(Strip(id, Whitespace)) &&
                        r.value in accounts
  {
    CheckCredentials(accounts, Strip(id, Whitespace), Strip(password, Whitespace), check)
  }

  /** The credential check proper, on values the fields have already trimmed. */
  function CheckCredentials(accounts: seq<Account>, id: string, password: string,
                            check: (string, string) -> bool): (r: Option<Account>)
    ensures r.Some? <==> id != "" && password != "" && FindEmployee(accounts, id).Some? &&
                         check(password, FindEmployee(accounts, id).value.password)
    ensures r.Some? ==> r.value.kind == EmployeeKind && r.value.login == EmployeeId(id) && r.value in accounts
  {
    if id != "" && password != "" then
      match FindEmployee(accounts, id)
      case Some(e) => if check(password, e.password) then Some(e) else None
      case None => None
    else None
  }

  /** Surrounding whitespace in either field makes no difference to the login check. */
  lemma ValidateLoginTrims(accounts: seq<Account>, id: string, password: string, check: (string, string) -> bool)
    ensures ValidateLogin(accounts, id, password, check) ==
            ValidateLogin(accounts, Strip(id, Whitespace), Strip(password, Whitespace), check)
  {
    StripIdempotent(id, Whitespace);
    StripIdempotent(password, Whitespace);
  }

  /** A password made only of whitespace is blank, so no login succeeds with it. */
  lemma BlankPasswordRejected(accounts: seq<Account>, id: string, password: string, check: (string, string) -> bool)
    requires forall k :: 0 <= k < |password| ==> password[k] in Whitespace
    ensures ValidateLogin(accounts, id, password, check).None?
  {
    StripAll(password, Whitespace);
  }

  /** The `role` claim: the name of the user's first group by primary key (`groups.first()`),
      "user" when it has none. */
  function RoleClaim(groups: seq<string>): (r: string)
    ensures groups != [] ==> r == groups[0] && r in groups
    ensures groups == [] ==> r == "user"
  {
    if groups == [] then "user" else groups[0]
  }

  datatype Claims = Claims(employeeId: string, role: string)

  datatype LoginResult = LoggedIn(claims: Claims) | InvalidCredentials | NoLinkedUser

  function FindUser(users: seq<AuthUser>, id: nat): (r: Option<AuthUser>)
    ensures r.Some? ==> r.value in users && r.value.id == id
    ensures r.None? ==> forall i :: 0 <= i < |users| ==> users[i].id != id
  {
    if |users| == 0 then None
    else if users[0].id == id then Some(users[0])
    else FindUser(users[1..], id)
  }

  /** `employee_login`: validate, then mint claims from the employee's linked user; an
      employee saved without a user cannot be given a token. */
  function EmployeeLogin(s: Store, id: string, password: string, check: (string, string) -> bool): (r: LoginResult)
    ensures r.InvalidCredentials? <==> ValidateLogin(s.accounts, id, password, check).None?
    ensures r.LoggedIn? ==> r.claims.employeeId == Strip(id, Whitespace)
    ensures r.LoggedIn? ==> ValidateLogin(s.accounts, id, password, check).Some? &&
                            ValidateLogin(s.accounts, id, password, check).value.login == EmployeeId(r.claims.employeeId)
    ensures r.LoggedIn? ==> exists u :: u in s.users && r.claims.role == RoleClaim(u.groups)
    ensures var v := ValidateLogin(s.accounts, id, password, check);
            r.LoggedIn? <==> v.Some? && v.value.user.Some? && FindUser(s.users, v.value.user.value).Some?
    ensures var v := ValidateLogin(s.accounts, id, password, check);
            r.LoggedIn? ==> r.claims.role == RoleClaim(FindUser(s.users, v.value.user.value).value.groups)
    ensures var v := ValidateLogin(s.accounts, id, password, check);
            r.NoLinkedUser? <==> v.Some? && (v.value.user.None? || FindUser(s.users, v.value.user.value).None?)
  {
    match ValidateLogin(s.accounts, id, password, check)
    case None => InvalidCredentials
    case Some(e) =>
      match e.user
      case None => NoLinkedUser
      case Some(uid) =>
        match FindUser(s.users, uid)
        case None => NoLinkedUser
        case Some(u) => LoggedIn(Claims(Strip(id, Whitespace), RoleClaim(u.groups)))
  }

  /** A freshly provisioned employee logs in with the password it was created with, and its
      role claim is "upsight_staff". */
  lemma ProvisionThenLogin(s: Store, a: Account, hash: string -> string, check: (string, string) -> bool)
    requires a.kind == EmployeeKind && a.login.EmployeeId? && a.login.id != "" && a.password != ""
    requires Strip(a.login.id, Whitespace) == a.login.id && Strip(a.password, Whitespace) == a.password
    requires !LoginTaken(s.accounts, a.kind, a.login) && !UsernameTaken(s.users, Username(a.login))
    requires forall i :: 0 <= i < |s.users| ==> s.users[i].id < |s.users|
    requires check(a.password, StoredPassword(a.password, hash))
    ensures EmployeeLogin(SaveNew(s, a, hash).store, a.login.id, a.password, check) ==
            LoggedIn(Claims(a.login.id, "upsight_staff"))
  {
    var r := SaveNew(s, a, hash).store;
    var saved := r.accounts[|s.accounts|];
    FindEmployeeAfterInsert(s.accounts, saved);
    assert r.accounts == s.accounts + [saved];
    FindUserAfterInsert(s.users, NewUser(s, a, hash));
  }

  lemma {:induction false} FindEmployeeAfterInsert(accounts: seq<Account>, a: Account)
    requires a.kind == EmployeeKind && a.login.EmployeeId?
    requires !LoginTaken(accounts, a.kind, a.login)
    ensures FindEmployee(accounts + [a], a.login.id) == Some(a)
  {
    if |accounts| > 0 {
      assert (accounts + [a])[1..] == accounts[1..] + [a];
      assert !LoginTaken(accounts[1..], a.kind, a.login);
      FindEmployeeAfterInsert(accounts[1..], a);
    }
  }

  lemma {:induction false} FindUserAfterInsert(users: seq<AuthUser>, u: AuthUser)
    requires forall i :: 0 <= i < |users| ==> users[i].id != u.id
    ensures FindUser(users + [u], u.id) == Some(u)
  {
    if |users| > 0 {
      assert (users + [u])[1..] == users[1..] + [u];
      FindUserAfterInsert(users[1..], u);
    }
  }

  /** `employee_logout`: with a refresh token, the token must be valid and not yet
      blacklisted, and is then blacklisted; without one (absent or empty) logout succeeds
      and changes nothing. */
  function Logout(refresh: Option<string>, valid: string -> bool, blacklist: set<string>): (r: Outcome<set<string>>)
    ensures refresh.None? || refresh.value == "" ==> r == Ok(blacklist)
    ensures refresh.Some? && refresh.value != "" ==>
              (r.BadRequest? <==> !valid(refresh.value) || refresh.value in blacklist)
    ensures r.Ok? ==> blacklist <= r.value
    ensures r.Ok? && refresh.Some? && refresh.value != "" ==> r.value == blacklist + {refresh.value}
    ensures r.Ok? || r.BadRequest?
  {
    match refresh
    case None => Ok(blacklist)
    case Some(t) =>
      if t == "" then Ok(blacklist)
      else if !valid(t) || t in blacklist then BadRequest
      else Ok(blacklist + {t})
  }

  /** A refresh token can log out once: presenting it again is rejected. */
  lemma LogoutTwiceRejected(t: string, valid: string -> bool, blacklist: set<string>)
    requires t != "" && Logout(Some(t), valid, blacklist).Ok?
    ensures Logout(Some(t), valid, Logout(Some(t), valid, blacklist).value).BadRequest?
  {
  }
}

/** The `/login` and `/register` routes. Login checks the credentials against
    the first record with the given username and role, stamps that record's
    last-login time and signs a token with its claims; register validates the
    fields, refuses taken usernames and emails, and appends a record with the
    next id and a hashed password. */
module AuthRoutes {
  import opened Common
  import opened Decimal
  import opened Crypto
  import opened UserTable

  const CredentialsRequired: string := "Username, password, and role are required"
  const InvalidCredentials: string := "Invalid username, password, or role"
  const UserDataCorrupted: string := "User data corrupted"
  const AllFieldsRequired: string := "All fields are required"
  const RoleRejected: string := "Role must be either \"Admin\" or \"General User\""
  const UsernameTaken: string := "Username already exists"
  const EmailTaken: string := "Email already exists"
  const RegistrationFailed: string := "Internal server error during registration"

  /** The body of a successful login. */
  datatype Session = Session(token: string, user: PublicUser, message: string)

  /** The `user` of a successful registration's body. */
  datatype NewAccount = NewAccount(id: nat, username: string, role: string, email: string, fullName: string, createdAt: string)

  predicate LoginFieldsGiven(username: Option<string>, password: Option<string>, role: Option<string>) {
    Given(username) && Given(password) && Given(role)
  }

  /** The part of `/login` that decides, before anything is written: the
      index of the record to log in, or the refusal. */
  function CheckCredentials(users: seq<User>, username: Option<string>, password: Option<string>, role: Option<string>, hasher: Hasher): (r: Outcome<nat>)
    // Missing fields are refused whatever the table holds.
    ensures !LoginFieldsGiven(username, password, role) <==> r == Refused(Refusal(400, CredentialsRequired))
    // Only the first record matching both username and role is ever tried.
    ensures r.Accepted? ==>
      && LoginFieldsGiven(username, password, role)
      && IsFirstMatch(users, ByLogin(username.value, role.value), r.value)
      && users[r.value].password != ""
      && hasher.compare(password.value, users[r.value].password)
    ensures forall i: nat ::
      (&& LoginFieldsGiven(username, password, role)
       && IsFirstMatch(users, ByLogin(username.value, role.value), i)
       && users[i].password != ""
       && hasher.compare(password.value, users[i].password))
      ==> r == Accepted(i)
    // No record with that username and that role: 401, whatever other roles hold.
    ensures LoginFieldsGiven(username, password, role) && (forall i :: 0 <= i < |users| ==> !Matches(users[i], ByLogin(username.value, role.value)))
      ==> r == Refused(Refusal(401, InvalidCredentials))
    // A wrong password for the matched record gets the same 401 as an unknown user.
    ensures forall i: nat ::
      (&& LoginFieldsGiven(username, password, role)
       && IsFirstMatch(users, ByLogin(username.value, role.value), i)
       && users[i].password != ""
       && !hasher.compare(password.value, users[i].password))
      ==> r == Refused(Refusal(401, InvalidCredentials))
    // A matched record without a password hash is reported as corrupted.
    ensures r == Refused(Refusal(500, UserDataCorrupted)) <==>
      LoginFieldsGiven(username, password, role) &&
      exists i: nat :: IsFirstMatch(users, ByLogin(username.value, role.value), i) && users[i].password == ""
    // An unknown user and a wrong password get the very same reply.
    ensures r.Refused? ==>
      r.why in {Refusal(400, CredentialsRequired), Refusal(401, InvalidCredentials), Refusal(500, UserDataCorrupted)}
  {
    if !LoginFieldsGiven(username, password, role) then Refused(Refusal(400, CredentialsRequired))
    else match FindIndex(users, ByLogin(username.value, role.value))
      case None => Refused(Refusal(401, InvalidCredentials))
      case Some(i) =>
        if users[i].password == "" then Refused(Refusal(500, UserDataCorrupted))
        else if !hasher.compare(password.value, users[i].password) then Refused(Refusal(401, InvalidCredentials))
        else Accepted(i)
  }

  /** The greeting of a successful login, built around the full name. */
  function WelcomeMessage(fullName: string): (m: string)
    ensures |m| == |fullName| + 15
    ensures m[..14] == "Welcome back, " && m[14..|m| - 1] == fullName && m[|m| - 1] == '!'
  {
    "Welcome back, " + fullName + "!"
  }

  /** `POST /login`. The clock gives `stamp`, the ISO time stored as the
      last login, and `clock`, the second the token is issued at; `writeOk`
      says whether writing the table back succeeded, which the reply does
      not depend on. */
  method Login(store: UserStore, username: Option<string>, password: Option<string>, role: Option<string>,
               hasher: Hasher, signer: Signer, stamp: string, clock: int, writeOk: bool)
    returns (r: Reply<Session>)
    requires store.Valid()
    modifies store
    ensures store.Valid()
    ensures match CheckCredentials(old(store.users), username, password, role, hasher)
      case Refused(why) => r == Failure(why) && store.users == old(store.users)
      case Accepted(i) =>
        var u := old(store.users)[i].(lastLogin := stamp);
        && r == Success(200, Session(signer.sign(ClaimsOf(u), clock), Project(u), WelcomeMessage(u.fullName)))
        && store.users == if writeOk then old(store.users)[i := u] else old(store.users)
  {
    match CheckCredentials(store.users, username, password, role, hasher)
    case Refused(why) =>
      r := Failure(why);
    case Accepted(i) =>
      var u := store.users[i].(lastLogin := stamp);
      if writeOk {
        ReplaceKeepsIdsUnique(store.users, i, u);
        store.users := store.users[i := u];
      }
      r := Success(200, Session(signer.sign(ClaimsOf(u), clock), Project(u), WelcomeMessage(u.fullName)));
  }

  /** A successful login changes the matched record's last-login time and
      nothing else in the table, and the token carries that record's claims. */
  lemma LoginTouchesOnlyLastLogin(users: seq<User>, i: nat, stamp: string)
    requires i < |users|
    ensures var after := users[i := users[i].(lastLogin := stamp)];
      && |after| == |users|
      && (forall k :: 0 <= k < |users| && k != i ==> after[k] == users[k])
      && after[i].lastLogin == stamp
      && after[i].(lastLogin := users[i].lastLogin) == users[i]
      && ClaimsOf(after[i]) == ClaimsOf(users[i])
  {
  }

  predicate RegistrationFieldsGiven(username: Option<string>, password: Option<string>, email: Option<string>,
                                    fullName: Option<string>, role: Option<string>) {
    Given(username) && Given(password) && Given(email) && Given(fullName) && Given(role)
  }

  /** The closed set of roles registration accepts. */
  predicate IsKnownRole(role: string)
    ensures IsKnownRole(role) <==> role in {AdminRole, GeneralRole}
  {
    role == AdminRole || role == GeneralRole
  }

  /** The part of `/register` that decides whether to refuse, in the order
      the handler checks: fields, role, username, email. */
  function RegistrationCheck(users: seq<User>, username: Option<string>, password: Option<string>, email: Option<string>,
                             fullName: Option<string>, role: Option<string>): (r: Option<Refusal>)
    ensures !RegistrationFieldsGiven(username, password, email, fullName, role) ==> r == Some(Refusal(400, AllFieldsRequired))
    ensures RegistrationFieldsGiven(username, password, email, fullName, role) && !IsKnownRole(role.value)
      ==> r == Some(Refusal(400, RoleRejected))
    ensures RegistrationFieldsGiven(username, password, email, fullName, role) && IsKnownRole(role.value)
      && (exists i :: 0 <= i < |users| && users[i].username == username.value)
      ==> r == Some(Refusal(409, UsernameTaken))
    ensures RegistrationFieldsGiven(username, password, email, fullName, role) && IsKnownRole(role.value)
      && (forall i :: 0 <= i < |users| ==> users[i].username != username.value)
      && (exists i :: 0 <= i < |users| && users[i].email == email.value)
      ==> r == Some(Refusal(409, EmailTaken))
    ensures r.None? <==>
      && RegistrationFieldsGiven(username, password, email, fullName, role)
      && IsKnownRole(role.value)
      && (forall i :: 0 <= i < |users| ==> users[i].username != username.value && users[i].email != email.value)
  {
    if !RegistrationFieldsGiven(username, password, email, fullName, role) then Some(Refusal(400, AllFieldsRequired))
    else if !IsKnownRole(role.value) then Some(Refusal(400, RoleRejected))
    else if FindIndex(users, ByUsername(username.value)).Some? then Some(Refusal(409, UsernameTaken))
    else if FindIndex(users, ByEmail(email.value)).Some? then Some(Refusal(409, EmailTaken))
    else None
  }

  /** The record registration appends: the next id, the digest in place of
      the password, and no last login yet. */
  function NewRecord(users: seq<User>, username: string, digest: string, email: string, fullName: string,
                     role: string, createdAt: string): (u: User)
    requires |users| > 0
    ensures forall i :: 0 <= i < |users| ==> users[i].id < u.id
    // `Math.max` of the existing ids, plus one.
    ensures u.id == MaxId(users) + 1
    ensures u.password == digest && u.lastLogin == "" && u.createdAt == createdAt
    ensures u.username == username && u.role == role && u.email == email && u.fullName == fullName
  {
    User(NextId(users), username, digest, role, email, fullName, createdAt, "")
  }

  /** `POST /register`. `salt` stands for bcrypt's random salt and
      `createdAt` for the clock; `writeOk` says whether writing the table
      back succeeded. The table must not be empty: the handler takes the
      largest existing id, which an empty table does not have. */
  method Register(store: UserStore, username: Option<string>, password: Option<string>, email: Option<string>,
                  fullName: Option<string>, role: Option<string>,
                  hasher: Hasher, salt: nat, createdAt: string, writeOk: bool)
    returns (r: Reply<NewAccount>)
    requires store.Valid() && |store.users| > 0
    modifies store
    ensures store.Valid()
    ensures match RegistrationCheck(old(store.users), username, password, email, fullName, role)
      case Some(why) => r == Failure(why) && store.users == old(store.users)
      case None =>
        var u := NewRecord(old(store.users), username.value, hasher.hash(password.value, salt),
                           email.value, fullName.value, role.value, createdAt);
        if writeOk then
          && store.users == old(store.users) + [u]
          && r == Success(201, NewAccount(u.id, u.username, u.role, u.email, u.fullName, u.createdAt))
        else
          r == Failure(Refusal(500, RegistrationFailed)) && store.users == old(store.users)
    ensures UsernamesDistinct(old(store.users)) ==> UsernamesDistinct(store.users)
    ensures EmailsDistinct(old(store.users)) ==> EmailsDistinct(store.users)
  {
    var refusal := RegistrationCheck(store.users, username, password, email, fullName, role);
    if refusal.Some? {
      r := Failure(refusal.value);
      return;
    }
    var u := NewRecord(store.users, username.value, hasher.hash(password.value, salt),
                       email.value, fullName.value, role.value, createdAt);
    if !writeOk {
      r := Failure(Refusal(500, RegistrationFailed));
      return;
    }
    AppendFreshIdKeepsIdsUnique(store.users, u);
    store.users := store.users + [u];
    r := Success(201, NewAccount(u.id, u.username, u.role, u.email, u.fullName, u.createdAt));
  }

  /** Round trip: right after a registration, logging in with the same
      username, password and role selects the new record, whose claims are
      the registered fields and whose id claim reads back as the next id. */
  lemma RegisteredUserCanLogin(users: seq<User>, username: string, password: string, email: string, fullName: string,
                               role: string, hasher: Hasher, salt: nat, createdAt: string)
    requires HasherContract(hasher) && |users| > 0
    requires RegistrationCheck(users, Some(username), Some(password), Some(email), Some(fullName), Some(role)) == None
    ensures var u := NewRecord(users, username, hasher.hash(password, salt), email, fullName, role, createdAt);
      && CheckCredentials(users + [u], Some(username), Some(password), Some(role), hasher) == Accepted(|users|)
      && ClaimsOf(u).username == username && ClaimsOf(u).role == role
      && ClaimsOf(u).email == email && ClaimsOf(u).fullName == fullName
      && ParseDecimal(ClaimsOf(u).id) == MaxId(users) + 1
  {
    var u := NewRecord(users, username, hasher.hash(password, salt), email, fullName, role, createdAt);
    FindIndexAppendFresh(users, u, ByLogin(username, role));
    assert hasher.hash(password, salt) != "" && hasher.compare(password, hasher.hash(password, salt));
  }

  /** A client of the two handlers: register an account, then log in with
      the same credentials. When the registration is stored, the login
      succeeds for the new record and its token carries the registered
      fields. */
  method RegisterThenLogin(store: UserStore, username: string, password: string, email: string, fullName: string,
                           role: string, hasher: Hasher, signer: Signer, salt: nat, createdAt: string,
                           stamp: string, clock: int)
    returns (registered: Reply<NewAccount>, session: Reply<Session>)
    requires store.Valid() && |store.users| > 0 && HasherContract(hasher)
    modifies store
    ensures registered.Success? ==>
      && session.Success?
      && session.body.user.id == registered.body.id
      && session.body.user.username == username && session.body.user.role == role
      && session.body.user.lastLogin == stamp
      && session.body.token == signer.sign(Claims(IdText(registered.body.id), username, role, email, fullName), clock)
  {
    ghost var before := store.users;
    registered := Register(store, Some(username), Some(password), Some(email), Some(fullName), Some(role),
                           hasher, salt, createdAt, true);
    if registered.Success? {
      RegisteredUserCanLogin(before, username, password, email, fullName, role, hasher, salt, createdAt);
    }
    session := Login(store, Some(username), Some(password), Some(role), hasher, signer, stamp, clock, true);
  }

  /** The logins and the registration the seed accounts are described with:
      admin logs in as Admin, the same password with the other role is
      refused, and the name "admin" cannot be registered again. */
  lemma SeedExamples(hasher: Hasher, salts: seq<nat>, stamps: seq<string>)
    requires HasherContract(hasher) && |salts| == 4 && |stamps| == 4
    ensures var seed := Seed([hasher.hash("admin123", salts[0]), hasher.hash("user123", salts[1]),
                              hasher.hash("user123", salts[2]), hasher.hash("manager123", salts[3])], stamps);
      && CheckCredentials(seed, Some("admin"), Some("admin123"), Some("Admin"), hasher) == Accepted(0)
      && CheckCredentials(seed, Some("admin"), Some("admin123"), Some("General User"), hasher)
         == Refused(Refusal(401, InvalidCredentials))
      && RegistrationCheck(seed, Some("admin"), Some("pw"), Some("new@example.com"), Some("New User"), Some("Admin"))
         == Some(Refusal(409, UsernameTaken))
  {
    var seed := Seed([hasher.hash("admin123", salts[0]), hasher.hash("user123", salts[1]),
                      hasher.hash("user123", salts[2]), hasher.hash("manager123", salts[3])], stamps);
    assert hasher.hash("admin123", salts[0]) != "" && hasher.compare("admin123", hasher.hash("admin123", salts[0]));
    assert IsFirstMatch(seed, ByLogin("admin", "Admin"), 0);
    assert seed[0].username == "admin";
  }
}

/** The user table that every route reads and rewrites: the records, the
    `find`/`findIndex`/`filter` queries the handlers run over them, the id
    allocation of registration, the projections sent to clients, and the
    store object whose contents the handlers change. */
module UserTable {
  import opened Common
  import opened Decimal
  import opened Crypto

  const AdminRole: string := "Admin"
  const GeneralRole: string := "General User"

  /** One user record; `lastLogin` is empty until the first login. */
  datatype User = User(
    id: nat,
    username: string,
    password: string,
    role: string,
    email: string,
    fullName: string,
    createdAt: string,
    lastLogin: string)

  predicate IsAdmin(u: User) {
    u.role == AdminRole
  }

  /** The conditions the handlers search the table by. */
  datatype Query =
    | ById(text: string)                    // u.id[0] === text
    | ByUsername(username: string)          // u.username[0] === username
    | ByEmail(email: string)                // u.email[0] === email
    | ByLogin(username: string, role: string)

  predicate Matches(u: User, q: Query) {
    match q
    case ById(text) => IdText(u.id) == text
    case ByUsername(name) => u.username == name
    case ByEmail(email) => u.email == email
    case ByLogin(name, role) => u.username == name && u.role == role
  }

  /** Record `i` is the first one that satisfies `q`. */
  predicate IsFirstMatch(users: seq<User>, q: Query, i: nat) {
    i < |users| && Matches(users[i], q) && forall j :: 0 <= j < i ==> !Matches(users[j], q)
  }

  /** `users.findIndex(q)`, with None for -1. */
  function FindIndex(users: seq<User>, q: Query): (r: Option<nat>)
    ensures r.Some? ==> IsFirstMatch(users, q, r.value)
    ensures r.None? ==> forall i :: 0 <= i < |users| ==> !Matches(users[i], q)
    decreases |users|
  {
    if |users| == 0 then None
    else if Matches(users[0], q) then Some(0)
    else match FindIndex(users[1..], q)
      case None => None
      case Some(k) => Some(k + 1)
  }

  /** `users.filter(u => u.role[0] === 'Admin').length`. */
  function AdminCount(users: seq<User>): (n: nat)
    ensures n <= |users|
    ensures n == 0 <==> forall i :: 0 <= i < |users| ==> !IsAdmin(users[i])
    decreases |users|
  {
    if |users| == 0 then 0
    else (if IsAdmin(users[0]) then 1 else 0) + AdminCount(users[1..])
  }

  /** `users.splice(i, 1)`: record `i` goes, the others keep their order. */
  function RemoveAt(users: seq<User>, i: nat): (r: seq<User>)
    requires i < |users|
    ensures |r| == |users| - 1
    ensures forall k :: 0 <= k < i ==> r[k] == users[k]
    ensures forall k :: i <= k < |r| ==> r[k] == users[k + 1]
    ensures multiset(r) + multiset{users[i]} == multiset(users)
  {
    assert users == users[..i] + [users[i]] + users[i + 1..];
    users[..i] + users[i + 1..]
  }

  lemma {:induction false} AdminCountConcat(a: seq<User>, b: seq<User>)
    ensures AdminCount(a + b) == AdminCount(a) + AdminCount(b)
    decreases |a|
  {
    if |a| > 0 {
      assert (a + b)[0] == a[0] && (a + b)[1..] == a[1..] + b;
      AdminCountConcat(a[1..], b);
    } else {
      assert a + b == b;
    }
  }

  /** Removing a record lowers the Admin count by one exactly when that
      record is an Admin. */
  lemma {:induction false} AdminCountRemoveAt(users: seq<User>, i: nat)
    requires i < |users|
    ensures AdminCount(RemoveAt(users, i)) == AdminCount(users) - (if IsAdmin(users[i]) then 1 else 0)
  {
    assert users == users[..i] + ([users[i]] + users[i + 1..]);
    AdminCountConcat(users[..i], [users[i]] + users[i + 1..]);
    AdminCountConcat([users[i]], users[i + 1..]);
    AdminCountConcat(users[..i], users[i + 1..]);
  }

  /** Delete refuses exactly when the target is the one Admin left: it is an
      Admin and no other record is. */
  predicate IsLastAdmin(users: seq<User>, i: nat)
    requires i < |users|
    ensures IsLastAdmin(users, i) <==>
      IsAdmin(users[i]) && forall j :: 0 <= j < |users| && j != i ==> !IsAdmin(users[j])
  {
    AdminCountRemoveAt(users, i);
    var rest := RemoveAt(users, i);
    assert forall j :: 0 <= j < |users| && j != i ==> users[j] == rest[if j < i then j else j - 1];
    AdminCount(users) == 1 && IsAdmin(users[i])
  }

  /** Whenever delete goes ahead, a table that had an Admin still has one. */
  lemma {:induction false} DeleteKeepsAnAdmin(users: seq<User>, i: nat)
    requires i < |users| && AdminCount(users) > 0 && !IsLastAdmin(users, i)
    ensures AdminCount(RemoveAt(users, i)) > 0
  {
    AdminCountRemoveAt(users, i);
  }

  /** The largest id in a non-empty table, the `Math.max` of registration. */
  function MaxId(users: seq<User>): (m: nat)
    requires |users| > 0
    ensures forall i :: 0 <= i < |users| ==> users[i].id <= m
    ensures exists i :: 0 <= i < |users| && users[i].id == m
    decreases |users|
  {
    if |users| == 1 then users[0].id
    else
      var rest := MaxId(users[1..]);
      assert forall i :: 1 <= i < |users| ==> users[i] == users[1..][i - 1];
      if users[0].id >= rest then users[0].id else rest
  }

  /** The id registration gives a new record: one more than the largest. */
  function NextId(users: seq<User>): (n: nat)
    requires |users| > 0
    ensures forall i :: 0 <= i < |users| ==> users[i].id < n
    ensures exists i :: 0 <= i < |users| && users[i].id == n - 1
  {
    MaxId(users) + 1
  }

  ghost predicate IdsUnique(users: seq<User>) {
    forall i, j :: 0 <= i < j < |users| ==> users[i].id != users[j].id
  }

  ghost predicate UsernamesDistinct(users: seq<User>) {
    forall i, j :: 0 <= i < j < |users| ==> users[i].username != users[j].username
  }

  ghost predicate EmailsDistinct(users: seq<User>) {
    forall i, j :: 0 <= i < j < |users| ==> users[i].email != users[j].email
  }

  /** With distinct ids, deleting the record found by an id text leaves no
      record with that id text. */
  lemma RemoveAtDropsId(users: seq<User>, i: nat)
    requires i < |users| && IdsUnique(users)
    ensures IdsUnique(RemoveAt(users, i))
    ensures forall k :: 0 <= k < |users| - 1 ==> IdText(RemoveAt(users, i)[k].id) != IdText(users[i].id)
  {
    var r := RemoveAt(users, i);
    forall k | 0 <= k < |r|
      ensures IdText(r[k].id) != IdText(users[i].id)
    {
      var src := if k < i then k else k + 1;
      assert r[k] == users[src];
      IdTextInjective(r[k].id, users[i].id);
    }
  }

  /** Appending a record that no query `q` found before makes it the first
      match of `q`. */
  lemma {:induction false} FindIndexAppendFresh(users: seq<User>, u: User, q: Query)
    requires forall i :: 0 <= i < |users| ==> !Matches(users[i], q)
    requires Matches(u, q)
    ensures FindIndex(users + [u], q) == Some(|users|)
    decreases |users|
  {
    if |users| > 0 {
      assert (users + [u])[1..] == users[1..] + [u];
      FindIndexAppendFresh(users[1..], u, q);
    }
  }

  /** A record whose id exceeds every existing id keeps the ids unique. */
  lemma AppendFreshIdKeepsIdsUnique(users: seq<User>, u: User)
    requires IdsUnique(users)
    requires forall i :: 0 <= i < |users| ==> users[i].id < u.id
    ensures IdsUnique(users + [u])
  {
  }

  /** Replacing one record by one with the same id keeps the ids unique. */
  lemma ReplaceKeepsIdsUnique(users: seq<User>, i: nat, u: User)
    requires i < |users| && IdsUnique(users) && u.id == users[i].id
    ensures IdsUnique(users[i := u])
  {
  }

  /** The public projection of a record: everything but the password hash. */
  datatype PublicUser = PublicUser(
    id: nat,
    username: string,
    role: string,
    email: string,
    fullName: string,
    createdAt: string,
    lastLogin: string)

  function Project(u: User): (p: PublicUser)
    // The projection names the same identity as the record's token claims.
    ensures ClaimsOf(u) == Claims(IdText(p.id), p.username, p.role, p.email, p.fullName)
    ensures p.createdAt == u.createdAt && p.lastLogin == u.lastLogin
  {
    PublicUser(u.id, u.username, u.role, u.email, u.fullName, u.createdAt, u.lastLogin)
  }

  /** Two records have the same projection exactly when they differ at most
      in their password hash. */
  lemma ProjectionDropsOnlyPassword(u: User, v: User)
    ensures Project(u) == Project(v) <==> u.(password := v.password) == v
  {
  }

  /** The token claims of a record, copied field by field; the id claim is
      the stored id text, which reads back as the record's id. */
  function ClaimsOf(u: User): (c: Claims)
    ensures c.id == IdText(u.id) && ParseDecimal(c.id) == u.id
    ensures c.username == u.username && c.role == u.role && c.email == u.email && c.fullName == u.fullName
  {
    ParseIdText(u.id);
    Claims(IdText(u.id), u.username, u.role, u.email, u.fullName)
  }

  /** The users table as the handlers see it after reading the store; each
      handler that changes it writes the whole table back. */
  class UserStore {
    var users: seq<User>

    ghost predicate Valid()
      reads this
    {
      IdsUnique(users)
    }

    constructor (initial: seq<User>)
      requires IdsUnique(initial)
      ensures Valid() && users == initial
    {
      users := initial;
    }
  }

  /** The four accounts a fresh store is seeded with. The hashes are what
      bcrypt produced for their passwords, and each record has its own
      creation time, read after its hash was computed. */
  function Seed(hashes: seq<string>, stamps: seq<string>): (s: seq<User>)
    requires |hashes| == 4 && |stamps| == 4
    ensures |s| == 4
    ensures forall k :: 0 <= k < 4 ==>
      s[k].id == k + 1 && s[k].password == hashes[k] && s[k].createdAt == stamps[k] && s[k].lastLogin == ""
    ensures s[0].role == AdminRole && forall k :: 1 <= k < 4 ==> s[k].role == GeneralRole
  {
    [ User(1, "admin", hashes[0], AdminRole, "admin@example.com", "System Administrator", stamps[0], ""),
      User(2, "Vinothini", hashes[1], GeneralRole, "Vino@gmail.com", "Vinothini Dayalan", stamps[1], ""),
      User(3, "Yukesh", hashes[2], GeneralRole, "Yukesh@gmail.com", "Jane Smith", stamps[2], ""),
      User(4, "manager", hashes[3], GeneralRole, "manager@example.com", "Manager User", stamps[3], "") ]
  }

  /** The seed table has distinct ids, usernames and emails and exactly one Admin. */
  lemma SeedIsWellFormed(hashes: seq<string>, stamps: seq<string>)
    requires |hashes| == 4 && |stamps| == 4
    ensures var s := Seed(hashes, stamps);
      IdsUnique(s) && UsernamesDistinct(s) && EmailsDistinct(s) && AdminCount(s) == 1
  {
    var s := Seed(hashes, stamps);
    assert s[1..][1..][1..][1..] == [];
  }
}

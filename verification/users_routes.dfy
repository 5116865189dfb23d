/** The `/users` routes: the admin listing, the role's records, the caller's
    profile, and the admin-only update and delete of one record by id. */
module UsersRoutes {
  import opened Common
  import opened Decimal
  import opened Crypto
  import opened UserTable

  const UserNotFound: string := "User not found"
  const LastAdminKept: string := "Cannot delete the last admin user"
  const UserDeleted: string := "User deleted successfully"
  const UpdateFailed: string := "Internal server error while updating user"
  const DeleteFailed: string := "Internal server error while deleting user"

  /** `GET /users`: every record's public projection, in table order. */
  datatype UserList = UserList(users: seq<PublicUser>, total: nat)

  function ListAll(users: seq<User>): (r: UserList)
    ensures r.total == |r.users| == |users|
    ensures forall k :: 0 <= k < |users| ==> r.users[k] == Project(users[k])
  {
    UserList(seq(|users|, k requires 0 <= k < |users| => Project(users[k])), |users|)
  }

  /** One entry of the fixed list `GET /users/records` returns. */
  datatype Entry = Entry(id: nat, name: string, access: string, description: string, category: string,
                         lastModified: string, size: string)

  datatype RecordsPage = RecordsPage(records: seq<Entry>, total: nat, role: string, message: string)

  function AdminEntries(now: string): (r: seq<Entry>)
    ensures |r| == 5
    ensures forall k :: 0 <= k < |r| ==> r[k].id == k + 1 && r[k].lastModified == now
  {
    [ Entry(1, "All User Data", "Full", "Complete system access with user management capabilities", "System", now, "2.5 MB"),
      Entry(2, "System Logs", "Read/Write", "System administration logs and monitoring data", "Logs", now, "15.2 MB"),
      Entry(3, "User Management", "Full", "User account management and permissions", "Administration", now, "8.7 MB"),
      Entry(4, "Database Backups", "Full", "System database backups and recovery", "Backup", now, "45.3 MB"),
      Entry(5, "Security Reports", "Full", "Security audit reports and compliance data", "Security", now, "12.1 MB") ]
  }

  function GeneralEntries(now: string): (r: seq<Entry>)
    ensures |r| == 4
    ensures forall k :: 0 <= k < |r| ==> r[k].id == k + 1 && r[k].lastModified == now
  {
    [ Entry(1, "Personal Data", "Read Only", "Personal information and profile data", "Personal", now, "0.5 MB"),
      Entry(2, "Reports", "Read Only", "Generated reports and analytics", "Reports", now, "3.2 MB"),
      Entry(3, "Settings", "Limited", "Personal settings and preferences", "Settings", now, "0.1 MB"),
      Entry(4, "Documents", "Read/Write", "Personal documents and files", "Documents", now, "1.8 MB") ]
  }

  /** `GET /users/records` for the caller's role; `now` is the time stamped
      on every entry. A missing role counts as "General User" and a role
      with no list gets an empty one. */
  function RecordsFor(role: string, now: string): (page: RecordsPage)
    ensures page.role == if role == "" then GeneralRole else role
    ensures page.total == |page.records|
    // The role picks one of the two fixed lists, and any other role gets none.
    ensures page.role == AdminRole ==> page.records == AdminEntries(now)
    ensures page.role == GeneralRole ==> page.records == GeneralEntries(now)
    ensures |page.records| == if page.role == AdminRole then 5 else if page.role == GeneralRole then 4 else 0
    ensures forall k :: 0 <= k < |page.records| ==> page.records[k].id == k + 1 && page.records[k].lastModified == now
    ensures page.message == "Records retrieved for " + page.role
  {
    var effective := if role == "" then GeneralRole else role;
    var records := if effective == AdminRole then AdminEntries(now)
                   else if effective == GeneralRole then GeneralEntries(now)
                   else [];
    RecordsPage(records, |records|, effective, "Records retrieved for " + effective)
  }

  /** `GET /users/profile`: the first record whose id text is the caller's
      id claim, or 404. */
  function Profile(users: seq<User>, caller: Claims): (r: Reply<PublicUser>)
    ensures r.Success? <==> exists i :: 0 <= i < |users| && IdText(users[i].id) == caller.id
    ensures r.Success? ==>
      && r.status == 200
      && exists i: nat :: IsFirstMatch(users, ById(caller.id), i) && r.body == Project(users[i])
    ensures r.Failure? ==> r.why == Refusal(404, UserNotFound)
  {
    match FindIndex(users, ById(caller.id))
    case None => Failure(Refusal(404, UserNotFound))
    case Some(i) => Success(200, Project(users[i]))
  }

  /** The four fields `PUT /users/:id` may carry; any of them may be absent. */
  datatype UpdateFields = UpdateFields(username: Option<string>, email: Option<string>,
                                       fullName: Option<string>, role: Option<string>)

  /** The `user` of a successful update's body. */
  datatype AccountSummary = AccountSummary(id: nat, username: string, role: string, email: string, fullName: string)

  /** The update of one record: each truthy field overwrites its own, an
      absent or empty one leaves it; the role is not checked. */
  function ApplyUpdate(u: User, f: UpdateFields): (r: User)
    ensures r.id == u.id && r.password == u.password && r.createdAt == u.createdAt && r.lastLogin == u.lastLogin
    ensures Given(f.username) ==> r.username == f.username.value
    ensures !Given(f.username) ==> r.username == u.username
    ensures Given(f.email) ==> r.email == f.email.value
    ensures !Given(f.email) ==> r.email == u.email
    ensures Given(f.fullName) ==> r.fullName == f.fullName.value
    ensures !Given(f.fullName) ==> r.fullName == u.fullName
    ensures Given(f.role) ==> r.role == f.role.value
    ensures !Given(f.role) ==> r.role == u.role
  {
    var u1 := if Given(f.username) then u.(username := f.username.value) else u;
    var u2 := if Given(f.email) then u1.(email := f.email.value) else u1;
    var u3 := if Given(f.fullName) then u2.(fullName := f.fullName.value) else u2;
    if Given(f.role) then u3.(role := f.role.value) else u3
  }

  /** Updating twice with the same fields is updating once, and an update
      whose fields are all absent or empty changes nothing. */
  lemma ApplyUpdateIdempotent(u: User, f: UpdateFields)
    ensures ApplyUpdate(ApplyUpdate(u, f), f) == ApplyUpdate(u, f)
    ensures !Given(f.username) && !Given(f.email) && !Given(f.fullName) && !Given(f.role) ==> ApplyUpdate(u, f) == u
  {
  }

  /** Update does not guard the Admin role the way delete does: demoting the
      only Admin of the seed table leaves it with none. */
  lemma UpdateCanRemoveLastAdmin(hashes: seq<string>, stamps: seq<string>)
    requires |hashes| == 4 && |stamps| == 4
    ensures var users := Seed(hashes, stamps);
      var f := UpdateFields(None, None, None, Some(GeneralRole));
      && FindIndex(users, ById("1")) == Some(0)
      && AdminCount(users) == 1
      && AdminCount(users[0 := ApplyUpdate(users[0], f)]) == 0
  {
    var users := Seed(hashes, stamps);
    assert IdText(1) == "1";
    SeedIsWellFormed(hashes, stamps);
  }

  /** Nor does it check uniqueness: renaming a seed user to "admin" leaves two
      records with that username. */
  lemma UpdateCanDuplicateUsername(hashes: seq<string>, stamps: seq<string>)
    requires |hashes| == 4 && |stamps| == 4
    ensures var users := Seed(hashes, stamps);
      var f := UpdateFields(Some("admin"), None, None, None);
      && UsernamesDistinct(users)
      && !UsernamesDistinct(users[1 := ApplyUpdate(users[1], f)])
  {
    var users := Seed(hashes, stamps);
    SeedIsWellFormed(hashes, stamps);
    var after := users[1 := ApplyUpdate(users[1], UpdateFields(Some("admin"), None, None, None))];
    assert after[0].username == after[1].username;
  }

  /** `PUT /users/:id`: 404 when no record has that id text, otherwise the
      first such record gets the update; `writeOk` says whether writing the
      table back succeeded. */
  method Update(store: UserStore, id: string, fields: UpdateFields, writeOk: bool) returns (r: Reply<AccountSummary>)
    requires store.Valid()
    modifies store
    ensures store.Valid()
    ensures match FindIndex(old(store.users), ById(id))
      case None => r == Failure(Refusal(404, UserNotFound)) && store.users == old(store.users)
      case Some(i) =>
        var u := ApplyUpdate(old(store.users)[i], fields);
        if writeOk then
          && store.users == old(store.users)[i := u]
          && r == Success(200, AccountSummary(u.id, u.username, u.role, u.email, u.fullName))
        else
          r == Failure(Refusal(500, UpdateFailed)) && store.users == old(store.users)
  {
    match FindIndex(store.users, ById(id))
    case None =>
      r := Failure(Refusal(404, UserNotFound));
    case Some(i) =>
      var u := ApplyUpdate(store.users[i], fields);
      if writeOk {
        ReplaceKeepsIdsUnique(store.users, i, u);
        store.users := store.users[i := u];
        r := Success(200, AccountSummary(u.id, u.username, u.role, u.email, u.fullName));
      } else {
        r := Failure(Refusal(500, UpdateFailed));
      }
  }

  /** `DELETE /users/:id`: 404 when no record has that id text, 400 when the
      record found is the only Admin, otherwise that record is spliced out;
      `writeOk` says whether writing the table back succeeded. */
  method Delete(store: UserStore, id: string, writeOk: bool) returns (r: Reply<string>)
    requires store.Valid()
    modifies store
    ensures store.Valid()
    ensures match FindIndex(old(store.users), ById(id))
      case None => r == Failure(Refusal(404, UserNotFound)) && store.users == old(store.users)
      case Some(i) =>
        if IsLastAdmin(old(store.users), i) then
          r == Failure(Refusal(400, LastAdminKept)) && store.users == old(store.users)
        else if writeOk then
          r == Success(200, UserDeleted) && store.users == RemoveAt(old(store.users), i)
        else
          r == Failure(Refusal(500, DeleteFailed)) && store.users == old(store.users)
    // Whatever happens, a table that had an Admin keeps one.
    ensures AdminCount(old(store.users)) > 0 ==> AdminCount(store.users) > 0
    // After a deletion no record has the deleted id any more.
    ensures r.Success? ==> forall k :: 0 <= k < |store.users| ==> IdText(store.users[k].id) != id
  {
    match FindIndex(store.users, ById(id))
    case None =>
      r := Failure(Refusal(404, UserNotFound));
    case Some(i) =>
      if AdminCount(store.users) == 1 && IsAdmin(store.users[i]) {
        r := Failure(Refusal(400, LastAdminKept));
      } else if writeOk {
        if AdminCount(store.users) > 0 {
          DeleteKeepsAnAdmin(store.users, i);
        }
        RemoveAtDropsId(store.users, i);
        store.users := RemoveAt(store.users, i);
        r := Success(200, UserDeleted);
      } else {
        r := Failure(Refusal(500, DeleteFailed));
      }
  }
}

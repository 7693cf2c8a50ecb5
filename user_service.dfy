/**
 * `UserService`: lookups, profile updates, deletion (plain and with the OKR
 * cascade), password authentication, token regeneration and user creation.
 */
module UserService {
  import opened Common
  import opened OkrSchema
  import opened UserSchema
  import opened Database
  import UserModel

  /** `get(id)`: `findOne({ _id: id })`. */
  function Get(users: map<string, User>, id: string): (r: Option<User>)
    ensures r.Some? <==> id in users
    ensures r.Some? ==> r.value == users[id]
  {
    if id in users then Some(users[id]) else None
  }

  /** `getByEmail` matches regardless of the ASCII case of the address asked for. */
  lemma GetByEmailIgnoresCase(users: map<string, User>, email: string)
    requires EmailsUnique(users)
    ensures FindByEmail(users, email) == FindByEmail(users, Lower(email))
  {
    LowerIdempotent(email);
  }

  // ---------------------------------------------------------------------------
  // update
  // ---------------------------------------------------------------------------

  /** The fields a profile or role update may carry; absent fields are left alone. */
  datatype UserPatch = UserPatch(
    name: Option<string>,
    email: Option<string>,
    department: Option<string>,
    designation: Option<string>,
    role: Option<string>,
    profilePicture: Option<string>)

  const EMPTY_PATCH: UserPatch := UserPatch(None, None, None, None, None, None)

  /**
   * `findOneAndUpdate({ _id: id }, data)`: each supplied field overwrites the
   * stored one (the email through the schema's lower-casing); no validator
   * runs.
   */
  function ApplyUserPatch(u: User, p: UserPatch): User {
    u.(name := p.name.GetOr(u.name),
       email := if p.email.Some? then Lower(p.email.value) else u.email,
       department := p.department.GetOr(u.department),
       designation := p.designation.GetOr(u.designation),
       role := p.role.GetOr(u.role),
       profilePicture := if p.profilePicture.Some? then p.profilePicture else u.profilePicture)
  }

  /**
   * A patch keeps the id, the password, the token and the timestamps, keeps
   * the email lower-case, and a role-only patch changes the role and nothing
   * else.
   */
  lemma ApplyUserPatchSpec(u: User, p: UserPatch)
    requires Lower(u.email) == u.email
    ensures var r := ApplyUserPatch(u, p);
      && r.id == u.id && r.password == u.password && r.token == u.token
      && r.createdAt == u.createdAt && r.lastLoginAt == u.lastLoginAt
      && Lower(r.email) == r.email
      && (p == EMPTY_PATCH.(role := p.role) ==> r == u.(role := p.role.GetOr(u.role)))
  {
    if p.email.Some? {
      LowerIdempotent(p.email.value);
    }
  }

  /**
   * `update(id, data)`: null for an unknown id; a duplicate-key error when
   * the new email belongs to another user; otherwise the patched user.
   */
  method Update(db: Db, id: string, p: UserPatch) returns (r: Result<Option<User>, string>)
    requires db.Valid()
    modifies db
    ensures db.Valid() && db.okrs == old(db.okrs)
    ensures id !in old(db.users) ==> r == Ok(None) && db.users == old(db.users)
    ensures id in old(db.users) ==>
      var u := ApplyUserPatch(old(db.users)[id], p);
      if EmailTaken(old(db.users), u.email, id) then r.Err? && db.users == old(db.users)
      else r == Ok(Some(u)) && db.users == old(db.users)[id := u]
  {
    if id !in db.users {
      return Ok(None);
    }
    var u := ApplyUserPatch(db.users[id], p);
    if EmailTaken(db.users, u.email, id) {
      return Err("Database error while updating user");
    }
    ApplyUserPatchSpec(db.users[id], p);
    db.users := db.users[id := u];
    return Ok(Some(u));
  }

  /** `delete(id)`: `deleteOne` and report whether exactly one user went; OKRs are untouched. */
  method Delete(db: Db, id: string) returns (deleted: bool)
    requires db.Valid()
    modifies db
    ensures db.Valid() && db.okrs == old(db.okrs)
    ensures deleted <==> id in old(db.users)
    ensures db.users == old(db.users) - {id}
  {
    var deletedCount := if id in db.users then 1 else 0;
    db.users := db.users - {id};
    deleted := deletedCount == 1;
  }

  // ---------------------------------------------------------------------------
  // deleteUserAndHandleOKRs
  // ---------------------------------------------------------------------------

  /** The `deleteMany` filter: an Individual OKR created by the user. */
  predicate CreatedIndividual(okr: Okr, userId: string) {
    okr.createdBy == userId && okr.category == INDIVIDUAL
  }

  /** `OKR.deleteMany({ createdBy: userId, category: "Individual" })`. */
  function DeleteIndividualOkrs(okrs: map<string, Okr>, userId: string): map<string, Okr> {
    map id | id in okrs && !CreatedIndividual(okrs[id], userId) :: okrs[id]
  }

  /** The `updateMany` filter: a Team OKR with `name` among its owners. */
  predicate ListsOwner(okr: Okr, name: string) {
    okr.category == TEAM && name in okr.owners
  }

  /** `OKR.updateMany({ owners: name, category: "Team" }, { $pull: { owners: name } })`. */
  function PullOwner(okrs: map<string, Okr>, name: string): map<string, Okr> {
    map id | id in okrs ::
      if ListsOwner(okrs[id], name) then okrs[id].(owners := RemoveAll(okrs[id].owners, name)) else okrs[id]
  }

  /**
   * The pull deletes no OKR and changes nothing but owner lists: a Team OKR
   * listing the name loses every entry equal to it and keeps the other
   * owners in order, even when fewer than two (or none) remain; every other
   * OKR is untouched.
   */
  lemma PullOwnerSpec(okrs: map<string, Okr>, name: string)
    ensures var r := PullOwner(okrs, name);
      && r.Keys == okrs.Keys
      && (forall id :: id in r ==> r[id] == okrs[id].(owners := r[id].owners))
      && (forall id :: id in r && ListsOwner(okrs[id], name) ==>
            r[id].owners == RemoveAll(okrs[id].owners, name) && name !in r[id].owners)
      && (forall id :: id in r && !ListsOwner(okrs[id], name) ==> r[id] == okrs[id])
  {
    var r := PullOwner(okrs, name);
    forall id | id in r && ListsOwner(okrs[id], name)
      ensures name !in r[id].owners
    {
      RemoveAllMembership(okrs[id].owners, name, name);
    }
  }

  /** The two collection updates of the cascade change nothing when repeated. */
  lemma CascadeStepsIdempotent(okrs: map<string, Okr>, userId: string, name: string)
    ensures DeleteIndividualOkrs(DeleteIndividualOkrs(okrs, userId), userId) == DeleteIndividualOkrs(okrs, userId)
    ensures PullOwner(PullOwner(okrs, name), name) == PullOwner(okrs, name)
  {
    var once := PullOwner(okrs, name);
    PullOwnerSpec(okrs, name);
    forall id | id in once ensures PullOwner(once, name)[id] == once[id] {
      assert !ListsOwner(once[id], name);
    }
  }

  /**
   * The pull matches owner entries by the user's name, while the dialogs
   * store user ids in `owners`: a Team OKR listing the deleted user's id
   * (that differs from the name) still lists it afterwards.
   */
  lemma PullByNameKeepsIdEntries(okrs: map<string, Okr>, userId: string, name: string, okrId: string)
    requires okrId in okrs && userId in okrs[okrId].owners && userId != name
    ensures okrId in PullOwner(okrs, name) && userId in PullOwner(okrs, name)[okrId].owners
  {
    RemoveAllMembership(okrs[okrId].owners, name, userId);
  }

  /**
   * What the cascade does to the OKR collection, from the collection before
   * it: an OKR survives exactly when it is not an Individual OKR the user
   * created; a survivor differs from the original only in its owners, and
   * only when it is a Team OKR listing the name, which then no longer lists
   * it.
   */
  lemma CascadeSpec(okrs: map<string, Okr>, userId: string, name: string)
    ensures var r := PullOwner(DeleteIndividualOkrs(okrs, userId), name);
      && (forall id :: id in r <==> id in okrs && !CreatedIndividual(okrs[id], userId))
      && (forall id :: id in r ==> r[id] == okrs[id].(owners := r[id].owners))
      && (forall id :: id in r && r[id] != okrs[id] ==> ListsOwner(okrs[id], name))
      && (forall id :: id in r && ListsOwner(okrs[id], name) ==> name !in r[id].owners)
  {
    PullOwnerSpec(DeleteIndividualOkrs(okrs, userId), name);
  }

  /** The cascade's OKR steps keep the ids and the title index intact. */
  lemma CascadeKeepsIndexes(okrs: map<string, Okr>, userId: string, name: string)
    requires KeyedById(okrs) && TitlesUnique(okrs)
    ensures var r := PullOwner(DeleteIndividualOkrs(okrs, userId), name);
      KeyedById(r) && TitlesUnique(r)
  {
    PullOwnerSpec(DeleteIndividualOkrs(okrs, userId), name);
  }

  /**
   * `deleteUserAndHandleOKRs`: false and nothing changed for an unknown id;
   * otherwise delete the user's Individual OKRs, pull the user's name from
   * Team OKR owner lists, delete the user and return true.
   */
  method DeleteUserAndHandleOkrs(db: Db, userId: string) returns (deleted: bool)
    requires db.Valid()
    modifies db
    ensures db.Valid()
    ensures deleted <==> userId in old(db.users)
    ensures !deleted ==> db.okrs == old(db.okrs) && db.users == old(db.users)
    ensures deleted ==>
      && db.okrs == PullOwner(DeleteIndividualOkrs(old(db.okrs), userId), old(db.users)[userId].name)
      && db.users == old(db.users) - {userId}
  {
    if userId !in db.users {
      return false;
    }
    var user := db.users[userId];
    CascadeKeepsIndexes(db.okrs, userId, user.name);
    db.okrs := DeleteIndividualOkrs(db.okrs, userId);
    db.okrs := PullOwner(db.okrs, user.name);
    db.users := db.users - {userId};
    return true;
  }

  // ---------------------------------------------------------------------------
  // authentication, tokens, creation
  // ---------------------------------------------------------------------------

  /**
   * The service's `authenticateWithPassword`: an absent or empty email or
   * password throws before any lookup; otherwise it behaves as the model's
   * static method.
   */
  method AuthenticateWithPassword(db: Db, email: Option<string>, password: Option<string>,
                                  matches: (string, string) -> bool, isHash: string -> bool, now: Time)
    returns (r: Result<Option<User>, string>)
    requires db.Valid()
    modifies db
    ensures db.Valid() && db.okrs == old(db.okrs)
    ensures !Truthy(email) ==> r == Err("Email is required") && db.users == old(db.users)
    ensures Truthy(email) && !Truthy(password) ==> r == Err("Password is required") && db.users == old(db.users)
    ensures Truthy(email) && Truthy(password) ==>
      var found := FindByEmail(old(db.users), email.value);
      && (found.None? || !matches(password.value, found.value.password) ==>
            r == Ok(None) && db.users == old(db.users))
      && (found.Some? && matches(password.value, found.value.password) ==>
            var u := found.value.(lastLoginAt := now);
            if UserConforms(u, isHash) then r == Ok(Some(u)) && db.users == old(db.users)[u.id := u]
            else r.Err? && db.users == old(db.users))
  {
    if !Truthy(email) {
      return Err("Email is required");
    }
    if !Truthy(password) {
      return Err("Password is required");
    }
    r := UserModel.AuthenticateWithPassword(db, email.value, password.value, matches, isHash, now);
  }

  /** The fields `createUser` receives. */
  datatype NewUser = NewUser(
    email: Option<string>,
    password: Option<string>,
    name: Option<string>,
    role: Option<string>,
    designation: Option<string>,
    department: Option<string>,
    profilePicture: Option<string>)

  /** The first missing field `createUser` complains about, in its order of checks. */
  function MissingField(n: NewUser): (r: Option<string>)
    ensures r.None? <==> (Truthy(n.email) && Truthy(n.password) && Truthy(n.name)
      && Truthy(n.role) && Truthy(n.designation) && Truthy(n.department))
    ensures !Truthy(n.email) ==> r == Some("Email is required")
    ensures Truthy(n.email) && !Truthy(n.password) ==> r == Some("Password is required")
    ensures Truthy(n.email) && Truthy(n.password) && !Truthy(n.name) ==> r == Some("Name is required")
    ensures Truthy(n.email) && Truthy(n.password) && Truthy(n.name) && !Truthy(n.role) ==>
      r == Some("Role is required")
    ensures (Truthy(n.email) && Truthy(n.password) && Truthy(n.name) && Truthy(n.role)
      && !Truthy(n.designation)) ==> r == Some("Designation is required")
    ensures (Truthy(n.email) && Truthy(n.password) && Truthy(n.name) && Truthy(n.role)
      && Truthy(n.designation) && !Truthy(n.department)) ==> r == Some("Department is required")
  {
    if !Truthy(n.email) then Some("Email is required")
    else if !Truthy(n.password) then Some("Password is required")
    else if !Truthy(n.name) then Some("Name is required")
    else if !Truthy(n.role) then Some("Role is required")
    else if !Truthy(n.designation) then Some("Designation is required")
    else if !Truthy(n.department) then Some("Department is required")
    else None
  }

  /**
   * `createUser`: reject a missing field, then an email already registered,
   * then hash the password (`hash` stands for `generatePasswordHash`) and
   * save a new user with the given id, token and creation time; the save
   * checks the hash with `isHash` (`isPasswordHash`).
   */
  method CreateUser(db: Db, n: NewUser, hash: string -> string, isHash: string -> bool,
                    id: string, token: string, now: Time)
    returns (r: Result<User, string>)
    requires db.Valid() && id !in db.users
    modifies db
    ensures db.Valid() && db.okrs == old(db.okrs)
    ensures MissingField(n).Some? ==> r == Err(MissingField(n).value)
    ensures MissingField(n).None? && FindByEmail(old(db.users), n.email.value).Some? ==>
      r == Err("User with this email already exists")
    ensures MissingField(n).None? && FindByEmail(old(db.users), n.email.value).None? ==>
      (r.Ok? <==> (n.role.value in ROLES && n.department.value in DEPARTMENTS && hash(n.password.value) != ""
                   && isHash(hash(n.password.value)) && !TokenTaken(old(db.users), token, id)))
    ensures r.Err? ==> db.users == old(db.users)
    ensures r.Ok? ==>
      && MissingField(n).None? && FindByEmail(old(db.users), n.email.value).None?
      && db.users == old(db.users)[id := r.value]
      && UserConforms(r.value, isHash) && r.value.id == id
      && r.value.email == Lower(n.email.value) && r.value.password == hash(n.password.value)
      && r.value.role == n.role.value && r.value.department == n.department.value
      && r.value.token == token && r.value.isActive
  {
    var missing := MissingField(n);
    if missing.Some? {
      return Err(missing.value);
    }
    var existing := FindByEmail(db.users, n.email.value);
    if existing.Some? {
      return Err("User with this email already exists");
    }
    var u := User(id, Lower(n.email.value), hash(n.password.value), n.name.value, n.role.value,
                  n.designation.value, n.department.value, n.profilePicture, now, now, true, token);
    LowerIdempotent(n.email.value);
    var saved := UserModel.Save(db, u, true, isHash);
    if saved.Err? {
      return Err("Database error while creating new user");
    }
    return Ok(saved.value);
  }
}

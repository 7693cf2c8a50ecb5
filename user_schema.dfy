/**
 * The stored shape of a user, the schema's enumerations and validators, and
 * the `toJSON` transform that turns a stored document into what the API
 * sends to clients.
 */
module UserSchema {
  import opened Common

  const ADMIN: string := "Admin"
  const MANAGER: string := "Manager"
  const EMPLOYEE: string := "Employee"
  const ROLES: seq<string> := [ADMIN, MANAGER, EMPLOYEE]

  const DEPARTMENTS: seq<string> :=
    ["QA", "Frontend", "Backend", "PM", "HR", "Marketing", "Design", "DevOps", "Operations", "Network"]

  /** A point in time in milliseconds (`Date.now()`); clocks are parameters of the model. */
  type Time = int

  /**
   * A stored user. `password` holds a password hash; `token` is the random
   * per-user token the schema generates.
   */
  datatype User = User(
    id: string,
    email: string,
    password: string,
    name: string,
    role: string,
    designation: string,
    department: string,
    profilePicture: Option<string>,
    createdAt: Time,
    lastLoginAt: Time,
    isActive: bool,
    token: string)

  /**
   * What the schema's validators accept on save: required strings are
   * non-empty, the email is stored lower-cased, the password passes the
   * `isPasswordHash` validator (the parameter `isHash`), and role and
   * department are enumeration members.
   */
  predicate UserConforms(u: User, isHash: string -> bool) {
    && u.email != ""
    && Lower(u.email) == u.email
    && u.password != "" && isHash(u.password)
    && u.name != ""
    && u.role in ROLES
    && u.designation != ""
    && u.department in DEPARTMENTS
  }

  /** Users are filed under their own ids. */
  predicate UsersKeyedById(users: map<string, User>) {
    forall id :: id in users ==> users[id].id == id
  }

  /** The unique index on `email`. */
  predicate EmailsUnique(users: map<string, User>) {
    forall a, b :: a in users && b in users && users[a].email == users[b].email ==> a == b
  }

  /** The unique index on `token`. */
  predicate TokensUnique(users: map<string, User>) {
    forall a, b :: a in users && b in users && users[a].token == users[b].token ==> a == b
  }

  /** The `lowercase` option on `email`: every stored address is lower-case. */
  predicate EmailsLowercase(users: map<string, User>) {
    forall id :: id in users ==> Lower(users[id].email) == users[id].email
  }

  // ---------------------------------------------------------------------------
  // toJSON
  // ---------------------------------------------------------------------------

  /** A JSON value of a serialised document. */
  datatype Value = Str(s: string) | Bool(b: bool) | Time(t: int)

  /** The plain object a stored user serialises from (`_id` is the id; no version key). */
  function Document(u: User): map<string, Value> {
    var base := map[
      "_id" := Str(u.id), "email" := Str(u.email), "password" := Str(u.password),
      "name" := Str(u.name), "role" := Str(u.role), "designation" := Str(u.designation),
      "department" := Str(u.department), "createdAt" := Time(u.createdAt),
      "lastLoginAt" := Time(u.lastLoginAt), "isActive" := Bool(u.isActive), "token" := Str(u.token)];
    if u.profilePicture.Some? then base["profilePicture" := Str(u.profilePicture.value)] else base
  }

  const HIDDEN: set<string> := {"_id", "password", "__v"}

  /**
   * The `toJSON` transform: copy `_id` to `id` (an absent `_id` leaves `id`
   * undefined, which JSON drops), then delete `_id`, `password` and `__v`.
   */
  function ToJson(ret: map<string, Value>): map<string, Value> {
    var withId := if "_id" in ret then ret["id" := ret["_id"]] else ret - {"id"};
    withId - HIDDEN
  }

  /**
   * The output carries `id` equal to the input's `_id`, never `_id`,
   * `password` or `__v`, and every other field unchanged.
   */
  lemma ToJsonSpec(ret: map<string, Value>)
    ensures var r := ToJson(ret);
      && "_id" !in r && "password" !in r && "__v" !in r
      && ("id" in r <==> "_id" in ret)
      && ("id" in r ==> r["id"] == ret["_id"])
      && (forall k :: k != "id" ==> (k in r <==> k in ret && k !in HIDDEN))
      && (forall k :: k in r && k != "id" ==> r[k] == ret[k])
  {
  }

  /** The serialised form never carries a `password` key. */
  lemma PasswordHidden(ret: map<string, Value>)
    ensures "password" !in ToJson(ret)
  {
  }

  /**
   * A serialised user exposes its id under `id` and its public fields, and
   * never the password hash.
   */
  lemma UserJsonSpec(u: User)
    ensures var r := ToJson(Document(u));
      && "id" in r && r["id"] == Str(u.id)
      && "password" !in r && "_id" !in r
      && "email" in r && r["email"] == Str(u.email)
      && "role" in r && r["role"] == Str(u.role)
      && "token" in r && r["token"] == Str(u.token)
      && ("profilePicture" in r <==> u.profilePicture.Some?)
  {
    var d := Document(u);
    assert "_id" in d && d["_id"] == Str(u.id);
    assert "email" in d && d["email"] == Str(u.email);
    assert "role" in d && d["role"] == Str(u.role);
    assert "token" in d && d["token"] == Str(u.token);
    assert "profilePicture" in d <==> u.profilePicture.Some?;
    ToJsonSpec(d);
  }
}

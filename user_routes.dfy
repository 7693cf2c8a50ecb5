/**
 * The user-management routes: listing needs only a signed-in user; changing
 * a role and deleting a user also need the Admin role, checked after
 * authentication and before anything else.
 */
module UserRoutes {
  import opened Common
  import opened UserSchema
  import opened Database
  import opened AuthMiddleware
  import opened Http
  import UserService

  /** `requireAdmin`, applied to what `requireUser` decided. */
  function RequireAdmin(g: Gate): (r: Gate)
    ensures r.Admit? <==> g.Admit? && g.user.role == ADMIN
    ensures r.Admit? ==> r == g
    ensures g.Deny? ==> r == g
    ensures g.Admit? && g.user.role != ADMIN ==> r == Deny(403, "Access denied")
  {
    if g.Admit? && g.user.role != ADMIN then Deny(403, "Access denied") else g
  }

  /** `u.toJSON()` for a stored user, which never carries the password. */
  function Serialize(u: User): (j: map<string, Value>)
    ensures "password" !in j
  {
    PasswordHidden(Document(u));
    ToJson(Document(u))
  }

  /** `users.map(u => u.toJSON())`, keyed by id. */
  function SerializedUsers(users: map<string, User>): (r: map<string, map<string, Value>>)
    ensures r.Keys == users.Keys
    ensures forall id :: id in r ==> r[id] == ToJson(Document(users[id])) && "password" !in r[id]
  {
    map id | id in users :: Serialize(users[id])
  }

  /** `GET /`: the serialised form of every user, for any signed-in user. */
  function ListUsersRoute(header: Option<string>, verify: string -> Option<string>, db: Db)
    : (resp: Response<map<string, map<string, Value>>>)
    reads db
    ensures RequireUser(header, verify, db.users).Admit? <==> resp.status == 200
    ensures resp.status == 200 ==>
      && resp.body.Ok? && resp.body.value.Keys == db.users.Keys
      && (forall id :: id in db.users ==> resp.body.value[id] == ToJson(Document(db.users[id])))
      && forall id :: id in resp.body.value ==> "password" !in resp.body.value[id]
    ensures resp.status != 200 ==> resp.status == 401
  {
    var gate := RequireUser(header, verify, db.users);
    if gate.Deny? then Denied(gate) else Response(200, Ok(SerializedUsers(db.users)))
  }

  /**
   * `PUT /:id/role`: 400 for a role outside the enumeration before any
   * change, 404 for an unknown id, otherwise 200 with only that user's role
   * changed.
   */
  method UpdateRoleRoute(db: Db, header: Option<string>, verify: string -> Option<string>, id: string, role: Option<string>)
    returns (resp: Response<string>)
    requires db.Valid()
    modifies db
    ensures db.Valid() && db.okrs == old(db.okrs)
    ensures var g := RequireAdmin(RequireUser(header, verify, old(db.users)));
      && (g.Deny? ==> resp == Denied(g) && db.users == old(db.users))
      && (g.Admit? && !(role.Some? && role.value in ROLES) ==>
            resp == Refuse(400, "Invalid role") && db.users == old(db.users))
      && (g.Admit? && role.Some? && role.value in ROLES && id !in old(db.users) ==>
            resp == Refuse(404, "User not found") && db.users == old(db.users))
      && (g.Admit? && role.Some? && role.value in ROLES && id in old(db.users) ==>
            resp == Response(200, Ok("User role updated successfully"))
            && db.users == old(db.users)[id := old(db.users)[id].(role := role.value)])
  {
    var gate := RequireAdmin(RequireUser(header, verify, db.users));
    if gate.Deny? {
      return Denied(gate);
    }
    if !(role.Some? && role.value in ROLES) {
      return Refuse(400, "Invalid role");
    }
    var updated := UserService.Update(db, id, UserService.EMPTY_PATCH.(role := role));
    if updated.Err? {
      return Refuse(500, UNEXPECTED);
    }
    if updated.value.None? {
      return Refuse(404, "User not found");
    }
    return Response(200, Ok("User role updated successfully"));
  }

  /**
   * `DELETE /:id`: run the deletion cascade; 404 when the user does not
   * exist, otherwise 200. Nothing stops an admin from deleting themselves.
   */
  method DeleteUserRoute(db: Db, header: Option<string>, verify: string -> Option<string>, id: string)
    returns (resp: Response<string>)
    requires db.Valid()
    modifies db
    ensures db.Valid()
    ensures var g := RequireAdmin(RequireUser(header, verify, old(db.users)));
      && (g.Deny? ==> resp == Denied(g) && db.users == old(db.users) && db.okrs == old(db.okrs))
      && (g.Admit? && id !in old(db.users) ==>
            resp == Refuse(404, "User not found") && db.users == old(db.users) && db.okrs == old(db.okrs))
      && (g.Admit? && id in old(db.users) ==>
            && resp == Response(200, Ok("User and associated OKRs updated successfully"))
            && db.users == old(db.users) - {id}
            && db.okrs == UserService.PullOwner(UserService.DeleteIndividualOkrs(old(db.okrs), id), old(db.users)[id].name))
  {
    var gate := RequireAdmin(RequireUser(header, verify, db.users));
    if gate.Deny? {
      return Denied(gate);
    }
    var deleted := UserService.DeleteUserAndHandleOkrs(db, id);
    if !deleted {
      return Refuse(404, "User not found");
    }
    return Response(200, Ok("User and associated OKRs updated successfully"));
  }
}

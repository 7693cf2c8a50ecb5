/**
 * The account routes: login, registration, logout, profile update and
 * password change. Signing a session token (`jwt.sign`) is the parameter
 * `sign`, checking a password against a stored hash (`validatePassword`) is
 * `matches`, hashing a new password (`generatePasswordHash`) is `hash`, and
 * the schema's test that a stored password is a hash (`isPasswordHash`) is
 * `isHash`.
 */
module AuthRoutes {
  import opened Common
  import opened UserSchema
  import opened Database
  import opened AuthMiddleware
  import opened Http
  import UserModel
  import UserService

  /** A session: the signed token and the serialised user. */
  datatype Session = Session(token: string, user: map<string, Value>)

  /**
   * `POST /login`: 400 for a missing email or password before any lookup,
   * 400 for an unknown email or a wrong password, otherwise a token for the
   * user, whose last login is now recorded.
   */
  method LoginRoute(db: Db, email: Option<string>, password: Option<string>,
                    matches: (string, string) -> bool, isHash: string -> bool, sign: string -> string, now: Time)
    returns (resp: Response<Session>)
    requires db.Valid()
    modifies db
    ensures db.Valid() && db.okrs == old(db.okrs)
    ensures !Truthy(email) || !Truthy(password) ==>
      resp == Refuse(400, "Email and password are required") && db.users == old(db.users)
    ensures Truthy(email) && Truthy(password) ==>
      var found := FindByEmail(old(db.users), email.value);
      && (found.None? || !matches(password.value, found.value.password) ==>
            resp == Refuse(400, "Email or password is incorrect") && db.users == old(db.users))
      && (found.Some? && matches(password.value, found.value.password) ==>
            var u := found.value.(lastLoginAt := now);
            if UserConforms(u, isHash) then
              && resp == Response(200, Ok(Session(sign(u.id), ToJson(Document(u)))))
              && db.users == old(db.users)[u.id := u]
            else resp == Refuse(500, UNEXPECTED) && db.users == old(db.users))
  {
    if !Truthy(email) || !Truthy(password) {
      return Refuse(400, "Email and password are required");
    }
    var user := UserService.AuthenticateWithPassword(db, email, password, matches, isHash, now);
    if user.Err? {
      return Refuse(500, UNEXPECTED);
    }
    if user.value.None? {
      return Refuse(400, "Email or password is incorrect");
    }
    var u := user.value.value;
    return Response(200, Ok(Session(sign(u.id), ToJson(Document(u)))));
  }

  /** Every registration field is present and non-empty. */
  predicate AllFieldsPresent(n: UserService.NewUser) {
    Truthy(n.name) && Truthy(n.email) && Truthy(n.password)
    && Truthy(n.role) && Truthy(n.designation) && Truthy(n.department)
  }

  /**
   * `POST /register`: 400 for a missing field, then for a role or a
   * department outside the enumerations, 405 for an email already
   * registered, otherwise create the user and answer 201 with a session.
   * The request fields arrive in `n`; the uploaded picture's path is
   * `n.profilePicture`.
   */
  method RegisterRoute(db: Db, n: UserService.NewUser, hash: string -> string, isHash: string -> bool, sign: string -> string,
                       id: string, token: string, now: Time)
    returns (resp: Response<Session>)
    requires db.Valid() && id !in db.users
    modifies db
    ensures db.Valid() && db.okrs == old(db.okrs)
    ensures resp.status != 201 ==> db.users == old(db.users)
    ensures !AllFieldsPresent(n) ==> resp == Refuse(400, "All fields are required")
    ensures AllFieldsPresent(n) && n.role.value !in ROLES ==> resp == Refuse(400, "Invalid role selected")
    ensures AllFieldsPresent(n) && n.role.value in ROLES && n.department.value !in DEPARTMENTS ==>
      resp == Refuse(400, "Invalid department selected")
    ensures (AllFieldsPresent(n) && n.role.value in ROLES && n.department.value in DEPARTMENTS
      && FindByEmail(old(db.users), n.email.value).Some?) ==> resp == Refuse(405, "Email is already registered")
    ensures (AllFieldsPresent(n) && n.role.value in ROLES && n.department.value in DEPARTMENTS
      && FindByEmail(old(db.users), n.email.value).None?) ==>
      (resp.status == 201 <==>
         hash(n.password.value) != "" && isHash(hash(n.password.value)) && !TokenTaken(old(db.users), token, id))
    ensures resp.status == 201 ==>
      && AllFieldsPresent(n) && id in db.users && db.users == old(db.users)[id := db.users[id]]
      && db.users[id].email == Lower(n.email.value) && db.users[id].role == n.role.value
      && db.users[id].department == n.department.value
      && resp.body == Ok(Session(sign(id), ToJson(Document(db.users[id]))))
  {
    if !AllFieldsPresent(n) {
      return Refuse(400, "All fields are required");
    }
    if n.role.value !in ROLES {
      return Refuse(400, "Invalid role selected");
    }
    if n.department.value !in DEPARTMENTS {
      return Refuse(400, "Invalid department selected");
    }
    var existing := FindByEmail(db.users, n.email.value);
    if existing.Some? {
      return Refuse(405, "Email is already registered");
    }
    var created := UserService.CreateUser(db, n, hash, isHash, id, token, now);
    if created.Err? {
      return Refuse(500, "An unexpected error occurred during registration");
    }
    var u := created.value;
    return Response(201, Ok(Session(sign(u.id), ToJson(Document(u)))));
  }

  /**
   * `POST /logout`: give the signed-in user a fresh token and save. The save
   * runs the validators, so a user whose stored fields no longer conform
   * (an update-profile can store any role) cannot log out.
   */
  method LogoutRoute(db: Db, header: Option<string>, verify: string -> Option<string>, freshToken: string,
                     isHash: string -> bool)
    returns (resp: Response<string>)
    requires db.Valid()
    modifies db
    ensures db.Valid() && db.okrs == old(db.okrs)
    ensures var g := RequireUser(header, verify, old(db.users));
      && (g.Deny? ==> resp == Denied(g) && db.users == old(db.users))
      && (g.Admit? ==>
            (resp.status == 200 <==> UserConforms(g.user, isHash) && !TokenTaken(old(db.users), freshToken, g.user.id)))
      && (g.Admit? && resp.status == 200 ==>
            resp == Response(200, Ok("Logged out successfully"))
            && db.users == old(db.users)[g.user.id := g.user.(token := freshToken)])
      && (g.Admit? && resp.status != 200 ==> resp == Refuse(500, "Error logging out") && db.users == old(db.users))
  {
    var gate := RequireUser(header, verify, db.users);
    if gate.Deny? {
      return Denied(gate);
    }
    var regenerated := UserModel.RegenerateToken(db, gate.user, false, freshToken, isHash);
    if regenerated.Err? {
      return Refuse(500, "Error logging out");
    }
    return Response(200, Ok("Logged out successfully"));
  }

  /**
   * `PUT /update-profile`: apply the submitted name, email, department,
   * designation and role to the signed-in user, with no validation: a user
   * can give themselves any role, including Admin. 500 when the new email
   * belongs to another user.
   */
  method UpdateProfileRoute(db: Db, header: Option<string>, verify: string -> Option<string>,
                            name: Option<string>, email: Option<string>, department: Option<string>,
                            designation: Option<string>, role: Option<string>)
    returns (resp: Response<map<string, Value>>)
    requires db.Valid()
    modifies db
    ensures db.Valid() && db.okrs == old(db.okrs)
    ensures var g := RequireUser(header, verify, old(db.users));
      && (g.Deny? ==> resp == Denied(g) && db.users == old(db.users))
      && (g.Admit? ==>
            var u := UserService.ApplyUserPatch(g.user, UserService.UserPatch(name, email, department, designation, role, None));
            if EmailTaken(old(db.users), u.email, g.user.id) then
              resp == Refuse(500, "An unexpected error occurred while updating the profile") && db.users == old(db.users)
            else
              resp == Response(200, Ok(ToJson(Document(u)))) && db.users == old(db.users)[g.user.id := u])
  {
    var gate := RequireUser(header, verify, db.users);
    if gate.Deny? {
      return Denied(gate);
    }
    var userId := gate.user.id;
    var updated := UserService.Update(db, userId, UserService.UserPatch(name, email, department, designation, role, None));
    if updated.Err? {
      return Refuse(500, "An unexpected error occurred while updating the profile");
    }
    if updated.value.None? {
      return Refuse(404, "User not found");
    }
    return Response(200, Ok(ToJson(Document(updated.value.value))));
  }

  /**
   * `PUT /change-password`: 400 for a missing field, 404 for an unknown
   * email, 400 with nothing changed when the current password does not
   * match, otherwise store the hash of the new password. The account is the
   * one the email names, not necessarily the signed-in user's.
   */
  method ChangePasswordRoute(db: Db, header: Option<string>, verify: string -> Option<string>,
                             email: Option<string>, currentPassword: Option<string>, newPassword: Option<string>,
                             matches: (string, string) -> bool, hash: string -> string, isHash: string -> bool)
    returns (resp: Response<string>)
    requires db.Valid()
    modifies db
    ensures db.Valid() && db.okrs == old(db.okrs)
    ensures resp.status != 200 ==> db.users == old(db.users)
    ensures var g := RequireUser(header, verify, old(db.users));
      && (g.Deny? ==> resp == Denied(g))
      && (g.Admit? && !(Truthy(email) && Truthy(currentPassword) && Truthy(newPassword)) ==>
            resp == Refuse(400, "Email, old password, and new password are required"))
      && (g.Admit? && Truthy(email) && Truthy(currentPassword) && Truthy(newPassword) ==>
            var found := FindByEmail(old(db.users), email.value);
            && (found.None? ==> resp == Refuse(404, "User not found"))
            && (found.Some? && !matches(currentPassword.value, found.value.password) ==>
                  resp == Refuse(400, "Old password is incorrect"))
            && (found.Some? && matches(currentPassword.value, found.value.password) ==>
                  var u := found.value.(password := hash(newPassword.value));
                  if UserConforms(u, isHash) then
                    resp == Response(200, Ok("Password updated successfully")) && db.users == old(db.users)[u.id := u]
                  else resp == Refuse(500, UNEXPECTED)))
  {
    var gate := RequireUser(header, verify, db.users);
    if gate.Deny? {
      return Denied(gate);
    }
    if !(Truthy(email) && Truthy(currentPassword) && Truthy(newPassword)) {
      return Refuse(400, "Email, old password, and new password are required");
    }
    var found := FindByEmail(db.users, email.value);
    if found.None? {
      return Refuse(404, "User not found");
    }
    var user := found.value;
    if !matches(currentPassword.value, user.password) {
      return Refuse(400, "Old password is incorrect");
    }
    user := user.(password := hash(newPassword.value));
    var saved := UserModel.Save(db, user, false, isHash);
    if saved.Err? {
      return Refuse(500, UNEXPECTED);
    }
    return Response(200, Ok("Password updated successfully"));
  }
}

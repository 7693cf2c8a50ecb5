/**
 * The stateful parts of the user model: `save` (schema validators and the
 * unique email index), `regenerateToken` and the static
 * `authenticateWithPassword`.
 */
module UserModel {
  import opened Common
  import opened UserSchema
  import opened Database

  /**
   * `user.save()`: a new document is inserted and an existing one rewritten,
   * after the validators pass (`isHash` stands for `isPasswordHash`) and
   * provided no other user has the email or the token. Saving a document
   * that is not new but no longer stored fails.
   */
  method Save(db: Db, u: User, isNew: bool, isHash: string -> bool) returns (r: Result<User, string>)
    requires db.Valid()
    modifies db
    ensures db.Valid() && db.okrs == old(db.okrs)
    ensures r.Ok? <==>
      && UserConforms(u, isHash)
      && (if isNew then u.id !in old(db.users) else u.id in old(db.users))
      && !EmailTaken(old(db.users), u.email, u.id)
      && !TokenTaken(old(db.users), u.token, u.id)
    ensures r.Ok? ==> r.value == u && db.users == old(db.users)[u.id := u]
    ensures r.Err? ==> db.users == old(db.users)
  {
    if !UserConforms(u, isHash) {
      return Err("Validation failed");
    }
    if isNew && u.id in db.users {
      return Err("Duplicate key");
    }
    if !isNew && u.id !in db.users {
      return Err("Document not found");
    }
    if EmailTaken(db.users, u.email, u.id) {
      return Err("Duplicate key");
    }
    if TokenTaken(db.users, u.token, u.id) {
      return Err("Duplicate key");
    }
    db.users := db.users[u.id := u];
    return Ok(u);
  }

  /**
   * `regenerateToken`: give the user a fresh token (a parameter standing for
   * `randomUUID()`), saving only a document that is not new.
   */
  method RegenerateToken(db: Db, u: User, isNew: bool, freshToken: string, isHash: string -> bool) returns (r: Result<User, string>)
    requires db.Valid()
    modifies db
    ensures db.Valid() && db.okrs == old(db.okrs)
    ensures r.Ok? ==> r.value == u.(token := freshToken)
    ensures isNew ==> r == Ok(u.(token := freshToken)) && db.users == old(db.users)
    ensures !isNew ==>
      (r.Ok? <==> (u.id in old(db.users) && UserConforms(u, isHash) && !EmailTaken(old(db.users), u.email, u.id)
                   && !TokenTaken(old(db.users), freshToken, u.id)))
    ensures r.Ok? && !isNew ==> db.users == old(db.users)[u.id := r.value]
    ensures r.Err? ==> db.users == old(db.users)
  {
    var updated := u.(token := freshToken);
    if isNew {
      return Ok(updated);
    }
    r := Save(db, updated, false, isHash);
  }

  /**
   * The static `authenticateWithPassword`: null for an unknown email or a
   * password that does not match the stored hash (`matches` stands for
   * `validatePassword`); otherwise record `now` as the last login and save.
   */
  method AuthenticateWithPassword(db: Db, email: string, password: string,
                                  matches: (string, string) -> bool, isHash: string -> bool, now: Time)
    returns (r: Result<Option<User>, string>)
    requires db.Valid()
    modifies db
    ensures db.Valid() && db.okrs == old(db.okrs)
    ensures var found := FindByEmail(old(db.users), email);
      && (found.None? || !matches(password, found.value.password) ==>
            r == Ok(None) && db.users == old(db.users))
      && (found.Some? && matches(password, found.value.password) ==>
            var u := found.value.(lastLoginAt := now);
            if UserConforms(u, isHash) then r == Ok(Some(u)) && db.users == old(db.users)[u.id := u]
            else r.Err? && db.users == old(db.users))
  {
    var found := FindByEmail(db.users, email);
    if found.None? {
      return Ok(None);
    }
    var user := found.value;
    if !matches(password, user.password) {
      return Ok(None);
    }
    user := user.(lastLoginAt := now);
    var id :| id in db.users && db.users[id] == found.value;
    assert user.id == id;
    var saved := Save(db, user, false, isHash);
    if saved.Err? {
      return Err(saved.error);
    }
    return Ok(Some(saved.value));
  }
}

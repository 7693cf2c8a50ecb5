/**
 * The two MongoDB collections the server works on, held as maps from
 * document id to document, together with the indexes' guarantees and the
 * lookups the services share.
 */
module Database {
  import opened Common
  import opened OkrSchema
  import opened UserSchema

  class Db {
    var okrs: map<string, Okr>
    var users: map<string, User>

    /** Documents are filed under their ids, and the unique indexes hold. */
    ghost predicate Valid()
      reads this
    {
      && KeyedById(okrs) && TitlesUnique(okrs)
      && UsersKeyedById(users) && EmailsUnique(users) && TokensUnique(users) && EmailsLowercase(users)
    }

    constructor ()
      ensures Valid()
      ensures okrs == map[] && users == map[]
    {
      okrs := map[];
      users := map[];
    }
  }

  /** Another OKR than `self` already has this title (the unique index on `title`). */
  predicate TitleTaken(okrs: map<string, Okr>, title: string, self: string) {
    exists other :: other in okrs && other != self && okrs[other].title == title
  }

  /** Another user than `self` already has this (lower-cased) email. */
  predicate EmailTaken(users: map<string, User>, email: string, self: string) {
    exists other :: other in users && other != self && users[other].email == email
  }

  /** Another user than `self` already holds this token (the unique index on `token`). */
  predicate TokenTaken(users: map<string, User>, token: string, self: string) {
    exists other :: other in users && other != self && users[other].token == token
  }

  /**
   * `User.findOne({ email })`: the schema lower-cases the email in the query
   * as it does on save, so the lookup ignores ASCII case.
   */
  function FindByEmail(users: map<string, User>, email: string): (r: Option<User>)
    requires EmailsUnique(users)
    ensures r.Some? <==> exists id :: id in users && users[id].email == Lower(email)
    ensures r.Some? ==> r.value in users.Values && r.value.email == Lower(email)
  {
    var e := Lower(email);
    if exists id :: id in users && users[id].email == e then
      var id :| id in users && users[id].email == e;
      Some(users[id])
    else None
  }
}

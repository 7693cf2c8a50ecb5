/**
 * The two authentication middlewares. `requireUser` rejects a request
 * without a valid bearer token; `authenticateWithToken` only attaches a user
 * when it can and always lets the request through. Token verification
 * (`jwt.verify`) is the parameter `verify`: `None` stands for a thrown error,
 * `Some(userId)` for the decoded user id.
 */
module AuthMiddleware {
  import opened Common
  import opened UserSchema

  /** What `requireUser` decides: continue with the user, or answer with a status and an error. */
  datatype Gate = Admit(user: User) | Deny(status: int, error: string)

  /** `authHeader.split(' ')[1]`: undefined when the header has no space. */
  function SecondField(header: string): Option<string> {
    var pieces := Split(header, ' ');
    if |pieces| >= 2 then Some(pieces[1]) else None
  }

  /**
   * `requireUser`, up to the point where it calls `next()` or answers 401:
   * a request is admitted exactly when its header's second space-separated
   * field is a non-empty token that verifies to the id of a stored user, and
   * then it carries that user; every refusal is a 401.
   */
  function RequireUser(header: Option<string>, verify: string -> Option<string>, users: map<string, User>): (g: Gate)
    ensures g.Admit? <==>
      && header.Some? && SecondField(header.value).Some?
      && var t := SecondField(header.value).value;
         t != "" && verify(t).Some? && verify(t).value in users
    ensures g.Admit? ==> g.user == users[verify(SecondField(header.value).value).value]
    ensures g.Deny? ==> g.status == 401
  {
    if !Truthy(header) then Deny(401, "Authentication required")
    else
      var token := SecondField(header.value);
      if !Truthy(token) then Deny(401, "Authentication required")
      else match verify(token.value)
        case None => Deny(401, "Invalid token")
        case Some(userId) => if userId in users then Admit(users[userId]) else Deny(401, "Invalid token")
  }

  /**
   * Only the second field is read: a header `scheme token` is treated the
   * same whatever the scheme, so `Basic t` passes exactly when `Bearer t`
   * does.
   */
  lemma RequireUserIgnoresScheme(scheme: string, token: string, verify: string -> Option<string>, users: map<string, User>)
    requires ' ' !in scheme && ' ' !in token
    ensures RequireUser(Some(scheme + " " + token), verify, users) == RequireUser(Some("Bearer " + token), verify, users)
  {
    SplitNoSeparator(token, ' ');
    SplitAtFirst(scheme, token, ' ');
    SplitAtFirst("Bearer", token, ' ');
    assert scheme + " " + token == scheme + [' '] + token;
    assert "Bearer " + token == "Bearer" + [' '] + token;
  }

  /** A second space (`Bearer  t`) leaves an empty second field, which is refused. */
  lemma RequireUserRefusesDoubleSpace(token: string, verify: string -> Option<string>, users: map<string, User>)
    ensures RequireUser(Some("Bearer  " + token), verify, users) == Deny(401, "Authentication required")
  {
    SplitAtFirst("Bearer", " " + token, ' ');
    SplitAtFirst("", token, ' ');
    assert "Bearer  " + token == "Bearer" + [' '] + (" " + token);
    assert " " + token == "" + [' '] + token;
  }

  // ---------------------------------------------------------------------------
  // authenticateWithToken
  // ---------------------------------------------------------------------------

  predicate LineTerminator(c: char) {
    c == '\n' || c == '\r' || c as int == 0x2028 || c as int == 0x2029
  }

  /** The longest prefix without a line terminator (what `.+` can match). */
  function TakeLine(s: string): (r: string)
    ensures |r| <= |s| && r == s[..|r|]
    ensures forall i :: 0 <= i < |r| ==> !LineTerminator(r[i])
    ensures |r| < |s| ==> LineTerminator(s[|r|])
  {
    if s == [] || LineTerminator(s[0]) then [] else [s[0]] + TakeLine(s[1..])
  }

  /**
   * `authHeader.match(/^(Token|Bearer) (.+)/i)[2]`: the rest of the line
   * after a case-insensitive `Token ` or `Bearer ` prefix, if non-empty.
   */
  function MatchToken(header: string): Option<string> {
    var rest :=
      if |header| >= 6 && Lower(header[..6]) == "token " then Some(header[6..])
      else if |header| >= 7 && Lower(header[..7]) == "bearer " then Some(header[7..])
      else None;
    if rest.Some? && TakeLine(rest.value) != [] then Some(TakeLine(rest.value)) else None
  }

  /** `authenticateWithToken`: the user attached to the request, if any; the request always continues. */
  function AuthenticateWithToken(header: Option<string>, verify: string -> Option<string>, users: map<string, User>): Option<User> {
    if !Truthy(header) then None
    else
      var token := MatchToken(header.value);
      if token.None? then None
      else match verify(token.value)
        case None => None
        case Some(userId) => if userId in users then Some(users[userId]) else None
  }

  /** The case-insensitive prefix test accepts `Bearer ` as the lower-case `bearer `. */
  lemma LowerBearer()
    ensures Lower("Bearer ") == "bearer "
  {
    var l := Lower("Bearer ");
    assert l[0] == 'b' && l[1] == 'e' && l[2] == 'a' && l[3] == 'r' && l[4] == 'e' && l[5] == 'r' && l[6] == ' ';
  }

  /**
   * For a well-formed `Bearer` header the two middlewares attach the same
   * user: the lenient one attaches exactly the user the strict one admits.
   */
  lemma MiddlewaresAgreeOnBearer(token: string, verify: string -> Option<string>, users: map<string, User>)
    requires token != "" && ' ' !in token
    requires forall i :: 0 <= i < |token| ==> !LineTerminator(token[i])
    ensures var g := RequireUser(Some("Bearer " + token), verify, users);
      AuthenticateWithToken(Some("Bearer " + token), verify, users) == (if g.Admit? then Some(g.user) else None)
  {
    var h := "Bearer " + token;
    assert h[..7] == "Bearer ";
    assert h[7..] == token;
    assert Lower(h[..6]) != "token " by {
      assert h[..6] == "Bearer";
      assert Lower(h[..6])[0] == 'b';
    }
    LowerBearer();
    assert TakeLine(token) == token;
    SplitNoSeparator(token, ' ');
    SplitAtFirst("Bearer", token, ' ');
    assert h == "Bearer" + [' '] + token;
  }

  /**
   * The middlewares part ways on other schemes: `Basic t` carries the token
   * `t` for the strict one, which ignores the scheme, but attaches no user in
   * the lenient one.
   */
  lemma MiddlewaresDifferOnScheme(verify: string -> Option<string>, users: map<string, User>)
    ensures AuthenticateWithToken(Some("Basic t"), verify, users) == None
    ensures SecondField("Basic t") == Some("t")
  {
    var h := "Basic t";
    assert Lower(h[..6])[0] == 'b';
    assert Lower(h[..7])[0] == 'b';
    assert MatchToken(h) == None;
    SplitAtFirst("Basic", "t", ' ');
    SplitNoSeparator("t", ' ');
    assert h == "Basic" + [' '] + "t";
  }

  /**
   * They also part ways on a token with a space: `Bearer a b` is the token
   * `a` for the strict one and `a b` for the lenient one.
   */
  lemma MiddlewaresDifferOnSpaces()
    ensures SecondField("Bearer a b") == Some("a")
    ensures MatchToken("Bearer a b") == Some("a b")
  {
    SecondFieldOfTwoWords();
    MatchTokenOfTwoWords();
  }

  lemma SecondFieldOfTwoWords()
    ensures SecondField("Bearer a b") == Some("a")
  {
    SplitAtFirst("a", "b", ' ');
    SplitNoSeparator("b", ' ');
    assert "a b" == "a" + [' '] + "b";
    SplitAtFirst("Bearer", "a b", ' ');
    assert "Bearer a b" == "Bearer" + [' '] + "a b";
  }

  lemma MatchTokenOfTwoWords()
    ensures MatchToken("Bearer a b") == Some("a b")
  {
    var h := "Bearer a b";
    assert h[..7] == "Bearer ";
    assert Lower(h[..6])[0] == 'b';
    LowerBearer();
    assert h[7..] == "a b";
    assert TakeLine("a b") == "a b" by {
      assert "a b"[1..] == " b";
      assert " b"[1..] == "b";
      assert TakeLine("b") == "b";
    }
  }
}

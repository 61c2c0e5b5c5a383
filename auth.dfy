/**
  Request authentication of server/app/auth.py: the bearer header is parsed,
  its token looked up among the session rows, and the owning user must exist
  and be active. These are read-only lookups over the tables' values; no
  table is changed, and a session whose user became inactive stays in place
  but no longer authenticates.

  Password hashing and token generation are not modelled here: bcrypt is a
  parameter of the handlers that use it, and a fresh token is an input of
  `login`.
 */
module Auth {
  import opened Outcomes
  import opened Text
  import opened Models

  const BearerPrefix: string := "Bearer "

  /**
    The token a request presents. Missing, empty and wrongly prefixed headers
    (the prefix is case-sensitive and includes the space) present none;
    otherwise the token is the rest of the header with surrounding
    whitespace stripped.
   */
  function BearerToken(header: Option<string>): (r: Option<string>)
    ensures r.None? <==> header.None? || !StartsWith(header.value, BearerPrefix)
    ensures r.Some? ==> r.value == Strip(header.value[|BearerPrefix|..])
  {
    if header.None? || header.value == "" || !StartsWith(header.value, BearerPrefix) then None
    else
      RemovePrefixOccurrence(header.value, BearerPrefix);
      Some(Strip(ReplaceFirst(header.value, BearerPrefix, "")))
  }

  /** Two spaces after `Bearer` and a trailing space still present the token `abc`. */
  lemma {:induction false} BearerTokenStripsWhitespace()
    ensures BearerToken(Some("Bearer  abc ")) == Some("abc")
  {
    var h := "Bearer  abc ";
    assert StartsWith(h, BearerPrefix) by { assert h[..7] == BearerPrefix; }
    assert h[7..] == " abc ";
    StripExample();
  }

  /** A lower-case scheme is not accepted. */
  lemma LowerCaseSchemeRejected()
    ensures BearerToken(Some("bearer abc")) == None
  {
    assert "bearer abc"[..7][0] != BearerPrefix[0];
  }

  /** The first session row holding `token`, if any. */
  function FindSession(sessions: seq<SessionToken>, token: string): (r: Option<SessionToken>)
    ensures r.Some? ==> r.value in sessions && r.value.token == token
    ensures r.None? <==> token !in Tokens(sessions)
  {
    if sessions == [] then None
    else if sessions[0].token == token then Some(sessions[0])
    else FindSession(sessions[1..], token)
  }

  /** The first user row with primary key `id`, if any. */
  function FindUser(users: seq<User>, id: int): (r: Option<User>)
    ensures r.Some? ==> r.value in users && r.value.id == id
    ensures r.None? <==> id !in UserIds(users)
  {
    if users == [] then None
    else if users[0].id == id then Some(users[0])
    else FindUser(users[1..], id)
  }

  /**
    `get_current_user`: every failure is a 401, with the detail of the first
    check that fails; on success the user is an active user row that owns a
    session holding the presented token.
   */
  function CurrentUser(header: Option<string>, sessions: seq<SessionToken>, users: seq<User>): (r: Result<User>)
    ensures r.Ok? || r.error.Unauthorized?
    ensures BearerToken(header).None? ==> r == Err(Unauthorized("Missing token"))
    ensures BearerToken(header).Some? && BearerToken(header).value !in Tokens(sessions) ==>
      r == Err(Unauthorized("Invalid token"))
    ensures r.Ok? ==>
      && r.value in users && r.value.isActive
      && BearerToken(header).Some?
      && exists s :: s in sessions && s.token == BearerToken(header).value && s.userId == r.value.id
  {
    match BearerToken(header)
    case None => Err(Unauthorized("Missing token"))
    case Some(token) =>
      match FindSession(sessions, token)
      case None => Err(Unauthorized("Invalid token"))
      case Some(session) =>
        match FindUser(users, session.userId)
        case None => Err(Unauthorized("Inactive user"))
        case Some(user) =>
          if !user.isActive then Err(Unauthorized("Inactive user")) else Ok(user)
  }

  /**
    With unique tokens and user ids, a request authenticates exactly when its
    token belongs to a session whose user exists and is active, and it then
    authenticates as that user. A session whose user is missing or inactive
    yields "Inactive user".
   */
  lemma {:induction false} AuthenticatesIff(header: Option<string>, sessions: seq<SessionToken>, users: seq<User>,
                                            s: SessionToken, u: User)
    requires UniqueTokens(sessions) && UniqueUserIds(users)
    requires BearerToken(header) == Some(s.token) && s in sessions
    ensures u in users && u.id == s.userId && u.isActive ==> CurrentUser(header, sessions, users) == Ok(u)
    ensures s.userId !in UserIds(users) ==> CurrentUser(header, sessions, users) == Err(Unauthorized("Inactive user"))
    ensures u in users && u.id == s.userId && !u.isActive ==>
      CurrentUser(header, sessions, users) == Err(Unauthorized("Inactive user"))
  {
    var found := FindSession(sessions, s.token);
    assert found == Some(s) by {
      var i :| 0 <= i < |sessions| && sessions[i] == s;
      var j :| 0 <= j < |sessions| && sessions[j] == found.value;
      assert i == j;
    }
    if u in users && u.id == s.userId {
      var owner := FindUser(users, s.userId);
      var i :| 0 <= i < |users| && users[i] == u;
      var j :| 0 <= j < |users| && users[j] == owner.value;
      assert i == j;
    }
  }

  /**
    `require_admin`: authentication runs first, so an anonymous or invalid
    request is refused with 401, never 403; an authenticated user who is not
    an admin is refused with 403; an admin gets back the same user.
   */
  function RequireAdmin(header: Option<string>, sessions: seq<SessionToken>, users: seq<User>): (r: Result<User>)
    ensures !CurrentUser(header, sessions, users).Ok? ==> r == CurrentUser(header, sessions, users) && r.error.Unauthorized?
    ensures r.Err? && r.error.Forbidden? <==>
      CurrentUser(header, sessions, users).Ok? && CurrentUser(header, sessions, users).value.role != "admin"
    ensures r.Err? && r.error.Forbidden? ==> r.error.detail == "Admin only"
    ensures r.Ok? <==> CurrentUser(header, sessions, users).Ok? && CurrentUser(header, sessions, users).value.role == "admin"
    ensures r.Ok? ==> r == CurrentUser(header, sessions, users)
  {
    var principal := CurrentUser(header, sessions, users);
    if principal.Err? then principal
    else if principal.value.role != "admin" then Err(Forbidden("Admin only"))
    else principal
  }
}

/**
 * `authenticateRequest`: the guard chain protected routes run before
 * serving a request. It only reads the store.
 */
module AuthMiddleware {
  import opened Wrappers
  import opened Crypto
  import opened OrderedMap
  import opened Database
  import opened Http

  datatype AuthResult = Authenticated(user: UserView) | Rejected(error: string)

  /** The user a verified token names, when the payload carries a `userId`. */
  function TokenUser(db: DatabaseService, payload: Payload): (r: Option<User>)
    reads db
    requires db.Valid()
    ensures r.Some? ==> payload.userId == Some(r.value.id) && Entry(r.value.id, r.value) in db.users
    ensures r.None? <==>
      || payload.userId.None?
      || forall j :: 0 <= j < |db.users| ==> db.users[j].key != payload.userId.value
  {
    if payload.userId.Some? then db.GetUserById(payload.userId.value) else None
  }

  /**
   * The guards in order: bearer header, token signature, live session for
   * the exact token, user named by the token, verified flag.
   */
  function Authenticate(db: DatabaseService, p: Primitives, secret: string, header: Option<string>, now: int): (r: AuthResult)
    reads db
    requires db.Valid()
    ensures BearerToken(header).None? ==> r == Rejected("No token provided")
    ensures BearerToken(header).Some? && VerifyJwt(p, BearerToken(header).value, secret).None? ==>
      r == Rejected("Invalid token")
    ensures BearerToken(header).Some? && VerifyJwt(p, BearerToken(header).value, secret).Some? ==>
      var token := BearerToken(header).value;
      var user := TokenUser(db, VerifyJwt(p, token, secret).value);
      && (ValidSession(db.sessions, token, now).None? ==> r == Rejected("Session expired"))
      && (ValidSession(db.sessions, token, now).Some? && user.None? ==> r == Rejected("User not found"))
      && (ValidSession(db.sessions, token, now).Some? && user.Some? && !user.value.isVerified ==>
            r == Rejected("User not verified"))
      && (ValidSession(db.sessions, token, now).Some? && user.Some? && user.value.isVerified ==>
            r == Authenticated(View(user.value)))
    ensures r.Authenticated? ==> r.user.isVerified
    ensures r.Authenticated? ==>
      && BearerToken(header).Some?
      && VerifyJwt(p, BearerToken(header).value, secret).Some?
      && ValidSession(db.sessions, BearerToken(header).value, now).Some?
      && TokenUser(db, VerifyJwt(p, BearerToken(header).value, secret).value).Some?
      && r.user == View(TokenUser(db, VerifyJwt(p, BearerToken(header).value, secret).value).value)
  {
    var token := BearerToken(header);
    if token.None? then Rejected("No token provided")
    else
      var payload := VerifyJwt(p, token.value, secret);
      if payload.None? then Rejected("Invalid token")
      else if ValidSession(db.sessions, token.value, now).None? then Rejected("Session expired")
      else
        var user := TokenUser(db, payload.value);
        if user.None? then Rejected("User not found")
        else if !user.value.isVerified then Rejected("User not verified")
        else Authenticated(View(user.value))
  }

  /**
   * A token this server signed for a verified user, with a live session
   * for it, passes every guard and yields that user.
   */
  lemma SignedTokenAuthenticates(db: DatabaseService, p: Primitives, secret: string, payload: Payload, u: User, now: int)
    requires db.Valid() && Sound(p)
    requires payload.userId == Some(u.id) && Entry(u.id, u) in db.users && u.isVerified
    requires ValidSession(db.sessions, GenerateJwt(p, payload, secret), now).Some?
    ensures Authenticate(db, p, secret, Some(BearerPrefix + GenerateJwt(p, payload, secret)), now) == Authenticated(View(u))
  {
    var token := GenerateJwt(p, payload, secret);
    BearerTokenRoundTrip(token);
    VerifyGeneratedJwt(p, payload, secret);
    GetEntry(db.users, Entry(u.id, u));
  }
}

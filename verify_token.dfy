/** `POST /api/auth/verify-token`: a read-only guard chain ending in the user's fields. */
module VerifyTokenRoute {
  import opened Wrappers
  import opened Crypto
  import opened Database
  import opened Http
  import opened AuthMiddleware

  function VerifyToken(db: DatabaseService, p: Primitives, secret: string, header: Option<string>, now: int): (r: Response)
    reads db
    requires db.Valid()
    ensures BearerToken(header).None? ==> r == Fail(401, "No token provided")
    ensures BearerToken(header).Some? && VerifyJwt(p, BearerToken(header).value, secret).None? ==>
      r == Fail(401, "Invalid token")
    ensures BearerToken(header).Some? && VerifyJwt(p, BearerToken(header).value, secret).Some? ==>
      var token := BearerToken(header).value;
      var user := TokenUser(db, VerifyJwt(p, token, secret).value);
      && (ValidSession(db.sessions, token, now).None? ==> r == Fail(401, "Session expired or invalid"))
      && (ValidSession(db.sessions, token, now).Some? && user.None? ==> r == Fail(404, "User not found"))
      && (ValidSession(db.sessions, token, now).Some? && user.Some? ==> r == Ok(200, TokenValid(View(user.value))))
    ensures r.Fail? ==> r.status in {401, 404}
    ensures r.Ok? ==>
      && r.status == 200 && r.body.TokenValid?
      && BearerToken(header).Some?
      && VerifyJwt(p, BearerToken(header).value, secret).Some?
      && ValidSession(db.sessions, BearerToken(header).value, now).Some?
      && TokenUser(db, VerifyJwt(p, BearerToken(header).value, secret).value).Some?
      && r.body.user == View(TokenUser(db, VerifyJwt(p, BearerToken(header).value, secret).value).value)
  {
    var token := BearerToken(header);
    if token.None? then Fail(401, "No token provided")
    else
      var payload := VerifyJwt(p, token.value, secret);
      if payload.None? then Fail(401, "Invalid token")
      else if ValidSession(db.sessions, token.value, now).None? then Fail(401, "Session expired or invalid")
      else
        var user := TokenUser(db, payload.value);
        if user.None? then Fail(404, "User not found")
        else Ok(200, TokenValid(View(user.value)))
  }

  /**
   * The middleware accepts exactly what this route accepts for a verified
   * user; this route has no verified gate, so a user the middleware turns
   * away as "User not verified" is reported here with `tokenValid: true`.
   */
  lemma VerifyTokenAdmitsUnverified(db: DatabaseService, p: Primitives, secret: string, header: Option<string>, now: int)
    requires db.Valid()
    ensures Authenticate(db, p, secret, header, now).Authenticated? <==>
      VerifyToken(db, p, secret, header, now).Ok? && VerifyToken(db, p, secret, header, now).body.user.isVerified
    ensures Authenticate(db, p, secret, header, now) == Rejected("User not verified") ==>
      VerifyToken(db, p, secret, header, now).Ok? && !VerifyToken(db, p, secret, header, now).body.user.isVerified
  {}
}

/**
 * `POST /api/auth/login`: three ways to identify the user (voter ID and
 * password, email and password, mobile and OTP), then the verified gate,
 * the signed token, a 24-hour session and the expiry sweep.
 */
module LoginRoute {
  import opened Wrappers
  import opened Strings
  import opened Validation
  import opened Crypto
  import opened OrderedMap
  import opened Database
  import opened Http
  import opened AuthMiddleware

  /** The request body; an absent field is the empty string. */
  datatype LoginRequest = LoginRequest(
    loginType: string,
    voterId: string,
    email: string,
    mobile: string,
    password: string,
    otp: string)

  predicate KnownLoginType(loginType: string) {
    loginType in ["voterID", "email", "mobile"]
  }

  /** 24 hours, in seconds. */
  const TokenLifetime: nat := 24 * 60 * 60

  /** The claims signed into the token, stamped with the current second. */
  function LoginPayload(u: User, now: nat): (pl: Payload)
    ensures pl.userId == Some(u.id) && pl.iat == now / 1000 && pl.exp == pl.iat + 86400
  {
    Payload(Some(u.id), u.voterId, u.email, u.mobile, now / 1000, now / 1000 + TokenLifetime)
  }

  datatype Resolution = Reject(response: Response) | Accept(user: User)

  /**
   * The voter ID branch, which only reads the store: both fields present,
   * the format valid, then the user found by the hashed normalised voter
   * ID must have a matching password. An unknown voter ID and a wrong
   * password draw the same 401.
   */
  function VoterIdResolution(db: DatabaseService, p: Primitives, req: LoginRequest): (res: Resolution)
    reads db
    requires db.Valid()
    ensures req.voterId == "" || req.password == "" ==> res == Reject(Fail(400, "Voter ID and password are required"))
    ensures res.Reject? ==>
      res.response.Fail? && (res.response.status == 400 || res.response == Fail(401, "Invalid Voter ID or password"))
    ensures req.voterId != "" && req.password != "" && ValidateVoterId(req.voterId).Invalid? ==>
      res == Reject(Fail(400, ValidateVoterId(req.voterId).error))
    ensures req.voterId != "" && req.password != "" && ValidateVoterId(req.voterId).Valid? ==>
      var found := db.GetUserByVoterIdHash(p.hashData(NormalizeVoterId(req.voterId)));
      && (res.Accept? <==> found.Some? && p.verifyPassword(req.password, found.value.passwordHash))
      && (res.Reject? ==> res.response == Fail(401, "Invalid Voter ID or password"))
    ensures res.Accept? ==>
      && p.verifyPassword(req.password, res.user.passwordHash) && Entry(res.user.id, res.user) in db.users
      && db.GetUserByVoterIdHash(p.hashData(NormalizeVoterId(req.voterId))) == Some(res.user)
  {
    if req.voterId == "" || req.password == "" then Reject(Fail(400, "Voter ID and password are required"))
    else if ValidateVoterId(req.voterId).Invalid? then Reject(Fail(400, ValidateVoterId(req.voterId).error))
    else
      var found := db.GetUserByVoterIdHash(p.hashData(NormalizeVoterId(req.voterId)));
      if found.None? || !p.verifyPassword(req.password, found.value.passwordHash) then
        Reject(Fail(401, "Invalid Voter ID or password"))
      else Accept(found.value)
  }

  /**
   * The email branch, the same steps with the user found by the
   * lower-cased email in insertion order.
   */
  function EmailResolution(db: DatabaseService, p: Primitives, req: LoginRequest): (res: Resolution)
    reads db
    requires db.Valid()
    ensures req.email == "" || req.password == "" ==> res == Reject(Fail(400, "Email and password are required"))
    ensures res.Reject? ==>
      res.response.Fail? && (res.response.status == 400 || res.response == Fail(401, "Invalid email or password"))
    ensures req.email != "" && req.password != "" && ValidateEmail(req.email).Invalid? ==>
      res == Reject(Fail(400, ValidateEmail(req.email).error))
    ensures req.email != "" && req.password != "" && ValidateEmail(req.email).Valid? ==>
      var found := UserWithEmail(db.users, ToLower(req.email));
      && (res.Accept? <==> found.Some? && p.verifyPassword(req.password, found.value.passwordHash))
      && (res.Reject? ==> res.response == Fail(401, "Invalid email or password"))
    ensures res.Accept? ==>
      && p.verifyPassword(req.password, res.user.passwordHash) && Entry(res.user.id, res.user) in db.users
      && UserWithEmail(db.users, ToLower(req.email)) == Some(res.user)
  {
    if req.email == "" || req.password == "" then Reject(Fail(400, "Email and password are required"))
    else if ValidateEmail(req.email).Invalid? then Reject(Fail(400, ValidateEmail(req.email).error))
    else
      var found := UserWithEmail(db.users, ToLower(req.email));
      if found.None? || !p.verifyPassword(req.password, found.value.passwordHash) then
        Reject(Fail(401, "Invalid email or password"))
      else
        UserWithEmailIsStored(db, ToLower(req.email));
        Accept(found.value)
  }

  /** The two password branches of the route, chosen by `loginType`. */
  function PasswordResolution(db: DatabaseService, p: Primitives, req: LoginRequest): (res: Resolution)
    reads db
    requires db.Valid()
    requires req.loginType == "voterID" || req.loginType == "email"
    ensures res.Accept? ==> p.verifyPassword(req.password, res.user.passwordHash) && Entry(res.user.id, res.user) in db.users
    ensures res.Reject? ==> res.response.Fail? && res.response.status in {400, 401}
    ensures res.Reject? && res.response.status == 401 ==>
      res.response.error == if req.loginType == "voterID" then "Invalid Voter ID or password" else "Invalid email or password"
  {
    if req.loginType == "voterID" then VoterIdResolution(db, p, req) else EmailResolution(db, p, req)
  }

  lemma UserWithEmailIsStored(db: DatabaseService, email: string)
    requires db.Valid()
    ensures var r := UserWithEmail(db.users, email);
      r.Some? ==> Entry(r.value.id, r.value) in db.users
  {
    var r := UserWithEmail(db.users, email);
    if r.Some? {
      var i :| 0 <= i < |db.users| && db.users[i].value == r.value;
      assert db.users[i] == Entry(r.value.id, r.value);
    }
  }

  /** The 400s of the mobile branch, which come before any store access. */
  function MobileFormatRejection(req: LoginRequest): (r: Option<Response>)
    ensures r.None? <==> req.mobile != "" && req.otp != "" && ValidateMobile(req.mobile).Valid? && ValidateOtp(req.otp).Valid?
    ensures r.Some? ==> r.value.Fail? && r.value.status == 400
    ensures req.mobile == "" || req.otp == "" ==> r == Some(Fail(400, "Mobile number and OTP are required"))
    ensures req.mobile != "" && req.otp != "" && ValidateMobile(req.mobile).Invalid? ==>
      r == Some(Fail(400, ValidateMobile(req.mobile).error))
    ensures req.mobile != "" && req.otp != "" && ValidateMobile(req.mobile).Valid? && ValidateOtp(req.otp).Invalid? ==>
      r == Some(Fail(400, ValidateOtp(req.otp).error))
  {
    if req.mobile == "" || req.otp == "" then Some(Fail(400, "Mobile number and OTP are required"))
    else if ValidateMobile(req.mobile).Invalid? then Some(Fail(400, ValidateMobile(req.mobile).error))
    else if ValidateOtp(req.otp).Invalid? then Some(Fail(400, ValidateOtp(req.otp).error))
    else None
  }

  /**
   * What the common tail does once user `u` is identified, given the OTP
   * table and session table it starts from and those it leaves behind.
   */
  predicate LoginCompleted(p: Primitives, secret: string, u: User, sessionId: string, now: nat,
                           otps0: Table<OtpRecord>, sessions0: Table<Session>,
                           otps: Table<OtpRecord>, sessions: Table<Session>, r: Response)
  {
    if !u.isVerified then
      r == VerificationRequired(u.mobile) && otps == otps0 && sessions == sessions0
    else
      var token := GenerateJwt(p, LoginPayload(u, now), secret);
      && r == Ok(200, LoggedIn(View(u), token, TokenLifetime))
      && sessions == UnexpiredSessions(Set(sessions0, sessionId, NewSession(sessionId, u.id, token, 24, now)), now)
      && otps == UnexpiredOtps(otps0, now)
  }

  /** The verified gate, token, session and sweep shared by the three branches. */
  method Complete(db: DatabaseService, p: Primitives, secret: string, u: User, sessionId: string, now: nat)
    returns (r: Response)
    requires db.Valid()
    modifies db
    ensures db.Valid()
    ensures LoginCompleted(p, secret, u, sessionId, now, old(db.otpRecords), old(db.sessions), db.otpRecords, db.sessions, r)
    ensures r.Ok? ==> r.body.LoggedIn? && ValidSession(db.sessions, r.body.token, now).Some?
    ensures db.users == old(db.users)
    ensures db.voterIdIndex == old(db.voterIdIndex) && db.mobileIndex == old(db.mobileIndex)
  {
    if !u.isVerified {
      return VerificationRequired(u.mobile);
    }
    var token := GenerateJwt(p, LoginPayload(u, now), secret);
    var session := db.CreateSession(u.id, token, 24, sessionId, now);
    GetAfterSet(old(db.sessions), sessionId, session, sessionId);
    db.CleanupExpiredRecords(now);
    SweepKeepsValidSession(Set(old(db.sessions), sessionId, session), token, now, now);
    r := Ok(200, LoggedIn(View(u), token, TokenLifetime));
  }

  method Login(db: DatabaseService, p: Primitives, secret: string, req: LoginRequest, sessionId: string, now: nat)
    returns (r: Response)
    requires db.Valid()
    modifies db
    ensures db.Valid()
    ensures db.users == old(db.users)
    ensures db.voterIdIndex == old(db.voterIdIndex) && db.mobileIndex == old(db.mobileIndex)
    ensures !KnownLoginType(req.loginType) ==>
      r == Fail(400, "Invalid login type") && db.otpRecords == old(db.otpRecords) && db.sessions == old(db.sessions)
    ensures req.loginType == "voterID" || req.loginType == "email" ==>
      var res := old(PasswordResolution(db, p, req));
      && (res.Reject? ==> r == res.response && db.otpRecords == old(db.otpRecords) && db.sessions == old(db.sessions))
      && (res.Accept? ==>
            LoginCompleted(p, secret, res.user, sessionId, now, old(db.otpRecords), old(db.sessions), db.otpRecords, db.sessions, r))
    ensures req.loginType == "mobile" ==>
      var m := NormalizeMobile(req.mobile);
      var found := old(ValidOtp(db.otpRecords, m, req.otp, now));
      var user := old(db.GetUserByMobile(m));
      && (MobileFormatRejection(req).Some? ==>
            r == MobileFormatRejection(req).value && db.otpRecords == old(db.otpRecords) && db.sessions == old(db.sessions))
      && (MobileFormatRejection(req).None? && found.None? ==>
            && r == Fail(401, "Invalid or expired OTP")
            && db.otpRecords == IncrementAttempts(old(db.otpRecords), m, req.otp)
            && db.sessions == old(db.sessions))
      && (MobileFormatRejection(req).None? && found.Some? && user.None? ==>
            && r == Fail(404, "User not found")
            && db.otpRecords == MarkUsed(old(db.otpRecords), found.value.id)
            && db.sessions == old(db.sessions))
      && (MobileFormatRejection(req).None? && found.Some? && user.Some? ==>
            LoginCompleted(p, secret, user.value, sessionId, now,
                           MarkUsed(old(db.otpRecords), found.value.id), old(db.sessions), db.otpRecords, db.sessions, r))
    ensures r.Ok? ==> r.body.LoggedIn? && ValidSession(db.sessions, r.body.token, now).Some?
  {
    if !KnownLoginType(req.loginType) {
      return Fail(400, "Invalid login type");
    }
    var user: User;
    if req.loginType == "voterID" {
      if req.voterId == "" || req.password == "" {
        return Fail(400, "Voter ID and password are required");
      }
      var check := ValidateVoterId(req.voterId);
      if check.Invalid? {
        return Fail(400, check.error);
      }
      var found := db.GetUserByVoterIdHash(p.hashData(NormalizeVoterId(req.voterId)));
      if found.None? || !p.verifyPassword(req.password, found.value.passwordHash) {
        return Fail(401, "Invalid Voter ID or password");
      }
      user := found.value;
    } else if req.loginType == "email" {
      if req.email == "" || req.password == "" {
        return Fail(400, "Email and password are required");
      }
      var check := ValidateEmail(req.email);
      if check.Invalid? {
        return Fail(400, check.error);
      }
      var found := db.GetUserByEmail(ToLower(req.email));
      if found.None? || !p.verifyPassword(req.password, found.value.passwordHash) {
        return Fail(401, "Invalid email or password");
      }
      user := found.value;
    } else {
      if req.mobile == "" || req.otp == "" {
        return Fail(400, "Mobile number and OTP are required");
      }
      var mobileCheck := ValidateMobile(req.mobile);
      if mobileCheck.Invalid? {
        return Fail(400, mobileCheck.error);
      }
      var otpCheck := ValidateOtp(req.otp);
      if otpCheck.Invalid? {
        return Fail(400, otpCheck.error);
      }
      var m := NormalizeMobile(req.mobile);
      var record := db.GetValidOtp(m, req.otp, now);
      if record.None? {
        db.IncrementOtpAttempts(m, req.otp);
        return Fail(401, "Invalid or expired OTP");
      }
      db.MarkOtpAsUsed(record.value.id);
      var found := db.GetUserByMobile(m);
      if found.None? {
        return Fail(404, "User not found");
      }
      user := found.value;
    }
    r := Complete(db, p, secret, user, sessionId, now);
  }

  /**
   * The token a successful login returns opens the middleware at the same
   * instant: the user is stored, the token verifies, and the session the
   * login created (or an earlier one for the same token) is live.
   */
  lemma LoginTokenAuthenticates(db: DatabaseService, p: Primitives, secret: string, u: User, now: nat)
    requires db.Valid() && Sound(p)
    requires Entry(u.id, u) in db.users && u.isVerified
    requires ValidSession(db.sessions, GenerateJwt(p, LoginPayload(u, now), secret), now).Some?
    ensures var token := GenerateJwt(p, LoginPayload(u, now), secret);
      Authenticate(db, p, secret, Some(BearerPrefix + token), now) == Authenticated(View(u))
  {
    SignedTokenAuthenticates(db, p, secret, LoginPayload(u, now), u, now);
  }

  /**
   * Tokens carry no randomness: two logins of the same user within the
   * same second receive the same token, so their two sessions share it.
   */
  lemma SameSecondLoginsShareToken(p: Primitives, secret: string, u: User, now1: nat, now2: nat)
    requires now1 / 1000 == now2 / 1000
    ensures GenerateJwt(p, LoginPayload(u, now1), secret) == GenerateJwt(p, LoginPayload(u, now2), secret)
  {}
}

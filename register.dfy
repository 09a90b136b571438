/**
 * `POST /api/auth/register`: seven field checks, three uniqueness checks,
 * then the new unverified user and a 6-digit OTP valid for 10 minutes.
 */
module RegisterRoute {
  import opened Wrappers
  import opened Strings
  import opened Validation
  import opened Crypto
  import opened OrderedMap
  import opened Database
  import opened Http

  /** The request body; an absent field is the empty string. */
  datatype RegisterRequest = RegisterRequest(
    voterId: string,
    email: string,
    password: string,
    mobile: string,
    state: string,
    constituency: string,
    fullName: string)

  /** `value.trim().length >= 2`, counted in UTF-16 code units as JavaScript does. */
  predicate LongEnough(value: string) { Utf16Length(Trim(value)) >= 2 }

  /** The field checks in the order the route runs them; the first failure is the 400. */
  function RegisterRejection(req: RegisterRequest): (r: Option<Response>)
    ensures r.None? <==>
      && ValidateVoterId(req.voterId).Valid?
      && ValidateEmail(req.email).Valid?
      && ValidatePassword(req.password).Valid?
      && ValidateMobile(req.mobile).Valid?
      && ValidateState(req.state).Valid?
      && LongEnough(req.constituency)
      && LongEnough(req.fullName)
    ensures r.Some? ==> r.value.Fail? && r.value.status == 400
    ensures ValidateVoterId(req.voterId).Invalid? ==> r == Some(Fail(400, ValidateVoterId(req.voterId).error))
    ensures && ValidateVoterId(req.voterId).Valid?
            && ValidateEmail(req.email).Invalid?
            ==> r == Some(Fail(400, ValidateEmail(req.email).error))
    ensures && ValidateVoterId(req.voterId).Valid? && ValidateEmail(req.email).Valid?
            && ValidatePassword(req.password).Invalid?
            ==> r == Some(Fail(400, ValidatePassword(req.password).error))
    ensures && ValidateVoterId(req.voterId).Valid? && ValidateEmail(req.email).Valid?
            && ValidatePassword(req.password).Valid?
            && ValidateMobile(req.mobile).Invalid?
            ==> r == Some(Fail(400, ValidateMobile(req.mobile).error))
    ensures && ValidateVoterId(req.voterId).Valid? && ValidateEmail(req.email).Valid?
            && ValidatePassword(req.password).Valid? && ValidateMobile(req.mobile).Valid?
            && ValidateState(req.state).Invalid?
            ==> r == Some(Fail(400, ValidateState(req.state).error))
    ensures && ValidateVoterId(req.voterId).Valid? && ValidateEmail(req.email).Valid?
            && ValidatePassword(req.password).Valid? && ValidateMobile(req.mobile).Valid?
            && ValidateState(req.state).Valid?
            && !LongEnough(req.constituency)
            ==> r == Some(Fail(400, "Constituency is required and must be at least 2 characters"))
    ensures && ValidateVoterId(req.voterId).Valid? && ValidateEmail(req.email).Valid?
            && ValidatePassword(req.password).Valid? && ValidateMobile(req.mobile).Valid?
            && ValidateState(req.state).Valid? && LongEnough(req.constituency)
            && !LongEnough(req.fullName)
            ==> r == Some(Fail(400, "Full name is required and must be at least 2 characters"))
  {
    if ValidateVoterId(req.voterId).Invalid? then Some(Fail(400, ValidateVoterId(req.voterId).error))
    else if ValidateEmail(req.email).Invalid? then Some(Fail(400, ValidateEmail(req.email).error))
    else if ValidatePassword(req.password).Invalid? then Some(Fail(400, ValidatePassword(req.password).error))
    else if ValidateMobile(req.mobile).Invalid? then Some(Fail(400, ValidateMobile(req.mobile).error))
    else if ValidateState(req.state).Invalid? then Some(Fail(400, ValidateState(req.state).error))
    else if !LongEnough(req.constituency) then
      Some(Fail(400, "Constituency is required and must be at least 2 characters"))
    else if !LongEnough(req.fullName) then
      Some(Fail(400, "Full name is required and must be at least 2 characters"))
    else None
  }

  /** What `createUser` receives; `passwordHash` is the bcrypt result, which is salted at random. */
  function StoredData(p: Primitives, req: RegisterRequest, passwordHash: string): (d: UserData)
    ensures d.voterIdHash == p.hashData(d.voterId)
    ensures d.passwordHash == passwordHash && !d.isVerified && !d.hasVoted
  {
    var voterId := NormalizeVoterId(req.voterId);
    UserData(voterId, p.hashData(voterId), ToLower(req.email), NormalizeMobile(req.mobile), passwordHash,
             Trim(req.state), Trim(req.constituency), false, false)
  }

  /** The three 409s, after normalisation and before any change to the store. */
  function RegisterConflict(db: DatabaseService, p: Primitives, req: RegisterRequest): (r: Option<Response>)
    reads db
    requires db.Valid()
    ensures r.None? <==>
      && db.GetUserByVoterIdHash(p.hashData(NormalizeVoterId(req.voterId))).None?
      && UserWithEmail(db.users, ToLower(req.email)).None?
      && db.GetUserByMobile(NormalizeMobile(req.mobile)).None?
    ensures r.Some? ==> r.value.Fail? && r.value.status == 409
  {
    if db.GetUserByVoterIdHash(p.hashData(NormalizeVoterId(req.voterId))).Some? then
      Some(Fail(409, "A user with this Voter ID already exists"))
    else if UserWithEmail(db.users, ToLower(req.email)).Some? then
      Some(Fail(409, "A user with this email already exists"))
    else if db.GetUserByMobile(NormalizeMobile(req.mobile)).Some? then
      Some(Fail(409, "A user with this mobile number already exists"))
    else None
  }

  /**
   * `userId` and `otpId` are the two `randomUUID` results, `draws` the
   * six digit draws of `generateOTP`, `smsSent` whether the OTP SMS went
   * out; the welcome SMS's result is never read.
   */
  method Register(db: DatabaseService, p: Primitives, req: RegisterRequest, passwordHash: string,
                  userId: string, otpId: string, draws: seq<nat>, smsSent: bool, now: int)
    returns (r: Response)
    requires db.Valid()
    requires |draws| == 6 && forall i :: 0 <= i < |draws| ==> draws[i] < |Digits|
    modifies db
    ensures db.Valid()
    ensures db.sessions == old(db.sessions)
    ensures RegisterRejection(req).Some? ==> r == RegisterRejection(req).value && unchanged(db)
    ensures RegisterRejection(req).None? && old(RegisterConflict(db, p, req)).Some? ==>
      r == old(RegisterConflict(db, p, req)).value && unchanged(db)
    ensures RegisterRejection(req).None? && old(RegisterConflict(db, p, req)).None? ==>
      var user := NewUser(StoredData(p, req, passwordHash), userId, now);
      && r == Ok(201, Registered(userId, user.voterId, user.email, user.mobile, false, smsSent))
      && db.users == Set(old(db.users), userId, user)
      && db.voterIdIndex == old(db.voterIdIndex)[user.voterIdHash := userId]
      && db.mobileIndex == old(db.mobileIndex)[user.mobile := userId]
      && db.otpRecords == Set(old(db.otpRecords), otpId, NewOtp(otpId, user.mobile, OtpDigits(draws), 10, now))
      && (userId != "" ==> db.GetUserByVoterIdHash(user.voterIdHash) == Some(user))
      && (userId != "" ==> db.GetUserByMobile(user.mobile) == Some(user))
  {
    var rejection := RegisterRejection(req);
    if rejection.Some? {
      return rejection.value;
    }
    var voterId := NormalizeVoterId(req.voterId);
    var mobile := NormalizeMobile(req.mobile);
    var voterIdHash := p.hashData(voterId);
    if db.GetUserByVoterIdHash(voterIdHash).Some? {
      return Fail(409, "A user with this Voter ID already exists");
    }
    var byEmail := db.GetUserByEmail(ToLower(req.email));
    if byEmail.Some? {
      return Fail(409, "A user with this email already exists");
    }
    if db.GetUserByMobile(mobile).Some? {
      return Fail(409, "A user with this mobile number already exists");
    }
    var user := db.CreateUser(StoredData(p, req, passwordHash), userId, now);
    var otp := GenerateOtp(6, draws);
    var record := db.CreateOtp(mobile, otp, 10, otpId, now);
    r := Ok(201, Registered(user.id, user.voterId, user.email, user.mobile, user.isVerified, smsSent));
  }

  /**
   * What registration stores is in normal form: the voter ID matches
   * `^[A-Z]{3}[0-9]{7}$` and the mobile is "+91" and ten digits.
   */
  lemma StoredDataIsNormalised(p: Primitives, req: RegisterRequest, passwordHash: string)
    requires RegisterRejection(req).None?
    ensures VoterIdPattern(StoredData(p, req, passwordHash).voterId)
    ensures CanonicalMobile(StoredData(p, req, passwordHash).mobile)
    ensures ValidateMobile(StoredData(p, req, passwordHash).mobile).Valid?
  {
    NormalizedVoterIdStaysValid(req.voterId);
    NormalizeValidMobile(req.mobile);
    NormalizeMobilePreservesValidity(req.mobile);
  }

  /**
   * The stored email has no upper-case letter, and the stored state and
   * constituency start and end with a non-whitespace character.
   */
  lemma StoredTextIsTidy(p: Primitives, req: RegisterRequest, passwordHash: string)
    ensures var d := StoredData(p, req, passwordHash);
      forall i :: 0 <= i < |d.email| ==> !IsUpper(d.email[i])
    ensures var d := StoredData(p, req, passwordHash);
      d.state == [] || (!IsWhitespace(d.state[0]) && !IsWhitespace(d.state[|d.state| - 1]))
    ensures var d := StoredData(p, req, passwordHash);
      d.constituency == [] || (!IsWhitespace(d.constituency[0]) && !IsWhitespace(d.constituency[|d.constituency| - 1]))
  {
    var email := ToLower(req.email);
    assert forall i :: 0 <= i < |email| ==> !IsUpper(email[i]);
  }

  /**
   * One account per voter: once a registration has gone through, any
   * request whose voter ID normalises to the same string (whatever its
   * spacing and letter case) is refused with 409 and changes nothing.
   */
  method DuplicateVoterIdRefused(db: DatabaseService, p: Primitives, first: RegisterRequest, second: RegisterRequest,
                                 passwordHash: string, userId: string, otpId: string, draws: seq<nat>, now: int)
    returns (r1: Response, r2: Response)
    requires db.Valid()
    requires |draws| == 6 && forall i :: 0 <= i < |draws| ==> draws[i] < |Digits|
    requires RegisterRejection(first).None? && RegisterConflict(db, p, first).None?
    requires RegisterRejection(second).None?
    requires NormalizeVoterId(second.voterId) == NormalizeVoterId(first.voterId)
    requires userId != ""
    modifies db
    ensures r1.Ok? && r1.status == 201
    ensures r2 == Fail(409, "A user with this Voter ID already exists")
  {
    r1 := Register(db, p, first, passwordHash, userId, otpId, draws, true, now);
    r2 := Register(db, p, second, passwordHash, userId + "'", otpId + "'", draws, true, now);
  }
}

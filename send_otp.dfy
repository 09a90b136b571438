/**
 * `POST /api/auth/send-otp`: validate the mobile, require an account for
 * login OTPs, refuse a second OTP within two minutes, then store a fresh
 * 6-digit OTP for 10 minutes and text it.
 */
module SendOtpRoute {
  import opened Wrappers
  import opened Strings
  import opened Validation
  import opened Crypto
  import opened OrderedMap
  import opened Database
  import opened Http

  /** `type` is `None` when the body has no such field; it then defaults to "login". */
  datatype SendOtpRequest = SendOtpRequest(mobile: string, otpType: Option<string>)

  function Purpose(req: SendOtpRequest): string {
    req.otpType.GetOr("login")
  }

  /** The guards that come before the rate limit, which only read the store. */
  function SendOtpRejection(db: DatabaseService, req: SendOtpRequest): (r: Option<Response>)
    reads db
    requires db.Valid()
    ensures r.None? <==>
      ValidateMobile(req.mobile).Valid? &&
      (Purpose(req) == "login" ==> db.GetUserByMobile(NormalizeMobile(req.mobile)).Some?)
    ensures r.Some? ==> r.value.Fail? && r.value.status in {400, 404}
    ensures ValidateMobile(req.mobile).Invalid? ==> r == Some(Fail(400, ValidateMobile(req.mobile).error))
    ensures
      && ValidateMobile(req.mobile).Valid? && Purpose(req) == "login"
      && db.GetUserByMobile(NormalizeMobile(req.mobile)).None?
      ==> r == Some(Fail(404, "No account found with this mobile number"))
  {
    if ValidateMobile(req.mobile).Invalid? then Some(Fail(400, ValidateMobile(req.mobile).error))
    else if Purpose(req) == "login" && db.GetUserByMobile(NormalizeMobile(req.mobile)).None? then
      Some(Fail(404, "No account found with this mobile number"))
    else None
  }

  /**
   * The route as written: `getRecentOTPs` is declared for the type
   * checker but `DatabaseService` defines no such method, so the call
   * throws a `TypeError` and the catch answers 500. No request gets past
   * it, and no OTP is ever stored or sent.
   */
  function SendOtpAsWritten(db: DatabaseService, req: SendOtpRequest): (r: Response)
    reads db
    requires db.Valid()
    ensures r.Fail? && r.status in {400, 404, 500}
    ensures SendOtpRejection(db, req).None? ==> r == Fail(500, "Internal server error")
  {
    var rejection := SendOtpRejection(db, req);
    if rejection.Some? then rejection.value
    else Fail(500, "Internal server error")
  }

  /**
   * A well-formed verification request, which needs no account, still
   * gets the 500: any bare ten-digit number starting with 6-9 will do,
   * "9876543210" for one.
   */
  lemma SendOtpAsWrittenFailsValidRequest(db: DatabaseService, mobile: string)
    requires db.Valid() && NationalNumber(mobile)
    ensures SendOtpAsWritten(db, SendOtpRequest(mobile, Some("verification"))) == Fail(500, "Internal server error")
  {
    var req := SendOtpRequest(mobile, Some("verification"));
    NationalNumberIsValid(mobile);
    assert Purpose(req)[0] != "login"[0];
  }

  /**
   * The route as evidently intended: `recentOtps` is the number of OTPs
   * `getRecentOTPs(mobile, 2)` would report for the last two minutes.
   * The OTP is stored before the SMS is sent and stays stored when the
   * SMS fails.
   */
  method SendOtp(db: DatabaseService, req: SendOtpRequest, recentOtps: nat, otpId: string,
                 draws: seq<nat>, sms: SmsResult, now: int)
    returns (r: Response)
    requires db.Valid()
    requires |draws| == 6 && forall i :: 0 <= i < |draws| ==> draws[i] < |Digits|
    modifies db
    ensures db.Valid()
    ensures db.users == old(db.users) && db.sessions == old(db.sessions)
    ensures db.voterIdIndex == old(db.voterIdIndex) && db.mobileIndex == old(db.mobileIndex)
    ensures old(SendOtpRejection(db, req)).Some? ==>
      r == old(SendOtpRejection(db, req)).value && db.otpRecords == old(db.otpRecords)
    ensures old(SendOtpRejection(db, req)).None? && recentOtps > 0 ==>
      r == Fail(429, "OTP already sent. Please wait 2 minutes before requesting again.") &&
      db.otpRecords == old(db.otpRecords)
    ensures old(SendOtpRejection(db, req)).None? && recentOtps == 0 ==>
      var mobile := NormalizeMobile(req.mobile);
      && db.otpRecords == Set(old(db.otpRecords), otpId, NewOtp(otpId, mobile, OtpDigits(draws), 10, now))
      && (sms.Sent? ==> r == Ok(200, OtpSent(mobile, sms.messageId, 600)))
      && (sms.NotSent? ==> r == Fail(500, "Failed to send OTP. Please try again."))
    ensures r.Ok? ==> CanonicalMobile(r.body.mobile)
  {
    var mobileCheck := ValidateMobile(req.mobile);
    if mobileCheck.Invalid? {
      return Fail(400, mobileCheck.error);
    }
    var mobile := NormalizeMobile(req.mobile);
    if Purpose(req) == "login" && db.GetUserByMobile(mobile).None? {
      return Fail(404, "No account found with this mobile number");
    }
    if recentOtps > 0 {
      return Fail(429, "OTP already sent. Please wait 2 minutes before requesting again.");
    }
    var otp := GenerateOtp(6, draws);
    var record := db.CreateOtp(mobile, otp, 10, otpId, now);
    if sms.NotSent? {
      return Fail(500, "Failed to send OTP. Please try again.");
    }
    NormalizeValidMobile(req.mobile);
    r := Ok(200, OtpSent(mobile, sms.messageId, 600));
  }
}

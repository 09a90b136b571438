/**
 * `POST /api/auth/verify-otp`: check the formats, consume the first
 * usable OTP for the normalised mobile and the submitted code, and mark
 * the account verified.
 */
module VerifyOtpRoute {
  import opened Wrappers
  import opened Strings
  import opened Validation
  import opened Crypto
  import opened OrderedMap
  import opened Database
  import opened Http

  /** `type` is `None` when the body has no such field; it then defaults to "verification". */
  datatype VerifyOtpRequest = VerifyOtpRequest(mobile: string, otp: string, otpType: Option<string>)

  function Purpose(req: VerifyOtpRequest): string {
    req.otpType.GetOr("verification")
  }

  /** The two 400s that come before any store access. */
  function FormatRejection(req: VerifyOtpRequest): (r: Option<Response>)
    ensures r.None? <==> ValidateMobile(req.mobile).Valid? && ValidateOtp(req.otp).Valid?
    ensures r.Some? ==> r.value.Fail? && r.value.status == 400
    ensures ValidateMobile(req.mobile).Invalid? ==> r == Some(Fail(400, ValidateMobile(req.mobile).error))
    ensures ValidateMobile(req.mobile).Valid? && ValidateOtp(req.otp).Invalid? ==>
      r == Some(Fail(400, ValidateOtp(req.otp).error))
  {
    if ValidateMobile(req.mobile).Invalid? then Some(Fail(400, ValidateMobile(req.mobile).error))
    else if ValidateOtp(req.otp).Invalid? then Some(Fail(400, ValidateOtp(req.otp).error))
    else None
  }

  method VerifyOtp(db: DatabaseService, req: VerifyOtpRequest, now: int) returns (r: Response)
    requires db.Valid()
    modifies db
    ensures db.Valid()
    ensures db.sessions == old(db.sessions)
    ensures db.voterIdIndex == old(db.voterIdIndex) && db.mobileIndex == old(db.mobileIndex)
    ensures FormatRejection(req).Some? ==> r == FormatRejection(req).value && unchanged(db)
    ensures FormatRejection(req).None? ==>
      var m := NormalizeMobile(req.mobile);
      var found := old(ValidOtp(db.otpRecords, m, req.otp, now));
      var user := old(db.GetUserByMobile(m));
      && (found.None? ==>
            && r == Fail(400, "Invalid or expired OTP")
            && db.otpRecords == IncrementAttempts(old(db.otpRecords), m, req.otp)
            && db.users == old(db.users))
      && (found.Some? ==> db.otpRecords == MarkUsed(old(db.otpRecords), found.value.id))
      && (found.Some? && user.None? ==> r == Fail(404, "User not found") && db.users == old(db.users))
      && (found.Some? && user.Some? ==>
            var u := user.value;
            var verification := Purpose(req) == "verification";
            && r == Ok(200, OtpVerified(
                 if verification then "Mobile number verified successfully" else "OTP verified successfully",
                 u.id, verification || u.isVerified, m))
            && (verification && !u.isVerified ==>
                  db.users == Set(old(db.users), u.id, ApplyUpdate(u, UserUpdate(Some(true), None), now)) &&
                  db.GetUserById(u.id).Some? && db.GetUserById(u.id).value.isVerified)
            && (!verification || u.isVerified ==> db.users == old(db.users)))
  {
    var mobileCheck := ValidateMobile(req.mobile);
    if mobileCheck.Invalid? {
      return Fail(400, mobileCheck.error);
    }
    var otpCheck := ValidateOtp(req.otp);
    if otpCheck.Invalid? {
      return Fail(400, otpCheck.error);
    }
    var m := NormalizeMobile(req.mobile);
    var record := db.GetValidOtp(m, req.otp, now);
    if record.None? {
      db.IncrementOtpAttempts(m, req.otp);
      return Fail(400, "Invalid or expired OTP");
    }
    db.MarkOtpAsUsed(record.value.id);
    var user := db.GetUserByMobile(m);
    if user.None? {
      return Fail(404, "User not found");
    }
    var u := user.value;
    var verification := Purpose(req) == "verification";
    if verification && !u.isVerified {
      GetEntry(db.users, Entry(u.id, u));
      var updated := db.UpdateUser(u.id, UserUpdate(Some(true), None), now);
    }
    r := Ok(200, OtpVerified(
      if verification then "Mobile number verified successfully" else "OTP verified successfully",
      u.id, verification || u.isVerified, m));
  }

  /** A code made by `generateOTP(6)` passes the format check. */
  lemma GeneratedOtpPassesFormatCheck(draws: seq<nat>)
    requires |draws| == 6 && forall i :: 0 <= i < |draws| ==> draws[i] < |Digits|
    ensures ValidateOtp(OtpDigits(draws)).Valid?
  {
    var code := OtpDigits(draws);
    assert NoWhitespace(code) by {
      forall i | 0 <= i < |code| ensures !IsWhitespace(code[i]) {
        assert IsDigit(code[i]);
      }
    }
    RemoveWhitespaceOfClean(code);
  }

  /**
   * The format check strips whitespace but the lookup compares the raw
   * string: a six-digit code with a space inserted passes the check and
   * then matches no stored code, since stored codes are all digits.
   */
  lemma SpacedOtpNeverMatches(t: Table<OtpRecord>, mobile: string, code: string, k: nat, now: int)
    requires SixDigits(code) && 0 < k < 6
    requires forall j :: 0 <= j < |t| ==> AllDigits(t[j].value.otp)
    ensures var spaced := code[..k] + " " + code[k..];
      ValidateOtp(spaced).Valid? && ValidOtp(t, mobile, spaced, now).None?
  {
    var spaced := code[..k] + " " + code[k..];
    SpacedOtpPassesFormatCheck(code, k);
    assert spaced[k] == ' ';
    assert !AllDigits(spaced) by { assert !IsDigit(spaced[k]); }
  }

  /** A stored OTP is accepted for its mobile and code until it expires, while unused and under three attempts. */
  lemma StoredOtpAccepted(t: Table<OtpRecord>, e: Entry<OtpRecord>, now: int)
    requires e in t && !e.value.isUsed && e.value.attempts < 3 && now < e.value.expiresAt
    ensures ValidOtp(t, e.value.mobile, e.value.otp, now).Some?
  {
    var j :| 0 <= j < |t| && t[j] == e;
    assert OtpUsable(t[j].value, e.value.mobile, e.value.otp, now);
  }
}

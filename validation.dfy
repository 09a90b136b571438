/**
 * Credential validation and normalisation (`ValidationService`).
 * Every validator answers `{ isValid, error? }`, modelled as `Check`.
 * An absent request field behaves like the empty string: both are
 * falsy and draw the "... is required" error.
 */
module Validation {
  import opened Strings

  datatype Check = Valid | Invalid(error: string)

  // ---------------------------------------------------------------- Voter ID

  /** `^[A-Z]{3}[0-9]{7}$` */
  predicate VoterIdPattern(s: string) {
    && |s| == 10
    && (forall i :: 0 <= i < 3 ==> IsUpper(s[i]))
    && (forall i :: 3 <= i < 10 ==> IsDigit(s[i]))
  }

  /** Whitespace removed, then upper-cased. */
  function NormalizeVoterId(voterId: string): (r: string)
    ensures |r| <= |voterId|
    ensures forall i :: 0 <= i < |r| ==> !IsWhitespace(r[i]) && !IsLower(r[i])
  {
    ToUpper(RemoveWhitespace(voterId))
  }

  function ValidateVoterId(voterId: string): (r: Check)
    ensures voterId == "" ==> r == Invalid("Voter ID is required")
    ensures r.Valid? <==> voterId != "" && VoterIdPattern(NormalizeVoterId(voterId))
  {
    if voterId == "" then Invalid("Voter ID is required")
    else if !VoterIdPattern(NormalizeVoterId(voterId)) then
      Invalid("Invalid Voter ID format. Should be 3 letters followed by 7 digits (e.g., ABC1234567)")
    else Valid
  }

  lemma UpperCharKeepsWhitespace(c: char)
    ensures IsWhitespace(UpperChar(c)) <==> IsWhitespace(c)
  {}

  /** Normalising a voter ID twice gives the same string as normalising it once. */
  lemma NormalizeVoterIdIdempotent(voterId: string)
    ensures NormalizeVoterId(NormalizeVoterId(voterId)) == NormalizeVoterId(voterId)
  {
    var n := NormalizeVoterId(voterId);
    var clean := RemoveWhitespace(voterId);
    forall i | 0 <= i < |n| ensures !IsWhitespace(n[i]) {
      UpperCharKeepsWhitespace(clean[i]);
    }
    RemoveWhitespaceOfClean(n);
    assert ToUpper(n) == n;
  }

  /** `^[A-Za-z]{3}[0-9]{7}$`: the voter ID pattern with letters of either case. */
  predicate AnyCaseVoterIdPattern(s: string) {
    && |s| == 10
    && (forall i :: 0 <= i < 3 ==> IsUpper(s[i]) || IsLower(s[i]))
    && (forall i :: 3 <= i < 10 ==> IsDigit(s[i]))
  }

  /**
   * Validity ignores whitespace and letter case: a voter ID is accepted
   * exactly when its non-whitespace characters are three ASCII letters of
   * either case followed by seven digits.
   */
  lemma VoterIdAcceptance(voterId: string)
    ensures ValidateVoterId(voterId).Valid? <==> AnyCaseVoterIdPattern(RemoveWhitespace(voterId))
  {
    var c := RemoveWhitespace(voterId);
    var n := NormalizeVoterId(voterId);
    if voterId == "" {
      assert c == "";
    } else {
      forall i | 0 <= i < |c|
        ensures IsUpper(n[i]) <==> IsUpper(c[i]) || IsLower(c[i])
        ensures IsDigit(n[i]) <==> IsDigit(c[i])
      {
        assert n[i] == UpperChar(c[i]);
      }
      assert VoterIdPattern(n) <==> AnyCaseVoterIdPattern(c);
    }
  }

  /** A valid voter ID is already in normal form once normalised. */
  lemma NormalizedVoterIdStaysValid(voterId: string)
    requires ValidateVoterId(voterId).Valid?
    ensures ValidateVoterId(NormalizeVoterId(voterId)).Valid?
    ensures VoterIdPattern(NormalizeVoterId(voterId))
  {
    NormalizeVoterIdIdempotent(voterId);
  }

  // ------------------------------------------------------------------ Mobile

  predicate IsMobileChar(c: char) { IsDigit(c) || c == '+' }

  /** `mobile.replace(/[^\d+]/g, "")` */
  function CleanMobile(s: string): (r: string)
    ensures forall i :: 0 <= i < |r| ==> IsMobileChar(r[i])
    ensures |r| <= |s|
  {
    if s == [] then []
    else (if IsMobileChar(s[0]) then [s[0]] else []) + CleanMobile(s[1..])
  }

  /** One character is kept exactly when it is a digit or '+'. */
  lemma CleanMobileChar(c: char)
    ensures CleanMobile([c]) == if IsMobileChar(c) then [c] else []
  {
    assert [c][1..] == [];
  }

  /** Cleaning works character by character, so it distributes over concatenation. */
  lemma {:induction false} CleanMobileAppend(a: string, b: string)
    ensures CleanMobile(a + b) == CleanMobile(a) + CleanMobile(b)
  {
    if a == [] {
      assert a + b == b;
    } else {
      assert (a + b)[1..] == a[1..] + b;
      CleanMobileAppend(a[1..], b);
    }
  }

  lemma {:induction false} CleanMobileOfClean(s: string)
    requires forall i :: 0 <= i < |s| ==> IsMobileChar(s[i])
    ensures CleanMobile(s) == s
  {
    if s != [] {
      CleanMobileOfClean(s[1..]);
    }
  }

  /** `[6-9]\d{9}`: a ten-digit Indian mobile number. */
  predicate NationalNumber(s: string) {
    |s| == 10 && '6' <= s[0] <= '9' && AllDigits(s)
  }

  /** The three accepted patterns: `+91` prefix, `91` prefix, or bare. */
  predicate MobilePattern(c: string) {
    || (StartsWith(c, "+91") && NationalNumber(c[3..]))
    || (StartsWith(c, "91") && NationalNumber(c[2..]))
    || NationalNumber(c)
  }

  /** A bare national number is accepted as it stands. */
  lemma NationalNumberIsValid(mobile: string)
    requires NationalNumber(mobile)
    ensures ValidateMobile(mobile).Valid?
  {
    CleanMobileOfClean(mobile);
  }

  /** The normal form every stored mobile number should have. */
  predicate CanonicalMobile(n: string) {
    StartsWith(n, "+91") && NationalNumber(n[3..])
  }

  function ValidateMobile(mobile: string): (r: Check)
    ensures mobile == "" ==> r == Invalid("Mobile number is required")
    ensures r.Valid? <==> mobile != "" && MobilePattern(CleanMobile(mobile))
  {
    if mobile == "" then Invalid("Mobile number is required")
    else if MobilePattern(CleanMobile(mobile)) then Valid
    else Invalid("Invalid mobile number. Should be a valid Indian mobile number")
  }

  /**
   * Only digits and '+' survive; a bare ten-digit number, or "91" and ten
   * digits, gains the "+91" prefix.
   */
  function NormalizeMobile(mobile: string): (r: string)
    ensures forall i :: 0 <= i < |r| ==> IsMobileChar(r[i])
    ensures |CleanMobile(mobile)| == 10 && !StartsWith(CleanMobile(mobile), "+91") ==>
      r == "+91" + CleanMobile(mobile)
  {
    var c := CleanMobile(mobile);
    if StartsWith(c, "+91") then c
    else if StartsWith(c, "91") && |c| == 12 then "+" + c
    else if |c| == 10 then "+91" + c
    else c
  }

  /** Every accepted mobile number normalises to "+91" and ten digits starting with 6-9. */
  lemma NormalizeValidMobile(mobile: string)
    requires ValidateMobile(mobile).Valid?
    ensures CanonicalMobile(NormalizeMobile(mobile))
    ensures |NormalizeMobile(mobile)| == 13
  {
    var c := CleanMobile(mobile);
    var n := NormalizeMobile(mobile);
    if StartsWith(c, "+91") {
      assert n == c;
    } else if StartsWith(c, "91") && NationalNumber(c[2..]) {
      assert |c| == 12;
      assert n == "+" + c;
      assert n[..3] == "+91";
      assert n[3..] == c[2..];
    } else {
      assert NationalNumber(c);
      assert !(StartsWith(c, "91") && |c| == 12);
      assert n == "+91" + c;
      assert n[3..] == c;
    }
  }

  /** Normalising a mobile number twice gives the same string as normalising it once. */
  lemma NormalizeMobileIdempotent(mobile: string)
    ensures NormalizeMobile(NormalizeMobile(mobile)) == NormalizeMobile(mobile)
  {
    var c := CleanMobile(mobile);
    var n := NormalizeMobile(mobile);
    CleanMobileOfClean(n);
    if StartsWith(c, "+91") {
    } else if StartsWith(c, "91") && |c| == 12 {
      assert n[..3] == "+91";
    } else if |c| == 10 {
      assert n[..3] == "+91";
    }
  }

  /** Normalisation neither makes an invalid number valid nor a valid one invalid. */
  lemma NormalizeMobilePreservesValidity(mobile: string)
    ensures ValidateMobile(NormalizeMobile(mobile)).Valid? <==> ValidateMobile(mobile).Valid?
  {
    var c := CleanMobile(mobile);
    var n := NormalizeMobile(mobile);
    CleanMobileOfClean(n);
    if mobile == "" {
      assert c == "";
    }
    if StartsWith(c, "+91") {
      assert n == c;
    } else if StartsWith(c, "91") && |c| == 12 {
      assert n == "+" + c && n[..3] == "+91" && n[3..] == c[2..];
      assert MobilePattern(n) <==> MobilePattern(c) by {
        assert !IsDigit(n[0]);
        assert n[..2] != "91";
      }
    } else if |c| == 10 {
      assert n == "+91" + c && n[..3] == "+91" && n[3..] == c;
      assert MobilePattern(n) <==> MobilePattern(c) by {
        assert !IsDigit(n[0]);
        assert n[..2] != "91";
        assert !StartsWith(c, "91") || !NationalNumber(c[2..]);
      }
    } else {
      assert n == c;
    }
  }

  // ------------------------------------------------------------------- Email

  /** A part of `^[^\s@]+@[^\s@]+\.[^\s@]+$`: non-empty, no whitespace, no '@'. */
  predicate EmailPart(s: string) {
    |s| > 0 && forall i :: 0 <= i < |s| ==> !IsWhitespace(s[i]) && s[i] != '@'
  }

  /** What the regular expression matches: local "@" host "." suffix. */
  ghost predicate MatchesEmailRegex(s: string) {
    exists a, b, c :: EmailPart(a) && EmailPart(b) && EmailPart(c) && s == a + "@" + b + "." + c
  }

  /** The scan the validator performs: one '@', and a '.' strictly inside the domain. */
  predicate EmailShape(s: string) {
    var at := IndexOf(s, '@');
    && at < |s|
    && EmailPart(s[..at])
    && EmailPart(s[at + 1..])
    && exists k :: at + 1 < k < |s| - 1 && s[k] == '.'
  }

  function ValidateEmail(email: string): (r: Check)
    ensures email == "" ==> r == Invalid("Email is required")
  {
    if email == "" then Invalid("Email is required")
    else if !EmailShape(email) then Invalid("Invalid email format")
    else Valid
  }

  /** The validator accepts exactly the strings the email regular expression matches. */
  lemma ValidateEmailMatchesRegex(email: string)
    ensures ValidateEmail(email).Valid? <==> MatchesEmailRegex(email)
  {
    if EmailShape(email) {
      EmailShapeMatches(email);
    }
    if MatchesEmailRegex(email) {
      var a, b, c :| EmailPart(a) && EmailPart(b) && EmailPart(c) && email == a + "@" + b + "." + c;
      RegexMatchHasShape(email, a, b, c);
    }
  }

  lemma EmailShapeMatches(email: string)
    requires EmailShape(email)
    ensures MatchesEmailRegex(email)
  {
    {
      var at := IndexOf(email, '@');
      var k :| at + 1 < k < |email| - 1 && email[k] == '.';
      var a, b, c := email[..at], email[at + 1..k], email[k + 1..];
      var d := email[at + 1..];
      assert b == d[..k - at - 1] && c == d[k - at..];
      assert email == a + "@" + b + "." + c;
      assert EmailPart(a) && EmailPart(b) && EmailPart(c);
    }
  }

  lemma RegexMatchHasShape(email: string, a: string, b: string, c: string)
    requires EmailPart(a) && EmailPart(b) && EmailPart(c) && email == a + "@" + b + "." + c
    ensures EmailShape(email)
  {
    {
      var at := IndexOf(email, '@');
      assert email[|a|] == '@';
      forall j | 0 <= j < |a| ensures email[j] != '@' {
        assert email[j] == a[j];
      }
      assert at == |a|;
      assert email[..at] == a;
      var d := email[at + 1..];
      assert d == b + "." + c;
      forall j | 0 <= j < |d| ensures !IsWhitespace(d[j]) && d[j] != '@' {
        if j < |b| { assert d[j] == b[j]; }
        else if j > |b| { assert d[j] == c[j - |b| - 1]; }
      }
      assert email[at + 1 + |b|] == '.';
    }
  }

  // ---------------------------------------------------------------- Password

  /** The class `[!@#$%^&*()_+\-=[\]{};':"\\|,.<>/?]`. */
  const SpecialCharacters: string := "!@#$%^&*()_+-=[]{};':\"\\|,.<>/?"

  predicate HasUpper(s: string) { exists i :: 0 <= i < |s| && IsUpper(s[i]) }
  predicate HasLower(s: string) { exists i :: 0 <= i < |s| && IsLower(s[i]) }
  predicate HasDigit(s: string) { exists i :: 0 <= i < |s| && IsDigit(s[i]) }
  predicate IsSpecial(c: char) { c in SpecialCharacters }
  predicate HasSpecial(s: string) { exists i :: 0 <= i < |s| && IsSpecial(s[i]) }

  function ValidatePassword(password: string): (r: Check)
    ensures password == "" ==> r == Invalid("Password is required")
    ensures password != "" && Utf16Length(password) < 8 ==>
      r == Invalid("Password must be at least 8 characters long")
    ensures 128 < Utf16Length(password) ==> r == Invalid("Password must be less than 128 characters")
    ensures r.Valid? <==>
      && 8 <= Utf16Length(password) <= 128
      && HasUpper(password) && HasLower(password) && HasDigit(password) && HasSpecial(password)
  {
    if password == "" then Invalid("Password is required")
    else if Utf16Length(password) < 8 then Invalid("Password must be at least 8 characters long")
    else if Utf16Length(password) > 128 then Invalid("Password must be less than 128 characters")
    else if !HasUpper(password) || !HasLower(password) || !HasDigit(password) || !HasSpecial(password) then
      Invalid("Password must contain at least one uppercase letter, one lowercase letter, one digit, and one special character")
    else Valid
  }

  // --------------------------------------------------------------------- OTP

  predicate SixDigits(s: string) { |s| == 6 && AllDigits(s) }

  function ValidateOtp(otp: string): (r: Check)
    ensures otp == "" ==> r == Invalid("OTP is required")
    ensures r.Valid? <==> otp != "" && SixDigits(RemoveWhitespace(otp))
  {
    if otp == "" then Invalid("OTP is required")
    else if !SixDigits(RemoveWhitespace(otp)) then Invalid("OTP must be 6 digits")
    else Valid
  }

  /**
   * The format check strips whitespace, so a six-digit code with a space
   * inserted passes it although it is a different string from the code.
   */
  lemma SpacedOtpPassesFormatCheck(code: string, k: nat)
    requires SixDigits(code) && 0 < k < 6
    ensures var spaced := code[..k] + " " + code[k..];
      ValidateOtp(spaced).Valid? && spaced != code && !NoWhitespace(spaced)
  {
    var pre := code[..k];
    var post := code[k..];
    var spaced := pre + " " + post;
    assert NoWhitespace(pre) && NoWhitespace(post) by {
      assert forall i :: 0 <= i < |pre| ==> pre[i] == code[i];
      assert forall i :: 0 <= i < |post| ==> post[i] == code[k + i];
    }
    RemoveSpaceBetween(pre, post);
    assert pre + post == code;
    assert spaced[k] == ' ';
  }

  // ------------------------------------------------------------------- State

  const IndianStates: seq<string> := [
    "Andhra Pradesh", "Arunachal Pradesh", "Assam", "Bihar", "Chhattisgarh",
    "Goa", "Gujarat", "Haryana", "Himachal Pradesh", "Jharkhand", "Karnataka",
    "Kerala", "Madhya Pradesh", "Maharashtra", "Manipur", "Meghalaya",
    "Mizoram", "Nagaland", "Odisha", "Punjab", "Rajasthan", "Sikkim",
    "Tamil Nadu", "Telangana", "Tripura", "Uttar Pradesh", "Uttarakhand",
    "West Bengal", "Andaman and Nicobar Islands", "Chandigarh",
    "Dadra and Nagar Haveli and Daman and Diu", "Delhi", "Jammu and Kashmir",
    "Ladakh", "Lakshadweep", "Puducherry"
  ]

  lemma NoEmptyStateName()
    ensures "" !in IndianStates
  {
    forall i | 0 <= i < |IndianStates| ensures IndianStates[i] != "" {
      assert |IndianStates[i]| > 0;
    }
  }

  function ValidateState(state: string): (r: Check)
    ensures state == "" ==> r == Invalid("State is required")
    ensures r.Valid? <==> state in IndianStates
  {
    if state == "" then NoEmptyStateName(); Invalid("State is required")
    else if state !in IndianStates then Invalid("Invalid state name")
    else Valid
  }
}

/**
 * The JSON responses of the authentication routes and the bearer-token
 * extraction they share. A `Fail` is `{ success: false, error }` with its
 * HTTP status; `Ok` carries the route's `data`.
 */
module Http {
  import opened Wrappers
  import opened Strings
  import opened Database

  /** The user fields the routes send back (`voterID`, `isVerified`, ...). */
  datatype UserView = UserView(
    id: string,
    voterId: string,
    email: string,
    mobile: string,
    state: string,
    constituency: string,
    isVerified: bool,
    hasVoted: bool)

  function View(u: User): UserView {
    UserView(u.id, u.voterId, u.email, u.mobile, u.state, u.constituency, u.isVerified, u.hasVoted)
  }

  datatype Body =
    | Registered(userId: string, voterId: string, email: string, mobile: string, isVerified: bool, otpSent: bool)
    | OtpSent(mobile: string, messageId: string, expiresIn: nat)
    | OtpVerified(message: string, userId: string, isVerified: bool, mobile: string)
    | LoggedIn(user: UserView, token: string, expiresIn: nat)
    | TokenValid(user: UserView)
    | LoggedOut

  datatype Response =
    | Fail(status: nat, error: string)
      /** Login's 403 with `requiresVerification: true` and the user's mobile. */
    | VerificationRequired(mobile: string)
    | Ok(status: nat, body: Body)

  /** What the SMS gateway reported; only `success` and `messageId` are read. */
  datatype SmsResult = Sent(messageId: string) | NotSent

  const BearerPrefix: string := "Bearer "

  /**
   * The `authorization` header with its first seven characters removed,
   * or `None` ("No token provided") when the header is absent or does not
   * start with "Bearer ".
   */
  function BearerToken(header: Option<string>): (r: Option<string>)
    ensures r.Some? <==> header.Some? && StartsWith(header.value, BearerPrefix)
    ensures r.Some? ==> header.value == BearerPrefix + r.value
  {
    if header.Some? && StartsWith(header.value, BearerPrefix) then
      assert header.value == header.value[..7] + header.value[7..];
      Some(header.value[7..])
    else None
  }

  /** Any string sent after "Bearer " comes back unchanged. */
  lemma BearerTokenRoundTrip(token: string)
    ensures BearerToken(Some(BearerPrefix + token)) == Some(token)
  {
    var h := BearerPrefix + token;
    assert h[..7] == BearerPrefix;
    assert h[7..] == token;
  }
}

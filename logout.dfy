/** `POST /api/auth/logout`: drop the session stored under the bearer token. */
module LogoutRoute {
  import opened Wrappers
  import opened Database
  import opened Http

  /**
   * The token is never verified: any bearer string is accepted, and the
   * response is the same whether or not a session matched.
   */
  method Logout(db: DatabaseService, header: Option<string>) returns (r: Response)
    requires db.Valid()
    modifies db
    ensures db.Valid()
    ensures BearerToken(header).None? ==> r == Fail(401, "No token provided") && db.sessions == old(db.sessions)
    ensures BearerToken(header).Some? ==>
      r == Ok(200, LoggedOut) && db.sessions == RemoveSession(old(db.sessions), BearerToken(header).value)
    ensures db.users == old(db.users) && db.otpRecords == old(db.otpRecords)
    ensures db.voterIdIndex == old(db.voterIdIndex) && db.mobileIndex == old(db.mobileIndex)
  {
    var token := BearerToken(header);
    if token.None? {
      return Fail(401, "No token provided");
    }
    db.DeleteSession(token.value);
    r := Ok(200, LoggedOut);
  }
}

/**
 * `DatabaseService`: the in-memory store of users, OTP records and
 * sessions. Each table is a JavaScript `Map` keyed by a random UUID and
 * is modelled as an insertion-ordered `Table`; the two secondary indexes
 * are only ever read by key and are Dafny maps. Dates are milliseconds
 * since the epoch, taken from the `now` parameter; UUIDs are parameters.
 */
module Database {
  import opened Wrappers
  import opened OrderedMap

  datatype User = User(
    id: string,
    voterId: string,
    voterIdHash: string,
    email: string,
    mobile: string,
    passwordHash: string,
    state: string,
    constituency: string,
    isVerified: bool,
    hasVoted: bool,
    createdAt: int,
    updatedAt: int)

  /** The argument of `createUser`: a user without id and timestamps. */
  datatype UserData = UserData(
    voterId: string,
    voterIdHash: string,
    email: string,
    mobile: string,
    passwordHash: string,
    state: string,
    constituency: string,
    isVerified: bool,
    hasVoted: bool)

  /** The fields of `Partial<User>` that callers of `updateUser` pass. */
  datatype UserUpdate = UserUpdate(isVerified: Option<bool>, hasVoted: Option<bool>)

  datatype OtpRecord = OtpRecord(
    id: string,
    mobile: string,
    otp: string,
    expiresAt: int,
    isUsed: bool,
    attempts: nat,
    createdAt: int)

  datatype Session = Session(
    id: string,
    userId: string,
    token: string,
    expiresAt: int,
    createdAt: int)

  const MinuteMs: int := 60 * 1000
  const HourMs: int := 60 * 60 * 1000

  /** Every table stores each record under its own id. */
  ghost predicate UsersKeyedById(t: Table<User>) {
    forall i :: 0 <= i < |t| ==> t[i].key == t[i].value.id
  }

  ghost predicate OtpsKeyedById(t: Table<OtpRecord>) {
    forall i :: 0 <= i < |t| ==> t[i].key == t[i].value.id
  }

  ghost predicate SessionsKeyedById(t: Table<Session>) {
    forall i :: 0 <= i < |t| ==> t[i].key == t[i].value.id
  }

  // ------------------------------------------------------------------ Users

  function NewUser(data: UserData, id: string, now: int): User {
    User(id, data.voterId, data.voterIdHash, data.email, data.mobile, data.passwordHash,
         data.state, data.constituency, data.isVerified, data.hasVoted, now, now)
  }

  /** `{ ...user, ...updates, updated_at: new Date() }` */
  function ApplyUpdate(u: User, updates: UserUpdate, now: int): (r: User)
    ensures r.id == u.id && r.voterIdHash == u.voterIdHash && r.mobile == u.mobile && r.email == u.email
    ensures r.voterId == u.voterId && r.passwordHash == u.passwordHash
    ensures r.state == u.state && r.constituency == u.constituency
    ensures r.isVerified == updates.isVerified.GetOr(u.isVerified)
    ensures r.hasVoted == updates.hasVoted.GetOr(u.hasVoted)
    ensures r.updatedAt == now && r.createdAt == u.createdAt
  {
    u.(isVerified := updates.isVerified.GetOr(u.isVerified),
       hasVoted := updates.hasVoted.GetOr(u.hasVoted),
       updatedAt := now)
  }

  /** Position of the first user, in insertion order, with this email; `|t|` when none. */
  function FirstUserWithEmail(t: Table<User>, email: string): (i: nat)
    ensures i <= |t|
    ensures i < |t| ==> t[i].value.email == email
    ensures forall j :: 0 <= j < i ==> t[j].value.email != email
  {
    if t == [] then 0
    else if t[0].value.email == email then 0
    else 1 + FirstUserWithEmail(t[1..], email)
  }

  function UserWithEmail(t: Table<User>, email: string): (r: Option<User>)
    ensures r.Some? ==> r.value.email == email && exists i :: 0 <= i < |t| && t[i].value == r.value
    ensures r.None? <==> forall i :: 0 <= i < |t| ==> t[i].value.email != email
  {
    var i := FirstUserWithEmail(t, email);
    if i < |t| then Some(t[i].value) else None
  }

  // -------------------------------------------------------------------- OTPs

  function NewOtp(id: string, mobile: string, otp: string, minutes: int, now: int): OtpRecord {
    OtpRecord(id, mobile, otp, now + minutes * MinuteMs, false, 0, now)
  }

  /** The condition `getValidOTP` tests on each record. */
  predicate OtpUsable(r: OtpRecord, mobile: string, otp: string, now: int) {
    r.mobile == mobile && r.otp == otp && !r.isUsed && r.expiresAt > now && r.attempts < 3
  }

  function FirstUsableOtp(t: Table<OtpRecord>, mobile: string, otp: string, now: int): (i: nat)
    ensures i <= |t|
    ensures i < |t| ==> OtpUsable(t[i].value, mobile, otp, now)
    ensures forall j :: 0 <= j < i ==> !OtpUsable(t[j].value, mobile, otp, now)
  {
    if t == [] then 0
    else if OtpUsable(t[0].value, mobile, otp, now) then 0
    else 1 + FirstUsableOtp(t[1..], mobile, otp, now)
  }

  /** What `getValidOTP` answers: the first usable record, if any. */
  function ValidOtp(t: Table<OtpRecord>, mobile: string, otp: string, now: int): (r: Option<OtpRecord>)
    ensures r.Some? ==> OtpUsable(r.value, mobile, otp, now)
    ensures r.Some? ==> r.value.attempts < 3 && !r.value.isUsed && r.value.expiresAt > now
    ensures r.None? <==> forall j :: 0 <= j < |t| ==> !OtpUsable(t[j].value, mobile, otp, now)
  {
    var i := FirstUsableOtp(t, mobile, otp, now);
    if i < |t| then Some(t[i].value) else None
  }

  /** Position of the first record for this mobile and code, used or not. */
  function FirstOtpFor(t: Table<OtpRecord>, mobile: string, otp: string): (i: nat)
    ensures i <= |t|
    ensures i < |t| ==> t[i].value.mobile == mobile && t[i].value.otp == otp
    ensures forall j :: 0 <= j < i ==> !(t[j].value.mobile == mobile && t[j].value.otp == otp)
  {
    if t == [] then 0
    else if t[0].value.mobile == mobile && t[0].value.otp == otp then 0
    else 1 + FirstOtpFor(t[1..], mobile, otp)
  }

  /**
   * The table after `incrementOTPAttempts(mobile, otp)`: one more attempt
   * on the first record for this mobile and code; every record for
   * another mobile or another code is left as it was.
   */
  function IncrementAttempts(t: Table<OtpRecord>, mobile: string, otp: string): (r: Table<OtpRecord>)
    ensures |r| == |t|
    ensures forall j :: 0 <= j < |t| ==> r[j].key == t[j].key
    ensures forall j :: 0 <= j < |t| && !(t[j].value.mobile == mobile && t[j].value.otp == otp) ==> r[j] == t[j]
    ensures forall j :: 0 <= j < |t| && j != FirstOtpFor(t, mobile, otp) ==> r[j] == t[j]
    ensures FirstOtpFor(t, mobile, otp) < |t| ==>
      var i := FirstOtpFor(t, mobile, otp);
      r[i].value == t[i].value.(attempts := t[i].value.attempts + 1)
  {
    var i := FirstOtpFor(t, mobile, otp);
    if i < |t| then t[i := Entry(t[i].key, t[i].value.(attempts := t[i].value.attempts + 1))] else t
  }

  /** The table after `markOTPAsUsed(id)`. */
  function MarkUsed(t: Table<OtpRecord>, id: string): (r: Table<OtpRecord>)
    ensures Get(t, id).None? ==> r == t
    ensures |r| == |t|
    ensures Get(t, id).Some? ==>
      var i := IndexOfKey(t, id);
      r[i] == Entry(id, t[i].value.(isUsed := true))
    ensures forall j :: 0 <= j < |t| && j != IndexOfKey(t, id) ==> r[j] == t[j]
  {
    var i := IndexOfKey(t, id);
    if i < |t| then t[i := Entry(id, t[i].value.(isUsed := true))] else t
  }

  /** `expires_at > now` for every record `cleanupExpiredRecords` keeps, in the original order. */
  function UnexpiredOtps(t: Table<OtpRecord>, now: int): (r: Table<OtpRecord>)
    ensures |r| <= |t|
  {
    if t == [] then []
    else
      var last := t[|t| - 1];
      UnexpiredOtps(t[..|t| - 1], now) + (if last.value.expiresAt > now then [last] else [])
  }

  // ---------------------------------------------------------------- Sessions

  function NewSession(id: string, userId: string, token: string, hours: int, now: int): Session {
    Session(id, userId, token, now + hours * HourMs, now)
  }

  function FirstLiveSession(t: Table<Session>, token: string, now: int): (i: nat)
    ensures i <= |t|
    ensures i < |t| ==> t[i].value.token == token && t[i].value.expiresAt > now
    ensures forall j :: 0 <= j < i ==> !(t[j].value.token == token && t[j].value.expiresAt > now)
  {
    if t == [] then 0
    else if t[0].value.token == token && t[0].value.expiresAt > now then 0
    else 1 + FirstLiveSession(t[1..], token, now)
  }

  /** What `getValidSession` answers. */
  function ValidSession(t: Table<Session>, token: string, now: int): (r: Option<Session>)
    ensures r.Some? ==> r.value.token == token && r.value.expiresAt > now
    ensures r.None? <==> forall j :: 0 <= j < |t| ==> !(t[j].value.token == token && t[j].value.expiresAt > now)
  {
    var i := FirstLiveSession(t, token, now);
    if i < |t| then Some(t[i].value) else None
  }

  function FirstSessionWithToken(t: Table<Session>, token: string): (i: nat)
    ensures i <= |t|
    ensures i < |t| ==> t[i].value.token == token
    ensures forall j :: 0 <= j < i ==> t[j].value.token != token
  {
    if t == [] then 0
    else if t[0].value.token == token then 0
    else 1 + FirstSessionWithToken(t[1..], token)
  }

  /** The table after `deleteSession(token)`: the first session with that token is gone. */
  function RemoveSession(t: Table<Session>, token: string): (r: Table<Session>)
    ensures (forall j :: 0 <= j < |t| ==> t[j].value.token != token) ==> r == t
    ensures (exists j :: 0 <= j < |t| && t[j].value.token == token) ==> |r| == |t| - 1
    ensures (exists j :: 0 <= j < |t| && t[j].value.token == token) ==>
      exists i :: 0 <= i < |t| && t[i].value.token == token
        && (forall j :: 0 <= j < i ==> t[j].value.token != token)
        && r == t[..i] + t[i + 1..]
  {
    var i := FirstSessionWithToken(t, token);
    if i < |t| then t[..i] + t[i + 1..] else t
  }

  function UnexpiredSessions(t: Table<Session>, now: int): (r: Table<Session>)
    ensures |r| <= |t|
  {
    if t == [] then []
    else
      var last := t[|t| - 1];
      UnexpiredSessions(t[..|t| - 1], now) + (if last.value.expiresAt > now then [last] else [])
  }

  // ------------------------------------------------------------------- Store

  class DatabaseService {
    var users: Table<User>
    var otpRecords: Table<OtpRecord>
    var sessions: Table<Session>
    var voterIdIndex: map<string, string>  // voter ID hash -> user id
    var mobileIndex: map<string, string>   // normalised mobile -> user id

    /** A `Map` never holds a key twice, and every record sits under its own id. */
    ghost predicate Valid()
      reads this
    {
      && DistinctKeys(users) && UsersKeyedById(users)
      && DistinctKeys(otpRecords) && OtpsKeyedById(otpRecords)
      && DistinctKeys(sessions) && SessionsKeyedById(sessions)
    }

    constructor ()
      ensures Valid()
      ensures users == [] && otpRecords == [] && sessions == []
      ensures voterIdIndex == map[] && mobileIndex == map[]
    {
      users, otpRecords, sessions := [], [], [];
      voterIdIndex, mobileIndex := map[], map[];
    }

    // ------------------------------------------------------------ user ops

    function GetUserById(id: string): (r: Option<User>)
      reads this
      requires Valid()
      ensures r.Some? ==> r.value.id == id && Entry(id, r.value) in users
      ensures r.None? <==> forall j :: 0 <= j < |users| ==> users[j].key != id
    {
      var found := Get(users, id);
      if found.Some? then
        assert users[IndexOfKey(users, id)].value == found.value;
        found
      else found
    }

    /** The index entry is followed only when it is a non-empty (truthy) id. */
    function GetUserByVoterIdHash(voterIdHash: string): (r: Option<User>)
      reads this
      requires Valid()
      ensures r.Some? ==> voterIdHash in voterIdIndex && r.value.id == voterIdIndex[voterIdHash] && r.value.id != ""
      ensures r.Some? ==> Entry(r.value.id, r.value) in users
      ensures r.None? <==>
        || voterIdHash !in voterIdIndex || voterIdIndex[voterIdHash] == ""
        || GetUserById(voterIdIndex[voterIdHash]).None?
    {
      if voterIdHash in voterIdIndex && voterIdIndex[voterIdHash] != "" then GetUserById(voterIdIndex[voterIdHash])
      else None
    }

    function GetUserByMobile(mobile: string): (r: Option<User>)
      reads this
      requires Valid()
      ensures r.Some? ==> mobile in mobileIndex && r.value.id == mobileIndex[mobile] && r.value.id != ""
      ensures r.Some? ==> Entry(r.value.id, r.value) in users
      ensures r.None? <==>
        || mobile !in mobileIndex || mobileIndex[mobile] == ""
        || GetUserById(mobileIndex[mobile]).None?
    {
      if mobile in mobileIndex && mobileIndex[mobile] != "" then GetUserById(mobileIndex[mobile])
      else None
    }

    method CreateUser(data: UserData, id: string, now: int) returns (user: User)
      requires Valid()
      modifies this
      ensures Valid()
      ensures user == NewUser(data, id, now)
      ensures users == Set(old(users), id, user)
      ensures voterIdIndex == old(voterIdIndex)[data.voterIdHash := id]
      ensures mobileIndex == old(mobileIndex)[data.mobile := id]
      ensures otpRecords == old(otpRecords) && sessions == old(sessions)
      ensures id != "" ==> GetUserByVoterIdHash(data.voterIdHash) == Some(user)
      ensures id != "" ==> GetUserByMobile(data.mobile) == Some(user)
    {
      user := NewUser(data, id, now);
      SetUserKeepsValid(users, user);
      users := Set(users, id, user);
      voterIdIndex := voterIdIndex[data.voterIdHash := id];
      mobileIndex := mobileIndex[data.mobile := id];
      GetAfterSet(old(users), id, user, id);
    }

    method GetUserByEmail(email: string) returns (r: Option<User>)
      ensures r == UserWithEmail(users, email)
    {
      var i := 0;
      while i < |users|
        invariant i <= |users|
        invariant forall j :: 0 <= j < i ==> users[j].value.email != email
      {
        if users[i].value.email == email {
          assert FirstUserWithEmail(users, email) == i by {
            var k := FirstUserWithEmail(users, email);
            assert k < |users| ==> users[k].value.email == email;
          }
          return Some(users[i].value);
        }
        i := i + 1;
      }
      return None;
    }

    method UpdateUser(id: string, updates: UserUpdate, now: int) returns (r: Option<User>)
      requires Valid()
      modifies this
      ensures Valid()
      ensures old(GetUserById(id)).None? ==> r.None? && users == old(users)
      ensures old(GetUserById(id)).Some? ==>
        && r == Some(ApplyUpdate(old(GetUserById(id)).value, updates, now))
        && users == Set(old(users), id, r.value)
        && GetUserById(id) == r
      ensures forall other :: other != id ==> Get(users, other) == Get(old(users), other)
      ensures otpRecords == old(otpRecords) && sessions == old(sessions)
      ensures voterIdIndex == old(voterIdIndex) && mobileIndex == old(mobileIndex)
    {
      var found := Get(users, id);
      if found.None? {
        return None;
      }
      var updated := ApplyUpdate(found.value, updates, now);
      assert users[IndexOfKey(users, id)].value == found.value;
      SetUserKeepsValid(users, updated);
      users := Set(users, id, updated);
      forall other | other != id
        ensures Get(users, other) == Get(old(users), other)
      {
        GetAfterSet(old(users), id, updated, other);
      }
      GetAfterSet(old(users), id, updated, id);
      r := Some(updated);
    }

    // ------------------------------------------------------------- OTP ops

    method CreateOtp(mobile: string, otp: string, minutes: int, id: string, now: int) returns (record: OtpRecord)
      requires Valid()
      modifies this
      ensures Valid()
      ensures record == NewOtp(id, mobile, otp, minutes, now)
      ensures record.expiresAt == now + minutes * 60000 && !record.isUsed && record.attempts == 0
      ensures otpRecords == Set(old(otpRecords), id, record)
      ensures Get(old(otpRecords), id).None? ==> otpRecords == old(otpRecords) + [Entry(id, record)]
      ensures users == old(users) && sessions == old(sessions)
      ensures voterIdIndex == old(voterIdIndex) && mobileIndex == old(mobileIndex)
    {
      record := NewOtp(id, mobile, otp, minutes, now);
      SetOtpKeepsValid(otpRecords, record);
      otpRecords := Set(otpRecords, id, record);
    }

    method GetValidOtp(mobile: string, otp: string, now: int) returns (r: Option<OtpRecord>)
      ensures r == ValidOtp(otpRecords, mobile, otp, now)
    {
      var i := 0;
      while i < |otpRecords|
        invariant i <= |otpRecords|
        invariant forall j :: 0 <= j < i ==> !OtpUsable(otpRecords[j].value, mobile, otp, now)
      {
        var record := otpRecords[i].value;
        if record.mobile == mobile && record.otp == otp && !record.isUsed && record.expiresAt > now && record.attempts < 3 {
          assert FirstUsableOtp(otpRecords, mobile, otp, now) == i by {
            var k := FirstUsableOtp(otpRecords, mobile, otp, now);
            assert k < |otpRecords| ==> OtpUsable(otpRecords[k].value, mobile, otp, now);
          }
          return Some(record);
        }
        i := i + 1;
      }
      return None;
    }

    method MarkOtpAsUsed(id: string)
      requires Valid()
      modifies this
      ensures Valid()
      ensures otpRecords == MarkUsed(old(otpRecords), id)
      ensures users == old(users) && sessions == old(sessions)
      ensures voterIdIndex == old(voterIdIndex) && mobileIndex == old(mobileIndex)
    {
      var i := IndexOfKey(otpRecords, id);
      if i < |otpRecords| {
        var record := otpRecords[i].value.(isUsed := true);
        MarkUsedKeepsValid(otpRecords, id);
        otpRecords := otpRecords[i := Entry(id, record)];
      }
    }

    method IncrementOtpAttempts(mobile: string, otp: string)
      requires Valid()
      modifies this
      ensures Valid()
      ensures otpRecords == IncrementAttempts(old(otpRecords), mobile, otp)
      ensures users == old(users) && sessions == old(sessions)
      ensures voterIdIndex == old(voterIdIndex) && mobileIndex == old(mobileIndex)
    {
      var i := 0;
      while i < |otpRecords|
        invariant i <= |otpRecords|
        invariant forall j :: 0 <= j < i ==> !(otpRecords[j].value.mobile == mobile && otpRecords[j].value.otp == otp)
      {
        var record := otpRecords[i].value;
        if record.mobile == mobile && record.otp == otp {
          assert FirstOtpFor(otpRecords, mobile, otp) == i by {
            var k := FirstOtpFor(otpRecords, mobile, otp);
            assert k < |otpRecords| ==> otpRecords[k].value.mobile == mobile && otpRecords[k].value.otp == otp;
          }
          IncrementKeepsValid(otpRecords, mobile, otp);
          otpRecords := otpRecords[i := Entry(otpRecords[i].key, record.(attempts := record.attempts + 1))];
          return;
        }
        i := i + 1;
      }
    }

    // --------------------------------------------------------- session ops

    method CreateSession(userId: string, token: string, hours: int, id: string, now: int) returns (session: Session)
      requires Valid()
      modifies this
      ensures Valid()
      ensures session == NewSession(id, userId, token, hours, now)
      ensures session.expiresAt == now + hours * 3600000
      ensures sessions == Set(old(sessions), id, session)
      ensures users == old(users) && otpRecords == old(otpRecords)
      ensures voterIdIndex == old(voterIdIndex) && mobileIndex == old(mobileIndex)
    {
      session := NewSession(id, userId, token, hours, now);
      SetSessionKeepsValid(sessions, session);
      sessions := Set(sessions, id, session);
    }

    method GetValidSession(token: string, now: int) returns (r: Option<Session>)
      ensures r == ValidSession(sessions, token, now)
    {
      var i := 0;
      while i < |sessions|
        invariant i <= |sessions|
        invariant forall j :: 0 <= j < i ==> !(sessions[j].value.token == token && sessions[j].value.expiresAt > now)
      {
        var session := sessions[i].value;
        if session.token == token && session.expiresAt > now {
          assert FirstLiveSession(sessions, token, now) == i by {
            var k := FirstLiveSession(sessions, token, now);
            assert k < |sessions| ==> sessions[k].value.token == token && sessions[k].value.expiresAt > now;
          }
          return Some(session);
        }
        i := i + 1;
      }
      return None;
    }

    method DeleteSession(token: string)
      requires Valid()
      modifies this
      ensures Valid()
      ensures sessions == RemoveSession(old(sessions), token)
      ensures users == old(users) && otpRecords == old(otpRecords)
      ensures voterIdIndex == old(voterIdIndex) && mobileIndex == old(mobileIndex)
    {
      var i := 0;
      while i < |sessions|
        invariant i <= |sessions|
        invariant forall j :: 0 <= j < i ==> sessions[j].value.token != token
      {
        if sessions[i].value.token == token {
          assert FirstSessionWithToken(sessions, token) == i by {
            var k := FirstSessionWithToken(sessions, token);
            assert k < |sessions| ==> sessions[k].value.token == token;
          }
          DeleteAt(sessions, i);
          DeleteSessionKeepsValid(sessions, sessions[i].key);
          sessions := Delete(sessions, sessions[i].key);
          return;
        }
        i := i + 1;
      }
    }

    /**
     * Both loops of `cleanupExpiredRecords`: each deletes the expired
     * entries of one table while iterating over it.
     */
    method CleanupExpiredRecords(now: int)
      requires Valid()
      modifies this
      ensures Valid()
      ensures otpRecords == UnexpiredOtps(old(otpRecords), now)
      ensures sessions == UnexpiredSessions(old(sessions), now)
      ensures users == old(users)
      ensures voterIdIndex == old(voterIdIndex) && mobileIndex == old(mobileIndex)
    {
      UnexpiredOtpsKeepsValid(otpRecords, now);
      UnexpiredSessionsKeepsValid(sessions, now);
      otpRecords := SweepOtps(otpRecords, now);
      sessions := SweepSessions(sessions, now);
    }
  }

  /**
   * The first loop of `cleanupExpiredRecords`. It deletes the entry it is
   * visiting; a JavaScript `Map` iterator then carries on with the next
   * entry, so the loop visits the table as it stood when it began.
   */
  method SweepOtps(snapshot: Table<OtpRecord>, now: int) returns (table: Table<OtpRecord>)
    requires DistinctKeys(snapshot)
    ensures table == UnexpiredOtps(snapshot, now)
  {
    table := snapshot;
    var i := 0;
    while i < |snapshot|
      invariant i <= |snapshot|
      invariant table == UnexpiredOtps(snapshot[..i], now) + snapshot[i..]
    {
      var e := snapshot[i];
      SweepOtpStep(snapshot, i, now, table);
      if e.value.expiresAt <= now {
        table := Delete(table, e.key);
      }
      i := i + 1;
    }
    assert snapshot[..i] == snapshot;
  }

  /** The second loop of `cleanupExpiredRecords`, over the sessions. */
  method SweepSessions(snapshot: Table<Session>, now: int) returns (table: Table<Session>)
    requires DistinctKeys(snapshot)
    ensures table == UnexpiredSessions(snapshot, now)
  {
    table := snapshot;
    var i := 0;
    while i < |snapshot|
      invariant i <= |snapshot|
      invariant table == UnexpiredSessions(snapshot[..i], now) + snapshot[i..]
    {
      var e := snapshot[i];
      SweepSessionStep(snapshot, i, now, table);
      if e.value.expiresAt <= now {
        table := Delete(table, e.key);
      }
      i := i + 1;
    }
    assert snapshot[..i] == snapshot;
  }

  // ------------------------------------------------ representation lemmas

  lemma SetUserKeepsValid(t: Table<User>, u: User)
    requires DistinctKeys(t) && UsersKeyedById(t)
    ensures DistinctKeys(Set(t, u.id, u)) && UsersKeyedById(Set(t, u.id, u))
  {
    SetKeepsKeysDistinct(t, u.id, u);
  }

  lemma SetOtpKeepsValid(t: Table<OtpRecord>, r: OtpRecord)
    requires DistinctKeys(t) && OtpsKeyedById(t)
    ensures DistinctKeys(Set(t, r.id, r)) && OtpsKeyedById(Set(t, r.id, r))
  {
    SetKeepsKeysDistinct(t, r.id, r);
  }

  lemma SetSessionKeepsValid(t: Table<Session>, s: Session)
    requires DistinctKeys(t) && SessionsKeyedById(t)
    ensures DistinctKeys(Set(t, s.id, s)) && SessionsKeyedById(Set(t, s.id, s))
  {
    SetKeepsKeysDistinct(t, s.id, s);
  }

  lemma MarkUsedKeepsValid(t: Table<OtpRecord>, id: string)
    requires DistinctKeys(t) && OtpsKeyedById(t)
    ensures DistinctKeys(MarkUsed(t, id)) && OtpsKeyedById(MarkUsed(t, id))
  {}

  lemma IncrementKeepsValid(t: Table<OtpRecord>, mobile: string, otp: string)
    requires DistinctKeys(t) && OtpsKeyedById(t)
    ensures DistinctKeys(IncrementAttempts(t, mobile, otp)) && OtpsKeyedById(IncrementAttempts(t, mobile, otp))
  {}

  lemma DeleteOtpKeepsValid(t: Table<OtpRecord>, key: string)
    requires DistinctKeys(t) && OtpsKeyedById(t)
    ensures DistinctKeys(Delete(t, key)) && OtpsKeyedById(Delete(t, key))
  {
    DeleteKeepsKeysDistinct(t, key);
    var i := IndexOfKey(t, key);
    var r := Delete(t, key);
    forall j | 0 <= j < |r| ensures r[j].key == r[j].value.id {
      if i < |t| && j >= i { assert r[j] == t[j + 1]; } else { assert r[j] == t[j]; }
    }
  }

  lemma DeleteSessionKeepsValid(t: Table<Session>, key: string)
    requires DistinctKeys(t) && SessionsKeyedById(t)
    ensures DistinctKeys(Delete(t, key)) && SessionsKeyedById(Delete(t, key))
  {
    DeleteKeepsKeysDistinct(t, key);
    var i := IndexOfKey(t, key);
    var r := Delete(t, key);
    forall j | 0 <= j < |r| ensures r[j].key == r[j].value.id {
      if i < |t| && j >= i { assert r[j] == t[j + 1]; } else { assert r[j] == t[j]; }
    }
  }

  /** Deleting by the key of the i-th entry removes exactly that entry. */
  lemma DeleteAt<V>(t: Table<V>, i: nat)
    requires DistinctKeys(t) && i < |t|
    ensures Delete(t, t[i].key) == t[..i] + t[i + 1..]
  {
    IndexOfOwnKey(t, i);
  }

  /** The sweep keeps exactly the records that have not expired. */
  lemma {:induction false} UnexpiredOtpsMembers(t: Table<OtpRecord>, now: int)
    ensures forall e :: e in UnexpiredOtps(t, now) <==> e in t && e.value.expiresAt > now
  {
    if t != [] {
      UnexpiredOtpsMembers(t[..|t| - 1], now);
      assert t == t[..|t| - 1] + [t[|t| - 1]];
    }
  }

  /** Keys of the kept records are keys of the original table. */
  lemma UnexpiredOtpsKeys(t: Table<OtpRecord>, now: int, key: string)
    requires forall j :: 0 <= j < |t| ==> t[j].key != key
    ensures forall j :: 0 <= j < |UnexpiredOtps(t, now)| ==> UnexpiredOtps(t, now)[j].key != key
  {
    var r := UnexpiredOtps(t, now);
    UnexpiredOtpsMembers(t, now);
    forall j | 0 <= j < |r| ensures r[j].key != key {
      assert r[j] in t;
    }
  }

  /** The sweep keeps a table's keys distinct and every record under its own id. */
  lemma {:induction false} UnexpiredOtpsKeepsValid(t: Table<OtpRecord>, now: int)
    requires DistinctKeys(t) && OtpsKeyedById(t)
    ensures DistinctKeys(UnexpiredOtps(t, now)) && OtpsKeyedById(UnexpiredOtps(t, now))
  {
    if t != [] {
      var init := t[..|t| - 1];
      var last := t[|t| - 1];
      var kept := UnexpiredOtps(init, now);
      assert DistinctKeys(kept) && OtpsKeyedById(kept) by {
        UnexpiredOtpsKeepsValid(init, now);
      }
      if last.value.expiresAt > now {
        assert forall j :: 0 <= j < |kept| ==> kept[j].key != last.key by {
          UnexpiredOtpsKeys(init, now, last.key);
        }
        assert UnexpiredOtps(t, now) == kept + [last];
      } else {
        assert UnexpiredOtps(t, now) == kept;
      }
    }
  }

  /** The sweep keeps exactly the records that have not expired. */
  lemma {:induction false} UnexpiredSessionsMembers(t: Table<Session>, now: int)
    ensures forall e :: e in UnexpiredSessions(t, now) <==> e in t && e.value.expiresAt > now
  {
    if t != [] {
      UnexpiredSessionsMembers(t[..|t| - 1], now);
      assert t == t[..|t| - 1] + [t[|t| - 1]];
    }
  }

  /** Keys of the kept records are keys of the original table. */
  lemma UnexpiredSessionsKeys(t: Table<Session>, now: int, key: string)
    requires forall j :: 0 <= j < |t| ==> t[j].key != key
    ensures forall j :: 0 <= j < |UnexpiredSessions(t, now)| ==> UnexpiredSessions(t, now)[j].key != key
  {
    var r := UnexpiredSessions(t, now);
    UnexpiredSessionsMembers(t, now);
    forall j | 0 <= j < |r| ensures r[j].key != key {
      assert r[j] in t;
    }
  }

  /** The sweep keeps a table's keys distinct and every record under its own id. */
  lemma {:induction false} UnexpiredSessionsKeepsValid(t: Table<Session>, now: int)
    requires DistinctKeys(t) && SessionsKeyedById(t)
    ensures DistinctKeys(UnexpiredSessions(t, now)) && SessionsKeyedById(UnexpiredSessions(t, now))
  {
    if t != [] {
      var init := t[..|t| - 1];
      var last := t[|t| - 1];
      var kept := UnexpiredSessions(init, now);
      assert DistinctKeys(kept) && SessionsKeyedById(kept) by {
        UnexpiredSessionsKeepsValid(init, now);
      }
      if last.value.expiresAt > now {
        assert forall j :: 0 <= j < |kept| ==> kept[j].key != last.key by {
          UnexpiredSessionsKeys(init, now, last.key);
        }
        assert UnexpiredSessions(t, now) == kept + [last];
      } else {
        assert UnexpiredSessions(t, now) == kept;
      }
    }
  }

  /** In a table with distinct keys, no entry before the i-th has its key. */
  lemma PrefixKeysDiffer<V>(t: Table<V>, i: nat)
    requires DistinctKeys(t) && i < |t|
    ensures forall j :: 0 <= j < |t[..i]| ==> t[..i][j].key != t[i].key
  {
    forall j | 0 <= j < |t[..i]| ensures t[..i][j].key != t[i].key {
      assert t[..i][j] == t[j];
    }
  }

  /** Extending the prefix by one entry extends the sweep by that entry when it has not expired. */
  lemma UnexpiredOtpsSnoc(t: Table<OtpRecord>, i: nat, now: int)
    requires i < |t|
    ensures UnexpiredOtps(t[..i + 1], now) == UnexpiredOtps(t[..i], now) + (if t[i].value.expiresAt > now then [t[i]] else [])
  {
    assert t[..i + 1][..i] == t[..i];
  }

  /** One iteration of the sweep over `t`, a table with distinct keys. */
  lemma SweepOtpStep(t: Table<OtpRecord>, i: nat, now: int, cur: Table<OtpRecord>)
    requires DistinctKeys(t) && i < |t|
    requires cur == UnexpiredOtps(t[..i], now) + t[i..]
    ensures t[i].value.expiresAt <= now ==> Delete(cur, t[i].key) == UnexpiredOtps(t[..i + 1], now) + t[i + 1..]
    ensures t[i].value.expiresAt > now ==> cur == UnexpiredOtps(t[..i + 1], now) + t[i + 1..]
  {
    var kept := UnexpiredOtps(t[..i], now);
    var rest := t[i + 1..];
    assert t[i..] == [t[i]] + rest;
    if t[i].value.expiresAt <= now {
      assert UnexpiredOtps(t[..i + 1], now) == kept by { UnexpiredOtpsSnoc(t, i, now); }
      assert Delete(kept + [t[i]] + rest, t[i].key) == kept + rest by {
        PrefixKeysDiffer(t, i);
        UnexpiredOtpsKeys(t[..i], now, t[i].key);
        DeleteEntry(kept, t[i], rest);
      }
      assert cur == kept + [t[i]] + rest;
    } else {
      assert UnexpiredOtps(t[..i + 1], now) == kept + [t[i]] by { UnexpiredOtpsSnoc(t, i, now); }
      assert cur == (kept + [t[i]]) + rest;
    }
  }

  lemma UnexpiredSessionsSnoc(t: Table<Session>, i: nat, now: int)
    requires i < |t|
    ensures UnexpiredSessions(t[..i + 1], now) == UnexpiredSessions(t[..i], now) + (if t[i].value.expiresAt > now then [t[i]] else [])
  {
    assert t[..i + 1][..i] == t[..i];
  }

  /** One iteration of the sweep over `t`, a table with distinct keys. */
  lemma SweepSessionStep(t: Table<Session>, i: nat, now: int, cur: Table<Session>)
    requires DistinctKeys(t) && i < |t|
    requires cur == UnexpiredSessions(t[..i], now) + t[i..]
    ensures t[i].value.expiresAt <= now ==> Delete(cur, t[i].key) == UnexpiredSessions(t[..i + 1], now) + t[i + 1..]
    ensures t[i].value.expiresAt > now ==> cur == UnexpiredSessions(t[..i + 1], now) + t[i + 1..]
  {
    var kept := UnexpiredSessions(t[..i], now);
    var rest := t[i + 1..];
    assert t[i..] == [t[i]] + rest;
    if t[i].value.expiresAt <= now {
      assert UnexpiredSessions(t[..i + 1], now) == kept by { UnexpiredSessionsSnoc(t, i, now); }
      assert Delete(kept + [t[i]] + rest, t[i].key) == kept + rest by {
        PrefixKeysDiffer(t, i);
        UnexpiredSessionsKeys(t[..i], now, t[i].key);
        DeleteEntry(kept, t[i], rest);
      }
      assert cur == kept + [t[i]] + rest;
    } else {
      assert UnexpiredSessions(t[..i + 1], now) == kept + [t[i]] by { UnexpiredSessionsSnoc(t, i, now); }
      assert cur == (kept + [t[i]]) + rest;
    }
  }

  // ------------------------------------------------------ OTP properties

  lemma FirstUsableOtpIs(t: Table<OtpRecord>, mobile: string, otp: string, now: int, i: nat)
    requires i <= |t|
    requires i < |t| ==> OtpUsable(t[i].value, mobile, otp, now)
    requires forall j :: 0 <= j < i ==> !OtpUsable(t[j].value, mobile, otp, now)
    ensures FirstUsableOtp(t, mobile, otp, now) == i
  {
    var k := FirstUsableOtp(t, mobile, otp, now);
    assert k < |t| ==> OtpUsable(t[k].value, mobile, otp, now);
  }

  /**
   * Once `markOTPAsUsed` has run on a record's id, `getValidOTP` never
   * returns that record again, whatever mobile and code it is asked for.
   */
  lemma MarkedOtpNotReturned(t: Table<OtpRecord>, id: string, mobile: string, otp: string, now: int)
    requires DistinctKeys(t) && OtpsKeyedById(t)
    ensures var r := ValidOtp(MarkUsed(t, id), mobile, otp, now);
      r.None? || r.value.id != id
  {
    var m := MarkUsed(t, id);
    var i := IndexOfKey(t, id);
    var k := FirstUsableOtp(m, mobile, otp, now);
    if k < |m| {
      if i < |t| {
        assert m[i].value.isUsed;
        assert k != i;
        assert m[k] == t[k];
        assert t[i].key == id;
      } else {
        assert m[k] == t[k];
      }
    }
  }

  /**
   * A stored record that is used, or has had three attempts counted, is
   * never returned by `getValidOTP`.
   */
  lemma SpentOtpNotReturned(t: Table<OtpRecord>, e: Entry<OtpRecord>, mobile: string, otp: string, now: int)
    requires DistinctKeys(t) && OtpsKeyedById(t)
    requires e in t && (e.value.isUsed || e.value.attempts >= 3)
    ensures var r := ValidOtp(t, mobile, otp, now);
      r.None? || r.value.id != e.value.id
  {
    var k := FirstUsableOtp(t, mobile, otp, now);
    if k < |t| {
      var j :| 0 <= j < |t| && t[j] == e;
      assert k != j;
    }
  }

  /**
   * `incrementOTPAttempts` is called with the submitted code, so a wrong
   * guess never changes what `getValidOTP` answers for the right code.
   */
  lemma WrongGuessKeepsValidOtp(t: Table<OtpRecord>, mobile: string, code: string, guess: string, now: int)
    requires guess != code
    ensures ValidOtp(IncrementAttempts(t, mobile, guess), mobile, code, now) == ValidOtp(t, mobile, code, now)
  {
    var r := IncrementAttempts(t, mobile, guess);
    var k := FirstUsableOtp(t, mobile, code, now);
    forall j | 0 <= j < |t| && OtpUsable(t[j].value, mobile, code, now)
      ensures r[j] == t[j]
    {}
    forall j | 0 <= j < |t| && OtpUsable(r[j].value, mobile, code, now)
      ensures r[j] == t[j]
    {}
    FirstUsableOtpIs(r, mobile, code, now, k);
  }

  /** The OTP table after a series of rejected submissions of `guesses` for `mobile`. */
  function AfterGuesses(t: Table<OtpRecord>, mobile: string, guesses: seq<string>): (r: Table<OtpRecord>)
    ensures |r| == |t|
    decreases |guesses|
  {
    if guesses == [] then t
    else AfterGuesses(IncrementAttempts(t, mobile, guesses[0]), mobile, guesses[1..])
  }

  /**
   * However many wrong codes are submitted, the genuine code stays usable:
   * the three-attempt limit is never reached by guessing.
   */
  lemma {:induction false} WrongGuessesKeepCodeValid(t: Table<OtpRecord>, mobile: string, code: string, guesses: seq<string>, now: int)
    requires forall k :: 0 <= k < |guesses| ==> guesses[k] != code
    ensures ValidOtp(AfterGuesses(t, mobile, guesses), mobile, code, now) == ValidOtp(t, mobile, code, now)
    decreases |guesses|
  {
    if guesses != [] {
      WrongGuessKeepsValidOtp(t, mobile, code, guesses[0], now);
      WrongGuessesKeepCodeValid(IncrementAttempts(t, mobile, guesses[0]), mobile, code, guesses[1..], now);
    }
  }

  /**
   * The handlers increment attempts only after `getValidOTP` found nothing
   * for the submitted code; such an increment never touches a record that
   * is usable for any code.
   */
  lemma FailedLookupSparesUsableOtps(t: Table<OtpRecord>, mobile: string, guess: string, now: int)
    requires ValidOtp(t, mobile, guess, now).None?
    ensures forall j, c :: 0 <= j < |t| && OtpUsable(t[j].value, mobile, c, now) ==>
      IncrementAttempts(t, mobile, guess)[j] == t[j]
  {
    var r := IncrementAttempts(t, mobile, guess);
    forall j, c | 0 <= j < |t| && OtpUsable(t[j].value, mobile, c, now)
      ensures r[j] == t[j]
    {
      assert !OtpUsable(t[j].value, mobile, guess, now);
    }
  }

  lemma {:induction false} UnexpiredOtpsCons(t: Table<OtpRecord>, now: int)
    requires t != []
    ensures UnexpiredOtps(t, now) == (if t[0].value.expiresAt > now then [t[0]] else []) + UnexpiredOtps(t[1..], now)
    decreases |t|
  {
    if |t| == 1 {
      assert t[1..] == [] && t[..0] == [];
    } else {
      var init := t[..|t| - 1];
      var rest := t[1..];
      var head := if t[0].value.expiresAt > now then [t[0]] else [];
      var last := if t[|t| - 1].value.expiresAt > now then [t[|t| - 1]] else [];
      assert UnexpiredOtps(init, now) == head + UnexpiredOtps(init[1..], now) by {
        UnexpiredOtpsCons(init, now);
        assert init[0] == t[0];
      }
      assert UnexpiredOtps(rest, now) == UnexpiredOtps(init[1..], now) + last by {
        assert init[1..] == rest[..|rest| - 1];
        assert rest[|rest| - 1] == t[|t| - 1];
      }
      assert UnexpiredOtps(t, now) == UnexpiredOtps(init, now) + last;
    }
  }

  /** `getValidOTP` on a non-empty table: the head if usable, else the answer for the rest. */
  lemma ValidOtpCons(t: Table<OtpRecord>, mobile: string, otp: string, now: int)
    requires t != []
    ensures ValidOtp(t, mobile, otp, now) ==
      if OtpUsable(t[0].value, mobile, otp, now) then Some(t[0].value) else ValidOtp(t[1..], mobile, otp, now)
  {
    if !OtpUsable(t[0].value, mobile, otp, now) {
      assert FirstUsableOtp(t, mobile, otp, now) == 1 + FirstUsableOtp(t[1..], mobile, otp, now);
    }
  }

  /**
   * The sweep is invisible to `getValidOTP`: at the sweep's time or any
   * later time it answers the same before and after.
   */
  lemma {:induction false} SweepKeepsValidOtp(t: Table<OtpRecord>, mobile: string, otp: string, now: int, later: int)
    requires now <= later
    ensures ValidOtp(UnexpiredOtps(t, now), mobile, otp, later) == ValidOtp(t, mobile, otp, later)
  {
    if t != [] {
      var u := UnexpiredOtps(t, now);
      var tail := UnexpiredOtps(t[1..], now);
      assert ValidOtp(tail, mobile, otp, later) == ValidOtp(t[1..], mobile, otp, later) by {
        SweepKeepsValidOtp(t[1..], mobile, otp, now, later);
      }
      ValidOtpCons(t, mobile, otp, later);
      if t[0].value.expiresAt > now {
        assert u == [t[0]] + tail by { UnexpiredOtpsCons(t, now); }
        assert u[0] == t[0] && u[1..] == tail;
        ValidOtpCons(u, mobile, otp, later);
      } else {
        assert u == tail by { UnexpiredOtpsCons(t, now); }
      }
    }
  }

  // -------------------------------------------------- session properties

  lemma {:induction false} UnexpiredSessionsCons(t: Table<Session>, now: int)
    requires t != []
    ensures UnexpiredSessions(t, now) == (if t[0].value.expiresAt > now then [t[0]] else []) + UnexpiredSessions(t[1..], now)
    decreases |t|
  {
    if |t| == 1 {
      assert t[1..] == [] && t[..0] == [];
    } else {
      var init := t[..|t| - 1];
      var rest := t[1..];
      var head := if t[0].value.expiresAt > now then [t[0]] else [];
      var last := if t[|t| - 1].value.expiresAt > now then [t[|t| - 1]] else [];
      assert UnexpiredSessions(init, now) == head + UnexpiredSessions(init[1..], now) by {
        UnexpiredSessionsCons(init, now);
        assert init[0] == t[0];
      }
      assert UnexpiredSessions(rest, now) == UnexpiredSessions(init[1..], now) + last by {
        assert init[1..] == rest[..|rest| - 1];
        assert rest[|rest| - 1] == t[|t| - 1];
      }
      assert UnexpiredSessions(t, now) == UnexpiredSessions(init, now) + last;
    }
  }

  /** `getValidSession` on a non-empty table: the head if live, else the answer for the rest. */
  lemma ValidSessionCons(t: Table<Session>, token: string, now: int)
    requires t != []
    ensures ValidSession(t, token, now) ==
      if t[0].value.token == token && t[0].value.expiresAt > now then Some(t[0].value)
      else ValidSession(t[1..], token, now)
  {
    if !(t[0].value.token == token && t[0].value.expiresAt > now) {
      assert FirstLiveSession(t, token, now) == 1 + FirstLiveSession(t[1..], token, now);
    }
  }

  /** The sweep is invisible to `getValidSession` at its own time and later. */
  lemma {:induction false} SweepKeepsValidSession(t: Table<Session>, token: string, now: int, later: int)
    requires now <= later
    ensures ValidSession(UnexpiredSessions(t, now), token, later) == ValidSession(t, token, later)
  {
    if t != [] {
      var u := UnexpiredSessions(t, now);
      var tail := UnexpiredSessions(t[1..], now);
      assert ValidSession(tail, token, later) == ValidSession(t[1..], token, later) by {
        SweepKeepsValidSession(t[1..], token, now, later);
      }
      ValidSessionCons(t, token, later);
      if t[0].value.expiresAt > now {
        assert u == [t[0]] + tail by { UnexpiredSessionsCons(t, now); }
        assert u[0] == t[0] && u[1..] == tail;
        ValidSessionCons(u, token, later);
      } else {
        assert u == tail by { UnexpiredSessionsCons(t, now); }
      }
    }
  }

  /** When one session at most carries the token, `deleteSession` revokes it. */
  lemma RemoveSessionRevokes(t: Table<Session>, token: string, now: int)
    requires forall i, j :: 0 <= i < |t| && 0 <= j < |t| && t[i].value.token == token && t[j].value.token == token ==> i == j
    ensures ValidSession(RemoveSession(t, token), token, now).None?
  {
    var i := FirstSessionWithToken(t, token);
    var r := RemoveSession(t, token);
    if i < |t| {
      forall j | 0 <= j < |r| ensures r[j].value.token != token {
        if j < i { assert r[j] == t[j]; } else { assert r[j] == t[j + 1]; }
      }
    }
  }

  /**
   * `deleteSession` removes only the first session with the token: when a
   * later one carries the same token and has not expired, the token is
   * still accepted after logout.
   */
  lemma DuplicateTokenSurvivesRemove(t: Table<Session>, token: string, now: int, i: nat, j: nat)
    requires i < j < |t|
    requires t[i].value.token == token && t[j].value.token == token && t[j].value.expiresAt > now
    ensures ValidSession(RemoveSession(t, token), token, now).Some?
  {
    var k := FirstSessionWithToken(t, token);
    var r := RemoveSession(t, token);
    assert r[j - 1] == t[j];
  }
}

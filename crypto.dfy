/**
 * `CryptoService`: OTP generation and the JWT-like session token.
 *
 * The foreign primitives (HMAC-SHA256, base64url, JSON, SHA-256, bcrypt)
 * are not modelled; they are the function-valued fields of `Primitives`,
 * and `Sound` lists the only facts about them the proofs use.
 */
module Crypto {
  import opened Wrappers
  import opened Strings

  const Digits: string := "0123456789"

  /** The code whose i-th character is the digit drawn at the i-th step. */
  function OtpDigits(draws: seq<nat>): (otp: string)
    requires forall i :: 0 <= i < |draws| ==> draws[i] < |Digits|
    ensures |otp| == |draws| && AllDigits(otp)
  {
    seq(|draws|, i requires 0 <= i < |draws| => Digits[draws[i]])
  }

  /**
   * `generateOTP(length)`: `draws[i]` stands for the i-th call of
   * `crypto.randomInt(0, digits.length)`, which returns an index below 10.
   */
  method GenerateOtp(length: nat, draws: seq<nat>) returns (otp: string)
    requires |draws| == length
    requires forall i :: 0 <= i < |draws| ==> draws[i] < |Digits|
    ensures |otp| == length
    ensures forall i :: 0 <= i < length ==> otp[i] == Digits[draws[i]]
    ensures AllDigits(otp)
    ensures otp == OtpDigits(draws)
  {
    otp := "";
    var i := 0;
    while i < length
      invariant 0 <= i <= length
      invariant |otp| == i
      invariant forall k :: 0 <= k < i ==> otp[k] == Digits[draws[k]]
    {
      otp := otp + [Digits[draws[i]]];
      i := i + 1;
    }
  }

  /** The claims login puts in a token; `userId` is `None` when the parsed JSON has no string `userId`. */
  datatype Payload = Payload(
    userId: Option<string>,
    voterId: string,
    email: string,
    mobile: string,
    iat: int,
    exp: int)

  /** The foreign functions the core calls, as opaque values. */
  datatype Primitives = Primitives(
    header: string,                          // base64url(JSON.stringify({ alg: "HS256", typ: "JWT" }))
    encode: Payload -> string,               // base64url(JSON.stringify(payload))
    decode: string -> Option<Payload>,       // JSON.parse(base64url-decode(s)); None when either throws
    hmac: (string, string) -> string,        // HMAC-SHA256(secret, data) as base64url
    hashData: string -> string,              // SHA-256 hex digest
    verifyPassword: (string, string) -> bool // bcrypt.compare(password, hash)
  )

  /**
   * What the proofs assume of the primitives: base64url never produces
   * '.', and decoding an encoded payload gives it back.
   */
  ghost predicate Sound(p: Primitives) {
    && '.' !in p.header
    && (forall pl :: '.' !in p.encode(pl) && p.decode(p.encode(pl)) == Some(pl))
    && (forall key, data :: '.' !in p.hmac(key, data))
  }

  /**
   * `generateJWT`: header "." payload "." signature over the first two.
   * When no segment contains '.', which base64url guarantees, the token
   * splits back into exactly those three segments.
   */
  function GenerateJwt(p: Primitives, payload: Payload, secret: string): (token: string)
    ensures var signed := p.header + "." + p.encode(payload);
      '.' !in p.header && '.' !in p.encode(payload) && '.' !in p.hmac(secret, signed) ==>
      Split(token, '.') == [p.header, p.encode(payload), p.hmac(secret, signed)]
  {
    var signed := p.header + "." + p.encode(payload);
    var sig := p.hmac(secret, signed);
    if '.' !in p.header && '.' !in p.encode(payload) && '.' !in sig then
      SplitThree(p.header, p.encode(payload), sig, '.');
      signed + "." + sig
    else
      signed + "." + sig
  }

  /**
   * `verifyJWT`: `None` is the thrown "Invalid token". Destructuring the
   * split keeps the first three segments; with fewer, the signature is
   * `undefined` and never equals the expected one. There is no clock
   * parameter: `exp` is never compared with the time.
   */
  function VerifyJwt(p: Primitives, token: string, secret: string): (r: Option<Payload>)
    ensures r.Some? ==>
      var parts := Split(token, '.');
      && |parts| >= 3
      && parts[2] == p.hmac(secret, parts[0] + "." + parts[1])
      && p.decode(parts[1]) == r
    ensures
      var parts := Split(token, '.');
      |parts| >= 3 && parts[2] == p.hmac(secret, parts[0] + "." + parts[1]) ==> r == p.decode(parts[1])
  {
    var parts := Split(token, '.');
    if |parts| < 3 then None
    else if parts[2] != p.hmac(secret, parts[0] + "." + parts[1]) then None
    else p.decode(parts[1])
  }

  /** A token made by `GenerateJwt` verifies under the same secret and yields its payload. */
  lemma VerifyGeneratedJwt(p: Primitives, payload: Payload, secret: string)
    requires Sound(p)
    ensures VerifyJwt(p, GenerateJwt(p, payload, secret), secret) == Some(payload)
  {}

  /**
   * Segments after the third are never looked at: appending "." and
   * anything to a token with at least three segments does not change
   * what verification says about it.
   */
  lemma VerifyIgnoresExtraSegments(p: Primitives, token: string, extra: string, secret: string)
    requires |Split(token, '.')| >= 3
    ensures VerifyJwt(p, token + "." + extra, secret) == VerifyJwt(p, token, secret)
  {
    SplitAppend(token, extra, '.');
  }

  /** So a genuine token with an extra segment appended still verifies. */
  lemma VerifyGeneratedJwtWithSuffix(p: Primitives, payload: Payload, secret: string, extra: string)
    requires Sound(p)
    ensures VerifyJwt(p, GenerateJwt(p, payload, secret) + "." + extra, secret) == Some(payload)
  {
    VerifyIgnoresExtraSegments(p, GenerateJwt(p, payload, secret), extra, secret);
    VerifyGeneratedJwt(p, payload, secret);
  }
}

# Secure voting: the authentication core, in Dafny

This project models the authentication core of the secure-voting web
application and proves properties about it. That core is:

- the credential validators and normalisers (`ValidationService`);
- the in-memory store (`DatabaseService`): users, OTP records, sessions and
  two secondary indexes;
- OTP generation and the signed session token (`CryptoService`);
- the request guard `authenticateRequest`;
- the six authentication routes: register, send-otp, verify-otp, login,
  verify-token and logout;
- the translation lookup of the interface-language context.

Layout, one module per file:

| file | module | models |
|---|---|---|
| `wrappers.dfy` | `Wrappers` | `Option` (`undefined`/`null` versus a value) |
| `strings.dfy` | `Strings` | the JavaScript string operations the core uses: `replace(/\s/g, "")`, `toUpperCase`/`toLowerCase`, `trim`, `startsWith`, `split` |
| `validation.dfy` | `Validation` | `lib/validation.ts` |
| `crypto.dfy` | `Crypto` | `lib/crypto.ts` |
| `ordered_map.dfy` | `OrderedMap` | a JavaScript `Map`: insertion-ordered entries; `set` replaces in place or appends; `delete` |
| `database.dfy` | `Database` | `lib/database.ts`, as the class `DatabaseService` whose methods update its five tables |
| `http.dfy` | `Http` | the JSON responses and the `Bearer` header extraction |
| `auth_middleware.dfy` | `AuthMiddleware` | `lib/auth-middleware.ts` |
| `register.dfy`, `send_otp.dfy`, `verify_otp.dfy`, `login.dfy`, `verify_token.dfy`, `logout.dfy` | `RegisterRoute`, `SendOtpRoute`, `VerifyOtpRoute`, `LoginRoute`, `VerifyTokenRoute`, `LogoutRoute` | `app/api/auth/*/route.ts` |
| `language_context.dfy` | `LanguageContext` | `contexts/language-context.tsx` |

Modelling conventions:

- **Missing request fields.** An absent request field is the empty string: every route tests fields with `!x`, which treats `undefined` and `""` alike. The `type` fields are `Option<string>`, because a destructuring default replaces only `undefined`.
- **Clock and random values.** The clock is an integer `now` in milliseconds. The values drawn from `crypto.randomUUID` and `crypto.randomInt` are parameters of the operations that use them.
- **Foreign functions.** bcrypt, SHA-256, HMAC-SHA256, base64url and JSON are the function-valued fields of `Crypto.Primitives`. The predicate `Crypto.Sound` states the only facts the proofs use about them:
  - base64url output contains no '.';
  - decoding an encoded payload gives the payload back.
- **SMS results.** The SMS gateway's answer is a parameter.
- **Store entry points.** Each route's store operations run against the `DatabaseService` object passed to it.

Where the code's own comments promise more than the code does, the model follows the code. The lemmas make the differences explicit:

- **Wrong guesses never exhaust a code.** The comment at `app/api/auth/verify-otp/route.ts:39` counts attempts "for rate limiting", and `getValidOTP` refuses a record with 3 attempts (`lib/database.ts:126`). But `incrementOTPAttempts` counts only on the record whose code equals the submitted one, so a wrong guess never counts against the genuine code. See `Database.WrongGuessesKeepCodeValid`.
- **Token verification has no clock.** The comment at `app/api/auth/verify-token/route.ts:23` says "Verify token signature and expiration". `verifyJWT` never reads `exp`, and `Crypto.VerifyJwt` has no clock parameter, so only the session record's expiry applies.
- **Session tokens are not unique.** A token holds no randomness, so two logins of the same user in the same second share one token. Logout then removes only the first session carrying it. See `LoginRoute.SameSecondLoginsShareToken` and `Database.DuplicateTokenSurvivesRemove`.
- **The OTP rate limit is never reached.** The comment at `app/api/auth/send-otp/route.ts:40` announces rate limiting, but the query it relies on does not exist (see Findings).

## Model

| member | source | states |
|---|---|---|
| Strings.RemoveWhitespace | lib/validation.ts:9 | the stripped string contains no JavaScript whitespace and is no longer than the input |
| Strings.RemoveWhitespaceOfClean | lib/validation.ts:182 | stripping a string that has no whitespace leaves it unchanged |
| Strings.RemoveWhitespaceAppend | lib/validation.ts:104 | stripping distributes over concatenation |
| Strings.TrimStart | app/api/auth/register/route.ts:68 | the result is a suffix of the input, everything cut off is whitespace, and it does not start with whitespace |
| Strings.TrimEnd | app/api/auth/register/route.ts:68 | the result is a prefix of the input, everything cut off is whitespace, and it does not end with whitespace |
| Strings.Trim | app/api/auth/register/route.ts:68 | the result is no longer than the input and neither starts nor ends with whitespace |
| Strings.TrimCutsOnlyWhitespace | app/api/auth/register/route.ts:68 | the trimmed string is a contiguous part of the input with only whitespace before and after it |
| Strings.Utf16Length | lib/validation.ts:73 | JavaScript's `.length`: between one and two units per character, and equal to the character count when no character is outside the Basic Multilingual Plane |
| Strings.ToUpper | lib/validation.ts:182 | `toUpperCase` on ASCII: each letter a-z becomes the letter 32 code points lower, everything else is kept |
| Strings.ToLower | app/api/auth/register/route.ts:134 | `toLowerCase` on ASCII: each letter A-Z becomes the letter 32 code points higher, everything else is kept |
| Strings.CaseFoldsAgree | app/api/auth/login/route.ts:95 | lower-casing an upper-cased string gives the lower-cased string, and the other way round |
| Strings.Split | lib/crypto.ts:51 | splitting always yields at least one segment |
| Strings.SplitWithoutSeparator | lib/crypto.ts:51 | a string without the separator splits into itself alone |
| Strings.SplitAppend | lib/crypto.ts:51 | splitting `a + sep + b` gives the segments of `a` followed by those of `b` |
| Strings.SplitThree | lib/crypto.ts:51-52 | three separator-free segments joined by the separator split back into those three |
| Validation.ValidateVoterId | lib/validation.ts:3-22 | empty input gives "Voter ID is required"; valid iff non-empty and the whitespace-stripped, upper-cased string is 3 letters A-Z then 7 digits |
| Validation.VoterIdAcceptance | lib/validation.ts:9-14 | acceptance stated on the raw input: after removing whitespace, three ASCII letters of either case, then seven digits |
| Validation.NormalizeVoterId | lib/validation.ts:181-183 | the normalised voter ID has no whitespace, no lower-case letter, and is no longer than the input |
| Validation.NormalizeVoterIdIdempotent | lib/validation.ts:181-183 | `normalizeVoterID` is idempotent |
| Validation.NormalizedVoterIdStaysValid | lib/validation.ts:181-183 | a valid voter ID normalises to a string that matches the pattern and is itself valid |
| Validation.UpperCharKeepsWhitespace | lib/validation.ts:182 | upper-casing a character neither creates nor removes whitespace |
| Validation.CleanMobile | lib/validation.ts:31 | the result holds only digits and '+' and is no longer than the input |
| Validation.CleanMobileChar | lib/validation.ts:31 | a single character is kept iff it is a digit or '+' |
| Validation.CleanMobileAppend | lib/validation.ts:31 | cleaning distributes over concatenation, so every digit and '+' is kept in order and everything else is dropped |
| Validation.NationalNumberIsValid | lib/validation.ts:37-40 | a bare ten-digit number starting with 6-9 is accepted |
| Validation.CleanMobileOfClean | lib/validation.ts:167 | cleaning a string of digits and '+' leaves it unchanged |
| Validation.ValidateMobile | lib/validation.ts:25-50 | empty input gives "Mobile number is required"; valid iff the cleaned string is "+91", "91" or nothing, followed by ten digits whose first is 6-9 |
| Validation.NormalizeMobile | lib/validation.ts:166-178 | the result holds only digits and '+'; a cleaned number of ten characters not starting with "+91" gains the "+91" prefix |
| Validation.NormalizeValidMobile | lib/validation.ts:166-178 | a valid mobile normalises to "+91" followed by exactly ten digits (13 characters) |
| Validation.NormalizeMobileIdempotent | lib/validation.ts:166-178 | `normalizeMobile` is idempotent on every input |
| Validation.NormalizeMobilePreservesValidity | lib/validation.ts:166-178 | the normalised mobile is valid iff the original is |
| Validation.ValidateEmail | lib/validation.ts:53-65 | empty input gives "Email is required" |
| Validation.ValidateEmailMatchesRegex | lib/validation.ts:58-62 | valid iff the string is `a@b.c` with `a`, `b` and `c` non-empty and free of whitespace and '@' (the regular expression, stated with existential parts) |
| Validation.EmailShapeMatches | lib/validation.ts:58 | the decidable shape check implies a regular-expression match |
| Validation.RegexMatchHasShape | lib/validation.ts:58 | every regular-expression match passes the shape check |
| Validation.ValidatePassword | lib/validation.ts:68-96 | empty input gives "Password is required"; fewer than 8 or more than 128 UTF-16 units give the matching length error; valid iff 8 <= UTF-16 length <= 128 and the password has an upper-case letter, a lower-case letter, a digit and a listed special character |
| Validation.ValidateOtp | lib/validation.ts:99-111 | empty input gives "OTP is required"; valid iff the whitespace-stripped string is exactly six digits |
| Validation.SpacedOtpPassesFormatCheck | lib/validation.ts:104-108 | a six-digit code with a space inserted still passes the format check |
| Validation.ValidateState | lib/validation.ts:114-163 | empty input gives "State is required"; valid iff the name is one of the 36 listed states and territories |
| Crypto.OtpDigits | lib/crypto.ts:17-27 | the code built from the digit draws has one character per draw, all decimal digits |
| Crypto.GenerateOtp | lib/crypto.ts:17-27 | the loop returns exactly `length` characters; the i-th is the digit at the i-th draw |
| Crypto.VerifyJwt | lib/crypto.ts:49-62 | a token is accepted only if it has at least three segments and the third equals the HMAC of the first two; every such token yields the decoded second segment |
| Crypto.GenerateJwt | lib/crypto.ts:40-46 | when no segment contains '.', the token splits into header, encoded payload and the HMAC over "header.payload" |
| Crypto.VerifyGeneratedJwt | lib/crypto.ts:40-62 | a generated token verifies under the same secret and yields its payload |
| Crypto.VerifyIgnoresExtraSegments | lib/crypto.ts:51 | appending "." and anything to a token with three segments does not change its verification |
| Crypto.VerifyGeneratedJwtWithSuffix | lib/crypto.ts:51-58 | a genuine token with an extra segment appended still verifies |
| OrderedMap.IndexOfKey | lib/database.ts:35-39 | position of the first entry with the key, `|t|` when there is none |
| OrderedMap.IndexOfKeyIs | lib/database.ts:35-39 | the first-position characterisation determines `IndexOfKey` |
| OrderedMap.Get | lib/database.ts:61 | nothing is found iff no entry has the key; a found value is stored under the key |
| OrderedMap.Set | lib/database.ts:53 | `Map.set` of a present key replaces that entry's value at its own position and leaves every other entry where it was; an absent key is appended at the end |
| OrderedMap.Delete | lib/database.ts:186 | `Map.delete` removes one entry for a present key and changes nothing otherwise |
| OrderedMap.IndexOfOwnKey | lib/database.ts:35-39 | with distinct keys, an entry's key is found at its own position |
| OrderedMap.GetEntry | lib/database.ts:61 | with distinct keys, `get` of a stored entry's key returns its value |
| OrderedMap.GetAfterSet | lib/database.ts:53 | after `set(k, v)`, `get(k)` is `v` and every other key reads as before |
| OrderedMap.SetKeepsKeysDistinct | lib/database.ts:53 | `set` never duplicates a key |
| OrderedMap.DeleteKeepsKeysDistinct | lib/database.ts:186 | `delete` never duplicates a key |
| OrderedMap.DeleteEntry | lib/database.ts:186 | deleting an entry's key removes exactly that entry and keeps the order of the rest |
| Database.ApplyUpdate | lib/database.ts:87-91 | the merged user keeps id, voter ID, hash, mobile, email, password hash, state, constituency and creation time, takes each given flag, and has `updated_at` set to now |
| Database.FirstUserWithEmail | lib/database.ts:74-81 | position of the first user, in insertion order, with the email |
| Database.UserWithEmail | lib/database.ts:74-81 | a found user has the email and is stored; nothing is found iff no user has it |
| Database.FirstUsableOtp | lib/database.ts:120-129 | position of the first record usable for the mobile, code and time |
| Database.ValidOtp | lib/database.ts:117-133 | a returned record has the mobile and code, is unused, unexpired and under 3 attempts; null iff no record is |
| Database.FirstOtpFor | lib/database.ts:144-145 | position of the first record with the mobile and code, used or not |
| Database.IncrementAttempts | lib/database.ts:143-151 | only the first record with the mobile and code gains one attempt; every other entry, and every key, is unchanged |
| Database.MarkUsed | lib/database.ts:135-141 | an unknown id changes nothing; otherwise the id's record, at its own position, gets `isUsed` set and nothing else of it or of the table changes |
| Database.UnexpiredOtps | lib/database.ts:196-201 | the sweep never grows the table |
| Database.FirstLiveSession | lib/database.ts:174-178 | position of the first unexpired session with the token |
| Database.ValidSession | lib/database.ts:171-181 | a returned session has the token and has not expired; null iff no session qualifies |
| Database.FirstSessionWithToken | lib/database.ts:184-185 | position of the first session with the token |
| Database.RemoveSession | lib/database.ts:183-190 | no session with the token: nothing changes; otherwise exactly the first session with the token is removed and the rest keep their order |
| Database.UnexpiredSessions | lib/database.ts:203-208 | the sweep never grows the table |
| Database.DatabaseService.constructor | lib/database.ts:35-39 | all five tables start empty |
| Database.DatabaseService.GetUserById | lib/database.ts:60-62 | a found user is stored under that id; null iff no key equals the id |
| Database.DatabaseService.GetUserByVoterIdHash | lib/database.ts:64-67 | a found user is the stored user that the index names by a non-empty id; null iff the hash is unindexed, indexed to "", or indexed to an id no user has |
| Database.DatabaseService.GetUserByMobile | lib/database.ts:69-72 | a found user is the stored user that the index names by a non-empty id; null iff the mobile is unindexed, indexed to "", or indexed to an id no user has |
| Database.DatabaseService.CreateUser | lib/database.ts:42-58 | stores the new user with both timestamps at now, and overwrites both index entries with no uniqueness check; both lookups then return the user |
| Database.DatabaseService.GetUserByEmail | lib/database.ts:74-81 | the loop returns the first user with the email, as `UserWithEmail` |
| Database.DatabaseService.UpdateUser | lib/database.ts:83-95 | unknown id: null and no change; otherwise stores and returns the merged user, leaving other users, indexes, OTPs and sessions unchanged |
| Database.DatabaseService.CreateOtp | lib/database.ts:98-115 | stores one unused record with zero attempts, expiring at now + minutes * 60000, appended when its id is new; nothing else changes |
| Database.DatabaseService.GetValidOtp | lib/database.ts:117-133 | the loop returns `ValidOtp` of the table |
| Database.DatabaseService.MarkOtpAsUsed | lib/database.ts:135-141 | the OTP table becomes `MarkUsed(old, id)`; nothing else changes |
| Database.DatabaseService.IncrementOtpAttempts | lib/database.ts:143-151 | the loop leaves the OTP table equal to `IncrementAttempts(old, mobile, otp)`; nothing else changes |
| Database.DatabaseService.CreateSession | lib/database.ts:154-169 | stores one session expiring at now + hours * 3600000; nothing else changes |
| Database.DatabaseService.GetValidSession | lib/database.ts:171-181 | the loop returns `ValidSession` of the table |
| Database.DatabaseService.DeleteSession | lib/database.ts:183-190 | the loop leaves the session table equal to `RemoveSession(old, token)`; nothing else changes |
| Database.DatabaseService.CleanupExpiredRecords | lib/database.ts:193-209 | the OTP and session tables become their unexpired parts in the original order; users and indexes unchanged |
| Database.SweepOtps | lib/database.ts:196-201 | deleting while iterating over the table as it stood leaves exactly the unexpired OTP records, in order |
| Database.SweepSessions | lib/database.ts:203-208 | deleting while iterating over the table as it stood leaves exactly the unexpired sessions, in order |
| Database.SetUserKeepsValid | lib/database.ts:53 | storing a user under its own id keeps keys distinct and each user under its id |
| Database.SetOtpKeepsValid | lib/database.ts:113 | the same for an OTP record |
| Database.SetSessionKeepsValid | lib/database.ts:167 | the same for a session |
| Database.MarkUsedKeepsValid | lib/database.ts:135-141 | marking a record used keeps the OTP table well formed |
| Database.IncrementKeepsValid | lib/database.ts:143-151 | counting an attempt keeps the OTP table well formed |
| Database.DeleteOtpKeepsValid | lib/database.ts:199 | deleting an OTP record keeps the table well formed |
| Database.DeleteSessionKeepsValid | lib/database.ts:186 | deleting a session keeps the table well formed |
| Database.DeleteAt | lib/database.ts:184-187 | deleting by the key of the i-th entry removes exactly the i-th entry |
| Database.UnexpiredOtpsMembers | lib/database.ts:196-201 | a record survives the sweep iff it was stored and `expires_at > now` |
| Database.UnexpiredOtpsKeys | lib/database.ts:196-201 | the sweep introduces no key the table did not have |
| Database.UnexpiredSessionsMembers | lib/database.ts:203-208 | a session survives the sweep iff it was stored and `expires_at > now` |
| Database.UnexpiredSessionsKeys | lib/database.ts:203-208 | the sweep introduces no key the table did not have |
| Database.UnexpiredOtpsSnoc | lib/database.ts:197-200 | one more visited record extends the kept prefix by that record if unexpired |
| Database.SweepOtpStep | lib/database.ts:197-200 | one iteration of the OTP loop preserves the loop's invariant |
| Database.UnexpiredSessionsSnoc | lib/database.ts:204-207 | one more visited session extends the kept prefix by that session if unexpired |
| Database.SweepSessionStep | lib/database.ts:204-207 | one iteration of the session loop preserves the loop's invariant |
| Database.FirstUsableOtpIs | lib/database.ts:120-129 | the first-position characterisation determines `FirstUsableOtp` |
| Database.MarkedOtpNotReturned | lib/database.ts:117-141 | after `markOTPAsUsed(id)`, `getValidOTP` never returns the record with that id |
| Database.SpentOtpNotReturned | lib/database.ts:117-133 | a stored record that is used or has 3 attempts is never returned |
| Database.WrongGuessKeepsValidOtp | lib/database.ts:143-151 | incrementing attempts for a wrong code does not change what `getValidOTP` answers for the right code |
| Database.AfterGuesses | lib/database.ts:143-151 | a series of failed submissions keeps the table's size |
| Database.WrongGuessesKeepCodeValid | lib/database.ts:143-151 | any number of wrong guesses leaves the genuine code exactly as usable as before |
| Database.FailedLookupSparesUsableOtps | lib/database.ts:143-151 | an increment after a failed lookup never touches a record usable for any code |
| Database.UnexpiredOtpsCons | lib/database.ts:196-201 | the sweep, stated from the front of the table |
| Database.SweepKeepsValidOtp | lib/database.ts:193-201 | at the sweep's time or later, `getValidOTP` answers the same before and after the sweep |
| Database.UnexpiredSessionsCons | lib/database.ts:203-208 | the sweep, stated from the front of the table |
| Database.SweepKeepsValidSession | lib/database.ts:203-208 | at the sweep's time or later, `getValidSession` answers the same before and after the sweep |
| Database.RemoveSessionRevokes | lib/database.ts:183-190 | when at most one session carries the token, it is no longer valid after `deleteSession` |
| Database.DuplicateTokenSurvivesRemove | lib/database.ts:183-190 | when a later unexpired session carries the same token, the token is still valid after `deleteSession` |
| Http.BearerToken | lib/auth-middleware.ts:24-30 | a token is found iff the header is present and starts with "Bearer "; the header is then "Bearer " followed by the token |
| Http.BearerTokenRoundTrip | lib/auth-middleware.ts:26-30 | any string sent after "Bearer " is extracted unchanged |
| AuthMiddleware.TokenUser | lib/auth-middleware.ts:47 | a found user is stored under the payload's `userId`; null iff the payload has no `userId` or no user is stored under it |
| AuthMiddleware.Authenticate | lib/auth-middleware.ts:18-73 | each guard, once the earlier ones pass, gives its own error: "No token provided", "Invalid token", "Session expired", "User not found", "User not verified"; when all pass, the result is the stored verified user, and success always means such a user with a live session for the token |
| AuthMiddleware.SignedTokenAuthenticates | lib/auth-middleware.ts:24-68 | a signed token with a live session, for a stored verified user, authenticates as that user |
| VerifyTokenRoute.VerifyToken | app/api/auth/verify-token/route.ts:7-87 | each guard, once the earlier ones pass, gives its own answer: 401 "No token provided", 401 "Invalid token", 401 "Session expired or invalid", 404 "User not found"; when all pass, 200 with the stored user's fields |
| VerifyTokenRoute.VerifyTokenAdmitsUnverified | app/api/auth/verify-token/route.ts:49-76 | the middleware accepts iff this route accepts a verified user; a user the middleware rejects as unverified passes this route |
| LogoutRoute.Logout | app/api/auth/logout/route.ts:4-37 | no bearer header: 401 and nothing deleted; otherwise 200 whether or not a session matched, with the first session carrying the token removed |
| LoginRoute.LoginPayload | app/api/auth/login/route.ts:205-212 | the payload names the user, `iat` is the current second and `exp = iat + 86400` |
| LoginRoute.VoterIdResolution | app/api/auth/login/route.ts:26-72 | a missing field gives 400 "Voter ID and password are required", a bad format the validator's 400; otherwise the user found by the hashed normalised voter ID is accepted iff it exists and the password matches, and an unknown voter ID and a wrong password both get 401 "Invalid Voter ID or password" |
| LoginRoute.EmailResolution | app/api/auth/login/route.ts:73-117 | a missing field gives 400 "Email and password are required", a bad format the validator's 400; otherwise the first user with the lower-cased email is accepted iff it exists and the password matches, and an unknown email and a wrong password both get 401 "Invalid email or password" |
| LoginRoute.PasswordResolution | app/api/auth/login/route.ts:26-117 | an accepted user is stored and has a matching password; a refusal is a 400 or the branch's single 401 message |
| LoginRoute.UserWithEmailIsStored | app/api/auth/login/route.ts:95 | the user found by email is stored under its own id |
| LoginRoute.MobileFormatRejection | app/api/auth/login/route.ts:119-149 | no 400 iff mobile and OTP are present and both formats are valid; the first failing check, in the order presence, mobile, OTP, gives its own 400 |
| LoginRoute.Complete | app/api/auth/login/route.ts:191-239 | unverified: 403 and no session; verified: the token for the payload, a 24-hour session under it, the sweep, and a session valid now |
| LoginRoute.Login | app/api/auth/login/route.ts:8-250 | each branch's outcome and store change; a mobile OTP is consumed before the user lookup, also when the user is missing or unverified; success leaves a live session for the returned token |
| LoginRoute.LoginTokenAuthenticates | app/api/auth/login/route.ts:204-237 | the token a login returns passes `authenticateRequest` at the same instant |
| LoginRoute.SameSecondLoginsShareToken | app/api/auth/login/route.ts:205-214 | two logins of the same user in the same second get the same token |
| RegisterRoute.RegisterRejection | app/api/auth/register/route.ts:12-86 | no 400 iff all seven checks pass; the first failing check, in the order voter ID, email, password, mobile, state, constituency, full name, gives the 400 with its own error; the two trimmed lengths are counted in UTF-16 units |
| RegisterRoute.StoredData | app/api/auth/register/route.ts:131-141 | the stored hash is the hash of the stored voter ID; the account starts unverified, not having voted, with the given password hash |
| RegisterRoute.StoredTextIsTidy | app/api/auth/register/route.ts:131-141 | the stored email has no upper-case letter; the stored state and constituency neither start nor end with whitespace |
| RegisterRoute.RegisterConflict | app/api/auth/register/route.ts:93-125 | no 409 iff the voter ID hash, the lower-cased email and the normalised mobile are all unused |
| RegisterRoute.Register | app/api/auth/register/route.ts:7-182 | a 400 or 409 changes nothing; otherwise 201 with the normalised unverified user stored, both indexes pointed at it, one 10-minute OTP of the drawn digits stored, and `otpSent` equal to the SMS result |
| RegisterRoute.StoredDataIsNormalised | app/api/auth/register/route.ts:89-141 | the stored voter ID matches `^[A-Z]{3}[0-9]{7}$` and the stored mobile is "+91" and ten digits |
| RegisterRoute.DuplicateVoterIdRefused | app/api/auth/register/route.ts:89-103 | after one registration, a second whose voter ID normalises to the same string gets 409 |
| SendOtpRoute.SendOtpRejection | app/api/auth/send-otp/route.ts:12-38 | no 400/404 iff the mobile is valid and, for type "login", a user has it; an invalid mobile gives the validator's 400, a login request for an unknown mobile 404 "No account found with this mobile number" |
| SendOtpRoute.SendOtpAsWritten | app/api/auth/send-otp/route.ts:41 | every request that passes the guards gets 500 |
| SendOtpRoute.SendOtpAsWrittenFailsValidRequest | app/api/auth/send-otp/route.ts:41 | a verification request for any bare ten-digit mobile starting with 6-9 (such as "9876543210") passes the guards and gets 500 |
| SendOtpRoute.SendOtp | app/api/auth/send-otp/route.ts:7-89 | 400/404 and 429 change nothing; otherwise a 10-minute OTP of the drawn digits is stored before the SMS, and stays stored when the SMS fails (500); success returns the canonical mobile and 600 seconds |
| VerifyOtpRoute.FormatRejection | app/api/auth/verify-otp/route.ts:10-31 | no 400 iff both the mobile and OTP formats are valid; an invalid mobile gives its error before the OTP is looked at |
| VerifyOtpRoute.VerifyOtp | app/api/auth/verify-otp/route.ts:5-90 | format errors change nothing; no usable OTP: 400 and one attempt counted; otherwise the OTP is consumed before the user lookup (404 if missing); type "verification" sets `isVerified` only when false |
| VerifyOtpRoute.GeneratedOtpPassesFormatCheck | lib/validation.ts:99-111 | every code `generateOTP(6)` produces passes `validateOTP` |
| VerifyOtpRoute.SpacedOtpNeverMatches | app/api/auth/verify-otp/route.ts:22-36 | a code with an inserted space passes the format check but matches no stored all-digit code |
| VerifyOtpRoute.StoredOtpAccepted | lib/database.ts:117-133 | a stored, unused, unexpired record under 3 attempts is found by its mobile and code |
| LanguageContext.ParseLanguage | contexts/language-context.tsx:803-806 | a stored string names a language only if it is that language's code |
| LanguageContext.ParseCode | contexts/language-context.tsx:809-812 | every language's code reads back as that language |
| LanguageContext.Translate | contexts/language-context.tsx:814-816 | the text is the current language's, the English, or the key |
| LanguageContext.TranslateFallback | contexts/language-context.tsx:815 | the current language's non-empty text wins; else the non-empty English text; else the key |
| LanguageContext.TranslateNonEmpty | contexts/language-context.tsx:815 | a non-empty key never shows as empty text |
| LanguageContext.UnknownKeyShownAsItself | contexts/language-context.tsx:815 | a key no dictionary has is shown as itself in every language |
| LanguageContext.LanguageProvider.constructor | contexts/language-context.tsx:798-799 | the provider starts in English |
| LanguageContext.LanguageProvider.LoadSavedLanguage | contexts/language-context.tsx:801-807 | a saved value is adopted only if it is a language code; otherwise the language is unchanged |
| LanguageContext.LanguageProvider.SetLanguage | contexts/language-context.tsx:809-812 | sets the language and saves its code under "preferred-language" |
| LanguageContext.LanguageProvider.T | contexts/language-context.tsx:814-816 | `t(key)` is `Translate` in the current language, and non-empty for a non-empty key |
| LanguageContext.ChoiceSurvivesReload | contexts/language-context.tsx:801-812 | a provider started on the storage `setLanguage` left behind loads the chosen language |

## Left out

- I/O: HTTP parsing, `NextResponse` plumbing and `async`/`await` are not modelled. Each route takes its parsed body as a datatype and returns a `Response` value.
- The `catch` blocks that answer 500 "Internal server error" are not modelled. The one reached on every well-formed path, in send-otp, is the finding below.
- Login's 401 "Authentication failed" is not modelled, because it is unreachable: each of the three branches either returns or sets the user.
- bcrypt, SHA-256, HMAC, base64url and JSON are opaque function values. `hashPassword` is not modelled; its salted result is a parameter of registration. `generateToken` is not modelled, because no route calls it.
- `randomUUID`, `randomInt`, the clock and the SMS gateway's answers are parameters. The welcome SMS is not modelled, because its result is never read.
- Crypto.GenerateOtp: the draws are given; that they are uniformly random is not modelled.
- Database.DatabaseService.UpdateUser: only the two flags a route ever updates (`is_verified`, `has_voted`) are modelled, not an arbitrary `Partial<User>`.
- Database.UnexpiredOtps and Database.UnexpiredSessions: their own contracts bound only the size; the exact membership is stated by `UnexpiredOtpsMembers` and `UnexpiredSessionsMembers`.
- Database.DatabaseService.MarkOtpAsUsed and Database.DatabaseService.IncrementOtpAttempts: the source mutates the record object in place, so an earlier reference to it also changes. The model replaces the table entry by value.
- Database.SweepOtps and Database.SweepSessions: each loop deletes from a table value and `CleanupExpiredRecords` stores the result once the loop ends. The source deletes from the stored `Map` itself, but nothing reads the store during the loop, so the end state is the same.
- Unicode: `\s` is modelled with JavaScript's full list of space characters, and the four `.length` checks (password and the two trimmed register fields) count UTF-16 code units through `Strings.Utf16Length`. Case mapping is ASCII only: the `toUpperCase`/`toLowerCase` of non-ASCII letters is not modelled.
- Validation.VoterIdAcceptance: JavaScript upper-cases 'ı' (U+0131) to 'I' and 'ſ' (U+017F) to 'S', and some characters to several letters: 'ß' to "SS", 'ﬀ' to "FF", 'ﬁ' to "FI". So the source also accepts voter IDs spelled with them: "Aß1234567" normalises to "ASS1234567" and passes. The ASCII-only model rejects all of these, and its `Strings.ToUpper` never changes the length.
- LoginRoute.LoginPayload: the source reads `Date.now()` twice, for `iat` and for `exp` (`app/api/auth/login/route.ts:210-211`), so the two can straddle a second boundary and differ by 86401; the model reads the clock once.
- Concurrency: the check-then-create in register and the attempt counters race between concurrent requests; the model runs one request at a time.
- LanguageContext.ParseLanguage and LanguageContext.Translate: inherited `Object.prototype` names such as "constructor" are truthy in `translations[saved]` and `translations[language][key]`, so the source would adopt such a saved language and show such a key as an inherited function; the model's dictionaries have only their own keys.
- LanguageContext.Translations: the dictionary contents (about 150 keys per language) are a parameter, not the literal strings.
- The React rendering of `LanguageProvider` is not modelled, nor is `useLanguage`'s "must be used within a LanguageProvider" error.

## Findings

| source | as written | input that shows it | evidently intended | confidence | as-written member | corrected member |
|---|---|---|---|---|---|---|
| app/api/auth/send-otp/route.ts:41 | `DatabaseService.getRecentOTPs` is only declared (lines 98-103), never defined, so the call throws and the route answers 500 after its guards | `{ mobile: "9876543210", type: "verification" }` | count the OTPs created for the mobile in the last two minutes, answer 429 if any, otherwise store a fresh 10-minute OTP and send it | high (not executed) | SendOtpRoute.SendOtpAsWritten | SendOtpRoute.SendOtp |

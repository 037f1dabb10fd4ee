# AutResdis session engine in Dafny

A model of the multi-device session engine of AutResdis, an ASP.NET Core service that logs a user in
with a JWT and keeps one session per (user, device) in Redis. The model covers:

- `RedisService`, the three-index session store. It keeps `session:{token}`,
  `user:{userId}:device:{deviceId}` and `user:{userId}:sessions`, each under its own TTL.
  It is modelled as a class over three maps (`redis_service.dfy`).
- `AuthService`: login, logout, session validation, logout of the other devices and the
  active-session listing (`auth_service.dfy`).
- The `UserSession` record and the login request and response (`models.dfy`).
- The request helpers of `AuthController` and its five actions with their result-to-status
  mapping (`controller.dfy`).
- The `truncateText` and `getDeviceIcon` helpers of the web page (`app_ui.dfy`).

Time is an integer count of seconds since `DateTime.MinValue`, so `default(DateTime)` is 0.
The clock is the parameter `now`. A Redis key is visible while `now` is before its TTL deadline.
A broken connection is the constant `connected = false`: every command throws, and each
operation takes its `catch` path.

Each store operation is a method of `RedisService`. It is proved against a pure function on the
database value `Db` (`AfterStore`, `AfterRemove`, `AfterRemoveAll`, `AfterUpdateExpiry`,
`Resolve`). The lemmas in `redis_properties.dfy` state what those functions do.

`LoginAsync` is specified by `LoginSpec`; the method `AuthService.Login` is proved equal to it.

Three operations are parameters of the service: the JWT issuer and validator, and SHA-256 with
Base64 (`hash`). The refresh token each login draws is also a parameter.

Logging out twice is not harmless: `RemoveUserSessionAsync` returns false for a token with no
session, and the controller answers `400 "Logout failed"` (see `Auth.LogoutTwice` and
`Controller.LogoutEndpoint`).

## Model

| member | source | states |
|---|---|---|
| Models.NewUserSession | AutResdis/AutResdis/Models/UserSession.cs:3-14 | the six strings default to "", IsActive to true, both timestamps to default(DateTime) |
| Models.NewSessionActiveButExpired | AutResdis/AutResdis/Models/UserSession.cs:11-13 | a fresh session is active yet not usable at any instant, since its ExpiryTime is the default |
| Models.WithExpiry | AutResdis/AutResdis/Models/UserSession.cs:5-13 | setting ExpiryTime changes that field and leaves every other one equal |
| Models.TimestampsIndependent | AutResdis/AutResdis/Models/UserSession.cs:11-12 | the record allows ExpiryTime before LoginTime and after it |
| Models.FailedLogin | AutResdis/AutResdis/Models/LoginResponse.cs:5-10 | a failed response carries its message and the initialiser defaults: empty tokens and user name, Success false |
| Seqs.Where | AutResdis/AutResdis/Services/AuthService.cs:190 | the filter keeps exactly the elements that pass and is never longer than its input |
| Seqs.WhereAppend | AutResdis/AutResdis/Services/AuthService.cs:190 | filtering preserves order: it distributes over concatenation |
| Seqs.WhereAll | AutResdis/AutResdis/Services/AuthService.cs:190 | a filter every element passes returns its input |
| Redis.TokensOf | AutResdis/AutResdis/Services/RedisService.cs:169-172 | the bulk logout removes one token per listed session, and a token is removed exactly when some listed session carries it |
| Redis.RedisService.StoreUserSession | AutResdis/AutResdis/Services/RedisService.cs:24-54 | returns true iff the connection works; the new state is AfterStore; the token-key invariant is kept |
| Redis.RedisService.GetUserSession | AutResdis/AutResdis/Services/RedisService.cs:56-76 | finds a session iff connected and the token key is present and before its TTL; the session is that key's value |
| Redis.RedisService.RemoveUserSession | AutResdis/AutResdis/Services/RedisService.cs:78-106 | returns true iff the token had a session; the new state is AfterRemove; an absent token changes nothing |
| Redis.RedisService.IsTokenValid | AutResdis/AutResdis/Services/RedisService.cs:108-112 | true iff the token's session exists, is active and its ExpiryTime lies after now |
| Redis.RedisService.IsUserLoggedInOnDevice | AutResdis/AutResdis/Services/RedisService.cs:114-134 | true iff the device key holds a session that is active and unexpired |
| Redis.RedisService.GetUserSessions | AutResdis/AutResdis/Services/RedisService.cs:136-160 | the result is the resolving sessions of the user's set, visited in some enumeration of its members |
| Redis.RedisService.InvalidateOtherSessions | AutResdis/AutResdis/Services/RedisService.cs:162-180 | reports true; the new state is the old one with every listed session of another device removed |
| Redis.RedisService.UpdateSessionExpiry | AutResdis/AutResdis/Services/RedisService.cs:182-200 | returns true iff the token had a session; the new state is AfterUpdateExpiry |
| RedisProperties.StoreThenGet | AutResdis/AutResdis/Services/RedisService.cs:29-44 | after a store the session is found by token and by device, and the set gains exactly its token |
| RedisProperties.StoreFrame | AutResdis/AutResdis/Services/RedisService.cs:37-44 | a store touches no other token, device key or user set |
| RedisProperties.StoreIdempotent | AutResdis/AutResdis/Services/RedisService.cs:37-44 | storing the same session twice equals storing it once; the set keeps one entry |
| RedisProperties.StoreUnreachable | AutResdis/AutResdis/Services/RedisService.cs:49-53 | without a connection a store writes nothing |
| RedisProperties.StoreKeepsTokensMatch | AutResdis/AutResdis/Services/RedisService.cs:29-37 | a store keeps session:{t} holding a session whose Token is t |
| RedisProperties.GetIgnoresExpiryTime | AutResdis/AutResdis/Services/RedisService.cs:61-69 | a get finds a session exactly when the key is present and alive, whatever the session's ExpiryTime |
| RedisProperties.StoredDeviceLoggedIn | AutResdis/AutResdis/Services/RedisService.cs:114-128 | after storing a usable session the device check holds until the TTL or the ExpiryTime passes |
| RedisProperties.RemoveFrame | AutResdis/AutResdis/Services/RedisService.cs:86-96 | removing a present token deletes its token key, its session's device key and its set entry, and nothing else |
| RedisProperties.RemoveAbsent | AutResdis/AutResdis/Services/RedisService.cs:84-86 | removing a token with no session changes nothing |
| RedisProperties.RemoveDropsNewerDeviceEntry | AutResdis/AutResdis/Services/RedisService.cs:88-92 | when the device key holds a newer session, removing the old token deletes that newer entry too |
| RedisProperties.RemoveDropsNewerDeviceEntryScenario | AutResdis/AutResdis/Services/RedisService.cs:88-92 | a concrete pair of logins on one device after which a remove hides the usable new session from the device check |
| RedisProperties.RemoveKeepsTokensMatch | AutResdis/AutResdis/Services/RedisService.cs:91-93 | a remove keeps the token-key invariant |
| RedisProperties.ResolveMembership | AutResdis/AutResdis/Services/RedisService.cs:144-152 | the listing holds exactly the sessions of the visited tokens that resolve |
| RedisProperties.ResolveLength | AutResdis/AutResdis/Services/RedisService.cs:144-152 | the listing is exactly as long as the visited tokens that resolve, so it has one entry per resolving token and none for the others |
| RedisProperties.ListingMembership | AutResdis/AutResdis/Services/RedisService.cs:142-152 | GetUserSessions returns exactly the sessions of the user's tokens whose key resolves |
| RedisProperties.ListedResolve | AutResdis/AutResdis/Services/RedisService.cs:142-152 | each listed session sits under its own token, which is in the user's set |
| RedisProperties.StaleMemberSkipped | AutResdis/AutResdis/Services/RedisService.cs:43-44 | a set member whose token key has expired is silently skipped by the listing |
| RedisProperties.RemoveAllEffects | AutResdis/AutResdis/Services/RedisService.cs:169-172 | repeated removal never makes a session appear, and every removed token stops resolving |
| RedisProperties.RemoveAllKeeps | AutResdis/AutResdis/Services/RedisService.cs:169-172 | removing sessions of other devices leaves the device keys of `d` and all other tokens unchanged |
| RedisProperties.InvalidateRemovesOtherDevices | AutResdis/AutResdis/Services/RedisService.cs:166-172 | after the bulk logout no listed session on another device resolves |
| RedisProperties.InvalidateKeepsCurrentDevice | AutResdis/AutResdis/Services/RedisService.cs:166-172 | listed sessions on the current device and its device keys survive the bulk logout |
| RedisProperties.OnlyCurrentDeviceListedAfter | AutResdis/AutResdis/Services/RedisService.cs:162-180 | a listing taken after the bulk logout holds exactly the earlier listing's sessions on the current device |
| RedisProperties.UpdateExpiryCopies | AutResdis/AutResdis/Services/RedisService.cs:186-194 | a found session is re-stored with the new ExpiryTime only, so the token and device copies both carry it |
| RedisProperties.UpdateExpiryAbsent | AutResdis/AutResdis/Services/RedisService.cs:196-198 | an absent token changes nothing |
| Auth.FirstActiveUser | AutResdis/AutResdis/Services/AuthService.cs:33-34 | the index found is the first active row with that user name; None iff there is no such row |
| Auth.FirstActiveUserStable | AutResdis/AutResdis/Services/AuthService.cs:33-89 | updating LastLoginAt (or any row in a way that keeps its match) does not change which row is found |
| Auth.DeviceIdResolution | AutResdis/AutResdis/Services/AuthService.cs:207-213 | an explicit DeviceId wins; otherwise the id depends on UserAgent + IpAddress alone |
| Auth.CredentialFailuresIdentical | AutResdis/AutResdis/Services/AuthService.cs:33-43 | both credential failures give the same "Invalid username or password" response and change nothing; no other path gives it |
| Auth.AlreadyLoggedInRejected | AutResdis/AutResdis/Services/AuthService.cs:47-56 | a login on an occupied device is refused, issues no token, writes nothing |
| Auth.LoginPersistsSession | AutResdis/AutResdis/Services/AuthService.cs:59-78 | the persisted session has the user's id and name, the token, the device, ""-defaulted agent and address, LoginTime now, ExpiryTime now + 60 min, IsActive |
| Auth.StoreFailureResponse | AutResdis/AutResdis/Services/AuthService.cs:78-86 | a failed store answers "Failed to create session" with empty tokens and changes nothing |
| Auth.SuccessResponse | AutResdis/AutResdis/Services/AuthService.cs:94-102 | success iff credentials pass, the device is free and the store works; the answer carries the token, refresh token, ExpiryTime and user name |
| Auth.SecondLoginSameDeviceRejected | AutResdis/AutResdis/Services/AuthService.cs:45-56 | the same login repeated while the first session lives is refused as already logged in |
| Auth.SessionValidIff | AutResdis/AutResdis/Services/AuthService.cs:138-158 | validation holds iff the JWT is valid, the session exists, is active, is unexpired, and the device is empty or matches |
| Auth.ValidationFailures | AutResdis/AutResdis/Services/AuthService.cs:138-158 | a logged-out, an expired or a different-device token does not validate |
| Auth.LogoutTwice | AutResdis/AutResdis/Services/AuthService.cs:115-131 | after a logout the token has no session, and a second logout changes nothing |
| Auth.ActiveOnlyFilters | AutResdis/AutResdis/Services/AuthService.cs:189-190 | the active-session filter keeps exactly the usable sessions, in listing order |
| Auth.AuthService.Login | AutResdis/AutResdis/Services/AuthService.cs:28-103 | the response, the store and the users table are those LoginSpec gives for the old state |
| Auth.AuthService.Logout | AutResdis/AutResdis/Services/AuthService.cs:115-131 | returns the store's answer, true iff the token had a session; the store becomes AfterRemove |
| Auth.AuthService.ValidateSession | AutResdis/AutResdis/Services/AuthService.cs:133-165 | the answer is SessionValid; a JWT the validator rejects gives false |
| Auth.AuthService.ForceLogoutOtherDevices | AutResdis/AutResdis/Services/AuthService.cs:167-183 | returns the store's true; the store loses every listed session on another device |
| Auth.AuthService.GetUserActiveSessions | AutResdis/AutResdis/Services/AuthService.cs:185-197 | the result is the store's listing filtered to usable sessions |
| Controller.GetTokenFromHeader | AutResdis/AutResdis/Controllers/AuthController.cs:165-173 | a token iff the header starts with the case-sensitive "Bearer ", and then the header is "Bearer " + token |
| Controller.BearerRoundTrip | AutResdis/AutResdis/Controllers/AuthController.cs:167-171 | "Bearer " + t yields exactly t |
| Controller.BearerEdgeCases | AutResdis/AutResdis/Controllers/AuthController.cs:168-172 | lower-case "bearer ", a bare "Bearer" and the empty header give no token |
| Controller.TrimStart | AutResdis/AutResdis/Controllers/AuthController.cs:194 | the result is a suffix, all that was cut is white space, and it starts with no white space |
| Controller.TrimEnd | AutResdis/AutResdis/Controllers/AuthController.cs:194 | the result is a prefix, all that was cut is white space, and it ends with no white space |
| Controller.Trim | AutResdis/AutResdis/Controllers/AuthController.cs:194 | the trimmed text neither starts nor ends with white space |
| Controller.TrimPadding | AutResdis/AutResdis/Controllers/AuthController.cs:194 | trimming white space around a word gives back the word |
| Controller.TrimCutsOnlyPadding | AutResdis/AutResdis/Controllers/AuthController.cs:194 | the text is its trimmed form with white space, and only white space, cut from either side |
| Controller.TrimBlank | AutResdis/AutResdis/Controllers/AuthController.cs:194 | white space alone trims to the empty string |
| Controller.BeforeFirstComma | AutResdis/AutResdis/Controllers/AuthController.cs:194 | the result is the longest comma-free prefix |
| Controller.FirstOfList | AutResdis/AutResdis/Controllers/AuthController.cs:194 | the first field of "a,b" is a |
| Controller.GetClientIpAddress | AutResdis/AutResdis/Controllers/AuthController.cs:189-199 | with a non-empty X-Forwarded-For the result is the first comma-separated element minus white space on either side, with no comma and no white space at its ends; otherwise it is the remote address or "Unknown" |
| Controller.ClientIpIsFirstHop | AutResdis/AutResdis/Controllers/AuthController.cs:191-195 | for every header whose first hop is a padded address, with or without later hops, the client address is that address |
| Controller.ClientIpExamples | AutResdis/AutResdis/Controllers/AuthController.cs:192-198 | an absent or empty header falls back to the remote address, then "Unknown" |
| Controller.ClientIpBehindProxy | AutResdis/AutResdis/Controllers/AuthController.cs:191-195 | " 203.0.113.7 , 10.0.0.1" yields "203.0.113.7" |
| Controller.CompleteRequest | AutResdis/AutResdis/Controllers/AuthController.cs:28-29 | the login request keeps its body and gets the User-Agent header and the client address |
| Controller.DeviceIdMatchesLogin | AutResdis/AutResdis/Controllers/AuthController.cs:175-187 | the derived device id ignores the token and equals the id a login from the same agent and address resolved |
| Controller.LoginResult | AutResdis/AutResdis/Controllers/AuthController.cs:33-38 | 200 iff the response succeeded, 400 otherwise, never 401, with the response as the body |
| Controller.LogoutEndpoint | AutResdis/AutResdis/Controllers/AuthController.cs:57-69 | 200 iff the header carries a non-empty token that has a session; repeating the request gives "Logout failed" |
| Controller.ValidateFromLoginDevice | AutResdis/AutResdis/Controllers/AuthController.cs:120-131 | from the login's own agent and address, with a valid JWT and a usable session, the answer is "Session is valid" |
| Controller.ValidateRejectsOtherDevice | AutResdis/AutResdis/Controllers/AuthController.cs:120-134 | a session whose DeviceId differs from the derived one always gets 401 |
| Controller.ValidateStatus | AutResdis/AutResdis/Controllers/AuthController.cs:120-134 | 400 iff the token is missing; 200 only for a JWT-valid, usable session |
| Controller.LogoutOthersStatus | AutResdis/AutResdis/Controllers/AuthController.cs:84-105 | 200 iff claim, token and device id are all present; a missing claim or token gives "Invalid request" |
| Controller.AuthController.Login | AutResdis/AutResdis/Controllers/AuthController.cs:22-49 | the result, the store and the users table follow LoginSpec on the completed request |
| Controller.AuthController.Logout | AutResdis/AutResdis/Controllers/AuthController.cs:51-76 | the result is LogoutResult on the old store; the token, when present, is removed |
| Controller.AuthController.LogoutOtherDevices | AutResdis/AutResdis/Controllers/AuthController.cs:78-112 | the result is LogoutOthersResult; the store changes only if the checks pass, and then loses the other devices' listed sessions |
| Controller.AuthController.ValidateSession | AutResdis/AutResdis/Controllers/AuthController.cs:114-141 | the result is ValidateResult on the current store |
| Controller.AuthController.GetActiveSessions | AutResdis/AutResdis/Controllers/AuthController.cs:143-163 | "User ID not found" without the claim; otherwise 200 with the usable sessions of a listing |
| AppUi.TruncateText | AutResdis/AutResdis/wwwroot/js/app.js:39-42 | within the limit the text is unchanged; beyond it the result is the first max(m, 0) characters and "...", of length max(m, 0) + 3 |
| AppUi.TruncateBoundedIdempotent | AutResdis/AutResdis/wwwroot/js/app.js:39-42 | the result starts with as much of the text as fits, is bounded, and truncating again changes nothing |
| AppUi.DefaultLimit | AutResdis/AutResdis/wwwroot/js/app.js:39 | with the default limit a longer text becomes its first 50 characters and "..." |
| AppUi.IncludesIff | AutResdis/AutResdis/wwwroot/js/app.js:45-47 | the recursive search holds iff the word occurs at some position |
| AppUi.GetDeviceIcon | AutResdis/AutResdis/wwwroot/js/app.js:44-49 | phone iff "Mobile" or "Tablet" occur; laptop iff neither does but "Windows" or "Mac" does; desktop otherwise |
| AppUi.IncludesExtend | AutResdis/AutResdis/wwwroot/js/app.js:45-47 | an occurrence survives surrounding the text with more text |
| AppUi.PhoneStaysPhone | AutResdis/AutResdis/wwwroot/js/app.js:45-46 | however a phone's user agent is extended, it remains a phone |
| AppUi.WindowsPhoneIsPhone | AutResdis/AutResdis/wwwroot/js/app.js:45-47 | "Mobile" is tested before "Windows" |

## Left out

- Program.cs, UserController.cs, DbInitializer.cs and MockRedisService.cs are not part of this model: they contain wiring, persistence and commented-out code.
- Models/User.cs is not part of this model. `Models.User` carries only the columns the login reads or writes.
- Redis keys are structured values, so collisions between formatted key strings and the instance-name prefix are not modelled.
- JSON serialisation is taken as the identity.
- A command that fails partway through an operation is left out. The model has only two cases: every command works, or the connection is down and every command throws. Partial writes are therefore not modelled.
- async/await and concurrency are left out. The model runs one request at a time, so the race between the device check and the store write in `LoginAsync` is not captured.
- Entity Framework and SQL Server are left out. The user lookup compares names exactly, as a first match over a sequence, which leaves out the database's collation (which may be case-insensitive). A failing `SaveChangesAsync` and its "An error occurred during login" path are not modelled.
- The 500 "Internal server error" paths of the controller are left out. They need an exception, which the model has no source for. The same goes for "Failed to logout other devices": the bulk logout catches every failure and reports success.
- The model validation of `[ApiController]` is left out. With `[Required]` on Username and Password, the framework answers 400 before the action runs when either is missing, empty or white space only. The actions are modelled as if that validation passed, so `Controller.AuthController.Login` runs `LoginSpec` on any request body.
- The `[Authorize]` middleware that checks the JWT before the actions run is left out. The actions are modelled as if the middleware let the request through.
- The NameIdentifier claim is taken as given; claim parsing is left out.
- Every `_logger` call is left out.
- JWT issue and validation, SHA-256 with Base64, and the random refresh token are parameters.
- Auth.AuthService.Login: reads the clock once. The source calls `DateTime.UtcNow` separately for ExpiryTime, LoginTime and LastLoginAt.
- Redis.RedisService.constructor: requires a positive DefaultExpiryMinutes. With zero or a negative value Redis would reject the TTL, and the model does not capture that.
- Controller.GetTokenFromHeader: compares the prefix ordinally. .NET's `StartsWith(string)` is culture-sensitive, so the result can differ for unusual characters. A header sent several times, which ASP.NET joins with commas, is not modelled.
- AppUi.TruncateText: counts Unicode scalar values. JavaScript lengths count UTF-16 code units, so the two differ for text outside the Basic Multilingual Plane. A limit that is not an integer is not modelled.
- In app.js, the DOM, fetch calls, localStorage, timers and `formatDate` are left out because they are user-interface and network code.

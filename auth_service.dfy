/** Services/AuthService.cs: login, logout, session validation, the bulk logout of the
    other devices and the active-session listing, on top of the session store.
    The JWT service, the SHA-256/Base64 hash and the clock are parameters. */
module Auth {
  import opened Wrappers
  import opened Seqs
  import opened Models
  import opened Redis

  const InvalidCredentials: string := "Invalid username or password"
  const AlreadyLoggedIn: string := "User is already logged in on this device"
  const SessionCreationFailed: string := "Failed to create session"
  const LoginSucceeded: string := "Login successful"

  /** `DateTime.UtcNow.AddMinutes(60)` */
  const SessionMinutes: int := 60

  // ---- the account lookup ----

  predicate MatchesLogin(u: User, username: string) {
    u.username == username && u.isActive
  }

  /** `_context.Users.FirstOrDefaultAsync(u => u.Username == request.Username && u.IsActive)`,
      as the index of that row. */
  function FirstActiveUser(users: seq<User>, username: string): (r: Option<nat>)
    ensures r.Some? ==> r.value < |users| && MatchesLogin(users[r.value], username)
    ensures r.Some? ==> forall j :: 0 <= j < r.value ==> !MatchesLogin(users[j], username)
    ensures r.None? ==> forall j :: 0 <= j < |users| ==> !MatchesLogin(users[j], username)
  {
    FirstActiveFrom(users, username, 0)
  }

  function FirstActiveFrom(users: seq<User>, username: string, from: nat): (r: Option<nat>)
    requires from <= |users|
    ensures r.Some? ==> from <= r.value < |users| && MatchesLogin(users[r.value], username)
    ensures r.Some? ==> forall j :: from <= j < r.value ==> !MatchesLogin(users[j], username)
    ensures r.None? ==> forall j :: from <= j < |users| ==> !MatchesLogin(users[j], username)
    decreases |users| - from
  {
    if from == |users| then None
    else if MatchesLogin(users[from], username) then Some(from)
    else FirstActiveFrom(users, username, from + 1)
  }

  /** Replacing a row by one that matches the login in the same way does not change which
      row the lookup finds. */
  lemma FirstActiveUserStable(users: seq<User>, username: string, i: nat, u: User)
    requires i < |users| && MatchesLogin(users[i], username) == MatchesLogin(u, username)
    ensures FirstActiveUser(users[i := u], username) == FirstActiveUser(users, username)
  {
    FirstActiveFromStable(users, username, i, u, 0);
  }

  lemma {:induction false} FirstActiveFromStable(users: seq<User>, username: string, i: nat, u: User, from: nat)
    requires i < |users| && MatchesLogin(users[i], username) == MatchesLogin(u, username)
    requires from <= |users|
    ensures FirstActiveFrom(users[i := u], username, from) == FirstActiveFrom(users, username, from)
    decreases |users| - from
  {
    if from < |users| {
      assert MatchesLogin(users[i := u][from], username) == MatchesLogin(users[from], username);
      FirstActiveFromStable(users, username, i, u, from + 1);
    }
  }

  /** VerifyPassword: Base64(SHA-256(password)) compared with the stored hash. */
  predicate VerifyPassword(hash: string -> string, password: string, passwordHash: string) {
    hash(password) == passwordHash
  }

  // ---- the device identifier ----

  /** `$"{request.UserAgent ?? ""}{request.IpAddress ?? ""}"` */
  function DeviceInfo(request: LoginRequest): string {
    request.userAgent.GetOr("") + request.ipAddress.GetOr("")
  }

  function GenerateDeviceId(hash: string -> string, request: LoginRequest): string {
    hash(DeviceInfo(request))
  }

  /** `request.DeviceId ?? GenerateDeviceId(request)` */
  function ResolveDeviceId(hash: string -> string, request: LoginRequest): string {
    request.deviceId.GetOr(GenerateDeviceId(hash, request))
  }

  /** An explicit DeviceId wins, even the empty one; otherwise the identifier depends on the
      concatenation of user agent and address alone. */
  lemma DeviceIdResolution(hash: string -> string, r1: LoginRequest, r2: LoginRequest)
    ensures r1.deviceId.Some? ==> ResolveDeviceId(hash, r1) == r1.deviceId.value
    ensures r1.deviceId.None? && r2.deviceId.None? && DeviceInfo(r1) == DeviceInfo(r2) ==>
      ResolveDeviceId(hash, r1) == ResolveDeviceId(hash, r2)
  {
  }

  // ---- user.Id.ToString() ----

  function DigitChar(d: nat): char
    requires d < 10
  {
    "0123456789"[d]
  }

  function NatString(n: nat): (r: string)
    ensures |r| > 0
    decreases n
  {
    if n < 10 then [DigitChar(n)] else NatString(n / 10) + [DigitChar(n % 10)]
  }

  function IdString(id: int): string {
    if id < 0 then "-" + NatString(-id) else NatString(id)
  }

  // ---- login ----

  /** The session LoginAsync builds for a verified user. */
  function LoginSession(user: User, token: string, deviceId: string, request: LoginRequest, now: Instant): UserSession {
    UserSession(IdString(user.id), user.username, token, deviceId,
                request.userAgent.GetOr(""), request.ipAddress.GetOr(""),
                now, now + SessionMinutes * SecondsPerMinute, true)
  }

  function SucceededLogin(session: UserSession, refreshToken: string): LoginResponse {
    LoginResponse(session.token, refreshToken, session.expiryTime, session.username, LoginSucceeded, true)
  }

  datatype LoginOutcome = LoginOutcome(response: LoginResponse, db: Db, users: seq<User>)

  /** What LoginAsync answers and what it leaves in the store and the Users table. */
  function LoginSpec(users: seq<User>, db: Db, ttl: int, generateToken: (User, Instant) -> string,
                     hash: string -> string, request: LoginRequest, now: Instant, refreshToken: string): LoginOutcome
  {
    match FirstActiveUser(users, request.username)
    case None => LoginOutcome(FailedLogin(InvalidCredentials), db, users)
    case Some(i) =>
      var user := users[i];
      if !VerifyPassword(hash, request.password, user.passwordHash) then
        LoginOutcome(FailedLogin(InvalidCredentials), db, users)
      else
        var deviceId := ResolveDeviceId(hash, request);
        if LoggedInOnDevice(db, IdString(user.id), deviceId, now) then
          LoginOutcome(FailedLogin(AlreadyLoggedIn), db, users)
        else
          var session := LoginSession(user, generateToken(user, now), deviceId, request, now);
          if !db.up then LoginOutcome(FailedLogin(SessionCreationFailed), db, users)
          else LoginOutcome(SucceededLogin(session, refreshToken), AfterStore(db, session, now, ttl),
                            users[i := user.(lastLoginAt := Some(now))])
  }

  /** The credentials pass: an active user of that name exists and the password matches. */
  predicate CredentialsOk(users: seq<User>, hash: string -> string, request: LoginRequest) {
    var i := FirstActiveUser(users, request.username);
    i.Some? && VerifyPassword(hash, request.password, users[i.value].passwordHash)
  }

  /** The user a passing login is for. */
  function LoginUser(users: seq<User>, request: LoginRequest): User
    requires FirstActiveUser(users, request.username).Some?
  {
    users[FirstActiveUser(users, request.username).value]
  }

  /** A missing or inactive user and a wrong password give one and the same answer, and
      leave everything unchanged; no other path gives that answer. */
  lemma CredentialFailuresIdentical(users: seq<User>, db: Db, ttl: int, generateToken: (User, Instant) -> string,
                                    hash: string -> string, request: LoginRequest, now: Instant, refreshToken: string)
    ensures !CredentialsOk(users, hash, request) <==>
      LoginSpec(users, db, ttl, generateToken, hash, request, now, refreshToken).response.message == InvalidCredentials
    ensures !CredentialsOk(users, hash, request) ==>
      LoginSpec(users, db, ttl, generateToken, hash, request, now, refreshToken)
      == LoginOutcome(FailedLogin(InvalidCredentials), db, users)
  {
  }

  /** Already logged in on the resolved device: rejected, no token handed out, nothing written. */
  lemma AlreadyLoggedInRejected(users: seq<User>, db: Db, ttl: int, generateToken: (User, Instant) -> string,
                                hash: string -> string, request: LoginRequest, now: Instant, refreshToken: string)
    requires CredentialsOk(users, hash, request)
    requires LoggedInOnDevice(db, IdString(LoginUser(users, request).id), ResolveDeviceId(hash, request), now)
    ensures LoginSpec(users, db, ttl, generateToken, hash, request, now, refreshToken)
      == LoginOutcome(FailedLogin(AlreadyLoggedIn), db, users)
    ensures LoginSpec(users, db, ttl, generateToken, hash, request, now, refreshToken).response.token == ""
  {
  }

  /** A login that reaches the store persists exactly the one session built from the
      user, the issued token and the request, valid for 60 minutes from now. */
  lemma LoginPersistsSession(users: seq<User>, db: Db, ttl: int, generateToken: (User, Instant) -> string,
                             hash: string -> string, request: LoginRequest, now: Instant, refreshToken: string)
    requires ttl > 0 && db.up && CredentialsOk(users, hash, request)
    requires !LoggedInOnDevice(db, IdString(LoginUser(users, request).id), ResolveDeviceId(hash, request), now)
    ensures
      var user := LoginUser(users, request);
      var s := LoginSession(user, generateToken(user, now), ResolveDeviceId(hash, request), request, now);
      var out := LoginSpec(users, db, ttl, generateToken, hash, request, now, refreshToken);
      && out.db == AfterStore(db, s, now, ttl)
      && SessionAt(out.db, s.token, now) == Some(s)
      && DeviceSessionAt(out.db, s.userId, s.deviceId, now) == Some(s)
      && s.token in MembersAt(out.db, s.userId, now)
      && s.userId == IdString(user.id) && s.username == user.username
      && s.userAgent == request.userAgent.GetOr("") && s.ipAddress == request.ipAddress.GetOr("")
      && s.loginTime == now && s.expiryTime == now + 60 * SecondsPerMinute && s.isActive
  {
  }

  /** A store that fails yields "Failed to create session" with empty tokens: the issued
      token is never handed out. */
  lemma StoreFailureResponse(users: seq<User>, db: Db, ttl: int, generateToken: (User, Instant) -> string,
                             hash: string -> string, request: LoginRequest, now: Instant, refreshToken: string)
    requires !db.up && CredentialsOk(users, hash, request)
    ensures LoginSpec(users, db, ttl, generateToken, hash, request, now, refreshToken)
      == LoginOutcome(FailedLogin(SessionCreationFailed), db, users)
  {
  }

  /** A login succeeds exactly when the credentials pass, the device is free and the store
      is reachable; its answer carries the stored token, the refresh token, the session's
      ExpiryTime and the user name. */
  lemma SuccessResponse(users: seq<User>, db: Db, ttl: int, generateToken: (User, Instant) -> string,
                        hash: string -> string, request: LoginRequest, now: Instant, refreshToken: string)
    ensures
      var out := LoginSpec(users, db, ttl, generateToken, hash, request, now, refreshToken);
      out.response.success <==>
        (CredentialsOk(users, hash, request) && db.up
         && !LoggedInOnDevice(db, IdString(LoginUser(users, request).id), ResolveDeviceId(hash, request), now))
    ensures
      var out := LoginSpec(users, db, ttl, generateToken, hash, request, now, refreshToken);
      out.response.success ==>
        var user := LoginUser(users, request);
        && out.response.token == generateToken(user, now)
        && SessionAt(out.db, out.response.token, now).Some? == (ttl > 0)
        && out.response.refreshToken == refreshToken
        && out.response.expiresAt == now + 60 * SecondsPerMinute
        && out.response.username == user.username
        && out.response.message == LoginSucceeded
  {
  }

  /** A second login with the same request while the first session is alive is refused
      with "already logged in", whichever token the issuer would give. */
  lemma SecondLoginSameDeviceRejected(users: seq<User>, db: Db, ttl: int, generateToken: (User, Instant) -> string,
                                      hash: string -> string, request: LoginRequest, now: Instant, refreshToken: string,
                                      later: Instant, refreshToken2: string)
    requires LoginSpec(users, db, ttl, generateToken, hash, request, now, refreshToken).response.success
    requires now <= later < now + ttl && later < now + SessionMinutes * SecondsPerMinute
    ensures
      var first := LoginSpec(users, db, ttl, generateToken, hash, request, now, refreshToken);
      LoginSpec(first.users, first.db, ttl, generateToken, hash, request, later, refreshToken2)
      == LoginOutcome(FailedLogin(AlreadyLoggedIn), first.db, first.users)
  {
    var first := LoginSpec(users, db, ttl, generateToken, hash, request, now, refreshToken);
    var i := FirstActiveUser(users, request.username).value;
    var user := users[i];
    FirstActiveUserStable(users, request.username, i, user.(lastLoginAt := Some(now)));
    var s := LoginSession(user, generateToken(user, now), ResolveDeviceId(hash, request), request, now);
    assert first.db == AfterStore(db, s, now, ttl);
    assert first.users[i] == user.(lastLoginAt := Some(now));
    assert LoggedInOnDevice(first.db, s.userId, s.deviceId, later);
  }

  // ---- validation and listing ----

  /** ValidateSessionAsync as one expression: the JWT check, then the lookup, the flag
      and the expiry, then the device when one is given. */
  function SessionValid(db: Db, jwtValid: bool, token: string, deviceId: Option<string>, now: Instant): bool {
    jwtValid
    && match SessionAt(db, token, now)
       case None => false
       case Some(s) => Usable(s, now) && (deviceId.None? || deviceId.value == "" || s.deviceId == deviceId.value)
  }

  /** A validation succeeds exactly when all four checks pass. */
  lemma SessionValidIff(db: Db, jwtValid: bool, token: string, deviceId: Option<string>, now: Instant)
    ensures SessionValid(db, jwtValid, token, deviceId, now) <==>
      jwtValid && SessionAt(db, token, now).Some? && SessionAt(db, token, now).value.isActive
      && SessionAt(db, token, now).value.expiryTime > now
      && (deviceId.None? || deviceId.value == "" || SessionAt(db, token, now).value.deviceId == deviceId.value)
  {
  }

  /** A token stops validating once it has been logged out, once its ExpiryTime has
      passed, and whenever the device given is not the session's. */
  lemma ValidationFailures(db: Db, jwtValid: bool, token: string, deviceId: string, now: Instant, later: Instant)
    ensures !SessionValid(AfterRemove(db, token, now), jwtValid, token, Some(deviceId), now)
    ensures (SessionAt(db, token, now).Some? && SessionAt(db, token, later).Some?
             && SessionAt(db, token, now).value.expiryTime <= later)
      ==> !SessionValid(db, jwtValid, token, None, later)
    ensures SessionAt(db, token, now).Some? && deviceId != "" && SessionAt(db, token, now).value.deviceId != deviceId
      ==> !SessionValid(db, jwtValid, token, Some(deviceId), now)
  {
    match SessionAt(db, token, now)
    case None =>
      assert AfterRemove(db, token, now) == db;
    case Some(s) =>
      assert SessionAt(AfterRemove(db, token, now), token, now).None?;
  }

  /** Logging out twice: the second call finds nothing and reports false. */
  lemma LogoutTwice(db: Db, token: string, now: Instant)
    ensures SessionAt(AfterRemove(db, token, now), token, now).None?
    ensures AfterRemove(AfterRemove(db, token, now), token, now) == AfterRemove(db, token, now)
  {
    match SessionAt(db, token, now)
    case None =>
    case Some(s) =>
      assert SessionAt(AfterRemove(db, token, now), token, now).None?;
  }

  /** `sessions.Where(s => s.IsActive && s.ExpiryTime > DateTime.UtcNow)` */
  function ActiveOnly(sessions: seq<UserSession>, now: Instant): seq<UserSession> {
    Where(sessions, (s: UserSession) => Usable(s, now))
  }

  /** The filter keeps exactly the usable sessions, in their listing order. */
  lemma ActiveOnlyFilters(sessions: seq<UserSession>, more: seq<UserSession>, now: Instant)
    ensures forall s :: s in ActiveOnly(sessions, now) <==> s in sessions && Usable(s, now)
    ensures ActiveOnly(sessions + more, now) == ActiveOnly(sessions, now) + ActiveOnly(more, now)
    ensures (forall i :: 0 <= i < |sessions| ==> Usable(sessions[i], now)) ==> ActiveOnly(sessions, now) == sessions
  {
    WhereAppend(sessions, more, (s: UserSession) => Usable(s, now));
    if forall i :: 0 <= i < |sessions| ==> Usable(sessions[i], now) {
      WhereAll(sessions, (s: UserSession) => Usable(s, now));
    }
  }

  class AuthService {
    const redis: RedisService
    /** The Users table. */
    var users: seq<User>
    /** IJwtService.GenerateToken and ValidateToken; both read the clock. */
    const generateToken: (User, Instant) -> string
    const validateToken: (string, Instant) -> bool
    /** Base64(SHA-256(UTF-8 bytes)) */
    const hash: string -> string

    ghost predicate Valid()
      reads this, redis
    {
      redis.Valid()
    }

    constructor (redis: RedisService, users: seq<User>, generateToken: (User, Instant) -> string,
                 validateToken: (string, Instant) -> bool, hash: string -> string)
      requires redis.Valid()
      ensures Valid()
      ensures this.redis == redis && this.users == users
      ensures this.generateToken == generateToken && this.validateToken == validateToken && this.hash == hash
    {
      this.redis := redis;
      this.users := users;
      this.generateToken := generateToken;
      this.validateToken := validateToken;
      this.hash := hash;
    }

    /** `refreshToken` is what GenerateRefreshToken returns on this call. */
    method Login(request: LoginRequest, now: Instant, refreshToken: string) returns (response: LoginResponse)
      requires Valid()
      modifies this, redis
      ensures Valid()
      ensures LoginOutcome(response, redis.State(), users)
        == LoginSpec(old(users), old(redis.State()), redis.Ttl(), generateToken, hash, request, now, refreshToken)
    {
      var found := FirstActiveUser(users, request.username);
      if found.None? || !VerifyPassword(hash, request.password, users[found.value].passwordHash) {
        return FailedLogin(InvalidCredentials);
      }
      var index := found.value;
      var user := users[index];
      var deviceId := ResolveDeviceId(hash, request);
      var isAlreadyLoggedIn := redis.IsUserLoggedInOnDevice(IdString(user.id), deviceId, now);
      if isAlreadyLoggedIn {
        return FailedLogin(AlreadyLoggedIn);
      }
      var token := generateToken(user, now);
      var userSession := LoginSession(user, token, deviceId, request, now);
      var sessionStored := redis.StoreUserSession(userSession, now);
      if !sessionStored {
        return FailedLogin(SessionCreationFailed);
      }
      users := users[index := user.(lastLoginAt := Some(now))];
      response := SucceededLogin(userSession, refreshToken);
    }

    method Logout(token: string, now: Instant) returns (ok: bool)
      requires Valid()
      modifies redis
      ensures Valid()
      ensures ok == SessionAt(old(redis.State()), token, now).Some?
      ensures redis.State() == AfterRemove(old(redis.State()), token, now)
    {
      ok := redis.RemoveUserSession(token, now);
    }

    /** The JWT is checked first; the store is consulted only when it passes. */
    method ValidateSession(token: string, deviceId: Option<string>, now: Instant) returns (valid: bool)
      ensures valid == SessionValid(redis.State(), validateToken(token, now), token, deviceId, now)
      ensures !validateToken(token, now) ==> !valid
    {
      if !validateToken(token, now) {
        return false;
      }
      var session := redis.GetUserSession(token, now);
      if session.None? || !session.value.isActive || session.value.expiryTime <= now {
        return false;
      }
      if !(deviceId.None? || deviceId.value == "") && session.value.deviceId != deviceId.value {
        return false;
      }
      valid := true;
    }

    method ForceLogoutOtherDevices(userId: string, currentDeviceId: string, now: Instant)
      returns (ok: bool, ghost listed: seq<UserSession>)
      requires Valid()
      modifies redis
      ensures Valid()
      ensures ok
      ensures IsListing(old(redis.State()), userId, now, listed)
      ensures redis.State() == AfterRemoveAll(old(redis.State()), TokensOf(OnOtherDevices(listed, currentDeviceId)), now)
    {
      ok, listed := redis.InvalidateOtherSessions(userId, currentDeviceId, now);
    }

    method GetUserActiveSessions(userId: string, now: Instant)
      returns (sessions: seq<UserSession>, ghost listed: seq<UserSession>)
      ensures IsListing(redis.State(), userId, now, listed)
      ensures sessions == ActiveOnly(listed, now)
    {
      var all, order := redis.GetUserSessions(userId, now);
      listed := all;
      sessions := ActiveOnly(all, now);
    }
  }
}

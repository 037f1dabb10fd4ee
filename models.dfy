/** The records the session engine passes around: Models/UserSession.cs,
    Models/LoginRequest.cs, Models/LoginResponse.cs, and the fields of the
    User entity that the login reads and writes. */
module Models {
  import opened Wrappers

  /** A DateTime, as whole seconds since DateTime.MinValue; so 0 is default(DateTime). */
  type Instant = int

  const SecondsPerMinute: int := 60

  /** UserSession: every property has a public setter, so a session is a plain value
      and "setting" a property builds a new value. */
  datatype UserSession = UserSession(
    userId: string,
    username: string,
    token: string,
    deviceId: string,
    userAgent: string,
    ipAddress: string,
    loginTime: Instant,
    expiryTime: Instant,
    isActive: bool)

  /** `new UserSession()`: the property initialisers. */
  function NewUserSession(): (s: UserSession)
    ensures s.userId == "" && s.username == "" && s.token == ""
    ensures s.deviceId == "" && s.userAgent == "" && s.ipAddress == ""
    ensures s.isActive
    ensures s.loginTime == 0 && s.expiryTime == 0
  {
    UserSession("", "", "", "", "", "", 0, 0, true)
  }

  /** The check every reader repeats: the flag is set and the expiry lies after `now`. */
  predicate Usable(s: UserSession, now: Instant) {
    s.isActive && s.expiryTime > now
  }

  /** Two sessions that agree on every property except, possibly, ExpiryTime. */
  predicate SameExceptExpiry(a: UserSession, b: UserSession) {
    && a.userId == b.userId && a.username == b.username && a.token == b.token
    && a.deviceId == b.deviceId && a.userAgent == b.userAgent && a.ipAddress == b.ipAddress
    && a.loginTime == b.loginTime && a.isActive == b.isActive
  }

  /** `session.ExpiryTime = newExpiry` */
  function WithExpiry(s: UserSession, newExpiry: Instant): (r: UserSession)
    ensures r.expiryTime == newExpiry
    ensures SameExceptExpiry(r, s)
  {
    s.(expiryTime := newExpiry)
  }

  /** A freshly constructed session is active, yet not usable at any instant from
      DateTime.MinValue on, because its ExpiryTime is the default as well. */
  lemma NewSessionActiveButExpired(now: Instant)
    requires now >= 0
    ensures NewUserSession().isActive && !Usable(NewUserSession(), now)
  {
  }

  /** The record imposes no order between LoginTime and ExpiryTime. */
  lemma TimestampsIndependent()
    ensures exists s: UserSession :: s.expiryTime < s.loginTime
    ensures exists s: UserSession :: s.loginTime < s.expiryTime
  {
    var early := NewUserSession().(loginTime := 1);
    var late := NewUserSession().(expiryTime := 1);
    assert early.expiryTime < early.loginTime;
    assert late.loginTime < late.expiryTime;
  }

  /** The columns of the User entity the login touches (Models/User.cs is not part of
      this model). */
  datatype User = User(
    id: int,
    username: string,
    passwordHash: string,
    isActive: bool,
    lastLoginAt: Option<Instant>)

  /** LoginRequest: DeviceId, UserAgent and IpAddress are nullable. */
  datatype LoginRequest = LoginRequest(
    username: string,
    password: string,
    deviceId: Option<string>,
    userAgent: Option<string>,
    ipAddress: Option<string>)

  datatype LoginResponse = LoginResponse(
    token: string,
    refreshToken: string,
    expiresAt: Instant,
    username: string,
    message: string,
    success: bool)

  /** `new LoginResponse { Success = false, Message = message }`: every other property
      keeps its initialiser. */
  function FailedLogin(message: string): (r: LoginResponse)
    ensures !r.success && r.message == message
    ensures r.token == "" && r.refreshToken == "" && r.username == "" && r.expiresAt == 0
  {
    LoginResponse("", "", 0, "", message, false)
  }
}

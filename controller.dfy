/** Controllers/AuthController.cs: the HTTP endpoints over the authentication service,
    and the helpers that read the bearer token, the client address and the device
    identifier out of the request. The request is a value; the [Authorize]
    middleware that runs before the actions is not part of this model. */
module Controller {
  import opened Wrappers
  import opened Models
  import opened Redis
  import opened Auth

  /** The parts of the HTTP request the controller reads. A missing Authorization or
      User-Agent header reads as the empty string (`StringValues.ToString()`); a missing
      X-Forwarded-For header, remote address or NameIdentifier claim is None. */
  datatype HttpRequest = HttpRequest(
    authorization: string,
    userAgent: string,
    forwardedFor: Option<string>,
    remoteIp: Option<string>,
    nameIdentifier: Option<string>)

  /** The bodies the actions answer with. */
  datatype Body =
    | Text(text: string)
    | Message(message: string)
    | Validity(valid: bool, message: string)
    | LoginBody(response: LoginResponse)
    | Sessions(sessions: seq<UserSession>)

  /** 200, 400 and 401. */
  datatype ActionResult = Ok(body: Body) | BadRequest(body: Body) | Unauthorized(body: Body)

  // ---- the bearer token ----

  const BearerPrefix: string := "Bearer "

  predicate StartsWith(s: string, prefix: string) {
    |prefix| <= |s| && s[..|prefix|] == prefix
  }

  /** GetTokenFromHeader: the header minus a leading, case-sensitive "Bearer ". */
  function GetTokenFromHeader(authorization: string): (token: Option<string>)
    ensures token.Some? <==> StartsWith(authorization, BearerPrefix)
    ensures token.Some? ==> authorization == BearerPrefix + token.value
  {
    if StartsWith(authorization, BearerPrefix) then Some(authorization[|BearerPrefix|..]) else None
  }

  /** Every token survives the round trip through the header. */
  lemma BearerRoundTrip(token: string)
    ensures GetTokenFromHeader(BearerPrefix + token) == Some(token)
  {
    assert (BearerPrefix + token)[..|BearerPrefix|] == BearerPrefix;
    assert (BearerPrefix + token)[|BearerPrefix|..] == token;
  }

  /** The scheme is matched case-sensitively and with its space; an absent header and a
      bare "Bearer " give no token and the empty token respectively. */
  lemma BearerEdgeCases(token: string)
    ensures GetTokenFromHeader("bearer " + token).None?
    ensures GetTokenFromHeader("Bearer").None?
    ensures GetTokenFromHeader("").None?
    ensures GetTokenFromHeader("Bearer ") == Some("")
  {
    assert ("bearer " + token)[0] == 'b';
    BearerRoundTrip("");
    assert BearerPrefix + "" == "Bearer ";
  }

  /** `string.IsNullOrEmpty(token)` */
  predicate NullOrEmpty(s: Option<string>) {
    s.None? || s.value == ""
  }

  // ---- the client address ----

  /** `char.IsWhiteSpace`: the Unicode space separators, the line and paragraph
      separators, and U+0009 to U+000D, U+0085 and U+00A0. */
  predicate IsWhiteSpace(c: char) {
    c == ' ' || ('\t' <= c <= '\r') || c == '\U{85}' || c == '\U{A0}' || c == '\U{1680}'
    || ('\U{2000}' <= c <= '\U{200A}') || c == '\U{2028}' || c == '\U{2029}'
    || c == '\U{202F}' || c == '\U{205F}' || c == '\U{3000}'
  }

  predicate AllWhiteSpace(s: string) {
    forall k :: 0 <= k < |s| ==> IsWhiteSpace(s[k])
  }

  /** `TrimStart()`: what is left once the leading white space is gone. */
  function TrimStart(s: string): (r: string)
    ensures |r| <= |s| && r == s[|s| - |r|..]
    ensures AllWhiteSpace(s[..|s| - |r|])
    ensures r == [] || !IsWhiteSpace(r[0])
  {
    if |s| > 0 && IsWhiteSpace(s[0]) then
      var r := TrimStart(s[1..]);
      assert s[..|s| - |r|] == [s[0]] + s[1..][..|s| - 1 - |r|];
      r
    else s
  }

  /** `TrimEnd()`: what is left once the trailing white space is gone. */
  function TrimEnd(s: string): (r: string)
    ensures |r| <= |s| && r == s[..|r|]
    ensures AllWhiteSpace(s[|r|..])
    ensures r == [] || !IsWhiteSpace(r[|r| - 1])
  {
    if |s| > 0 && IsWhiteSpace(s[|s| - 1]) then
      var r := TrimEnd(s[..|s| - 1]);
      assert s[|r|..] == s[..|s| - 1][|r|..] + [s[|s| - 1]];
      r
    else s
  }

  /** `Trim()` */
  function Trim(s: string): (r: string)
    ensures |r| <= |s|
    ensures r == [] || (!IsWhiteSpace(r[0]) && !IsWhiteSpace(r[|r| - 1]))
  {
    TrimEnd(TrimStart(s))
  }

  lemma {:induction false} TrimStartPadding(w: string, x: string)
    requires AllWhiteSpace(w)
    requires x == [] || !IsWhiteSpace(x[0])
    ensures TrimStart(w + x) == x
    decreases |w|
  {
    if w != [] {
      assert (w + x)[0] == w[0];
      assert (w + x)[1..] == w[1..] + x;
      TrimStartPadding(w[1..], x);
    }
  }

  lemma {:induction false} TrimEndPadding(x: string, w: string)
    requires AllWhiteSpace(w)
    requires x == [] || !IsWhiteSpace(x[|x| - 1])
    ensures TrimEnd(x + w) == x
    decreases |w|
  {
    if w != [] {
      assert (x + w)[|x + w| - 1] == w[|w| - 1];
      assert (x + w)[..|x + w| - 1] == x + w[..|w| - 1];
      TrimEndPadding(x, w[..|w| - 1]);
    }
  }

  /** Trim removes exactly the white space around a word, whatever the padding. */
  lemma TrimPadding(w1: string, x: string, w2: string)
    requires AllWhiteSpace(w1) && AllWhiteSpace(w2)
    requires x != [] && !IsWhiteSpace(x[0]) && !IsWhiteSpace(x[|x| - 1])
    ensures Trim(w1 + x + w2) == x
  {
    assert w1 + x + w2 == w1 + (x + w2);
    assert (x + w2)[0] == x[0];
    TrimStartPadding(w1, x + w2);
    TrimEndPadding(x, w2);
  }

  /** Trim cuts only white space: the text is its trimmed form with white space on either
      side. */
  lemma TrimCutsOnlyPadding(s: string)
    ensures AllWhiteSpace(s[..|s| - |TrimStart(s)|]) && AllWhiteSpace(TrimStart(s)[|Trim(s)|..])
    ensures s == s[..|s| - |TrimStart(s)|] + Trim(s) + TrimStart(s)[|Trim(s)|..]
  {
    TrimStartSplits(s);
    TrimEndSplits(TrimStart(s));
    Regroup(s, s[..|s| - |TrimStart(s)|], TrimStart(s), Trim(s), TrimStart(s)[|Trim(s)|..]);
  }

  lemma TrimStartSplits(s: string)
    ensures s == s[..|s| - |TrimStart(s)|] + TrimStart(s)
  {
  }

  lemma TrimEndSplits(t: string)
    ensures t == TrimEnd(t) + t[|TrimEnd(t)|..]
  {
  }

  lemma Regroup(s: string, a: string, t: string, r: string, b: string)
    requires s == a + t && t == r + b
    ensures s == a + r + b
  {
    assert a + r + b == a + (r + b);
  }

  /** A string of white space alone trims to nothing. */
  lemma TrimBlank(w: string)
    requires AllWhiteSpace(w)
    ensures Trim(w) == ""
  {
    TrimStartPadding(w, "");
    assert w + "" == w;
  }

  /** `Split(',')[0]`: the text before the first comma, or all of it. */
  function BeforeFirstComma(s: string): (r: string)
    ensures |r| <= |s| && r == s[..|r|]
    ensures ',' !in r
    ensures |r| < |s| ==> s[|r|] == ','
  {
    if s == [] || s[0] == ',' then ""
    else
      var rest := BeforeFirstComma(s[1..]);
      assert s[..|rest| + 1] == [s[0]] + s[1..][..|rest|];
      [s[0]] + rest
  }

  /** The first element of a comma-separated list is the text up to its first comma. */
  lemma FirstOfList(first: string, rest: string)
    requires ',' !in first
    ensures BeforeFirstComma(first + "," + rest) == first
  {
    var s := first + "," + rest;
    var r := BeforeFirstComma(s);
    assert s[|first|] == ',';
    assert forall k :: 0 <= k < |first| ==> s[k] == first[k];
  }

  /** GetClientIpAddress: the first X-Forwarded-For hop, trimmed, when that header is
      non-empty; otherwise the connection's remote address, or "Unknown". */
  function GetClientIpAddress(http: HttpRequest): (ip: string)
    ensures !NullOrEmpty(http.forwardedFor) ==>
      ',' !in ip && (ip == [] || (!IsWhiteSpace(ip[0]) && !IsWhiteSpace(ip[|ip| - 1])))
    ensures !NullOrEmpty(http.forwardedFor) ==>
      exists w1, w2 :: AllWhiteSpace(w1) && AllWhiteSpace(w2)
        && BeforeFirstComma(http.forwardedFor.value) == w1 + ip + w2
    ensures NullOrEmpty(http.forwardedFor) ==> ip == http.remoteIp.GetOr("Unknown")
  {
    if !NullOrEmpty(http.forwardedFor) then
      var first := BeforeFirstComma(http.forwardedFor.value);
      var ip := Trim(first);
      TrimCutsOnlyPadding(first);
      var w1, w2 := first[..|first| - |TrimStart(first)|], TrimStart(first)[|ip|..];
      assert ip == first[|w1|..|w1| + |ip|];
      ip
    else http.remoteIp.GetOr("Unknown")
  }

  /** For every header whose first hop is an address padded with white space, the client
      address is exactly that address, whether later hops follow or not. */
  lemma ClientIpIsFirstHop(http: HttpRequest, w1: string, address: string, w2: string, tail: string)
    requires AllWhiteSpace(w1) && AllWhiteSpace(w2)
    requires address != [] && !IsWhiteSpace(address[0]) && !IsWhiteSpace(address[|address| - 1])
    requires ',' !in w1 + address + w2
    requires tail == "" || tail[0] == ','
    requires http.forwardedFor == Some(w1 + address + w2 + tail)
    ensures GetClientIpAddress(http) == address
  {
    var first := w1 + address + w2;
    if tail == "" {
      assert first + tail == first;
      assert forall k :: 0 <= k < |first| ==> first[k] != ',';
    } else {
      assert tail == "," + tail[1..];
      assert first + tail == first + "," + tail[1..];
      FirstOfList(first, tail[1..]);
    }
    TrimPadding(w1, address, w2);
  }

  /** A proxy chain reports the client, not the proxies; without the header and without
      a remote address the answer is "Unknown". */
  lemma ClientIpExamples(http: HttpRequest)
    ensures GetClientIpAddress(http.(forwardedFor := None, remoteIp := None)) == "Unknown"
    ensures GetClientIpAddress(http.(forwardedFor := Some(""), remoteIp := Some("10.1.2.3"))) == "10.1.2.3"
  {
  }

  /** With a header naming the client and then a proxy, the address is the client's. */
  lemma ClientIpBehindProxy(http: HttpRequest)
    ensures GetClientIpAddress(http.(forwardedFor := Some(" 203.0.113.7 , 10.0.0.1"))) == "203.0.113.7"
  {
    var client := "203.0.113.7";
    var header := " " + client + " " + "," + " 10.0.0.1";
    assert header == " 203.0.113.7 , 10.0.0.1";
    assert " " + client + " " == " 203.0.113.7 ";
    assert ',' !in " 203.0.113.7 ";
    FirstOfList(" " + client + " ", " 10.0.0.1");
    assert client[0] == '2' && client[|client| - 1] == '7';
    TrimPadding(" ", client, " ");
  }

  // ---- the device identifier ----

  /** GetDeviceIdFromToken: Base64(SHA-256(user agent + client address)); the token
      argument is not read. */
  function GetDeviceIdFromToken(hash: string -> string, token: string, http: HttpRequest): string {
    hash(http.userAgent + GetClientIpAddress(http))
  }

  /** The request the login action passes on: the body with the user agent and the
      client address filled in from the HTTP request. */
  function CompleteRequest(request: LoginRequest, http: HttpRequest): (r: LoginRequest)
    ensures r.username == request.username && r.password == request.password && r.deviceId == request.deviceId
    ensures r.userAgent == Some(http.userAgent) && r.ipAddress == Some(GetClientIpAddress(http))
  {
    request.(userAgent := Some(http.userAgent), ipAddress := Some(GetClientIpAddress(http)))
  }

  /** The identifier the controller derives ignores the token, and it is the one a login
      without an explicit DeviceId was given from the same user agent and address. */
  lemma DeviceIdMatchesLogin(hash: string -> string, t1: string, t2: string, http: HttpRequest,
                             request: LoginRequest)
    ensures GetDeviceIdFromToken(hash, t1, http) == GetDeviceIdFromToken(hash, t2, http)
    ensures request.deviceId.None? ==>
      ResolveDeviceId(hash, CompleteRequest(request, http)) == GetDeviceIdFromToken(hash, t1, http)
  {
  }

  // ---- the actions, as values ----

  const TokenNotFound: string := "Token not found"
  const InvalidRequest: string := "Invalid request"
  const NoCurrentDevice: string := "Unable to identify current device"
  const UserIdNotFound: string := "User ID not found"

  /** `response.Success ? Ok(response) : BadRequest(response)` */
  function LoginResult(response: LoginResponse): (r: ActionResult)
    ensures r.body == LoginBody(response)
    ensures r.Ok? <==> response.success
    ensures !r.Unauthorized?
  {
    if response.success then Ok(LoginBody(response)) else BadRequest(LoginBody(response))
  }

  /** What POST logout answers when the store is in state db. */
  function LogoutResult(db: Db, http: HttpRequest, now: Instant): ActionResult {
    var token := GetTokenFromHeader(http.authorization);
    if NullOrEmpty(token) then BadRequest(Text(TokenNotFound))
    else if SessionAt(db, token.value, now).Some? then Ok(Message("Logout successful"))
    else BadRequest(Text("Logout failed"))
  }

  /** What GET validate-session answers: the device identifier is always derived from
      the request and always compared with the session's. */
  function ValidateResult(db: Db, validateToken: (string, Instant) -> bool, hash: string -> string,
                          http: HttpRequest, now: Instant): ActionResult
  {
    var token := GetTokenFromHeader(http.authorization);
    var deviceId := GetDeviceIdFromToken(hash, token.GetOr(""), http);
    if NullOrEmpty(token) then BadRequest(Text(TokenNotFound))
    else if SessionValid(db, validateToken(token.value, now), token.value, Some(deviceId), now) then
      Ok(Validity(true, "Session is valid"))
    else Unauthorized(Validity(false, "Session is invalid or expired"))
  }

  /** Whether POST logout-other-devices gets as far as the service. */
  predicate LogoutOthersProceeds(hash: string -> string, http: HttpRequest) {
    var token := GetTokenFromHeader(http.authorization);
    !NullOrEmpty(http.nameIdentifier) && !NullOrEmpty(token)
    && GetDeviceIdFromToken(hash, token.value, http) != ""
  }

  /** What POST logout-other-devices answers; the answer does not depend on the store,
      since the bulk logout reports success whatever it met. */
  function LogoutOthersResult(hash: string -> string, http: HttpRequest): ActionResult {
    var token := GetTokenFromHeader(http.authorization);
    if NullOrEmpty(http.nameIdentifier) || NullOrEmpty(token) then BadRequest(Text(InvalidRequest))
    else if GetDeviceIdFromToken(hash, token.value, http) == "" then BadRequest(Text(NoCurrentDevice))
    else Ok(Message("Other devices logged out successfully"))
  }

  // ---- what the actions promise ----

  /** Logout answers 200 exactly when the header carries a token that has a session;
      the same request a second time finds nothing and gets "Logout failed". */
  lemma LogoutEndpoint(db: Db, http: HttpRequest, now: Instant)
    ensures LogoutResult(db, http, now).Ok? <==>
      (var t := GetTokenFromHeader(http.authorization); t.Some? && t.value != "" && SessionAt(db, t.value, now).Some?)
    ensures
      var t := GetTokenFromHeader(http.authorization);
      !NullOrEmpty(t) ==>
        LogoutResult(AfterRemove(db, t.value, now), http, now) == BadRequest(Text("Logout failed"))
  {
    var t := GetTokenFromHeader(http.authorization);
    if !NullOrEmpty(t) {
      LogoutTwice(db, t.value, now);
    }
  }

  /** Validation from the device a login came from: with no explicit DeviceId at login,
      the same user agent and address, a JWT the issuer accepts and a session still live,
      active and unexpired, the answer is "Session is valid". */
  lemma ValidateFromLoginDevice(db: Db, validateToken: (string, Instant) -> bool, hash: string -> string,
                                http: HttpRequest, request: LoginRequest, token: string, now: Instant)
    requires token != "" && validateToken(token, now)
    requires http.authorization == BearerPrefix + token
    requires SessionAt(db, token, now).Some? && Usable(SessionAt(db, token, now).value, now)
    requires request.deviceId.None?
    requires SessionAt(db, token, now).value.deviceId == ResolveDeviceId(hash, CompleteRequest(request, http))
    ensures ValidateResult(db, validateToken, hash, http, now) == Ok(Validity(true, "Session is valid"))
  {
    BearerRoundTrip(token);
    DeviceIdMatchesLogin(hash, token, token, http, request);
  }

  /** A session whose DeviceId differs from the one the controller derives (a login that
      named its own DeviceId, or a change of address) never validates through this
      endpoint, whatever the JWT and the session say. */
  lemma ValidateRejectsOtherDevice(db: Db, validateToken: (string, Instant) -> bool, hash: string -> string,
                                   http: HttpRequest, token: string, now: Instant)
    requires http.authorization == BearerPrefix + token && token != ""
    requires GetDeviceIdFromToken(hash, token, http) != ""
    requires SessionAt(db, token, now).Some?
    requires SessionAt(db, token, now).value.deviceId != GetDeviceIdFromToken(hash, token, http)
    ensures ValidateResult(db, validateToken, hash, http, now)
      == Unauthorized(Validity(false, "Session is invalid or expired"))
  {
    BearerRoundTrip(token);
  }

  /** Validation answers 400 only for a missing token, and otherwise 200 or 401 as the
      service decides. */
  lemma ValidateStatus(db: Db, validateToken: (string, Instant) -> bool, hash: string -> string,
                       http: HttpRequest, now: Instant)
    ensures ValidateResult(db, validateToken, hash, http, now).BadRequest? <==>
      NullOrEmpty(GetTokenFromHeader(http.authorization))
    ensures ValidateResult(db, validateToken, hash, http, now).Ok? ==>
      (var t := GetTokenFromHeader(http.authorization).value;
       validateToken(t, now) && SessionAt(db, t, now).Some? && Usable(SessionAt(db, t, now).value, now))
  {
  }

  /** The checks of logout-other-devices come in order: the claim and the token, then
      the device identifier; only then is the service called, and it answers 200. */
  lemma LogoutOthersStatus(hash: string -> string, http: HttpRequest)
    ensures LogoutOthersResult(hash, http).Ok? <==> LogoutOthersProceeds(hash, http)
    ensures (NullOrEmpty(http.nameIdentifier) || NullOrEmpty(GetTokenFromHeader(http.authorization)))
      ==> LogoutOthersResult(hash, http) == BadRequest(Text(InvalidRequest))
  {
  }

  class AuthController {
    const service: AuthService

    ghost predicate Valid()
      reads this, service, service.redis
    {
      service.Valid()
    }

    constructor (service: AuthService)
      requires service.Valid()
      ensures Valid() && this.service == service
    {
      this.service := service;
    }

    /** POST api/auth/login; `refreshToken` is what the service draws on this call. */
    method Login(http: HttpRequest, request: LoginRequest, now: Instant, refreshToken: string)
      returns (result: ActionResult)
      requires Valid()
      modifies service, service.redis
      ensures Valid()
      ensures
        var out := LoginSpec(old(service.users), old(service.redis.State()), service.redis.Ttl(),
                             service.generateToken, service.hash, CompleteRequest(request, http), now, refreshToken);
        && result == LoginResult(out.response)
        && service.redis.State() == out.db
        && service.users == out.users
    {
      var completed := request.(userAgent := Some(http.userAgent), ipAddress := Some(GetClientIpAddress(http)));
      var response := service.Login(completed, now, refreshToken);
      if response.success {
        return Ok(LoginBody(response));
      }
      return BadRequest(LoginBody(response));
    }

    /** POST api/auth/logout */
    method Logout(http: HttpRequest, now: Instant) returns (result: ActionResult)
      requires Valid()
      modifies service.redis
      ensures Valid()
      ensures result == LogoutResult(old(service.redis.State()), http, now)
      ensures
        var t := GetTokenFromHeader(http.authorization);
        service.redis.State() == (if NullOrEmpty(t) then old(service.redis.State())
                                  else AfterRemove(old(service.redis.State()), t.value, now))
    {
      var token := GetTokenFromHeader(http.authorization);
      if token.None? || token.value == "" {
        return BadRequest(Text(TokenNotFound));
      }
      var ok := service.Logout(token.value, now);
      if ok {
        return Ok(Message("Logout successful"));
      }
      return BadRequest(Text("Logout failed"));
    }

    /** POST api/auth/logout-other-devices */
    method LogoutOtherDevices(http: HttpRequest, now: Instant)
      returns (result: ActionResult, ghost listed: seq<UserSession>)
      requires Valid()
      modifies service.redis
      ensures Valid()
      ensures result == LogoutOthersResult(service.hash, http)
      ensures !LogoutOthersProceeds(service.hash, http) ==> service.redis.State() == old(service.redis.State())
      ensures LogoutOthersProceeds(service.hash, http) ==>
        var userId := http.nameIdentifier.value;
        var current := GetDeviceIdFromToken(service.hash, GetTokenFromHeader(http.authorization).value, http);
        && IsListing(old(service.redis.State()), userId, now, listed)
        && service.redis.State()
           == AfterRemoveAll(old(service.redis.State()), TokensOf(OnOtherDevices(listed, current)), now)
    {
      listed := [];
      var userId := http.nameIdentifier;
      var token := GetTokenFromHeader(http.authorization);
      if userId.None? || userId.value == "" || token.None? || token.value == "" {
        return BadRequest(Text(InvalidRequest)), listed;
      }
      var currentDeviceId := GetDeviceIdFromToken(service.hash, token.value, http);
      if currentDeviceId == "" {
        return BadRequest(Text(NoCurrentDevice)), listed;
      }
      var ok;
      ok, listed := service.ForceLogoutOtherDevices(userId.value, currentDeviceId, now);
      if ok {
        return Ok(Message("Other devices logged out successfully")), listed;
      }
      return BadRequest(Text("Failed to logout other devices")), listed;
    }

    /** GET api/auth/validate-session */
    method ValidateSession(http: HttpRequest, now: Instant) returns (result: ActionResult)
      ensures result == ValidateResult(service.redis.State(), service.validateToken, service.hash, http, now)
    {
      var token := GetTokenFromHeader(http.authorization);
      var deviceId := GetDeviceIdFromToken(service.hash, token.GetOr(""), http);
      if token.None? || token.value == "" {
        return BadRequest(Text(TokenNotFound));
      }
      var isValid := service.ValidateSession(token.value, Some(deviceId), now);
      if isValid {
        return Ok(Validity(true, "Session is valid"));
      }
      return Unauthorized(Validity(false, "Session is invalid or expired"));
    }

    /** GET api/auth/active-sessions */
    method GetActiveSessions(http: HttpRequest, now: Instant)
      returns (result: ActionResult, ghost listed: seq<UserSession>)
      ensures NullOrEmpty(http.nameIdentifier) ==> result == BadRequest(Text(UserIdNotFound))
      ensures !NullOrEmpty(http.nameIdentifier) ==>
        IsListing(service.redis.State(), http.nameIdentifier.value, now, listed)
        && result == Ok(Sessions(ActiveOnly(listed, now)))
    {
      listed := [];
      var userId := http.nameIdentifier;
      if userId.None? || userId.value == "" {
        return BadRequest(Text(UserIdNotFound)), listed;
      }
      var sessions;
      sessions, listed := service.GetUserActiveSessions(userId.value, now);
      return Ok(Sessions(sessions)), listed;
    }
  }
}

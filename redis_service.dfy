/** Services/RedisService.cs: the session store. Redis holds three coordinated
    views of the sessions, each key with its own time-to-live:
      session:{token}                  -> the session, as JSON
      user:{userId}:device:{deviceId}  -> a copy of the same JSON
      user:{userId}:sessions           -> the set of the user's tokens
    The pure functions below say what each command sequence does to the database;
    the class RedisService performs the commands one by one and is proved against them. */
module Redis {
  import opened Wrappers
  import opened Seqs
  import opened Models

  /** A value under a Redis key and the instant its TTL runs out. */
  datatype Keyed<V> = Keyed(value: V, expiresAt: Instant)

  /** The key user:{userId}:device:{deviceId}. */
  datatype DeviceKey = DeviceKey(userId: string, deviceId: string)

  /** The database as the service sees it. `up` is false when the connection is
      broken, so every command throws. */
  datatype Db = Db(
    sessions: map<string, Keyed<UserSession>>,
    devices: map<DeviceKey, Keyed<UserSession>>,
    userSets: map<string, Keyed<set<string>>>,
    up: bool)

  /** GET on a key: Redis answers nil once the key's TTL has run out. */
  function Live<K, V>(m: map<K, Keyed<V>>, k: K, now: Instant): Option<V> {
    if k in m && now < m[k].expiresAt then Some(m[k].value) else None
  }

  /** GetUserSessionAsync: a failing connection is caught and reads as null. */
  function SessionAt(db: Db, token: string, now: Instant): Option<UserSession> {
    if db.up then Live(db.sessions, token, now) else None
  }

  function DeviceSessionAt(db: Db, userId: string, deviceId: string, now: Instant): Option<UserSession> {
    if db.up then Live(db.devices, DeviceKey(userId, deviceId), now) else None
  }

  /** SMEMBERS user:{userId}:sessions; a missing or expired set has no members. */
  function MembersAt(db: Db, userId: string, now: Instant): set<string> {
    if db.up then Live(db.userSets, userId, now).GetOr({}) else {}
  }

  /** The store's own consistency condition: the key session:{t} holds a session whose
      Token is t. Every write path keeps it. */
  ghost predicate TokensMatch(db: Db) {
    forall t :: t in db.sessions ==> db.sessions[t].value.token == t
  }

  /** StoreUserSessionAsync: SET both string keys with the TTL, SADD the token,
      then EXPIRE the set with the same TTL. */
  function AfterStore(db: Db, s: UserSession, now: Instant, ttl: int): Db {
    if !db.up then db
    else
      var deadline := now + ttl;
      Db(db.sessions[s.token := Keyed(s, deadline)],
         db.devices[DeviceKey(s.userId, s.deviceId) := Keyed(s, deadline)],
         db.userSets[s.userId := Keyed(MembersAt(db, s.userId, now) + {s.token}, deadline)],
         true)
  }

  /** SREM: Redis deletes a set once its last member is removed. */
  function SetRemove(m: map<string, Keyed<set<string>>>, userId: string, token: string, now: Instant)
    : map<string, Keyed<set<string>>>
  {
    match Live(m, userId, now)
    case None => m
    case Some(members) =>
      if members - {token} == {} then m - {userId}
      else m[userId := Keyed(members - {token}, m[userId].expiresAt)]
  }

  /** RemoveUserSessionAsync: look the session up by token, then delete the token key,
      the device key built from THAT session's UserId and DeviceId, and the token's
      entry in that user's set. */
  function AfterRemove(db: Db, token: string, now: Instant): Db {
    match SessionAt(db, token, now)
    case None => db
    case Some(s) =>
      Db(db.sessions - {token},
         db.devices - {DeviceKey(s.userId, s.deviceId)},
         SetRemove(db.userSets, s.userId, token, now),
         db.up)
  }

  /** The removals of InvalidateOtherSessionsAsync, in the order it issues them. */
  function AfterRemoveAll(db: Db, tokens: seq<string>, now: Instant): Db {
    if tokens == [] then db
    else AfterRemove(AfterRemoveAll(db, tokens[..|tokens| - 1], now), tokens[|tokens| - 1], now)
  }

  /** UpdateSessionExpiryAsync: re-store the session with the new ExpiryTime. */
  function AfterUpdateExpiry(db: Db, token: string, newExpiry: Instant, now: Instant, ttl: int): Db {
    match SessionAt(db, token, now)
    case None => db
    case Some(s) => AfterStore(db, WithExpiry(s, newExpiry), now, ttl)
  }

  function LoggedInOnDevice(db: Db, userId: string, deviceId: string, now: Instant): bool {
    match DeviceSessionAt(db, userId, deviceId, now)
    case None => false
    case Some(s) => Usable(s, now)
  }

  function TokenValid(db: Db, token: string, now: Instant): bool {
    match SessionAt(db, token, now)
    case None => false
    case Some(s) => Usable(s, now)
  }

  /** The sessions GetUserSessionsAsync collects when it visits the tokens in `order`:
      a token whose key does not resolve is skipped. */
  function Resolve(db: Db, order: seq<string>, now: Instant): seq<UserSession> {
    if order == [] then []
    else
      Resolve(db, order[..|order| - 1], now)
      + (match SessionAt(db, order[|order| - 1], now)
         case Some(s) => [s]
         case None => [])
  }

  /** `order` visits every element of `members` exactly once (Redis gives no order). */
  ghost predicate IsEnumeration(order: seq<string>, members: set<string>) {
    && (forall i, j | 0 <= i < j < |order| :: order[i] != order[j])
    && (forall t :: t in order <==> t in members)
  }

  /** `listed` is one possible answer of GetUserSessionsAsync(userId) at `now`. */
  ghost predicate IsListing(db: Db, userId: string, now: Instant, listed: seq<UserSession>) {
    exists order :: IsEnumeration(order, MembersAt(db, userId, now)) && listed == Resolve(db, order, now)
  }

  /** `sessions.Where(s => s.DeviceId != currentDeviceId)` */
  function OnOtherDevices(sessions: seq<UserSession>, currentDeviceId: string): seq<UserSession> {
    Where(sessions, (s: UserSession) => s.deviceId != currentDeviceId)
  }

  /** The tokens the bulk logout removes, one per listed session: a token is among them
      exactly when some listed session carries it. */
  function TokensOf(sessions: seq<UserSession>): (r: seq<string>)
    ensures |r| == |sessions|
    ensures forall t :: t in r <==> exists s :: s in sessions && s.token == t
  {
    var r := seq(|sessions|, i requires 0 <= i < |sessions| => sessions[i].token);
    forall t | t in r
      ensures exists s :: s in sessions && s.token == t
    {
      var i :| 0 <= i < |r| && r[i] == t;
      assert sessions[i] in sessions;
    }
    forall s | s in sessions
      ensures s.token in r
    {
      var i :| 0 <= i < |sessions| && sessions[i] == s;
      assert r[i] == s.token;
    }
    r
  }

  class RedisService {
    var sessionKeys: map<string, Keyed<UserSession>>
    var deviceKeys: map<DeviceKey, Keyed<UserSession>>
    var userSetKeys: map<string, Keyed<set<string>>>
    /** Whether the connection multiplexer reaches the server. */
    const connected: bool
    /** RedisSettings.DefaultExpiryMinutes */
    const defaultExpiryMinutes: int

    function State(): Db
      reads this
    {
      Db(sessionKeys, deviceKeys, userSetKeys, connected)
    }

    /** `TimeSpan.FromMinutes(_defaultExpiryMinutes)`, in seconds. */
    function Ttl(): int {
      defaultExpiryMinutes * SecondsPerMinute
    }

    ghost predicate Valid()
      reads this
    {
      defaultExpiryMinutes > 0 && TokensMatch(State())
    }

    constructor (defaultExpiryMinutes: int, connected: bool)
      requires defaultExpiryMinutes > 0
      ensures Valid()
      ensures State() == Db(map[], map[], map[], connected)
      ensures this.defaultExpiryMinutes == defaultExpiryMinutes
    {
      sessionKeys, deviceKeys, userSetKeys := map[], map[], map[];
      this.connected := connected;
      this.defaultExpiryMinutes := defaultExpiryMinutes;
    }

    method StoreUserSession(session: UserSession, now: Instant) returns (ok: bool)
      requires Valid()
      modifies this
      ensures Valid()
      ensures ok == connected
      ensures State() == AfterStore(old(State()), session, now, Ttl())
    {
      if !connected {
        return false;
      }
      var deadline := now + Ttl();
      sessionKeys := sessionKeys[session.token := Keyed(session, deadline)];
      deviceKeys := deviceKeys[DeviceKey(session.userId, session.deviceId) := Keyed(session, deadline)];
      var members := match Live(userSetKeys, session.userId, now) case Some(m) => m case None => {};
      userSetKeys := userSetKeys[session.userId := Keyed(members + {session.token}, deadline)];
      ok := true;
    }

    method GetUserSession(token: string, now: Instant) returns (session: Option<UserSession>)
      ensures session == SessionAt(State(), token, now)
      ensures session.Some? <==> connected && token in sessionKeys && now < sessionKeys[token].expiresAt
      ensures session.Some? ==> session.value == sessionKeys[token].value
    {
      if !connected {
        return None;
      }
      if token in sessionKeys && now < sessionKeys[token].expiresAt {
        session := Some(sessionKeys[token].value);
      } else {
        session := None;
      }
    }

    method RemoveUserSession(token: string, now: Instant) returns (removed: bool)
      requires Valid()
      modifies this
      ensures Valid()
      ensures removed == SessionAt(old(State()), token, now).Some?
      ensures !removed ==> unchanged(this)
      ensures State() == AfterRemove(old(State()), token, now)
    {
      var session := GetUserSession(token, now);
      if session.None? {
        return false;
      }
      var s := session.value;
      var members := match Live(userSetKeys, s.userId, now) case Some(m) => m case None => {};
      sessionKeys := sessionKeys - {token};
      deviceKeys := deviceKeys - {DeviceKey(s.userId, s.deviceId)};
      if Live(userSetKeys, s.userId, now).Some? {
        userSetKeys := if members - {token} == {} then userSetKeys - {s.userId}
                       else userSetKeys[s.userId := Keyed(members - {token}, userSetKeys[s.userId].expiresAt)];
      }
      removed := true;
    }

    method IsTokenValid(token: string, now: Instant) returns (valid: bool)
      ensures valid == TokenValid(State(), token, now)
      ensures valid <==> (exists s :: SessionAt(State(), token, now) == Some(s) && Usable(s, now))
    {
      var session := GetUserSession(token, now);
      valid := session.Some? && session.value.isActive && session.value.expiryTime > now;
    }

    method IsUserLoggedInOnDevice(userId: string, deviceId: string, now: Instant) returns (loggedIn: bool)
      ensures loggedIn == LoggedInOnDevice(State(), userId, deviceId, now)
      ensures loggedIn <==> (exists s :: DeviceSessionAt(State(), userId, deviceId, now) == Some(s) && Usable(s, now))
    {
      if !connected {
        return false;
      }
      var key := DeviceKey(userId, deviceId);
      if key in deviceKeys && now < deviceKeys[key].expiresAt {
        var s := deviceKeys[key].value;
        loggedIn := s.isActive && s.expiryTime > now;
      } else {
        loggedIn := false;
      }
    }

    /** The loop visits the members of the set in whatever order Redis returns them;
        `order` records the order it took. */
    method GetUserSessions(userId: string, now: Instant) returns (sessions: seq<UserSession>, ghost order: seq<string>)
      ensures IsEnumeration(order, MembersAt(State(), userId, now))
      ensures sessions == Resolve(State(), order, now)
    {
      sessions, order := [], [];
      if !connected {
        return;
      }
      var members := match Live(userSetKeys, userId, now) case Some(m) => m case None => {};
      var remaining := members;
      while remaining != {}
        invariant remaining <= members
        invariant forall t :: t in order <==> t in members && t !in remaining
        invariant forall i, j | 0 <= i < j < |order| :: order[i] != order[j]
        invariant sessions == Resolve(State(), order, now)
        decreases remaining
      {
        var token :| token in remaining;
        var session := GetUserSession(token, now);
        assert (order + [token])[..|order|] == order;
        if session.Some? {
          sessions := sessions + [session.value];
        }
        order := order + [token];
        remaining := remaining - {token};
      }
    }

    /** Every removal runs to its end (RemoveUserSessionAsync catches its own failures),
        so the method reports success whatever happened. */
    method InvalidateOtherSessions(userId: string, currentDeviceId: string, now: Instant)
      returns (ok: bool, ghost listed: seq<UserSession>)
      requires Valid()
      modifies this
      ensures Valid()
      ensures ok
      ensures IsListing(old(State()), userId, now, listed)
      ensures State() == AfterRemoveAll(old(State()), TokensOf(OnOtherDevices(listed, currentDeviceId)), now)
    {
      ghost var db0 := State();
      var sessions, order := GetUserSessions(userId, now);
      assert IsEnumeration(order, MembersAt(db0, userId, now)) && sessions == Resolve(db0, order, now);
      listed := sessions;
      var others := OnOtherDevices(sessions, currentDeviceId);
      var i := 0;
      while i < |others|
        invariant 0 <= i <= |others|
        invariant Valid()
        invariant State() == AfterRemoveAll(db0, TokensOf(others[..i]), now)
      {
        var removed := RemoveUserSession(others[i].token, now);
        assert TokensOf(others[..i + 1])[..i] == TokensOf(others[..i]);
        i := i + 1;
      }
      assert others[..|others|] == others;
      ok := true;
    }

    /** The result of the re-store is ignored: a found session reports true. */
    method UpdateSessionExpiry(token: string, newExpiry: Instant, now: Instant) returns (ok: bool)
      requires Valid()
      modifies this
      ensures Valid()
      ensures ok == SessionAt(old(State()), token, now).Some?
      ensures !ok ==> unchanged(this)
      ensures State() == AfterUpdateExpiry(old(State()), token, newExpiry, now, Ttl())
    {
      var session := GetUserSession(token, now);
      if session.None? {
        return false;
      }
      var stored := StoreUserSession(WithExpiry(session.value, newExpiry), now);
      ok := true;
    }
  }
}

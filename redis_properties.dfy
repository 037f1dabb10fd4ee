/** What the commands of Services/RedisService.cs guarantee about the three views
    of the session database. */
module RedisProperties {
  import opened Wrappers
  import opened Seqs
  import opened Models
  import opened Redis

  // ---- store ----

  /** After a successful store the session is reachable through the token key and the
      device key, and its token is in the user's set; the set gains that one token only. */
  lemma StoreThenGet(db: Db, s: UserSession, now: Instant, ttl: int)
    requires db.up && ttl > 0
    ensures SessionAt(AfterStore(db, s, now, ttl), s.token, now) == Some(s)
    ensures DeviceSessionAt(AfterStore(db, s, now, ttl), s.userId, s.deviceId, now) == Some(s)
    ensures MembersAt(AfterStore(db, s, now, ttl), s.userId, now) == MembersAt(db, s.userId, now) + {s.token}
  {
  }

  /** Storing touches no other token, device or user. */
  lemma StoreFrame(db: Db, s: UserSession, now: Instant, ttl: int)
    ensures forall t :: t != s.token ==> SessionAt(AfterStore(db, s, now, ttl), t, now) == SessionAt(db, t, now)
    ensures forall u, d :: DeviceKey(u, d) != DeviceKey(s.userId, s.deviceId) ==>
      DeviceSessionAt(AfterStore(db, s, now, ttl), u, d, now) == DeviceSessionAt(db, u, d, now)
    ensures forall u :: u != s.userId ==> MembersAt(AfterStore(db, s, now, ttl), u, now) == MembersAt(db, u, now)
  {
  }

  /** Storing the same session twice is the same as storing it once: the keys are
      overwritten and the set keeps a single entry for the token. */
  lemma StoreIdempotent(db: Db, s: UserSession, now: Instant, ttl: int)
    requires ttl > 0
    ensures AfterStore(AfterStore(db, s, now, ttl), s, now, ttl) == AfterStore(db, s, now, ttl)
  {
    if db.up {
      var once := AfterStore(db, s, now, ttl);
      assert MembersAt(once, s.userId, now) == MembersAt(db, s.userId, now) + {s.token};
    }
  }

  /** Without a connection the store writes nothing. */
  lemma StoreUnreachable(db: Db, s: UserSession, now: Instant, ttl: int)
    requires !db.up
    ensures AfterStore(db, s, now, ttl) == db
  {
  }

  /** Each write path keeps session:{t} holding a session with Token t. */
  lemma StoreKeepsTokensMatch(db: Db, s: UserSession, now: Instant, ttl: int)
    requires TokensMatch(db)
    ensures TokensMatch(AfterStore(db, s, now, ttl))
  {
  }

  // ---- get and the device check ----

  /** A get finds a session exactly when the token key is present and its TTL has not run
      out; the session's own ExpiryTime plays no part. */
  lemma GetIgnoresExpiryTime(db: Db, token: string, now: Instant)
    requires db.up && token in db.sessions && now < db.sessions[token].expiresAt
    requires db.sessions[token].value.expiryTime <= now
    ensures SessionAt(db, token, now) == Some(db.sessions[token].value)
    ensures !TokenValid(db, token, now)
  {
  }

  /** Storing a usable session makes the device check succeed, for as long as both the
      key's TTL and the session's ExpiryTime have not passed. */
  lemma StoredDeviceLoggedIn(db: Db, s: UserSession, at: Instant, now: Instant, ttl: int)
    requires db.up && s.isActive && at <= now < at + ttl && now < s.expiryTime
    ensures LoggedInOnDevice(AfterStore(db, s, at, ttl), s.userId, s.deviceId, now)
    ensures TokenValid(AfterStore(db, s, at, ttl), s.token, now)
  {
  }

  // ---- remove ----

  /** Removing a present token deletes exactly three things: its token key, the device
      key derived from its session, and its entry in that user's set. */
  lemma RemoveFrame(db: Db, token: string, now: Instant, s: UserSession)
    requires SessionAt(db, token, now) == Some(s)
    ensures SessionAt(AfterRemove(db, token, now), token, now).None?
    ensures DeviceSessionAt(AfterRemove(db, token, now), s.userId, s.deviceId, now).None?
    ensures MembersAt(AfterRemove(db, token, now), s.userId, now) == MembersAt(db, s.userId, now) - {token}
    ensures forall t :: t != token ==> SessionAt(AfterRemove(db, token, now), t, now) == SessionAt(db, t, now)
    ensures forall u, d :: DeviceKey(u, d) != DeviceKey(s.userId, s.deviceId) ==>
      DeviceSessionAt(AfterRemove(db, token, now), u, d, now) == DeviceSessionAt(db, u, d, now)
    ensures forall u :: u != s.userId ==> MembersAt(AfterRemove(db, token, now), u, now) == MembersAt(db, u, now)
  {
    var after := AfterRemove(db, token, now);
    var members := MembersAt(db, s.userId, now);
    if members - {token} == {} {
      assert MembersAt(after, s.userId, now) == {};
    }
  }

  /** Removing an absent token changes nothing. */
  lemma RemoveAbsent(db: Db, token: string, now: Instant)
    requires SessionAt(db, token, now).None?
    ensures AfterRemove(db, token, now) == db
  {
  }

  /** The device key is built from the removed session, not checked against it: when it
      has since been overwritten by a newer session on the same device, the newer entry
      goes too, and the device check no longer sees that live session. */
  lemma RemoveDropsNewerDeviceEntry(db: Db, token: string, now: Instant, s: UserSession, newer: UserSession)
    requires SessionAt(db, token, now) == Some(s)
    requires DeviceSessionAt(db, s.userId, s.deviceId, now) == Some(newer)
    requires newer.token != token
    ensures SessionAt(AfterRemove(db, token, now), newer.token, now) == SessionAt(db, newer.token, now)
    ensures !LoggedInOnDevice(AfterRemove(db, token, now), s.userId, s.deviceId, now)
  {
    RemoveFrame(db, token, now, s);
  }

  /** A reachable instance: with DefaultExpiryMinutes = 120 the keys outlive the
      60-minute ExpiryTime, so an expired session still holds its token key when a new
      login on the same device overwrites the device key; removing the old token then
      hides the usable new session from the device check. */
  lemma RemoveDropsNewerDeviceEntryScenario()
    ensures
      var ttl := 120 * SecondsPerMinute;
      var first := UserSession("7", "alice", "T1", "phone", "", "", 0, 3600, true);
      var second := UserSession("7", "alice", "T2", "phone", "", "", 3700, 7300, true);
      var db1 := AfterStore(Db(map[], map[], map[], true), first, 0, ttl);
      var db2 := AfterStore(db1, second, 3700, ttl);
      var db3 := AfterRemove(db2, "T1", 3800);
      && !LoggedInOnDevice(db1, "7", "phone", 3700)
      && SessionAt(db2, "T1", 3800) == Some(first)
      && SessionAt(db3, "T2", 3800) == Some(second) && Usable(second, 3800)
      && !LoggedInOnDevice(db3, "7", "phone", 3800)
  {
    var ttl := 120 * SecondsPerMinute;
    var first := UserSession("7", "alice", "T1", "phone", "", "", 0, 3600, true);
    var second := UserSession("7", "alice", "T2", "phone", "", "", 3700, 7300, true);
    var db1 := AfterStore(Db(map[], map[], map[], true), first, 0, ttl);
    var db2 := AfterStore(db1, second, 3700, ttl);
    assert SessionAt(db2, "T1", 3800) == Some(first);
    assert DeviceSessionAt(db2, "7", "phone", 3800) == Some(second);
    RemoveDropsNewerDeviceEntry(db2, "T1", 3800, first, second);
  }

  lemma RemoveKeepsTokensMatch(db: Db, token: string, now: Instant)
    requires TokensMatch(db)
    ensures TokensMatch(AfterRemove(db, token, now))
  {
  }

  // ---- listing ----

  /** The listing holds exactly the sessions of the visited tokens that resolve. */
  lemma {:induction false} ResolveMembership(db: Db, order: seq<string>, now: Instant)
    ensures forall s :: s in Resolve(db, order, now) <==> exists t :: t in order && SessionAt(db, t, now) == Some(s)
  {
    if order != [] {
      var init := order[..|order| - 1];
      var last := order[|order| - 1];
      ResolveMembership(db, init, now);
      assert order == init + [last];
      forall s | s in Resolve(db, order, now)
        ensures exists t :: t in order && SessionAt(db, t, now) == Some(s)
      {
        if s !in Resolve(db, init, now) {
          assert SessionAt(db, last, now) == Some(s);
        }
      }
    }
  }

  /** The listing has one entry per visited token that resolves, and none for the others. */
  lemma {:induction false} ResolveLength(db: Db, order: seq<string>, now: Instant)
    ensures |Resolve(db, order, now)| == |Where(order, (t: string) => SessionAt(db, t, now).Some?)|
    ensures |Resolve(db, order, now)| <= |order|
    ensures (forall i :: 0 <= i < |order| ==> SessionAt(db, order[i], now).Some?) ==> |Resolve(db, order, now)| == |order|
  {
    if order != [] {
      ResolveLength(db, order[..|order| - 1], now);
    }
  }

  /** GetUserSessionsAsync(u) returns exactly the sessions of the tokens in u's set whose
      token key resolves; the other members are skipped. */
  lemma ListingMembership(db: Db, userId: string, now: Instant, listed: seq<UserSession>)
    requires IsListing(db, userId, now, listed)
    ensures forall s :: s in listed <==> exists t :: t in MembersAt(db, userId, now) && SessionAt(db, t, now) == Some(s)
  {
    var order :| IsEnumeration(order, MembersAt(db, userId, now)) && listed == Resolve(db, order, now);
    ResolveMembership(db, order, now);
  }

  /** With consistent token keys every listed session sits under its own token, which is
      a member of the user's set. */
  lemma ListedResolve(db: Db, userId: string, now: Instant, listed: seq<UserSession>)
    requires TokensMatch(db) && IsListing(db, userId, now, listed)
    ensures forall s :: s in listed ==> SessionAt(db, s.token, now) == Some(s) && s.token in MembersAt(db, userId, now)
  {
    ListingMembership(db, userId, now, listed);
  }

  /** Index drift: the user's set is re-armed by every store while an older token key
      expires on its own schedule, so the set can name a token that no longer resolves;
      the listing silently skips it. */
  lemma StaleMemberSkipped()
    ensures
      var ttl := 60 * SecondsPerMinute;
      var a := UserSession("7", "alice", "T1", "phone", "", "", 0, 3600, true);
      var b := UserSession("7", "alice", "T2", "laptop", "", "", 1800, 5400, true);
      var db := AfterStore(AfterStore(Db(map[], map[], map[], true), a, 0, ttl), b, 1800, ttl);
      && MembersAt(db, "7", 4000) == {"T1", "T2"}
      && SessionAt(db, "T1", 4000).None?
      && Resolve(db, ["T1", "T2"], 4000) == [b]
  {
    var ttl := 60 * SecondsPerMinute;
    var a := UserSession("7", "alice", "T1", "phone", "", "", 0, 3600, true);
    var b := UserSession("7", "alice", "T2", "laptop", "", "", 1800, 5400, true);
    var db1 := AfterStore(Db(map[], map[], map[], true), a, 0, ttl);
    assert MembersAt(db1, "7", 1800) == {"T1"};
    var db := AfterStore(db1, b, 1800, ttl);
    assert ["T1", "T2"][..1] == ["T1"];
    assert ["T1"][..0] == [];
    assert SessionAt(db, "T1", 4000).None?;
    assert Resolve(db, ["T1"], 4000) == [];
    assert SessionAt(db, "T2", 4000) == Some(b);
  }

  // ---- invalidate other sessions ----

  /** A sequence of removals never makes a session appear, leaves every removed token
      unresolvable, and only shrinks the users' sets. */
  lemma {:induction false} RemoveAllEffects(db: Db, tokens: seq<string>, now: Instant)
    ensures forall t :: t in tokens ==> SessionAt(AfterRemoveAll(db, tokens, now), t, now).None?
    ensures forall t :: SessionAt(AfterRemoveAll(db, tokens, now), t, now).Some? ==>
      SessionAt(AfterRemoveAll(db, tokens, now), t, now) == SessionAt(db, t, now)
    ensures forall u :: MembersAt(AfterRemoveAll(db, tokens, now), u, now) <= MembersAt(db, u, now)
    ensures AfterRemoveAll(db, tokens, now).up == db.up
  {
    if tokens != [] {
      var init := tokens[..|tokens| - 1];
      var last := tokens[|tokens| - 1];
      RemoveAllEffects(db, init, now);
      var mid := AfterRemoveAll(db, init, now);
      match SessionAt(mid, last, now)
      case None =>
      case Some(s) => RemoveFrame(mid, last, now, s);
      assert tokens == init + [last];
    }
  }

  /** Removals of tokens whose sessions are not on device `d` leave every device key of
      `d`, every other token and every other set member as they were. */
  lemma {:induction false} RemoveAllKeeps(db: Db, tokens: seq<string>, d: string, now: Instant)
    requires forall t :: t in tokens && SessionAt(db, t, now).Some? ==> SessionAt(db, t, now).value.deviceId != d
    ensures forall u :: DeviceSessionAt(AfterRemoveAll(db, tokens, now), u, d, now) == DeviceSessionAt(db, u, d, now)
    ensures forall t :: t !in tokens ==> SessionAt(AfterRemoveAll(db, tokens, now), t, now) == SessionAt(db, t, now)
    ensures forall u, t :: t !in tokens && t in MembersAt(db, u, now) ==> t in MembersAt(AfterRemoveAll(db, tokens, now), u, now)
  {
    if tokens != [] {
      var init := tokens[..|tokens| - 1];
      var last := tokens[|tokens| - 1];
      assert tokens == init + [last];
      RemoveAllKeeps(db, init, d, now);
      RemoveAllEffects(db, init, now);
      var mid := AfterRemoveAll(db, init, now);
      match SessionAt(mid, last, now)
      case None =>
      case Some(s) =>
        assert SessionAt(db, last, now) == Some(s);
        RemoveFrame(mid, last, now, s);
    }
  }

  /** No session of another device listed before the bulk logout still resolves. */
  lemma InvalidateRemovesOtherDevices(db: Db, d: string, now: Instant, listed: seq<UserSession>)
    ensures forall s :: s in listed && s.deviceId != d ==>
      SessionAt(AfterRemoveAll(db, TokensOf(OnOtherDevices(listed, d)), now), s.token, now).None?
  {
    var others := OnOtherDevices(listed, d);
    RemoveAllEffects(db, TokensOf(others), now);
    forall s | s in listed && s.deviceId != d
      ensures s.token in TokensOf(others)
    {
      assert s in others;
    }
  }

  /** The sessions listed on device `d` survive the bulk logout, and so does every device
      key of `d`. */
  lemma InvalidateKeepsCurrentDevice(db: Db, userId: string, d: string, now: Instant, listed: seq<UserSession>)
    requires TokensMatch(db) && IsListing(db, userId, now, listed)
    ensures forall s :: s in listed && s.deviceId == d ==>
      SessionAt(AfterRemoveAll(db, TokensOf(OnOtherDevices(listed, d)), now), s.token, now) == Some(s)
    ensures forall u ::
      (DeviceSessionAt(AfterRemoveAll(db, TokensOf(OnOtherDevices(listed, d)), now), u, d, now)
       == DeviceSessionAt(db, u, d, now))
  {
    var others := OnOtherDevices(listed, d);
    var tokens := TokensOf(others);
    ListedResolve(db, userId, now, listed);
    forall t | t in tokens && SessionAt(db, t, now).Some?
      ensures SessionAt(db, t, now).value.deviceId != d
    {
      var i :| 0 <= i < |tokens| && tokens[i] == t;
      assert others[i] in others;
    }
    RemoveAllKeeps(db, tokens, d, now);
    assert forall s :: s in listed && s.deviceId == d ==> s.token !in tokens;
  }

  /** After the bulk logout a new listing of the user holds exactly the sessions of
      device `d` that the first listing held. */
  lemma OnlyCurrentDeviceListedAfter(db: Db, userId: string, d: string, now: Instant,
                                     listed: seq<UserSession>, relisted: seq<UserSession>)
    requires TokensMatch(db) && IsListing(db, userId, now, listed)
    requires IsListing(AfterRemoveAll(db, TokensOf(OnOtherDevices(listed, d)), now), userId, now, relisted)
    ensures forall s :: s in relisted <==> s in listed && s.deviceId == d
  {
    var tokens := TokensOf(OnOtherDevices(listed, d));
    var after := AfterRemoveAll(db, tokens, now);
    ListedResolve(db, userId, now, listed);
    ListingMembership(db, userId, now, listed);
    ListingMembership(after, userId, now, relisted);
    RemoveAllEffects(db, tokens, now);
    InvalidateRemovesOtherDevices(db, d, now, listed);
    InvalidateKeepsCurrentDevice(db, userId, d, now, listed);
    forall s | s in relisted
      ensures s in listed && s.deviceId == d
    {
      var t :| t in MembersAt(after, userId, now) && SessionAt(after, t, now) == Some(s);
      assert SessionAt(db, t, now) == Some(s);
      assert s in listed;
    }
    forall s | s in listed && s.deviceId == d
      ensures s in relisted
    {
      assert s.token !in tokens;
      RemoveAllKeeps(db, tokens, d, now);
      assert SessionAt(after, s.token, now) == Some(s);
    }
  }

  // ---- expiry update ----

  /** A found session is re-stored with the new ExpiryTime and nothing else changed, so
      the token copy and the device copy both carry it; an absent token changes nothing. */
  lemma UpdateExpiryCopies(db: Db, token: string, newExpiry: Instant, now: Instant, ttl: int, s: UserSession)
    requires TokensMatch(db) && ttl > 0
    requires SessionAt(db, token, now) == Some(s)
    ensures SessionAt(AfterUpdateExpiry(db, token, newExpiry, now, ttl), token, now) == Some(WithExpiry(s, newExpiry))
    ensures DeviceSessionAt(AfterUpdateExpiry(db, token, newExpiry, now, ttl), s.userId, s.deviceId, now)
      == Some(WithExpiry(s, newExpiry))
    ensures token in MembersAt(AfterUpdateExpiry(db, token, newExpiry, now, ttl), s.userId, now)
  {
    assert s.token == token;
  }

  lemma UpdateExpiryAbsent(db: Db, token: string, newExpiry: Instant, now: Instant, ttl: int)
    requires SessionAt(db, token, now).None?
    ensures AfterUpdateExpiry(db, token, newExpiry, now, ttl) == db
  {
  }
}

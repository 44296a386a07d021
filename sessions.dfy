/**
 * The session service (`internal/session/service.go`): a device's session
 * patched with a new push token, and a session logged out. Both look the
 * user up by guid first and touch only the sessions of that user with the
 * given guid.
 */
module Sessions {
  import opened Wrappers
  import opened Uuids
  import opened Domain
  import opened Tables
  import opened Users

  /**
   * `UPDATE sessions SET updated_at = now[, device_token = token] WHERE
   * user_id = u AND guid = g`: the token is written only when one is given.
   */
  function WithPatch(sessions: seq<Session>, u: Id, g: Uuid, token: string, now: Time): (r: seq<Session>)
    ensures |r| == |sessions|
    ensures forall i :: 0 <= i < |sessions| ==>
              var (s, s') := (sessions[i], r[i]);
              if s.userId == u && s.guid == g then
                && s'.updatedAt == now
                && s'.deviceToken == (if token == "" then s.deviceToken else token)
                && s'.guid == s.guid && s'.userId == s.userId && s'.deviceId == s.deviceId
                && s'.expiredAt == s.expiredAt && s'.createdAt == s.createdAt
              else s' == s
  {
    seq(|sessions|, i requires 0 <= i < |sessions| =>
      var s := sessions[i];
      if s.userId == u && s.guid == g
      then Session(s.guid, s.userId, s.deviceId, if token == "" then s.deviceToken else token, s.expiredAt, s.createdAt, now)
      else s)
  }

  /** `UPDATE users SET is_notification_enabled = true, updated_at = now WHERE id = u`. */
  function WithNotifications(users: seq<User>, u: Id, now: Time): (r: seq<User>)
    ensures |r| == |users|
    ensures forall i :: 0 <= i < |users| ==>
              var (x, x') := (users[i], r[i]);
              if x.id == u then
                && x'.isNotificationEnabled && x'.updatedAt == now
                && x'.guid == x.guid && x'.id == x.id && x'.email == x.email && x'.settings == x.settings
                && x'.subscriptionReceiptId == x.subscriptionReceiptId && x'.isActive == x.isActive
              else x' == x
  {
    seq(|users|, i requires 0 <= i < |users| =>
      var x := users[i];
      if x.id == u
      then User(x.id, x.guid, x.externalId, x.email, x.givenName, x.familyName, x.provider, x.settings,
                x.subscriptionReceiptId, true, x.isActive, x.isCreated, x.createdAt, now)
      else x)
  }

  /** `UPDATE sessions SET expired_at = now, updated_at = now WHERE user_id = u AND guid = g`. */
  function WithExpiry(sessions: seq<Session>, u: Id, g: Uuid, now: Time): (r: seq<Session>)
    ensures |r| == |sessions|
    ensures forall i :: 0 <= i < |sessions| ==>
              var (s, s') := (sessions[i], r[i]);
              if s.userId == u && s.guid == g then
                && s'.expiredAt == now && s'.updatedAt == now
                && s'.guid == s.guid && s'.userId == s.userId && s'.deviceId == s.deviceId
                && s'.deviceToken == s.deviceToken && s'.createdAt == s.createdAt
              else s' == s
  {
    seq(|sessions|, i requires 0 <= i < |sessions| =>
      var s := sessions[i];
      if s.userId == u && s.guid == g
      then Session(s.guid, s.userId, s.deviceId, s.deviceToken, now, s.createdAt, now)
      else s)
  }

  class SessionService {
    const db: Store
    const userService: UserService

    /** The service and the user service it asks share one database. */
    predicate Valid()
    {
      userService.db == db
    }

    constructor(db: Store, userService: UserService)
      requires userService.db == db
      ensures this.db == db && this.userService == userService && Valid()
    {
      this.db := db;
      this.userService := userService;
    }

    /**
     * `UpdateUserSession`: in one transaction, the user's notifications
     * switched on when a device token is given, then the session with the
     * body's guid patched. A guid that is not a UUID makes the session update
     * fail, and the transaction is rolled back.
     */
    method UpdateUserSession(userID: Uuid, s: PatchSessionBody, now: Time) returns (err: Outcome<Error>)
      requires Valid()
      modifies db
      ensures var user := UserByGuid(old(db.users), userID);
              && (user.None? ==> err == Fail(RecordNotFound))
              && (user.Some? && PgParse(s.guid).None? ==> err == Fail(InvalidUuid))
              && (user.Some? && PgParse(s.guid).Some? ==> err == Pass)
      ensures err.Fail? ==> db.users == old(db.users) && db.sessions == old(db.sessions)
      ensures err == Pass ==>
                var user := UserByGuid(old(db.users), userID).value;
                && db.sessions == WithPatch(old(db.sessions), user.id, PgParse(s.guid).value, s.deviceToken, now)
                && db.users == if s.deviceToken == "" then old(db.users) else WithNotifications(old(db.users), user.id, now)
      ensures unchanged(db`books, db`picks, db`topics, db`bookTopics, db`keywords, db`topicColors, db`outbox, db`nextId)
    {
      var user := userService.GetUserByGuid(userID);
      if user.Failure? {
        return Fail(user.error);
      }
      var before := db.users;
      if s.deviceToken != "" {
        // a token means the user has granted push notifications
        db.users := WithNotifications(db.users, user.value.id, now);
      }
      var g := PgParse(s.guid);
      if g.None? {
        // Postgres rejects the text as a uuid: the transaction rolls back
        db.users := before;
        return Fail(InvalidUuid);
      }
      db.sessions := WithPatch(db.sessions, user.value.id, g.value, s.deviceToken, now);
      return Pass;
    }

    /** `LogoutSession`: the user's session with the guid expired now. */
    method LogoutSession(userID: Uuid, sessionID: Uuid, now: Time) returns (err: Outcome<Error>)
      requires Valid()
      modifies db
      ensures var user := UserByGuid(old(db.users), userID);
              && (user.None? ==> err == Fail(RecordNotFound) && db.sessions == old(db.sessions))
              && (user.Some? ==> err == Pass && db.sessions == WithExpiry(old(db.sessions), user.value.id, sessionID, now))
      ensures unchanged(db`users, db`books, db`picks, db`topics, db`bookTopics, db`keywords, db`topicColors, db`outbox, db`nextId)
    {
      var user := userService.GetUserByGuid(userID);
      if user.Failure? {
        return Fail(user.error);
      }
      db.sessions := WithExpiry(db.sessions, user.value.id, sessionID, now);
      return Pass;
    }
  }

  // ---------------------------------------------------------------- facts

  /** Patching a session never changes which of the user's sessions is active. */
  lemma PatchKeepsActiveSession(sessions: seq<Session>, u: Id, g: Uuid, token: string, now: Time, v: Id)
    ensures ActiveSessionPos(WithPatch(sessions, u, g, token, now), v) == ActiveSessionPos(sessions, v)
  {
    var p := (x: Session) => x.userId == v && IsActive(x);
    var r := WithPatch(sessions, u, g, token, now);
    assert forall j :: 0 <= j < |sessions| ==> (p(r[j]) <==> p(sessions[j]));
    var q := ActiveSessionPos(sessions, v);
    if q.Some? {
      FirstWhereIsFirst(r, p, q.value);
    } else {
      assert forall j :: 0 <= j < |r| ==> !p(r[j]);
    }
  }

  /** Patching the same session twice with the same body is patching it once. */
  lemma PatchIdempotent(sessions: seq<Session>, u: Id, g: Uuid, token: string, now: Time)
    ensures WithPatch(WithPatch(sessions, u, g, token, now), u, g, token, now) == WithPatch(sessions, u, g, token, now)
  {
    var once := WithPatch(sessions, u, g, token, now);
    var twice := WithPatch(once, u, g, token, now);
    assert forall i :: 0 <= i < |sessions| ==> twice[i] == once[i];
  }

  /**
   * A session logged out at any time other than the zero time is no longer
   * active, so a later sign-in never reuses it.
   */
  lemma LoggedOutSessionIsNotReused(sessions: seq<Session>, u: Id, g: Uuid, now: Time, v: Id)
    requires now != ZeroTime
    ensures var r := WithExpiry(sessions, u, g, now);
            var q := ActiveSessionPos(r, v);
            q.Some? ==> !(r[q.value].userId == u && r[q.value].guid == g)
  {
  }
}

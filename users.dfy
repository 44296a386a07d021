/**
 * The user service (`internal/user/service.go`) over the shared `Store`:
 * looking a user up, signing a user in (creating the user, and copying the
 * sample books to a new one, or reusing the user's active session), the
 * profile update and the profile health check.
 *
 * `CreateUserIfNotExists` writes the user and session rows through the
 * service's own connection, outside the transaction it opens; only the copy
 * of the sample books runs inside it, so only that copy is ever rolled back.
 */
module Users {
  import opened Wrappers
  import opened Uuids
  import opened Domain
  import opened Rows
  import opened Tables
  import opened Samples
  import SampleCopy
  import SampleFacts

  /** A session is active while its `expired_at` is the zero time. */
  predicate IsActive(s: Session)
  {
    s.expiredAt == ZeroTime
  }

  /** `WHERE email = ?` then `First()`. */
  function UserByEmail(users: seq<User>, email: string): (r: Option<User>)
    ensures r.Some? ==> r.value in users && r.value.email == email
    ensures r.None? ==> forall u :: u in users ==> u.email != email
  {
    First(users, (u: User) => u.email == email)
  }

  /** Some user already has the external id (`external_id` is a unique column). */
  predicate ExternalIdTaken(users: seq<User>, sub: string)
  {
    exists u :: u in users && u.externalId == sub
  }

  /** The position of the user's first active session: `WHERE user_id = ? AND expired_at = '0001-01-01 00:00:00'`, `First()`. */
  function ActiveSessionPos(sessions: seq<Session>, u: Id): Option<nat>
  {
    FirstWhere(sessions, (s: Session) => s.userId == u && IsActive(s))
  }

  /**
   * The `users` row inserted for an unknown email: the identity the provider
   * vouched for, the default settings, and the table defaults (no receipt,
   * notifications off, active).
   */
  function NewUserRow(tp: ThirdPartyUser, id: Id, now: Time): User
  {
    User(id, id, tp.sub, tp.email, tp.givenName, tp.familyName, tp.provider, Some(NewUserSettings()), "",
         false, true, false, now, now)
  }

  /**
   * The user value left after a failed insert: the struct as the code built
   * it, with the timestamps gorm fills before the insert. `is_active` has a
   * column default, so gorm leaves it out of the INSERT and reads it back only
   * on success: it stays false, and id and guid stay zero.
   */
  function UnsavedUser(tp: ThirdPartyUser, now: Time): (u: User)
    ensures u.id == 0 && u.guid == Nil && !u.isActive && u.isCreated
    ensures u.email == tp.email && u.externalId == tp.sub && u.provider == tp.provider
    ensures u.settings == Some(NewUserSettings())
  {
    User(0, Nil, tp.sub, tp.email, tp.givenName, tp.familyName, tp.provider, Some(NewUserSettings()), "",
         false, false, true, now, now)
  }

  /** A user as `First` reads it: `IsCreated` is not a column, so it is false. */
  function AsRead(u: User): User
  {
    User(u.id, u.guid, u.externalId, u.email, u.givenName, u.familyName, u.provider, u.settings,
         u.subscriptionReceiptId, u.isNotificationEnabled, u.isActive, false, u.createdAt, u.updatedAt)
  }

  /** The value returned for a user just created: the row with `IsCreated` set. */
  function AsCreated(u: User): User
  {
    User(u.id, u.guid, u.externalId, u.email, u.givenName, u.familyName, u.provider, u.settings,
         u.subscriptionReceiptId, u.isNotificationEnabled, u.isActive, true, u.createdAt, u.updatedAt)
  }

  /** The session row created at sign-in: the device it signed in from, not expired. */
  function NewSession(guid: Uuid, u: Id, tp: ThirdPartyUser, now: Time): Session
  {
    Session(guid, u, tp.deviceId, tp.deviceToken, ZeroTime, now, now)
  }

  /** `UPDATE sessions SET device_id = ?, device_token = ?, updated_at = now WHERE guid = g`. */
  function WithDevice(sessions: seq<Session>, g: Uuid, tp: ThirdPartyUser, now: Time): (r: seq<Session>)
    ensures |r| == |sessions|
    ensures forall i :: 0 <= i < |sessions| ==>
              r[i] == if sessions[i].guid == g
                      then Session(g, sessions[i].userId, tp.deviceId, tp.deviceToken, sessions[i].expiredAt,
                                   sessions[i].createdAt, now)
                      else sessions[i]
  {
    seq(|sessions|, i requires 0 <= i < |sessions| =>
      if sessions[i].guid == g
      then Session(g, sessions[i].userId, tp.deviceId, tp.deviceToken, sessions[i].expiredAt, sessions[i].createdAt, now)
      else sessions[i])
  }

  /** The tables with another value of the id sequence. */
  function WithNextId(s: Snapshot, n: nat): Snapshot
  {
    Snapshot(s.books, s.picks, s.topics, s.bookTopics, s.keywords, s.outbox, n)
  }

  /** What `CreateUserIfNotExists` leaves behind: the tables it wrote and the user, session id and error it returns. */
  datatype SignInOutcome = SignInOutcome(users: seq<User>, sessions: seq<Session>, tables: Snapshot,
                                         user: User, sessionId: Uuid, err: Outcome<Error>)

  /**
   * `CreateUserIfNotExists` on the users, sessions and other tables: an
   * unknown email goes through `NewUser`, a known one through `SignInAgain`.
   */
  function SignIn(users: seq<User>, sessions: seq<Session>, tables: Snapshot, tp: ThirdPartyUser, now: Time): SignInOutcome
  {
    var known := UserByEmail(users, tp.email);
    if known.None? then NewUser(users, sessions, tables, tp, now)
    else SignInAgain(users, sessions, tables, known.value, tp, now)
  }

  /**
   * An unknown email: the user inserted, then the sample books copied to it
   * and a session opened. When the external id is taken the insert fails;
   * the id it drew stays used, and the unsaved user (`UnsavedUser`) is returned.
   */
  function NewUser(users: seq<User>, sessions: seq<Session>, tables: Snapshot, tp: ThirdPartyUser, now: Time): SignInOutcome
  {
    var id := tables.nextId;
    if ExternalIdTaken(users, tp.sub) then
      SignInOutcome(users, sessions, WithNextId(tables, id + 1), UnsavedUser(tp, now), Nil, Fail(UniqueViolation))
    else
      var row := NewUserRow(tp, id, now);
      CopyAndOpenSession(users + [row], sessions, WithNextId(tables, id + 1), AsCreated(row), tp, now)
  }

  /**
   * The sample books copied to the new `user` in a transaction, then a
   * session opened for the device. A panic in the copy rolls the tables back
   * and opens no session; the ids it drew stay used, so `tables.nextId` is
   * then only the lowest the id sequence can be at (see `Reached`).
   */
  function CopyAndOpenSession(users: seq<User>, sessions: seq<Session>, tables: Snapshot, user: User,
                              tp: ThirdPartyUser, now: Time): SignInOutcome
  {
    OpenSession(users, sessions, tables, user, tp, now, CopySamples(tables, SampleBooks(tables.books), user.id, now))
  }

  /** The session opened once the copy has given `copied`: none after a panic. */
  function OpenSession(users: seq<User>, sessions: seq<Session>, tables: Snapshot, user: User,
                       tp: ThirdPartyUser, now: Time, copied: Option<Snapshot>): SignInOutcome
  {
    if copied.None? then
      SignInOutcome(users, sessions, tables, user, Nil, Fail(Panic))
    else
      var s := copied.value;
      SignInOutcome(users, sessions + [NewSession(s.nextId, user.id, tp, now)], WithNextId(s, s.nextId + 1),
                    user, s.nextId, Pass)
  }

  /**
   * A known user `u`: its first active session gets the device, or a new
   * session is opened when it has none. The user is returned as read.
   */
  function SignInAgain(users: seq<User>, sessions: seq<Session>, tables: Snapshot, u: User,
                       tp: ThirdPartyUser, now: Time): SignInOutcome
  {
    var pos := ActiveSessionPos(sessions, u.id);
    if pos.Some? then
      var g := sessions[pos.value].guid;
      SignInOutcome(users, WithDevice(sessions, g, tp, now), tables, AsRead(u), g, Pass)
    else
      SignInOutcome(users, sessions + [NewSession(tables.nextId, u.id, tp, now)], WithNextId(tables, tables.nextId + 1),
                    AsRead(u), tables.nextId, Pass)
  }

  /**
   * The store's tables and the values returned are those of the outcome `o`;
   * after a panic only the rows are, since the ids drawn in the rolled-back
   * transaction are not given back.
   */
  predicate Reached(users: seq<User>, sessions: seq<Session>, tables: Snapshot, user: User, sessionId: Uuid,
                    err: Outcome<Error>, o: SignInOutcome)
  {
    && users == o.users && sessions == o.sessions
    && user == o.user && sessionId == o.sessionId && err == o.err
    && if err == Fail(Panic) then WithNextId(tables, 0) == WithNextId(o.tables, 0) else tables == o.tables
  }

  /** `UPDATE users SET settings, is_notification_enabled[, subscription_receipt_id], updated_at WHERE guid = g`. */
  function WithProfile(users: seq<User>, g: Uuid, data: UserProfileUpdate, now: Time): (r: seq<User>)
    ensures |r| == |users|
  {
    seq(|users|, i requires 0 <= i < |users| =>
      var u := users[i];
      if u.guid != g then u
      else
        User(u.id, u.guid, u.externalId, u.email, u.givenName, u.familyName, u.provider, Some(data.settings),
             if data.subscriptionReceiptId != "" then data.subscriptionReceiptId else u.subscriptionReceiptId,
             data.settings.notificationEnabled, u.isActive, u.isCreated, u.createdAt, now))
  }

  class UserService {
    const db: Store

    constructor(db: Store)
      ensures this.db == db
    {
      this.db := db;
    }

    /** `GetUserByGuid`: the first user with the guid, or `ErrRecordNotFound`. */
    function GetUserByGuid(guid: Uuid): (r: Result<User, Error>)
      reads db
      ensures r.Success? ==> r.value in db.users && r.value.guid == guid
      ensures r.Failure? ==> r.error == RecordNotFound && forall u :: u in db.users ==> u.guid != guid
    {
      var u := UserByGuid(db.users, guid);
      if u.Some? then Success(u.value) else Failure(RecordNotFound)
    }

    /**
     * `CreateUserIfNotExists`: the user with the provider's email, created
     * with the sample books when there is none, and the id of the session
     * the device is now signed in with.
     */
    method CreateUserIfNotExists(tp: ThirdPartyUser, now: Time) returns (user: User, sessionId: Uuid, err: Outcome<Error>)
      modifies db
      ensures Reached(db.users, db.sessions, db.State(), user, sessionId, err,
                      SignIn(old(db.users), old(db.sessions), old(db.State()), tp, now))
      ensures unchanged(db`topicColors)
    {
      var known := UserByEmail(db.users, tp.email);
      if known.None? {
        user, sessionId, err := CreateUser(tp, now);
      } else {
        user, sessionId, err := SignInKnownUser(known.value, tp, now);
      }
    }

    /** The unknown-email branch of `CreateUserIfNotExists`. */
    method CreateUser(tp: ThirdPartyUser, now: Time) returns (user: User, sessionId: Uuid, err: Outcome<Error>)
      modifies db
      ensures Reached(db.users, db.sessions, db.State(), user, sessionId, err,
                      NewUser(old(db.users), old(db.sessions), old(db.State()), tp, now))
      ensures unchanged(db`topicColors)
    {
      var id := db.nextId;
      if ExternalIdTaken(db.users, tp.sub) {
        // the insert fails on the unique `external_id`; its id is used up all the same
        db.nextId := id + 1;
        return UnsavedUser(tp, now), Nil, Fail(UniqueViolation);
      }
      var row := NewUserRow(tp, id, now);
      db.users, db.nextId := db.users + [row], id + 1;
      user := AsCreated(row);
      // the copy starts from exactly the tables `NewUser` hands to `CopyAndOpenSession`
      ghost var tables := WithNextId(old(db.State()), old(db.State()).nextId + 1);
      assert db.State() == tables;
      sessionId, err := CopySamplesAndOpenSession(old(db.users) + [row], old(db.sessions), tables, user, tp, now);
    }

    /** The sample books copied to the new `user` in a transaction, then the device's session opened. */
    method CopySamplesAndOpenSession(ghost users: seq<User>, ghost sessions: seq<Session>, ghost tables: Snapshot,
                                     user: User, tp: ThirdPartyUser, now: Time)
      returns (sessionId: Uuid, err: Outcome<Error>)
      requires db.users == users && db.sessions == sessions && db.State() == tables
      modifies db
      ensures Reached(db.users, db.sessions, db.State(), user, sessionId, err,
                      CopyAndOpenSession(users, sessions, tables, user, tp, now))
      ensures unchanged(db`topicColors)
    {
      var before := db.State();
      var copyErr := SampleCopy.CopyBookSamplesToUser(db, user.id, now);
      if copyErr.Fail? {
        RollBack(before);
        return Nil, Fail(Panic);
      }
      var s := db.State();
      var session := NewSession(s.nextId, user.id, tp, now);
      db.sessions, db.nextId := db.sessions + [session], s.nextId + 1;
      return session.guid, Pass;
    }

    /** The known-email branch of `CreateUserIfNotExists`, for the user `u` found. */
    method SignInKnownUser(u: User, tp: ThirdPartyUser, now: Time) returns (user: User, sessionId: Uuid, err: Outcome<Error>)
      modifies db
      ensures Reached(db.users, db.sessions, db.State(), user, sessionId, err,
                      SignInAgain(old(db.users), old(db.sessions), old(db.State()), u, tp, now))
      ensures unchanged(db`topicColors)
    {
      user := AsRead(u);
      var pos := ActiveSessionPos(db.sessions, u.id);
      if pos.Some? {
        var g := db.sessions[pos.value].guid;
        db.sessions := WithDevice(db.sessions, g, tp, now);
        sessionId := g;
      } else {
        var session := NewSession(db.nextId, u.id, tp, now);
        db.sessions, db.nextId := db.sessions + [session], db.nextId + 1;
        sessionId := session.guid;
      }
      err := Pass;
    }

    /** The tables the transaction wrote put back; ids drawn inside it stay used. */
    method RollBack(s: Snapshot)
      modifies db
      ensures db.books == s.books && db.picks == s.picks && db.topics == s.topics && db.bookTopics == s.bookTopics
      ensures db.keywords == s.keywords && db.outbox == s.outbox
      ensures unchanged(db`users, db`sessions, db`topicColors, db`nextId)
    {
      db.books, db.picks, db.topics, db.bookTopics, db.keywords, db.outbox := s.books, s.picks, s.topics, s.bookTopics, s.keywords, s.outbox;
    }

    /**
     * `UpdateUserProfile`: the settings and `is_notification_enabled` are
     * always written, the receipt only when one is given; a guid no user has
     * updates nothing and is no error.
     */
    method UpdateUserProfile(userID: Uuid, data: UserProfileUpdate, now: Time) returns (err: Outcome<Error>)
      modifies db
      ensures err == Pass
      ensures db.users == WithProfile(old(db.users), userID, data, now)
      ensures forall i :: 0 <= i < |db.users| ==>
                var (u, u') := (old(db.users)[i], db.users[i]);
                if u.guid == userID then
                  && u'.settings == Some(data.settings)
                  && u'.isNotificationEnabled == data.settings.notificationEnabled
                  && u'.subscriptionReceiptId == (if data.subscriptionReceiptId == "" then u.subscriptionReceiptId else data.subscriptionReceiptId)
                  && u'.id == u.id && u'.email == u.email && u'.isActive == u.isActive
                else u' == u
      ensures unchanged(db`sessions, db`books, db`picks, db`topics, db`bookTopics, db`keywords, db`topicColors, db`outbox, db`nextId)
    {
      db.users := WithProfile(db.users, userID, data, now);
      err := Pass;
    }

    /** `CheckProfileHealth`: premium always (the receipt check is commented out), healthy iff the user is active. */
    method CheckProfileHealth(userID: Uuid) returns (r: Result<UserHealth, Error>)
      ensures r.Failure? <==> UserByGuid(db.users, userID).None?
      ensures r.Failure? ==> r.error == RecordNotFound
      ensures r.Success? ==> r.value.isPremium && (r.value.isHealthy <==> UserByGuid(db.users, userID).value.isActive)
    {
      var user := GetUserByGuid(userID);
      if user.Failure? {
        return Failure(user.error);
      }
      var response := UserHealth(false, true);
      if !user.value.isActive {
        return Success(response);
      }
      response := response.(isHealthy := true);
      return Success(response);
    }
  }

  // ---------------------------------------------------------------- facts

  /** No two users share an email. */
  predicate UniqueEmails(users: seq<User>)
  {
    forall i, j :: 0 <= i < j < |users| ==> users[i].email != users[j].email
  }

  /** No two users share an external id (the unique `external_id` column). */
  predicate UniqueExternalIds(users: seq<User>)
  {
    forall i, j :: 0 <= i < j < |users| ==> users[i].externalId != users[j].externalId
  }

  /** Every session belongs to a user whose id the sequence has already handed out. */
  predicate SessionsOfPastIds(sessions: seq<Session>, tables: Snapshot)
  {
    forall s :: s in sessions ==> s.userId < tables.nextId
  }

  /** The user returned by a successful sign-in has the provider's email, and is flagged created iff it was new. */
  lemma SignInReturnsTheUser(users: seq<User>, sessions: seq<Session>, tables: Snapshot, tp: ThirdPartyUser, now: Time)
    ensures var o := SignIn(users, sessions, tables, tp, now);
            o.err == Pass ==> o.user.email == tp.email && (o.user.isCreated <==> UserByEmail(users, tp.email).None?)
  {
    var known := UserByEmail(users, tp.email);
    if known.None? && !ExternalIdTaken(users, tp.sub) {
      NewUserSignIn(users, sessions, tables, tp, now);
    }
  }

  /**
   * A new email with a free external id: the user row is appended and
   * returned as created; on success one session for it is appended, with
   * the id returned; the only failure is a panic in the copy.
   */
  lemma NewUserSignIn(users: seq<User>, sessions: seq<Session>, tables: Snapshot, tp: ThirdPartyUser, now: Time)
    requires UserByEmail(users, tp.email).None? && !ExternalIdTaken(users, tp.sub)
    ensures var o := SignIn(users, sessions, tables, tp, now);
            var row := NewUserRow(tp, tables.nextId, now);
            && o.users == users + [row] && o.user == AsCreated(row)
            && (o.err == Pass || o.err == Fail(Panic))
            && (o.err == Pass ==> o.sessions == sessions + [NewSession(o.sessionId, tables.nextId, tp, now)])
  {
    var row := NewUserRow(tp, tables.nextId, now);
    var start := WithNextId(tables, tables.nextId + 1);
    CopyKeepsUser(users + [row], sessions, start, AsCreated(row), tp, now);
    SignInIsNewUser(users, sessions, tables, tp, now);
  }

  /** The copy and the session leave the users and the user returned as they are, and panic or pass. */
  lemma CopyKeepsUser(users: seq<User>, sessions: seq<Session>, tables: Snapshot, user: User, tp: ThirdPartyUser, now: Time)
    ensures var o := CopyAndOpenSession(users, sessions, tables, user, tp, now);
            && o.users == users && o.user == user
            && (o.err == Pass || o.err == Fail(Panic))
            && (o.err == Pass ==> o.sessions == sessions + [NewSession(o.sessionId, user.id, tp, now)])
  {
    var copied := CopySamples(tables, SampleBooks(tables.books), user.id, now);
    var o := OpenSession(users, sessions, tables, user, tp, now, copied);
    assert o.users == users && o.user == user;
  }

  /**
   * A sign-in fails only for an unknown email, and then exactly when the
   * external id is taken (`UniqueViolation`) or the copy of the sample
   * books panics (`Panic`).
   */
  lemma {:induction false} SignInFailures(users: seq<User>, sessions: seq<Session>, tables: Snapshot, tp: ThirdPartyUser, now: Time)
    ensures var o := SignIn(users, sessions, tables, tp, now);
            var start := WithNextId(tables, tables.nextId + 1);
            var unknown := UserByEmail(users, tp.email).None?;
            && (o.err == Fail(UniqueViolation) <==> unknown && ExternalIdTaken(users, tp.sub))
            && (o.err == Fail(Panic) <==>
                  unknown && !ExternalIdTaken(users, tp.sub) && CopySamples(start, SampleBooks(start.books), tables.nextId, now).None?)
            && (o.err == Pass || o.err == Fail(UniqueViolation) || o.err == Fail(Panic))
  {
    var known := UserByEmail(users, tp.email);
    if known.None? && !ExternalIdTaken(users, tp.sub) {
      NewUserPanics(users, sessions, tables, tp, now);
    }
  }

  /** A new email with a free external id fails exactly when the copy of the sample books panics. */
  lemma NewUserPanics(users: seq<User>, sessions: seq<Session>, tables: Snapshot, tp: ThirdPartyUser, now: Time)
    requires UserByEmail(users, tp.email).None? && !ExternalIdTaken(users, tp.sub)
    ensures var o := SignIn(users, sessions, tables, tp, now);
            var start := WithNextId(tables, tables.nextId + 1);
            && (o.err == Pass || o.err == Fail(Panic))
            && (o.err == Fail(Panic) <==> CopySamples(start, SampleBooks(start.books), tables.nextId, now).None?)
  {
    var row := NewUserRow(tp, tables.nextId, now);
    var start := WithNextId(tables, tables.nextId + 1);
    CopyPanics(users + [row], sessions, start, AsCreated(row), tables.nextId, tp, now);
    SignInIsNewUser(users, sessions, tables, tp, now);
  }

  /** A new email with a free external id: the user row appended, then the copy and the session. */
  lemma SignInIsNewUser(users: seq<User>, sessions: seq<Session>, tables: Snapshot, tp: ThirdPartyUser, now: Time)
    requires UserByEmail(users, tp.email).None? && !ExternalIdTaken(users, tp.sub)
    ensures var row := NewUserRow(tp, tables.nextId, now);
            SignIn(users, sessions, tables, tp, now)
            == CopyAndOpenSession(users + [row], sessions, WithNextId(tables, tables.nextId + 1), AsCreated(row), tp, now)
  {
    var row := NewUserRow(tp, tables.nextId, now);
    assert NewUser(users, sessions, tables, tp, now)
           == CopyAndOpenSession(users + [row], sessions, WithNextId(tables, tables.nextId + 1), AsCreated(row), tp, now);
  }

  /** The copy and the session fail exactly when the copy panics. */
  lemma CopyPanics(users: seq<User>, sessions: seq<Session>, tables: Snapshot, user: User, id: Id, tp: ThirdPartyUser, now: Time)
    requires user.id == id
    ensures var o := CopyAndOpenSession(users, sessions, tables, user, tp, now);
            && (o.err == Pass || o.err == Fail(Panic))
            && (o.err == Fail(Panic) <==> CopySamples(tables, SampleBooks(tables.books), id, now).None?)
  {
    var copied := CopySamples(tables, SampleBooks(tables.books), id, now);
    assert CopyAndOpenSession(users, sessions, tables, user, tp, now) == OpenSession(users, sessions, tables, user, tp, now, copied);
  }

  /** The copy never panics while every keyword belongs to a pick the id sequence has handed out. */
  lemma SignInNeverPanics(users: seq<User>, sessions: seq<Session>, tables: Snapshot, tp: ThirdPartyUser, now: Time)
    requires forall k :: k in tables.keywords ==> k.pickId < tables.nextId
    ensures SignIn(users, sessions, tables, tp, now).err != Fail(Panic)
  {
    var start := WithNextId(tables, tables.nextId + 1);
    SampleFacts.CopySamplesNeverPanic(start, SampleBooks(start.books), tables.nextId, now);
    SignInFailures(users, sessions, tables, tp, now);
  }

  /** A sign-in inserts at most the one user, and only for an email and an external id no user has. */
  lemma SignInKeepsUsersUnique(users: seq<User>, sessions: seq<Session>, tables: Snapshot, tp: ThirdPartyUser, now: Time)
    requires UniqueEmails(users) && UniqueExternalIds(users)
    ensures var o := SignIn(users, sessions, tables, tp, now);
            UniqueEmails(o.users) && UniqueExternalIds(o.users)
  {
    var known := UserByEmail(users, tp.email);
    if known.None? && !ExternalIdTaken(users, tp.sub) {
      var row := NewUserRow(tp, tables.nextId, now);
      var o := SignIn(users, sessions, tables, tp, now);
      NewUserSignIn(users, sessions, tables, tp, now);
      forall i, j | 0 <= i < j < |o.users|
        ensures o.users[i].email != o.users[j].email && o.users[i].externalId != o.users[j].externalId
      {
        if j == |users| {
          assert users[i] in users;
        }
      }
    }
  }

  /**
   * After a successful sign-in, the session id returned is that of the
   * user's first active session, the one a later sign-in reuses.
   */
  lemma SignInSessionIsActive(users: seq<User>, sessions: seq<Session>, tables: Snapshot, tp: ThirdPartyUser, now: Time)
    requires SessionsOfPastIds(sessions, tables)
    ensures var o := SignIn(users, sessions, tables, tp, now);
            o.err == Pass ==>
              var q := ActiveSessionPos(o.sessions, o.user.id);
              q.Some? && o.sessions[q.value].guid == o.sessionId
  {
    var known := UserByEmail(users, tp.email);
    if known.None? {
      if !ExternalIdTaken(users, tp.sub) {
        NewSessionIsActive(users, sessions, tables, tp, now);
      }
    } else {
      var u := known.value;
      var pos := ActiveSessionPos(sessions, u.id);
      if pos.Some? {
        var g := sessions[pos.value].guid;
        UpdatedSessionStaysFirst(sessions, u.id, g, tp, now);
      } else {
        AppendedSessionIsFirst(sessions, NewSession(tables.nextId, u.id, tp, now));
      }
    }
  }

  /**
   * Signing in again with the same provider identity finds the user, inserts
   * nobody, and hands back the session the first sign-in returned.
   */
  lemma SecondSignInReusesSession(users: seq<User>, sessions: seq<Session>, tables: Snapshot, tp: ThirdPartyUser,
                                  now: Time, later: Time)
    requires SessionsOfPastIds(sessions, tables)
    ensures var o := SignIn(users, sessions, tables, tp, now);
            o.err == Pass ==>
              var o2 := SignIn(o.users, o.sessions, o.tables, tp, later);
              o2.err == Pass && o2.users == o.users && o2.sessionId == o.sessionId
  {
    var o := SignIn(users, sessions, tables, tp, now);
    if o.err == Pass {
      SignInSessionIsActive(users, sessions, tables, tp, now);
      SignInFindsTheUser(users, sessions, tables, tp, now);
      KnownUserSignIn(o.users, o.sessions, o.tables, tp, later);
    }
  }

  /** After a successful sign-in, looking the email up finds the user returned. */
  lemma SignInFindsTheUser(users: seq<User>, sessions: seq<Session>, tables: Snapshot, tp: ThirdPartyUser, now: Time)
    ensures var o := SignIn(users, sessions, tables, tp, now);
            o.err == Pass ==> UserByEmail(o.users, tp.email).Some? && UserByEmail(o.users, tp.email).value.id == o.user.id
  {
    if UserByEmail(users, tp.email).None? && !ExternalIdTaken(users, tp.sub) {
      var row := NewUserRow(tp, tables.nextId, now);
      NewUserSignIn(users, sessions, tables, tp, now);
      FirstWhereIsFirst(users + [row], (u: User) => u.email == tp.email, |users|);
    }
  }

  /** A known email signs in without error, inserts no user, and reuses the user's first active session. */
  lemma KnownUserSignIn(users: seq<User>, sessions: seq<Session>, tables: Snapshot, tp: ThirdPartyUser, now: Time)
    requires UserByEmail(users, tp.email).Some?
    ensures var o := SignIn(users, sessions, tables, tp, now);
            var pos := ActiveSessionPos(sessions, UserByEmail(users, tp.email).value.id);
            && o.err == Pass && o.users == users
            && (pos.Some? ==> o.sessionId == sessions[pos.value].guid)
  {
  }

  /** The session opened for a new user is its first active one: no session has its id yet. */
  lemma NewSessionIsActive(users: seq<User>, sessions: seq<Session>, tables: Snapshot, tp: ThirdPartyUser, now: Time)
    requires SessionsOfPastIds(sessions, tables)
    requires UserByEmail(users, tp.email).None? && !ExternalIdTaken(users, tp.sub)
    ensures var o := SignIn(users, sessions, tables, tp, now);
            o.err == Pass ==>
              var q := ActiveSessionPos(o.sessions, tables.nextId);
              q.Some? && o.sessions[q.value].guid == o.sessionId
  {
    var id := tables.nextId;
    var o := SignIn(users, sessions, tables, tp, now);
    NewUserSignIn(users, sessions, tables, tp, now);
    assert ActiveSessionPos(sessions, id).None? by {
      assert forall k :: 0 <= k < |sessions| ==> sessions[k] in sessions;
    }
    if o.err == Pass {
      AppendedSessionIsFirst(sessions, NewSession(o.sessionId, id, tp, now));
    }
  }

  /** A session appended for a user with no active session becomes that user's active session. */
  lemma AppendedSessionIsFirst(sessions: seq<Session>, s: Session)
    requires IsActive(s)
    ensures ActiveSessionPos(sessions, s.userId).None? ==> ActiveSessionPos(sessions + [s], s.userId) == Some(|sessions|)
    ensures ActiveSessionPos(sessions, s.userId).Some? ==> ActiveSessionPos(sessions + [s], s.userId) == ActiveSessionPos(sessions, s.userId)
  {
    var p := (x: Session) => x.userId == s.userId && IsActive(x);
    var r := sessions + [s];
    var q := ActiveSessionPos(sessions, s.userId);
    assert forall j :: 0 <= j < |sessions| ==> r[j] == sessions[j];
    var k := if q.Some? then q.value else |sessions|;
    assert p(r[k]) && forall j :: 0 <= j < k ==> !p(r[j]);
    FirstWhereIsFirst(r, p, k);
  }

  /** Updating the device of the active session keeps it the user's first active session. */
  lemma UpdatedSessionStaysFirst(sessions: seq<Session>, u: Id, g: Uuid, tp: ThirdPartyUser, now: Time)
    ensures ActiveSessionPos(WithDevice(sessions, g, tp, now), u) == ActiveSessionPos(sessions, u)
  {
    var p := (x: Session) => x.userId == u && IsActive(x);
    var r := WithDevice(sessions, g, tp, now);
    assert forall j :: 0 <= j < |sessions| ==> (p(r[j]) <==> p(sessions[j]));
    var q := ActiveSessionPos(sessions, u);
    if q.Some? {
      FirstWhereIsFirst(r, p, q.value);
    }
  }

  /** `FirstWhere` finds the position of the first row satisfying `p`. */
  lemma FirstWhereIsFirst<T>(s: seq<T>, p: T -> bool, k: nat)
    requires k < |s| && p(s[k]) && forall j :: 0 <= j < k ==> !p(s[j])
    ensures FirstWhere(s, p) == Some(k)
  {
    var r := FirstWhere(s, p);
    assert r.Some?;
    assert !(r.value < k) && !(k < r.value);
  }
}

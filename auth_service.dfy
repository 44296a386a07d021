/**
 * The authentication service (`internal/auth/service.go`): the access and
 * refresh tokens issued for a user, the refresh of an access token, and the
 * sign-in it hands to the user service.
 *
 * Both tokens are HS256 JWTs under the service's secret, carrying the user's
 * guid as `sub`, the email, an expiry, the issue time, the issuer and a
 * `kind`. The access token lasts `jwtExpiresIn` minutes, the refresh token a
 * thousand years.
 */
module AuthService {
  import opened Wrappers
  import opened Uuids
  import opened Domain
  import opened Text
  import opened Tables
  import opened Users
  import opened Jwt
  import opened Calendar

  const Issuer: string := "panta.srvless-api"
  const NanosPerSecond: int := 1_000_000_000
  const NanosPerMinute: int := 60_000_000_000

  /** Go's 64-bit two's-complement wrap-around. */
  function Wrap64(x: int): (r: int)
    ensures MinInt64 <= r <= MaxInt64
    ensures MinInt64 <= x <= MaxInt64 ==> r == x
  {
    (x - MinInt64) % 0x1_0000_0000_0000_0000 + MinInt64
  }

  /**
   * `time.Now().Add(time.Duration(m) * time.Minute)`, in Unix seconds: the
   * duration is a count of nanoseconds in 64 bits, so the product wraps.
   */
  function AccessExpiry(now: Time, m: int): (r: Time)
    ensures now + MinInt64 / NanosPerSecond <= r <= now + MaxInt64 / NanosPerSecond
  {
    now + Wrap64(m * NanosPerMinute) / NanosPerSecond
  }

  /** `time.Now().AddDate(1000, 0, 0)`: the refresh token's expiry. */
  function RefreshExpiry(now: Time): (r: Time)
    ensures r % SecondsPerDay == now % SecondsPerDay
  {
    AddYears(now, 1000)
  }

  /** The claims of a token of the given kind for `user`, expiring at `exp`, issued at `now`. */
  function TokenClaims(user: User, exp: Time, now: Time, kind: string): (c: Claims)
    ensures c.Keys == {"sub", "email", "exp", "iat", "iss", "kind"}
    ensures c["sub"] == Str(Format(user.guid)) && c["email"] == Str(user.email)
    ensures c["exp"] == Num(exp) && c["iat"] == Num(now)
    ensures c["iss"] == Str(Issuer) && c["kind"] == Str(kind)
  {
    map["sub" := Str(Format(user.guid)), "email" := Str(user.email), "exp" := Num(exp), "iat" := Num(now),
        "iss" := Str(Issuer), "kind" := Str(kind)]
  }

  /** The service: the JWT secret, the access-token lifetime in minutes, the signing library and the user service. */
  datatype AuthService = AuthService(jwtSecret: string, jwtExpiresIn: int, lib: Jws, userService: UserService)

  /** `generateAccessToken`: an access token for `user` expiring at `exp`. */
  function GenerateAccessToken(s: AuthService, user: User, exp: Time, now: Time): (r: Result<string, Error>)
    ensures r.Failure? ==> r.error == SigningFailed
    ensures r.Success? ==> s.lib.sign(TokenClaims(user, exp, now, "access"), s.jwtSecret) == Some(r.value)
  {
    var token := s.lib.sign(TokenClaims(user, exp, now, "access"), s.jwtSecret);
    if token.None? then Failure(SigningFailed) else Success(token.value)
  }

  /** `GenerateToken`: an access token and a refresh token for `user`, and when the access token expires. */
  function GenerateToken(s: AuthService, user: User, now: Time): (r: Result<AuthTokenDto, Error>)
    ensures r.Failure? ==> r.error == SigningFailed
    ensures r.Success? ==>
              && r.value.accessTokenExpiresAt == AccessExpiry(now, s.jwtExpiresIn)
              && s.lib.sign(TokenClaims(user, AccessExpiry(now, s.jwtExpiresIn), now, "access"), s.jwtSecret) == Some(r.value.accessToken)
              && s.lib.sign(TokenClaims(user, RefreshExpiry(now), now, "refresh"), s.jwtSecret) == Some(r.value.refreshToken)
  {
    var exp := AccessExpiry(now, s.jwtExpiresIn);
    var access := GenerateAccessToken(s, user, exp, now);
    if access.Failure? then Failure(access.error)
    else
      var refresh := s.lib.sign(TokenClaims(user, RefreshExpiry(now), now, "refresh"), s.jwtSecret);
      if refresh.None? then Failure(SigningFailed)
      else Success(AuthTokenDto(access.value, refresh.value, exp))
  }

  /** The claim `kind` is the string `want`. */
  predicate HasKind(c: Claims, want: string)
  {
    "kind" in c && c["kind"] == Str(want)
  }

  /**
   * `RefreshAccessToken`: a new access token for the user a valid refresh
   * token names; the refresh token itself is handed back unchanged.
   */
  function RefreshAccessToken(s: AuthService, token: string, now: Time): (r: Result<AuthTokenDto, Error>)
    reads s.userService.db
    ensures ParseWithClaims(s.lib, token, s.jwtSecret, now).None? ==> r == Failure(InvalidToken)
    ensures var c := ParseWithClaims(s.lib, token, s.jwtSecret, now);
            c.Some? && !HasKind(c.value, "refresh") ==> r == Failure(InvalidToken)
    ensures var c := ParseWithClaims(s.lib, token, s.jwtSecret, now);
            c.Some? && HasKind(c.value, "refresh") ==>
              if !("sub" in c.value && c.value["sub"].Str? && GoParse(c.value["sub"].s).Some?) then r == Failure(InvalidTokenSubject)
              else if UserByGuid(s.userService.db.users, GoParse(c.value["sub"].s).value).None? then r == Failure(RecordNotFound)
              else r.Success? || r == Failure(SigningFailed)
    ensures r.Success? ==> r.value.refreshToken == token && r.value.accessTokenExpiresAt == AccessExpiry(now, s.jwtExpiresIn)
    ensures r.Success? ==>
              && ParseWithClaims(s.lib, token, s.jwtSecret, now).Some?
              && var c := ParseWithClaims(s.lib, token, s.jwtSecret, now).value;
                 && "sub" in c && c["sub"].Str? && GoParse(c["sub"].s).Some?
                 && var user := UserByGuid(s.userService.db.users, GoParse(c["sub"].s).value);
                    && user.Some?
                    && GenerateAccessToken(s, user.value, AccessExpiry(now, s.jwtExpiresIn), now) == Success(r.value.accessToken)
  {
    var claims := ParseWithClaims(s.lib, token, s.jwtSecret, now);
    if claims.None? then Failure(InvalidToken)
    else if !HasKind(claims.value, "refresh") then Failure(InvalidToken)
    else if !("sub" in claims.value && claims.value["sub"].Str?) then Failure(InvalidTokenSubject)
    else
      var guid := GoParse(claims.value["sub"].s);
      if guid.None? then Failure(InvalidTokenSubject)
      else
        var user := s.userService.GetUserByGuid(guid.value);
        if user.Failure? then Failure(user.error)
        else
          var exp := AccessExpiry(now, s.jwtExpiresIn);
          var access := GenerateAccessToken(s, user.value, exp, now);
          if access.Failure? then Failure(access.error)
          else Success(AuthTokenDto(access.value, token, exp))
  }

  /** `CreateUserIfNotExists`: the user service's sign-in, unchanged. */
  method CreateUserIfNotExists(s: AuthService, tp: ThirdPartyUser, now: Time)
    returns (user: User, sessionId: Uuid, err: Outcome<Error>)
    modifies s.userService.db
    ensures var db := s.userService.db;
            Reached(db.users, db.sessions, db.State(), user, sessionId, err,
                    SignIn(old(db.users), old(db.sessions), old(db.State()), tp, now))
  {
    user, sessionId, err := s.userService.CreateUserIfNotExists(tp, now);
  }

  // ---------------------------------------------------------------- facts

  /** Without overflow the access token lasts exactly `m` minutes. */
  lemma AccessExpiryInMinutes(now: Time, m: int)
    requires MinInt64 <= m * NanosPerMinute <= MaxInt64
    ensures AccessExpiry(now, m) == now + 60 * m
  {
    assert m * NanosPerMinute / NanosPerSecond == 60 * m;
  }

  /** The configured default lifetime, 604800 (a week in seconds), is read as minutes: 420 days. */
  lemma DefaultAccessTokenLasts420Days(now: Time)
    ensures AccessExpiry(now, 604800) == now + 420 * 86400
  {
    AccessExpiryInMinutes(now, 604800);
  }

  /** A lifetime past about 292 years overflows the duration, and the token expires before it is issued. */
  lemma OverlongLifetimeExpiresInThePast(now: Time)
    ensures AccessExpiry(now, 153722868) == now - 9223371994
  {
    assert 153722868 * NanosPerMinute == 9223372080000000000;
    assert Wrap64(9223372080000000000) == -9223371993709551616;
  }

  /** The tokens `GenerateToken` issues decode to the claims of the user: an access one and a refresh one. */
  lemma GeneratedTokensCarryTheUser(s: AuthService, user: User, now: Time)
    requires Sound(s.lib)
    requires GenerateToken(s, user, now).Success?
    ensures var t := GenerateToken(s, user, now).value;
            && s.lib.decode(t.accessToken, s.jwtSecret) == Some(TokenClaims(user, AccessExpiry(now, s.jwtExpiresIn), now, "access"))
            && s.lib.decode(t.refreshToken, s.jwtSecret) == Some(TokenClaims(user, RefreshExpiry(now), now, "refresh"))
  {
    var c1 := TokenClaims(user, AccessExpiry(now, s.jwtExpiresIn), now, "access");
    var c2 := TokenClaims(user, RefreshExpiry(now), now, "refresh");
    assert s.lib.sign(c1, s.jwtSecret).Some? ==> s.lib.decode(s.lib.sign(c1, s.jwtSecret).value, s.jwtSecret) == Some(c1);
    assert s.lib.sign(c2, s.jwtSecret).Some? ==> s.lib.decode(s.lib.sign(c2, s.jwtSecret).value, s.jwtSecret) == Some(c2);
  }

  /**
   * A refresh token, presented before it expires while its user still
   * exists, gives a new access token (unless signing fails) and comes back
   * unchanged.
   */
  lemma RefreshTokenRefreshes(s: AuthService, user: User, now: Time, later: Time)
    requires Sound(s.lib) && IsUuid(user.guid)
    requires GenerateToken(s, user, now).Success?
    requires later < RefreshExpiry(now)
    requires UserByGuid(s.userService.db.users, user.guid).Some?
    ensures var t := GenerateToken(s, user, now).value;
            var r := RefreshAccessToken(s, t.refreshToken, later);
            && (r.Success? || r == Failure(SigningFailed))
            && (r.Success? ==> r.value.refreshToken == t.refreshToken)
            && (r.Success? ==>
                  s.lib.decode(r.value.accessToken, s.jwtSecret)
                    == Some(TokenClaims(UserByGuid(s.userService.db.users, user.guid).value, AccessExpiry(later, s.jwtExpiresIn), later, "access")))
  {
    var t := GenerateToken(s, user, now).value;
    var c := TokenClaims(user, RefreshExpiry(now), now, "refresh");
    GeneratedTokensCarryTheUser(s, user, now);
    assert ParseWithClaims(s.lib, t.refreshToken, s.jwtSecret, later) == Some(c);
    GoParseForms(user.guid, ' ', ' ');
  }

  /** An access token is never accepted as a refresh token. */
  lemma AccessTokenDoesNotRefresh(s: AuthService, user: User, now: Time, later: Time)
    requires Sound(s.lib)
    requires GenerateToken(s, user, now).Success?
    ensures RefreshAccessToken(s, GenerateToken(s, user, now).value.accessToken, later) == Failure(InvalidToken)
  {
    GeneratedTokensCarryTheUser(s, user, now);
  }

  /** Once its thousand years are up, a refresh token is refused. */
  lemma ExpiredRefreshTokenIsRefused(s: AuthService, user: User, now: Time, later: Time)
    requires Sound(s.lib)
    requires GenerateToken(s, user, now).Success?
    requires RefreshExpiry(now) <= later
    ensures RefreshAccessToken(s, GenerateToken(s, user, now).value.refreshToken, later) == Failure(InvalidToken)
  {
    GeneratedTokensCarryTheUser(s, user, now);
  }
}

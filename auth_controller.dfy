/**
 * The authentication controller (`internal/auth/controller.go`): the
 * sign-in request runs validation, provider lookup, token validation, user
 * creation and token generation in that order, and the first error ends it.
 */
module AuthController {
  import opened Wrappers
  import opened Uuids
  import opened Domain
  import opened Tables
  import opened Users
  import opened AuthProvider
  import opened AuthService

  /**
   * The validator tags on `AuthTokenBody`: a token, a provider that is
   * "apple" or "google", the name data when the provider is "apple", and a
   * device.
   */
  predicate ValidBody(b: AuthTokenBody): (ok: bool)
    ensures b.token == "" || b.device.None? ==> !ok
    ensures ok ==> b.provider == Apple || b.provider == Google
    ensures b.provider == Apple && b.data.None? ==> !ok
    ensures b.provider == Google && b.token != "" && b.device.Some? ==> ok
  {
    && b.token != ""
    && (b.provider == Apple || b.provider == Google)
    && (b.provider == Apple ==> b.data.Some?)
    && b.device.Some?
  }

  /** What the request answers once the user is signed in: the sign-in's error, or the user with fresh tokens. */
  function Answer(s: AuthService, user: User, sessionId: Uuid, err: Outcome<Error>, now: Time): (r: Result<AuthUserTokenDto, Error>)
    ensures err.Fail? ==> r == Failure(err.error)
    ensures err.Pass? && GenerateToken(s, user, now).Failure? ==> r == Failure(GenerateToken(s, user, now).error)
    ensures r.Success? ==> r.value.user.guid == user.guid && r.value.user.sessionId == sessionId
                           && GenerateToken(s, user, now) == Success(r.value.auth)
  {
    if err.Fail? then Failure(err.error)
    else
      var token := GenerateToken(s, user, now);
      if token.Failure? then Failure(token.error) else Success(AuthUserTokenDto(UserDtoFromModel(user, sessionId), token.value))
  }

  /**
   * `HandleAuthToken`. The provider handler and the provider's token check
   * are parameters: the handler is `NewProvider` in production, and the
   * check asks Google or Apple.
   */
  method HandleAuthToken(s: AuthService, cfg: AuthConfig, providerHandler: (string, AuthConfig) -> Result<Provider, Error>,
                         validateToken: (Provider, AuthTokenBody) -> Result<ThirdPartyUser, Error>,
                         body: AuthTokenBody, now: Time) returns (r: Result<AuthUserTokenDto, Error>)
    modifies s.userService.db
    ensures !ValidBody(body) ==> r == Failure(ValidationFailed) && unchanged(s.userService.db)
    ensures ValidBody(body) && providerHandler(body.provider, cfg).Failure? ==>
              r == Failure(providerHandler(body.provider, cfg).error) && unchanged(s.userService.db)
    ensures ValidBody(body) && providerHandler(body.provider, cfg).Success?
            && validateToken(providerHandler(body.provider, cfg).value, body).Failure? ==>
              r == Failure(validateToken(providerHandler(body.provider, cfg).value, body).error)
              && unchanged(s.userService.db)
    ensures ValidBody(body) && providerHandler(body.provider, cfg).Success?
            && validateToken(providerHandler(body.provider, cfg).value, body).Success? ==>
              var o := SignIn(old(s.userService.db.users), old(s.userService.db.sessions), old(s.userService.db.State()),
                              validateToken(providerHandler(body.provider, cfg).value, body).value, now);
              && Reached(s.userService.db.users, s.userService.db.sessions, s.userService.db.State(),
                         o.user, o.sessionId, o.err, o)
              && r == Answer(s, o.user, o.sessionId, o.err, now)
  {
    if !ValidBody(body) {
      return Failure(ValidationFailed);
    }
    var provider := providerHandler(body.provider, cfg);
    if provider.Failure? {
      return Failure(provider.error);
    }
    var tp := validateToken(provider.value, body);
    if tp.Failure? {
      return Failure(tp.error);
    }
    var user, sessionId, err := CreateUserIfNotExists(s, tp.value, now);
    r := Answer(s, user, sessionId, err, now);
  }

  /** `HandleRefreshToken`: the service's answer, unchanged. */
  function HandleRefreshToken(s: AuthService, refreshToken: string, now: Time): (r: Result<AuthTokenDto, Error>)
    reads s.userService.db
    ensures r == RefreshAccessToken(s, refreshToken, now)
    ensures r.Success? ==> r.value.refreshToken == refreshToken
  {
    RefreshAccessToken(s, refreshToken, now)
  }

  // ---------------------------------------------------------------- facts

  /** A body that passes validation names a provider the production handler knows. */
  lemma ValidBodyHasKnownProvider(b: AuthTokenBody, cfg: AuthConfig, validatorReady: bool,
                                  appleSecret: AppleConfig -> Option<string>)
    requires ValidBody(b)
    ensures NewProvider(b.provider, cfg, validatorReady, appleSecret) != Failure(InvalidProvider)
  {
    InvalidProviderIffUnknownName(b.provider, cfg, validatorReady, appleSecret);
  }

  /** A body with no device, or with a provider other than "apple" and "google", fails validation. */
  lemma BodiesWithoutDeviceOrKnownProviderAreInvalid(b: AuthTokenBody)
    requires b.device.None? || (b.provider != Apple && b.provider != Google)
    ensures !ValidBody(b)
  {
  }

  /** The sign-in bodies of the controller's tests name made-up providers and carry no device, so they fail validation. */
  lemma ExampleBodiesAreInvalid()
    ensures !ValidBody(AuthTokenBody("example-token", "not-supported-provider", None, None))
    ensures !ValidBody(AuthTokenBody("example-token", "example-provider", None, None))
  {
  }

  /** An Apple sign-in needs the name data; a Google one does not. */
  lemma AppleNeedsData(token: string, d: AuthTokenDevice)
    requires token != ""
    ensures !ValidBody(AuthTokenBody(token, Apple, None, Some(d)))
    ensures ValidBody(AuthTokenBody(token, Google, None, Some(d)))
  {
  }
}

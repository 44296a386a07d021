/**
 * The sign-in provider dispatch (`internal/auth/provider.go`): a provider
 * name picks Google or Apple, built from the authentication configuration;
 * any other name is refused.
 *
 * Building the Google provider asks Google's library for a token validator,
 * and building the Apple provider signs a client secret with the Apple
 * certificate; both are outside calls, so they come in as parameters. The
 * providers' own token checks are the identity providers' business and are
 * not modelled.
 */
module AuthProvider {
  import opened Wrappers
  import opened Domain

  const Google: string := "google"
  const Apple: string := "apple"

  /** The Apple part of the configuration that the sign-in provider uses. */
  datatype AppleConfig = AppleConfig(teamId: string, appBundleId: string, signInCertificate: string,
                                     signInCertificateKey: string)

  /** `config.Auth`, without the JWT part. */
  datatype AuthConfig = AuthConfig(googleClientId: string, apple: AppleConfig)

  /** The two third-party providers, with the state each keeps. */
  datatype Provider =
    | GoogleProvider(clientId: string)
    | AppleProvider(clientId: string, clientSecret: string)

  /** The name a provider answers to. */
  function Name(p: Provider): string
  {
    match p
    case GoogleProvider(_) => Google
    case AppleProvider(_, _) => Apple
  }

  /**
   * `NewProvider`: `validatorReady` says whether Google's token validator
   * could be built, `appleSecret` is the client secret Apple's library signs
   * from the certificate, team and bundle ids (None when it fails).
   */
  function NewProvider(p: string, cfg: AuthConfig, validatorReady: bool,
                       appleSecret: AppleConfig -> Option<string>): (r: Result<Provider, Error>)
    ensures r.Success? ==> Name(r.value) == p
    ensures r.Success? && r.value.GoogleProvider? ==> r.value.clientId == cfg.googleClientId
    ensures r.Success? && r.value.AppleProvider? ==>
              r.value.clientId == cfg.apple.appBundleId && appleSecret(cfg.apple) == Some(r.value.clientSecret)
    ensures r.Failure? ==> if p == Google || p == Apple then r.error == ProviderUnavailable else r.error == InvalidProvider
  {
    if p == Google then
      if validatorReady then Success(GoogleProvider(cfg.googleClientId)) else Failure(ProviderUnavailable)
    else if p == Apple then
      var secret := appleSecret(cfg.apple);
      if secret.None? then Failure(ProviderUnavailable) else Success(AppleProvider(cfg.apple.appBundleId, secret.value))
    else
      Failure(InvalidProvider)
  }

  /** The text of the errors the authentication code raises itself. */
  function Message(e: Error): (m: Option<string>)
    ensures e == InvalidProvider ==> m == Some("provider is not valid")
    ensures e == InvalidToken ==> m == Some("invalid token")
    ensures e == InvalidTokenSubject ==> m == Some("invalid token subject")
  {
    match e
    case InvalidProvider => Some("provider is not valid")
    case InvalidToken => Some("invalid token")
    case InvalidTokenSubject => Some("invalid token subject")
    case _ => None
  }

  /** The dispatch is exact: a known name never yields the invalid-provider error, every other name always does. */
  lemma InvalidProviderIffUnknownName(p: string, cfg: AuthConfig, validatorReady: bool,
                                      appleSecret: AppleConfig -> Option<string>)
    ensures NewProvider(p, cfg, validatorReady, appleSecret) == Failure(InvalidProvider) <==> p != Google && p != Apple
  {
  }

  /**
   * Each of the three errors has its own text, and no other error has one:
   * a client reading the message knows which failure it was.
   */
  lemma MessageInjective(a: Error, b: Error)
    ensures Message(a).Some? <==> a == InvalidProvider || a == InvalidToken || a == InvalidTokenSubject
    ensures Message(a).Some? && Message(a) == Message(b) ==> a == b
  {
  }
}

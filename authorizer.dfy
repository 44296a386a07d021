/**
 * The API Gateway custom authorizer (`functions/CustomAuthorizerFun/main.go`):
 * it turns a request's bearer token into an IAM policy that allows or denies
 * `execute-api:Invoke` on every method and path of the API's stage.
 *
 * Loading the configuration and the database (`auth.NewBaseContext`) comes
 * in as its result, the JWT secret or an error. A Go panic (an ARN with too
 * few fields, a token without a string `sub`) is `Failure(Panic)`.
 */
module Authorizer {
  import opened Wrappers
  import opened Domain
  import opened Text
  import opened Jwt
  import opened AuthService

  datatype Statement = Statement(action: seq<string>, effect: string, resource: seq<string>)

  datatype PolicyDocument = PolicyDocument(version: string, statement: seq<Statement>)

  /** `events.APIGatewayCustomAuthorizerResponse`; the context holds strings only here. */
  datatype AuthorizerResponse = AuthorizerResponse(principalId: string, policyDocument: PolicyDocument,
                                                   context: map<string, string>)

  /** The two fields of `events.APIGatewayCustomAuthorizerRequest` the authorizer reads. */
  datatype AuthorizerRequest = AuthorizerRequest(authorizationToken: string, methodArn: string)

  const Allow: string := "Allow"
  const Deny: string := "Deny"

  /** `generatePolicy`. */
  function GeneratePolicy(principalId: string, effect: string, resource: string): (r: AuthorizerResponse)
    ensures r.principalId == "user" && r.policyDocument.version == "2012-10-17"
    ensures r.policyDocument.statement == [Statement(["execute-api:Invoke"], effect, [resource])]
    ensures r.context.Keys == {"userID"} && r.context["userID"] == principalId
  {
    AuthorizerResponse("user", PolicyDocument("2012-10-17", [Statement(["execute-api:Invoke"], effect, [resource])]),
                       map["userID" := principalId])
  }

  /** The single statement's effect. */
  function Effect(r: AuthorizerResponse): string
  {
    if |r.policyDocument.statement| == 0 then "" else r.policyDocument.statement[0].effect
  }

  /**
   * The resource the policy covers: the method ARN's first five ':'-fields,
   * then its sixth field up to the first '/', then the wildcards for any
   * stage and any method. An ARN with fewer
   * than six fields makes the Go code index out of range.
   */
  function ApiResource(methodArn: string): (r: Option<string>)
    ensures r.None? <==> |Split(methodArn, ':')| < 6
  {
    var tmp := Split(methodArn, ':');
    if |tmp| < 6 then None
    else
      var apiGatewayArnTmp := Split(tmp[5], '/');
      Some(tmp[0] + ":" + tmp[1] + ":" + tmp[2] + ":" + tmp[3] + ":" + tmp[4] + ":" + apiGatewayArnTmp[0] + "/*/*")
  }

  /** `handleRequest`. */
  function HandleRequest(event: AuthorizerRequest, context: Result<string, Error>, lib: Jws, now: Time)
    : (r: Result<AuthorizerResponse, Error>)
    ensures ApiResource(event.methodArn).None? ==> r == Failure(Panic)
    ensures r.Failure? ==> r.error == Panic
    ensures ApiResource(event.methodArn).Some? &&
            (|| context.Failure?
             || ParseWithClaims(lib, TrimPrefix(event.authorizationToken, "Bearer "), context.value, now).None?
             || HasKind(ParseWithClaims(lib, TrimPrefix(event.authorizationToken, "Bearer "), context.value, now).value, "refresh"))
            ==> r == Success(GeneratePolicy("User", Deny, ApiResource(event.methodArn).value))
    ensures ApiResource(event.methodArn).Some? && context.Success? ==>
              var c := ParseWithClaims(lib, TrimPrefix(event.authorizationToken, "Bearer "), context.value, now);
              c.Some? && !HasKind(c.value, "refresh") && !("sub" in c.value && c.value["sub"].Str?) ==> r == Failure(Panic)
    ensures r.Success? ==> Effect(r.value) == Allow || r.value == GeneratePolicy("User", Deny, ApiResource(event.methodArn).value)
    ensures r.Success? && Effect(r.value) == Allow <==>
              && ApiResource(event.methodArn).Some?
              && context.Success?
              && var c := ParseWithClaims(lib, TrimPrefix(event.authorizationToken, "Bearer "), context.value, now);
                 c.Some? && !HasKind(c.value, "refresh") && "sub" in c.value && c.value["sub"].Str?
    ensures r.Success? && Effect(r.value) == Allow ==>
              var c := ParseWithClaims(lib, TrimPrefix(event.authorizationToken, "Bearer "), context.value, now);
              r.value == GeneratePolicy(c.value["sub"].s, Allow, ApiResource(event.methodArn).value)
  {
    var token := TrimPrefix(event.authorizationToken, "Bearer ");
    var resource := ApiResource(event.methodArn);
    if resource.None? then Failure(Panic)
    else if context.Failure? then Success(GeneratePolicy("User", Deny, resource.value))
    else
      var deniedPolicy := GeneratePolicy("User", Deny, resource.value);
      var claims := ParseWithClaims(lib, token, context.value, now);
      if claims.None? then Success(deniedPolicy)
      else if HasKind(claims.value, "refresh") then Success(deniedPolicy)
      else if !("sub" in claims.value && claims.value["sub"].Str?) then Failure(Panic)
      else Success(GeneratePolicy(claims.value["sub"].s, Allow, resource.value))
  }

  // ---------------------------------------------------------------- facts

  /**
   * For a method ARN `arn:aws:execute-api:region:account:api/stage/VERB/path`
   * the policy covers every stage, method and path of the API.
   */
  lemma MethodArnWidensToTheApi(fields: seq<string>, api: string, rest: string)
    requires |fields| == 5 && forall i :: 0 <= i < 5 ==> ':' !in fields[i]
    requires ':' !in api && '/' !in api && ':' !in rest
    ensures ApiResource(Join(fields + [api + "/" + rest], ":")) == Some(Join(fields + [api + "/*/*"], ":"))
  {
    var parts := fields + [api + "/" + rest];
    assert forall i :: 0 <= i < 6 ==> ':' !in parts[i] by {
      forall i | 0 <= i < 6 ensures ':' !in parts[i] {
        if i == 5 {
          assert parts[5] == api + ("/" + rest);
        }
      }
    }
    SplitOfJoin(parts, ':');
    assert parts[5] == api + ("/" + rest);
    SplitPrefix(api, "/" + rest, '/');
    assert Split("/" + rest, '/')[0] == "";
    assert Split(parts[5], '/')[0] == api + "" == api;
    var arn := Join(parts, ":");
    assert Split(arn, ':') == parts;
    JoinSix(parts, ":");
    var wide := fields + [api + "/*/*"];
    JoinSix(wide, ":");
    var head := fields[0] + ":" + fields[1] + ":" + fields[2] + ":" + fields[3] + ":" + fields[4] + ":";
    assert ApiResource(arn) == Some(head + api + "/*/*");
    assert Join(wide, ":") == head + (api + "/*/*") == head + api + "/*/*";
  }

  /** `strings.Join` of six fields, written out. */
  lemma JoinSix(p: seq<string>, sep: string)
    requires |p| == 6
    ensures Join(p, sep) == p[0] + sep + p[1] + sep + p[2] + sep + p[3] + sep + p[4] + sep + p[5]
  {
    assert Join(p[5..], sep) == p[5];
    assert Join(p[4..], sep) == p[4] + sep + p[5] by { assert p[4..][1..] == p[5..]; }
    assert Join(p[3..], sep) == p[3] + sep + (p[4] + sep + p[5]) by { assert p[3..][1..] == p[4..]; }
    assert Join(p[2..], sep) == p[2] + sep + (p[3] + sep + (p[4] + sep + p[5])) by { assert p[2..][1..] == p[3..]; }
    assert Join(p[1..], sep) == p[1] + sep + (p[2] + sep + (p[3] + sep + (p[4] + sep + p[5]))) by { assert p[1..][1..] == p[2..]; }
  }

  /** A "Bearer " access token, signed with the secret and not yet expired, is allowed for its user. */
  lemma AccessTokenIsAllowed(s: AuthService, user: User, now: Time, later: Time, methodArn: string)
    requires Sound(s.lib)
    requires GenerateToken(s, user, now).Success?
    requires later < AccessExpiry(now, s.jwtExpiresIn)
    requires ApiResource(methodArn).Some?
    ensures var t := GenerateToken(s, user, now).value.accessToken;
            HandleRequest(AuthorizerRequest("Bearer " + t, methodArn), Success(s.jwtSecret), s.lib, later)
              == Success(GeneratePolicy(Uuids.Format(user.guid), Allow, ApiResource(methodArn).value))
  {
    var t := GenerateToken(s, user, now).value.accessToken;
    GeneratedTokensCarryTheUser(s, user, now);
    var raw := "Bearer " + t;
    assert raw[..|"Bearer "|] == "Bearer ";
    assert TrimPrefix(raw, "Bearer ") == t;
  }

  /** A refresh token never gets past the authorizer, however fresh. */
  lemma RefreshTokenIsDenied(s: AuthService, user: User, now: Time, later: Time, methodArn: string)
    requires Sound(s.lib)
    requires GenerateToken(s, user, now).Success?
    requires ApiResource(methodArn).Some?
    ensures var t := GenerateToken(s, user, now).value.refreshToken;
            HandleRequest(AuthorizerRequest("Bearer " + t, methodArn), Success(s.jwtSecret), s.lib, later)
              == Success(GeneratePolicy("User", Deny, ApiResource(methodArn).value))
  {
    var t := GenerateToken(s, user, now).value.refreshToken;
    GeneratedTokensCarryTheUser(s, user, now);
    var raw := "Bearer " + t;
    assert raw[..|"Bearer "|] == "Bearer ";
    assert TrimPrefix(raw, "Bearer ") == t;
  }
}

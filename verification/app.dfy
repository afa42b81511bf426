/** The `/auth/check_token` handler (`verify_token`) and the wiring of the
    URL generator from the configuration. The remote token validator is the
    parameter `validate`; the model reports each token handed to it. */
module App {
  import opened PyStr
  import EnvConfig
  import KeycloakUrlGen

  const BearerPrefix: string := "Bearer "
  const InvalidHeaderError: string := "Missing or invalid authorization header"
  const ValidMessage: string := "Token is valid"
  const InvalidTokenError: string := "Token is invalid"

  /** The JSON body: `{'message': ...}` or `{'error': ...}`. */
  datatype Body = Message(message: string) | Error(error: string)

  datatype Response = Response(body: Body, status: int)

  /** The response together with the tokens passed to the validator, in call order. */
  datatype Exchange = Exchange(response: Response, validated: seq<string>)

  /** The header check of the handler: present, non-empty, and starting with
      exactly "Bearer " (case-sensitive). */
  predicate AcceptedHeader(authHeader: Wrappers.Option<string>)
    ensures AcceptedHeader(authHeader) <==>
      authHeader.Some? && OccursAt(authHeader.value, BearerPrefix, 0)
  {
    authHeader.Some? && |authHeader.value| > 0 && StartsWith(authHeader.value, BearerPrefix)
  }

  /** What the handler takes as the token of `header`: a suffix of it free of
      "Bearer ", preceded by an occurrence of "Bearer " when there is one,
      and the whole header when there is none. */
  predicate IsTokenOf(header: string, token: string)
  {
    && |token| <= |header| && token == header[|header| - |token|..]
    && !Contains(token, BearerPrefix)
    && (Contains(header, BearerPrefix) ==>
          |token| + |BearerPrefix| <= |header| &&
          OccursAt(header, BearerPrefix, |header| - |token| - |BearerPrefix|))
    && (!Contains(header, BearerPrefix) ==> token == header)
  }

  /** `auth_header.split("Bearer ")[-1]`. */
  function ExtractToken(header: string): (token: string)
    ensures IsTokenOf(header, token)
  {
    var parts := Split(header, BearerPrefix);
    var n := |parts|;
    if n == 1 then
      parts[0]
    else
      var init := parts[..n - 1];
      assert parts == init + [parts[n - 1]];
      JoinSnoc(BearerPrefix, init, parts[n - 1]);
      var before := Join(BearerPrefix, init);
      assert header == before + BearerPrefix + parts[n - 1];
      assert header[|before|..|before| + |BearerPrefix|] == BearerPrefix;
      assert header[|before| + |BearerPrefix|..] == parts[n - 1];
      parts[n - 1]
  }

  /** Two occurrences of "Bearer " never overlap: its last character, the
      space, appears nowhere else in it. */
  lemma BearerNoOverlap(h: string, i: nat, j: nat)
    requires OccursAt(h, BearerPrefix, i) && i < j < i + |BearerPrefix|
    ensures !OccursAt(h, BearerPrefix, j)
  {
    assert h[i + 6] == ' ';
    assert forall k :: 0 <= k < 6 ==> BearerPrefix[k] != ' ';
    assert j + 6 < |h| ==> h[j..j + 7][i + 6 - j] == h[i + 6];
  }

  /** An occurrence at or after `k` is an occurrence in the suffix from `k`. */
  lemma OccursInSuffix(h: string, pat: string, k: nat, j: nat)
    requires k <= j && OccursAt(h, pat, j)
    ensures OccursAt(h[k..], pat, j - k)
  {
  }

  /** "Bearer " occurs at `q` in `h` and nowhere in the text after it. */
  predicate LastBearerAt(h: string, q: nat)
  {
    OccursAt(h, BearerPrefix, q) && !Contains(h[q + |BearerPrefix|..], BearerPrefix)
  }

  /** At most one occurrence of "Bearer " is followed by text free of it. */
  lemma LastBearerUnique(h: string, p: nat, q: nat)
    requires LastBearerAt(h, p) && LastBearerAt(h, q)
    ensures p == q
  {
    if p < q {
      if q < p + |BearerPrefix| {
        BearerNoOverlap(h, p, q);
      }
      OccursInSuffix(h, BearerPrefix, p + |BearerPrefix|, q);
      assert false;
    } else if q < p {
      if p < q + |BearerPrefix| {
        BearerNoOverlap(h, q, p);
      }
      OccursInSuffix(h, BearerPrefix, q + |BearerPrefix|, p);
      assert false;
    }
  }

  /** In `before + "Bearer " + t`, with no "Bearer " in `t`, the last
      "Bearer " starts right after `before`. */
  lemma BearerAfter(before: string, t: string)
    requires !Contains(t, BearerPrefix)
    ensures LastBearerAt(before + BearerPrefix + t, |before|)
  {
  }

  /** A token of a header that holds "Bearer " follows its last occurrence. */
  lemma TokenFollowsLastBearer(h: string, p: nat, token: string)
    requires LastBearerAt(h, p) && IsTokenOf(h, token)
    ensures token == h[p + |BearerPrefix|..]
  {
    assert OccursAt(h, BearerPrefix, p);
    var q := |h| - |token| - |BearerPrefix|;
    assert h[q + |BearerPrefix|..] == token;
    LastBearerUnique(h, p, q);
  }

  /** The token is the text after the last occurrence of "Bearer ": whenever
      the header splits as `before + "Bearer " + t` with no "Bearer " inside
      `t`, the only token of that header is `t`. */
  lemma TokenAfterLastBearer(before: string, t: string, token: string)
    requires !Contains(t, BearerPrefix)
    requires IsTokenOf(before + BearerPrefix + t, token)
    ensures token == t
  {
    var h := before + BearerPrefix + t;
    BearerAfter(before, t);
    TokenFollowsLastBearer(h, |before|, token);
    assert h[|before| + |BearerPrefix|..] == t;
  }

  /** `ExtractToken` returns the text after the last "Bearer ". */
  lemma ExtractAfterLastBearer(before: string, t: string)
    requires !Contains(t, BearerPrefix)
    ensures ExtractToken(before + BearerPrefix + t) == t
  {
    TokenAfterLastBearer(before, t, ExtractToken(before + BearerPrefix + t));
  }

  /** A header of the form "Bearer " + t yields t; "Bearer " alone yields "". */
  lemma ExtractPlainBearer(t: string)
    requires !Contains(t, BearerPrefix)
    ensures ExtractToken(BearerPrefix + t) == t
    ensures ExtractToken(BearerPrefix) == ""
  {
    ExtractAfterLastBearer("", t);
    assert "" + BearerPrefix + t == BearerPrefix + t;
    ExtractAfterLastBearer("", "");
    assert "" + BearerPrefix + "" == BearerPrefix;
  }

  /** `verify_token()`. */
  function VerifyToken(authHeader: Wrappers.Option<string>, validate: string -> bool): (r: Exchange)
    ensures !AcceptedHeader(authHeader) ==>
      r == Exchange(Response(Error(InvalidHeaderError), 401), [])
    ensures AcceptedHeader(authHeader) ==>
      && r.validated == [ExtractToken(authHeader.value)]
      && r.response.status == 200
      && (validate(ExtractToken(authHeader.value)) ==> r.response.body == Message(ValidMessage))
      && (!validate(ExtractToken(authHeader.value)) ==> r.response.body == Error(InvalidTokenError))
  {
    if authHeader.None? || |authHeader.value| == 0 || !StartsWith(authHeader.value, BearerPrefix) then
      Exchange(Response(Error(InvalidHeaderError), 401), [])
    else
      var token := ExtractToken(authHeader.value);
      if validate(token) then
        Exchange(Response(Message(ValidMessage), 200), [token])
      else
        Exchange(Response(Error(InvalidTokenError), 200), [token])
  }

  /** The status tells only whether the header was accepted: 401 exactly when
      the validator was not consulted, 200 otherwise, whatever its verdict. */
  lemma StatusReflectsHeaderOnly(authHeader: Wrappers.Option<string>, validate: string -> bool)
    ensures VerifyToken(authHeader, validate).response.status == 401 <==> !AcceptedHeader(authHeader)
    ensures VerifyToken(authHeader, validate).response.status == 401 <==>
            |VerifyToken(authHeader, validate).validated| == 0
    ensures VerifyToken(authHeader, validate).response.status in {200, 401}
    ensures AcceptedHeader(authHeader) <==> authHeader.Some? && StartsWith(authHeader.value, BearerPrefix)
  {
  }

  /** For "Bearer " + t with no further "Bearer " in t, the validator sees exactly t. */
  lemma BearerTokenValidated(t: string, validate: string -> bool)
    requires !Contains(t, BearerPrefix)
    ensures VerifyToken(Wrappers.Some(BearerPrefix + t), validate) ==
      Exchange(Response(if validate(t) then Message(ValidMessage) else Error(InvalidTokenError), 200), [t])
  {
    ExtractPlainBearer(t);
    assert StartsWith(BearerPrefix + t, BearerPrefix);
  }

  /** The prefix test is case-sensitive: "bearer " is rejected before validation. */
  lemma LowercaseBearerRejected(t: string, validate: string -> bool)
    ensures VerifyToken(Wrappers.Some("bearer " + t), validate) ==
      Exchange(Response(Error(InvalidHeaderError), 401), [])
  {
  }

  /** The verdict on the extracted token is the only thing the handler takes
      from the validator. */
  lemma OnlyExtractedTokenMatters(authHeader: Wrappers.Option<string>, v1: string -> bool, v2: string -> bool)
    requires AcceptedHeader(authHeader) ==> v1(ExtractToken(authHeader.value)) == v2(ExtractToken(authHeader.value))
    ensures VerifyToken(authHeader, v1) == VerifyToken(authHeader, v2)
  {
  }

  /** The URL generator of the application: host and realm from the
      configuration, scheme left at its default. */
  function UrlGeneratorFor(env: EnvConfig.Environment): (g: KeycloakUrlGen.UrlGenerator)
    ensures g.urlScheme == "http"
    ensures g.realmName == env.realm
    ensures g.baseUrl <= env.keycloakHost
    ensures g == KeycloakUrlGen.New(env.keycloakHost, env.realm, "http")
  {
    KeycloakUrlGen.NewWithDefaultScheme(env.keycloakHost, env.realm)
  }

  /** `KEYCLOAK_URI_SCHEME` is validated but has no effect on any URL. */
  lemma UriSchemeUnused(env: EnvConfig.Environment, scheme: string)
    ensures UrlGeneratorFor(env.(keycloakUriScheme := scheme)) == UrlGeneratorFor(env)
    ensures StartsWith(KeycloakUrlGen.RealmUrl(UrlGeneratorFor(env)), "http://")
  {
  }
}

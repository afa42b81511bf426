/** `KeycloakURLGenerator`: builds the Keycloak endpoint URLs of one realm as
    `scheme://host/realms/<realm>/<segment>/...`, with trailing slashes removed
    from the host and no escaping of the realm or the segments. */
module KeycloakUrlGen {
  import opened PyStr

  /** The generator's three attributes; `baseUrl` is stored already stripped. */
  datatype UrlGenerator = UrlGenerator(baseUrl: string, realmName: string, urlScheme: string)

  /** The scheme used when the caller supplies none. */
  const DefaultScheme: string := "http"

  /** Constructor with an explicit `url_scheme`. */
  function New(baseUrl: string, realmName: string, urlScheme: string): (g: UrlGenerator)
    ensures g.baseUrl <= baseUrl
    ensures |g.baseUrl| == 0 || g.baseUrl[|g.baseUrl| - 1] != '/'
    ensures forall i :: |g.baseUrl| <= i < |baseUrl| ==> baseUrl[i] == '/'
    ensures g.realmName == realmName && g.urlScheme == urlScheme
  {
    UrlGenerator(RStrip(baseUrl, '/'), realmName, urlScheme)
  }

  /** Constructor called without `url_scheme`, which then defaults to "http". */
  function NewWithDefaultScheme(baseUrl: string, realmName: string): (g: UrlGenerator)
    ensures g.urlScheme == "http"
    ensures g == New(baseUrl, realmName, g.urlScheme)
  {
    New(baseUrl, realmName, DefaultScheme)
  }

  /** The realm URL followed by `"/" + s` for each segment `s`, in order:
      a reference reading of what the generated URLs look like. */
  function AppendSegments(url: string, segments: seq<string>): string
  {
    if |segments| == 0 then url
    else AppendSegments(url, segments[..|segments| - 1]) + "/" + segments[|segments| - 1]
  }

  /** `"/".join` over a head part and some segments appends the segments one by one. */
  lemma {:induction false} JoinIsAppend(head: seq<string>, segments: seq<string>)
    requires |head| > 0
    ensures Join("/", head + segments) == AppendSegments(Join("/", head), segments)
    decreases |segments|
  {
    if |segments| > 0 {
      var init := segments[..|segments| - 1];
      var last := segments[|segments| - 1];
      assert head + segments == (head + init) + [last];
      JoinSnoc("/", head + init, last);
      JoinIsAppend(head, init);
    } else {
      assert head + segments == head;
    }
  }

  /** `_build_url(*args)`. */
  function BuildUrl(g: UrlGenerator, segments: seq<string>): (url: string)
    ensures url == AppendSegments(g.urlScheme + "://" + g.baseUrl + "/realms/" + g.realmName, segments)
  {
    var head := [g.urlScheme + "://" + g.baseUrl, "realms", g.realmName];
    JoinIsAppend(head, segments);
    assert head[1..][1..] == [g.realmName];
    assert Join("/", head[1..]) == "realms" + "/" + g.realmName;
    assert Join("/", head) == head[0] + "/" + "realms" + "/" + g.realmName;
    assert "/" + "realms" + "/" == "/realms/";
    assert Join("/", head) == g.urlScheme + "://" + g.baseUrl + "/realms/" + g.realmName;
    Join("/", head + segments)
  }

  /** `realm_url()`. */
  function RealmUrl(g: UrlGenerator): (url: string)
    ensures url == g.urlScheme + "://" + g.baseUrl + "/realms/" + g.realmName
  {
    BuildUrl(g, [])
  }

  /** Appending a path of three segments after the realm URL. */
  lemma AppendThree(url: string, a: string, b: string, c: string)
    ensures AppendSegments(url, [a, b, c]) == url + "/" + a + "/" + b + "/" + c
  {
    assert [a, b, c][..2] == [a, b];
    assert [a, b][..1] == [a];
    assert [a][..0] == [];
    assert AppendSegments(url, [a]) == url + "/" + a;
    assert AppendSegments(url, [a, b]) == url + "/" + a + "/" + b;
  }

  /** Appending a path of four segments after the realm URL. */
  lemma AppendFour(url: string, a: string, b: string, c: string, d: string)
    ensures AppendSegments(url, [a, b, c, d]) == url + "/" + a + "/" + b + "/" + c + "/" + d
  {
    assert [a, b, c, d][..3] == [a, b, c];
    AppendThree(url, a, b, c);
  }

  /** The introspection path, segment by segment and as one literal. */
  lemma IntrospectPath(url: string)
    ensures url + "/" + "protocol" + "/" + "openid-connect" + "/" + "token" + "/" + "introspect"
      == url + "/protocol/openid-connect/token/introspect"
  {
  }

  /** `introspect_url()`. */
  function IntrospectUrl(g: UrlGenerator): (url: string)
    ensures url == RealmUrl(g) + "/protocol/openid-connect/token/introspect"
  {
    AppendFour(RealmUrl(g), "protocol", "openid-connect", "token", "introspect");
    IntrospectPath(RealmUrl(g));
    BuildUrl(g, ["protocol", "openid-connect", "token", "introspect"])
  }

  /** `userinfo_url()`. */
  function UserinfoUrl(g: UrlGenerator): (url: string)
    ensures url == RealmUrl(g) + "/protocol/openid-connect/userinfo"
  {
    AppendThree(RealmUrl(g), "protocol", "openid-connect", "userinfo");
    BuildUrl(g, ["protocol", "openid-connect", "userinfo"])
  }

  /** `certs_url()`. */
  function CertsUrl(g: UrlGenerator): (url: string)
    ensures url == RealmUrl(g) + "/protocol/openid-connect/certs"
  {
    AppendThree(RealmUrl(g), "protocol", "openid-connect", "certs");
    BuildUrl(g, ["protocol", "openid-connect", "certs"])
  }

  /** `logout_url()`. */
  function LogoutUrl(g: UrlGenerator): (url: string)
    ensures url == RealmUrl(g) + "/protocol/openid-connect/logout"
  {
    AppendThree(RealmUrl(g), "protocol", "openid-connect", "logout");
    BuildUrl(g, ["protocol", "openid-connect", "logout"])
  }

  /** The four endpoint URLs, in declaration order. */
  function Endpoints(g: UrlGenerator): seq<string>
  {
    [IntrospectUrl(g), UserinfoUrl(g), CertsUrl(g), LogoutUrl(g)]
  }

  /** Every endpoint lies strictly below the realm URL, and no two endpoints coincide. */
  lemma EndpointsBelowRealmAndDistinct(g: UrlGenerator)
    ensures forall i :: 0 <= i < 4 ==> RealmUrl(g) < Endpoints(g)[i]
    ensures forall i, j :: 0 <= i < j < 4 ==> Endpoints(g)[i] != Endpoints(g)[j]
  {
  }

  /** Appending a segment list one segment longer appends exactly that segment. */
  lemma BuildUrlSnoc(g: UrlGenerator, segments: seq<string>, s: string)
    ensures BuildUrl(g, segments + [s]) == BuildUrl(g, segments) + "/" + s
  {
  }

  /** Hosts that differ only in trailing slashes give the same generator, so
      every URL it produces is the same. */
  lemma TrailingSlashesIgnored(baseUrl: string, slashes: string, realmName: string, urlScheme: string)
    requires forall i :: 0 <= i < |slashes| ==> slashes[i] == '/'
    ensures New(baseUrl + slashes, realmName, urlScheme) == New(baseUrl, realmName, urlScheme)
    ensures forall segments :: BuildUrl(New(baseUrl + slashes, realmName, urlScheme), segments)
                               == BuildUrl(New(baseUrl, realmName, urlScheme), segments)
  {
    RStripIgnoresPadding(baseUrl, slashes, '/');
  }

  /** Without an explicit scheme, every URL, and so every endpoint, starts with "http://". */
  lemma DefaultSchemeIsHttp(baseUrl: string, realmName: string, segments: seq<string>)
    ensures StartsWith(BuildUrl(NewWithDefaultScheme(baseUrl, realmName), segments), "http://")
  {
  }
}

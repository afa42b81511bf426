/** `Environment`: reads the Keycloak configuration from the process
    environment and raises when a required variable is absent or empty. The
    environment is an input map from variable name to value. */
module EnvConfig {
  import opened Wrappers
  import opened PyStr

  type EnvMap = map<string, string>

  /** `os.getenv(name)`. */
  function GetEnv(env: EnvMap, name: string): (r: Option<string>)
    ensures r.None? <==> name !in env
    ensures r.Some? ==> r.value == env[name]
  {
    if name in env then Some(env[name]) else None
  }

  /** Python truthiness of an optional string: present and non-empty. */
  predicate Truthy(v: Option<string>)
    ensures Truthy(v) <==> v != None && v != Some("")
  {
    v.Some? && |v.value| > 0
  }

  /** The five attributes as read, before the required-variable check. */
  datatype Attributes = Attributes(
    clientId: Option<string>,
    keycloakUriScheme: Option<string>,
    keycloakHost: Option<string>,
    realm: Option<string>,
    secretKey: Option<string>)

  /** The four required attributes, named as the class names them. */
  datatype RequiredVar = ClientId | KeycloakUriScheme | KeycloakHost | Realm

  /** The order in which the required attributes are checked and reported. */
  const RequiredVars: seq<RequiredVar> := [ClientId, KeycloakUriScheme, KeycloakHost, Realm]

  /** The attribute name, which is what the error message reports. */
  function AttrName(v: RequiredVar): string
  {
    match v
    case ClientId => "CLIENT_ID"
    case KeycloakUriScheme => "KEYCLOAK_URI_SCHEME"
    case KeycloakHost => "KEYCLOAK_HOST"
    case Realm => "REALM"
  }

  /** The environment variable the attribute is read from. */
  function EnvName(v: RequiredVar): string
  {
    match v
    case ClientId => "CLIENT_ID"
    case KeycloakUriScheme => "KEYCLOAK_URI_SCHEME"
    case KeycloakHost => "KEYCLOAK_HOST"
    case Realm => "KEYCLOAK_REALM"
  }

  /** `getattr(self, var)` for a required attribute. */
  function Attr(a: Attributes, v: RequiredVar): Option<string>
  {
    match v
    case ClientId => a.clientId
    case KeycloakUriScheme => a.keycloakUriScheme
    case KeycloakHost => a.keycloakHost
    case Realm => a.realm
  }

  /** The five `os.getenv` reads of the constructor. */
  function ReadAttributes(env: EnvMap): (a: Attributes)
    ensures forall v: RequiredVar :: Attr(a, v) == GetEnv(env, EnvName(v))
    ensures a.secretKey == GetEnv(env, "SECRET_KEY")
  {
    Attributes(
      GetEnv(env, "CLIENT_ID"),
      GetEnv(env, "KEYCLOAK_URI_SCHEME"),
      GetEnv(env, "KEYCLOAK_HOST"),
      GetEnv(env, "KEYCLOAK_REALM"),
      GetEnv(env, "SECRET_KEY"))
  }

  /** The list comprehension over `vars`: the falsy attributes, in order. */
  function MissingAmong(a: Attributes, vars: seq<RequiredVar>): (missing: seq<RequiredVar>)
    ensures |missing| <= |vars|
    ensures forall i :: 0 <= i < |missing| ==> missing[i] in vars && !Truthy(Attr(a, missing[i]))
    decreases |vars|
  {
    if |vars| == 0 then []
    else
      var rest := MissingAmong(a, vars[1..]);
      if Truthy(Attr(a, vars[0])) then rest else [vars[0]] + rest
  }

  /** The comprehension keeps exactly the listed attributes that are falsy. */
  lemma {:induction false} MissingAmongIff(a: Attributes, vars: seq<RequiredVar>, v: RequiredVar)
    ensures v in MissingAmong(a, vars) <==> v in vars && !Truthy(Attr(a, v))
    decreases |vars|
  {
    if |vars| > 0 {
      MissingAmongIff(a, vars[1..], v);
      assert v in vars <==> v == vars[0] || v in vars[1..] by {
        assert vars == [vars[0]] + vars[1..];
      }
    }
  }

  /** The attribute names of some required attributes, in the same order. */
  function Names(vars: seq<RequiredVar>): (names: seq<string>)
    ensures |names| == |vars|
    ensures forall i :: 0 <= i < |vars| ==> names[i] == AttrName(vars[i])
  {
    seq(|vars|, i requires 0 <= i < |vars| => AttrName(vars[i]))
  }

  /** The falsy required attributes, written out one attribute at a time. */
  function FalsyRequired(a: Attributes): seq<RequiredVar>
  {
    (if Truthy(a.clientId) then [] else [ClientId]) +
    (if Truthy(a.keycloakUriScheme) then [] else [KeycloakUriScheme]) +
    (if Truthy(a.keycloakHost) then [] else [KeycloakHost]) +
    (if Truthy(a.realm) then [] else [Realm])
  }

  /** Filtering the fixed list gives the written-out falsy attributes. */
  lemma MissingAmongRequired(a: Attributes)
    ensures MissingAmong(a, RequiredVars) == FalsyRequired(a)
  {
    assert [Realm][1..] == [];
    assert [KeycloakHost, Realm][1..] == [Realm];
    assert [KeycloakUriScheme, KeycloakHost, Realm][1..] == [KeycloakHost, Realm];
    assert RequiredVars[1..] == [KeycloakUriScheme, KeycloakHost, Realm];
  }

  /** The names of the written-out falsy attributes. */
  lemma NamesOfFalsyRequired(a: Attributes)
    ensures Names(FalsyRequired(a)) ==
      (if Truthy(a.clientId) then [] else ["CLIENT_ID"]) +
      (if Truthy(a.keycloakUriScheme) then [] else ["KEYCLOAK_URI_SCHEME"]) +
      (if Truthy(a.keycloakHost) then [] else ["KEYCLOAK_HOST"]) +
      (if Truthy(a.realm) then [] else ["REALM"])
  {
    var c := if Truthy(a.clientId) then [] else [ClientId];
    var u := if Truthy(a.keycloakUriScheme) then [] else [KeycloakUriScheme];
    var h := if Truthy(a.keycloakHost) then [] else [KeycloakHost];
    var r := if Truthy(a.realm) then [] else [Realm];
    assert Names(c) == (if Truthy(a.clientId) then [] else ["CLIENT_ID"]);
    assert Names(u) == (if Truthy(a.keycloakUriScheme) then [] else ["KEYCLOAK_URI_SCHEME"]);
    assert Names(h) == (if Truthy(a.keycloakHost) then [] else ["KEYCLOAK_HOST"]);
    assert Names(r) == (if Truthy(a.realm) then [] else ["REALM"]);
    NamesAppend(c + u + h, r);
    NamesAppend(c + u, h);
    NamesAppend(c, u);
  }

  /** `missing_vars`: a subsequence of the required names, in the fixed order. */
  function MissingVars(a: Attributes): (names: seq<string>)
    ensures names ==
      (if Truthy(a.clientId) then [] else ["CLIENT_ID"]) +
      (if Truthy(a.keycloakUriScheme) then [] else ["KEYCLOAK_URI_SCHEME"]) +
      (if Truthy(a.keycloakHost) then [] else ["KEYCLOAK_HOST"]) +
      (if Truthy(a.realm) then [] else ["REALM"])
  {
    MissingAmongRequired(a);
    NamesOfFalsyRequired(a);
    Names(MissingAmong(a, RequiredVars))
  }

  /** Naming distributes over concatenation. */
  lemma NamesAppend(x: seq<RequiredVar>, y: seq<RequiredVar>)
    ensures Names(x + y) == Names(x) + Names(y)
  {
  }

  /** A required attribute is listed as missing exactly when it is falsy. */
  lemma MissingIffFalsy(a: Attributes, v: RequiredVar)
    ensures AttrName(v) in MissingVars(a) <==> !Truthy(Attr(a, v))
    ensures |MissingVars(a)| == 0 <==> forall w: RequiredVar :: Truthy(Attr(a, w))
  {
  }

  /** Every attribute name is made of capital letters and underscores. */
  predicate UpperSnake(s: string)
  {
    forall i :: 0 <= i < |s| ==> 'A' <= s[i] <= 'Z' || s[i] == '_'
  }

  /** The text the `KeyError` carries before the list of names. */
  const MissingMessage: string := "Missing required environment variables: "

  /** The configuration object's attributes. `Load` builds one only when the
      four required values are present and non-empty; the type itself does
      not require it. */
  datatype Environment = Environment(
    clientId: string,
    keycloakUriScheme: string,
    keycloakHost: string,
    realm: string,
    secretKey: Option<string>)

  /** `Environment()`: the constructed object, or the `KeyError` message. */
  function Load(env: EnvMap): (r: Result<Environment, string>)
    ensures r.Success? <==> forall v: RequiredVar :: Truthy(GetEnv(env, EnvName(v)))
    ensures r.Success? ==>
      && GetEnv(env, "CLIENT_ID") == Some(r.value.clientId)
      && GetEnv(env, "KEYCLOAK_URI_SCHEME") == Some(r.value.keycloakUriScheme)
      && GetEnv(env, "KEYCLOAK_HOST") == Some(r.value.keycloakHost)
      && GetEnv(env, "KEYCLOAK_REALM") == Some(r.value.realm)
      && GetEnv(env, "SECRET_KEY") == r.value.secretKey
    ensures r.Failure? ==> r.error == MissingMessage + Join(", ", MissingVars(ReadAttributes(env)))
  {
    var a := ReadAttributes(env);
    var missing := MissingVars(a);
    MissingIffFalsy(a, ClientId);
    if |missing| > 0 then
      Failure(MissingMessage + Join(", ", missing))
    else
      assert Truthy(Attr(a, ClientId)) && Truthy(Attr(a, KeycloakUriScheme));
      assert Truthy(Attr(a, KeycloakHost)) && Truthy(Attr(a, Realm));
      Success(Environment(
        a.clientId.value, a.keycloakUriScheme.value, a.keycloakHost.value, a.realm.value, a.secretKey))
  }

  /** `SECRET_KEY` never decides the outcome: whatever it holds, or whether it
      is set at all, construction fails with the same message or succeeds. */
  lemma SecretKeyOptional(env: EnvMap, value: string)
    ensures Load(env["SECRET_KEY" := value]).Success? == Load(env - {"SECRET_KEY"}).Success?
    ensures Load(env["SECRET_KEY" := value]).Failure? ==>
      Load(env["SECRET_KEY" := value]).error == Load(env - {"SECRET_KEY"}).error
  {
  }

  /** A missing `KEYCLOAK_REALM` is reported under the attribute name `REALM`. */
  lemma RealmReportedAsRealm(env: EnvMap)
    requires Truthy(GetEnv(env, "CLIENT_ID"))
    requires Truthy(GetEnv(env, "KEYCLOAK_URI_SCHEME"))
    requires Truthy(GetEnv(env, "KEYCLOAK_HOST"))
    requires "KEYCLOAK_REALM" !in env
    ensures Load(env) == Failure(MissingMessage + "REALM")
  {
  }

  /** Every name in `missing_vars` is made of capital letters and underscores. */
  lemma MissingNamesUpperSnake(a: Attributes)
    ensures forall k :: 0 <= k < |MissingVars(a)| ==> UpperSnake(MissingVars(a)[k])
  {
    var m := MissingAmong(a, RequiredVars);
    assert MissingVars(a) == Names(m);
    forall k | 0 <= k < |m|
      ensures UpperSnake(Names(m)[k])
    {
      AttrNameUpperSnake(m[k]);
    }
  }

  /** Each attribute name is made of capital letters and underscores. */
  lemma AttrNameUpperSnake(v: RequiredVar)
    ensures UpperSnake(AttrName(v))
  {
  }

  /** Names made of capital letters and underscores survive a join at ", "
      followed by a split at ", ". */
  lemma SplitJoinUpperSnake(names: seq<string>)
    requires |names| > 0
    requires forall k :: 0 <= k < |names| ==> UpperSnake(names[k])
    ensures Split(Join(", ", names), ", ") == names
  {
    forall k, i | 0 <= k < |names| && 0 <= i < |names[k]|
      ensures names[k][i] !in ", "
    {
      assert UpperSnake(names[k]);
    }
    SplitJoin(", ", names);
  }

  /** The message lists the missing names and can be read back from it:
      splitting its tail at ", " yields exactly `missing_vars`. */
  lemma {:induction false} MessageListsMissing(env: EnvMap)
    requires Load(env).Failure?
    ensures MissingMessage <= Load(env).error
    ensures Split(Load(env).error[|MissingMessage|..], ", ") == MissingVars(ReadAttributes(env))
  {
    var a := ReadAttributes(env);
    var names := MissingVars(a);
    var m := Load(env).error;
    assert m == MissingMessage + Join(", ", names);
    assert m[|MissingMessage|..] == Join(", ", names);
    MissingIffFalsy(a, ClientId);
    assert !forall v: RequiredVar :: Truthy(Attr(a, v));
    MissingNamesUpperSnake(a);
    SplitJoinUpperSnake(names);
  }
}

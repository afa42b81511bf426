# Keycloak authentication core of bookshop-BE, in Dafny

This project models the logic around Keycloak authentication in the bookshop
backend. It has four small, pure pieces:

- **`KeycloakURLGenerator`** (module `KeycloakUrlGen`). It strips trailing `/`
  from the host. It then builds `scheme://host/realms/<realm>` and appends the
  fixed path segments of the introspect, userinfo, certs and logout endpoints.
- **`Environment`** (module `EnvConfig`). It reads `CLIENT_ID`,
  `KEYCLOAK_URI_SCHEME`, `KEYCLOAK_HOST`, `KEYCLOAK_REALM` and `SECRET_KEY`
  from the process environment. If any of the first four is unset or empty, it
  raises `KeyError`. The message lists the missing attribute names in a fixed
  order.
- **`TokenInfo`** (module `Claims`). This is a read-only view over a decoded
  claim map. It copies out `given_name`, `family_name` and `email`.
- **`verify_token`**, the `/auth/check_token` handler (module `App`). It
  rejects a header that is absent or does not start with `Bearer `, using 401.
  Otherwise it takes the text after the last `"Bearer "` and asks the remote
  validator about it. When the validator returns, the handler answers 200 with
  either a message or an error body.

The module `PyStr` holds the Python string operations these pieces rely on:
`join`, `split`, `rstrip` and `startswith`. Strings are `seq<char>`.

The process environment is an input `map<string, string>`. The remote token
validator is the function parameter `validate: string -> bool`. The handler
returns its response together with the list of tokens it passed to the
validator. That list is how the model states that the validator is consulted
at most once, and only with the extracted token.

## Model

| member | source | states |
|---|---|---|
| PyStr.StartsWith | app/app.py:51 | `startswith` is the case-sensitive prefix test: it holds exactly when the prefix occurs at index 0. |
| PyStr.Join | app/keycloak_url_gen.py:23 | `sep.join([])` is the empty string. Its shape is stated by `JoinLength` and `JoinEnds`; `SplitJoin` shows that `split` inverts it. The same join builds the message at app/environment.py:33. |
| PyStr.JoinLength | app/keycloak_url_gen.py:23 | The joined string is as long as all the parts together plus one separator between each two neighbours. |
| PyStr.JoinEnds | app/environment.py:33 | The joined string starts with the first part and ends with the last part. |
| PyStr.Split | app/app.py:55 | `str.split` with a non-empty separator returns at least one part. Joining the parts with the separator gives back the input. No part contains the separator. |
| PyStr.SplitJoin | app/environment.py:33 | Splitting `sep.join(parts)` at `sep` returns `parts`, provided no part contains a character of `sep`. |
| PyStr.JoinSnoc | app/keycloak_url_gen.py:23 | Joining one more part appends the separator and then that part. |
| PyStr.RStrip | app/keycloak_url_gen.py:10 | `rstrip("/")` returns a prefix of its input that does not end in `/`. Every character it removed is `/`. |
| PyStr.RStripIgnoresPadding | app/keycloak_url_gen.py:10 | Appending any number of `/` to the input does not change the stripped result. |
| KeycloakUrlGen.New | app/keycloak_url_gen.py:2-12 | The stored base URL is the host with every trailing `/` removed, and it never ends in `/`. Realm and scheme are stored unchanged. |
| KeycloakUrlGen.NewWithDefaultScheme | app/keycloak_url_gen.py:2 | Omitting `url_scheme` is the same as passing `"http"`. |
| KeycloakUrlGen.JoinIsAppend | app/keycloak_url_gen.py:23 | `"/".join(head + args)` equals the joined head followed by `"/" + a` for each segment `a`, in order. |
| KeycloakUrlGen.BuildUrl | app/keycloak_url_gen.py:14-23 | `_build_url(*args)` is `scheme + "://" + base + "/realms/" + realm` followed by `"/" + a` for each argument. No segment is escaped. |
| KeycloakUrlGen.BuildUrlSnoc | app/keycloak_url_gen.py:23 | One more argument appends exactly `"/"` and that argument to the URL. |
| KeycloakUrlGen.RealmUrl | app/keycloak_url_gen.py:49-55 | `realm_url()` is `scheme + "://" + base + "/realms/" + realm`. |
| KeycloakUrlGen.IntrospectUrl | app/keycloak_url_gen.py:25-31 | `introspect_url()` is the realm URL followed by `/protocol/openid-connect/token/introspect`. |
| KeycloakUrlGen.UserinfoUrl | app/keycloak_url_gen.py:33-39 | `userinfo_url()` is the realm URL followed by `/protocol/openid-connect/userinfo`. |
| KeycloakUrlGen.CertsUrl | app/keycloak_url_gen.py:41-47 | `certs_url()` is the realm URL followed by `/protocol/openid-connect/certs`. |
| KeycloakUrlGen.LogoutUrl | app/keycloak_url_gen.py:57-63 | `logout_url()` is the realm URL followed by `/protocol/openid-connect/logout`. |
| KeycloakUrlGen.EndpointsBelowRealmAndDistinct | app/keycloak_url_gen.py:23-63 | The realm URL is a strict prefix of each of the four endpoint URLs. The four endpoint URLs are pairwise distinct. |
| KeycloakUrlGen.TrailingSlashesIgnored | app/keycloak_url_gen.py:10-23 | Hosts that differ only in trailing `/` give equal generators, so every URL they build is the same. |
| KeycloakUrlGen.DefaultSchemeIsHttp | app/keycloak_url_gen.py:2-23 | Without an explicit scheme, every built URL starts with `http://`. |
| EnvConfig.GetEnv | app/environment.py:23-27 | `os.getenv(name)` is `None` exactly when the variable is unset. Otherwise it is the variable's value. |
| EnvConfig.Truthy | app/environment.py:31 | `not getattr(self, var)` holds exactly for `None` and the empty string. Every other value is truthy. |
| EnvConfig.ReadAttributes | app/environment.py:23-27 | Each attribute is the `os.getenv` value of its variable. `REALM` is read from `KEYCLOAK_REALM`. |
| EnvConfig.MissingAmong | app/environment.py:30-31 | The comprehension is never longer than the list it filters. Every attribute it keeps is one of the listed attributes and is falsy. |
| EnvConfig.MissingAmongIff | app/environment.py:31 | An attribute is kept by the comprehension exactly when it is listed and falsy. |
| EnvConfig.MissingVars | app/environment.py:30-31 | `missing_vars` is the falsy subsequence of `CLIENT_ID, KEYCLOAK_URI_SCHEME, KEYCLOAK_HOST, REALM`, in that order. |
| EnvConfig.MissingIffFalsy | app/environment.py:31-32 | An attribute is listed exactly when it is unset or empty. The list is empty exactly when all four are set and non-empty. |
| EnvConfig.Load | app/environment.py:16-33 | Construction succeeds iff the four required variables are set and non-empty. On success every attribute equals its variable's value, unchanged. On failure the message is the fixed prefix followed by the missing names joined with `", "`. |
| EnvConfig.SecretKeyOptional | app/environment.py:27-33 | Setting, clearing or emptying `SECRET_KEY` never changes whether construction fails. It never changes the message either. |
| EnvConfig.RealmReportedAsRealm | app/environment.py:26-33 | When only `KEYCLOAK_REALM` is missing, the error names it `REALM`. |
| EnvConfig.MessageListsMissing | app/environment.py:33 | The message starts with the fixed prefix. Splitting the rest at `", "` gives back exactly the missing names. |
| Claims.Get | app/token_info.py:18-28 | `get(k)` is defined for every key. It yields the map's value when `k` is present and `None` when `k` is absent. A present key whose value is null is covered under Left out. |
| Claims.New | app/token_info.py:6-16 | Construction never fails. It stores the map as given. `name`, `surname` and `email` equal `get` of `given_name`, `family_name` and `email`, and each is `None` exactly when that claim is absent. Python also gives `None` for a claim whose value is null; see Left out. |
| Claims.GetDeterminesClaims | app/token_info.py:28 | Two views that answer `get` alike for every key hold the same claim map. |
| Claims.NewRoundTrip | app/token_info.py:13-28 | Views built from different maps differ. Reading a claim back through a constructed view returns what the map holds. |
| App.ExtractToken | app/app.py:55 | The token is admissible for the header (`IsTokenOf`): a suffix of the header that contains no `"Bearer "`. When the header contains `"Bearer "`, one occurrence ends exactly where the token begins. Otherwise the token is the whole header. |
| App.BearerNoOverlap | app/app.py:55 | Two occurrences of `"Bearer "` cannot overlap. |
| App.LastBearerUnique | app/app.py:55 | At most one occurrence of `"Bearer "` is followed by text free of `"Bearer "`. |
| App.TokenFollowsLastBearer | app/app.py:55 | When `"Bearer "` occurs at `p` and not in the text after it, every admissible token of the header is exactly that text. |
| App.TokenAfterLastBearer | app/app.py:55 | For a header `before + "Bearer " + t` where `t` has no `"Bearer "`, the only admissible token is `t`, whatever `before` holds. |
| App.ExtractAfterLastBearer | app/app.py:55 | `split("Bearer ")[-1]` of `before + "Bearer " + t` is exactly `t` when `t` has no `"Bearer "`. |
| App.ExtractPlainBearer | app/app.py:51-55 | `"Bearer " + t` yields `t` when `t` has no `"Bearer "`. `"Bearer "` alone yields the empty token. |
| App.AcceptedHeader | app/app.py:51 | The header passes the check exactly when it is present and `"Bearer "` occurs at index 0. The emptiness test is implied by the prefix test. |
| App.VerifyToken | app/app.py:45-63 | A header that is absent, empty or lacks the `Bearer ` prefix gets 401 with the header error, and the validator is not called. Otherwise the validator is called exactly once, with the extracted token. When the validator returns, the answer is 200 with the valid message if it accepts and the invalid-token error if not. |
| App.StatusReflectsHeaderOnly | app/app.py:48-63 | The status is 401 exactly when the header is rejected, and exactly when the validator was not called. Otherwise, when the validator returns, it is 200. The emptiness test adds nothing to the prefix test. |
| App.BearerTokenValidated | app/app.py:51-63 | For `"Bearer " + t` with no further `"Bearer "`, the validator sees exactly `t` and the answer is 200. |
| App.LowercaseBearerRejected | app/app.py:51-52 | The prefix test is case-sensitive: `"bearer "` gets 401 before any validation. |
| App.OnlyExtractedTokenMatters | app/app.py:55-58 | Two validators that agree on the extracted token yield the same exchange. |
| App.UrlGeneratorFor | app/app.py:24 | The application's generator is `KeycloakURLGenerator(KEYCLOAK_HOST, REALM, "http")`. So its base URL is the configured host with trailing `/` removed, its realm is the configured realm and its scheme is `http`. |
| App.UriSchemeUnused | app/app.py:24 | `KEYCLOAK_URI_SCHEME` has no effect on the generator. The realm URL always starts with `http://`. |

## Left out

- `load_dotenv` and the process environment: the environment is an input map, and `os.getenv` is a map lookup.
- `app/keycloak_validator.py`: it POSTs the token to Keycloak and reads the `active` field of the reply. It is network I/O, so it is the parameter `validate`. At app/app.py:26 it is wired to `certs_url()`, although its parameter is named `introspect_url`. The model records this but does not model it.
- Logging (`logging.debug(token)` and the logging setup): no behaviour.
- Flask routing and `jsonify`: a response is modelled as a body (`message` or `error`) plus a status code.
- `TokenInfo.__str__`: Python's `dict` repr formatting is not modelled.
- `KeyError` itself: the model returns the message passed to it. It does not model the exception type or the quoting Python adds when printing it.
- `getattr` on names other than the four required attributes: the source never does this.
- `str.split` with an empty separator, which raises `ValueError`: `PyStr.Split` requires a non-empty separator. The source only splits at `"Bearer "` and `", "`.
- Claim values: the annotation on `get` says `str`, but the value is whatever the decoder produced, so the claim type is a parameter.
- The other routes of app/app.py (register, login, profile, books, cart), the seeding block, `app/models.py` and `src/app.py`: routing, password hashing and ORM persistence.
- Key handling: the code has no key cache, no key rotation and no local signature, expiry or audience check. Validity is decided by one remote call (app/keycloak_validator.py:22), so the model has none of these.
- App.VerifyToken: a validator that raises is not modelled. `requests.post` can fail on the network, and `response.json()` at app/keycloak_validator.py:23 raises on a non-JSON reply before the status is checked; Flask then answers 500. The parameter `validate` is total, so the model only covers a validator that returns. `App.StatusReflectsHeaderOnly` is limited in the same way.
- Claims.New: a claim whose value is JSON null reads as `None` in Python (`dict.get` cannot tell it from an absent key). Here it reads as `Some` of whatever value the decoder uses for null, because the claim type is a parameter and the model does not single out a null value.
- Claims.Get: for the same reason, a key present with a null value yields `Some` of that value here, where Python's `get` yields `None`.

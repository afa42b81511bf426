/** `TokenInfo`: a read-only view over the claim map of an already decoded
    token. Claim values are whatever the decoder produced, so their type is
    a parameter. */
module Claims {
  import opened Wrappers

  /** The decoded claim map and the three claims copied out at construction. */
  datatype TokenInfo<V> = TokenInfo(
    decodedToken: map<string, V>,
    name: Option<V>,
    surname: Option<V>,
    email: Option<V>)

  /** `get(key)`, that is `dict.get(key)`: the claim, or `None` when absent. */
  function Get<V>(info: TokenInfo<V>, key: string): (r: Option<V>)
    ensures r.Some? <==> key in info.decodedToken
    ensures r.Some? ==> r.value == info.decodedToken[key]
  {
    if key in info.decodedToken then Some(info.decodedToken[key]) else None
  }

  /** The copied fields agree with the claim map they were read from. */
  ghost predicate Consistent<V>(info: TokenInfo<V>)
  {
    && info.name == Get(info, "given_name")
    && info.surname == Get(info, "family_name")
    && info.email == Get(info, "email")
  }

  /** `TokenInfo(decoded_token)`: total, whatever claims are missing. */
  function New<V>(decoded: map<string, V>): (info: TokenInfo<V>)
    ensures info.decodedToken == decoded
    ensures Consistent(info)
    ensures info.name.None? <==> "given_name" !in decoded
    ensures info.surname.None? <==> "family_name" !in decoded
    ensures info.email.None? <==> "email" !in decoded
  {
    var view := TokenInfo(decoded, None, None, None);
    TokenInfo(decoded, Get(view, "given_name"), Get(view, "family_name"), Get(view, "email"))
  }

  /** The accessor loses nothing: two views that answer every key alike
      hold the same claim map. */
  lemma GetDeterminesClaims<V>(a: TokenInfo<V>, b: TokenInfo<V>)
    requires forall key :: Get(a, key) == Get(b, key)
    ensures a.decodedToken == b.decodedToken
  {
    forall key | key in a.decodedToken || key in b.decodedToken
      ensures key in a.decodedToken && key in b.decodedToken
      ensures a.decodedToken[key] == b.decodedToken[key]
    {
      assert Get(a, key) == Get(b, key);
    }
  }

  /** Construction is injective in the claim map, and reading a claim back
      through the constructed view returns what the map holds. */
  lemma NewRoundTrip<V>(d1: map<string, V>, d2: map<string, V>, key: string)
    ensures New(d1) == New(d2) <==> d1 == d2
    ensures key in d1 ==> Get(New(d1), key) == Some(d1[key])
    ensures key !in d1 ==> Get(New(d1), key) == None
  {
  }
}

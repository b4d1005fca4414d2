/**
 * What the two Tuya handlers share: the canonical query string that goes
 * into the signed request path, the reading of a Tuya reply, and the cached
 * access token. The HTTP call itself and its HMAC signature are not
 * modelled; a reply is given as the decoded JSON body, or `None` when the
 * request raised.
 */
module TuyaApi {
  import opened Text
  import opened Values
  import opened Sorting
  import opened UrlEncoding

  /** A query dict in its insertion order. */
  type Query = seq<(string, Value)>

  /** `v is not None and str(v) != ""`: `str` gives the empty text only for
      the empty string. */
  predicate Kept(v: Value)
  {
    v != Null && v != Str("")
  }

  function PairKey<T>(p: (string, T)): string
  {
    p.0
  }

  /** The dict comprehension of `_build_canonical_query`: the pairs whose
      value is kept, in their order. */
  function Cleaned(q: Query): (r: Query)
    ensures |r| <= |q|
    ensures forall p :: p in r <==> p in q && Kept(p.1)
  {
    if |q| == 0 then []
    else (if Kept(q[0].1) then [q[0]] else []) + Cleaned(q[1..])
  }

  /** The texts `urlencode(..., doseq=True)` writes for one value: one per
      element of a list, otherwise `str(v)`. */
  function Texts(v: Value, repr: Repr): (r: seq<string>)
    ensures !v.List? ==> r == [PyStr(v, repr)]
    ensures v.List? ==> |r| == |v.items| && forall i :: 0 <= i < |r| ==> r[i] == PyStr(v.items[i], repr)
  {
    if v.List? then seq(|v.items|, i requires 0 <= i < |v.items| => PyStr(v.items[i], repr))
    else [PyStr(v, repr)]
  }

  function KeyedTexts(k: string, texts: seq<string>): (r: seq<(string, string)>)
    ensures |r| == |texts|
    ensures forall i :: 0 <= i < |r| ==> r[i] == (k, texts[i])
  {
    seq(|texts|, i requires 0 <= i < |texts| => (k, texts[i]))
  }

  /** The key/text pairs `urlencode` writes, in order. */
  function Expand(ps: Query, repr: Repr): seq<(string, string)>
  {
    if |ps| == 0 then [] else KeyedTexts(ps[0].0, Texts(ps[0].1, repr)) + Expand(ps[1..], repr)
  }

  function EncodePair(p: (string, string)): string
  {
    QuotePlus(p.0) + "=" + QuotePlus(p.1)
  }

  function EncodePairs(ps: seq<(string, string)>): (r: seq<string>)
    ensures |r| == |ps|
    ensures forall i :: 0 <= i < |ps| ==> r[i] == EncodePair(ps[i])
  {
    seq(|ps|, i requires 0 <= i < |ps| => EncodePair(ps[i]))
  }

  /** `_build_canonical_query(query)` (the same in both Tuya handlers): drop
      `None` and empty values, sort the pairs by key, and `urlencode` them.
      The pairs of a dict have distinct keys, so the sort never compares two
      values. A dict value, which `urlencode` would expand into its keys, is
      outside the model. */
  function CanonicalQuery(q: Query, repr: Repr): (r: string)
    requires forall i :: 0 <= i < |q| ==> !q[i].1.Dict?
    ensures |q| == 0 ==> r == ""
  {
    if |q| == 0 then ""
    else Join(EncodePairs(Expand(SortBy(Cleaned(q), PairKey), repr)), "&")
  }

  // ---- Reading a query string back ----

  /** `key=value` with both sides unquoted. */
  function ParsePair(part: string): Option<(string, string)>
  {
    var kv := Split(part, '=');
    if |kv| != 2 then None
    else
      match (UnquotePlus(kv[0]), UnquotePlus(kv[1]))
      case (Some(k), Some(v)) => Some((k, v))
      case _ => None
  }

  function ParsePairs(parts: seq<string>): Option<seq<(string, string)>>
  {
    if |parts| == 0 then Some([])
    else
      match (ParsePair(parts[0]), ParsePairs(parts[1..]))
      case (Some(p), Some(rest)) => Some([p] + rest)
      case _ => None
  }

  /** The pairs of a query string, in order. */
  function ParseQuery(s: string): Option<seq<(string, string)>>
  {
    if s == "" then Some([]) else ParsePairs(Split(s, '&'))
  }

  lemma QuotedHasNoSeparator(s: string)
    ensures forall i :: 0 <= i < |QuotePlus(s)| ==> QuotePlus(s)[i] != '&' && QuotePlus(s)[i] != '='
  {
  }

  lemma ParsePairRoundTrip(p: (string, string))
    ensures ParsePair(EncodePair(p)) == Some(p)
    ensures forall i :: 0 <= i < |EncodePair(p)| ==> EncodePair(p)[i] != '&'
    ensures |EncodePair(p)| > 0
  {
    var k := QuotePlus(p.0);
    var v := QuotePlus(p.1);
    QuotedHasNoSeparator(p.0);
    QuotedHasNoSeparator(p.1);
    assert Join([k, v], "=") == EncodePair(p);
    SplitJoin([k, v], '=');
    QuotePlusRoundTrip(p.0);
    QuotePlusRoundTrip(p.1);
    var e := EncodePair(p);
    assert forall i :: 0 <= i < |e| ==> e[i] != '&' by {
      forall i | 0 <= i < |e| ensures e[i] != '&' {
        if i < |k| {
          assert e[i] == k[i];
        } else if i > |k| {
          assert e[i] == v[i - |k| - 1];
        }
      }
    }
  }

  lemma {:induction false} ParsePairsRoundTrip(ps: seq<(string, string)>)
    ensures ParsePairs(EncodePairs(ps)) == Some(ps)
  {
    if |ps| > 0 {
      ParsePairRoundTrip(ps[0]);
      assert EncodePairs(ps)[1..] == EncodePairs(ps[1..]);
      ParsePairsRoundTrip(ps[1..]);
      assert ps == [ps[0]] + ps[1..];
    }
  }

  /** Reading the canonical query string back gives the kept pairs, sorted
      by key, each list value spread over one pair per element. */
  lemma CanonicalQueryRoundTrip(q: Query, repr: Repr)
    requires forall i :: 0 <= i < |q| ==> !q[i].1.Dict?
    ensures ParseQuery(CanonicalQuery(q, repr)) == Some(Expand(SortBy(Cleaned(q), PairKey), repr))
  {
    var ps := Expand(SortBy(Cleaned(q), PairKey), repr);
    var parts := EncodePairs(ps);
    if |q| == 0 {
      assert Cleaned(q) == [];
    } else if |ps| == 0 {
      ParsePairsRoundTrip(ps);
    } else {
      forall j | 0 <= j < |parts|
        ensures |parts[j]| > 0
        ensures forall i :: 0 <= i < |parts[j]| ==> parts[j][i] != '&'
      {
        ParsePairRoundTrip(ps[j]);
      }
      SplitJoin(parts, '&');
      JoinStartsWith(parts, "&");
      ParsePairsRoundTrip(ps);
    }
  }

  // ---- Order of the written pairs ----

  /** Every pair written for `ps` carries the key of one of its entries. */
  lemma {:induction false} ExpandKeys(ps: Query, repr: Repr, j: int)
    requires 0 <= j < |Expand(ps, repr)|
    ensures exists i :: 0 <= i < |ps| && Expand(ps, repr)[j].0 == ps[i].0
  {
    var head := KeyedTexts(ps[0].0, Texts(ps[0].1, repr));
    var tail := Expand(ps[1..], repr);
    assert Expand(ps, repr) == head + tail;
    if j < |head| {
      assert Expand(ps, repr)[j].0 == ps[0].0;
    } else {
      assert Expand(ps, repr)[j] == tail[j - |head|];
      ExpandKeys(ps[1..], repr, j - |head|);
      var i :| 0 <= i < |ps[1..]| && tail[j - |head|].0 == ps[1..][i].0;
      assert ps[1..][i] == ps[i + 1];
      assert Expand(ps, repr)[j].0 == ps[i + 1].0;
    }
  }

  /** Pairs sorted by key stay sorted by key once written out. */
  lemma {:induction false} ExpandSorted(ps: Query, repr: Repr)
    requires SortedBy(ps, PairKey)
    ensures SortedBy(Expand(ps, repr), PairKey)
  {
    if |ps| > 0 {
      var head := KeyedTexts(ps[0].0, Texts(ps[0].1, repr));
      var tail := Expand(ps[1..], repr);
      assert SortedBy(ps[1..], PairKey) by {
        forall i, j | 0 <= i < j < |ps[1..]|
          ensures LexLessEq(PairKey(ps[1..][i]), PairKey(ps[1..][j]))
        {
          assert ps[1..][i] == ps[i + 1] && ps[1..][j] == ps[j + 1];
        }
      }
      ExpandSorted(ps[1..], repr);
      var e := head + tail;
      forall i, j | 0 <= i < j < |e|
        ensures LexLessEq(PairKey(e[i]), PairKey(e[j]))
      {
        if j < |head| {
          LexReflexive(ps[0].0);
        } else if i >= |head| {
          assert e[i] == tail[i - |head|] && e[j] == tail[j - |head|];
        } else {
          assert e[j] == tail[j - |head|];
          ExpandKeys(ps[1..], repr, j - |head|);
          var m :| 0 <= m < |ps[1..]| && tail[j - |head|].0 == ps[1..][m].0;
          assert ps[1..][m] == ps[m + 1];
        }
      }
    }
  }

  /** The keys of the canonical query string come out in ascending order. */
  lemma CanonicalQuerySorted(q: Query, repr: Repr)
    requires forall i :: 0 <= i < |q| ==> !q[i].1.Dict?
    ensures ParseQuery(CanonicalQuery(q, repr)).Some?
    ensures SortedBy(ParseQuery(CanonicalQuery(q, repr)).value, PairKey)
  {
    CanonicalQueryRoundTrip(q, repr);
    ExpandSorted(SortBy(Cleaned(q), PairKey), repr);
  }

  /** With scalar values only, every kept pair is written exactly once as
      `key=str(value)`. */
  lemma {:induction false} ExpandScalars(ps: Query, repr: Repr)
    requires forall i :: 0 <= i < |ps| ==> !ps[i].1.List?
    ensures |Expand(ps, repr)| == |ps|
    ensures forall i :: 0 <= i < |ps| ==> Expand(ps, repr)[i] == (ps[i].0, PyStr(ps[i].1, repr))
  {
    if |ps| > 0 {
      ExpandScalars(ps[1..], repr);
    }
  }

  // ---- Replies and the access token ----

  /** What `tuya_request` hands back: the decoded body, unless credentials
      are missing (it raises before sending), the request raised, or the
      body says `"success": false`. */
  function TuyaResponse(credentialsSet: bool, reply: Option<Value>): (r: Option<Value>)
    ensures r.Some? ==> credentialsSet && reply == r
    ensures r.Some? <==> (&& credentialsSet && reply.Some?
                          && !(reply.value.Dict? && Get(reply.value.fields, "success") == Bool(false)))
  {
    if !credentialsSet || reply.None? then None
    else if reply.value.Dict? && Get(reply.value.fields, "success") == Bool(false) then None
    else reply
  }

  /** `data.get("result") or {}` when `data` is an object; `None` where a
      non-object makes `.get` raise. */
  function ResultObject(data: Value): (r: Option<map<string, Value>>)
    ensures data.Dict? && !Truthy(Get(data.fields, "result")) ==> r == Some(map[])
    ensures data.Dict? && Get(data.fields, "result").Dict? ==> r == Some(Get(data.fields, "result").fields)
    ensures r.Some? ==> data.Dict?
    // a truthy `result` that is not an object makes `.get` raise
    ensures r.Some? <==> data.Dict? && (!Truthy(Get(data.fields, "result")) || Get(data.fields, "result").Dict?)
  {
    if !data.Dict? then None
    else
      var result := Or(Get(data.fields, "result"), Dict(map[]));
      if result.Dict? then Some(result.fields) else None
  }

  /** The module-level `_TUYA_TOKEN_CACHE`: the token (`None` at start) and
      the `time.time()` instant it stops being used. */
  datatype TokenCache = TokenCache(token: Value, expiresAt: real)

  const InitialTokenCache := TokenCache(Null, 0.0)

  const DefaultExpireSeconds := 7200

  /** Seconds the cache gives up before the token's own expiry. */
  const ExpiryMargin := 60

  predicate Live(cache: TokenCache, now: real)
  {
    Truthy(cache.token) && now < cache.expiresAt
  }

  /** The outcome of `get_tuya_token`: the token or a failure, the cache
      afterwards, and whether a token request went out. */
  datatype TokenResult = TokenResult(token: Option<Value>, cache: TokenCache, requested: bool)

  /** `get_tuya_token()` at time `now`, with `reply` the answer the token
      request would get. */
  function GetTuyaToken(cache: TokenCache, now: real, credentialsSet: bool, reply: Option<Value>): (r: TokenResult)
    // a live cached token is used without a request
    ensures Live(cache, now) ==> r == TokenResult(Some(cache.token), cache, false)
    ensures !Live(cache, now) ==> r.requested == credentialsSet
    // a failure leaves the cache as it was
    ensures r.token.None? ==> r.cache == cache
    // a fresh token is stored with its expiry brought forward by the margin
    ensures r.token.Some? && !Live(cache, now) ==>
              && TuyaResponse(credentialsSet, reply).Some?
              && ResultObject(TuyaResponse(credentialsSet, reply).value).Some?
              && var result := ResultObject(TuyaResponse(credentialsSet, reply).value).value;
                 && r.token.value == Get(result, "access_token")
                 && ToInt(GetOr(result, "expire_time", Int(DefaultExpireSeconds))).Some?
                 && r.cache == TokenCache(r.token.value, now + (ToInt(GetOr(result, "expire_time", Int(DefaultExpireSeconds))).value - ExpiryMargin) as real)
    ensures r.token.Some? ==> Truthy(r.token.value) && r.token.value == r.cache.token
    // an accepted reply with a truthy token and a readable lifetime is cached and returned
    ensures (&& !Live(cache, now)
             && TuyaResponse(credentialsSet, reply).Some?
             && ResultObject(TuyaResponse(credentialsSet, reply).value).Some?
             && var result := ResultObject(TuyaResponse(credentialsSet, reply).value).value;
                && Truthy(Get(result, "access_token"))
                && ToInt(GetOr(result, "expire_time", Int(DefaultExpireSeconds))).Some?) ==>
              r.token == Some(Get(ResultObject(TuyaResponse(credentialsSet, reply).value).value, "access_token"))
  {
    if Live(cache, now) then TokenResult(Some(cache.token), cache, false)
    else
      var failed := TokenResult(None, cache, credentialsSet);
      match TuyaResponse(credentialsSet, reply)
      case None => failed
      case Some(data) =>
        match ResultObject(data)
        case None => failed
        case Some(result) =>
          var token := Get(result, "access_token");
          match ToInt(GetOr(result, "expire_time", Int(DefaultExpireSeconds)))
          case None => failed
          case Some(expireSeconds) =>
            if !Truthy(token) then failed
            else TokenResult(Some(token), TokenCache(token, now + (expireSeconds - ExpiryMargin) as real), true)
  }

  /** A reply without `access_token` is an error and leaves the cache alone. */
  lemma MissingTokenFails(cache: TokenCache, now: real, result: map<string, Value>)
    requires !Live(cache, now)
    requires "access_token" !in result
    ensures GetTuyaToken(cache, now, true, Some(Dict(map["result" := Dict(result)]))) == TokenResult(None, cache, true)
  {
    var data := Dict(map["result" := Dict(result)]);
    assert Get(data.fields, "success") == Null;
  }

  /** Once a token has been fetched, every later call before its cached
      expiry returns it without a request, whatever the server would say. */
  lemma TokenReusedUntilExpiry(cache: TokenCache, now: real, credentialsSet: bool, reply: Option<Value>,
                               later: real, laterReply: Option<Value>)
    requires GetTuyaToken(cache, now, credentialsSet, reply).token.Some?
    requires now <= later < GetTuyaToken(cache, now, credentialsSet, reply).cache.expiresAt
    ensures
      var first := GetTuyaToken(cache, now, credentialsSet, reply);
      GetTuyaToken(first.cache, later, credentialsSet, laterReply) == TokenResult(first.token, first.cache, false)
  {
  }

  /** At a cold start, a token is fetched and kept for its lifetime less the
      margin. */
  lemma ColdStartFetchesToken(now: real, token: string, expireTime: int)
    requires token != ""
    ensures
      var reply := Some(Dict(map["result" := Dict(map["access_token" := Str(token), "expire_time" := Int(expireTime)])]));
      GetTuyaToken(InitialTokenCache, now, true, reply)
      == TokenResult(Some(Str(token)), TokenCache(Str(token), now + (expireTime - ExpiryMargin) as real), true)
  {
    var data := Dict(map["result" := Dict(map["access_token" := Str(token), "expire_time" := Int(expireTime)])]);
    assert Get(data.fields, "success") == Null;
    var result := map["access_token" := Str(token), "expire_time" := Int(expireTime)];
    assert GetOr(result, "expire_time", Int(DefaultExpireSeconds)) == Int(expireTime);
  }

  /** The default lifetime: a reply without `expire_time` keeps the token for
      7200 - 60 seconds. */
  lemma DefaultLifetime(cache: TokenCache, now: real, token: string)
    requires !Live(cache, now)
    requires token != ""
    ensures
      var reply := Some(Dict(map["result" := Dict(map["access_token" := Str(token)])]));
      GetTuyaToken(cache, now, true, reply).cache == TokenCache(Str(token), now + 7140.0)
  {
    var data := Dict(map["result" := Dict(map["access_token" := Str(token)])]);
    assert Get(data.fields, "success") == Null;
  }
}

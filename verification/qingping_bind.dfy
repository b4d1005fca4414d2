/**
 * The Qingping binding: takes a device token and a product id from the
 * dashboard, gets an OAuth access token (client credentials, cached until
 * sixty seconds before it expires), binds the device through the Qingping
 * API and records the bound device under its MAC in the devices table.
 *
 * The two HTTP exchanges are given as their outcomes; `now` is
 * `int(time.time())`.
 */
module QingpingBind {
  import opened Text
  import opened Values
  import opened ApiGateway

  /** The outcome of one `requests.post(...)`, `raise_for_status()` and
      `json()`: an HTTP error status, any other exception, or the JSON body. */
  datatype HttpReply = HttpError | Raised | Json(body: Value)

  /** Success, or the status the handler answers with. */
  datatype Outcome<T> = Ok(value: T) | Err(status: int)

  /** The status an exception is answered with: 502 for an HTTP error status
      from the Qingping API, 500 for anything else. */
  const BadGateway := 502
  const ServerError := 500

  // ---- Access token ----

  /** The module-level `_TOKEN_CACHE`. */
  datatype AccessCache = AccessCache(token: Value, expiresAt: int)

  const InitialAccessCache := AccessCache(Null, 0)

  /** Seconds the cache gives up before the token's own expiry. */
  const RefreshMargin := 60

  predicate Live(cache: AccessCache, now: int)
  {
    Truthy(cache.token) && now < cache.expiresAt
  }

  /** The outcome of `get_qingping_access_token`, the cache afterwards, and
      whether the token endpoint was called. */
  datatype AccessResult = AccessResult(token: Outcome<Value>, cache: AccessCache, requested: bool)

  /** `get_qingping_access_token()` at second `now`, with `reply` what the
      token request would get. */
  function GetAccessToken(cache: AccessCache, now: int, credentialsSet: bool, reply: HttpReply): (r: AccessResult)
    ensures Live(cache, now) ==> r == AccessResult(Ok(cache.token), cache, false)
    // missing credentials fail before any request
    ensures !Live(cache, now) && !credentialsSet ==> r == AccessResult(Err(ServerError), cache, false)
    ensures !Live(cache, now) && credentialsSet ==> r.requested
    ensures r.token.Err? ==> r.cache == cache
    ensures r.token.Err? ==> r.token.status == (if r.requested && reply.HttpError? then BadGateway else ServerError)
    ensures r.token.Ok? && !Live(cache, now) ==>
              && reply.Json? && reply.body.Dict?
              && r.token.value == Get(reply.body.fields, "access_token")
              && ToInt(GetOr(reply.body.fields, "expires_in", Int(0))).Some?
              && var expiresIn := ToInt(GetOr(reply.body.fields, "expires_in", Int(0))).value;
                 && expiresIn > 0
                 && r.cache == AccessCache(r.token.value, now + expiresIn - RefreshMargin)
    ensures r.token.Ok? ==> Truthy(r.token.value) && r.cache.token == r.token.value
    // a reply with a truthy token and a positive lifetime is cached and returned
    ensures (&& !Live(cache, now) && credentialsSet && reply.Json? && reply.body.Dict?
             && Truthy(Get(reply.body.fields, "access_token"))
             && ToInt(GetOr(reply.body.fields, "expires_in", Int(0))).Some?
             && ToInt(GetOr(reply.body.fields, "expires_in", Int(0))).value > 0) ==>
              r.token == Ok(Get(reply.body.fields, "access_token"))
    // a reply that is not an object, or lacks a token or a positive lifetime, fails with 500
    ensures (&& !Live(cache, now) && credentialsSet && reply.Json?
             && (|| !reply.body.Dict?
                 || !Truthy(Get(reply.body.fields, "access_token"))
                 || ToInt(GetOr(reply.body.fields, "expires_in", Int(0))).None?
                 || ToInt(GetOr(reply.body.fields, "expires_in", Int(0))).value <= 0)) ==>
              r == AccessResult(Err(ServerError), cache, true)
  {
    if Live(cache, now) then AccessResult(Ok(cache.token), cache, false)
    else if !credentialsSet then AccessResult(Err(ServerError), cache, false)
    else
      match reply
      case HttpError => AccessResult(Err(BadGateway), cache, true)
      case Raised => AccessResult(Err(ServerError), cache, true)
      case Json(resp) =>
        if !resp.Dict? then AccessResult(Err(ServerError), cache, true)
        else
          var token := Get(resp.fields, "access_token");
          match ToInt(GetOr(resp.fields, "expires_in", Int(0)))
          case None => AccessResult(Err(ServerError), cache, true)
          case Some(expiresIn) =>
            if !Truthy(token) || expiresIn <= 0 then AccessResult(Err(ServerError), cache, true)
            else AccessResult(Ok(token), AccessCache(token, now + expiresIn - RefreshMargin), true)
  }

  /** At a cold start, a two-hour token is fetched and kept for two hours
      less the margin. */
  lemma ColdStartFetchesToken(now: int, token: string)
    requires token != ""
    ensures
      var reply := Json(Dict(map["access_token" := Str(token), "expires_in" := Int(7200)]));
      GetAccessToken(InitialAccessCache, now, true, reply)
      == AccessResult(Ok(Str(token)), AccessCache(Str(token), now + 7140), true)
  {
    var fields := map["access_token" := Str(token), "expires_in" := Int(7200)];
    assert GetOr(fields, "expires_in", Int(0)) == Int(7200);
  }

  /** A fetched token is reused without a request until its cached expiry. */
  lemma AccessTokenReused(cache: AccessCache, now: int, credentialsSet: bool, reply: HttpReply,
                          later: int, laterReply: HttpReply)
    requires GetAccessToken(cache, now, credentialsSet, reply).token.Ok?
    requires later < GetAccessToken(cache, now, credentialsSet, reply).cache.expiresAt
    ensures
      var first := GetAccessToken(cache, now, credentialsSet, reply);
      GetAccessToken(first.cache, later, credentialsSet, laterReply) == AccessResult(first.token, first.cache, false)
  {
  }

  /** A token that lives sixty seconds or less is stored already expired:
      the next call, even in the same second, asks for a new one. */
  lemma ShortLivedTokenNotReused(cache: AccessCache, now: int, token: string, expiresIn: int, laterReply: HttpReply)
    requires !Live(cache, now) && token != ""
    requires 0 < expiresIn <= RefreshMargin
    ensures
      var reply := Json(Dict(map["access_token" := Str(token), "expires_in" := Int(expiresIn)]));
      var first := GetAccessToken(cache, now, true, reply);
      && first.token == Ok(Str(token))
      && GetAccessToken(first.cache, now, true, laterReply).requested
  {
    var fields := map["access_token" := Str(token), "expires_in" := Int(expiresIn)];
    assert GetOr(fields, "expires_in", Int(0)) == Int(expiresIn);
  }

  // ---- Saving the bound device ----

  /** The devices table, keyed by the `sensor_mac` the bind reply reports. */
  type DeviceTable = map<Value, map<string, Value>>

  /** `(result or {}).get("info", {}) or {}`; `None` where `.get` raises on a
      value that is not an object. */
  function BindInfo(result: Value): (r: Option<map<string, Value>>)
    ensures !Truthy(result) ==> r == Some(map[])
    ensures result.Dict? && !Truthy(Get(result.fields, "info")) ==> r == Some(map[])
    ensures result.Dict? && Get(result.fields, "info").Dict? ==> r == Some(Get(result.fields, "info").fields)
    ensures r.None? <==> (Truthy(result) && !result.Dict?)
                         || (result.Dict? && Truthy(GetOr(result.fields, "info", EmptyObject))
                             && !GetOr(result.fields, "info", EmptyObject).Dict?)
  {
    var obj := Or(result, EmptyObject);
    if !obj.Dict? then None
    else
      var info := Or(GetOr(obj.fields, "info", EmptyObject), EmptyObject);
      if info.Dict? then Some(info.fields) else None
  }

  /** The item `save_bound_device` writes. */
  function DeviceItem(userId: string, info: map<string, Value>, now: int): (item: map<string, Value>)
    ensures item.Keys == {"sensor_mac", "user_id", "device_name", "version", "created_at", "product", "bound_at", "enabled"}
    ensures item["sensor_mac"] == Get(info, "mac") && item["user_id"] == Str(userId)
    ensures item["device_name"] == Get(info, "name") && item["product"] == Get(info, "product")
    ensures item["version"] == Get(info, "version") && item["created_at"] == Get(info, "created_at")
    ensures item["bound_at"] == Int(now) && item["enabled"] == Bool(true)
  {
    map["sensor_mac" := Get(info, "mac"),
        "user_id" := Str(userId),
        "device_name" := Get(info, "name"),
        "version" := Get(info, "version"),
        "created_at" := Get(info, "created_at"),
        "product" := Get(info, "product"),
        "bound_at" := Int(now),
        "enabled" := Bool(true)]
  }

  /** `save_bound_device(user_id, result)`: the table afterwards. A reply
      without a MAC is an error and nothing is written. */
  function SaveBoundDevice(userId: string, result: Value, now: int, table: DeviceTable): (r: Option<DeviceTable>)
    ensures r.Some? <==> BindInfo(result).Some? && Truthy(Get(BindInfo(result).value, "mac"))
    ensures r.Some? ==>
              var mac := Get(BindInfo(result).value, "mac");
              && r.value.Keys == table.Keys + {mac}
              && r.value[mac] == DeviceItem(userId, BindInfo(result).value, now)
              && forall k :: k in table && k != mac ==> r.value[k] == table[k]
  {
    match BindInfo(result)
    case None => None
    case Some(info) =>
      var mac := Get(info, "mac");
      if !Truthy(mac) then None else Some(table[mac := DeviceItem(userId, info, now)])
  }

  // ---- The handler ----

  /** The fields the handler reads from the request body. */
  datatype BindInput = BindInput(userId: string, deviceToken: string, productId: int)

  /** `(v or default).strip()`; `None` where a truthy non-string makes
      `.strip()` raise. */
  function StrippedText(v: Value, default: string): (r: Option<string>)
    ensures !Truthy(v) ==> r == Some(Strip(default))
    ensures v.Str? && v.s != "" ==> r == Some(Strip(v.s))
    ensures r.None? <==> Truthy(v) && !v.Str?
  {
    var t := Or(v, Str(default));
    if t.Str? then Some(Strip(t.s)) else None
  }

  /** The reading and checking of the body in `lambda_handler`, in the
      source's order. */
  function ParseBindInput(body: Value): (r: Outcome<BindInput>)
    ensures !body.Dict? ==> r == Err(ServerError)
    ensures r.Err? ==> r.status in {400, ServerError}
    ensures r == Err(400) <==> && body.Dict?
                               && StrippedText(Get(body.fields, "user_id"), "dev").Some?
                               && StrippedText(Get(body.fields, "device_token"), "").Some?
                               && (StrippedText(Get(body.fields, "device_token"), "").value == ""
                                   || Get(body.fields, "product_id").Null?)
    ensures r.Ok? ==> && body.Dict?
                      && Some(r.value.userId) == StrippedText(Get(body.fields, "user_id"), "dev")
                      && Some(r.value.deviceToken) == StrippedText(Get(body.fields, "device_token"), "")
                      && r.value.deviceToken != ""
                      && Some(r.value.productId) == ToInt(Get(body.fields, "product_id"))
    ensures (&& body.Dict?
             && StrippedText(Get(body.fields, "user_id"), "dev").Some?
             && StrippedText(Get(body.fields, "device_token"), "").Some?
             && StrippedText(Get(body.fields, "device_token"), "").value != ""
             && !Get(body.fields, "product_id").Null?) ==>
              (r.Ok? <==> ToInt(Get(body.fields, "product_id")).Some?)
  {
    if !body.Dict? then Err(ServerError)
    else
      var userId := StrippedText(Get(body.fields, "user_id"), "dev");
      var deviceToken := StrippedText(Get(body.fields, "device_token"), "");
      if userId.None? || deviceToken.None? then Err(ServerError)
      else
        var productId := Get(body.fields, "product_id");
        if deviceToken.value == "" || productId.Null? then Err(400)
        else
          match ToInt(productId)
          case None => Err(ServerError)
          case Some(p) => Ok(BindInput(userId.value, deviceToken.value, p))
  }

  /** The `bound` part of a successful reply. */
  datatype Bound = Bound(userId: string, mac: Value, name: Value, product: Value)

  /** The handler's reply status, the bound device on success, and the token
      cache and devices table afterwards. */
  datatype BindReply = BindReply(status: int, bound: Option<Bound>, cache: AccessCache, table: DeviceTable)

  /** `bind_device` and `save_bound_device` for checked input. */
  function BindAndSave(input: BindInput, credentialsSet: bool, cache: AccessCache, now: int,
                       tokenReply: HttpReply, bindReply: HttpReply, table: DeviceTable): (r: BindReply)
    ensures r.status in {200, BadGateway, ServerError}
    ensures r.bound.Some? <==> r.status == 200
    ensures r.cache == GetAccessToken(cache, now, credentialsSet, tokenReply).cache
    ensures r.status != 200 ==> r.table == table
    ensures GetAccessToken(cache, now, credentialsSet, tokenReply).token.Err? ==>
              r.status == GetAccessToken(cache, now, credentialsSet, tokenReply).token.status
    ensures GetAccessToken(cache, now, credentialsSet, tokenReply).token.Ok? && bindReply.HttpError? ==>
              r.status == BadGateway
    ensures GetAccessToken(cache, now, credentialsSet, tokenReply).token.Ok? && bindReply.Raised? ==>
              r.status == ServerError
    ensures GetAccessToken(cache, now, credentialsSet, tokenReply).token.Ok? && bindReply.Json? ==>
              (r.status == 200 <==> SaveBoundDevice(input.userId, bindReply.body, now, table).Some?)
    ensures (&& GetAccessToken(cache, now, credentialsSet, tokenReply).token.Ok? && bindReply.Json?
             && SaveBoundDevice(input.userId, bindReply.body, now, table).None?) ==>
              r.status == ServerError
    ensures r.status == 200 ==>
              && bindReply.Json?
              && SaveBoundDevice(input.userId, bindReply.body, now, table) == Some(r.table)
              && var info := BindInfo(bindReply.body).value;
                 r.bound == Some(Bound(input.userId, Get(info, "mac"), Get(info, "name"), Get(info, "product")))
  {
    var access := GetAccessToken(cache, now, credentialsSet, tokenReply);
    match access.token
    case Err(status) => BindReply(status, None, access.cache, table)
    case Ok(_) =>
      match bindReply
      case HttpError => BindReply(BadGateway, None, access.cache, table)
      case Raised => BindReply(ServerError, None, access.cache, table)
      case Json(result) =>
        match SaveBoundDevice(input.userId, result, now, table)
        case None => BindReply(ServerError, None, access.cache, table)
        case Some(table') =>
          var info := BindInfo(result).value;
          BindReply(200, Some(Bound(input.userId, Get(info, "mac"), Get(info, "name"), Get(info, "product"))),
                    access.cache, table')
  }

  /** `lambda_handler` of the binding; `parsed` is what JSON decoding of the
      body text gives. Every exception is answered, none escapes. */
  function HandleBind(event: map<string, Value>, parsed: Option<Value>, credentialsSet: bool, cache: AccessCache,
                      now: int, tokenReply: HttpReply, bindReply: HttpReply, table: DeviceTable): (r: BindReply)
    ensures r.status in {200, 400, BadGateway, ServerError}
    ensures r.bound.Some? <==> r.status == 200
    ensures r.status != 200 ==> r.table == table
    // a refused request asks nothing of the Qingping API
    ensures r.status == 400 ==> r.cache == cache
    // an input error is answered before any request, with its own status
    ensures ParseBindInput(ProxyBody(event, parsed)).Err? ==>
              r == BindReply(ParseBindInput(ProxyBody(event, parsed)).status, None, cache, table)
    ensures ParseBindInput(ProxyBody(event, parsed)).Ok? ==>
              r == BindAndSave(ParseBindInput(ProxyBody(event, parsed)).value, credentialsSet, cache, now,
                               tokenReply, bindReply, table)
  {
    match ParseBindInput(ProxyBody(event, parsed))
    case Err(status) => BindReply(status, None, cache, table)
    case Ok(input) => BindAndSave(input, credentialsSet, cache, now, tokenReply, bindReply, table)
  }

  /** A body without a device token is refused with 400 before any request. */
  lemma MissingDeviceTokenRefused(fields: map<string, Value>, userId: string, productId: int,
                                  credentialsSet: bool, cache: AccessCache, now: int,
                                  tokenReply: HttpReply, bindReply: HttpReply, table: DeviceTable)
    requires fields == map["user_id" := Str(userId), "product_id" := Int(productId)]
    ensures HandleBind(map["body" := Dict(fields)], None, credentialsSet, cache, now, tokenReply, bindReply, table)
            == BindReply(400, None, cache, table)
  {
    assert Get(fields, "device_token") == Null;
  }

  /** A body without a user id reads as the user "dev". */
  lemma UserIdDefaultsToDev(fields: map<string, Value>, deviceToken: string, productId: int)
    requires deviceToken != "" && Strip(deviceToken) == deviceToken
    requires fields == map["device_token" := Str(deviceToken), "product_id" := Int(productId)]
    ensures ParseBindInput(ProxyBody(map["body" := Dict(fields)], None)) == Ok(BindInput("dev", deviceToken, productId))
  {
    var event := map["body" := Dict(fields)];
    assert Get(event, "body") == Dict(fields) && Get(event, "isBase64Encoded") == Null;
    assert ProxyBody(event, None) == Dict(fields);
    assert Get(fields, "user_id") == Null;
    assert Get(fields, "device_token") == Str(deviceToken);
    assert Get(fields, "product_id") == Int(productId);
    StripUnchanged("dev");
    assert StrippedText(Null, "dev") == Some("dev");
    assert StrippedText(Str(deviceToken), "") == Some(deviceToken);
  }

  /** A reply naming only a MAC is saved under that MAC. */
  lemma SavedUnderMac(userId: string, info: map<string, Value>, mac: string, now: int, table: DeviceTable)
    requires mac != "" && info == map["mac" := Str(mac)]
    ensures BindInfo(Dict(map["info" := Dict(info)])) == Some(info)
    ensures SaveBoundDevice(userId, Dict(map["info" := Dict(info)]), now, table)
            == Some(table[Str(mac) := DeviceItem(userId, info, now)])
    ensures Get(info, "mac") == Str(mac) && Get(info, "name") == Null && Get(info, "product") == Null
  {
    var result := Dict(map["info" := Dict(info)]);
    assert GetOr(result.fields, "info", EmptyObject) == Dict(info);
  }

  /** With a live token and a reply that saves, the binding succeeds and
      reports what was saved. */
  lemma LiveTokenBinds(input: BindInput, cache: AccessCache, now: int, reply: HttpReply,
                       table: DeviceTable, saved: DeviceTable)
    requires Live(cache, now) && reply.Json?
    requires SaveBoundDevice(input.userId, reply.body, now, table) == Some(saved)
    ensures
      var info := BindInfo(reply.body).value;
      BindAndSave(input, false, cache, now, Raised, reply, table)
      == BindReply(200, Some(Bound(input.userId, Get(info, "mac"), Get(info, "name"), Get(info, "product"))), cache, saved)
  {
  }

  /** Without a user id the device is recorded for the user "dev". */
  lemma UserDefaultsToDev(fields: map<string, Value>, deviceToken: string, productId: int,
                          info: map<string, Value>, mac: string, cache: AccessCache, now: int, table: DeviceTable)
    requires Live(cache, now)
    requires deviceToken != "" && Strip(deviceToken) == deviceToken
    requires fields == map["device_token" := Str(deviceToken), "product_id" := Int(productId)]
    requires mac != "" && info == map["mac" := Str(mac)]
    ensures
      var r := HandleBind(map["body" := Dict(fields)], None, false, cache, now, Raised,
                          Json(Dict(map["info" := Dict(info)])), table);
      && r.status == 200
      && r.bound == Some(Bound("dev", Str(mac), Null, Null))
      && r.table == table[Str(mac) := DeviceItem("dev", info, now)]
  {
    var event := map["body" := Dict(fields)];
    var reply := Json(Dict(map["info" := Dict(info)]));
    UserIdDefaultsToDev(fields, deviceToken, productId);
    SavedUnderMac("dev", info, mac, now, table);
    LiveTokenBinds(BindInput("dev", deviceToken, productId), cache, now, reply, table,
                   table[Str(mac) := DeviceItem("dev", info, now)]);
  }
}

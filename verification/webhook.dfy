/**
 * The Qingping push webhook: answers anything but a POST as a health check,
 * decodes the JSON body of a POST, checks its HMAC-SHA256 signature block
 * against the app secret, and acknowledges a correctly signed push.
 *
 * The HMAC is a given function from key and message text to the lower-case
 * hex digest; decoding of the body (base64 and JSON) is given as its result.
 */
module Webhook {
  import opened Values
  import opened ApiGateway

  /** `hmac.new(key, msg, sha256).hexdigest()` on the UTF-8 encodings. */
  type HmacHex = (string, string) -> string

  /** `_verify_signature(block)`: the timestamp (as `str`), the token and the
      signature must all be non-empty, the secret set, and the signature equal
      to the HMAC of timestamp followed by token. Every exception on the way,
      such as a block that is not an object or a token that is not text, is a
      failed check. */
  function VerifySignature(secret: string, block: Value, hmacHex: HmacHex, repr: Repr): (r: bool)
    ensures r ==> secret != "" && block.Dict?
    ensures r <==> && secret != "" && block.Dict?
                   && var ts := PyStr(GetOr(block.fields, "timestamp", Str("")), repr);
                      var token := GetOr(block.fields, "token", Str(""));
                      var sig := GetOr(block.fields, "signature", Str(""));
                      && ts != "" && token.Str? && token.s != "" && sig.Str? && sig.s != ""
                      && sig.s == hmacHex(secret, ts + token.s)
  {
    if !block.Dict? then false
    else
      var ts := PyStr(GetOr(block.fields, "timestamp", Str("")), repr);
      var token := GetOr(block.fields, "token", Str(""));
      var sig := GetOr(block.fields, "signature", Str(""));
      if !(secret != "" && ts != "" && Truthy(token) && Truthy(sig)) then false
      else if !token.Str? then false
      else if !sig.Str? then false
      else sig.s == hmacHex(secret, ts + token.s)
  }

  /** The block a sender holding the secret writes is accepted. */
  lemma SignedBlockVerifies(secret: string, ts: string, token: string, hmacHex: HmacHex, repr: Repr)
    requires secret != "" && ts != "" && token != "" && hmacHex(secret, ts + token) != ""
    ensures
      var block := Dict(map["timestamp" := Str(ts), "token" := Str(token),
                            "signature" := Str(hmacHex(secret, ts + token))]);
      VerifySignature(secret, block, hmacHex, repr)
  {
  }

  /** Without a secret no block verifies, however it is signed. */
  lemma NoSecretNoEntry(block: Value, hmacHex: HmacHex, repr: Repr)
    ensures !VerifySignature("", block, hmacHex, repr)
  {
  }

  /** A block whose signature differs from the HMAC of its own timestamp
      and token is refused. */
  lemma ForgedSignatureRefused(secret: string, ts: string, token: string, sig: string, hmacHex: HmacHex, repr: Repr)
    requires sig != hmacHex(secret, ts + token)
    ensures
      var block := Dict(map["timestamp" := Str(ts), "token" := Str(token), "signature" := Str(sig)]);
      !VerifySignature(secret, block, hmacHex, repr)
  {
  }

  /** What the webhook answers. `Crashed` is an exception outside every
      `try`, which the Lambda runtime reports as an error. */
  datatype WebhookReply = Crashed | Alive | InvalidJson | Unauthorized | Acknowledged

  function Status(reply: WebhookReply): (status: int)
    requires !reply.Crashed?
    ensures status in {200, 400, 401}
  {
    match reply
    case Alive => 200
    case InvalidJson => 400
    case Unauthorized => 401
    case Acknowledged => 200
  }

  /** The method the webhook compares with "POST": the HTTP API's context
      method, or the REST API's `httpMethod` when that is empty. */
  function WebhookMethod(event: map<string, Value>): (r: Option<Value>)
    ensures ContextMethod(event).None? ==> r.None?
    ensures ContextMethod(event).Some? && Truthy(ContextMethod(event).value) ==> r == ContextMethod(event)
    ensures ContextMethod(event).Some? && !Truthy(ContextMethod(event).value) ==>
              r == Some(GetOr(event, "httpMethod", Str("")))
  {
    match ContextMethod(event)
    case None => None
    case Some(m) => Some(Or(m, GetOr(event, "httpMethod", Str(""))))
  }

  /** `lambda_handler` of the webhook; `decoded` is what base64 and JSON
      decoding of the body text give, `None` where either fails. */
  function HandleWebhook(event: map<string, Value>, decoded: Option<Value>, secret: string,
                         hmacHex: HmacHex, repr: Repr): (r: WebhookReply)
    ensures WebhookMethod(event).None? ==> r.Crashed?
    // anything but an exact "POST" is a health check, whatever the body
    ensures WebhookMethod(event).Some? && WebhookMethod(event) != Some(Str("POST")) ==> r == Alive
    ensures WebhookMethod(event) == Some(Str("POST")) && !GetOr(event, "body", Str("")).Str? ==> r == InvalidJson
    ensures WebhookMethod(event) == Some(Str("POST")) && decoded.None? ==> r == InvalidJson
    // only a correctly signed push is acknowledged
    ensures r == Acknowledged ==>
              && WebhookMethod(event) == Some(Str("POST"))
              && GetOr(event, "body", Str("")).Str?
              && decoded.Some? && decoded.value.Dict?
              && VerifySignature(secret, GetOr(decoded.value.fields, "signature", EmptyObject), hmacHex, repr)
    ensures r == Unauthorized ==>
              && decoded.Some? && decoded.value.Dict?
              && !VerifySignature(secret, GetOr(decoded.value.fields, "signature", EmptyObject), hmacHex, repr)
    // a decoded POST body: JSON that is not an object has no `get` and raises
    ensures WebhookMethod(event) == Some(Str("POST")) && GetOr(event, "body", Str("")).Str? && decoded.Some? ==>
              (!decoded.value.Dict? ==> r.Crashed?)
    // an object body is refused with 401 exactly when its signature block fails,
    // and acknowledged exactly when it passes and `payload` is an object
    ensures WebhookMethod(event) == Some(Str("POST")) && GetOr(event, "body", Str("")).Str?
            && decoded.Some? && decoded.value.Dict? ==>
              var fields := decoded.value.fields;
              var signed := VerifySignature(secret, GetOr(fields, "signature", EmptyObject), hmacHex, repr);
              && (r == Unauthorized <==> !signed)
              && (r == Acknowledged <==> signed && GetOr(fields, "payload", EmptyObject).Dict?)
  {
    match WebhookMethod(event)
    case None => Crashed
    case Some(verb) =>
      if verb != Str("POST") then Alive
      else if !GetOr(event, "body", Str("")).Str? || decoded.None? then InvalidJson
      else
        var payload := decoded.value;
        if !payload.Dict? then Crashed
        else if !VerifySignature(secret, GetOr(payload.fields, "signature", EmptyObject), hmacHex, repr) then Unauthorized
        else if !GetOr(payload.fields, "payload", EmptyObject).Dict? then Crashed
        else Acknowledged
  }

  /** A lower-case "post" is answered as a health check. */
  lemma LowerCasePostIsHealthCheck(event: map<string, Value>, decoded: Option<Value>, secret: string,
                                   hmacHex: HmacHex, repr: Repr)
    requires "requestContext" !in event
    requires event == map["httpMethod" := Str("post")]
    ensures HandleWebhook(event, decoded, secret, hmacHex, repr) == Alive
    ensures Status(HandleWebhook(event, decoded, secret, hmacHex, repr)) == 200
  {
    assert Str("post") != Str("POST");
  }

  /** A correctly signed push with its data under `payload` is acknowledged. */
  lemma SignedPushAcknowledged(event: map<string, Value>, body: string, secret: string, ts: string, token: string,
                               data: map<string, Value>, hmacHex: HmacHex, repr: Repr)
    requires event == map["httpMethod" := Str("POST"), "body" := Str(body)]
    requires secret != "" && ts != "" && token != "" && hmacHex(secret, ts + token) != ""
    ensures
      var block := Dict(map["timestamp" := Str(ts), "token" := Str(token),
                            "signature" := Str(hmacHex(secret, ts + token))]);
      var payload := Dict(map["signature" := block, "payload" := Dict(data)]);
      && HandleWebhook(event, Some(payload), secret, hmacHex, repr) == Acknowledged
      && Status(HandleWebhook(event, Some(payload), secret, hmacHex, repr)) == 200
  {
    var block := Dict(map["timestamp" := Str(ts), "token" := Str(token),
                          "signature" := Str(hmacHex(secret, ts + token))]);
    SignedBlockVerifies(secret, ts, token, hmacHex, repr);
    var fields := map["signature" := block, "payload" := Dict(data)];
    assert GetOr(fields, "signature", EmptyObject) == block;
    assert GetOr(fields, "payload", EmptyObject) == Dict(data);
    assert WebhookMethod(event) == Some(Str("POST"));
  }
}

/**
 * Reading the parts of an API Gateway proxy event that the handlers look at:
 * the HTTP method under `requestContext.http.method` and the request body.
 * Base64 and JSON decoding are not modelled: the caller supplies the value
 * `json.loads` produces from the body text, or `None` when either decoding
 * step fails or the decoded text is empty.
 */
module ApiGateway {
  import opened Text
  import opened Values

  const EmptyObject: Value := Dict(map[])

  /** `event.get("requestContext", {}).get("http", {}).get("method")`;
      `None` when one of the intermediate values is not an object, where the
      Python lookup raises. */
  function ContextMethod(event: map<string, Value>): (r: Option<Value>)
    ensures "requestContext" !in event ==> r == Some(Null)
    // a request context that is not an object raises
    ensures "requestContext" in event && !event["requestContext"].Dict? ==> r.None?
    ensures "requestContext" in event && event["requestContext"].Dict? ==>
              var context := event["requestContext"].fields;
              && ("http" !in context ==> r == Some(Null))
              && ("http" in context && !context["http"].Dict? ==> r.None?)
              && ("http" in context && context["http"].Dict? ==> r == Some(Get(context["http"].fields, "method")))
  {
    var context := GetOr(event, "requestContext", EmptyObject);
    if !context.Dict? then None
    else
      var http := GetOr(context.fields, "http", EmptyObject);
      if !http.Dict? then None else Some(Get(http.fields, "method"))
  }

  /** The proxy branch of `_get_event_body_json`: a missing or empty body and
      every failed decoding give `{}`, a body that is already an object is
      used as it is, and a body string gives what JSON decoding produced. */
  function ProxyBody(event: map<string, Value>, parsed: Option<Value>): (r: Value)
    ensures !Truthy(Get(event, "body")) ==> r == EmptyObject
    ensures parsed.None? && !Get(event, "body").Dict? ==> r == EmptyObject
    ensures r == EmptyObject || r == Get(event, "body") || (parsed.Some? && r == parsed.value)
    ensures Get(event, "body").Dict? && !Truthy(Get(event, "isBase64Encoded")) ==> r == Get(event, "body")
    ensures Get(event, "body").Dict? && Truthy(Get(event, "isBase64Encoded")) ==> r == EmptyObject
  {
    var body := Or(Get(event, "body"), Str(""));
    if Truthy(Get(event, "isBase64Encoded")) then
      // b64decode accepts only text; decoding "" gives "" and then `{}`
      if body.Str? && body.s != "" && parsed.Some? then parsed.value else EmptyObject
    else if !Truthy(body) then EmptyObject
    else if body.Str? then (if parsed.Some? then parsed.value else EmptyObject)
    else if body.Dict? then body
    else EmptyObject
  }

  /** `(<context method> or "").upper()`, the method the handlers compare
      with "OPTIONS"; `None` where reading it raises. */
  function RequestMethod(event: map<string, Value>): (r: Option<string>)
    ensures r.Some? ==> ContextMethod(event).Some?
    // an event without a request context is a request with no method
    ensures "requestContext" !in event ==> r == Some("")
    ensures ContextMethod(event).None? ==> r.None?
    // a text method is upper-cased; a falsy one counts as ""
    ensures ContextMethod(event).Some? && ContextMethod(event).value.Str? ==>
              r == Some(Upper(ContextMethod(event).value.s))
    ensures ContextMethod(event).Some? && !Truthy(ContextMethod(event).value) ==> r == Some("")
    // a truthy method that is not text has no `upper()` and raises
    ensures ContextMethod(event).Some? && Truthy(ContextMethod(event).value) && !ContextMethod(event).value.Str? ==>
              r.None?
  {
    match ContextMethod(event)
    case None => None
    case Some(m) =>
      var verb := Or(m, Str(""));
      if verb.Str? then Some(Upper(verb.s)) else None
  }
}

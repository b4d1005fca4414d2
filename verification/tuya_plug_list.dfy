/**
 * The plug list: fetches a Tuya token, pages through every device in the
 * configured space twenty at a time, keeps four fields of each device for the
 * dashboard's dropdown, and sorts the result by lower-cased name.
 *
 * The space id and category filter are the stripped environment settings;
 * the token reply and the page replies are given from outside.
 */
module TuyaPlugList {
  import opened Text
  import opened Values
  import opened Sorting
  import opened ApiGateway
  import opened Paging
  import opened TuyaApi

  /** The largest page the device listing returns. */
  const PageSize := 20

  /** One page of the listing: its devices and the `id` of the last one. */
  datatype DevicePage = DevicePage(devices: seq<Value>, lastId: Value)

  /** One reply of `GET /v2.0/cloud/thing/space/device` as the loop reads it:
      `resp.get("result") or []`, then the id of the last device. `None` where
      the request fails or reading the reply raises. */
  function ParseDevicePage(credentialsSet: bool, reply: Option<Value>): (r: Option<DevicePage>)
    ensures TuyaResponse(credentialsSet, reply).None? ==> r.None?
    ensures r.Some? && |r.value.devices| > 0 ==>
              && r.value.devices[|r.value.devices| - 1].Dict?
              && r.value.lastId == Get(r.value.devices[|r.value.devices| - 1].fields, "id")
    ensures r.Some? ==> && reply.Some? && reply.value.Dict?
                        && (Truthy(Get(reply.value.fields, "result")) ==> Get(reply.value.fields, "result") == List(r.value.devices))
                        && (!Truthy(Get(reply.value.fields, "result")) ==> r.value.devices == [])
  {
    match TuyaResponse(credentialsSet, reply)
    case None => None
    case Some(data) =>
      if !data.Dict? then None
      else
        var result := Or(Get(data.fields, "result"), List([]));
        if !Truthy(result) then Some(DevicePage([], Null))
        else if !result.List? then None
        else
          var last := result.items[|result.items| - 1];
          if last.Dict? then Some(DevicePage(result.items, Get(last.fields, "id"))) else None
  }

  /** The loop asks again only after a full page, with the last id as cursor. */
  const DevicePager := Pager((p: DevicePage) => p.devices, (p: DevicePage) => |p.devices| >= PageSize,
                             (p: DevicePage) => p.lastId, Null)

  function DevicePages(credentialsSet: bool, replies: seq<Option<Value>>): (r: seq<Option<DevicePage>>)
    ensures |r| == |replies|
    ensures forall i :: 0 <= i < |replies| ==> r[i] == ParseDevicePage(credentialsSet, replies[i])
  {
    seq(|replies|, i requires 0 <= i < |replies| => ParseDevicePage(credentialsSet, replies[i]))
  }

  /** The query of one listing request: `last_id` only when the cursor is
      truthy, `categories` only when a filter is set. */
  function DeviceQuery(spaceId: string, cursor: Value, categories: string): (r: Query)
    ensures ("space_ids", Str(spaceId)) in r && ("page_size", Int(PageSize)) in r
    ensures ("last_id", cursor) in r <==> Truthy(cursor)
    ensures (exists v :: ("last_id", v) in r) <==> Truthy(cursor)
    ensures (exists v :: ("categories", v) in r) <==> categories != ""
    ensures forall p :: p in r ==> p.0 in {"space_ids", "page_size", "last_id", "categories"}
  {
    [("space_ids", Str(spaceId)), ("page_size", Int(PageSize))]
      + (if Truthy(cursor) then [("last_id", cursor)] else [])
      + (if categories != "" then [("categories", Str(categories))] else [])
  }

  /** `list_all_devices_in_space`: the devices of every page, and the query of
      every request made. The first request has no cursor; each later one
      carries the last id of the full page before it. */
  /** The listing requests for the cursors sent, in order. */
  function DeviceQueries(spaceId: string, cursors: seq<Value>, categories: string): (r: seq<Query>)
    ensures |r| == |cursors|
    ensures forall i :: 0 <= i < |cursors| ==> r[i] == DeviceQuery(spaceId, cursors[i], categories)
  {
    seq(|cursors|, i requires 0 <= i < |cursors| => DeviceQuery(spaceId, cursors[i], categories))
  }

  method ListAllDevices(spaceId: string, categories: string, credentialsSet: bool, replies: seq<Option<Value>>)
    returns (devices: Option<seq<Value>>, queries: seq<Query>)
    ensures devices == Collect(DevicePager, DevicePages(credentialsSet, replies))
    ensures 0 < |queries| <= |replies| + 1
    ensures queries[0] == DeviceQuery(spaceId, Null, categories)
    ensures forall k :: 0 <= k < |queries| - 1 ==>
              && ParseDevicePage(credentialsSet, replies[k]).Some?
              && |ParseDevicePage(credentialsSet, replies[k]).value.devices| >= PageSize
              && queries[k + 1] == DeviceQuery(spaceId, ParseDevicePage(credentialsSet, replies[k]).value.lastId, categories)
  {
    var pages := DevicePages(credentialsSet, replies);
    var sent;
    devices, sent := CollectLoop(DevicePager, pages);
    queries := DeviceQueries(spaceId, sent, categories);
    forall k | 0 <= k < |queries| - 1
      ensures && ParseDevicePage(credentialsSet, replies[k]).Some?
              && |ParseDevicePage(credentialsSet, replies[k]).value.devices| >= PageSize
              && queries[k + 1] == DeviceQuery(spaceId, ParseDevicePage(credentialsSet, replies[k]).value.lastId, categories)
    {
      assert pages[k] == ParseDevicePage(credentialsSet, replies[k]);
      var page := pages[k].value;
      assert |page.devices| >= PageSize && sent[k + 1] == page.lastId by {
        assert DevicePager.more(page) && sent[k + 1] == DevicePager.cursor(page);
      }
    }
  }

  /** A page with fewer than twenty devices is the last one requested. */
  lemma ShortPageEndsListing(credentialsSet: bool, replies: seq<Option<Value>>, page: DevicePage)
    requires |replies| > 0
    requires ParseDevicePage(credentialsSet, replies[0]) == Some(page)
    requires |page.devices| < PageSize
    ensures Collect(DevicePager, DevicePages(credentialsSet, replies)) == Some(page.devices)
  {
  }

  /** A full first page of twenty is followed by the next one, and the devices of both
      are listed in order. */
  lemma FullPageContinues(credentialsSet: bool, replies: seq<Option<Value>>, first: DevicePage, second: DevicePage)
    requires |replies| > 1
    requires ParseDevicePage(credentialsSet, replies[0]) == Some(first) && |first.devices| == PageSize
    requires ParseDevicePage(credentialsSet, replies[1]) == Some(second) && |second.devices| < PageSize
    ensures Collect(DevicePager, DevicePages(credentialsSet, replies)) == Some(first.devices + second.devices)
  {
    var pages := DevicePages(credentialsSet, replies);
    assert pages[1..][0] == pages[1];
  }
  /** A full page whose last device has no `id` leaves the cursor empty, so the
      next request is the first one again. */
  lemma MissingLastIdRepeatsFirstQuery(spaceId: string, categories: string, page: DevicePage)
    requires |page.devices| >= PageSize && !Truthy(page.lastId)
    ensures DevicePager.more(page)
    ensures DeviceQuery(spaceId, DevicePager.cursor(page), categories) == DeviceQuery(spaceId, DevicePager.first, categories)
  {
  }

  /** A service that answers the repeated first request with the same full
      page keeps the loop asking: no finite run of such replies ends it. */
  lemma {:induction false} RepeatedFullPageNeverEnds(credentialsSet: bool, replies: seq<Option<Value>>, page: DevicePage)
    requires forall i :: 0 <= i < |replies| ==> ParseDevicePage(credentialsSet, replies[i]) == Some(page)
    requires |page.devices| >= PageSize
    ensures Collect(DevicePager, DevicePages(credentialsSet, replies)).None?
  {
    if |replies| > 0 {
      RepeatedFullPageNeverEnds(credentialsSet, replies[1..], page);
      assert DevicePages(credentialsSet, replies)[1..] == DevicePages(credentialsSet, replies[1..]);
    }
  }


  // ---- The dropdown entries ----

  /** The fields the handler keeps of a device. */
  datatype Plug = Plug(deviceId: Value, name: Value, category: Value, online: Value)

  /** One entry of `cleaned`: the first truthy of `customName`, `custom_name`
      and `name`; `isOnline` when the key is present, even if null, and
      `is_online` otherwise. */
  function Project(d: map<string, Value>): (r: Plug)
    ensures r.deviceId == Get(d, "id") && r.category == Get(d, "category")
    ensures Truthy(Get(d, "customName")) ==> r.name == Get(d, "customName")
    ensures !Truthy(Get(d, "customName")) && Truthy(Get(d, "custom_name")) ==> r.name == Get(d, "custom_name")
    ensures !Truthy(Get(d, "customName")) && !Truthy(Get(d, "custom_name")) ==> r.name == Get(d, "name")
    ensures "isOnline" in d ==> r.online == d["isOnline"]
    ensures "isOnline" !in d ==> r.online == Get(d, "is_online")
  {
    Plug(Get(d, "id"),
         Or(Or(Get(d, "customName"), Get(d, "custom_name")), Get(d, "name")),
         Get(d, "category"),
         if "isOnline" in d then d["isOnline"] else Get(d, "is_online"))
  }

  /** The projection of every device; `None` if one is not an object. */
  function ProjectAll(devices: seq<Value>): (r: Option<seq<Plug>>)
    ensures r.Some? <==> forall i :: 0 <= i < |devices| ==> devices[i].Dict?
    ensures r.Some? ==> |r.value| == |devices|
    ensures r.Some? ==> forall i :: 0 <= i < |devices| ==> r.value[i] == Project(devices[i].fields)
  {
    if forall i :: 0 <= i < |devices| ==> devices[i].Dict? then
      Some(seq(|devices|, i requires 0 <= i < |devices| => Project(devices[i].fields)))
    else None
  }

  /** Whether `(x.get("name") or "").lower()` can be computed: the name is
      text or falsy. */
  predicate HasNameKey(p: Plug)
  {
    Or(p.name, Str("")).Str?
  }

  /** The sort key of a plug: its lower-cased name, empty when it has none. */
  function NameKey(p: Plug): (k: string)
    ensures !Truthy(p.name) ==> k == ""
    ensures p.name.Str? ==> k == Lower(p.name.s)
  {
    var name := Or(p.name, Str(""));
    if name.Str? then Lower(name.s) else ""
  }

  /** `cleaned.sort(key=...)`: a stable sort by lower-cased name; `None` when
      a key cannot be computed. */
  function SortPlugs(plugs: seq<Plug>): (r: Option<seq<Plug>>)
    ensures r.Some? <==> forall i :: 0 <= i < |plugs| ==> HasNameKey(plugs[i])
    ensures r.Some? ==> && |r.value| == |plugs|
                        && multiset(r.value) == multiset(plugs)
                        && SortedBy(r.value, NameKey)
                        && forall k :: WithKey(r.value, NameKey, k) == WithKey(plugs, NameKey, k)
  {
    if forall i :: 0 <= i < |plugs| ==> HasNameKey(plugs[i]) then Some(SortBy(plugs, NameKey)) else None
  }

  /** Upper and lower case names sort together. */
  lemma NameKeyIgnoresCase(p: Plug, q: Plug)
    requires p.name.Str? && q.name.Str? && Upper(p.name.s) == Upper(q.name.s)
    ensures NameKey(p) == NameKey(q)
  {
    LowerAfterUpper(p.name.s);
    LowerAfterUpper(q.name.s);
  }

  // ---- The handler ----

  /** What a listing request comes to. `Crashed` is an exception raised
      before the handler's `try`. */
  datatype Listing =
    | Crashed
    | Listed(status: int, plugs: seq<Plug>, cache: TokenCache)

  /** The part of `lambda_handler` inside its `try`, for a set space id. */
  function ListPlugs(spaceId: string, categories: string, credentialsSet: bool, cache: TokenCache, now: real,
                     tokenReply: Option<Value>, pageReplies: seq<Option<Value>>): (r: Listing)
    ensures r.Listed? && r.status in {200, 500}
    ensures r.status == 500 ==> r.plugs == []
    ensures GetTuyaToken(cache, now, credentialsSet, tokenReply).token.None? ==> r == Listed(500, [], cache)
    ensures GetTuyaToken(cache, now, credentialsSet, tokenReply).token.Some? ==>
              r.cache == GetTuyaToken(cache, now, credentialsSet, tokenReply).cache
    ensures r.status == 200 ==>
              && Collect(DevicePager, DevicePages(credentialsSet, pageReplies)).Some?
              && var devices := Collect(DevicePager, DevicePages(credentialsSet, pageReplies)).value;
                 && ProjectAll(devices).Some?
                 && SortPlugs(ProjectAll(devices).value) == Some(r.plugs)
                 && |r.plugs| == |devices|
  {
    var token := GetTuyaToken(cache, now, credentialsSet, tokenReply);
    if token.token.None? then Listed(500, [], token.cache)
    else
      var failed := Listed(500, [], token.cache);
      match Collect(DevicePager, DevicePages(credentialsSet, pageReplies))
      case None => failed
      case Some(devices) =>
        match ProjectAll(devices)
        case None => failed
        case Some(plugs) =>
          match SortPlugs(plugs)
          case None => failed
          case Some(sorted) => Listed(200, sorted, token.cache)
  }

  /** `lambda_handler` of the plug list. */
  function HandlePlugList(event: map<string, Value>, spaceId: string, categories: string, credentialsSet: bool,
                          cache: TokenCache, now: real, tokenReply: Option<Value>,
                          pageReplies: seq<Option<Value>>): (r: Listing)
    ensures r.Crashed? <==> RequestMethod(event).None?
    ensures RequestMethod(event) == Some("OPTIONS") ==> r == Listed(200, [], cache)
    // without a space id nothing is requested and the cache stays as it was
    ensures RequestMethod(event).Some? && RequestMethod(event) != Some("OPTIONS") && spaceId == "" ==>
              r == Listed(400, [], cache)
    ensures r.Listed? ==> r.status in {200, 400, 500}
    ensures r.Listed? && r.status == 200 && RequestMethod(event) != Some("OPTIONS") ==>
              SortedBy(r.plugs, NameKey)
  {
    match RequestMethod(event)
    case None => Crashed
    case Some(verb) =>
      if verb == "OPTIONS" then Listed(200, [], cache)
      else if spaceId == "" then Listed(400, [], cache)
      else ListPlugs(spaceId, categories, credentialsSet, cache, now, tokenReply, pageReplies)
  }

  /** The count in the reply is the number of devices the listing returned,
      and every device appears in it, projected: `ListPlugs` answers 200 with
      exactly these `plugs` for the devices its pages held. */
  lemma ListedCountsEveryDevice(devices: seq<Value>, plugs: seq<Plug>)
    requires ProjectAll(devices).Some?
    requires SortPlugs(ProjectAll(devices).value) == Some(plugs)
    ensures |plugs| == |devices|
    ensures forall i :: 0 <= i < |devices| ==> devices[i].Dict? && Project(devices[i].fields) in plugs
  {
    var projected := ProjectAll(devices).value;
    forall i | 0 <= i < |devices|
      ensures devices[i].Dict? && Project(devices[i].fields) in plugs
    {
      assert projected[i] in multiset(projected);
    }
  }
}

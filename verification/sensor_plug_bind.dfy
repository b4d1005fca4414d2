/**
 * The sensor-to-plug mapping writer: one POST either deletes the mapping of a
 * sensor or rewrites it with a plug device id, an enabled flag and timestamps.
 * The DynamoDB table is a map from the cleaned sensor MAC to the stored item.
 */
module SensorPlugBind {
  import opened Text
  import opened Values
  import opened ApiGateway

  type Item = map<string, Value>
  type MappingTable = map<string, Item>

  const TrueWords: seq<string> := ["true", "1", "yes", "y", "on"]
  const FalseWords: seq<string> := ["false", "0", "no", "n", "off"]

  /** Default user id recorded on every mapping when the environment sets none. */
  const DefaultSharedUserId: string := "qingping_shared"

  /** `_normalize_bool(v, default)`: reads a loosely typed flag. */
  function NormalizeBool(v: Value, default: bool): (r: bool)
    ensures v.Bool? ==> r == v.b
    ensures v.Int? ==> (r <==> v.i != 0)
    ensures v.Float? ==> (r <==> v.f != 0.0)
    ensures v.Str? && Lower(Strip(v.s)) in TrueWords ==> r
    ensures v.Str? && Lower(Strip(v.s)) in FalseWords ==> !r
    // only a boolean, a number or a recognised word can override the default
    ensures r != default ==> v.Bool? || v.Int? || v.Float? || (v.Str? && Lower(Strip(v.s)) in TrueWords + FalseWords)
  {
    match v
    case Null => default
    case Bool(b) => b
    case Int(i) => i != 0
    case Float(f) => f != 0.0
    case Str(s) =>
      var w := Lower(Strip(s));
      if w in TrueWords then true else if w in FalseWords then false else default
    case _ => default
  }

  /** A flag written in any letter case reads the same. */
  lemma NormalizeBoolIgnoresCase(s: string, default: bool)
    ensures NormalizeBool(Str(Upper(s)), default) == NormalizeBool(Str(s), default)
    ensures NormalizeBool(Str(Lower(s)), default) == NormalizeBool(Str(s), default)
  {
    StripUpperCommute(s);
    LowerAfterUpper(Strip(s));
    StripLowerCommute(s);
    assert Lower(Lower(Strip(s))) == Lower(Strip(s));
  }

  /** Python's own spelling of a boolean, `str(b)`, reads back as `b`. */
  lemma NormalizeBoolReadsPythonBool(b: bool, default: bool, repr: Repr)
    ensures NormalizeBool(Str(PyStr(Bool(b), repr)), default) == b
  {
    var s := PyStr(Bool(b), repr);
    assert s == if b then "True" else "False";
    assert Strip(s) == s by {
      StripUnchanged(s);
    }
    assert Lower(s) == if b then "true" else "false" by {
      LowerBoolWords();
    }
  }

  /** Python's spellings of the booleans, lower-cased, are the flag words. */
  lemma LowerBoolWords()
    ensures Lower("True") == "true" && Lower("False") == "false"
  {
  }

  /** Normalising an already normalised flag changes nothing. */
  lemma NormalizeBoolIdempotent(v: Value, default: bool, other: bool)
    ensures NormalizeBool(Bool(NormalizeBool(v, default)), other) == NormalizeBool(v, default)
  {
  }

  predicate IsMacSeparator(c: char)
  {
    c == ':' || c == '-'
  }

  /** `_clean_sensor_mac`: strip, drop `:` and `-`, upper-case. */
  function CleanSensorMac(mac: string): (r: string)
    ensures |r| <= |mac|
    ensures forall i :: 0 <= i < |r| ==> !IsMacSeparator(r[i]) && !IsAsciiLower(r[i])
  {
    var kept := Remove(Remove(Strip(mac), ':'), '-');
    assert forall i :: 0 <= i < |kept| ==> kept[i] in Remove(Strip(mac), ':');
    Upper(kept)
  }

  /** The cleaned MAC is as long as the stripped text less its `:` and `-` characters. */
  lemma CleanSensorMacLength(mac: string)
    ensures |CleanSensorMac(mac)| == |Strip(mac)| - multiset(Strip(mac))[':'] - multiset(Strip(mac))['-']
  {
    var t := Strip(mac);
    RemoveLength(t, ':');
    RemoveLength(Remove(t, ':'), '-');
  }

  predicate IsHexUpper(c: char)
  {
    ('0' <= c <= '9') || ('A' <= c <= 'F')
  }

  /** A MAC already in the stored form ("CCB5D131C3D0") is left as it is. */
  lemma CleanSensorMacKeepsCanonical(mac: string)
    requires forall i :: 0 <= i < |mac| ==> IsHexUpper(mac[i])
    ensures CleanSensorMac(mac) == mac
  {
    assert Strip(mac) == mac by {
      StripUnchanged(mac);
    }
    assert Remove(Remove(mac, ':'), '-') == mac by {
      RemoveAbsent(mac, ':');
      RemoveAbsent(mac, '-');
    }
    assert Upper(mac) == mac;
  }

  /** Lower-case and upper-case spellings of a MAC clean to the same key. */
  lemma CleanSensorMacIgnoresCase(mac: string)
    ensures CleanSensorMac(Lower(mac)) == CleanSensorMac(mac)
  {
    StripLowerCommute(mac);
    var s := Strip(mac);
    RemoveLowerCommute(s, ':');
    RemoveLowerCommute(Remove(s, ':'), '-');
    UpperAfterLower(Remove(Remove(s, ':'), '-'));
  }

  /** A MAC written with `:` or `-` between its groups cleans to the same
      key as the groups written together, so "cc:b5:d1" and "CCB5D1" name
      the same sensor. */
  lemma CleanSensorMacIgnoresSeparators(groups: seq<string>, sep: char)
    requires IsMacSeparator(sep)
    requires forall i, j :: 0 <= i < |groups| && 0 <= j < |groups[i]| ==> IsMacChar(groups[i][j])
    ensures CleanSensorMac(Join(groups, [sep])) == CleanSensorMac(Join(groups, ""))
    ensures CleanSensorMac(Join(groups, "")) == Upper(Join(groups, ""))
  {
    var bare := Join(groups, "");
    assert CleanSensorMac(bare) == Upper(bare) by {
      JoinChars(groups, "", IsMacChar);
      CleanBare(bare);
    }
    SeparatorsRemoved(groups, sep);
  }

  /** Stripping a separated join of MAC groups and removing both separators
      leaves the groups written together. */
  lemma SeparatorsRemoved(groups: seq<string>, sep: char)
    requires IsMacSeparator(sep)
    requires forall i, j :: 0 <= i < |groups| && 0 <= j < |groups[i]| ==> IsMacChar(groups[i][j])
    ensures Remove(Remove(Strip(Join(groups, [sep])), ':'), '-') == Join(groups, "")
  {
    MacJoinUnstripped(groups, sep);
    if sep == ':' {
      assert Remove(Join(groups, [sep]), ':') == Join(groups, "") by {
        RemoveJoin(groups, ':');
      }
      MacJoinLacks(groups, "", '-');
    } else {
      MacJoinLacks(groups, [sep], ':');
      assert Remove(Join(groups, [sep]), '-') == Join(groups, "") by {
        RemoveJoin(groups, '-');
      }
    }
  }

  /** A separated join of MAC groups has no whitespace to strip. */
  lemma MacJoinUnstripped(groups: seq<string>, sep: char)
    requires IsMacSeparator(sep)
    requires forall i, j :: 0 <= i < |groups| && 0 <= j < |groups[i]| ==> IsMacChar(groups[i][j])
    ensures Strip(Join(groups, [sep])) == Join(groups, [sep])
  {
    JoinChars(groups, [sep], (c: char) => !IsSpace(c));
    StripUnchanged(Join(groups, [sep]));
  }

  /** Removing a separator that neither the groups nor `sep` hold changes nothing. */
  lemma MacJoinLacks(groups: seq<string>, sep: string, c: char)
    requires IsMacSeparator(c) && (forall j :: 0 <= j < |sep| ==> sep[j] != c)
    requires forall i, j :: 0 <= i < |groups| && 0 <= j < |groups[i]| ==> IsMacChar(groups[i][j])
    ensures Remove(Join(groups, sep), c) == Join(groups, sep)
  {
    JoinChars(groups, sep, (d: char) => d != c);
    RemoveAbsent(Join(groups, sep), c);
  }

  /** The separated lower-case form of a MAC cleans to the stored key. */
  lemma CleanSensorMacExample()
    ensures CleanSensorMac("cc:b5:d1:31:c3:d0") == "CCB5D131C3D0"
  {
    var groups := ["cc", "b5", "d1", "31", "c3", "d0"];
    ExampleGroups(groups);
    CleanSensorMacIgnoresSeparators(groups, ':');
    ExampleUpper();
  }

  lemma ExampleGroups(groups: seq<string>)
    requires groups == ["cc", "b5", "d1", "31", "c3", "d0"]
    ensures Join(groups, ":") == "cc:b5:d1:31:c3:d0"
    ensures Join(groups, "") == "ccb5d131c3d0"
    ensures forall i, j :: 0 <= i < |groups| && 0 <= j < |groups[i]| ==> IsMacChar(groups[i][j])
  {
    ExampleJoin(groups, ":", "cc:b5:d1:31:c3:d0");
    ExampleJoin(groups, "", "ccb5d131c3d0");
    forall i, j | 0 <= i < |groups| && 0 <= j < |groups[i]|
      ensures IsMacChar(groups[i][j])
    {
      HexIsMacChar(groups[i][j]);
    }
  }

  /** The example's six groups joined by `sep`, one group at a time. */
  lemma ExampleJoin(groups: seq<string>, sep: string, joined: string)
    requires groups == ["cc", "b5", "d1", "31", "c3", "d0"]
    requires joined == "cc" + sep + "b5" + sep + "d1" + sep + "31" + sep + "c3" + sep + "d0"
    ensures Join(groups, sep) == joined
  {
    var j5 := Join(groups[5..], sep);
    assert j5 == "d0" by { assert groups[5..] == ["d0"]; }
    var j4 := Join(groups[4..], sep);
    assert j4 == "c3" + sep + j5 by { assert groups[4..][1..] == groups[5..]; }
    var j3 := Join(groups[3..], sep);
    assert j3 == "31" + sep + j4 by { assert groups[3..][1..] == groups[4..]; }
    var j2 := Join(groups[2..], sep);
    assert j2 == "d1" + sep + j3 by { assert groups[2..][1..] == groups[3..]; }
    var j1 := Join(groups[1..], sep);
    assert j1 == "b5" + sep + j2 by { assert groups[1..][1..] == groups[2..]; }
    assert Join(groups, sep) == "cc" + sep + j1;
  }

  lemma ExampleUpper()
    ensures Upper("ccb5d131c3d0") == "CCB5D131C3D0"
  {
  }

  lemma HexIsMacChar(c: char)
    requires '0' <= c <= '9' || 'a' <= c <= 'f'
    ensures IsMacChar(c)
  {
  }

  /** A character a MAC group may hold: neither a separator nor whitespace. */
  predicate IsMacChar(c: char)
  {
    !IsMacSeparator(c) && !IsSpace(c)
  }

  /** Text without separators or whitespace is only upper-cased. */
  lemma CleanBare(s: string)
    requires forall k :: 0 <= k < |s| ==> IsMacChar(s[k])
    ensures CleanSensorMac(s) == Upper(s)
  {
    StripUnchanged(s);
    RemoveAbsent(s, ':');
    RemoveAbsent(s, '-');
  }

  /** The key set of a freshly written mapping item. */
  function MappingKeys(userId: string): set<string>
  {
    {"sensor_mac", "tuya_device_id", "enabled", "updated_at", "created_at"}
    + (if userId != "" then {"user_id"} else {})
  }

  datatype Upserted = Upserted(table: MappingTable, item: Item)

  /** `upsert_mapping`: writes a whole new item for `sensorMac`, keeping only
      `created_at` from the item it replaces. `readFails` stands for a failed
      `get_item`, after which the write goes ahead as if nothing were stored. */
  function UpsertMapping(table: MappingTable, sensorMac: string, tuyaDeviceId: string,
                         enabled: bool, userId: string, now: int, readFails: bool): (u: Upserted)
    ensures u.table.Keys == table.Keys + {sensorMac}
    ensures forall k :: k in table && k != sensorMac ==> u.table[k] == table[k]
    ensures u.table[sensorMac] == u.item
    ensures u.item.Keys == MappingKeys(userId)
    ensures u.item["sensor_mac"] == Str(sensorMac)
    ensures u.item["tuya_device_id"] == Str(tuyaDeviceId)
    ensures u.item["enabled"] == Bool(enabled)
    ensures u.item["updated_at"] == Int(now)
    ensures (!readFails && sensorMac in table && "created_at" in table[sensorMac])
              ==> u.item["created_at"] == table[sensorMac]["created_at"]
    ensures (readFails || sensorMac !in table || "created_at" !in table[sensorMac])
              ==> u.item["created_at"] == Int(now)
    ensures userId != "" ==> u.item["user_id"] == Str(userId)
  {
    var existing: Item := if readFails || sensorMac !in table then map[] else table[sensorMac];
    var base: Item := map[
      "sensor_mac" := Str(sensorMac),
      "tuya_device_id" := Str(tuyaDeviceId),
      "enabled" := Bool(enabled),
      "updated_at" := Int(now)];
    var created := if "created_at" in existing then existing["created_at"] else Int(now);
    var withCreated := base["created_at" := created];
    var item := if userId != "" then withCreated["user_id" := Str(userId)] else withCreated;
    Upserted(table[sensorMac := item], item)
  }

  /** A mapping rewritten later keeps the creation time of its first write. */
  lemma UpsertKeepsFirstCreation(table: MappingTable, mac: string, device1: string, device2: string,
                                 enabled1: bool, enabled2: bool, userId: string, t1: int, t2: int)
    ensures
      var first := UpsertMapping(table, mac, device1, enabled1, userId, t1, false);
      var second := UpsertMapping(first.table, mac, device2, enabled2, userId, t2, false);
      && second.item["created_at"] == first.item["created_at"]
      && second.item["updated_at"] == Int(t2)
      && second.table.Keys == first.table.Keys
  {
  }

  /** What a mapping request asks for once its body has been read. */
  datatype BindRequest =
    | Unreadable                 // reading a field raised: the body or a field has the wrong type
    | MissingMac
    | Delete(mac: string)
    | MissingDevice
    | Upsert(mac: string, device: string, enabled: bool)

  /** The direct-invocation branch of `_get_event_body_json`: an event without
      a `body` that names a sensor or a device is itself the body. */
  function EventBody(event: map<string, Value>, parsed: Option<Value>): (r: Value)
    ensures "body" !in event && ("sensor_mac" in event || "tuya_device_id" in event) ==> r == Dict(event)
    ensures "body" in event ==> r == ProxyBody(event, parsed)
  {
    if "body" !in event && ("sensor_mac" in event || "tuya_device_id" in event) then Dict(event)
    else ProxyBody(event, parsed)
  }

  /** `(v or "")` read as text, or `None` when a truthy non-string would make `.strip()` raise. */
  function TextField(v: Value): (r: Option<string>)
    ensures !Truthy(v) ==> r == Some("")
    ensures v.Str? ==> r == Some(v.s)
    ensures r.None? <==> Truthy(v) && !v.Str?
  {
    var t := Or(v, Str(""));
    if t.Str? then Some(t.s) else None
  }

  /** The validation part of `lambda_handler`, in the order the source checks. */
  function ParseBindRequest(body: Value): (req: BindRequest)
    ensures !body.Dict? ==> req == Unreadable
    ensures body.Dict? && TextField(Get(body.fields, "sensor_mac")).None? ==> req == Unreadable
    ensures body.Dict? && TextField(Get(body.fields, "sensor_mac")) == Some("") ==> req == MissingMac
    // the delete flag wins over everything after the MAC check
    ensures (&& body.Dict? && NormalizeBool(Get(body.fields, "delete"), false)
             && TextField(Get(body.fields, "sensor_mac")).Some?
             && CleanSensorMac(TextField(Get(body.fields, "sensor_mac")).value) != "")
              ==> req == Delete(CleanSensorMac(TextField(Get(body.fields, "sensor_mac")).value))
    ensures req.Delete? ==> body.Dict? && NormalizeBool(Get(body.fields, "delete"), false)
    ensures req.Delete? || req.Upsert? ==> req.mac != "" && req.mac == CleanSensorMac(TextField(Get(body.fields, "sensor_mac")).value)
    ensures req.MissingDevice? ==> body.Dict? && !NormalizeBool(Get(body.fields, "delete"), false)
    ensures req.Upsert? ==> (&& req.device != "" && TextField(Get(body.fields, "tuya_device_id")).Some?
                             && req.device == Strip(TextField(Get(body.fields, "tuya_device_id")).value))
    ensures req.Upsert? ==> !NormalizeBool(Get(body.fields, "delete"), false)
    ensures req.Upsert? && "enabled" !in body.fields ==> req.enabled
    // a MAC that cleans to nothing, blanks and separators included, is refused
    ensures (&& body.Dict? && TextField(Get(body.fields, "sensor_mac")).Some?
             && CleanSensorMac(TextField(Get(body.fields, "sensor_mac")).value) == "") ==> req == MissingMac
    // past the MAC check, an upsert turns on the stripped device id alone
    ensures (&& body.Dict? && !NormalizeBool(Get(body.fields, "delete"), false)
             && TextField(Get(body.fields, "sensor_mac")).Some?
             && CleanSensorMac(TextField(Get(body.fields, "sensor_mac")).value) != "") ==>
              var mac := CleanSensorMac(TextField(Get(body.fields, "sensor_mac")).value);
              var device := TextField(Get(body.fields, "tuya_device_id"));
              && (device.None? ==> req == Unreadable)
              && (device.Some? && Strip(device.value) == "" ==> req == MissingDevice)
              && (device.Some? && Strip(device.value) != "" ==>
                    req == Upsert(mac, Strip(device.value), NormalizeBool(Get(body.fields, "enabled"), true)))
  {
    if !body.Dict? then Unreadable
    else
      var f := body.fields;
      var deleteFlag := NormalizeBool(Get(f, "delete"), false);
      match TextField(Get(f, "sensor_mac"))
      case None => Unreadable
      case Some(raw) =>
        var mac := CleanSensorMac(raw);
        if mac == "" then MissingMac
        else if deleteFlag then Delete(mac)
        else
          match TextField(Get(f, "tuya_device_id"))
          case None => Unreadable
          case Some(rawDevice) =>
            var device := Strip(rawDevice);
            if device == "" then MissingDevice
            else Upsert(mac, device, NormalizeBool(Get(f, "enabled"), true))
  }

  datatype BindResponse = BindResponse(status: int, table: MappingTable, saved: Option<Item>)

  /** Carries out a parsed request against the table. */
  function ApplyBind(req: BindRequest, table: MappingTable, sharedUserId: string,
                     now: int, readFails: bool): (r: BindResponse)
    ensures req.Unreadable? ==> r.status == 500
    ensures req.MissingMac? || req.MissingDevice? ==> r.status == 400
    ensures r.status != 200 ==> r.table == table && r.saved.None?
    ensures req.Delete? ==> r.status == 200 && r.table == table - {req.mac} && r.saved.None?
    ensures req.Upsert? ==> r.status == 200 && r.saved.Some?
    ensures req.Upsert? ==> r.table == table[req.mac := r.saved.value]
    ensures req.Upsert? ==> r.saved.value.Keys == MappingKeys(sharedUserId)
    ensures req.Upsert? ==> r.saved.value["tuya_device_id"] == Str(req.device)
    ensures req.Upsert? ==> r.saved.value["enabled"] == Bool(req.enabled)
    ensures req.Upsert? && sharedUserId != "" ==> r.saved.value["user_id"] == Str(sharedUserId)
  {
    match req
    case Unreadable => BindResponse(500, table, None)
    case MissingMac => BindResponse(400, table, None)
    case MissingDevice => BindResponse(400, table, None)
    case Delete(mac) => BindResponse(200, table - {mac}, None)
    case Upsert(mac, device, enabled) =>
      var u := UpsertMapping(table, mac, device, enabled, sharedUserId, now, readFails);
      BindResponse(200, u.table, Some(u.item))
  }

  /** `lambda_handler` of the mapping writer. */
  function HandleBind(event: map<string, Value>, parsed: Option<Value>, table: MappingTable,
                      sharedUserId: string, now: int, readFails: bool): (r: BindResponse)
    ensures r.status in {200, 400, 500}
    ensures r.status != 200 ==> r.table == table
    ensures r.table.Keys <= table.Keys + {CleanSensorMacOf(EventBody(event, parsed))}
    ensures forall k :: k in table && k != CleanSensorMacOf(EventBody(event, parsed)) ==> k in r.table && r.table[k] == table[k]
  {
    ApplyBind(ParseBindRequest(EventBody(event, parsed)), table, sharedUserId, now, readFails)
  }

  /** The cleaned MAC a body names, `""` when it names none. */
  function CleanSensorMacOf(body: Value): string
  {
    if body.Dict? && TextField(Get(body.fields, "sensor_mac")).Some?
    then CleanSensorMac(TextField(Get(body.fields, "sensor_mac")).value) else ""
  }

  /** With the default shared user id, every upserted mapping records the user
      "qingping_shared". */
  lemma DefaultUserRecorded(table: MappingTable, mac: string, device: string, enabled: bool, now: int, readFails: bool)
    ensures UpsertMapping(table, mac, device, enabled, DefaultSharedUserId, now, readFails).item["user_id"]
            == Str("qingping_shared")
  {
  }

  /** A delete request needs no device id, and removes only its own sensor's mapping. */
  lemma DeleteIgnoresDevice(mac: string, table: MappingTable, sharedUserId: string, now: int, readFails: bool)
    requires CleanSensorMac(mac) != ""
    ensures
      var event := map["sensor_mac" := Str(mac), "delete" := Bool(true)];
      var r := HandleBind(event, None, table, sharedUserId, now, readFails);
      r.status == 200 && r.table == table - {CleanSensorMac(mac)}
  {
    var event := map["sensor_mac" := Str(mac), "delete" := Bool(true)];
    assert EventBody(event, None) == Dict(event);
  }

  /** A request whose MAC cleans to nothing is refused and writes nothing. */
  lemma BlankMacRejected(event: map<string, Value>, parsed: Option<Value>, table: MappingTable,
                         sharedUserId: string, now: int, readFails: bool)
    requires EventBody(event, parsed).Dict?
    requires TextField(Get(EventBody(event, parsed).fields, "sensor_mac")).Some?
    requires CleanSensorMac(TextField(Get(EventBody(event, parsed).fields, "sensor_mac")).value) == ""
    ensures HandleBind(event, parsed, table, sharedUserId, now, readFails) == BindResponse(400, table, None)
  {
  }

  /** An upsert whose device id is missing or blank is refused and writes nothing. */
  lemma BlankDeviceRejected(event: map<string, Value>, parsed: Option<Value>, table: MappingTable,
                            sharedUserId: string, now: int, readFails: bool, device: string)
    requires EventBody(event, parsed).Dict?
    requires !NormalizeBool(Get(EventBody(event, parsed).fields, "delete"), false)
    requires TextField(Get(EventBody(event, parsed).fields, "sensor_mac")).Some?
    requires CleanSensorMac(TextField(Get(EventBody(event, parsed).fields, "sensor_mac")).value) != ""
    requires TextField(Get(EventBody(event, parsed).fields, "tuya_device_id")) == Some(device)
    requires Strip(device) == ""
    ensures HandleBind(event, parsed, table, sharedUserId, now, readFails) == BindResponse(400, table, None)
  {
  }
}

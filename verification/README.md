# Qingping and Tuya Lambda handlers in Dafny

This project models the five AWS Lambda handlers behind the Qingping sensor
and Tuya smart-plug dashboard:

- the **mapping writer**, which binds a Qingping sensor's MAC to a Tuya plug or
  deletes that binding;
- the **CSV export**, which pages through a sensor's readings for a time range,
  adds the switch logs of the plug mapped to the sensor, and writes a
  six-column CSV file;
- the **plug list**, which pages through every Tuya device in a space and
  returns a name-sorted dropdown list;
- the **Qingping binding**, which gets an OAuth token, binds a device and
  records it in the devices table;
- the **push webhook**, which checks the HMAC signature of a Qingping push.

Each handler is a pure function. It maps the event, the outside world and
the warm-container state to the reply and the new state. The outside world
is the DynamoDB tables as maps, HTTP replies as decoded JSON values, and the
clock as a number. The warm-container state is the token caches. Python's
dynamic values are the `Values.Value` datatype. `str()`, truthiness,
`dict.get`, `x or y`, `int()` and `str.strip()` are written out over it. An
exception that a handler's `try` catches becomes the status that handler
answers with. An exception outside every `try` is a `Crashed` outcome.

Shared pieces, each proved once:

- `Text`: strip, ASCII case mapping, decimal digits, code-point order, split
  and join.
- `Sorting`: a stable insertion sort by a text key. It is proved sorted, a
  permutation, and stable.
- `Rfc4180`: the CSV quoting of section 2 of RFC 4180, with a reader. Writing
  a table and reading it back gives the table.
- `UrlEncoding`: `quote_plus`, which is UTF-8 (RFC 3629) followed by the
  percent-encoding of section 2.1 of RFC 3986. It comes with a decoder and a
  round-trip proof.
- `Paging`: the cursor loops of all three paginated endpoints. The loop is a
  method, proved equal to a recursive definition and to "every page up to the
  first that does not ask for more".
- `TuyaApi`: the canonical query string, the Tuya reply check, and the cached
  Tuya token.

## Model

| member | source | states |
|---|---|---|
| ApiGateway.ContextMethod | aws_webhook/download_sensor_and_plug_csv.py:318 | reads `requestContext.http.method`. A missing context or a missing `http` part gives no method. A context or `http` part that is not an object makes the lookup raise. Otherwise the result is the `method` entry, null when it is absent. |
| ApiGateway.ProxyBody | aws_webhook/qingping_bind_device.py:37-51 | the request body. A missing body or any failed decoding gives `{}`. An object body is used as it is, except under base64, where it gives `{}`. Otherwise the body is what JSON decoding produced. |
| ApiGateway.RequestMethod | aws_webhook/fetch_tuya_plugs_list.py:163 | a text method is upper-cased. A falsy method, including a missing one, reads as the empty method, so it is never a preflight. A truthy method that is not text raises, and so does a lookup that raised. |
| Values.ToInt | aws_webhook/qingping_bind_device.py:84 | Python `int()`. It truncates floats toward zero and maps booleans to 0 and 1. Text parses exactly when, once stripped, it is decimal digits with an optional `+` or `-`; the value is the digits' value with that sign. None, lists and objects raise. |
| Values.ParseInt | aws_webhook/qingping_bind_device.py:84 | `int()` of text succeeds exactly on stripped digits with an optional sign, and gives the signed value of the digits. |
| Values.ParseIntRoundTrip | aws_webhook/download_sensor_and_plug_csv.py:194 | `int(str(n)) == n` for every integer. |
| Text.NatToStringRoundTrip | aws_webhook/download_sensor_and_plug_csv.py:94-95 | the decimal text of a natural number is all digits and reads back as that number. |
| Text.SplitJoin | aws_webhook/download_sensor_and_plug_csv.py:312-313 | splitting a join on its separator gives the parts back when no part holds the separator. |
| Sorting.SortBy | aws_webhook/fetch_tuya_plugs_list.py:188 | the result is a permutation of the input, ordered by key in code-point order. Elements with equal keys keep their input order, as Python's stable `list.sort` does. |
| Rfc4180.ReadFieldRoundTrip | aws_webhook/download_sensor_and_plug_csv.py:264-265 | a quoted field reads back as itself. The reader stops exactly at the field's end. |
| Rfc4180.ReadTableRoundTrip | aws_webhook/download_sensor_and_plug_csv.py:310-313 | reading a written file gives back every record, field by field. |
| UrlEncoding.QuotePlus | aws_webhook/download_sensor_and_plug_csv.py:127 | `quote_plus` writes only unreserved characters, `%` and `+`. |
| UrlEncoding.QuotePlusRoundTrip | aws_webhook/download_sensor_and_plug_csv.py:127 | `unquote_plus(quote_plus(s)) == s` for every text. |
| UrlEncoding.Utf8RoundTrip | aws_webhook/download_sensor_and_plug_csv.py:127 | decoding the UTF-8 encoding of a text gives the text. |
| Paging.CollectLoop | aws_webhook/download_sensor_and_plug_csv.py:211-223 | the `while True` paging loop returns the items of every page up to the first that does not ask for more, or fails if a request fails. The first request carries the initial cursor. Each later one carries the cursor of the page before it, which asked for more. |
| Paging.CollectIsFlatten | aws_webhook/download_sensor_and_plug_csv.py:225-251 | when the n-th page is the first that stops, the result is pages 1 to n concatenated in order. |
| Paging.CollectFailsOnFailedRequest | aws_webhook/fetch_tuya_plugs_list.py:145 | a failed request before the stopping page fails the whole listing. |
| TuyaApi.Cleaned | aws_webhook/download_sensor_and_plug_csv.py:126 | keeps exactly the pairs whose value is neither None nor empty text, in order. |
| TuyaApi.CanonicalQuery | aws_webhook/download_sensor_and_plug_csv.py:123-127 | an empty query gives the empty string. |
| TuyaApi.CanonicalQueryRoundTrip | aws_webhook/download_sensor_and_plug_csv.py:123-127 | decoding the canonical query gives the kept pairs, sorted by key. Each list value is expanded into one pair per element. Every key and value is recovered exactly. |
| TuyaApi.CanonicalQuerySorted | aws_webhook/fetch_tuya_plugs_list.py:47-51 | the pairs in the canonical query are in key order. |
| TuyaApi.ExpandScalars | aws_webhook/fetch_tuya_plugs_list.py:51 | without list values, `doseq` gives one pair per key, with `str` of the value. |
| TuyaApi.TuyaResponse | aws_webhook/download_sensor_and_plug_csv.py:152-184 | a reply is accepted exactly when the credentials are set, the request went through, and the reply is not an object with `success` false. |
| TuyaApi.ResultObject | aws_webhook/download_sensor_and_plug_csv.py:191-192 | `data.get("result") or {}`. A falsy result gives `{}` and an object result gives its fields. It raises exactly when the reply is not an object or its truthy `result` is not an object. |
| TuyaApi.GetTuyaToken | aws_webhook/download_sensor_and_plug_csv.py:186-201 | a live cached token is returned with no request. A failure leaves the cache as it was. Otherwise a token is returned exactly when the reply is accepted, its result is an object with a truthy `access_token`, and `expire_time` reads as an integer. The token is cached until `now + expire_time - 60`. |
| TuyaApi.ColdStartFetchesToken | aws_webhook/download_sensor_and_plug_csv.py:186-201 | from the empty cache of a cold start, a reply with a token and an `expire_time` gives that token, cached for `expire_time - 60` seconds. |
| TuyaApi.TokenReusedUntilExpiry | aws_webhook/fetch_tuya_plugs_list.py:104-120 | after a token is fetched, every call before its cached expiry returns it with no request, whatever the server would answer. |
| TuyaApi.MissingTokenFails | aws_webhook/download_sensor_and_plug_csv.py:196-197 | a reply without `access_token` is an error and leaves the cache unchanged. |
| TuyaApi.DefaultLifetime | aws_webhook/download_sensor_and_plug_csv.py:194-200 | without `expire_time`, a token is kept for 7200 - 60 seconds. |
| SensorPlugBind.NormalizeBool | aws_webhook/qingpingSensor_plug_bind.py:60-73 | booleans, numbers and the listed words decide the flag. Anything else gives the default. |
| SensorPlugBind.NormalizeBoolIgnoresCase | aws_webhook/qingpingSensor_plug_bind.py:68 | the flag words are read in any letter case. |
| SensorPlugBind.NormalizeBoolIdempotent | aws_webhook/qingpingSensor_plug_bind.py:63-64 | a boolean is returned as it is, so normalising a normalised flag again changes nothing, whatever the default. |
| SensorPlugBind.NormalizeBoolReadsPythonBool | aws_webhook/qingpingSensor_plug_bind.py:69-72 | `str(True)` and `str(False)` read back as the boolean. |
| SensorPlugBind.CleanSensorMac | aws_webhook/qingpingSensor_plug_bind.py:75-78 | the cleaned MAC holds no `:`, no `-` and no lower-case letter, and is no longer than the input. |
| SensorPlugBind.CleanSensorMacLength | aws_webhook/qingpingSensor_plug_bind.py:77 | the cleaned MAC is as long as the stripped text less its `:` and `-` characters. |
| SensorPlugBind.DefaultUserRecorded | aws_webhook/qingpingSensor_plug_bind.py:155-156 | with the default shared user id, an upserted mapping records the user "qingping_shared". |
| SensorPlugBind.CleanSensorMacIgnoresSeparators | aws_webhook/qingpingSensor_plug_bind.py:76-77 | groups of MAC characters joined by `:` or `-` clean to the same key as the groups written together, and that key is the groups upper-cased, in order. |
| SensorPlugBind.CleanSensorMacExample | aws_webhook/qingpingSensor_plug_bind.py:76-77 | "cc:b5:d1:31:c3:d0" cleans to "CCB5D131C3D0". |
| Text.RemoveLength | aws_webhook/qingpingSensor_plug_bind.py:77 | `replace(c, "")` shortens the text by exactly the number of `c`s in it. |
| Text.RemoveConcat | aws_webhook/qingpingSensor_plug_bind.py:77 | removing a character from two texts written one after the other is removing it from each in turn, so the kept characters stay in order. |
| Text.RemoveJoin | aws_webhook/qingpingSensor_plug_bind.py:77 | removing the separator from parts joined by it gives the parts written together, when no part holds it. |
| SensorPlugBind.CleanSensorMacKeepsCanonical | aws_webhook/qingpingSensor_plug_bind.py:76-77 | a MAC already in the stored form ("CCB5D131C3D0") is unchanged. |
| SensorPlugBind.CleanSensorMacIgnoresCase | aws_webhook/qingpingSensor_plug_bind.py:77 | a MAC in either letter case cleans to the same key. |
| SensorPlugBind.UpsertMapping | aws_webhook/qingpingSensor_plug_bind.py:80-117 | writes a whole new item under the MAC and leaves the other keys unchanged. The new item keeps only `created_at` from the item it replaces. `created_at` is now when there was no item or its read failed. `user_id` is written only when one is set. |
| SensorPlugBind.UpsertKeepsFirstCreation | aws_webhook/qingpingSensor_plug_bind.py:108-111 | a mapping rewritten later keeps its first creation time and takes the new update time. |
| SensorPlugBind.EventBody | aws_webhook/qingpingSensor_plug_bind.py:39-40 | an event without `body` that names a sensor or a device is itself the body. |
| SensorPlugBind.TextField | aws_webhook/qingpingSensor_plug_bind.py:141 | `(v or "")` as text. A truthy value that is not text raises. |
| SensorPlugBind.ParseBindRequest | aws_webhook/qingpingSensor_plug_bind.py:136-153 | the request is checked in the source's order. A MAC that cleans to nothing is refused first. A true delete flag wins over everything after that. Otherwise an unreadable device id raises, a blank one is refused, and any other gives an upsert of the cleaned MAC, the stripped device id and `enabled`, which defaults to true. |
| SensorPlugBind.ApplyBind | aws_webhook/qingpingSensor_plug_bind.py:142-168 | a delete removes only that MAC. An upsert stores the item it returns. A refused request changes nothing. |
| SensorPlugBind.HandleBind | aws_webhook/qingpingSensor_plug_bind.py:119-172 | the status is 200, 400 or 500. Only the named sensor's entry can change. |
| SensorPlugBind.DeleteIgnoresDevice | aws_webhook/qingpingSensor_plug_bind.py:145-147 | a delete request needs no device id. |
| SensorPlugBind.BlankDeviceRejected | aws_webhook/qingpingSensor_plug_bind.py:149-151 | a device id that strips to nothing gets 400 and writes nothing. |
| SensorPlugBind.BlankMacRejected | aws_webhook/qingpingSensor_plug_bind.py:141-143 | a MAC that cleans to nothing gets 400 and writes nothing. |
| CsvDownload.CsvEscape | aws_webhook/download_sensor_and_plug_csv.py:258-266 | None gives the empty cell. A cell without a comma, quote or line break is written as it is. Any other cell is enclosed in quotes. |
| CsvDownload.CsvEscapeRoundTrip | aws_webhook/download_sensor_and_plug_csv.py:258-266 | unquoting an escaped cell gives the cell's text. |
| CsvDownload.CsvTextReadsBack | aws_webhook/download_sensor_and_plug_csv.py:310-313 | the joined lines read back as every row's cell texts. |
| CsvDownload.ItemSeconds | aws_webhook/download_sensor_and_plug_csv.py:278-279 | a reading without a time has no seconds. An integer time is used as it is. |
| CsvDownload.ReportedAttributes | aws_webhook/download_sensor_and_plug_csv.py:281-284 | exactly the attributes that are not the two keys and hold a string, number or boolean. |
| CsvDownload.TimeIso | aws_webhook/download_sensor_and_plug_csv.py:280 | a missing or zero time renders as the empty text. Any other time is rendered, and fails where the rendering raises. |
| CsvDownload.ItemRows | aws_webhook/download_sensor_and_plug_csv.py:277-292 | one six-column `sensor` row per reported attribute, with the rendered time, the seconds, the MAC, the attribute name and `str` of its value. It fails exactly when the time cannot be converted or rendered. |
| CsvDownload.SensorRows | aws_webhook/download_sensor_and_plug_csv.py:277-292 | every reading contributes its rows, all six-column sensor rows for the MAC. It fails exactly when some reading's time cannot be converted with `int()` or rendered by `fromtimestamp`. |
| CsvDownload.MillisToSeconds | aws_webhook/download_sensor_and_plug_csv.py:297 | `int(ms / 1000)` truncates toward zero for both signs. |
| CsvDownload.Metric | aws_webhook/download_sensor_and_plug_csv.py:299 | the log's `code`, or the configured switch code when that is falsy. |
| CsvDownload.PlugRow | aws_webhook/download_sensor_and_plug_csv.py:295-308 | one six-column `plug` row, with the rendered time, the seconds, the MAC, the metric and `str` of the value. A log that is not an object raises, and so does an event time that cannot be converted or rendered. |
| CsvDownload.PlugRows | aws_webhook/download_sensor_and_plug_csv.py:295-308 | one row per log, in log order. |
| CsvDownload.BuildRows | aws_webhook/download_sensor_and_plug_csv.py:268-308 | the rows exist exactly when every reading's time converts and renders and every switch log gives its row. The header comes first, and there are 1 + reported attributes + logs rows. |
| CsvDownload.BuildRowsLayout | aws_webhook/download_sensor_and_plug_csv.py:268-308 | every row has six cells. Rows 1 to the number of reported attributes are sensor rows; after them come exactly the plug rows, one per log, in log order. |
| CsvDownload.BuildCsv | aws_webhook/download_sensor_and_plug_csv.py:268-313 | the file exists exactly when the rows do, and it reads back as every row's cell texts. |
| CsvDownload.BuildCsvReadsBack | aws_webhook/download_sensor_and_plug_csv.py:268-313 | the file reads back as the header's six names, followed by every row's cell texts. |
| CsvDownload.ParseTime | aws_webhook/download_sensor_and_plug_csv.py:88-118 | None raises. An all-digit stripped `str` of the value is epoch seconds. Anything else goes to the date and ISO branches. |
| CsvDownload.ParseTimeEpoch | aws_webhook/download_sensor_and_plug_csv.py:91-95 | epoch seconds, as digits with or without surrounding whitespace or as an integer, parse to themselves. |
| CsvDownload.QueryParams | aws_webhook/download_sensor_and_plug_csv.py:84-86 | the query parameters when they form an object, otherwise `{}`. |
| CsvDownload.ParseLogPage | aws_webhook/download_sensor_and_plug_csv.py:240-246 | a page is read exactly when the reply is accepted, its `result` is falsy or an object, and its `logs` is falsy or a list. The page's logs are `result.get("logs") or []`, `hasMore` is `bool(result.get("has_more"))`, and the cursor is `result.get("last_row_key") or ""`. |
| CsvDownload.LogQuery | aws_webhook/download_sensor_and_plug_csv.py:231-238 | the switch code, the range in milliseconds and the page size of 100 are sent. `last_row_key` is sent exactly when the cursor is truthy. |
| CsvDownload.FetchSwitchLogs | aws_webhook/download_sensor_and_plug_csv.py:225-251 | a failed first request fails the fetch. A page that does not say `has_more` with a truthy `last_row_key` is the last, and its logs are the result. Otherwise its logs come before those of the pages after it. |
| CsvDownload.FetchAllSwitchLogs | aws_webhook/download_sensor_and_plug_csv.py:225-251 | the request loop returns the logs of every page. The first query has no `last_row_key`. Each later one carries the key of the page before it, which said `has_more` with a truthy key. |
| CsvDownload.EmptyCursorStops | aws_webhook/download_sensor_and_plug_csv.py:245-249 | a page that says `has_more` but has an empty cursor is the last one. |
| CsvDownload.PlugDevice | aws_webhook/download_sensor_and_plug_csv.py:354-358 | a plug is found exactly when the mapping read succeeds and the item has a truthy `tuya_device_id`. |
| CsvDownload.BoundPlugIsRead | aws_webhook/download_sensor_and_plug_csv.py:354-358 | after the mapping writer stores device D for a sensor, the export reads D's logs for that sensor. |
| CsvDownload.PlugLogs | aws_webhook/download_sensor_and_plug_csv.py:353-367 | without a plug nothing is requested. A failed token or log request leaves no logs, but a fetched token stays cached. |
| CsvDownload.ParseRequest | aws_webhook/download_sensor_and_plug_csv.py:323-337 | the checks run in the source's order. A MAC that cannot be read gives 500 and one that cleans to nothing gives 400. A missing time gives 400. When both times are present, a failed parse gives 500, a reversed range 400, and otherwise the request is accepted with the cleaned MAC and both parsed times. |
| CsvDownload.ReversedRangeRefused | aws_webhook/download_sensor_and_plug_csv.py:334-337 | an end that parses to before the start, in any format, is refused with 400. |
| CsvDownload.ReversedEpochRangeRefused | aws_webhook/download_sensor_and_plug_csv.py:91-95 | the same for a range written in epoch seconds. |
| CsvDownload.BlankSensorRefused | aws_webhook/download_sensor_and_plug_csv.py:325-327 | a MAC made only of whitespace and separators gets 400. |
| CsvDownload.Serve | aws_webhook/download_sensor_and_plug_csv.py:339-377 | a failed readings query gives 500 and no readings give 404, both with the cache untouched. A 200 carries the CSV of all readings and the plug logs. The token cache changes only when a plug is mapped. |
| CsvDownload.HandleDownload | aws_webhook/download_sensor_and_plug_csv.py:316-377 | crashes exactly when reading the method raises. A preflight gets 200. The status is 200, 400, 404 or 500. Only a 200 carries a CSV. A 400 changes nothing. |
| CsvDownload.MissingSensorRefused | aws_webhook/download_sensor_and_plug_csv.py:325-327 | a request without `sensor_mac` gets 400 before any table is read. |
| CsvDownload.NoReadingsNotFound | aws_webhook/download_sensor_and_plug_csv.py:340-350 | when the first readings page is empty and carries no `LastEvaluatedKey`, the answer is 404. The token cache is left untouched and no plug is looked up. |
| CsvDownload.UnrenderableReadingFails | aws_webhook/download_sensor_and_plug_csv.py:280 | a reading whose time `fromtimestamp` cannot render fails the export with 500. |
| CsvDownload.TokenFailureKeepsSensorRows | aws_webhook/download_sensor_and_plug_csv.py:359-365 | when the Tuya token cannot be had, the sensor CSV is still returned. |
| TuyaPlugList.ParseDevicePage | aws_webhook/fetch_tuya_plugs_list.py:145-151 | `result or []` is the page. A non-empty page's cursor is the `id` of its last device, which must be an object. |
| TuyaPlugList.DeviceQuery | aws_webhook/fetch_tuya_plugs_list.py:136-143 | the space and a page size of 20 are sent. `last_id` is sent exactly when the cursor is truthy, and `categories` exactly when a filter is set. |
| TuyaPlugList.ListAllDevices | aws_webhook/fetch_tuya_plugs_list.py:123-157 | the devices of every page, in order. The first request has no `last_id`. Each later one carries the last id of the full page before it. |
| TuyaPlugList.ShortPageEndsListing | aws_webhook/fetch_tuya_plugs_list.py:154-155 | a page of fewer than 20 devices is the last one requested. |
| TuyaPlugList.FullPageContinues | aws_webhook/fetch_tuya_plugs_list.py:150-155 | after a full page the next page is fetched, and both pages' devices are listed in order. |
| TuyaPlugList.MissingLastIdRepeatsFirstQuery | aws_webhook/fetch_tuya_plugs_list.py:150-155 | a full page whose last device has no `id` asks for more with no `last_id`, so the next query is the first one again. |
| TuyaPlugList.RepeatedFullPageNeverEnds | aws_webhook/fetch_tuya_plugs_list.py:135-155 | if every reply is the same full page, the loop never stops on its own: it only ends when a request fails. |
| TuyaPlugList.Project | aws_webhook/fetch_tuya_plugs_list.py:180-185 | the name is the first truthy of `customName`, `custom_name` and `name`. `isOnline` wins when the key is present, even if null. |
| TuyaPlugList.ProjectAll | aws_webhook/fetch_tuya_plugs_list.py:178-185 | one entry per device, in order. It fails exactly when a device is not an object. |
| TuyaPlugList.NameKey | aws_webhook/fetch_tuya_plugs_list.py:188 | a falsy name sorts as the empty text. A text name sorts by its lower-case form. |
| TuyaPlugList.SortPlugs | aws_webhook/fetch_tuya_plugs_list.py:188 | sorted by lower-cased name, as a stable permutation. It fails exactly when some name is truthy and not text. |
| TuyaPlugList.NameKeyIgnoresCase | aws_webhook/fetch_tuya_plugs_list.py:188 | names that differ only in letter case sort together. |
| TuyaPlugList.ListPlugs | aws_webhook/fetch_tuya_plugs_list.py:174-195 | a failed token gives 500 with the cache unchanged. A 200 lists the projection of every device, sorted. |
| TuyaPlugList.HandlePlugList | aws_webhook/fetch_tuya_plugs_list.py:161-199 | a preflight gets 200. Without a space id the reply is 400 before any request, with the cache unchanged. A 200 list is sorted by name. |
| TuyaPlugList.ListedCountsEveryDevice | aws_webhook/fetch_tuya_plugs_list.py:178-195 | the sorted list `ListPlugs` returns has one entry per device listed, so `count` is the number of devices. Every device appears in it, projected. |
| QingpingBind.GetAccessToken | aws_webhook/qingping_bind_device.py:53-91 | a live token is used with no request. Missing credentials fail before any request. An HTTP error gives 502 and any other failure 500, each leaving the cache unchanged. A JSON object reply with a truthy token and a positive integer `expires_in` gives that token, cached until `now + expires_in - 60`; any other JSON reply gives 500. |
| QingpingBind.ColdStartFetchesToken | aws_webhook/qingping_bind_device.py:53-91 | from the empty cache of a cold start, a two-hour token is fetched and cached for 7140 seconds. |
| QingpingBind.AccessTokenReused | aws_webhook/qingping_bind_device.py:58-60 | a fetched token is reused with no request until its cached expiry. |
| QingpingBind.ShortLivedTokenNotReused | aws_webhook/qingping_bind_device.py:86-90 | a token living 60 seconds or less is cached already expired, so the next call asks again. |
| QingpingBind.BindInfo | aws_webhook/qingping_bind_device.py:114 | `(result or {}).get("info", {}) or {}`. It raises exactly when the result or the info is truthy and not an object. |
| QingpingBind.DeviceItem | aws_webhook/qingping_bind_device.py:119-128 | the stored item has exactly the eight fields. It is enabled, and its bound time is now. |
| QingpingBind.SaveBoundDevice | aws_webhook/qingping_bind_device.py:113-130 | a reply without a truthy MAC writes nothing. Otherwise only the MAC's entry changes, to the new item. |
| QingpingBind.StrippedText | aws_webhook/qingping_bind_device.py:144-145 | `(v or default).strip()`. A truthy value that is not text raises. |
| QingpingBind.ParseBindInput | aws_webhook/qingping_bind_device.py:142-154 | the reply is 400 exactly when the device token is empty or the product id is missing. A body that is not an object, or an unreadable field, gives 500. A readable body with a device token and a product id is accepted exactly when `int()` of the product id succeeds, and then carries the stripped texts and that integer. |
| QingpingBind.BindAndSave | aws_webhook/qingping_bind_device.py:154-182 | the token is fetched before binding, and a token failure gives its status. With a token, an HTTP error from the bind call gives 502 and any other raised call 500. A JSON reply gives 200 exactly when it can be saved, and 500 otherwise. The table changes only on 200, which reports the saved MAC, name and product. |
| QingpingBind.HandleBind | aws_webhook/qingping_bind_device.py:132-182 | the status is 200, 400, 502 or 500. An input error is answered with its own status (400, or 500 for an unreadable body or product id) before any request, touching neither the cache nor the table. Accepted input goes on to the token and the bind call. |
| QingpingBind.MissingDeviceTokenRefused | aws_webhook/qingping_bind_device.py:148-152 | a body without a device token gets 400 before any request. |
| QingpingBind.UserDefaultsToDev | aws_webhook/qingping_bind_device.py:144 | without `user_id`, the device is recorded for the user "dev". |
| Webhook.VerifySignature | aws_webhook/lambda_function.py:13-28 | true exactly when the secret, the `str` of the timestamp, the token and the signature are all non-empty, token and signature are text, and the signature equals the HMAC of timestamp followed by token. |
| Webhook.SignedBlockVerifies | aws_webhook/lambda_function.py:15-25 | a block signed with the secret passes. |
| Webhook.NoSecretNoEntry | aws_webhook/lambda_function.py:18-19 | without a secret nothing passes. |
| Webhook.ForgedSignatureRefused | aws_webhook/lambda_function.py:20-25 | a signature different from the HMAC of its own timestamp and token fails. |
| Webhook.WebhookMethod | aws_webhook/lambda_function.py:45 | the context method, or `httpMethod` when that is falsy. |
| Webhook.HandleWebhook | aws_webhook/lambda_function.py:44-74 | anything but an exact "POST" is a health check. A body that cannot be decoded gets 400, and decoded JSON that is not an object raises. An object body gets 401 exactly when its signature block fails to verify. It is acknowledged exactly when the block verifies and `payload` is an object. |
| Webhook.LowerCasePostIsHealthCheck | aws_webhook/lambda_function.py:49-50 | the method comparison is case-sensitive, and the health check answers 200. |
| Webhook.SignedPushAcknowledged | aws_webhook/lambda_function.py:62-74 | a correctly signed push whose `payload` is an object is acknowledged with 200. |

## Left out

- HTTP transport, `uuid` nonces, SHA-256 and HMAC are not modelled. The request signature built by `_tuya_sign` is left out, and so is the Basic authorisation header. The webhook's HMAC is a function parameter.
- JSON and base64 decoding are left out. Their results are given as parameters. `json.dumps` of lists and objects, `str()` of floats, and `str()` of containers are given as functions (`Values.Repr`).
- Response envelopes are left out: headers, CORS values, JSON message texts and the CSV file name. The model keeps the status and the data the reply carries.
- Logging is left out. It has no effect on the replies.
- DynamoDB failures of `put_item` and `delete_item` are not modelled. They would be answered with 500. The mapping read of the export and of `upsert_mapping` is modelled, including its failure.
- The readings query's key condition is not modelled. The readings pages are given already restricted to the sensor and the range.
- Decimal is left out. DynamoDB numbers are modelled as `Int` or `Float`, so `_to_number` is the identity on them.
- Floats are exact reals (`Values.Float`). NaN, positive and negative infinity and float rounding are not modelled. Python's `json.loads` accepts `NaN` and `Infinity`, and on them `int()` raises (a `product_id` of NaN gets 500, an `expires_in` of Infinity fails the token) while `_normalize_bool(NaN)` gives true.
- The date-only and ISO branches of `_parse_time` depend on the local time zone. They are the `otherFormats` parameter. The local rendering of `time_iso` is the `isoTime` parameter, which gives nothing where `datetime.fromtimestamp` raises.
- Python's `str.lower`, `str.upper` and `str.isdigit` are modelled on ASCII only. `int()` of text accepts ASCII digits with an optional sign, without underscores.
- CsvDownload.MillisToSeconds: divides exactly, while Python's float division rounds for millisecond values above 2^53.
- SensorPlugBind.CleanSensorMac: its own contract states only the shape of the key. Which characters are kept, and in what order, is stated by separate lemmas: `CleanSensorMacLength`, `CleanSensorMacIgnoresSeparators` and `Text.RemoveConcat`.
- TuyaApi.CanonicalQuery: requires that no value is an object. `urlencode` with `doseq` would iterate an object's keys. The paging cursors `last_id` and `last_row_key` come from replies and reach the query unchecked, but no well-formed reply gives an object cursor, and the model does not feed the reply cursors of its paging loops into `CanonicalQuery`.
- CsvDownload.ParseLogPage: a truthy `logs` value that is not a list fails the page. Python's `extend` would accept any iterable. The answers differ for a text or object value. Python extends the logs by its characters or keys, and `build_csv` then raises on them, so the export answers 500. The model drops the plug logs, and the export answers 200 with the sensor rows only.
- Webhook.VerifySignature: `hmac.compare_digest` raises on non-ASCII text, which also gives false. The model compares the texts directly, with the same result.
- A listing loop that never ends is not modelled as such. The replies are a finite sequence, so where Python would keep requesting until the Lambda times out, the model runs out of replies and fails the listing (`TuyaPlugList.RepeatedFullPageNeverEnds`).
- The Qingping bind request's `timestamp` and the `bound_at` time are one clock reading `now`.

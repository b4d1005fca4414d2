/**
 * The CSV export: validates a download request, pages through the sensor's
 * readings, adds the switch logs of the plug mapped to the sensor when there
 * is one, and writes both as a six-column CSV file.
 *
 * Readings pages, the mapping table, the Tuya replies, the local-time
 * rendering of an instant and the date and ISO branches of time parsing are
 * all given to the model from outside.
 */
module CsvDownload {
  import opened Text
  import opened Values
  import opened ApiGateway
  import opened Rfc4180
  import opened Paging
  import opened TuyaApi
  import SensorPlugBind

  /** The environment settings the export reads: the readings table's
      partition and sort key names and the Tuya switch code. */
  datatype Config = Config(partitionKey: string, sortKey: string, switchCode: string)

  const DefaultConfig := Config("sensor_mac", "ts", "switch_1")

  /** A readings item with its attributes in the order DynamoDB returns them. */
  type Attributes = seq<(string, Value)>

  /** One CSV row before escaping. */
  type Row = seq<Value>

  const Header: Row := [Str("source"), Str("time_iso"), Str("time_epoch_s"), Str("sensor_mac"), Str("metric"), Str("value")]

  const Columns := 6

  // ---- Cells ----

  /** The text `_csv_escape` starts from: nothing for `None`, JSON for a list
      or an object, `str` for the rest. */
  function CellText(v: Value, repr: Repr): string
  {
    match v
    case Null => ""
    case List(_) => repr.jsonText(v)
    case Dict(_) => repr.jsonText(v)
    case _ => PyStr(v, repr)
  }

  /** `_csv_escape(v)`. */
  function CsvEscape(v: Value, repr: Repr): (r: string)
    ensures v.Null? ==> r == ""
    ensures !NeedsQuotes(CellText(v, repr)) ==> r == CellText(v, repr)
    ensures NeedsQuotes(CellText(v, repr)) ==> |r| >= 2 && r[0] == '"' && r[|r| - 1] == '"'
  {
    QuoteField(CellText(v, repr))
  }

  /** Unquoting an escaped cell recovers the cell's text. */
  lemma CsvEscapeRoundTrip(v: Value, repr: Repr)
    ensures ReadField(CsvEscape(v, repr)) == (CellText(v, repr), "")
  {
    UnquoteRoundTrip(CellText(v, repr));
  }

  function RowTexts(row: Row, repr: Repr): (r: seq<string>)
    ensures |r| == |row|
    ensures forall i :: 0 <= i < |row| ==> r[i] == CellText(row[i], repr)
  {
    seq(|row|, i requires 0 <= i < |row| => CellText(row[i], repr))
  }

  function TableTexts(rows: seq<Row>, repr: Repr): (r: seq<seq<string>>)
    ensures |r| == |rows|
    ensures forall i :: 0 <= i < |rows| ==> r[i] == RowTexts(rows[i], repr)
  {
    seq(|rows|, i requires 0 <= i < |rows| => RowTexts(rows[i], repr))
  }

  /** `",".join(_csv_escape(x) for x in r)`. */
  function CsvLine(row: Row, repr: Repr): string
  {
    Join(seq(|row|, i requires 0 <= i < |row| => CsvEscape(row[i], repr)), ",")
  }

  function CsvLines(rows: seq<Row>, repr: Repr): (r: seq<string>)
    ensures |r| == |rows|
    ensures forall i :: 0 <= i < |rows| ==> r[i] == CsvLine(rows[i], repr)
  {
    seq(|rows|, i requires 0 <= i < |rows| => CsvLine(rows[i], repr))
  }

  /** The last two lines of `build_csv`. */
  function CsvText(rows: seq<Row>, repr: Repr): string
  {
    Join(CsvLines(rows, repr), "\n") + "\n"
  }

  lemma CsvLineIsRecord(row: Row, repr: Repr)
    ensures CsvLine(row, repr) == EncodeRecord(RowTexts(row, repr))
  {
    assert seq(|row|, i requires 0 <= i < |row| => CsvEscape(row[i], repr)) == QuoteAll(RowTexts(row, repr));
  }

  /** Reading the written file back gives every row's cell texts, row by row
      and field by field. */
  lemma CsvTextReadsBack(rows: seq<Row>, repr: Repr)
    requires |rows| > 0
    requires forall i :: 0 <= i < |rows| ==> |rows[i]| > 0
    ensures ReadTable(CsvText(rows, repr)) == TableTexts(rows, repr)
  {
    var texts := TableTexts(rows, repr);
    forall i | 0 <= i < |rows|
      ensures CsvLines(rows, repr)[i] == EncodeRecords(texts)[i]
    {
      CsvLineIsRecord(rows[i], repr);
    }
    assert CsvLines(rows, repr) == EncodeRecords(texts);
    JoinLinesTerminated(texts);
    ReadTableRoundTrip(texts);
  }

  // ---- Rows ----

  /** `it.get(k)` on an item. */
  function Lookup(item: Attributes, k: string): Value
  {
    if |item| == 0 then Null else if item[0].0 == k then item[0].1 else Lookup(item[1..], k)
  }

  /** `str(ts or "")` for an optional whole second count. */
  function SecondsText(ts: Option<int>): string
  {
    if ts.Some? && ts.value != 0 then IntToString(ts.value) else ""
  }

  /** `time_iso`: the local rendering of a non-zero instant, else nothing.
      `None` where `datetime.fromtimestamp` raises, as it does for an instant
      outside the years 1 to 9999. */
  function TimeIso(ts: Option<int>, isoTime: int -> Option<string>): (r: Option<string>)
    ensures ts.None? || ts.value == 0 ==> r == Some("")
    ensures ts.Some? && ts.value != 0 ==> r == isoTime(ts.value)
  {
    if ts.Some? && ts.value != 0 then isoTime(ts.value) else Some("")
  }

  /** Whether `build_csv` gets through the head of an item's loop: its time
      converts with `int()` and renders. */
  predicate ItemReadable(config: Config, item: Attributes, isoTime: int -> Option<string>)
  {
    ItemSeconds(config, item).Some? && TimeIso(ItemSeconds(config, item).value, isoTime).Some?
  }

  /** The reading time of an item in whole seconds: `Some(None)` when it has
      none, `None` when `int()` of it raises. */
  function ItemSeconds(config: Config, item: Attributes): (r: Option<Option<int>>)
    ensures Lookup(item, config.sortKey).Null? ==> r == Some(None)
    ensures Lookup(item, config.sortKey).Int? ==> r == Some(Some(Lookup(item, config.sortKey).i))
  {
    var ts := Lookup(item, config.sortKey);
    if ts.Null? then Some(None)
    else
      match ToInt(ts)
      case None => None
      case Some(n) => Some(Some(n))
  }

  /** Whether an attribute gets a sensor row: not a key, and a string,
      number or boolean. */
  predicate Reported(config: Config, a: (string, Value))
  {
    a.0 != config.partitionKey && a.0 != config.sortKey && IsScalar(a.1)
  }

  /** The reported attributes of an item, in order. */
  function ReportedAttributes(config: Config, item: Attributes): (r: Attributes)
    ensures |r| <= |item|
    ensures forall a :: a in r <==> a in item && Reported(config, a)
  {
    if |item| == 0 then []
    else (if Reported(config, item[0]) then [item[0]] else []) + ReportedAttributes(config, item[1..])
  }

  function SensorRow(mac: string, timeIso: string, seconds: string, a: (string, Value), repr: Repr): Row
  {
    [Str("sensor"), Str(timeIso), Str(seconds), Str(mac), Str(a.0), Str(PyStr(a.1, repr))]
  }

  /** The inner loop over `it.items()`. */
  function AttributeRows(config: Config, mac: string, timeIso: string, seconds: string,
                         item: Attributes, repr: Repr): (r: seq<Row>)
    ensures |r| == |ReportedAttributes(config, item)|
    ensures forall i :: 0 <= i < |r| ==> r[i] == SensorRow(mac, timeIso, seconds, ReportedAttributes(config, item)[i], repr)
  {
    if |item| == 0 then []
    else
      (if Reported(config, item[0]) then [SensorRow(mac, timeIso, seconds, item[0], repr)] else [])
      + AttributeRows(config, mac, timeIso, seconds, item[1..], repr)
  }

  /** The rows of one readings item; `None` when its time cannot be read. */
  function ItemRows(config: Config, mac: string, item: Attributes, isoTime: int -> Option<string>, repr: Repr): (r: Option<seq<Row>>)
    ensures r.Some? <==> ItemReadable(config, item, isoTime)
    ensures r.Some? ==> |r.value| == |ReportedAttributes(config, item)|
    ensures r.Some? ==> forall i :: 0 <= i < |r.value| ==>
              && |r.value[i]| == Columns
              && r.value[i][0] == Str("sensor")
              && r.value[i][1] == Str(TimeIso(ItemSeconds(config, item).value, isoTime).value)
              && r.value[i][2] == Str(SecondsText(ItemSeconds(config, item).value))
              && r.value[i][3] == Str(mac)
              && r.value[i][4] == Str(ReportedAttributes(config, item)[i].0)
              && r.value[i][5] == Str(PyStr(ReportedAttributes(config, item)[i].1, repr))
  {
    match ItemSeconds(config, item)
    case None => None
    case Some(ts) =>
      match TimeIso(ts, isoTime)
      case None => None
      case Some(timeIso) => Some(AttributeRows(config, mac, timeIso, SecondsText(ts), item, repr))
  }

  function ReportedCount(config: Config, items: seq<Attributes>): nat
  {
    if |items| == 0 then 0 else |ReportedAttributes(config, items[0])| + ReportedCount(config, items[1..])
  }

  predicate IsSensorRow(row: Row)
  {
    |row| == Columns && row[0] == Str("sensor")
  }

  /** The outer loop over `sensor_items`. */
  function SensorRows(config: Config, mac: string, items: seq<Attributes>, isoTime: int -> Option<string>, repr: Repr): (r: Option<seq<Row>>)
    ensures r.Some? <==> forall i :: 0 <= i < |items| ==> ItemReadable(config, items[i], isoTime)
    ensures r.Some? ==> |r.value| == ReportedCount(config, items)
    ensures r.Some? ==> forall i :: 0 <= i < |r.value| ==> IsSensorRow(r.value[i]) && r.value[i][3] == Str(mac)
  {
    if |items| == 0 then Some([])
    else
      match (ItemRows(config, mac, items[0], isoTime, repr), SensorRows(config, mac, items[1..], isoTime, repr))
      case (Some(first), Some(rest)) =>
        assert forall i :: 1 <= i < |items| ==> items[1..][i - 1] == items[i];
        Some(first + rest)
      case (_, None) =>
        assert exists i :: 0 <= i < |items[1..]| && !ItemReadable(config, items[1..][i], isoTime);
        None
      case _ => None
  }

  /** `int(int(event_ms) / 1000)`: true division, then truncation toward zero. */
  function MillisToSeconds(ms: int): (r: int)
    ensures ms >= 0 ==> r == ms / 1000
    ensures ms < 0 ==> r == -((-ms) / 1000)
  {
    var q := ms as real / 1000.0;
    var r := Trunc(q);
    if ms >= 0 then
      assert r as real <= q < r as real + 1.0;
      assert r * 1000 <= ms < (r + 1) * 1000;
      r
    else
      assert r as real - 1.0 < q <= r as real;
      assert (r - 1) * 1000 < ms <= r * 1000;
      r
  }

  /** The whole seconds of a log's `event_time`: `Some(None)` when it is
      missing or zero, `None` when `int()` of it raises. */
  function EventSeconds(log: map<string, Value>): Option<Option<int>>
  {
    var ms := Get(log, "event_time");
    if !Truthy(ms) then Some(None)
    else
      match ToInt(ms)
      case None => None
      case Some(n) => Some(Some(MillisToSeconds(n)))
  }

  /** `lg.get("code") or TUYA_SWITCH_CODE`. */
  function Metric(config: Config, log: map<string, Value>): (r: Value)
    ensures Truthy(Get(log, "code")) ==> r == log["code"]
    ensures !Truthy(Get(log, "code")) ==> r == Str(config.switchCode)
  {
    Or(Get(log, "code"), Str(config.switchCode))
  }

  /** The row of one switch log; `None` where reading the log raises. */
  function PlugRow(config: Config, mac: string, log: Value, isoTime: int -> Option<string>, repr: Repr): (r: Option<Row>)
    ensures r.Some? <==> log.Dict? && EventSeconds(log.fields).Some? && TimeIso(EventSeconds(log.fields).value, isoTime).Some?
    ensures r.Some? ==> && |r.value| == Columns
                        && r.value[0] == Str("plug")
                        && r.value[1] == Str(TimeIso(EventSeconds(log.fields).value, isoTime).value)
                        && r.value[2] == Str(SecondsText(EventSeconds(log.fields).value))
                        && r.value[3] == Str(mac)
                        && r.value[4] == Metric(config, log.fields)
                        && r.value[5] == Str(PyStr(Get(log.fields, "value"), repr))
  {
    if !log.Dict? then None
    else
      match EventSeconds(log.fields)
      case None => None
      case Some(s) =>
        match TimeIso(s, isoTime)
        case None => None
        case Some(timeIso) =>
          Some([Str("plug"), Str(timeIso), Str(SecondsText(s)), Str(mac),
                Metric(config, log.fields), Str(PyStr(Get(log.fields, "value"), repr))])
  }

  /** The loop over `plug_logs`: one row per log, in order. */
  function PlugRows(config: Config, mac: string, logs: seq<Value>, isoTime: int -> Option<string>, repr: Repr): (r: Option<seq<Row>>)
    ensures r.Some? <==> forall i :: 0 <= i < |logs| ==> PlugRow(config, mac, logs[i], isoTime, repr).Some?
    ensures r.Some? ==> |r.value| == |logs|
    ensures r.Some? ==> forall i :: 0 <= i < |logs| ==> r.value[i] == PlugRow(config, mac, logs[i], isoTime, repr).value
    ensures r.Some? ==> forall i :: 0 <= i < |logs| ==> |r.value[i]| == Columns && r.value[i][0] == Str("plug")
  {
    if |logs| == 0 then Some([])
    else
      match (PlugRow(config, mac, logs[0], isoTime, repr), PlugRows(config, mac, logs[1..], isoTime, repr))
      case (Some(first), Some(rest)) =>
        assert forall i :: 1 <= i < |logs| ==> logs[1..][i - 1] == logs[i];
        Some([first] + rest)
      case (_, None) =>
        assert exists i :: 0 <= i < |logs[1..]| && PlugRow(config, mac, logs[1..][i], isoTime, repr).None?;
        None
      case _ => None
  }

  /** The `rows` list of `build_csv`: the header, then one row per reported
      attribute of every reading, then one row per switch log. */
  function BuildRows(config: Config, mac: string, items: seq<Attributes>, logs: seq<Value>,
                     isoTime: int -> Option<string>, repr: Repr): (r: Option<seq<Row>>)
    ensures r.Some? <==> SensorRows(config, mac, items, isoTime, repr).Some? && PlugRows(config, mac, logs, isoTime, repr).Some?
    ensures r.Some? <==> && (forall i :: 0 <= i < |items| ==> ItemReadable(config, items[i], isoTime))
                         && (forall j :: 0 <= j < |logs| ==> PlugRow(config, mac, logs[j], isoTime, repr).Some?)
    ensures r.Some? ==> |r.value| == 1 + ReportedCount(config, items) + |logs| && r.value[0] == Header
  {
    var sensor := SensorRows(config, mac, items, isoTime, repr);
    var plug := PlugRows(config, mac, logs, isoTime, repr);
    if sensor.None? || plug.None? then None
    else Some([Header] + sensor.value + plug.value)
  }

  /** Every row of the file has six cells; the sensor rows come first, then
      the plug rows in log order. */
  lemma {:induction false} BuildRowsLayout(config: Config, mac: string, items: seq<Attributes>, logs: seq<Value>,
                        isoTime: int -> Option<string>, repr: Repr, rows: seq<Row>)
    requires BuildRows(config, mac, items, logs, isoTime, repr) == Some(rows)
    ensures forall i :: 0 <= i < |rows| ==> |rows[i]| == Columns
    ensures forall i :: 1 <= i <= ReportedCount(config, items) ==> IsSensorRow(rows[i])
    ensures rows[1 + ReportedCount(config, items)..] == PlugRows(config, mac, logs, isoTime, repr).value
  {
    var sensor, plug := BuildRowsParts(config, mac, items, logs, isoTime, repr, rows);
    RowsLayout(rows, sensor, plug);
  }

  /** The two parts `build_csv` puts after the header, with what each
      part's builder promises about it. */
  lemma {:induction false} BuildRowsParts(config: Config, mac: string, items: seq<Attributes>, logs: seq<Value>,
                       isoTime: int -> Option<string>, repr: Repr, rows: seq<Row>)
      returns (sensor: seq<Row>, plug: seq<Row>)
    requires BuildRows(config, mac, items, logs, isoTime, repr) == Some(rows)
    ensures rows == [Header] + sensor + plug
    ensures |sensor| == ReportedCount(config, items) && |plug| == |logs|
    ensures forall i :: 0 <= i < |sensor| ==> IsSensorRow(sensor[i])
    ensures forall j :: 0 <= j < |plug| ==> |plug[j]| == Columns
    ensures plug == PlugRows(config, mac, logs, isoTime, repr).value
  {
    sensor := SensorRows(config, mac, items, isoTime, repr).value;
    plug := PlugRows(config, mac, logs, isoTime, repr).value;
  }

  /** Where the header, the sensor rows and the plug rows sit in the file. */
  lemma {:induction false} RowsLayout(rows: seq<Row>, sensor: seq<Row>, plug: seq<Row>)
    requires rows == [Header] + sensor + plug
    requires forall i :: 0 <= i < |sensor| ==> IsSensorRow(sensor[i])
    requires forall j :: 0 <= j < |plug| ==> |plug[j]| == Columns
    ensures forall i :: 0 <= i < |rows| ==> |rows[i]| == Columns
    ensures forall i :: 1 <= i <= |sensor| ==> IsSensorRow(rows[i])
    ensures rows[1 + |sensor|..] == plug
  {
    forall i | 0 <= i < |rows|
      ensures |rows[i]| == Columns
    {
      if i == 0 {
      } else if i <= |sensor| {
        assert rows[i] == sensor[i - 1];
      } else {
        assert rows[i] == plug[i - 1 - |sensor|];
      }
    }
    assert forall i :: 1 <= i <= |sensor| ==> rows[i] == sensor[i - 1];
    assert rows[1 + |sensor|..] == plug;
  }

  /** `build_csv`; `None` where it raises. */
  function BuildCsv(config: Config, mac: string, items: seq<Attributes>, logs: seq<Value>,
                    isoTime: int -> Option<string>, repr: Repr): (r: Option<string>)
    ensures r.Some? <==> BuildRows(config, mac, items, logs, isoTime, repr).Some?
    ensures r.Some? ==> ReadTable(r.value) == TableTexts(BuildRows(config, mac, items, logs, isoTime, repr).value, repr)
  {
    match BuildRows(config, mac, items, logs, isoTime, repr)
    case None => None
    case Some(rows) =>
      BuildRowsLayout(config, mac, items, logs, isoTime, repr, rows);
      CsvTextReadsBack(rows, repr);
      Some(CsvText(rows, repr))
  }

  /** The file reads back as the header followed by every row's cell texts,
      six fields to a record. */
  lemma BuildCsvReadsBack(config: Config, mac: string, items: seq<Attributes>, logs: seq<Value>,
                          isoTime: int -> Option<string>, repr: Repr, rows: seq<Row>)
    requires BuildRows(config, mac, items, logs, isoTime, repr) == Some(rows)
    ensures BuildCsv(config, mac, items, logs, isoTime, repr) == Some(CsvText(rows, repr))
    ensures ReadTable(CsvText(rows, repr)) == TableTexts(rows, repr)
    ensures TableTexts(rows, repr)[0] == ["source", "time_iso", "time_epoch_s", "sensor_mac", "metric", "value"]
    ensures forall i :: 0 <= i < |rows| ==> |TableTexts(rows, repr)[i]| == Columns
  {
    BuildRowsLayout(config, mac, items, logs, isoTime, repr, rows);
    CsvTextReadsBack(rows, repr);
    HeaderTexts(repr);
  }

  lemma HeaderTexts(repr: Repr)
    ensures RowTexts(Header, repr) == ["source", "time_iso", "time_epoch_s", "sensor_mac", "metric", "value"]
  {
  }

  // ---- Request parameters ----

  /** `_parse_time(value)`: `str(value).strip()` read as epoch seconds when it
      is all digits; the date-only and ISO forms, which depend on the local
      time zone, are `otherFormats`. `None` where it raises. */
  function ParseTime(v: Value, isEnd: bool, otherFormats: (string, bool) -> Option<int>, repr: Repr): (r: Option<int>)
    ensures v.Null? ==> r.None?
    ensures !v.Null? && AllDigits(Strip(PyStr(v, repr))) ==> r == Some(DigitsValue(Strip(PyStr(v, repr))))
    ensures !v.Null? && !AllDigits(Strip(PyStr(v, repr))) ==> r == otherFormats(Strip(PyStr(v, repr)), isEnd)
  {
    if v.Null? then None
    else
      var s := Strip(PyStr(v, repr));
      if AllDigits(s) then Some(DigitsValue(s)) else otherFormats(s, isEnd)
  }

  /** Epoch seconds written as digits, with or without surrounding
      whitespace, or given as a non-negative integer, parse to themselves at
      either end of the range. */
  lemma ParseTimeEpoch(n: nat, isEnd: bool, otherFormats: (string, bool) -> Option<int>, repr: Repr)
    ensures ParseTime(Str(NatToString(n)), isEnd, otherFormats, repr) == Some(n)
    ensures ParseTime(Str(" " + NatToString(n) + "\n"), isEnd, otherFormats, repr) == Some(n)
    ensures ParseTime(Int(n), isEnd, otherFormats, repr) == Some(n)
  {
    var s := NatToString(n);
    NatToStringRoundTrip(n);
    ParseTimeDigits(Str(s), s, s, isEnd, otherFormats, repr);
    ParseTimeDigits(Str(" " + s + "\n"), " " + s + "\n", s, isEnd, otherFormats, repr);
    ParseTimeDigits(Int(n), s, s, isEnd, otherFormats, repr);
  }

  lemma ParseTimeDigits(v: Value, text: string, s: string, isEnd: bool,
                        otherFormats: (string, bool) -> Option<int>, repr: Repr)
    requires !v.Null? && PyStr(v, repr) == text
    requires AllDigits(s)
    requires text == s || text == " " + s + "\n"
    ensures ParseTime(v, isEnd, otherFormats, repr) == Some(DigitsValue(s))
  {
    if text == s {
      StripUnchanged(s);
    } else {
      StripPadded(s);
    }
    assert Strip(text) == s;
  }

  /** `_get_qs(event)`: the query parameters when they form an object, else `{}`. */
  function QueryParams(event: map<string, Value>): (r: map<string, Value>)
    ensures Or(Get(event, "queryStringParameters"), EmptyObject).Dict? ==> r == Or(Get(event, "queryStringParameters"), EmptyObject).fields
    ensures !Or(Get(event, "queryStringParameters"), EmptyObject).Dict? ==> r == map[]
  {
    var qsp := Or(Get(event, "queryStringParameters"), EmptyObject);
    if qsp.Dict? then qsp.fields else map[]
  }

  // ---- Paging ----

  /** One page of `readings_table.query`: its items and `LastEvaluatedKey`. */
  datatype ReadingsPage = ReadingsPage(items: seq<Attributes>, lastEvaluatedKey: Value)

  /** `query_sensor_readings`: ask again with `ExclusiveStartKey` while the
      page carries a `LastEvaluatedKey`. */
  const ReadingsPager: Pager<ReadingsPage, Attributes, Value> :=
    Pager((p: ReadingsPage) => p.items, (p: ReadingsPage) => Truthy(p.lastEvaluatedKey),
          (p: ReadingsPage) => p.lastEvaluatedKey, Null)

  /** The part of one report-logs reply the loop reads. */
  datatype LogPage = LogPage(logs: seq<Value>, hasMore: bool, lastRowKey: Value)

  /** Reads one report-logs reply; `None` where `tuya_request` or the reading
      raises. */
  function ParseLogPage(credentialsSet: bool, reply: Option<Value>): (r: Option<LogPage>)
    ensures r.Some? ==> TuyaResponse(credentialsSet, reply).Some?
    ensures r.Some? ==> Truthy(r.value.lastRowKey) || r.value.lastRowKey == Str("")
    // the page fails where `tuya_request` raises, where `result` is truthy and
    // not an object, or where `logs` is truthy and not a list
    ensures r.Some? <==> && TuyaResponse(credentialsSet, reply).Some?
                         && ResultObject(TuyaResponse(credentialsSet, reply).value).Some?
                         && Or(Get(ResultObject(TuyaResponse(credentialsSet, reply).value).value, "logs"), List([])).List?
    ensures r.Some? ==>
              var result := ResultObject(TuyaResponse(credentialsSet, reply).value).value;
              && r.value.logs == Or(Get(result, "logs"), List([])).items
              && r.value.hasMore == Truthy(Get(result, "has_more"))
              && r.value.lastRowKey == Or(Get(result, "last_row_key"), Str(""))
  {
    match TuyaResponse(credentialsSet, reply)
    case None => None
    case Some(data) =>
      match ResultObject(data)
      case None => None
      case Some(result) =>
        var logs := Or(Get(result, "logs"), List([]));
        if !logs.List? then None
        else Some(LogPage(logs.items, Truthy(Get(result, "has_more")), Or(Get(result, "last_row_key"), Str(""))))
  }

  /** `tuya_fetch_switch_logs`: the first request carries no `last_row_key`;
      the loop stops when `has_more` is false or the cursor is empty. */
  const LogPager: Pager<LogPage, Value, Value> :=
    Pager((p: LogPage) => p.logs, (p: LogPage) => p.hasMore && Truthy(p.lastRowKey),
          (p: LogPage) => p.lastRowKey, Str(""))

  function LogPages(credentialsSet: bool, replies: seq<Option<Value>>): (r: seq<Option<LogPage>>)
    ensures |r| == |replies|
    ensures forall i :: 0 <= i < |replies| ==> r[i] == ParseLogPage(credentialsSet, replies[i])
  {
    seq(|replies|, i requires 0 <= i < |replies| => ParseLogPage(credentialsSet, replies[i]))
  }

  /** Logs asked for per report-logs request. */
  const LogPageSize := 100

  /** The query of one report-logs request: the switch code, the range in
      milliseconds, the page size, and `last_row_key` only when the cursor is
      truthy. */
  function LogQuery(config: Config, startTs: int, endTs: int, cursor: Value): (r: Query)
    ensures ("codes", Str(config.switchCode)) in r && ("size", Int(LogPageSize)) in r
    ensures ("start_time", Int(startTs * 1000)) in r && ("end_time", Int(endTs * 1000)) in r
    ensures ("last_row_key", cursor) in r <==> Truthy(cursor)
    ensures (exists v :: ("last_row_key", v) in r) <==> Truthy(cursor)
  {
    [("codes", Str(config.switchCode)), ("start_time", Int(startTs * 1000)),
     ("end_time", Int(endTs * 1000)), ("size", Int(LogPageSize))]
      + (if Truthy(cursor) then [("last_row_key", cursor)] else [])
  }

  /** The logs `tuya_fetch_switch_logs` returns; `None` where it raises. */
  function FetchSwitchLogs(credentialsSet: bool, replies: seq<Option<Value>>): (r: Option<seq<Value>>)
    ensures |replies| == 0 || ParseLogPage(credentialsSet, replies[0]).None? ==> r.None?
    ensures (&& |replies| > 0 && ParseLogPage(credentialsSet, replies[0]).Some?
             && !(ParseLogPage(credentialsSet, replies[0]).value.hasMore
                  && Truthy(ParseLogPage(credentialsSet, replies[0]).value.lastRowKey)))
              ==> r == Some(ParseLogPage(credentialsSet, replies[0]).value.logs)
    ensures (&& |replies| > 0 && ParseLogPage(credentialsSet, replies[0]).Some?
             && ParseLogPage(credentialsSet, replies[0]).value.hasMore
             && Truthy(ParseLogPage(credentialsSet, replies[0]).value.lastRowKey))
              ==> r == Then(ParseLogPage(credentialsSet, replies[0]).value.logs, FetchSwitchLogs(credentialsSet, replies[1..]))
  {
    var pages := LogPages(credentialsSet, replies);
    assert |replies| > 0 ==> pages[1..] == LogPages(credentialsSet, replies[1..]);
    Collect(LogPager, pages)
  }

  /** The report-logs requests for the cursors sent, in order. */
  function LogQueries(config: Config, startTs: int, endTs: int, cursors: seq<Value>): (r: seq<Query>)
    ensures |r| == |cursors|
    ensures forall i :: 0 <= i < |cursors| ==> r[i] == LogQuery(config, startTs, endTs, cursors[i])
  {
    seq(|cursors|, i requires 0 <= i < |cursors| => LogQuery(config, startTs, endTs, cursors[i]))
  }

  /** The request loop of `tuya_fetch_switch_logs`: the logs of every page and
      the query of every request made. The first request carries no
      `last_row_key`; each later one carries the key of the page before it,
      which said `has_more`. */
  method FetchAllSwitchLogs(config: Config, startTs: int, endTs: int, credentialsSet: bool, replies: seq<Option<Value>>)
    returns (logs: Option<seq<Value>>, queries: seq<Query>)
    ensures logs == FetchSwitchLogs(credentialsSet, replies)
    ensures 0 < |queries| <= |replies| + 1
    ensures queries[0] == LogQuery(config, startTs, endTs, Str(""))
    ensures forall k :: 0 <= k < |queries| - 1 ==>
              && ParseLogPage(credentialsSet, replies[k]).Some?
              && ParseLogPage(credentialsSet, replies[k]).value.hasMore
              && Truthy(ParseLogPage(credentialsSet, replies[k]).value.lastRowKey)
              && queries[k + 1] == LogQuery(config, startTs, endTs, ParseLogPage(credentialsSet, replies[k]).value.lastRowKey)
  {
    var pages := LogPages(credentialsSet, replies);
    var sent;
    logs, sent := CollectLoop(LogPager, pages);
    queries := LogQueries(config, startTs, endTs, sent);
    forall k | 0 <= k < |queries| - 1
      ensures && ParseLogPage(credentialsSet, replies[k]).Some?
              && ParseLogPage(credentialsSet, replies[k]).value.hasMore
              && Truthy(ParseLogPage(credentialsSet, replies[k]).value.lastRowKey)
              && queries[k + 1] == LogQuery(config, startTs, endTs, ParseLogPage(credentialsSet, replies[k]).value.lastRowKey)
    {
      assert pages[k] == ParseLogPage(credentialsSet, replies[k]);
      var page := pages[k].value;
      assert page.hasMore && Truthy(page.lastRowKey) && sent[k + 1] == page.lastRowKey by {
        assert LogPager.more(page) && sent[k + 1] == LogPager.cursor(page);
      }
    }
  }

  /** A page that says `has_more` but carries an empty cursor ends the loop:
      its logs are the last ones taken. */
  lemma EmptyCursorStops(credentialsSet: bool, logs: seq<Value>, rest: seq<Option<Value>>)
    requires credentialsSet
    ensures
      var reply := Some(Dict(map["result" := Dict(map["logs" := List(logs), "has_more" := Bool(true), "last_row_key" := Str("")])]));
      FetchSwitchLogs(credentialsSet, [reply] + rest) == Some(logs)
  {
    var reply := Some(Dict(map["result" := Dict(map["logs" := List(logs), "has_more" := Bool(true), "last_row_key" := Str("")])]));
    assert Get(reply.value.fields, "success") == Null;
    assert LogPages(credentialsSet, [reply] + rest)[0] == Some(LogPage(logs, true, Str("")));
  }

  // ---- The handler ----

  /** `get_mapping(mac)` and `mapping and mapping.get("tuya_device_id")`: the
      plug whose logs are added, if any. A failed read counts as no mapping. */
  function PlugDevice(mapping: SensorPlugBind.MappingTable, readFails: bool, mac: string): (r: Option<Value>)
    ensures r.Some? ==> !readFails && mac in mapping && "tuya_device_id" in mapping[mac]
    ensures r.Some? ==> r.value == mapping[mac]["tuya_device_id"] && Truthy(r.value)
    ensures !readFails && mac in mapping && Truthy(Get(mapping[mac], "tuya_device_id")) ==> r.Some?
  {
    if readFails || mac !in mapping then None
    else
      var item := mapping[mac];
      if Truthy(Dict(item)) && Truthy(Get(item, "tuya_device_id")) then Some(item["tuya_device_id"]) else None
  }

  /** A sensor bound to a plug by the mapping writer has that plug's logs read. */
  lemma BoundPlugIsRead(table: SensorPlugBind.MappingTable, mac: string, device: string, enabled: bool,
                        userId: string, now: int, readFails: bool)
    requires device != ""
    ensures
      var written := SensorPlugBind.UpsertMapping(table, mac, device, enabled, userId, now, readFails).table;
      PlugDevice(written, false, mac) == Some(Str(device))
  {
  }

  /** Everything the handler gets from outside besides the event and the
      clock: readings pages, the mapping table, and the Tuya replies. */
  datatype Backend = Backend(
    readings: seq<Option<ReadingsPage>>,
    mapping: SensorPlugBind.MappingTable,
    mappingReadFails: bool,
    credentialsSet: bool,
    tokenReply: Option<Value>,
    logReplies: seq<Option<Value>>)

  /** Settings and library behaviour the model takes as given. */
  datatype Settings = Settings(
    config: Config,
    otherFormats: (string, bool) -> Option<int>,
    isoTime: int -> Option<string>,
    repr: Repr)

  /** The plug logs to add and the token cache afterwards: a failed token or
      log request leaves the CSV with sensor rows only. */
  function PlugLogs(device: Option<Value>, backend: Backend, cache: TokenCache, now: real): (r: (seq<Value>, TokenCache))
    ensures device.None? ==> r == ([], cache)
    ensures device.Some? ==> r.1 == GetTuyaToken(cache, now, backend.credentialsSet, backend.tokenReply).cache
    ensures GetTuyaToken(cache, now, backend.credentialsSet, backend.tokenReply).token.None? ==> r.0 == []
    ensures (&& device.Some?
             && GetTuyaToken(cache, now, backend.credentialsSet, backend.tokenReply).token.Some?
             && FetchSwitchLogs(backend.credentialsSet, backend.logReplies).Some?)
              ==> r.0 == FetchSwitchLogs(backend.credentialsSet, backend.logReplies).value
  {
    if device.None? then ([], cache)
    else
      var token := GetTuyaToken(cache, now, backend.credentialsSet, backend.tokenReply);
      if token.token.None? then ([], token.cache)
      else
        match FetchSwitchLogs(backend.credentialsSet, backend.logReplies)
        case None => ([], token.cache)
        case Some(logs) => (logs, token.cache)
  }

  /** The validated parameters of a download, or the status that refuses it. */
  datatype Request = Refused(status: int) | Accepted(mac: string, start: int, end: int)

  /** The checks of `lambda_handler`, in the order the handler makes them. */
  function ParseRequest(qs: map<string, Value>, settings: Settings): (r: Request)
    ensures SensorPlugBind.TextField(Get(qs, "sensor_mac")).None? ==> r == Refused(500)
    ensures (&& SensorPlugBind.TextField(Get(qs, "sensor_mac")).Some?
             && SensorPlugBind.CleanSensorMac(SensorPlugBind.TextField(Get(qs, "sensor_mac")).value) == "")
              ==> r == Refused(400)
    ensures (&& SensorPlugBind.TextField(Get(qs, "sensor_mac")).Some?
             && SensorPlugBind.CleanSensorMac(SensorPlugBind.TextField(Get(qs, "sensor_mac")).value) != ""
             && (!Truthy(Get(qs, "start_time")) || !Truthy(Get(qs, "end_time"))))
              ==> r == Refused(400)
    ensures r.Accepted? ==> && SensorPlugBind.TextField(Get(qs, "sensor_mac")).Some?
                            && r.mac == SensorPlugBind.CleanSensorMac(SensorPlugBind.TextField(Get(qs, "sensor_mac")).value)
                            && r.mac != ""
    ensures r.Accepted? ==> && ParseTime(Get(qs, "start_time"), false, settings.otherFormats, settings.repr) == Some(r.start)
                            && ParseTime(Get(qs, "end_time"), true, settings.otherFormats, settings.repr) == Some(r.end)
                            && r.start <= r.end
    ensures (&& SensorPlugBind.TextField(Get(qs, "sensor_mac")).Some?
             && SensorPlugBind.CleanSensorMac(SensorPlugBind.TextField(Get(qs, "sensor_mac")).value) != ""
             && Truthy(Get(qs, "start_time")) && Truthy(Get(qs, "end_time"))) ==>
              var mac := SensorPlugBind.CleanSensorMac(SensorPlugBind.TextField(Get(qs, "sensor_mac")).value);
              var start := ParseTime(Get(qs, "start_time"), false, settings.otherFormats, settings.repr);
              var end := ParseTime(Get(qs, "end_time"), true, settings.otherFormats, settings.repr);
              && (start.None? || end.None? ==> r == Refused(500))
              && (start.Some? && end.Some? && end.value < start.value ==> r == Refused(400))
              && (start.Some? && end.Some? && start.value <= end.value ==> r == Accepted(mac, start.value, end.value))
    ensures r.Refused? ==> r.status in {400, 500}
  {
    match SensorPlugBind.TextField(Get(qs, "sensor_mac"))
    case None => Refused(500)
    case Some(raw) =>
      var mac := SensorPlugBind.CleanSensorMac(raw);
      if mac == "" then Refused(400)
      else
        var startTime := Get(qs, "start_time");
        var endTime := Get(qs, "end_time");
        if !Truthy(startTime) || !Truthy(endTime) then Refused(400)
        else
          match (ParseTime(startTime, false, settings.otherFormats, settings.repr),
                 ParseTime(endTime, true, settings.otherFormats, settings.repr))
          case (Some(startTs), Some(endTs)) =>
            if endTs < startTs then Refused(400) else Accepted(mac, startTs, endTs)
          case _ => Refused(500)
  }

  /** What a download request comes to. `Crashed` is an exception raised
      before the handler's `try`. */
  datatype Download =
    | Crashed
    | Response(status: int, csv: Option<string>, cache: TokenCache, plugDevice: Option<Value>)

  /** Steps 1 to 3 of `lambda_handler` for validated parameters. */
  function Serve(mac: string, settings: Settings, backend: Backend, cache: TokenCache, now: real): (r: Download)
    ensures r.Response?
    ensures r.status in {200, 404, 500}
    ensures Collect(ReadingsPager, backend.readings).None? ==> r == Response(500, None, cache, None)
    ensures Collect(ReadingsPager, backend.readings) == Some([]) ==> r == Response(404, None, cache, None)
    ensures r.csv.Some? <==> r.status == 200
    ensures r.plugDevice.None? ==> r.cache == cache
    ensures r.status == 200 ==> r.plugDevice == PlugDevice(backend.mapping, backend.mappingReadFails, mac)
    ensures r.status == 200 ==>
              && Collect(ReadingsPager, backend.readings).Some?
              && var items := Collect(ReadingsPager, backend.readings).value;
                 var logs := PlugLogs(r.plugDevice, backend, cache, now).0;
                 && |items| > 0
                 && r.csv == BuildCsv(settings.config, mac, items, logs, settings.isoTime, settings.repr)
  {
    match Collect(ReadingsPager, backend.readings)
    case None => Response(500, None, cache, None)
    case Some(items) =>
      if |items| == 0 then Response(404, None, cache, None)
      else
        var device := PlugDevice(backend.mapping, backend.mappingReadFails, mac);
        var (logs, cache') := PlugLogs(device, backend, cache, now);
        match BuildCsv(settings.config, mac, items, logs, settings.isoTime, settings.repr)
        case None => Response(500, None, cache', device)
        case Some(csv) => Response(200, Some(csv), cache', device)
  }

  /** `lambda_handler` of the export. */
  function HandleDownload(event: map<string, Value>, settings: Settings, backend: Backend,
                          cache: TokenCache, now: real): (r: Download)
    ensures r.Crashed? <==> RequestMethod(event).None?
    ensures RequestMethod(event) == Some("OPTIONS") ==> r == Response(200, None, cache, None)
    ensures r.Response? ==> r.status in {200, 400, 404, 500}
    ensures r.Response? && r.csv.Some? ==> r.status == 200
    ensures r.Response? && r.plugDevice.None? ==> r.cache == cache
    ensures r.Response? && r.status == 400 ==> r == Response(400, None, cache, None)
  {
    match RequestMethod(event)
    case None => Crashed
    case Some(verb) =>
      if verb == "OPTIONS" then Response(200, None, cache, None)
      else
        match ParseRequest(QueryParams(event), settings)
        case Refused(status) => Response(status, None, cache, None)
        case Accepted(mac, _, _) => Serve(mac, settings, backend, cache, now)
  }

  /** A request without a sensor is refused before anything is read. */
  lemma MissingSensorRefused(event: map<string, Value>, settings: Settings, backend: Backend,
                             cache: TokenCache, now: real)
    requires RequestMethod(event).Some? && RequestMethod(event) != Some("OPTIONS")
    requires "sensor_mac" !in QueryParams(event)
    ensures HandleDownload(event, settings, backend, cache, now) == Response(400, None, cache, None)
  {
  }

  /** A range whose end, in whichever format it is written, comes before its
      start is refused before any table is read. */
  lemma ReversedRangeRefused(qs: map<string, Value>, settings: Settings, mac: string, start: int, end: int)
    requires SensorPlugBind.CleanSensorMac(mac) != ""
    requires Get(qs, "sensor_mac") == Str(mac)
    requires Truthy(Get(qs, "start_time")) && Truthy(Get(qs, "end_time"))
    requires ParseTime(Get(qs, "start_time"), false, settings.otherFormats, settings.repr) == Some(start)
    requires ParseTime(Get(qs, "end_time"), true, settings.otherFormats, settings.repr) == Some(end)
    requires end < start
    ensures ParseRequest(qs, settings) == Refused(400)
  {
  }

  /** The same for a range written in epoch seconds. */
  lemma ReversedEpochRangeRefused(qs: map<string, Value>, settings: Settings, mac: string, start: nat, end: nat)
    requires SensorPlugBind.CleanSensorMac(mac) != ""
    requires Get(qs, "sensor_mac") == Str(mac)
    requires Get(qs, "start_time") == Str(NatToString(start))
    requires Get(qs, "end_time") == Str(NatToString(end))
    requires end < start
    ensures ParseRequest(qs, settings) == Refused(400)
  {
    ParseTimeEpoch(start, false, settings.otherFormats, settings.repr);
    ParseTimeEpoch(end, true, settings.otherFormats, settings.repr);
    assert Truthy(Str(NatToString(start))) && Truthy(Str(NatToString(end)));
    ReversedRangeRefused(qs, settings, mac, start, end);
  }

  /** A MAC made only of whitespace and separators is as good as none. */
  lemma BlankSensorRefused(qs: map<string, Value>, settings: Settings)
    requires Get(qs, "sensor_mac") == Str(" :- ")
    ensures ParseRequest(qs, settings) == Refused(400)
  {
    assert Strip(" :- ") == ":-" by {
      assert LeadingSpaces(" :- ") == 1;
      assert LeadingSpaces(":- ") == 0;
      assert TrailingSpaces(":- ") == 1;
    }
    assert Remove(Remove(":-", ':'), '-') == "";
  }

  /** A sensor whose first readings page is empty and has no continuation
      key is answered 404 without looking for a plug. */
  lemma NoReadingsNotFound(mac: string, settings: Settings, backend: Backend, cache: TokenCache, now: real)
    requires |backend.readings| > 0
    requires backend.readings[0] == Some(ReadingsPage([], Null))
    ensures Serve(mac, settings, backend, cache, now) == Response(404, None, cache, None)
  {
  }

  /** A reading whose time `datetime.fromtimestamp` cannot render fails the
      whole export with 500. */
  lemma UnrenderableReadingFails(mac: string, settings: Settings, backend: Backend, cache: TokenCache, now: real,
                                 items: seq<Attributes>, k: nat, ts: int)
    requires Collect(ReadingsPager, backend.readings) == Some(items)
    requires k < |items| && ItemSeconds(settings.config, items[k]) == Some(Some(ts))
    requires ts != 0 && settings.isoTime(ts).None?
    ensures Serve(mac, settings, backend, cache, now).status == 500
  {
    assert !ItemReadable(settings.config, items[k], settings.isoTime);
  }

  /** A plug whose token cannot be had still yields the sensor CSV. */
  lemma TokenFailureKeepsSensorRows(mac: string, settings: Settings, backend: Backend,
                                    cache: TokenCache, now: real, items: seq<Attributes>)
    requires Collect(ReadingsPager, backend.readings) == Some(items) && |items| > 0
    requires GetTuyaToken(cache, now, backend.credentialsSet, backend.tokenReply).token.None?
    requires BuildCsv(settings.config, mac, items, [], settings.isoTime, settings.repr).Some?
    ensures Serve(mac, settings, backend, cache, now).status == 200
    ensures Serve(mac, settings, backend, cache, now).csv == BuildCsv(settings.config, mac, items, [], settings.isoTime, settings.repr)
  {
  }
}

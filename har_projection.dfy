/** The HAR-to-delimited-text projection as functions: how one key renders,
    how the Referer header is found, what one entry's row is and what the
    whole output is. The class HarFile (har_file.dfy) computes the same text
    by appending to a buffer; these functions are its specification. */
module HarProjection {
  import opened Wrappers
  import opened Errors
  import opened Strings
  import opened Json

  /** A NumberFormat: turns a number into its locale-dependent text. */
  type Formatter = real -> string

  /** The delimiter a converter starts with: a horizontal tab. */
  const CsvDefaultDelimiter: char := '\t'

  /** The seven timing phases of a HAR entry, in column order. */
  const TimingNames: seq<string> := ["blocked", "dns", "connect", "send", "wait", "receive", "ssl"]

  /** The ten columns before the timings. */
  const GeneralColumns: seq<string> :=
    ["url", "method", "startedDateTime", "time", "Response status",
     "Response content mimeType", "Response content size",
     "Response headersSize", "Response bodySize", "Referer"]

  const TimingColumns: seq<string> := TimingHeaders(TimingNames)

  /** "Timing " before each timing name. */
  function TimingHeaders(names: seq<string>): (r: seq<string>)
    ensures |r| == |names|
    ensures forall i :: 0 <= i < |names| ==> r[i] == "Timing " + names[i]
  {
    if names == [] then [] else ["Timing " + names[0]] + TimingHeaders(names[1..])
  }

  /** The seventeen column names of the header line. */
  const ColumnNames: seq<string> := GeneralColumns + TimingColumns

  /** The header line, without its terminator. */
  function HeaderLine(d: char): string {
    Join(ColumnNames, [d])
  }

  /** processKey(JSONObject, String): the text of one cell. */
  function ProcessKey(obj: JObject, key: string, fmt: Option<Formatter>): (r: Result<string, Error>)
    // absent or null: empty
    ensures key !in obj || obj[key].JNull? ==> r == Success("")
    // a string: verbatim
    ensures key in obj && obj[key].JStr? ==> r == Success(obj[key].s)
    // a positive number: the formatter's text
    ensures key in obj && obj[key].JNum? && obj[key].n > 0.0 && fmt.Some? ==>
              r == Success(fmt.value(obj[key].n))
    // zero or negative (HAR's -1 "not applicable"): empty
    ensures key in obj && obj[key].JNum? && obj[key].n <= 0.0 ==> r == Success("")
    // the only failure: a positive number without a formatter
    ensures r.Failure? <==> key in obj && obj[key].JNum? && obj[key].n > 0.0 && fmt.None?
    ensures r.Failure? ==> r.error == NullFormatter
    // only strings and positive numbers ever produce text
    ensures r.Success? && r.value != "" ==>
              key in obj && (obj[key].JStr? || (obj[key].JNum? && obj[key].n > 0.0))
  {
    if key !in obj then Success("")
    else
      match obj[key]
      case JStr(s) => Success(s)
      case JNum(n) =>
        if n <= 0.0 then Success("")
        else if fmt.None? then Failure(NullFormatter)
        else Success(fmt.value(n))
      case _ => Success("")
  }

  /** getJSONObject(key): the member must be present and an object. */
  function GetObject(obj: JObject, key: string): (r: Result<JObject, Error>)
    ensures r.Success? <==> key in obj && obj[key].JObj?
    ensures r.Success? ==> r.value == obj[key].fields
    ensures r.Failure? ==> r.error == MalformedHar
  {
    if key in obj && obj[key].JObj? then Success(obj[key].fields) else Failure(MalformedHar)
  }

  /** getJSONArray(key): the member must be present and an array. */
  function GetArray(obj: JObject, key: string): (r: Result<seq<JValue>, Error>)
    ensures r.Success? <==> key in obj && obj[key].JArr?
    ensures r.Success? ==> r.value == obj[key].items
    ensures r.Failure? ==> r.error == MalformedHar
  {
    if key in obj && obj[key].JArr? then Success(obj[key].items) else Failure(MalformedHar)
  }

  /** A cast to JSONObject. */
  function AsObject(v: JValue): (r: Result<JObject, Error>)
    ensures r.Success? <==> v.JObj?
    ensures r.Success? ==> r.value == v.fields
    ensures r.Failure? ==> r.error == MalformedHar
  {
    if v.JObj? then Success(v.fields) else Failure(MalformedHar)
  }

  /** `((JSONObject)entry).getString("name").equalsIgnoreCase(key)` for one
      header: it must be an object with a non-null name; a name that is not a
      string never matches. */
  function NameMatches(header: JValue, key: string): (r: Result<bool, Error>)
    ensures r.Success? <==> header.JObj? && "name" in header.fields && !header.fields["name"].JNull?
    ensures r.Failure? ==> r.error == MalformedHar
    ensures r == Success(true) <==>
              header.JObj? && "name" in header.fields && header.fields["name"].JStr? &&
              EqualsIgnoreCase(header.fields["name"].s, key)
  {
    if !header.JObj? || "name" !in header.fields then Failure(MalformedHar)
    else
      match header.fields["name"]
      case JNull => Failure(MalformedHar)
      case JStr(s) => Success(EqualsIgnoreCase(s, key))
      case _ => Success(false)
  }

  /** processKey(JSONArray, String): the rendered "value" of the first header
      whose name matches `key`, scanning in array order. */
  function ScanHeaders(headers: seq<JValue>, key: string, fmt: Option<Formatter>): (r: Result<string, Error>)
    ensures r.Failure? ==> r.error == MalformedHar || r.error == NullFormatter
    decreases |headers|
  {
    if headers == [] then Success("")
    else
      var matches :- NameMatches(headers[0], key);
      if matches then ProcessKey(headers[0].fields, "value", fmt)
      else ScanHeaders(headers[1..], key, fmt)
  }

  /** The cells of `keys`, each rendered from `obj`, in order. */
  function RenderKeys(obj: JObject, keys: seq<string>, fmt: Option<Formatter>): (r: Result<seq<string>, Error>)
    ensures r.Success? ==> |r.value| == |keys|
    ensures r.Failure? ==> r.error == NullFormatter
    decreases |keys|
  {
    if keys == [] then Success([])
    else
      var n := |keys| - 1;
      var init :- RenderKeys(obj, keys[..n], fmt);
      var cell :- ProcessKey(obj, keys[n], fmt);
      Success(init + [cell])
  }

  /** Each rendered cell is its own key's rendering, in key order. */
  lemma {:induction false} RenderKeysCells(obj: JObject, keys: seq<string>, fmt: Option<Formatter>)
    requires RenderKeys(obj, keys, fmt).Success?
    ensures forall i :: 0 <= i < |keys| ==> ProcessKey(obj, keys[i], fmt) == Success(RenderKeys(obj, keys, fmt).value[i])
    decreases |keys|
  {
    if keys != [] {
      var n := |keys| - 1;
      var init := RenderKeys(obj, keys[..n], fmt).value;
      var cell := ProcessKey(obj, keys[n], fmt).value;
      RenderKeysCells(obj, keys[..n], fmt);
      forall i | 0 <= i < n ensures ProcessKey(obj, keys[i], fmt) == Success(RenderKeys(obj, keys, fmt).value[i]) {
        assert keys[..n][i] == keys[i];
        assert (init + [cell])[i] == init[i];
      }
    }
  }

  /** Rendering fails exactly when some key cannot be rendered. */
  lemma {:induction false} RenderKeysFailIff(obj: JObject, keys: seq<string>, fmt: Option<Formatter>)
    ensures RenderKeys(obj, keys, fmt).Failure? <==>
            exists i :: 0 <= i < |keys| && ProcessKey(obj, keys[i], fmt).Failure?
    decreases |keys|
  {
    if keys != [] {
      var n := |keys| - 1;
      RenderKeysFailIff(obj, keys[..n], fmt);
      if RenderKeys(obj, keys[..n], fmt).Failure? {
        var i :| 0 <= i < n && ProcessKey(obj, keys[..n][i], fmt).Failure?;
        assert keys[..n][i] == keys[i];
      } else if ProcessKey(obj, keys[n], fmt).Success? {
        forall i | 0 <= i < |keys| ensures ProcessKey(obj, keys[i], fmt).Success? {
          if i < n {
            assert keys[..n][i] == keys[i];
          }
        }
      }
    }
  }

  /** The first key that cannot be rendered makes the rendering fail. */
  lemma {:induction false} RenderKeysFailAt(obj: JObject, keys: seq<string>, k: nat, fmt: Option<Formatter>)
    requires k < |keys|
    requires RenderKeys(obj, keys[..k], fmt).Success?
    requires ProcessKey(obj, keys[k], fmt).Failure?
    ensures RenderKeys(obj, keys, fmt).Failure?
    decreases |keys|
  {
    var n := |keys| - 1;
    if n > k {
      assert keys[..n][..k] == keys[..k] && keys[..n][k] == keys[k];
      RenderKeysFailAt(obj, keys[..n], k, fmt);
    } else {
      assert keys[..n] == keys[..k];
    }
  }

  /** One more key extends the rendered cells by that key's cell. */
  lemma RenderKeysStep(obj: JObject, keys: seq<string>, k: nat, cells: seq<string>, cell: string, fmt: Option<Formatter>)
    requires k < |keys|
    requires RenderKeys(obj, keys[..k], fmt) == Success(cells)
    requires ProcessKey(obj, keys[k], fmt) == Success(cell)
    ensures RenderKeys(obj, keys[..k + 1], fmt) == Success(cells + [cell])
  {
    assert keys[..k + 1][..k] == keys[..k] && keys[..k + 1][k] == keys[k];
  }

  /** The first five cells: url, method, startedDateTime, time and status. */
  function LeadingCells(entry: JObject, request: JObject, response: JObject,
                        fmt: Option<Formatter>): (r: Result<seq<string>, Error>)
    ensures r.Success? ==> |r.value| == 5
  {
    var url :- ProcessKey(request, "url", fmt);
    var httpMethod :- ProcessKey(request, "method", fmt);
    var started :- ProcessKey(entry, "startedDateTime", fmt);
    var time :- ProcessKey(entry, "time", fmt);
    var status :- ProcessKey(response, "status", fmt);
    Success([url, httpMethod, started, time, status])
  }

  /** The next four cells: mimeType, size, headersSize and bodySize. */
  function SizeCells(response: JObject, content: JObject, fmt: Option<Formatter>): (r: Result<seq<string>, Error>)
    ensures r.Success? ==> |r.value| == 4
  {
    var mimeType :- ProcessKey(content, "mimeType", fmt);
    var size :- ProcessKey(content, "size", fmt);
    var headersSize :- ProcessKey(response, "headersSize", fmt);
    var bodySize :- ProcessKey(response, "bodySize", fmt);
    Success([mimeType, size, headersSize, bodySize])
  }

  /** The Referer cell: the request's headers array must be present. */
  function RefererCell(request: JObject, fmt: Option<Formatter>): (r: Result<string, Error>)
    ensures r.Failure? <==> GetArray(request, "headers").Failure? ||
                            ScanHeaders(GetArray(request, "headers").value, "Referer", fmt).Failure?
  {
    var headers :- GetArray(request, "headers");
    ScanHeaders(headers, "Referer", fmt)
  }

  /** The seventeen cells of one entry, in column order (singleEntryToCsvLine).
      The request, response, response content and timings objects must be
      present. */
  function EntryCells(entry: JObject, fmt: Option<Formatter>): (r: Result<seq<string>, Error>)
    ensures r.Success? ==> |r.value| == |ColumnNames|
  {
    var request :- GetObject(entry, "request");
    var response :- GetObject(entry, "response");
    var content :- GetObject(response, "content");
    var timings :- GetObject(entry, "timings");
    var leading :- LeadingCells(entry, request, response, fmt);
    var sizes :- SizeCells(response, content, fmt);
    var referer :- RefererCell(request, fmt);
    var timing :- RenderKeys(timings, TimingNames, fmt);
    Success(leading + sizes + [referer] + timing)
  }

  /** One entry's data line, without its terminator. */
  function EntryRow(entry: JObject, d: char, fmt: Option<Formatter>): Result<string, Error> {
    var cells :- EntryCells(entry, fmt);
    Success(Join(cells, [d]))
  }

  /** entries.getJSONObject(i), then its line. */
  function RowOf(entry: JValue, d: char, fmt: Option<Formatter>): Result<string, Error> {
    var obj :- AsObject(entry);
    EntryRow(obj, d, fmt)
  }

  /** Per-entry results in order, stopping at the first failure: what a loop
      does that converts each element and lets the first exception escape. */
  function Collect(results: seq<Result<string, Error>>): (r: Result<seq<string>, Error>)
    ensures r.Success? ==> |r.value| == |results|
    decreases |results|
  {
    if results == [] then Success([])
    else
      var n := |results| - 1;
      var init :- Collect(results[..n]);
      var row :- results[n];
      Success(init + [row])
  }

  /** Each entry's own conversion, in array order. */
  function RowResults(entries: seq<JValue>, d: char, fmt: Option<Formatter>): (r: seq<Result<string, Error>>)
    ensures |r| == |entries|
  {
    seq(|entries|, i requires 0 <= i < |entries| => RowOf(entries[i], d, fmt))
  }

  /** The data lines of all entries, in array order; the first entry that
      fails decides the failure. */
  function Rows(entries: seq<JValue>, d: char, fmt: Option<Formatter>): (r: Result<seq<string>, Error>)
    ensures r.Success? ==> |r.value| == |entries|
  {
    Collect(RowResults(entries, d, fmt))
  }

  /** `((JSONObject)json.get("log")).getJSONArray("entries")`. */
  function Entries(doc: JObject): (r: Result<seq<JValue>, Error>)
    ensures r.Success? <==> GetObject(doc, "log").Success? && GetArray(GetObject(doc, "log").value, "entries").Success?
    ensures r.Success? ==> r.value == doc["log"].fields["entries"].items
    ensures r.Failure? ==> r.error == MalformedHar
  {
    var log :- GetObject(doc, "log");
    GetArray(log, "entries")
  }

  /** entriesToCsv: the header line, CRLF, then every data line followed by CRLF. */
  function CsvText(doc: JObject, d: char, fmt: Option<Formatter>): Result<string, Error> {
    var entries :- Entries(doc);
    var rows :- Rows(entries, d, fmt);
    Success(HeaderLine(d) + CRLF + Terminated(rows, CRLF))
  }

  // ---------------------------------------------------------------------
  // The Referer lookup

  /** The Referer cell is the rendered value of the first header whose name
      matches, when every header before it has a readable name. */
  lemma {:induction false} ScanFirstMatch(headers: seq<JValue>, key: string, fmt: Option<Formatter>, i: nat)
    requires i < |headers|
    requires NameMatches(headers[i], key) == Success(true)
    requires forall j :: 0 <= j < i ==> NameMatches(headers[j], key) == Success(false)
    ensures headers[i].JObj?
    ensures ScanHeaders(headers, key, fmt) == ProcessKey(headers[i].fields, "value", fmt)
    decreases i
  {
    if i > 0 {
      assert NameMatches(headers[0], key) == Success(false);
      var rest := headers[1..];
      assert forall j :: 0 <= j < i - 1 ==> rest[j] == headers[j + 1];
      ScanFirstMatch(rest, key, fmt, i - 1);
    }
  }

  /** Headers after the first match play no part in the Referer cell. */
  lemma LaterHeadersIgnored(headers: seq<JValue>, later: seq<JValue>, key: string, fmt: Option<Formatter>, i: nat)
    requires i < |headers|
    requires NameMatches(headers[i], key) == Success(true)
    requires forall j :: 0 <= j < i ==> NameMatches(headers[j], key) == Success(false)
    ensures ScanHeaders(headers[..i + 1] + later, key, fmt) == ScanHeaders(headers, key, fmt)
  {
    var h := headers[..i + 1] + later;
    assert forall j :: 0 <= j <= i ==> h[j] == headers[j];
    ScanFirstMatch(h, key, fmt, i);
    ScanFirstMatch(headers, key, fmt, i);
  }

  /** No matching header: the Referer cell is empty. */
  lemma {:induction false} ScanNoMatch(headers: seq<JValue>, key: string, fmt: Option<Formatter>)
    requires forall j :: 0 <= j < |headers| ==> NameMatches(headers[j], key) == Success(false)
    ensures ScanHeaders(headers, key, fmt) == Success("")
    decreases |headers|
  {
    if headers != [] {
      assert NameMatches(headers[0], key) == Success(false);
      var rest := headers[1..];
      assert forall j :: 0 <= j < |rest| ==> rest[j] == headers[j + 1];
      ScanNoMatch(rest, key, fmt);
    }
  }

  /** A header without a readable name before any match ends the conversion. */
  lemma {:induction false} ScanUnreadableName(headers: seq<JValue>, key: string, fmt: Option<Formatter>, i: nat)
    requires i < |headers|
    requires NameMatches(headers[i], key).Failure?
    requires forall j :: 0 <= j < i ==> NameMatches(headers[j], key) == Success(false)
    ensures ScanHeaders(headers, key, fmt) == Failure(MalformedHar)
    decreases i
  {
    if i > 0 {
      assert NameMatches(headers[0], key) == Success(false);
      var rest := headers[1..];
      assert forall j :: 0 <= j < i - 1 ==> rest[j] == headers[j + 1];
      ScanUnreadableName(rest, key, fmt, i - 1);
    }
  }

  // ---------------------------------------------------------------------
  // Rows and the whole output

  /** A timing that is absent, null, zero or negative leaves its cell empty. */
  lemma TimingCellEmpty(entry: JObject, fmt: Option<Formatter>, i: nat)
    requires i < |TimingNames|
    requires EntryCells(entry, fmt).Success?
    requires "timings" in entry && entry["timings"].JObj?
    requires var t := entry["timings"].fields;
             TimingNames[i] !in t || t[TimingNames[i]].JNull? ||
             (t[TimingNames[i]].JNum? && t[TimingNames[i]].n <= 0.0)
    ensures EntryCells(entry, fmt).value[|GeneralColumns| + i] == ""
  {
    var timings := entry["timings"].fields;
    EntryCellsParts(entry, fmt);
    var timing := RenderKeys(timings, TimingNames, fmt).value;
    RenderKeysCells(timings, TimingNames, fmt);
    assert EntryCells(entry, fmt).value[|GeneralColumns| + i] == timing[i];
  }

  /** The cell under each column: the nine direct keys, the Referer lookup
      in the request headers, then the seven timings in TimingNames order. */
  lemma EntryCellsInColumnOrder(entry: JObject, fmt: Option<Formatter>)
    requires EntryCells(entry, fmt).Success?
    ensures "request" in entry && entry["request"].JObj? && "response" in entry && entry["response"].JObj?
    ensures "timings" in entry && entry["timings"].JObj?
    ensures var response := entry["response"].fields;
            "content" in response && response["content"].JObj?
    ensures var request := entry["request"].fields;
            "headers" in request && request["headers"].JArr?
    ensures var c := EntryCells(entry, fmt).value;
            var request, response := entry["request"].fields, entry["response"].fields;
            var content := response["content"].fields;
            ProcessKey(request, "url", fmt) == Success(c[0]) &&
            ProcessKey(request, "method", fmt) == Success(c[1]) &&
            ProcessKey(entry, "startedDateTime", fmt) == Success(c[2]) &&
            ProcessKey(entry, "time", fmt) == Success(c[3]) &&
            ProcessKey(response, "status", fmt) == Success(c[4]) &&
            ProcessKey(content, "mimeType", fmt) == Success(c[5]) &&
            ProcessKey(content, "size", fmt) == Success(c[6]) &&
            ProcessKey(response, "headersSize", fmt) == Success(c[7]) &&
            ProcessKey(response, "bodySize", fmt) == Success(c[8]) &&
            ScanHeaders(request["headers"].items, "Referer", fmt) == Success(c[9])
    ensures forall j :: 0 <= j < |TimingNames| ==>
              ProcessKey(entry["timings"].fields, TimingNames[j], fmt) ==
              Success(EntryCells(entry, fmt).value[|GeneralColumns| + j])
  {
    var request, response := entry["request"].fields, entry["response"].fields;
    var content := response["content"].fields;
    var timings := entry["timings"].fields;
    EntryCellsParts(entry, fmt);
    var leading := LeadingCells(entry, request, response, fmt).value;
    var sizes := SizeCells(response, content, fmt).value;
    var timing := RenderKeys(timings, TimingNames, fmt).value;
    var c := EntryCells(entry, fmt).value;
    LeadingCellValues(entry, request, response, fmt);
    SizeCellValues(response, content, fmt);
    RenderKeysCells(timings, TimingNames, fmt);
    assert c[..5] == leading && c[5..9] == sizes;
    forall j | 0 <= j < |TimingNames|
      ensures ProcessKey(timings, TimingNames[j], fmt) == Success(c[|GeneralColumns| + j])
    {
      assert c[|GeneralColumns| + j] == timing[j];
    }
  }

  /** A successful row is its four groups of cells, in order. */
  lemma EntryCellsParts(entry: JObject, fmt: Option<Formatter>)
    requires EntryCells(entry, fmt).Success?
    ensures "request" in entry && entry["request"].JObj? && "response" in entry && entry["response"].JObj?
    ensures "timings" in entry && entry["timings"].JObj?
    ensures var response := entry["response"].fields;
            "content" in response && response["content"].JObj?
    ensures var request, response := entry["request"].fields, entry["response"].fields;
            var content := response["content"].fields;
            var timings := entry["timings"].fields;
            LeadingCells(entry, request, response, fmt).Success? &&
            SizeCells(response, content, fmt).Success? &&
            RefererCell(request, fmt).Success? &&
            RenderKeys(timings, TimingNames, fmt).Success? &&
            EntryCells(entry, fmt).value ==
              LeadingCells(entry, request, response, fmt).value + SizeCells(response, content, fmt).value +
              [RefererCell(request, fmt).value] + RenderKeys(timings, TimingNames, fmt).value
  {
  }

  /** The five leading cells are those keys' renderings, in order. */
  lemma LeadingCellValues(entry: JObject, request: JObject, response: JObject, fmt: Option<Formatter>)
    requires LeadingCells(entry, request, response, fmt).Success?
    ensures var c := LeadingCells(entry, request, response, fmt).value;
            ProcessKey(request, "url", fmt) == Success(c[0]) &&
            ProcessKey(request, "method", fmt) == Success(c[1]) &&
            ProcessKey(entry, "startedDateTime", fmt) == Success(c[2]) &&
            ProcessKey(entry, "time", fmt) == Success(c[3]) &&
            ProcessKey(response, "status", fmt) == Success(c[4])
  {
  }

  /** The four size cells are those keys' renderings, in order. */
  lemma SizeCellValues(response: JObject, content: JObject, fmt: Option<Formatter>)
    requires SizeCells(response, content, fmt).Success?
    ensures var c := SizeCells(response, content, fmt).value;
            ProcessKey(content, "mimeType", fmt) == Success(c[0]) &&
            ProcessKey(content, "size", fmt) == Success(c[1]) &&
            ProcessKey(response, "headersSize", fmt) == Success(c[2]) &&
            ProcessKey(response, "bodySize", fmt) == Success(c[3])
  {
  }

  /** A data line splits on the delimiter into its seventeen cells, when no
      cell contains the delimiter (nothing is quoted or escaped). */
  lemma RowSplitsIntoCells(entry: JObject, d: char, fmt: Option<Formatter>)
    requires EntryCells(entry, fmt).Success?
    requires forall i :: 0 <= i < |EntryCells(entry, fmt).value| ==> d !in EntryCells(entry, fmt).value[i]
    ensures EntryRow(entry, d, fmt).Success?
    ensures Split(EntryRow(entry, d, fmt).value, [d]) == EntryCells(entry, fmt).value
    ensures |Split(EntryRow(entry, d, fmt).value, [d])| == |ColumnNames|
  {
    SplitJoin(EntryCells(entry, fmt).value, [d]);
  }

  /** The header line splits on the delimiter into the seventeen column names,
      when the delimiter occurs in none of them. */
  lemma HeaderSplitsIntoColumns(d: char)
    requires forall i :: 0 <= i < |ColumnNames| ==> d !in ColumnNames[i]
    ensures Split(HeaderLine(d), [d]) == ColumnNames
    ensures |ColumnNames| == 17
  {
    SplitJoin(ColumnNames, [d]);
  }

  /** A successful collection holds every result's value, in order. */
  lemma {:induction false} CollectValues(results: seq<Result<string, Error>>)
    requires Collect(results).Success?
    ensures forall i :: 0 <= i < |results| ==> results[i] == Success(Collect(results).value[i])
    decreases |results|
  {
    if results != [] {
      var n := |results| - 1;
      var init := Collect(results[..n]).value;
      CollectValues(results[..n]);
      forall i | 0 <= i < n ensures results[i] == Success(Collect(results).value[i]) {
        assert results[..n][i] == results[i];
        assert (init + [results[n].value])[i] == init[i];
      }
    }
  }

  /** A collection fails exactly when one of the results is a failure. */
  lemma {:induction false} CollectFailIff(results: seq<Result<string, Error>>)
    ensures Collect(results).Failure? <==> exists i :: 0 <= i < |results| && results[i].Failure?
    decreases |results|
  {
    if results != [] {
      var n := |results| - 1;
      CollectFailIff(results[..n]);
      if Collect(results[..n]).Failure? {
        var i :| 0 <= i < n && results[..n][i].Failure?;
        assert results[i] == results[..n][i];
      } else if results[n].Success? {
        forall i | 0 <= i < |results| ensures results[i].Success? {
          if i < n {
            assert results[..n][i] == results[i];
          }
        }
      }
    }
  }

  /** The failure reported is that of the first failing result. */
  lemma {:induction false} CollectFailAt(results: seq<Result<string, Error>>, k: nat)
    requires k < |results|
    requires Collect(results[..k]).Success?
    requires results[k].Failure?
    ensures Collect(results) == Failure(results[k].error)
    decreases |results|
  {
    var n := |results| - 1;
    if n > k {
      assert results[..n][..k] == results[..k] && results[..n][k] == results[k];
      CollectFailAt(results[..n], k);
    } else {
      assert results[..n] == results[..k];
    }
  }

  /** One more successful result extends the collection by its value. */
  lemma CollectExtend(results: seq<Result<string, Error>>, k: nat, values: seq<string>, value: string)
    requires k < |results|
    requires Collect(results[..k]) == Success(values)
    requires results[k] == Success(value)
    ensures Collect(results[..k + 1]) == Success(values + [value])
  {
    assert results[..k + 1][..k] == results[..k];
  }

  /** Each data line is its own entry's line, in array order. */
  lemma RowsAreEntryLines(entries: seq<JValue>, d: char, fmt: Option<Formatter>)
    requires Rows(entries, d, fmt).Success?
    ensures forall i :: 0 <= i < |entries| ==> RowOf(entries[i], d, fmt) == Success(Rows(entries, d, fmt).value[i])
  {
    CollectValues(RowResults(entries, d, fmt));
  }

  /** The conversion fails exactly when some entry's line cannot be built,
      and then with the error of the first such entry. */
  lemma RowsFailIff(entries: seq<JValue>, d: char, fmt: Option<Formatter>)
    ensures Rows(entries, d, fmt).Failure? <==> exists i :: 0 <= i < |entries| && RowOf(entries[i], d, fmt).Failure?
  {
    var results := RowResults(entries, d, fmt);
    CollectFailIff(results);
    if Rows(entries, d, fmt).Failure? {
      var i :| 0 <= i < |results| && results[i].Failure?;
      assert RowOf(entries[i], d, fmt).Failure?;
    } else {
      forall i | 0 <= i < |entries| ensures RowOf(entries[i], d, fmt).Success? {
        assert results[i] == RowOf(entries[i], d, fmt);
      }
    }
  }

  /** The first entry whose line cannot be built decides the error. */
  lemma RowsFirstError(entries: seq<JValue>, d: char, fmt: Option<Formatter>, k: nat)
    requires k < |entries|
    requires forall j :: 0 <= j < k ==> RowOf(entries[j], d, fmt).Success?
    requires RowOf(entries[k], d, fmt).Failure?
    ensures Rows(entries, d, fmt) == Failure(RowOf(entries[k], d, fmt).error)
  {
    var results := RowResults(entries, d, fmt);
    var prefix := results[..k];
    forall j | 0 <= j < |prefix| ensures prefix[j].Success? {
      assert prefix[j] == RowOf(entries[j], d, fmt);
    }
    CollectFailIff(prefix);
    CollectFailAt(results, k);
  }

  /** The output is the header line and the data lines, each followed by CRLF,
      one data line per entry: N entries give N + 1 terminated lines. */
  lemma CsvLines(doc: JObject, d: char, fmt: Option<Formatter>)
    requires CsvText(doc, d, fmt).Success?
    ensures Entries(doc).Success? && Rows(Entries(doc).value, d, fmt).Success?
    ensures var rows := Rows(Entries(doc).value, d, fmt).value;
            |rows| == |Entries(doc).value| &&
            CsvText(doc, d, fmt).value == Terminated([HeaderLine(d)] + rows, CRLF)
  {
    var rows := Rows(Entries(doc).value, d, fmt).value;
    TerminatedCons(HeaderLine(d), rows, CRLF);
  }

  /** When no line contains a carriage return, splitting the output on CRLF
      gives the header, the N data lines and the empty piece after the final
      CRLF: the last data line is terminated too. */
  lemma CsvSplitsIntoLines(doc: JObject, d: char, fmt: Option<Formatter>)
    requires CsvText(doc, d, fmt).Success?
    requires d != '\r'
    requires Entries(doc).Success? && Rows(Entries(doc).value, d, fmt).Success?
    requires var rows := Rows(Entries(doc).value, d, fmt).value;
             forall i :: 0 <= i < |rows| ==> '\r' !in rows[i]
    ensures var rows := Rows(Entries(doc).value, d, fmt).value;
            Split(CsvText(doc, d, fmt).value, CRLF) == [HeaderLine(d)] + rows + [""] &&
            |Split(CsvText(doc, d, fmt).value, CRLF)| == |Entries(doc).value| + 2
  {
    var rows := Rows(Entries(doc).value, d, fmt).value;
    CsvLines(doc, d, fmt);
    var lines := [HeaderLine(d)] + rows;
    assert '\r' !in HeaderLine(d) by {
      HeaderHasNoCarriageReturn(d);
    }
    assert forall i :: 0 <= i < |lines| ==> '\r' !in lines[i] by {
      forall i | 0 <= i < |lines| ensures '\r' !in lines[i] {
        if i > 0 { assert lines[i] == rows[i - 1]; }
      }
    }
    SplitTerminated(lines, CRLF);
  }

  /** No general column name contains a carriage return. */
  lemma GeneralColumnsPlain()
    ensures forall i :: 0 <= i < |GeneralColumns| ==> '\r' !in GeneralColumns[i]
  {
    forall i | 0 <= i < |GeneralColumns| ensures '\r' !in GeneralColumns[i] {
      assert GeneralColumns[i] in GeneralColumns;
    }
  }

  /** No timing name contains a carriage return. */
  lemma TimingNamesPlain()
    ensures forall i :: 0 <= i < |TimingNames| ==> '\r' !in TimingNames[i]
  {
    forall i | 0 <= i < |TimingNames| ensures '\r' !in TimingNames[i] {
      assert TimingNames[i] in TimingNames;
    }
  }

  /** A character absent from the prefix and from every name is absent from
      every timing column name. */
  lemma TimingHeadersWithout(names: seq<string>, c: char)
    requires c !in "Timing "
    requires forall i :: 0 <= i < |names| ==> c !in names[i]
    ensures forall i :: 0 <= i < |names| ==> c !in TimingHeaders(names)[i]
  {
    forall i | 0 <= i < |names| ensures c !in TimingHeaders(names)[i] {
      assert TimingHeaders(names)[i] == "Timing " + names[i];
    }
  }

  /** The header line contains no carriage return unless the delimiter is one. */
  lemma HeaderHasNoCarriageReturn(d: char)
    requires d != '\r'
    ensures '\r' !in HeaderLine(d)
  {
    GeneralColumnsPlain();
    TimingNamesPlain();
    TimingHeadersWithout(TimingNames, '\r');
    forall i | 0 <= i < |ColumnNames| ensures '\r' !in ColumnNames[i] {
      if i >= |GeneralColumns| {
        assert ColumnNames[i] == TimingColumns[i - |GeneralColumns|];
      } else {
        assert ColumnNames[i] == GeneralColumns[i];
      }
    }
    JoinWithout(ColumnNames, [d], '\r');
  }

  /** A character in no part and not in the separator is not in the join. */
  lemma JoinWithout(parts: seq<string>, sep: string, c: char)
    requires c !in sep
    requires forall i :: 0 <= i < |parts| ==> c !in parts[i]
    ensures c !in Join(parts, sep)
  {
    if parts != [] {
      TerminatedWithout(parts[..|parts| - 1], sep, c);
    }
  }

  /** The same for every part followed by the separator. */
  lemma {:induction false} TerminatedWithout(parts: seq<string>, sep: string, c: char)
    requires c !in sep
    requires forall i :: 0 <= i < |parts| ==> c !in parts[i]
    ensures c !in Terminated(parts, sep)
    decreases |parts|
  {
    if parts != [] {
      TerminatedWithout(parts[..|parts| - 1], sep, c);
    }
  }

  /** An entry without one of the objects the projection reads ends the conversion. */
  lemma MissingObjectFails(entry: JObject, fmt: Option<Formatter>)
    requires GetObject(entry, "request").Failure? || GetObject(entry, "response").Failure? ||
             GetObject(entry, "timings").Failure? ||
             (GetObject(entry, "response").Success? &&
              GetObject(GetObject(entry, "response").value, "content").Failure?)
    ensures EntryCells(entry, fmt) == Failure(MalformedHar)
  {
  }
}

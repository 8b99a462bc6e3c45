/** The converter object: a HAR file read through a TextFile, its parsed
    document, the active delimiter and the number formatter, with the
    buffer-appending conversion methods proved against HarProjection. */
module HarFiles {
  import opened Wrappers
  import opened Errors
  import opened Strings
  import opened Json
  import opened TextFiles
  import opened HarProjection

  /** What the converter takes from its surroundings: the files (as the lines
      readLine returns), the charset names Charset.forName accepts, the JSON
      parser (None for text that is not a JSON object) and
      NumberFormat.getNumberInstance for a locale name (None: the default
      locale). */
  datatype Platform = Platform(
    files: map<string, seq<string>>,
    charsets: set<string>,
    parse: string -> Option<JObject>,
    numberInstance: Option<string> -> Formatter)

  /** What the constructor helper `init` ends in for a file that opened:
      readFile, then parsing the text read. */
  function ReadDocument(filename: string, platform: Platform): Result<JObject, Error> {
    if filename !in platform.files then Failure(FileNotFound)
    else if platform.files[filename] == [] then Failure(IndexOutOfBounds)
    else
      match platform.parse(Join(platform.files[filename], CRLF))
      case None => Failure(MalformedHar)
      case Some(doc) => Success(doc)
  }

  class HarFile {
    /** The TextFile this HarFile extends. */
    const file: TextFile
    var json: JObject
    var csvDelimiter: char
    var timingNumberFormat: Option<Formatter>

    /** The field setup of `init` once the document has been parsed; the
        delimiter is set through SetDelimiter, as in the source. */
    constructor (file: TextFile, json: JObject, timingNumberFormat: Option<Formatter>)
      ensures this.file == file && this.json == json
      ensures this.timingNumberFormat == timingNumberFormat
      ensures csvDelimiter == CsvDefaultDelimiter
    {
      this.file := file;
      this.json := json;
      this.timingNumberFormat := timingNumberFormat;
      new;
      SetDelimiter(Some(CsvDefaultDelimiter));
    }

    /** The constructor helper `init`: read the file, parse its text, set the
        default delimiter. */
    static method Init(file: TextFile, timingNumberFormat: Option<Formatter>, platform: Platform)
      returns (r: Result<HarFile, Error>)
      requires file.Valid()
      modifies file`text, file`linesRead
      ensures r.Failure? <==> ReadDocument(file.filename, platform).Failure?
      ensures r.Failure? ==> r.error == ReadDocument(file.filename, platform).error
      ensures r.Success? ==>
                fresh(r.value) && r.value.file == file && file.Valid() &&
                file.filename in platform.files &&
                file.linesRead == Some(platform.files[file.filename]) &&
                file.text == Some(Join(platform.files[file.filename], CRLF)) &&
                r.value.json == ReadDocument(file.filename, platform).value &&
                r.value.csvDelimiter == CsvDefaultDelimiter &&
                r.value.timingNumberFormat == timingNumberFormat
    {
      var read := file.ReadFile(platform.files);
      if read.Fail? {
        return Failure(read.error);
      }
      var text := file.GetText();
      var parsed := platform.parse(text.value);
      if parsed.None? {
        return Failure(MalformedHar);
      }
      var h := new HarFile(file, parsed.value, timingNumberFormat);
      return Success(h);
    }

    /** HarFile(filename, charset, timingLocaleName): the only constructor
        that sets a number formatter. */
    static method OpenWithLocale(filename: string, charset: string, timingLocaleName: Option<string>,
                                 platform: Platform)
      returns (r: Result<HarFile, Error>)
      ensures charset !in platform.charsets ==> r == Failure(UnsupportedCharset)
      ensures charset in platform.charsets ==>
                (r.Failure? <==> ReadDocument(filename, platform).Failure?) &&
                (r.Failure? ==> r.error == ReadDocument(filename, platform).error)
      ensures r.Success? ==>
                fresh(r.value) && fresh(r.value.file) &&
                r.value.file.filename == filename && r.value.file.charset == charset &&
                !r.value.file.writable &&
                filename in platform.files && r.value.file.Valid() &&
                r.value.file.linesRead == Some(platform.files[filename]) &&
                r.value.file.text == Some(Join(platform.files[filename], CRLF)) &&
                r.value.json == ReadDocument(filename, platform).value &&
                r.value.csvDelimiter == CsvDefaultDelimiter &&
                r.value.timingNumberFormat == Some(platform.numberInstance(timingLocaleName))
    {
      var textFile := TextFile.OpenForReading(filename, charset, platform.charsets);
      if textFile.Failure? {
        return Failure(textFile.error);
      }
      var format := platform.numberInstance(timingLocaleName);
      r := Init(textFile.value, Some(format), platform);
    }

    /** HarFile(filename, charset): leaves the number formatter unset. */
    static method OpenWithCharset(filename: string, charset: string, platform: Platform)
      returns (r: Result<HarFile, Error>)
      ensures charset !in platform.charsets ==> r == Failure(UnsupportedCharset)
      ensures charset in platform.charsets ==>
                (r.Failure? <==> ReadDocument(filename, platform).Failure?) &&
                (r.Failure? ==> r.error == ReadDocument(filename, platform).error)
      ensures r.Success? ==>
                fresh(r.value) && fresh(r.value.file) &&
                r.value.file.filename == filename && r.value.file.charset == charset &&
                !r.value.file.writable &&
                filename in platform.files && r.value.file.Valid() &&
                r.value.file.linesRead == Some(platform.files[filename]) &&
                r.value.file.text == Some(Join(platform.files[filename], CRLF)) &&
                r.value.json == ReadDocument(filename, platform).value &&
                r.value.csvDelimiter == CsvDefaultDelimiter &&
                r.value.timingNumberFormat == None
    {
      var textFile := TextFile.OpenForReading(filename, charset, platform.charsets);
      if textFile.Failure? {
        return Failure(textFile.error);
      }
      r := Init(textFile.value, None, platform);
    }

    /** HarFile(filename): UTF-8, and the number formatter left unset. */
    static method Open(filename: string, platform: Platform) returns (r: Result<HarFile, Error>)
      ensures r.Failure? <==> ReadDocument(filename, platform).Failure?
      ensures r.Failure? ==> r.error == ReadDocument(filename, platform).error
      ensures r.Success? ==>
                fresh(r.value) && fresh(r.value.file) &&
                r.value.file.filename == filename && r.value.file.charset == DefaultCharset &&
                !r.value.file.writable &&
                filename in platform.files && r.value.file.Valid() &&
                r.value.file.linesRead == Some(platform.files[filename]) &&
                r.value.file.text == Some(Join(platform.files[filename], CRLF)) &&
                r.value.json == ReadDocument(filename, platform).value &&
                r.value.csvDelimiter == CsvDefaultDelimiter &&
                r.value.timingNumberFormat == None
    {
      var textFile := TextFile.OpenDefault(filename);
      r := Init(textFile, None, platform);
    }

    /** setDelimiter: a null argument keeps the current delimiter. */
    method SetDelimiter(delimiter: Option<char>)
      modifies this`csvDelimiter
      ensures csvDelimiter == if delimiter.Some? then delimiter.value else old(csvDelimiter)
    {
      if delimiter.Some? {
        csvDelimiter := delimiter.value;
      }
    }

    /** processKey(JSONArray, String): scan the headers in order and stop at
        the first whose name matches. */
    method ProcessKeyInArray(headers: seq<JValue>, key: string) returns (r: Result<string, Error>)
      ensures r == ScanHeaders(headers, key, timingNumberFormat)
    {
      var returnValue := "";
      var i := 0;
      while i < |headers|
        invariant 0 <= i <= |headers|
        invariant ScanHeaders(headers, key, timingNumberFormat) ==
                  ScanHeaders(headers[i..], key, timingNumberFormat)
      {
        assert headers[i..][0] == headers[i] && headers[i..][1..] == headers[i + 1..];
        var matches :- NameMatches(headers[i], key);
        if matches {
          returnValue :- ProcessKey(headers[i].fields, "value", timingNumberFormat);
          return Success(returnValue);
        }
        i := i + 1;
      }
      return Success(returnValue);
    }

    /** singleEntryToCsvLine: the ten general cells, each followed by the
        delimiter, then the seven timing cells with the delimiter between. */
    method SingleEntryToCsvLine(entry: JObject) returns (r: Result<string, Error>)
      ensures r == EntryRow(entry, csvDelimiter, timingNumberFormat)
    {
      var d, fmt := csvDelimiter, timingNumberFormat;
      var sep: string := [d];
      var request :- GetObject(entry, "request");
      var response :- GetObject(entry, "response");
      var content :- GetObject(response, "content");
      var timings :- GetObject(entry, "timings");
      ghost var leading, sizes, cells: seq<string>;
      var buffer;
      buffer, leading := AppendLeadingCells(entry, request, response, sep);
      if buffer.Failure? {
        return Failure(buffer.error);
      }
      buffer, sizes := AppendSizeCells(buffer.value, leading, response, content, sep);
      if buffer.Failure? {
        return Failure(buffer.error);
      }
      var headers :- GetArray(request, "headers");
      var referer :- ProcessKeyInArray(headers, "Referer");
      var line;
      line, cells := AppendCell(buffer.value, leading + sizes, referer, sep);
      r := AppendTimingCells(line, cells, timings, sep);
    }

    /** singleEntryToCsvLine, first cells: url, method, startedDateTime, time
        and status, each followed by the delimiter. */
    method AppendLeadingCells(entry: JObject, request: JObject, response: JObject, sep: string)
      returns (r: Result<string, Error>, ghost cells: seq<string>)
      ensures r.Failure? ==> LeadingCells(entry, request, response, timingNumberFormat) == Failure(r.error)
      ensures r.Success? ==>
                LeadingCells(entry, request, response, timingNumberFormat) == Success(cells) &&
                r.value == Terminated(cells, sep)
    {
      var fmt := timingNumberFormat;
      var buffer := "";
      cells := [];
      var url :- ProcessKey(request, "url", fmt);
      buffer, cells := AppendCell(buffer, cells, url, sep);
      var httpMethod :- ProcessKey(request, "method", fmt);
      buffer, cells := AppendCell(buffer, cells, httpMethod, sep);
      var started :- ProcessKey(entry, "startedDateTime", fmt);
      buffer, cells := AppendCell(buffer, cells, started, sep);
      var time :- ProcessKey(entry, "time", fmt);
      buffer, cells := AppendCell(buffer, cells, time, sep);
      var status :- ProcessKey(response, "status", fmt);
      buffer, cells := AppendCell(buffer, cells, status, sep);
      AppendFive(url, httpMethod, started, time, status);
      return Success(buffer), cells;
    }

    /** singleEntryToCsvLine, next cells: mimeType, size, headersSize and
        bodySize, each followed by the delimiter. */
    method AppendSizeCells(buffer: string, ghost cells: seq<string>,
                           response: JObject, content: JObject, sep: string)
      returns (r: Result<string, Error>, ghost sizes: seq<string>)
      requires buffer == Terminated(cells, sep)
      ensures r.Failure? ==> SizeCells(response, content, timingNumberFormat) == Failure(r.error)
      ensures r.Success? ==>
                SizeCells(response, content, timingNumberFormat) == Success(sizes) &&
                r.value == Terminated(cells + sizes, sep)
    {
      var fmt := timingNumberFormat;
      var line := buffer;
      ghost var cells' := cells;
      sizes := [];
      var mimeType :- ProcessKey(content, "mimeType", fmt);
      line, cells' := AppendCell(line, cells', mimeType, sep);
      var size :- ProcessKey(content, "size", fmt);
      line, cells' := AppendCell(line, cells', size, sep);
      var headersSize :- ProcessKey(response, "headersSize", fmt);
      line, cells' := AppendCell(line, cells', headersSize, sep);
      var bodySize :- ProcessKey(response, "bodySize", fmt);
      line, cells' := AppendCell(line, cells', bodySize, sep);
      sizes := [mimeType, size, headersSize, bodySize];
      AppendFour(cells, mimeType, size, headersSize, bodySize);
      return Success(line), sizes;
    }

    /** The second part of singleEntryToCsvLine: the timing cells, with the
        delimiter after every one but the last. */
    method AppendTimingCells(buffer: string, ghost cells: seq<string>, timings: JObject, sep: string)
      returns (r: Result<string, Error>)
      requires buffer == Terminated(cells, sep)
      ensures r.Failure? ==> RenderKeys(timings, TimingNames, timingNumberFormat) == Failure(r.error)
      ensures r.Success? ==>
                RenderKeys(timings, TimingNames, timingNumberFormat).Success? &&
                r.value == Join(cells + RenderKeys(timings, TimingNames, timingNumberFormat).value, sep)
    {
      var fmt := timingNumberFormat;
      var line := buffer;
      ghost var timing: seq<string> := [];
      var i := 0;
      assert cells + timing == cells && |TimingNames| == 7;
      while i < |TimingNames|
        invariant 0 <= i <= |TimingNames|
        invariant RenderKeys(timings, TimingNames[..i], fmt) == Success(timing)
        invariant line == if i < |TimingNames| then Terminated(cells + timing, sep)
                          else Join(cells + timing, sep)
      {
        var rendered := ProcessKey(timings, TimingNames[i], fmt);
        if rendered.Failure? {
          RenderKeysFailAt(timings, TimingNames, i, fmt);
          return Failure(rendered.error);
        }
        var cell := rendered.value;
        RenderKeysStep(timings, TimingNames, i, timing, cell, fmt);
        ghost var done := cells + timing;
        line := line + cell;
        if i + 1 < |TimingNames| {
          line := line + sep;
          TerminatedStep(done, cell, sep);
        } else {
          JoinSnoc(done, cell, sep);
        }
        AppendAfter(cells, timing, cell);
        timing := timing + [cell];
        i := i + 1;
      }
      assert TimingNames[..i] == TimingNames;
      return Success(line);
    }

    /** entriesToCsv: the header line and CRLF, then every entry's line; the
        CRLF guard compares the entry index with the buffer length, which
        already exceeds it, so every line is terminated. */
    method EntriesToCsv() returns (r: Result<string, Error>)
      ensures r == CsvText(json, csvDelimiter, timingNumberFormat)
    {
      var header := BuildHeader();
      var entries :- Entries(json);
      r := AppendRows(header + CRLF, entries);
    }

    /** entriesToCsv, first part: the column names with the delimiter between
        them. */
    method BuildHeader() returns (buffer: string)
      ensures buffer == HeaderLine(csvDelimiter)
    {
      var sep: string := [csvDelimiter];
      // "url" + d + "method" + d + ... + "Referer" + d
      buffer := Terminated(GeneralColumns, sep);
      var t := 0;
      assert GeneralColumns + TimingColumns[..t] == GeneralColumns && |TimingNames| == 7;
      while t < |TimingNames|
        invariant 0 <= t <= |TimingNames|
        invariant buffer == if t < |TimingNames| then Terminated(GeneralColumns + TimingColumns[..t], sep)
                            else Join(ColumnNames, sep)
      {
        ghost var done := GeneralColumns + TimingColumns[..t];
        ExtendPrefix(GeneralColumns, TimingColumns, t);
        assert TimingColumns[t] == "Timing " + TimingNames[t];
        buffer := buffer + ("Timing " + TimingNames[t]);
        if t + 1 < |TimingNames| {
          buffer := buffer + sep;
          TerminatedStep(done, TimingColumns[t], sep);
        } else {
          JoinSnoc(done, TimingColumns[t], sep);
          assert TimingColumns[..t + 1] == TimingColumns;
        }
        t := t + 1;
      }
    }

    /** entriesToCsv, second part: each entry's line after the header, with
        the guarded CRLF after it. */
    method AppendRows(header: string, entries: seq<JValue>) returns (r: Result<string, Error>)
      requires |header| >= 2
      ensures r.Failure? <==> Rows(entries, csvDelimiter, timingNumberFormat).Failure?
      ensures r.Failure? ==> r.error == Rows(entries, csvDelimiter, timingNumberFormat).error
      ensures r.Success? ==>
                r.value == header + Terminated(Rows(entries, csvDelimiter, timingNumberFormat).value, CRLF)
    {
      var d, fmt := csvDelimiter, timingNumberFormat;
      var buffer := header;
      ghost var results := RowResults(entries, d, fmt);
      ghost var rows: seq<string> := [];
      var i := 0;
      while i < |entries|
        invariant 0 <= i <= |entries|
        invariant Collect(results[..i]) == Success(rows)
        invariant buffer == header + Terminated(rows, CRLF)
        invariant |buffer| >= i + 2
      {
        var entry := AsObject(entries[i]);
        if entry.Failure? {
          CollectFailAt(results, i);
          return Failure(entry.error);
        }
        var line := SingleEntryToCsvLine(entry.value);
        if line.Failure? {
          CollectFailAt(results, i);
          return Failure(line.error);
        }
        CollectExtend(results, i, rows, line.value);
        TerminatedSnoc(header, rows, line.value, CRLF);
        buffer := buffer + line.value;
        if i < |buffer| - 1 {
          buffer := buffer + CRLF;
        } else {
          assert false;
        }
        rows := rows + [line.value];
        i := i + 1;
      }
      assert results[..i] == results;
      return Success(buffer);
    }
  }

  /** Append one cell and the delimiter to a line being built. */
  method AppendCell(buffer: string, ghost cells: seq<string>, cell: string, sep: string)
    returns (buffer': string, ghost cells': seq<string>)
    requires buffer == Terminated(cells, sep)
    ensures cells' == cells + [cell]
    ensures buffer' == Terminated(cells', sep)
  {
    buffer' := buffer + cell + sep;
    cells' := cells + [cell];
    assert cells'[..|cells|] == cells;
  }
}

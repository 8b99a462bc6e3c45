# HarTools in Dafny

A model of the HAR-to-delimited-text converter of HarTools, with the text
file reader it builds on and the command-line tokeniser that drives it.

- `HarFile` reads an HTTP Archive (HAR 1.2) document. For `log.entries`
  it emits one fixed header line of seventeen column names, then one line
  per entry: the request URL and method, the entry's start time and
  duration, the response status, content type, content size, header size
  and body size, the `Referer` request header, and the seven timing phases.
  Cells are joined by a delimiter (a tab unless changed). Every line ends
  in CRLF.
- Every cell follows one rendering rule:
  - absent or null renders as empty;
  - a string renders verbatim;
  - a number greater than zero goes through the configured number format;
  - anything else renders as empty. This includes HAR's `-1`, "not
    applicable".
- `TextFile` reads a file as the lines `readLine` returns, joined by CRLF.
  It refuses to write unless it was opened for writing.
- `CliArgs` turns an argument array into a map:
  - `--name` and translated `-c` tokens are keys;
  - a key's value is the next token, unless that token starts with `-`, in
    which case the key is a flag;
  - a later occurrence of a key overwrites an earlier one.

Layout:

- `wrappers.dfy` defines `Option`, `Result` and `Outcome`.
- `errors.dfy` lists the exceptions the Java code can throw.
- `json.dfy` holds the parsed JSON value.
- `strings.dfy` defines join, terminate and split with their round-trip lemmas, plus ASCII `equalsIgnoreCase`.
- `har_projection.dfy` gives the conversion as functions and proves its properties.
- `har_file.dfy` holds the class `HarFile`. Its buffer-appending methods are proved equal to those functions.
- `text_file.dfy` holds the class `TextFile`.
- `cli_args.dfy` holds the tokeniser, as specification functions plus the class `CliArgs`.

Design:

- Java's `HarFile extends TextFile` becomes composition: a `HarFile` holds its `TextFile`.
- Constructors that can throw become static methods that return a `Result`.
- The environment is a `Platform` value. It holds:
  - the files, as line sequences;
  - the charset names that are recognised;
  - the JSON parser;
  - the `NumberFormat` lookup.

Every data line, including the last, ends in CRLF. The guard at
`HarFile.java:90` compares the entry index with the length of the buffer.
The buffer already holds the header and its CRLF, so the guard is always
true. `HarFiles.HarFile.AppendRows` proves this: its other branch is
unreachable.

## Model

| member | source | states |
|---|---|---|
| HarProjection.ProcessKey | src/ar/com/yamamoto/hartools/HarFile.java:151-171 | absent or null gives ""; a string gives itself; a number > 0 gives the formatter's text; a number <= 0 gives ""; the call fails (null formatter) exactly when the number is > 0 and no formatter is set; only strings and positive numbers ever give non-empty text |
| HarProjection.GetObject | src/ar/com/yamamoto/hartools/HarFile.java:110-113 | succeeds exactly when the member is present and an object, and then returns it; otherwise a malformed-document failure |
| HarProjection.GetArray | src/ar/com/yamamoto/hartools/HarFile.java:125-126 | succeeds exactly when the member is present and an array, and then returns its items; otherwise a malformed-document failure |
| HarProjection.AsObject | src/ar/com/yamamoto/hartools/HarFile.java:89 | `entries.getJSONObject(i)`: succeeds exactly for an object value |
| HarProjection.NameMatches | src/ar/com/yamamoto/hartools/HarFile.java:189 | fails exactly when the header is not an object or its name is missing or null; true exactly when the name is a string equal to the key ignoring case |
| HarProjection.ScanHeaders | src/ar/com/yamamoto/hartools/HarFile.java:184-196 | the only failures are a malformed header and the null formatter; ScanFirstMatch, ScanNoMatch, ScanUnreadableName and LaterHeadersIgnored state which header decides the cell |
| HarProjection.ScanFirstMatch | src/ar/com/yamamoto/hartools/HarFile.java:184-196 | when header i is the first whose name matches, the Referer cell is that header's rendered `value` |
| HarProjection.LaterHeadersIgnored | src/ar/com/yamamoto/hartools/HarFile.java:188-192 | headers after the first match can be replaced by anything without changing the result (the `break`) |
| HarProjection.ScanNoMatch | src/ar/com/yamamoto/hartools/HarFile.java:186-195 | no matching header gives the empty string |
| HarProjection.ScanUnreadableName | src/ar/com/yamamoto/hartools/HarFile.java:189 | a header without a readable name, before any match, fails the conversion |
| HarProjection.TimingHeaders | src/ar/com/yamamoto/hartools/HarFile.java:77-82 | one column name per timing, "Timing " before the timing's name, in order |
| HarProjection.RenderKeys | src/ar/com/yamamoto/hartools/HarFile.java:129-134 | one cell per key; the only failure is the null-formatter error |
| HarProjection.RenderKeysCells | src/ar/com/yamamoto/hartools/HarFile.java:129-130 | on success, cell i is the rendering of key i, in key order |
| HarProjection.RenderKeysFailIff | src/ar/com/yamamoto/hartools/HarFile.java:129-134 | the timing cells fail exactly when some key fails to render |
| HarProjection.RenderKeysFailAt | src/ar/com/yamamoto/hartools/HarFile.java:129-130 | when the keys before k render and key k does not, the whole rendering fails with key k's error |
| HarProjection.LeadingCells | src/ar/com/yamamoto/hartools/HarFile.java:116-120 | five cells; LeadingCellValues states which key each one renders |
| HarProjection.SizeCells | src/ar/com/yamamoto/hartools/HarFile.java:121-124 | four cells; SizeCellValues states which key each one renders |
| HarProjection.EntryCells | src/ar/com/yamamoto/hartools/HarFile.java:110-134 | a converted entry has exactly as many cells as the header has columns (17) |
| HarProjection.EntryCellsInColumnOrder | src/ar/com/yamamoto/hartools/HarFile.java:110-134 | a converted entry has request, response, content, timings and a headers array; cell 0..8 is url, method, startedDateTime, time, status, mimeType, size, headersSize, bodySize from their objects, cell 9 the Referer lookup, cells 10..16 the seven timings in order |
| HarProjection.EntryCellsParts | src/ar/com/yamamoto/hartools/HarFile.java:110-134 | a converted entry has its four objects, and its cells are the five leading cells, the four size cells, the Referer cell and the seven timing cells, in that order |
| HarProjection.LeadingCellValues | src/ar/com/yamamoto/hartools/HarFile.java:116-120 | the five leading cells are the renderings of url and method (request), startedDateTime and time (entry) and status (response) |
| HarProjection.SizeCellValues | src/ar/com/yamamoto/hartools/HarFile.java:121-124 | the four size cells are the renderings of mimeType and size (content), headersSize and bodySize (response) |
| HarProjection.RefererCell | src/ar/com/yamamoto/hartools/HarFile.java:125-126 | the Referer cell fails exactly when the request has no headers array or the header scan fails |
| HarProjection.MissingObjectFails | src/ar/com/yamamoto/hartools/HarFile.java:110-113 | a missing request, response, content or timings object fails the entry with a malformed-document error |
| HarProjection.TimingCellEmpty | src/ar/com/yamamoto/hartools/HarFile.java:129-134 | a timing that is absent, null, zero or negative (HAR's -1) gives an empty cell |
| HarProjection.EntryRow | src/ar/com/yamamoto/hartools/HarFile.java:106-137 | the entry's cells joined by the delimiter with none after the last; RowSplitsIntoCells splits it back into the 17 cells |
| HarProjection.RowSplitsIntoCells | src/ar/com/yamamoto/hartools/HarFile.java:116-136 | a data line is the 17 cells joined by the delimiter with none after the last: splitting it on the delimiter gives the cells back when no cell contains the delimiter |
| HarProjection.HeaderLine | src/ar/com/yamamoto/hartools/HarFile.java:66-82 | the header line: the 17 column names joined by the delimiter; HeaderSplitsIntoColumns splits it back, HeaderHasNoCarriageReturn keeps CRLF out of it |
| HarProjection.HeaderHasNoCarriageReturn | src/ar/com/yamamoto/hartools/HarFile.java:66-82 | the header line holds no carriage return unless the delimiter is one |
| HarProjection.HeaderSplitsIntoColumns | src/ar/com/yamamoto/hartools/HarFile.java:66-82 | the header line is the 17 column names joined by the delimiter: splitting it gives them back |
| HarProjection.Entries | src/ar/com/yamamoto/hartools/HarFile.java:86 | succeeds exactly when `log` is an object holding an `entries` array, and then returns that array; otherwise a malformed-document failure |
| HarProjection.RowOf | src/ar/com/yamamoto/hartools/HarFile.java:89 | an array element cast to an object, then that entry's line; the cast fails for a non-object |
| HarProjection.Rows | src/ar/com/yamamoto/hartools/HarFile.java:88-93 | one line per entry; RowsAreEntryLines, RowsFailIff and RowsFirstError state which line and which error |
| HarProjection.RowsAreEntryLines | src/ar/com/yamamoto/hartools/HarFile.java:88-93 | a successful conversion has one line per entry, line i being entry i's line |
| HarProjection.RowsFailIff | src/ar/com/yamamoto/hartools/HarFile.java:88-93 | the conversion fails exactly when some entry's line cannot be built |
| HarProjection.RowsFirstError | src/ar/com/yamamoto/hartools/HarFile.java:88-93 | the error reported is that of the first entry, in array order, that fails |
| HarProjection.CsvText | src/ar/com/yamamoto/hartools/HarFile.java:61-96 | the whole output; CsvLines and CsvSplitsIntoLines state that it is the header and one line per entry, each followed by CRLF |
| HarProjection.CsvLines | src/ar/com/yamamoto/hartools/HarFile.java:66-95 | the output is the header line and one line per entry, every one followed by CRLF |
| HarProjection.CsvSplitsIntoLines | src/ar/com/yamamoto/hartools/HarFile.java:84-95 | N entries give N + 1 CRLF-terminated lines: splitting on CRLF gives header, rows and a final empty piece |
| HarFiles.ReadDocument | src/ar/com/yamamoto/hartools/HarFile.java:47-52 | reading the file and parsing its text: a missing file, an empty file and unparsable text each fail; Init and the Open methods state what it leaves in the file |
| HarFiles.HarFile.constructor | src/ar/com/yamamoto/hartools/HarFile.java:47-52 | stores the file, document and formatter; the delimiter starts as tab, set through SetDelimiter |
| HarFiles.HarFile.Init | src/ar/com/yamamoto/hartools/HarFile.java:47-52 | fails exactly when reading or parsing the file fails, with that error; otherwise the file holds the lines read and their CRLF-joined text, the document is the parse of that text and the delimiter is tab |
| HarFiles.HarFile.OpenWithLocale | src/ar/com/yamamoto/hartools/HarFile.java:16-26 | an unknown charset fails first; otherwise fails exactly as reading fails; on success the file is usable (valid), holds the lines read and their CRLF-joined text, the document is its parse, and the formatter is the number format of the given locale (None: default locale) |
| HarFiles.HarFile.OpenWithCharset | src/ar/com/yamamoto/hartools/HarFile.java:28-32 | as OpenWithLocale, with no formatter set |
| HarFiles.HarFile.Open | src/ar/com/yamamoto/hartools/HarFile.java:34-38 | UTF-8, not writable, no formatter set; fails exactly as reading fails; on success the file is usable (valid), holds the lines read and their CRLF-joined text, and the document is its parse |
| HarFiles.HarFile.SetDelimiter | src/ar/com/yamamoto/hartools/HarFile.java:203-206 | a null argument keeps the delimiter, any other replaces it |
| HarFiles.HarFile.ProcessKeyInArray | src/ar/com/yamamoto/hartools/HarFile.java:184-196 | the search loop with `break` returns the first-match scan's result |
| HarFiles.HarFile.SingleEntryToCsvLine | src/ar/com/yamamoto/hartools/HarFile.java:106-137 | the buffer built cell by cell is the entry's 17 cells joined by the delimiter, or the first failure |
| HarFiles.HarFile.AppendLeadingCells | src/ar/com/yamamoto/hartools/HarFile.java:116-120 | url, method, startedDateTime, time and status, each followed by the delimiter |
| HarFiles.HarFile.AppendSizeCells | src/ar/com/yamamoto/hartools/HarFile.java:121-124 | mimeType, size, headersSize and bodySize, each followed by the delimiter |
| HarFiles.HarFile.AppendTimingCells | src/ar/com/yamamoto/hartools/HarFile.java:129-134 | the timing loop leaves the cells so far and the seven timings joined by the delimiter, with none after the last |
| HarFiles.AppendCell | src/ar/com/yamamoto/hartools/HarFile.java:116-126 | appending a cell and the delimiter to a buffer holding the earlier cells, each followed by the delimiter, leaves those cells and the new one, each followed by the delimiter |
| HarFiles.HarFile.EntriesToCsv | src/ar/com/yamamoto/hartools/HarFile.java:61-96 | the buffer built is exactly the header line, CRLF and every entry's line followed by CRLF, or the first failure |
| HarFiles.HarFile.BuildHeader | src/ar/com/yamamoto/hartools/HarFile.java:66-82 | the header built is the 17 column names joined by the delimiter |
| HarFiles.HarFile.AppendRows | src/ar/com/yamamoto/hartools/HarFile.java:88-93 | appends every entry's line and CRLF in order; the line-90 guard is always true; fails exactly when some entry fails, with the first failure |
| TextFiles.TextFile.constructor | src/ar/com/yamamoto/hartools/TextFile.java:45-52 | text starts null; name, charset and write mode are stored |
| TextFiles.TextFile.Open | src/ar/com/yamamoto/hartools/TextFile.java:24-27 | fails exactly when the charset name is not recognised; otherwise text is null and the write mode is as given |
| TextFiles.TextFile.OpenForReading | src/ar/com/yamamoto/hartools/TextFile.java:29-32 | as Open, never writable |
| TextFiles.TextFile.OpenDefault | src/ar/com/yamamoto/hartools/TextFile.java:34-36 | charset UTF-8, never writable, text null |
| TextFiles.TextFile.ReadFile | src/ar/com/yamamoto/hartools/TextFile.java:61-78 | a missing file fails and an empty one fails (negative substring end), both leaving the text and the lines read unchanged; otherwise text is the lines joined by CRLF, no trailing CRLF |
| TextFiles.TextFile.WriteToFile | src/ar/com/yamamoto/hartools/TextFile.java:87-102 | the only failure modelled is the read-only guard: it fails exactly when not opened for writing; otherwise the file is replaced by the content in the file's charset |
| TextFiles.TextFile.GetText | src/ar/com/yamamoto/hartools/TextFile.java:109-111 | null until a read has completed; afterwards the last read's lines joined by CRLF |
| TextFiles.ReadTextRoundTrip | src/ar/com/yamamoto/hartools/TextFile.java:70-77 | the text read splits on CRLF back into the lines read |
| CliUtils.KeyAt | src/ar/com/yamamoto/cliutils/CliArgs.java:52-60 | `--name` names `name`; a `-c` whose `c` is translated names the translation of `c`; a lone `-` fails (index out of range); a token not starting with `-`, or an untranslated `-c`, names nothing; only dash tokens name keys |
| CliUtils.ValueAt | src/ar/com/yamamoto/cliutils/CliArgs.java:62-67 | the value is the next token exactly when one exists and does not start with `-`; otherwise the flag `true` |
| CliUtils.Loaded | src/ar/com/yamamoto/cliutils/CliArgs.java:50-70 | the map after the first n tokens; LoadedFailsIff, LoadedKeys and LoadedLastWins state when it fails, which keys it holds and which value each keeps |
| CliUtils.LoadedFailsIff | src/ar/com/yamamoto/cliutils/CliArgs.java:50-70 | loading fails exactly when a lone `-` occurs, with an index-out-of-range error |
| CliUtils.LoadedKeys | src/ar/com/yamamoto/cliutils/CliArgs.java:50-70 | a key is in the map exactly when some token names it |
| CliUtils.LoadedLastWins | src/ar/com/yamamoto/cliutils/CliArgs.java:62-67 | a key's stored value is the one set by its last occurrence |
| CliUtils.ValueIsNotKey | src/ar/com/yamamoto/cliutils/CliArgs.java:62-67 | a token taken as a value never names a key |
| CliUtils.CliArgs.constructor | src/ar/com/yamamoto/cliutils/CliArgs.java:38-45 | stores the arguments and translations, with an empty map |
| CliUtils.CliArgs.Create | src/ar/com/yamamoto/cliutils/CliArgs.java:27-29 | fails exactly when a lone `-` occurs; otherwise the map is the loaded map of the arguments |
| CliUtils.CliArgs.CreateWithoutTranslations | src/ar/com/yamamoto/cliutils/CliArgs.java:15-17 | as Create, with no translations |
| CliUtils.CliArgs.LoadArgs | src/ar/com/yamamoto/cliutils/CliArgs.java:50-70 | the loop leaves exactly the loaded map, or fails exactly as loading does |
| CliUtils.CliArgs.HasArg | src/ar/com/yamamoto/cliutils/CliArgs.java:81-83 | true exactly when some token names the key |
| CliUtils.CliArgs.HasShortArg | src/ar/com/yamamoto/cliutils/CliArgs.java:97-104 | false for an untranslated character; otherwise HasArg of its translation |
| CliUtils.CliArgs.GetValue | src/ar/com/yamamoto/cliutils/CliArgs.java:115-121 | null exactly when HasArg is false; otherwise the value set by the key's last occurrence |

## Left out

- JSON text parsing is not part of this model. It is a foreign library: the parser is a `Platform` function, and a text it rejects fails with a malformed-document error.
- `NumberFormat`, `Locale` and the platform's default locale are not part of this model. A formatter is an uninterpreted `real -> string`, and `Platform.numberInstance` maps a locale name, or none for the default, to one.
- JSON numbers are reals, not IEEE doubles. The `> 0.0` test is a comparison of reals.
- File streams, charset decoding and `readLine` line splitting are not modelled. A file is the sequence of lines `readLine` would return. Read errors other than a missing file are not modelled. A write is described by a `FileWrite` value.
- `Charset.forName` is modelled as exact membership in a set of names. Aliases and case-insensitive names are not modelled, and neither is the separate exception for an illegal name.
- The Java exception classes are merged. Every structural problem becomes one malformed-document error. Examples are a missing `log`, `entries`, `request`, `response`, `content`, `timings` or `headers`; a non-object entry or header; and a header without a name. A positive number with no formatter gives a null-formatter error.
- HarProjection.NameMatches: a header name that is a number, boolean, object or array never matches. The Java code compares its text form, which can never equal "Referer" ignoring case, so the two agree for the one key the converter looks up.
- Strings.EqualsIgnoreCase: case folding covers ASCII letters only, not the full Unicode folding of `equalsIgnoreCase`.
- The `host` column, CSV quoting and escaping do not exist in this code and are not modelled.
- The `har2csv` command-line front end (`main`) is not part of this model.
- CliUtils.CliArgs: the translation table is held as a value. The model does not capture that Java shares the caller's `HashMap`, nor a translation mapped to `null`.
- TextFiles.TextFile.WriteToFile: I/O failures after the read-only guard (a missing directory, a file without write permission, a failing write or close) are not modelled; a writable file always yields its `FileWrite`.
- TextFiles.TextFile: the write flag is a `bool`. A `null` `Boolean` passed to the three-argument constructor is not modelled.

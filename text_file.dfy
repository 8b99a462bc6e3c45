/** A text file opened by name and charset: read whole into `text` with its
    lines re-joined by CRLF, or written to when opened in write mode.

    The file system is a map from file names to the lines a BufferedReader
    would return for them; charset decoding has already happened in those
    lines, and the charsets the platform recognises are a set of names. */
module TextFiles {
  import opened Wrappers
  import opened Errors
  import opened Strings

  /** The charset the one-argument constructor uses. */
  const DefaultCharset: string := "UTF-8"

  /** What a successful writeToFile puts on disk: `content`, encoded in
      `charset`, replacing the file `path`. */
  datatype FileWrite = FileWrite(path: string, charset: string, content: string)

  class TextFile {
    var text: Option<string>
    var filename: string
    var charset: string
    var writable: bool
    /** The lines of the last successful readFile, if any. */
    ghost var linesRead: Option<seq<string>>

    ghost predicate Valid()
      reads this
    {
      match linesRead
      case None => text == None
      case Some(lines) => lines != [] && text == Some(Join(lines, CRLF))
    }

    /** The constructor helper `init`, once Charset.forName has accepted the name. */
    constructor (filename: string, charset: string, write: bool)
      ensures Valid() && linesRead == None
      ensures text == None
      ensures this.filename == filename && this.charset == charset && writable == write
    {
      text := None;
      this.filename := filename;
      this.charset := charset;
      writable := write;
      linesRead := None;
    }

    /** TextFile(filename, charset, write): fails when the charset name is not
        one the platform recognises. */
    static method Open(filename: string, charset: string, write: bool, charsets: set<string>)
      returns (r: Result<TextFile, Error>)
      ensures r.Failure? <==> charset !in charsets
      ensures r.Failure? ==> r.error == UnsupportedCharset
      ensures r.Success? ==> fresh(r.value) && r.value.Valid() && r.value.text == None
      ensures r.Success? ==> r.value.filename == filename && r.value.charset == charset
      ensures r.Success? ==> r.value.writable == write
    {
      if charset !in charsets {
        return Failure(UnsupportedCharset);
      }
      var f := new TextFile(filename, charset, write);
      return Success(f);
    }

    /** TextFile(filename, charset): as Open, never writable. */
    static method OpenForReading(filename: string, charset: string, charsets: set<string>)
      returns (r: Result<TextFile, Error>)
      ensures r.Failure? <==> charset !in charsets
      ensures r.Failure? ==> r.error == UnsupportedCharset
      ensures r.Success? ==> fresh(r.value) && r.value.Valid() && r.value.text == None
      ensures r.Success? ==> r.value.filename == filename && r.value.charset == charset
      ensures r.Success? ==> !r.value.writable
    {
      r := Open(filename, charset, false, charsets);
    }

    /** TextFile(filename): UTF-8, never writable; UTF-8 is always available. */
    static method OpenDefault(filename: string) returns (f: TextFile)
      ensures fresh(f) && f.Valid() && f.text == None
      ensures f.filename == filename && f.charset == DefaultCharset && !f.writable
    {
      f := new TextFile(filename, DefaultCharset, false);
    }

    /** readFile: appends every line and a CRLF, then drops the final CRLF.
        A missing file throws before anything changes; an empty file throws
        because the substring end index is negative, leaving `text` as it was. */
    method ReadFile(files: map<string, seq<string>>) returns (r: Outcome<Error>)
      requires Valid()
      modifies this`text, this`linesRead
      ensures Valid()
      ensures filename !in files ==>
                r == Fail(FileNotFound) && text == old(text) && linesRead == old(linesRead)
      ensures filename in files && files[filename] == [] ==>
                r == Fail(IndexOutOfBounds) && text == old(text) && linesRead == old(linesRead)
      ensures filename in files && files[filename] != [] ==>
                r == Pass && text == Some(Join(files[filename], CRLF)) &&
                linesRead == Some(files[filename])
    {
      if filename !in files {
        return Fail(FileNotFound);
      }
      var lines := files[filename];
      var buffer := "";
      var i := 0;
      while i < |lines|
        invariant 0 <= i <= |lines|
        invariant buffer == Terminated(lines[..i], CRLF)
      {
        assert lines[..i + 1][..i] == lines[..i];
        buffer := buffer + lines[i];
        buffer := buffer + CRLF;
        i := i + 1;
      }
      assert lines[..i] == lines;
      if |buffer| < |CRLF| {
        return Fail(IndexOutOfBounds);
      }
      text := Some(buffer[..|buffer| - |CRLF|]);
      linesRead := Some(lines);
      return Pass;
    }

    /** writeToFile: refuses, before opening anything, when the file was not
        opened for writing; otherwise replaces the file with `content`. */
    method WriteToFile(content: string) returns (r: Result<FileWrite, Error>)
      ensures r.Failure? <==> !writable
      ensures r.Failure? ==> r.error == ReadOnlyFile
      ensures r.Success? ==> r.value == FileWrite(filename, charset, content)
    {
      if !writable {
        return Failure(ReadOnlyFile);
      }
      return Success(FileWrite(filename, charset, content));
    }

    /** getText: null until a readFile has completed, afterwards the lines of
        the last successful read joined by CRLF. */
    function GetText(): (t: Option<string>)
      reads this
      requires Valid()
      ensures t.None? <==> linesRead.None?
      ensures t.Some? ==> t.value == Join(linesRead.value, CRLF)
    {
      text
    }
  }

  /** The text readFile assembles splits back into the lines it was read from:
      readLine never returns a line containing a carriage return. */
  lemma ReadTextRoundTrip(lines: seq<string>)
    requires lines != []
    requires forall i :: 0 <= i < |lines| ==> '\r' !in lines[i]
    ensures Split(Join(lines, CRLF), CRLF) == lines
  {
    SplitJoin(lines, CRLF);
  }
}

/**
 * A model of the `Logfile` class: a single append-only log file in the
 * user's caches directory, written through one file handle.
 *
 * The file system is reduced to the one file the class touches (whether it
 * exists and its bytes); the caches directory the system reports and the
 * platform's UTF-8 encoder are supplied when the object is built.
 * The `fatalError` guards of the class become preconditions.
 */
module Logfile {

  type Byte = bv8

  datatype Option<T> = None | Some(value: T)

  /** A file URL, as the list of its path components. */
  datatype Url = Url(components: seq<string>)

  /** The name of the log file inside the caches directory. */
  const LogfileName: string := "logfile.txt"

  /** `URL.appendingPathComponent`: the URL one level below `dir`. */
  function AppendingPathComponent(dir: Url, name: string): (r: Url)
    ensures |r.components| == |dir.components| + 1
    ensures r.components[..|dir.components|] == dir.components
    ensures r.components[|dir.components|] == name
  {
    Url(dir.components + [name])
  }

  /** Where the log lives: `logfile.txt` inside the first caches directory. */
  function LogfileURL(cachesDirectories: seq<Url>): Url
    requires |cachesDirectories| > 0
  {
    AppendingPathComponent(cachesDirectories[0], LogfileName)
  }

  /**
   * The bytes `write(line:)` hands to the file handle: the line's UTF-8
   * encoding when the encoder yields one, nothing otherwise. No newline and
   * no prefix are added.
   */
  function Payload(encoded: Option<seq<Byte>>): seq<Byte>
  {
    match encoded
    case Some(data) => data
    case None => []
  }

  /**
   * The file content after seeking to its end and writing `encoded`:
   * every existing byte stays where it was, and the payload follows it.
   */
  function Appended(content: seq<Byte>, encoded: Option<seq<Byte>>): (r: seq<Byte>)
    ensures |r| == |content| + |Payload(encoded)|
    ensures forall i :: 0 <= i < |content| ==> r[i] == content[i]
    ensures forall j :: 0 <= j < |Payload(encoded)| ==> r[|content| + j] == Payload(encoded)[j]
    ensures encoded.None? ==> r == content
  {
    content + Payload(encoded)
  }

  /** A file handle opened for writing, bound to the file at `url`. */
  class FileHandle {
    const url: Url

    constructor ForWritingTo(url: Url)
      ensures this.url == url
    {
      this.url := url;
    }
  }

  class Logfile {
    /** What the file manager reports as the user's caches directories. */
    const cachesDirectories: seq<Url>
    /** The platform's `String.data(using: .utf8)`. */
    const utf8: string -> Option<seq<Byte>>

    /** The file at `LogfileURL(cachesDirectories)`: whether it exists, and its bytes. */
    var fileExists: bool
    var content: seq<Byte>

    var logfileURL: Option<Url>
    var logfileHandle: FileHandle?

    /**
     * The object invariant: a missing file has no bytes; once the URL is
     * set it is the log file's URL and the file exists; a handle is only
     * open once the URL is set, and it is bound to that URL.
     */
    ghost predicate Valid()
      reads this
    {
      && (!fileExists ==> content == [])
      && (logfileURL.Some? ==>
            && |cachesDirectories| > 0
            && logfileURL.value == LogfileURL(cachesDirectories)
            && fileExists)
      && (logfileHandle != null ==>
            logfileURL.Some? && logfileHandle.url == logfileURL.value)
    }

    /** `start()` has run: the URL is set and a write handle is open. */
    ghost predicate Started()
      reads this
    {
      logfileURL.Some? && logfileHandle != null
    }

    /**
     * `init()`: runs `start()` on the file system as it is found, where the
     * log file may already exist with `existing` bytes.
     */
    constructor (cachesDirectories: seq<Url>, utf8: string -> Option<seq<Byte>>,
                 fileExists: bool, existing: seq<Byte>)
      requires |cachesDirectories| > 0
      requires !fileExists ==> existing == []
      ensures Valid() && Started()
      ensures this.cachesDirectories == cachesDirectories && this.utf8 == utf8
      ensures logfileURL == Some(LogfileURL(cachesDirectories))
      ensures this.fileExists
      ensures content == existing
      ensures fresh(logfileHandle)
    {
      this.cachesDirectories := cachesDirectories;
      this.utf8 := utf8;
      this.fileExists := fileExists;
      this.content := existing;
      logfileURL := None;
      logfileHandle := null;
      new;
      Start();
    }

    /**
     * `makeLogfileURL()`: the log file's URL. A file already there keeps
     * its content; a missing one is created empty.
     */
    method MakeLogfileURL() returns (url: Url)
      requires Valid()
      requires |cachesDirectories| > 0
      modifies this`fileExists, this`content
      ensures Valid()
      ensures url == LogfileURL(cachesDirectories)
      ensures fileExists
      ensures old(fileExists) ==> content == old(content)
      ensures !old(fileExists) ==> content == []
    {
      url := AppendingPathComponent(cachesDirectories[0], LogfileName);
      if !fileExists {
        fileExists, content := true, [];
      }
    }

    /**
     * `start()`: sets the URL (creating the file if needed) and opens a
     * write handle only when none is open yet.
     */
    method Start()
      requires Valid()
      requires |cachesDirectories| > 0
      modifies this
      ensures Valid() && Started()
      ensures logfileURL == Some(LogfileURL(cachesDirectories))
      ensures fileExists
      ensures old(fileExists) ==> content == old(content)
      ensures !old(fileExists) ==> content == []
      ensures old(logfileHandle) != null ==> logfileHandle == old(logfileHandle)
      ensures old(logfileHandle) == null ==> fresh(logfileHandle)
    {
      var url := MakeLogfileURL();
      logfileURL := Some(url);
      if logfileHandle == null {
        // FileHandle(forWritingTo:) needs an existing file, which makeLogfileURL provides.
        assert fileExists;
        logfileHandle := new FileHandle.ForWritingTo(url);
      }
    }

    /** `size()`: the byte length of the log file. */
    method Size() returns (n: nat)
      requires Valid()
      requires logfileURL.Some?
      ensures n == |content|
    {
      assert fileExists;
      n := |content|;
    }

    /**
     * `write(line:)`: seek to the end and append the line's encoding, so the
     * old content is followed by exactly the line's bytes.
     */
    method Write(line: string)
      requires Valid()
      requires logfileHandle != null
      modifies this`content
      ensures Valid()
      ensures content == Appended(old(content), utf8(line))
    {
      var data := utf8(line);
      if data.Some? {
        content := content + data.value;
      }
    }

    /** `clear()`: truncate the file to zero bytes through the open handle. */
    method Clear()
      requires Valid()
      requires logfileHandle != null
      modifies this`content
      ensures Valid()
      ensures content == []
      ensures logfileURL == old(logfileURL) && logfileHandle == old(logfileHandle)
    {
      content := [];
    }
  }

  /* ---------------------------------------------------------------------
   * Client views: the properties the unit tests check, as callers see them.
   * --------------------------------------------------------------------- */

  /** Write a line between two size readings (the shape of `testWrite`). */
  method MeasureWrite(log: Logfile, line: string) returns (before: nat, after: nat)
    requires log.Valid() && log.Started()
    modifies log
    ensures log.Valid() && log.Started()
    ensures after == before + |Payload(log.utf8(line))|
    ensures Payload(log.utf8(line)) != [] ==> after > before
    ensures before == |old(log.content)|
    ensures log.content == Appended(old(log.content), log.utf8(line))
  {
    before := log.Size();
    log.Write(line);
    after := log.Size();
  }

  /** Write, then clear, reading the size after each (the shape of `testClear`). */
  method MeasureClear(log: Logfile, line: string) returns (written: nat, cleared: nat)
    requires log.Valid() && log.Started()
    modifies log
    ensures log.Valid() && log.Started()
    ensures written == |old(log.content)| + |Payload(log.utf8(line))|
    ensures log.content == [] && cleared == 0
    ensures Payload(log.utf8(line)) != [] ==> cleared < written
    ensures old(log.content) != [] ==> cleared < written
  {
    log.Write(line);
    written := log.Size();
    log.Clear();
    cleared := log.Size();
  }

  /** Clearing an already empty log leaves it empty and changes nothing else. */
  method ClearTwice(log: Logfile)
    requires log.Valid() && log.Started()
    modifies log
    ensures log.Valid() && log.Started()
    ensures log.content == []
    ensures log.logfileHandle == old(log.logfileHandle)
  {
    log.Clear();
    log.Clear();
  }

  /** Running `start()` again keeps the handle and loses no content. */
  method StartAgain(log: Logfile)
    requires log.Valid() && log.Started()
    modifies log
    ensures log.Valid() && log.Started()
    ensures log.logfileHandle == old(log.logfileHandle)
    ensures log.logfileURL == old(log.logfileURL)
    ensures log.content == old(log.content)
  {
    log.Start();
  }

  /* ---------------------------------------------------------------------
   * Sequences of calls through the public API, on the log's content.
   * --------------------------------------------------------------------- */

  /** One call to the static API. */
  datatype Call = Write(line: string) | Clear | Size

  /** The content after one call, as `Logfile.Write`, `Logfile.Clear` and `Logfile.Size` leave it. */
  function Step(utf8: string -> Option<seq<Byte>>, content: seq<Byte>, call: Call): seq<Byte>
  {
    if call.Clear? then [] else content + Contribution(utf8, call)
  }

  /** Make one call on a started log: its content then is what `Step` says. */
  method Apply(log: Logfile, call: Call)
    requires log.Valid() && log.Started()
    modifies log
    ensures log.Valid() && log.Started()
    ensures log.content == Step(log.utf8, old(log.content), call)
    ensures log.logfileURL == old(log.logfileURL) && log.logfileHandle == old(log.logfileHandle)
  {
    match call
    case Write(line) => log.Write(line);
    case Clear => log.Clear();
    case Size => var _ := log.Size();
  }

  /** The content after the calls, in order. */
  function Replay(utf8: string -> Option<seq<Byte>>, content: seq<Byte>, calls: seq<Call>): seq<Byte>
    decreases |calls|
  {
    if calls == [] then content
    else Replay(utf8, Step(utf8, content, calls[0]), calls[1..])
  }

  /** The bytes one call adds to the log: a written line's payload, nothing otherwise. */
  function Contribution(utf8: string -> Option<seq<Byte>>, call: Call): seq<Byte>
  {
    if call.Write? then Payload(utf8(call.line)) else []
  }

  /** The bytes the `Write` calls among `calls` contribute, in order. */
  function Written(utf8: string -> Option<seq<Byte>>, calls: seq<Call>): seq<Byte>
    decreases |calls|
  {
    if calls == [] then []
    else Contribution(utf8, calls[0]) + Written(utf8, calls[1..])
  }

  /** Running two call sequences one after the other is running their concatenation. */
  lemma {:induction false} ReplayConcat(utf8: string -> Option<seq<Byte>>, content: seq<Byte>,
                                        first: seq<Call>, second: seq<Call>)
    ensures Replay(utf8, content, first + second)
         == Replay(utf8, Replay(utf8, content, first), second)
    decreases |first|
  {
    if first == [] {
      assert first + second == second;
    } else {
      assert (first + second)[1..] == first[1..] + second;
      ReplayConcat(utf8, Step(utf8, content, first[0]), first[1..], second);
    }
  }

  /** Without a `Clear`, the log is append-only: the old content followed by every written line. */
  lemma {:induction false} ReplayWithoutClear(utf8: string -> Option<seq<Byte>>, content: seq<Byte>,
                                              calls: seq<Call>)
    requires Clear !in calls
    ensures Replay(utf8, content, calls) == content + Written(utf8, calls)
    decreases |calls|
  {
    if calls != [] {
      var head, rest := Contribution(utf8, calls[0]), calls[1..];
      assert calls[0] != Clear by { assert calls[0] in calls; }
      assert Clear !in rest by {
        assert forall c :: c in rest ==> c in calls;
      }
      var next := Step(utf8, content, calls[0]);
      assert next == content + head;
      assert Replay(utf8, content, calls) == Replay(utf8, next, rest);
      ReplayWithoutClear(utf8, next, rest);
      assert Written(utf8, calls) == head + Written(utf8, rest);
      assert next + Written(utf8, rest) == content + (head + Written(utf8, rest));
    }
  }

  /**
   * Without a `Clear`, no byte already in the log changes and the size never
   * shrinks; it grows strictly as soon as one written line has bytes.
   */
  lemma {:induction false} ReplayNeverShrinks(utf8: string -> Option<seq<Byte>>, content: seq<Byte>,
                                              calls: seq<Call>)
    requires Clear !in calls
    ensures |Replay(utf8, content, calls)| == |content| + |Written(utf8, calls)|
    ensures Replay(utf8, content, calls)[..|content|] == content
    ensures Written(utf8, calls) != [] ==> |Replay(utf8, content, calls)| > |content|
  {
    ReplayWithoutClear(utf8, content, calls);
  }

  /**
   * After the last `Clear`, the log holds exactly the lines written since,
   * in order, whatever came before it.
   */
  lemma {:induction false} ReplaySinceLastClear(utf8: string -> Option<seq<Byte>>, content: seq<Byte>,
                                                before: seq<Call>, since: seq<Call>)
    requires Clear !in since
    ensures Replay(utf8, content, before + [Clear] + since) == Written(utf8, since)
  {
    ReplayConcat(utf8, content, before + [Clear], since);
    ReplayConcat(utf8, content, before, [Clear]);
    assert Replay(utf8, content, before + [Clear]) == [];
    ReplayWithoutClear(utf8, [], since);
  }

  /** A `Clear` on an already empty log leaves it empty; clearing twice is clearing once. */
  lemma {:induction false} ClearIdempotent(utf8: string -> Option<seq<Byte>>, content: seq<Byte>)
    ensures Replay(utf8, content, [Clear, Clear]) == Replay(utf8, content, [Clear])
    ensures Replay(utf8, [], [Clear]) == []
  {
  }

  /**
   * Make the calls on a started log, in order. The object ends with the
   * content `Replay` gives, so the lemmas above hold of the class: with no
   * `Clear` among the calls the old content is kept and every written line
   * follows it.
   */
  method Run(log: Logfile, calls: seq<Call>)
    requires log.Valid() && log.Started()
    modifies log
    ensures log.Valid() && log.Started()
    ensures log.content == Replay(log.utf8, old(log.content), calls)
    ensures Clear !in calls ==> log.content == old(log.content) + Written(log.utf8, calls)
    ensures log.logfileURL == old(log.logfileURL) && log.logfileHandle == old(log.logfileHandle)
  {
    var i := 0;
    while i < |calls|
      invariant 0 <= i <= |calls|
      invariant log.Valid() && log.Started()
      invariant log.content == Replay(log.utf8, old(log.content), calls[..i])
      invariant log.logfileURL == old(log.logfileURL) && log.logfileHandle == old(log.logfileHandle)
    {
      ReplayConcat(log.utf8, old(log.content), calls[..i], [calls[i]]);
      assert calls[..i + 1] == calls[..i] + [calls[i]];
      assert Replay(log.utf8, log.content, [calls[i]]) == Step(log.utf8, log.content, calls[i]);
      Apply(log, calls[i]);
      i := i + 1;
    }
    assert calls[..i] == calls;
    if Clear !in calls {
      ReplayWithoutClear(log.utf8, old(log.content), calls);
    }
  }
}

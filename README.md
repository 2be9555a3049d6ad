# Logfile, modelled in Dafny

This project models the `Logfile` class of the Logfile library (`Logfile/Logfile.swift`). The class is a process-wide logger backed by one file, `logfile.txt`, in the user's caches directory. It offers three operations:

- `write(line:)` seeks to the end of the file and appends the line's UTF-8 bytes exactly as given.
- `clear()` truncates the file to zero bytes.
- `size()` reports the file's byte length.

The first use runs `init()`, which calls `start()`. `start()` resolves the file's URL through `makeLogfileURL()`. That step creates the file empty when it is missing and leaves an existing file untouched. `start()` then opens a write handle, but only if none is open yet.

Everything is in `Logfile.dfy`, module `Logfile`:

- The class `Logfile` keeps the source's two optional fields, `logfileURL` and `logfileHandle`. It also holds the one file it touches, as an exists flag and a byte sequence. `FileHandle` is a class, so "the same handle" means the same object.
- The caches directories reported by the file manager and the platform's `String.data(using: .utf8)` are given to the constructor. The encoder is an arbitrary function from strings to optional byte sequences.
- Each `fatalError` guard becomes a precondition. `write` and `clear` need an open handle, `size` needs a URL, and `makeLogfileURL` needs at least one caches directory. The constructor establishes all of these, and the invariant `Valid()` says that a URL, once set, names an existing file.
- The tests in `LogfileTests/LogfileTests.swift` appear as client methods (`MeasureWrite`, `MeasureClear`). Their postconditions state what the tests assert, for any line and any starting content.
- A sequence of calls to the public API is modelled as a value, `Call`, and replayed on the content with `Replay`. The method `Run` makes those calls on a `Logfile` object and proves that the object ends with `Replay`'s content, so the lemmas about `Replay` hold of the class. They state the log's behaviour across calls. Between clears it is append-only, and after the last `Clear` it holds exactly the bytes of the lines written since then, in order.

This version of the library has no rotation, no archive file, no gathering or export, no timestamp prefix and no newline normalisation. In particular, `write` adds no newline (`Logfile/Logfile.swift:55-59`), and `clear` truncates only the one file.

## Model

| member | source | states |
|---|---|---|
| `Logfile.AppendingPathComponent` | Logfile/Logfile.swift:94 | the log URL extends the directory's path by exactly one component, the given name |
| `Logfile.Appended` | Logfile/Logfile.swift:55-57 | seek-to-end then write: the new length is the old length plus the payload length, every existing byte keeps its place, the payload follows it byte for byte, and a failed encoding changes nothing |
| `Logfile.Logfile.constructor` | Logfile/Logfile.swift:110-112 | after `init` the URL is the log URL, the file exists, its existing content is kept, and a fresh handle is open, so the preconditions of `write`, `clear` and `size` hold |
| `Logfile.Logfile.MakeLogfileURL` | Logfile/Logfile.swift:86-108 | returns the log URL, `logfile.txt` inside the first caches directory; an existing file keeps its content; a missing file is created empty; either way the file exists afterwards |
| `Logfile.Logfile.Start` | Logfile/Logfile.swift:70-84 | sets the URL and preserves the content of an existing file; opens a fresh handle only when none is open and otherwise keeps the same handle object |
| `Logfile.Logfile.Size` | Logfile/Logfile.swift:36-48 | with a URL set, returns the byte length of the file's content; the file exists, so the stat cannot fail |
| `Logfile.Logfile.Write` | Logfile/Logfile.swift:50-60 | with a handle open, the new content is the old content followed by the line's encoded bytes, with no newline or prefix and nothing for a failed encoding; URL and handle are unchanged |
| `Logfile.Logfile.Clear` | Logfile/Logfile.swift:62-68 | with a handle open, the content becomes empty while the URL and handle stay the same |
| `Logfile.MeasureWrite` | LogfileTests/LogfileTests.swift:24-31 | the size after a write is the size before plus the encoded length, so it is strictly larger for a line with bytes; the old bytes remain a prefix |
| `Logfile.MeasureClear` | LogfileTests/LogfileTests.swift:33-40 | the size after the write is the old size plus the encoded length; after the clear the file is empty and its size is 0, strictly smaller than after the write whenever the file or the line had bytes |
| `Logfile.ClearTwice` | Logfile/Logfile.swift:62-67 | clearing an already cleared log leaves it empty and keeps the handle |
| `Logfile.StartAgain` | Logfile/Logfile.swift:70-84 | running `start` on a started log keeps the same handle and URL and loses no content |
| `Logfile.Apply` | Logfile/Logfile.swift:50-68 | one write, clear or size call on a started log leaves the content that `Step` gives for that call, and keeps the URL and handle |
| `Logfile.Run` | Logfile/Logfile.swift:50-68 | a started log driven through a sequence of calls ends with the content `Replay` gives; with no clear among them, that is the old content followed by every written line in order |
| `Logfile.ReplayWithoutClear` | Logfile/Logfile.swift:55-58 | with no `Clear` among the calls, the content ends as the old content followed by the bytes of every written line, in call order |
| `Logfile.ReplayNeverShrinks` | Logfile/Logfile.swift:55-58 | with no `Clear` among the calls, no existing byte changes, the size grows by exactly the written bytes, and it grows strictly once any written line has bytes |
| `Logfile.ReplaySinceLastClear` | Logfile/Logfile.swift:55-67 | whatever came before, the content after the last `Clear` is exactly the bytes of the lines written since, in order |
| `Logfile.ClearIdempotent` | Logfile/Logfile.swift:67 | clearing twice is the same as clearing once, and clearing an empty log leaves it empty |

## Left out

- File-system failures are not modelled. These are the `fatalError`s for a failed create (`Logfile/Logfile.swift:104-106`), a failed open (`Logfile/Logfile.swift:80-82`) and a failed stat (`Logfile/Logfile.swift:45-47`). The model treats those I/O calls as always succeeding. Its invariant shows that the preconditions they depend on hold: the file exists once the URL is set.
- The guard at `Logfile/Logfile.swift:73-75` can never fire, because `makeLogfileURL` returns a non-optional URL that `start` has just stored. The model stores that URL and uses it directly.
- `synchronizeFile` (`Logfile/Logfile.swift:58`) has no effect on the file's content, so the model does not include it.
- How `String.data(using: .utf8)` produces bytes is not modelled. The encoder is a constructor parameter of function type, so every property holds for any encoder.
- The singleton `shared` and the static forwarders `write`, `clear` and `size` (`Logfile/Logfile.swift:14`, `Logfile/Logfile.swift:22-32`) are not modelled as separate members. Each forwarder is a one-line delegation to the shared instance. The model builds one instance with the constructor and calls its methods. The `Call` sequences stand for calls made through the forwarders.
- Logfile.Logfile.Size: returns an unbounded `nat` instead of a `UInt64`. The file size always fits in 64 bits, so the source's `as! UInt64` cast cannot fail.
- Files other than the log file, concurrent writers, and changes to the file made outside the process are not modelled. This includes deleting the file while a handle is open.
- The handle's file offset is not modelled. `write` always seeks to the end first, so the offset left by `truncateFile(atOffset: 0)` never affects where bytes go.

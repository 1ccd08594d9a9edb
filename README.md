# A verified model of a small virtual file-access layer

The modelled library lets callers open files by a logical path without knowing where the
bytes live. A `FileSystem` holds an ordered list of handlers. A handler resolves a path either
to a directory on the host or to an archive. `FileSystem::open` asks the handlers in
insertion order and wraps the first byte source it gets in a `File`. That cursor offers
`read_all`, `read`, `read_line`, `get`, `peek`, `seek`, `tell`, `size` and `eof`. The byte
source modelled here is the in-memory `MemFile`: a fixed buffer with a cursor.

Modules, one per component:

- `Wrappers` (`wrappers.dfy`): `Option` and `Result`.
- `MemFiles` (`memfile.dfy`): the `MemFile` class, whose `pos` field is the cursor offset
  (`pointer - beg` in the C++). It also holds the specification functions for a read
  (`ReadLength`, `Copied`, `ReadReturn`) and a seek (`SeekTarget`), with lemmas about them.
- `Lines` (`readline.dfy`): the loop of `File::read_line` written as the tail-recursive
  function `ScanLine`, and lemmas that characterise its result.
- `Files` (`file.dfy`): the `File` class. It owns one `MemFile` and its methods are proved
  against the functions above.
- `FileSystems` (`filesystem.dfy`): the handler variants, the directory handler's path join,
  `FirstMatch` (which handler wins) and the `FileSystem` class.

The host is not part of the model. It enters as a value: `Host` maps full paths to file
contents and archive paths to their decoded entries. `Open` takes it as a parameter.

Quirks of the code that the model keeps rather than fixes:

- `MemFile::read` returns the copied count divided by the size (`ReadReturn`). That is 1 when
  the whole buffer was copied and 0 otherwise. On an empty buffer it divides by zero, which
  the model writes as `None`. The header promises the number of bytes read;
  `ReadReturnIsCountOnlyWhen` shows exactly when the two agree.
- Because of that division, `read_all`, `get` and `peek` on an empty `MemFile` have no defined
  result, and neither has `read_line` with a positive count (with a count of zero it reads
  nothing and its result is defined). An empty source would naturally give an empty string
  from `read_all`, but `MemFile::read` divides by zero there (src/file.cc:243), so `ReadAll`
  returns `None`.
- `seek` clamps only for the end origin (`SeekEndClamps`).
- At end of data `read_line` copies nothing, so its byte variable keeps the previous byte.
  Each remaining iteration then stores that byte again (`ScanAtEnd`, `RunsOutOfData`,
  `RepeatsLastByteExample`). The terminator goes one slot past the stored characters unless
  the loop stopped on a line feed (`LineOfShape`).
- `read_all` from a non-zero offset returns the rest of the data padded with zero bytes to
  the full size.
- `peek` at the end reads nothing and still moves the cursor back by one.
- The archive handler opens the archive named by the requested path, not its configured
  archive, and looks the same path up as the entry name (`ZipIgnoresConfiguredArchive`).

## Model

| member | source | states |
|---|---|---|
| `MemFiles.ReadLength` | src/file.cc:239-240 | a read copies at most `n` bytes, never past the end, and is short only when it reaches the end |
| `MemFiles.ReadReturn` | src/file.cc:243 | the value `read` returns is undefined (division by zero) exactly for an empty buffer; otherwise it is 1 iff the whole buffer was copied and 0 iff less was |
| `MemFiles.ReadReturnIsCountOnlyWhen` | include/file.h:64-66 | the documented "number of bytes read" equals what `MemFile::read` returns only when nothing was copied or the buffer is one byte long |
| `MemFiles.SeekEndClamps` | src/file.cc:246-251 | from the end origin the cursor never passes the size, and a non-negative offset lands exactly on it; from the start or current origins it can pass the size |
| `MemFiles.ReadsConcatenate` | src/file.cc:237-242 | a read of `k` bytes followed by one of `m` copies the same bytes as one read of `k + m` |
| `MemFiles.ChunkedReadsReproduce` | src/file.cc:237-242 | reads in any chunk sizes reproduce the buffer from the cursor in order, all of it once the chunks cover the rest |
| `MemFiles.MemFile.Size` | src/file.cc:258-261 | the size is the length of the buffer, fixed at construction |
| `MemFiles.MemFile.Tell` | src/file.cc:253-256 | the offset reported lies in `[0, size]` exactly when the cursor is in the range a read needs |
| `MemFiles.MemFile.Owning` | src/file.cc:229-230 | the owning constructor holds the given bytes, with the cursor at 0 |
| `MemFiles.MemFile.Borrowing` | src/file.cc:232-233 | the borrowing constructor holds the same state and differs only in ownership |
| `MemFiles.MemFile.Read` | src/file.cc:237-244 | copies `min(size - pos, n)` bytes from the cursor, advances the cursor by that many, keeps it within `[0, size]`, and returns the count divided by the size |
| `MemFiles.MemFile.Seek` | src/file.cc:246-251 | the new cursor is the offset (start), the cursor plus the offset (current), or `min(size + offset, size)` (end) |
| `Lines.ScanLine` | src/file.cc:105-113 | the line-read loop never moves the cursor backwards or past the end of the data |
| `Lines.ScanBounds` | src/file.cc:105-113 | the loop does at most `count` reads, stores at most `count` bytes, none of them CR or LF, and consumes no line feed before its last byte |
| `Lines.ScanLast` | src/file.cc:105-114 | the loop ends holding a line feed exactly when the last byte it consumed was a line feed |
| `Lines.ScanFindsNewline` | src/file.cc:105-113 | with a line feed among the next `count` bytes, the loop stores the bytes before it minus CR and leaves the cursor just past it |
| `Lines.ScanFillsCount` | src/file.cc:105-113 | with no line feed among the next `count` bytes, the loop stores them minus CR and advances by `count` |
| `Lines.ScanAtEnd` | src/file.cc:105-113 | at end of data every remaining iteration stores the previously read byte again, or nothing if it was CR, and the cursor stays |
| `Lines.ScanPrefix` | src/file.cc:105-113 | over `m <= count` bytes with no line feed, the loop stores them minus CR and continues after them holding the last one |
| `Lines.RunsOutOfData` | src/file.cc:105-113 | a final line without a line feed, read with room to spare, stores the rest of the data minus CR, then re-stores its last byte once per leftover iteration (none if it is CR), and stops at the end |
| `Lines.LineOf` | src/file.cc:114-116 | the stored characters are those of the loop; the terminator index is `chars_read` or `chars_read + 1` |
| `Lines.LineOfShape` | src/file.cc:101-117 | `read_line` returns at most `count` stored characters, none CR or LF; the terminator sits at `chars_read` iff a line feed was consumed, otherwise at `chars_read + 1` |
| `Lines.CrLfExample` | src/file.cc:101-117 | reading `"abc\r\ndef"` yields `"abc"` terminated at 3 and leaves the cursor on `d` |
| `Lines.RepeatsLastByteExample` | src/file.cc:105-114 | reading `"ab"` with room for four yields `"abbb"`, terminated at 5 |
| `Files.File.constructor` | src/file.cc:73-74 | a file wraps exactly the source it is given |
| `Files.File.Tell` | src/file.cc:138-141 | reports the source's cursor offset |
| `Files.File.Size` | src/file.cc:143-146 | reports the source's size |
| `Files.File.Eof` | src/file.cc:148-151 | true when the cursor is at the size; eof implies the cursor is in range (at the end, not past it), and a cursor in range that is not at eof has bytes left |
| `Files.File.Read` | src/file.cc:96-99 | passes the read through to the source unchanged, including its returned value |
| `Files.File.ReadAll` | src/file.cc:89-94 | returns the data from the cursor padded with zeros to the size (the whole buffer from offset 0) and leaves `eof()` true; undefined on an empty source |
| `Files.File.ReadLine` | src/file.cc:101-117 | the stored characters, terminator index and final cursor are those of the `ScanLine` specification; undefined exactly when a read divides by zero |
| `Files.File.Get` | src/file.cc:119-124 | before the end returns the byte at the cursor and advances by one; at the end reads nothing and the byte is undefined |
| `Files.File.Peek` | src/file.cc:126-131 | before the end returns the byte at the cursor and leaves `tell()` unchanged; at the end moves the cursor back by one |
| `Files.File.Seek` | src/file.cc:133-136 | delegates to the source's seek; a non-negative offset from the end leaves `eof()` true |
| `FileSystems.Join` | src/file.cc:164 | the candidate path is the root, one `/`, then the requested path, unnormalised |
| `FileSystems.JoinInjective` | src/file.cc:164 | for a fixed root, different requested paths give different candidate paths |
| `FileSystems.Resolve` | src/file.cc:162-197 | a directory handler resolves iff the joined path names a host file, giving its bytes; an archive handler resolves iff the archive at the requested path has an entry of that name, giving its bytes; failure is a null result, not an error |
| `FileSystems.ZipIgnoresConfiguredArchive` | src/file.cc:177-197 | the archive handler's result does not depend on its configured archive; it resolves iff an archive at the requested path has an entry of that name |
| `FileSystems.FirstMatch` | src/file.cc:52-64 | picks the first handler in list order whose open is non-null; none exactly when every handler returns null, including for an empty list |
| `FileSystems.FirstMatchAppend` | src/file.cc:66-69 | appending a handler leaves every existing resolution unchanged; the new handler is used only when all earlier ones fail |
| `FileSystems.EarlierHandlerWins` | src/file.cc:54-58 | of two handlers that both resolve a path, the one added earlier takes priority |
| `FileSystems.FileSystem.Empty` | src/file.cc:25-26 | the empty file system has no handlers |
| `FileSystems.FileSystem.FromRoot` | src/file.cc:28-32 | the one-path constructor installs one directory handler for that path |
| `FileSystems.FileSystem.FromRoots` | src/file.cc:34-39 | the list constructor installs one directory handler per path, in list order |
| `FileSystems.FileSystem.AddHandler` | src/file.cc:66-69 | appends the handler at the end, keeping the earlier ones and their order |
| `FileSystems.FileSystem.Open` | src/file.cc:52-64 | returns a fresh file at offset 0 over the first resolving handler's bytes; fails with NotFound for the path exactly when no handler resolves it |

## Left out

- `RegularFile` and the opening half of `RegularFileSystem::open` (src/file.cc:165-170,
  src/file.cc:265-293) are host stream I/O and are not part of this model. A directory hit is
  represented by a `MemFile` over the host file's bytes. The stream's own read count
  (`gcount`), its seek failure states and its size computed at open are therefore not modelled.
- `FileSystems.FileSystem.Open`: for a directory hit, the file it returns wraps a `MemFile`, not a
  `RegularFile`, for the reason above.
- Archive decoding (libzip) is an opaque service; `Host.archives` stands for it. The unchecked
  `zip_stat` result and the build without archive support, where open throws, are not modelled.
- Ownership and lifetime machinery is not modelled: `unique_ptr`, the pimpl idiom, move
  construction and assignment, `NonCopyable`. Two memory-safety defects fall under it: the
  owning `MemFile` constructor reads `beg` from the moved-from parameter, and the archive
  handler frees an array with a scalar delete. Ownership survives only as a tag that read and
  seek ignore.
- The text of the exception thrown by `open` is not modelled; failure is `NotFound(path)`.
- Fixed-width integers: cursor offsets and seek offsets are unbounded integers, so 64-bit
  overflow of `off_type` and the cast of `tell()` to `size_t` in `eof` are not modelled.
- `MemFiles.MemFile.Read` requires the cursor within `[0, size]`. Outside that range the
  `size_t` remainder wraps and the copy reads outside the buffer, which is undefined behaviour.
  A cursor moved out of range by `seek` is representable, but such a read is not.
- `Files.File.Get` and `Files.File.Peek` return `None` where the C++ returns an uninitialised
  byte. They do not pin down which byte comes back.
- `Files.File.ReadLine` returns the terminator's index rather than writing a zero through a
  raw pointer. A write past the caller's buffer is therefore not modelled.
- The return value of `MemFile::read` on an empty buffer divides by zero. The model writes
  that as `None` and does not model the process fault.

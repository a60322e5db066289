# rsub: the server side of the rmate protocol, in Dafny

rsub is a Sublime Text plugin. It answers `rmate` clients: a remote shell asks
the editor to open a file, and the file's bytes travel over a TCP connection.
The plugin greets each connection with its version. It then reads a request
envelope:

- an optional `open` line;
- `key: value` header lines;
- a `data: <size>` header, followed by exactly that many bytes of body.

The body is staged under a per-plugin directory, at a path derived from the
`display-name` and `real-path` headers, and opened in a view. Saving the view
sends `save`, the token and the new bytes back. Closing the view sends
`close` and the token, and deletes the staged file. A global registry maps
view ids to their sessions.

This project models that core:

- **Bytes** (`bytes.dfy`): the byte-level building blocks. These are
  `readline` on a stream, `bytes.strip` and `str.strip`, `split(":", 1)`,
  `lstrip("/")`, Python's `int()` on a header value, and the decimal
  rendering of a length.
- **Paths** (`paths.dfy`): pathlib paths, `/`, `.parent`, `os.path.basename`,
  and the staged-path derivation.
- **Envelope** (`envelope.dfy`): pure functions of the lines the socket
  delivers:
  - how one header line is classified;
  - how many lines the body loop consumes and what it keeps;
  - what a whole connection leaves behind (`Serve`).
- **Messages** (`messages.dfy`): the greeting, the `close` and `save`
  encoders, and `Decode`. `Decode` reads those bytes back in the protocol's
  own terms, using the same header-line reading the server uses. It is the
  inverse each encoder is checked against.
- **Sessions** (`session.dfy`): the `Session` class. Its fields are the
  header map, the parse flag, the unread input, the bytes sent, whether the
  socket is open, the staged paths and the staged file's content. Each
  method is proved against the Envelope and Messages functions.
- **Registry** (`registry.dfy`): the `SESSIONS` dictionary as a class over
  `map<int, Session>`, with the three event handlers that update it.

Where the rmate protocol is usually described differently, the model follows
the code in `rsub.py`:

- A blank header line is not skipped. It has no `:`, so the unpacking in
  `split` raises and the connection's read loop ends.
- Nothing limits how many headers may come before `data`.
- There is no `.` terminator line. Once the body is read, every further line
  is read and discarded until EOF.
- Only bytes-level whitespace (9-13 and 32) is stripped before comparing a
  line with `open`. A line such as U+001C followed by `open` is therefore not
  skipped. As text it strips to `open`, has no `:`, and raises.

The staged path is not confined to the staging root. A host label that is
itself an absolute path, as in `display-name: /etc:x/passwd`, replaces the
root, because pathlib's `/` lets an absolute right-hand side win
(Paths.AbsoluteRemoteEscapesRoot). `..` parts in `real-path` are kept as
written and resolved by the filesystem, so they can also climb out of it.

## Model

| member | source | states |
|---|---|---|
| Bytes.TakeLine | rsub.py:60 | one `readline`: the line and the rest concatenate back to the stream; the line ends at the first newline, or is everything when the stream holds none |
| Bytes.Lines | rsub.py:73 | a stream split by repeated `readline`: the lines concatenate to the stream and every line but the last ends in a newline |
| Bytes.Concat | rsub.py:64-66 | the chunks written to a file one after another: the file starts with the first chunk, and no chunks make an empty file |
| Bytes.ConcatSnoc | rsub.py:64-66 | each `ofile.write` appends its chunk to what the file already holds |
| Bytes.Strip | rsub.py:81 | `strip()`: the result has no leading or trailing whitespace of its character set, and it is the slice between two all-whitespace ends |
| Bytes.StripOf | rsub.py:85 | stripping whitespace ends off a stripped middle gives back that middle |
| Bytes.StripIdempotent | rsub.py:87 | stripping twice is stripping once |
| Bytes.SplitFirst | rsub.py:86 | `split(":", 1)` fails exactly when there is no separator; otherwise the parts rejoin around a first occurrence |
| Bytes.SplitFirstOf | rsub.py:48 | a separator-free prefix is what splitting at the first separator returns |
| Bytes.LStrip | rsub.py:47 | `lstrip("/")`: only leading slashes are removed, and all of them |
| Bytes.ParseIntDecimal | rsub.py:44 | `int()` reads back the decimal rendering of every natural number |
| Bytes.ParseInt | rsub.py:44 | `int()` on the `data` value: a string is accepted exactly when it is well-formed digits (single underscores between digits allowed) after at most one `+` or `-`, and every other string, the empty one included, is `NotAnInteger`; an accepted string ends in a digit, and its value is negative only after a leading `-` |
| Bytes.ParseIntSign | rsub.py:44 | a digit string reads as its value; a leading `-` negates it and a leading `+` keeps it |
| Bytes.Decimal | rsub.py:114 | `str(len(...))`: a non-empty string of digits without a leading zero |
| Bytes.ConcatPrefix | rsub.py:59-67 | the lines read so far spell a prefix of the whole stream |
| Paths.ParsePath | rsub.py:47 | `pathlib.Path(s)`: absolute exactly when `s` starts with a slash; no empty or "." parts |
| Paths.Segments | rsub.py:47 | `s.split("/")`: the pieces hold no slash and, rejoined with slashes, give back `s` |
| Paths.SegmentsOfRejoin | rsub.py:47 | the split is unique: slash-free pieces are the segments of their slash-joined text |
| Paths.Components | rsub.py:47 | the parts pathlib keeps are components (non-empty, not ".", no slash) and no more than the pieces |
| Paths.ComponentsMembers | rsub.py:47 | a piece is kept as a part exactly when it is a component |
| Paths.ComponentsOne | rsub.py:47 | one piece alone is kept exactly when it is a component |
| Paths.ComponentsAppend | rsub.py:47 | keeping parts distributes over concatenation, so the kept parts stay in the order of the pieces |
| Paths.ParsePathParts | rsub.py:47 | the parts of a path written as slash-separated pieces are those pieces in order, without the empty and "." ones |
| Paths.Join | rsub.py:50-52 | `p / q`: absolute exactly when either side is; an absolute `q` alone gives the parts, otherwise the parts of both add up |
| Paths.JoinAssociative | rsub.py:50-52 | `(p / q) / r == p / (q / r)` for every three paths |
| Paths.JoinRelative | rsub.py:50-52 | joining a relative path keeps the left-hand side as a prefix of the parts and keeps whether it is absolute |
| Paths.ParentJoinParts | rsub.py:47-52 | `.parent` keeps the leading parts, and a join ends with the parts of its right-hand side |
| Paths.WellFormedJoinParent | rsub.py:47-52 | joining two well-formed paths, or taking a parent, gives a well-formed path |
| Paths.Parent | rsub.py:47 | `.parent` keeps whether the path is absolute and has one part fewer; a path without parts is its own parent |
| Paths.ParentOfJoin | rsub.py:47-52 | the parent of `p / c`, for one component `c`, is `p` |
| Paths.Basename | rsub.py:49 | `os.path.basename`: the suffix after the last slash, with no slash in it |
| Paths.StagedPaths | rsub.py:44-52 | a missing `real-path`, then a missing `display-name`, raises that key; a `display-name` without ':' fails to unpack |
| Paths.StagedPathShape | rsub.py:47-52 | for a plain host label the staged file is root/remote/directories of real-path/basename of name |
| Paths.StagedPathUnderRoot | rsub.py:50-52 | unless the host label starts with a slash, the staged directory extends the staging root and the staged file extends the directory |
| Paths.AbsoluteRemoteEscapesRoot | rsub.py:50 | a display name `/host:dir/file` with `real-path` `/file` stages at `/host/file`: the absolute host label replaces the staging root |
| Paths.EmptyBasenameStagesAtDir | rsub.py:48-52 | a `display-name` whose basename is empty or "." gives a `local_path` equal to `local_dir` |
| Paths.StagedPathExample | rsub.py:47-52 | host:/a/b/file stages at root/host/a/b/file |
| Paths.StagedPathExampleLiteral | rsub.py:47-52 | `host1:/a/b/file.txt` with real path `/a/b/file.txt` stages at root/host1/a/b/file.txt |
| Envelope.HeaderLine | rsub.py:81-87 | a line is skipped iff its bytes strip to `open`; it is malformed iff it is not skipped and its stripped text has no ':'; otherwise the key is the text before the first ':' and the value is the rest, stripped |
| Envelope.FieldIsClean | rsub.py:85-87 | the key and value read from a line hold no newline, and the value is stripped |
| Envelope.BlankLineIsMalformed | rsub.py:85-86 | the empty line `\n` and the padded blank line ` \r\n` raise instead of being skipped |
| Envelope.WhitespaceLineIsMalformed | rsub.py:85-86 | every line made only of whitespace, byte-level (9-13, 32) or text-level (also 28-31), raises instead of being skipped |
| Envelope.SeparatorBeforeOpenIsMalformed | rsub.py:81-86 | a text-only whitespace character before `open` defeats the skip, and the line raises |
| Envelope.PaddedOpenIsSkipped | rsub.py:81-83 | `open` padded with spaces and CR LF is skipped |
| Envelope.LinesNeeded | rsub.py:59-67 | the body loop reads the first count of lines whose bytes reach `total`, or None when the stream never gets there |
| Envelope.LinesNeededUnique | rsub.py:59 | any count of lines that first reaches `total` is that count |
| Envelope.FetchBody | rsub.py:57-67 | with size at most 1 nothing is read; otherwise the staged body is the first `total` bytes of the concatenated lines, reading stops at the first line that reaches `total`, and the loop spins iff the stream is shorter |
| Envelope.Fetch | rsub.py:41-69 | after a download, the lines left are what follows the lines it read: a suffix of the stream |
| Envelope.FetchFailure | rsub.py:44-48 | the download raises exactly when `int()` fails or the paths cannot be derived; the size is read first, so its error wins; otherwise the staged paths are the derived ones |
| Envelope.FetchSpinsExactly | rsub.py:58-67 | for a size above 1 the body loop spins exactly when the stream holds fewer bytes than the size |
| Envelope.BodyIndependentOfChunking | rsub.py:59-67 | two streams with the same bytes stage the same body, however they split into lines |
| Envelope.Advance | rsub.py:72-95 | one pass of the read loop makes progress; the lines left are a suffix of the input; no header is ever removed; once parsing is done the line is only discarded |
| Envelope.Store | rsub.py:87-95 | the header is stored under its key whatever happens next; a non-`data` header lets the loop go on with the following lines and the parse flag as it was; a `data` header after which the loop goes on has set the parse flag and staged a file |
| Envelope.Received | rsub.py:93-95 | the loop goes on exactly when the body was read, and then parsing is done, the staging paths are recorded, the staged file holds the body and the loop resumes after it; a raising download leaves the state as it was and ends the loop with that error; a spinning one records the paths, keeps the parse flag and ends with every line consumed |
| Envelope.Serve | rsub.py:71-95 | the lines `run` leaves unread are a suffix of its input, none are left at EOF or in a spin, and every header stored before is still stored |
| Envelope.ServeAfterParse | rsub.py:77-79 | once parsing is done every line is discarded, the state stays as it is, and the loop ends at EOF |
| Envelope.ServeOpenLine | rsub.py:81-83 | a bare `open` line changes nothing |
| Envelope.ServeMalformedLine | rsub.py:85-86 | a line without ':' ends the loop with the unpacking error and leaves the state as it was |
| Envelope.ServeHeaderLine | rsub.py:85-87 | a non-`data` header is stored under its key and the loop goes on |
| Envelope.ServeLastWriteWins | rsub.py:87 | of two headers with one key the later value is kept |
| Envelope.ServeDataLine | rsub.py:89-95 | a `data` header runs exactly one download, sets `parse_done`, and no later line changes the state |
| Messages.HeaderBytesRead | rsub.py:108-116 | every `key: value` line the server sends is read back by the server's own header reading as that key and value |
| Messages.CloseRoundTrip | rsub.py:97-100 | a `close` for a stored token decodes to that token |
| Messages.SaveRoundTrip | rsub.py:108-116 | a `save` decodes to the token and exactly the content sent, newlines in it included |
| Messages.DecodeEncode | rsub.py:97-116 | `Encode` picks `CloseMessage` or `SaveMessage`; every command the server sends decodes to itself |
| Messages.EncodeInjective | rsub.py:97-116 | different commands are sent as different bytes |
| Messages.GreetingIsOneLine | rsub.py:170 | the greeting is exactly one line of the stream for a version without newlines |
| Messages.GreetingIsLine | rsub.py:170 | `Greeting` is the one `send` at rsub.py:170; the greeting ends in a newline, and is a single line exactly when the version holds no newline |
| Messages.CloseMessageLines | rsub.py:98-100 | `CloseMessage` concatenates the three sends at rsub.py:98-100; `close` reaches the peer as three lines: `close`, the token header and an empty line |
| Messages.SaveMessageLines | rsub.py:109-116 | `SaveMessage` concatenates the five sends at rsub.py:109-116; `save` reaches the peer as the `save` line, the token header and the `data` header with the decimal length, then lines that spell the content and a final newline |
| Messages.HeaderIsLine | rsub.py:108-116 | `HeaderBytes` is the `key: value` send of rsub.py:99, 110 and 111; a header without newlines in it is exactly one line |
| Sessions.Session.constructor | rsub.py:33-39 | a new session has an empty header map, is not done parsing, has nothing staged, and will read the lines of its stream |
| Sessions.Session.ReadLine | rsub.py:73 | the next line is taken off the input, or the empty line at EOF |
| Sessions.Session.Transmit | rsub.py:98-116 | an open socket appends the bytes to what was sent; a closed one raises and sends nothing |
| Sessions.Session.ReadBody | rsub.py:57-67 | the loop reads exactly the lines `LinesNeeded` counts and writes the first `total` bytes of them, or reports EOF with the input exhausted |
| Sessions.Session.Stage | rsub.py:50-67 | with the size and paths known, the paths are recorded; a size of at most 1 stages an empty file, otherwise the first `total` bytes of the lines `LinesNeeded` counts are staged and those lines consumed, or the input is exhausted when the stream is too short |
| Sessions.Session.Download | rsub.py:41-69 | the download is `Fetch` of the header map and the unread lines; the staged paths and staged bytes are set as it says, and a failure changes nothing |
| Sessions.Session.Step | rsub.py:72-95 | one pass of the loop changes the state and the input as `Advance` says, keeping the session invariant |
| Sessions.Session.StoreHeader | rsub.py:87-95 | storing a header, and on `data` the download, changes the state as `Store` says |
| Sessions.Session.Finish | rsub.py:93-95 | after a download, parsing is done exactly when the body was read |
| Sessions.Session.Run | rsub.py:71-95 | the loop leaves the state, the unread input and the way it ended exactly as `Serve` describes |
| Sessions.Session.Close | rsub.py:97-105 | it sends `close`, the token and an empty line, then closes the socket; it deletes the staged file iff `keep` is false; each raising step stops it with that error |
| Sessions.Session.SendSave | rsub.py:108-116 | it sends `save`, the token, the decimal length of the staged file's bytes, those bytes and a newline; each raising step stops it with that error |
| Sessions.Handle | rsub.py:165-173 | a connection is greeted with the version, then its session runs as `Serve` describes from the fresh state; the request socket is shut down once `handle` returns or raises, and stays open only while the body loop spins |
| Sessions.Greet | rsub.py:168-172 | the new session is fresh, will read the lines of its stream, and has sent exactly the greeting |
| Sessions.Session.Shutdown | rsub.py:101-102 | the socket sends nothing from now on; the read state, the unread input and the bytes sent stay as they were |
| Registry.SessionRegistry.constructor | rsub.py:23 | the registry starts empty |
| Registry.SessionRegistry.OnDone | rsub.py:131-137 | the view's id maps to the new session and every other id is unchanged; a previous session in that view is closed keeping its file, sending the token it received; its headers, parse flag, unread input and staging paths stay as they were; if closing it raises, nothing is registered |
| Registry.SessionRegistry.OnPostSave | rsub.py:196-199 | the registry is unchanged; the view's session sends the saved bytes, which decode to the token it received and that content; its socket, headers, parse flag, unread input and staging paths stay as they were; an unknown view is ignored |
| Registry.SessionRegistry.OnClose | rsub.py:202-206 | the id is removed and its session is closed, sending the token it received and deleting its file; its headers, parse flag, unread input and staging paths stay as they were; an unknown view is ignored |

## Left out

- Sockets, `makefile` and the threaded TCP server (rsub.py:164-184, 229-230).
  Input is the sequence of lines `readline` returns. Output is one byte
  sequence that every send appends to. Connections run one after another,
  not concurrently.
- Sessions.Handle, Sessions.Session.ReadLine: in rsub.py the connection's
  `run` blocks in `readline` (rsub.py:73) while the editor thread runs
  `on_done`, `on_post_save_async` and `on_close` (rsub.py:131-137,
  196-206). The model does not interleave them. Handle runs the whole
  stream and then shuts the socket down, so a session it returns cannot
  send a save or close. The editor callbacks are modelled as arriving after
  Sessions.Session.Run has consumed the lines received so far and before
  the client's EOF, by composing Sessions.Greet and Sessions.Session.Run
  and then calling the registry. `close` ending the blocked read, where
  `shutdown(SHUT_RDWR)` (rsub.py:101) makes `readline` return `b""`, is not
  modelled: ReadLine keeps returning the input lines after
  Sessions.Session.Shutdown.
- The threaded server's `shutdown_request`, which runs once `handle`
  returns or raises, is modelled by Sessions.Session.Shutdown at the end of
  Sessions.Handle. The socket file's own reference count, which keeps the
  descriptor alive until the file is closed, is not modelled: once shut
  down, every send fails.
- Sessions.Session.Transmit: `socket.send` is modelled as sending all its
  bytes. A partial send, which the source does not retry, is not modelled.
- The filesystem (rsub.py:51, 54-56, 69, 105, 112-113). `mkdir`, the
  temporary file and `rename` are modelled by the staged content holding the
  body once it has been read. `unlink` sets that content to None. Reading
  the file back returns that content. A failing `mkdir` or `rename` is not
  modelled.
- Paths.EmptyBasenameStagesAtDir: a `display-name` whose basename is empty
  or "." (such as `h:` or `h:/a/`) stages the file at the staging directory
  itself. In rsub.py the `rename` at rsub.py:69 then targets an existing
  directory and raises. The model reports `Fetched` and sets parse_done
  there, since `rename` is not modelled; the lemma states the case.
- Registry.SessionRegistry.OnClose: each session owns its staged file. In
  rsub.py the file belongs to the path `local_path`, and two sessions that
  derive the same path share it: the later `rename` (rsub.py:69) replaces the
  earlier file, closing one session unlinks the file of both, and closing the
  other then raises `FileNotFoundError` at rsub.py:105. The model's second
  close succeeds, because that session still holds its own content. The same
  holds for Sessions.Session.Close and Sessions.Session.SendSave.
- Bytes.ParseInt: only ASCII digits are accepted. Python's `int()` also
  accepts other Unicode decimal digits, such as U+0665 or the fullwidth
  digits, for which the model reports `NotAnInteger`.
- Paths: the paths are POSIX paths. On Windows pathlib builds Windows paths,
  with drives and backslash separators, and `os.path.basename` also splits
  at backslashes; none of that is modelled.
- Paths.ParsePath: pathlib keeps a leading `//` (exactly two slashes) as a
  root of its own, so a host label `//h` stages under `//h`. The model reads
  every leading run of slashes as the root `/`.
- Text decoding (rsub.py:85): lines are taken to be valid UTF-8 and
  decoding is the identity. `str.strip` is modelled on ASCII whitespace
  (9-13 and 28-32). Non-ASCII whitespace, such as U+0085 or U+00A0, is not
  modelled.
- Sessions.Session.ReadBody: at EOF inside the body the source's loop reads
  empty lines forever. The model stops there and reports `Spinning`. It
  does not claim that the source terminates.
- The Sublime API: `set_timeout`, `windows`, `run_command`, `open_file` and
  `version` (rsub.py:95, 118-125, 169). The view id and the version are
  parameters. The new-window choice is not modelled. `Session.on_done` is
  modelled only from rsub.py:131 on, by Registry.SessionRegistry.OnDone.
- Registry.SessionRegistry.OnPostSave: the editor's write of the saved view
  to the staged file is modelled as setting the session's staged content to
  the saved bytes just before `send_save`.
- The `say` log lines (rsub.py:28-29, 91, 134, 166, 175, 200, 206). Only each
  handler's `display-name` lookup is modelled, because a missing key raises
  there.
- The window-raising calls to osascript, ScriptingBridge, gdbus and wmctrl
  (rsub.py:140-161).
- `plugin_loaded` and `plugin_unloaded` (rsub.py:187-231). The staging root
  is a parameter.
- The first `Session(self.request)` in `ConnectionHandler.handle`
  (rsub.py:168). It is replaced before it is used, and its buffered reader
  never reads, so Sessions.Handle creates only the second one.
- `assert session_dir`, `assert self.local_path` (rsub.py:42, 104, 111): the
  staging root is always given. A missing local path is the `NoLocalPath`
  error.
- Messages.Decode is a reading of the bytes in the protocol's own terms, not
  a model of the rmate client's code, which is not part of this model.

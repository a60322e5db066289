/**
 * `Session` (rsub.py:32-116): one connection from the remote side. Its
 * socket is modelled by the lines `readline` will still return (`input`)
 * and everything sent so far (`sent`); the staged file by the bytes it
 * holds (`staged`, None once it is deleted or before it is written).
 * `ConnectionHandler.handle` (rsub.py:165-173) is `Handle`.
 */
module Sessions {
  import opened Errors
  import opened Bytes
  import opened Paths
  import opened Envelope
  import opened Messages

  function Min(a: int, b: int): int
  {
    if a <= b then a else b
  }

  class Session {
    var env: map<Bytes, Bytes>
    var parseDone: bool
    var input: seq<Bytes>          // what `sockfile.readline()` returns from here on
    var sent: Bytes                // every byte passed to `socket.send`
    var socketOpen: bool
    var staging: Option<Staging>   // `local_dir` and `local_path`
    var staged: Option<Bytes>      // the file at `local_path`

    ghost predicate Valid()
      reads this
    {
      && AllLines(input)
      && CleanEnv(env)
      && (parseDone ==> staging.Some?)
      && (staged.Some? ==> staging.Some?)
    }

    /** The part of the state that the read loop works on. */
    function State(): ReadState
      reads this
    {
      ReadState(env, parseDone, staging, staged)
    }

    /** `Session(sock)` on a socket that will deliver `stream` (rsub.py:33-39). */
    constructor (stream: Bytes)
      ensures Valid() && State() == Fresh
      ensures input == Lines(stream) && sent == [] && socketOpen
    {
      env := map[];
      parseDone := false;
      input := Lines(stream);
      sent := [];
      socketOpen := true;
      staging := None;
      staged := None;
    }

    /** `sockfile.readline()`: the next line, or the empty string at EOF. */
    method ReadLine() returns (line: Bytes)
      modifies this`input
      ensures old(input) == [] ==> line == [] && input == []
      ensures old(input) != [] ==> line == old(input)[0] && input == old(input)[1..]
    {
      if input == [] {
        line := [];
      } else {
        line := input[0];
        input := input[1..];
      }
    }

    /** `socket.shutdown` and `socket.close`: the socket sends nothing from now on. */
    method Shutdown()
      modifies this`socketOpen
      ensures !socketOpen
      ensures State() == old(State()) && input == old(input) && sent == old(sent)
      ensures old(Valid()) ==> Valid()
    {
      socketOpen := false;
    }

    /** `socket.send(bytes)`: all of `bytes` go out, unless the socket was closed. */
    method Transmit(bytes: Bytes) returns (o: Outcome)
      modifies this`sent
      ensures socketOpen ==> o == Pass && sent == old(sent) + bytes
      ensures !socketOpen ==> o == Fail(SocketClosed) && sent == old(sent)
    {
      if socketOpen {
        sent := sent + bytes;
        o := Pass;
      } else {
        o := Fail(SocketClosed);
      }
    }

    /**
     * The body loop of `_download` (rsub.py:57-67) for `total_size > 1`:
     * readline until `total` bytes have arrived, keeping all of each line but
     * the last, of which only what is still missing is kept. The source spins
     * forever when the stream ends first; here the loop stops and says so.
     */
    method ReadBody(total: int) returns (written: Bytes, complete: bool)
      requires total > 1 && AllLines(input)
      modifies this`input
      ensures match LinesNeeded(total, old(input))
        case None => !complete && input == []
        case Some(k) => complete && k <= |old(input)| && input == old(input)[k..]
                        && written == Concat(old(input)[..k])[..total]
    {
      ghost var lines := input;
      ghost var j := 0;
      written := [];
      var done := 0;
      while done < total
        invariant 0 <= j <= |lines| && input == lines[j..]
        invariant done == |Concat(lines[..j])|
        invariant written == Concat(lines[..j])[..Min(done, total)]
        invariant forall i :: 0 <= i < j ==> |Concat(lines[..i])| < total
        decreases |input|
      {
        var line := ReadLine();
        if line == [] {
          assert j == |lines| && lines[..j] == lines;
          LinesNeededUnique(total, lines, j);
          return [], false;
        }
        assert lines[..j + 1] == lines[..j] + [line];
        ConcatSnoc(lines[..j], line);
        var size := |line|;
        if done + size > total {
          written := written + line[..total - done];
        } else {
          written := written + line;
        }
        done := done + size;
        j := j + 1;
      }
      LinesNeededUnique(total, lines, j);
      complete := true;
    }

    /**
     * `_download` (rsub.py:41-69): derive the staged paths, read the body,
     * and stage exactly `total_size` bytes (none at all when it is at most 1).
     */
    method Download(root: Path) returns (d: Download)
      requires DATA in env && AllLines(input)
      modifies this`input, this`staging, this`staged
      ensures d == Fetch(root, env, old(input)) && AllLines(input)
      ensures d.FetchFailed? ==> input == old(input) && staging == old(staging) && staged == old(staged)
      ensures d.FetchSpins? ==> input == [] && staging == Some(d.staging) && staged == old(staged)
      ensures d.Fetched? ==> input == d.rest && staging == Some(d.staging) && staged == Some(d.body)
    {
      ghost var lines := input;
      var count := ParseInt(env[DATA]);
      if count.Err? {
        d := FetchFailed(count.error);
        assert d == Fetch(root, env, lines);
        return;
      }
      var paths := StagedPaths(root, env);
      if paths.Err? {
        d := FetchFailed(paths.error);
        assert d == Fetch(root, env, lines);
        return;
      }
      d := Stage(paths.value, count.value);
      StagedIsFetched(root, env, lines, count.value, paths.value, d);
    }

    /** rsub.py:50-69 once the paths are known: read `total` bytes of body into the staged file. */
    method Stage(paths: Staging, total: int) returns (d: Download)
      requires AllLines(input)
      modifies this`input, this`staging, this`staged
      ensures staging == Some(paths) && AllLines(input)
      ensures total <= 1 ==> d == Fetched(paths, [], old(input)) && input == old(input) && staged == Some([])
      ensures total > 1 && LinesNeeded(total, old(input)).None? ==>
        d == FetchSpins(paths) && input == [] && staged == old(staged)
      ensures total > 1 && LinesNeeded(total, old(input)).Some? ==>
        var k := LinesNeeded(total, old(input)).value;
        && d == Fetched(paths, Concat(old(input)[..k])[..total], old(input)[k..])
        && input == d.rest && staged == Some(d.body)
    {
      staging := Some(paths);
      var written: Bytes := [];
      if total > 1 {
        var complete;
        written, complete := ReadBody(total);
        if !complete {
          return FetchSpins(paths);
        }
      }
      staged := Some(written);
      d := Fetched(paths, written, input);
    }

    /**
     * One pass of the loop in `run` (rsub.py:72-95): read a line and act on
     * it as `Advance` says. `stop` is how `run` ends when this pass ends it.
     */
    method Step(root: Path) returns (stop: Option<RunEnd>)
      requires Valid()
      modifies this`env, this`parseDone, this`input, this`staging, this`staged
      ensures Valid()
      ensures old(input) == [] ==> stop == Some(Eof) && State() == old(State()) && input == []
      ensures old(input) != [] ==>
        match Advance(root, old(State()), old(input))
        case Continue(st, rest) => stop.None? && State() == st && input == rest
        case Stop(s) => stop == Some(s.end) && State() == s.state && input == s.rest
    {
      var line := ReadLine();
      if line == [] {
        return Some(Eof);
      }
      if parseDone {
        return None;
      }
      var kind := HeaderLine(line);
      if kind.Skip? {
        return None;
      }
      if kind.Malformed? {
        return Some(Raised(Unpack));
      }
      FieldIsClean(line);
      stop := StoreHeader(root, kind.key, kind.value);
    }

    /** rsub.py:87-95: store a header; on `data`, download the body and finish parsing. */
    method StoreHeader(root: Path, key: Bytes, value: Bytes) returns (stop: Option<RunEnd>)
      requires Valid() && NEWLINE !in key && CleanValue(value)
      modifies this`env, this`parseDone, this`input, this`staging, this`staged
      ensures Valid()
      ensures match Store(root, old(State()), key, value, old(input))
        case Continue(st, rest) => stop.None? && State() == st && input == rest
        case Stop(s) => stop == Some(s.end) && State() == s.state && input == s.rest
    {
      env := env[key := value];
      if key != DATA {
        return None;
      }
      ghost var rest := input;
      var d := Download(root);
      stop := Finish(d, rest);
    }

    /** rsub.py:93-95: how the loop goes on once the download `d` of `rest` has ended. */
    method Finish(d: Download, ghost rest: seq<Bytes>) returns (stop: Option<RunEnd>)
      requires Valid()
      requires d.FetchFailed? ==> input == rest
      requires d.FetchSpins? ==> input == [] && staging == Some(d.staging)
      requires d.Fetched? ==> SuffixOf(d.rest, rest) && input == d.rest && staging == Some(d.staging) && staged == Some(d.body)
      modifies this`parseDone
      ensures Valid()
      ensures match Received(old(State()), d, rest)
        case Continue(st, r) => stop.None? && State() == st && input == r
        case Stop(s) => stop == Some(s.end) && State() == s.state && input == s.rest
    {
      if d.FetchFailed? {
        return Some(Raised(d.error));
      } else if d.FetchSpins? {
        return Some(Spinning);
      }
      parseDone := true;
      stop := None;
    }

    /**
     * `run` (rsub.py:71-95): read header lines into `env` until a `data`
     * header has been handled, then discard every line until EOF. It ends
     * where `Serve` says: at EOF, with an exception, or in the body loop.
     */
    method Run(root: Path) returns (end: RunEnd)
      requires Valid()
      modifies this`env, this`parseDone, this`input, this`staging, this`staged
      ensures Valid()
      ensures var s := Serve(root, old(State()), old(input));
        State() == s.state && end == s.end && input == s.rest
    {
      while true
        invariant Valid()
        invariant Serve(root, State(), input) == Serve(root, old(State()), old(input))
        decreases |input|
      {
        var stop := Step(root);
        if stop.Some? {
          return stop.value;
        }
      }
    }

    /**
     * `close(keep)` (rsub.py:97-105): send `close` and the token, end the
     * connection, and unless `keep` delete the staged file. Each step that
     * can raise ends the call there.
     */
    method Close(keep: bool) returns (o: Outcome)
      requires Valid()
      modifies this`sent, this`socketOpen, this`staged
      ensures Valid()
      ensures !old(socketOpen) ==>
        o == Fail(SocketClosed) && sent == old(sent) && !socketOpen && staged == old(staged)
      ensures old(socketOpen) && TOKEN !in env ==>
        o == Fail(MissingKey(TOKEN)) && sent == old(sent) + CLOSE_LINE && socketOpen && staged == old(staged)
      ensures old(socketOpen) && TOKEN in env ==>
        && sent == old(sent) + CloseMessage(env[TOKEN]) && !socketOpen
        && (keep ==> o == Pass && staged == old(staged))
        && (!keep && staging.None? ==> o == Fail(NoLocalPath) && staged == old(staged))
        && (!keep && staging.Some? && old(staged).None? ==> o == Fail(FileNotFound) && staged == None)
        && (!keep && staging.Some? && old(staged).Some? ==> o == Pass && staged == None)
    {
      o := Transmit(CLOSE_LINE);
      if o.Fail? {
        return;
      }
      if TOKEN !in env {
        return Fail(MissingKey(TOKEN));
      }
      o := Transmit(HeaderBytes(TOKEN, env[TOKEN]));
      o := Transmit("\n");
      assert sent == old(sent) + CloseMessage(env[TOKEN]);
      Shutdown();
      if !keep {
        if staging.None? {
          return Fail(NoLocalPath);
        }
        if staged.None? {
          return Fail(FileNotFound);
        }
        staged := None;
      }
      o := Pass;
    }

    /**
     * `send_save` (rsub.py:108-116): send `save`, the token, and the staged
     * file's bytes behind their decimal length.
     */
    method SendSave() returns (o: Outcome)
      modifies this`sent
      ensures !socketOpen ==> o == Fail(SocketClosed) && sent == old(sent)
      ensures socketOpen && TOKEN !in env ==> o == Fail(MissingKey(TOKEN)) && sent == old(sent) + SAVE_LINE
      ensures socketOpen && TOKEN in env ==>
        var head := old(sent) + SAVE_LINE + HeaderBytes(TOKEN, env[TOKEN]);
        && (staging.None? ==> o == Fail(NoLocalPath) && sent == head)
        && (staging.Some? && staged.None? ==> o == Fail(FileNotFound) && sent == head)
        && (staging.Some? && staged.Some? ==>
              o == Pass && sent == old(sent) + SaveMessage(env[TOKEN], staged.value))
    {
      o := Transmit(SAVE_LINE);
      if o.Fail? {
        return;
      }
      if TOKEN !in env {
        return Fail(MissingKey(TOKEN));
      }
      o := Transmit(HeaderBytes(TOKEN, env[TOKEN]));
      if staging.None? {
        return Fail(NoLocalPath);
      }
      if staged.None? {
        return Fail(FileNotFound);
      }
      var content := staged.value;
      o := Transmit(HeaderBytes(DATA, Decimal(|content|)));
      o := Transmit(content);
      o := Transmit("\n");
      assert sent == old(sent) + SaveMessage(env[TOKEN], content);
    }
  }

  /** What `Stage` returns for a size and paths read from `env` is the download `Fetch` describes. */
  lemma StagedIsFetched(root: Path, env: map<Bytes, Bytes>, lines: seq<Bytes>, total: int, paths: Staging, d: Download)
    requires DATA in env && ParseInt(env[DATA]) == Ok(total) && StagedPaths(root, env) == Ok(paths)
    requires total <= 1 ==> d == Fetched(paths, [], lines)
    requires total > 1 && LinesNeeded(total, lines).None? ==> d == FetchSpins(paths)
    requires total > 1 && LinesNeeded(total, lines).Some? ==>
      var k := LinesNeeded(total, lines).value;
      d == Fetched(paths, Concat(lines[..k])[..total], lines[k..])
    ensures d == Fetch(root, env, lines)
  {
    FetchOf(root, env, lines, total, paths);
  }

  /**
   * `ConnectionHandler.handle` (rsub.py:165-173): greet the remote side with
   * the editor's version, then run the session on what it sends. Once
   * `handle` returns or raises, the threaded server shuts the request socket
   * down; only a body loop that spins keeps it open, since `handle` never
   * returns then.
   */
  method Handle(root: Path, version: Bytes, stream: Bytes) returns (s: Session, end: RunEnd)
    ensures fresh(s) && s.Valid() && s.sent == Greeting(version)
    ensures var r := Serve(root, Fresh, Lines(stream));
      s.State() == r.state && end == r.end && s.input == r.rest
    ensures s.socketOpen <==> end.Spinning?
  {
    s := Greet(version, stream);
    end := s.Run(root);
    if !end.Spinning? {
      s.Shutdown();
    }
  }

  /** rsub.py:168-172: a new session on the connection, after the greeting has been sent. */
  method Greet(version: Bytes, stream: Bytes) returns (s: Session)
    ensures fresh(s) && s.Valid() && s.State() == Fresh && s.input == Lines(stream)
    ensures s.sent == Greeting(version) && s.socketOpen
  {
    s := new Session(stream);
    var o := s.Transmit(Greeting(version));
  }
}

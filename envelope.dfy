/**
 * The request envelope read by `Session.run` and `Session._download`
 * (rsub.py:41-95), as pure functions of the lines the socket delivers:
 * how one header line is classified, how many body lines the length-prefixed
 * download consumes and what it writes, and what a whole connection's input
 * leaves behind. The methods of `Sessions.Session` are proved against these.
 */
module Envelope {
  import opened Errors
  import opened Bytes
  import opened Paths

  const OPEN: Bytes := "open"
  const DATA: Bytes := "data"

  // ---------------------------------------------------------------------
  // One header line (rsub.py:81-87).

  datatype LineKind =
    | Skip                             // a bare `open` line
    | Field(key: Bytes, value: Bytes)  // `key: value`
    | Malformed                        // no ':' to split at: `split` unpacking raises

  /**
   * A line whose bytes strip to `open` is skipped; any other line is stripped
   * as text, split at its first ':' into a key and a value that is stripped
   * again; a line without ':' (a blank line among them) cannot be split.
   */
  function HeaderLine(line: Bytes): (r: LineKind)
    ensures r.Skip? <==> Strip(ByteSpace, line) == OPEN
    ensures r.Malformed? <==> Strip(ByteSpace, line) != OPEN && ':' !in Strip(TextSpace, line)
    ensures r.Field? ==>
      var t := Strip(TextSpace, line);
      && |r.key| < |t| && t[..|r.key|] == r.key && t[|r.key|] == ':' && ':' !in r.key
      && r.value == Strip(TextSpace, t[|r.key| + 1..])
  {
    if Strip(ByteSpace, line) == OPEN then Skip
    else
      var t := Strip(TextSpace, line);
      match SplitFirst(t, ':')
      case None => Malformed
      case Some((key, rest)) =>
        Separated(t, key, ':', rest);
        Field(key, Strip(TextSpace, rest))
  }

  /** A header value as the parser stores it: one line's worth, stripped. */
  predicate CleanValue(v: Bytes)
  {
    NEWLINE !in v && IsStripped(TextSpace, v)
  }

  predicate CleanEnv(env: map<Bytes, Bytes>)
  {
    forall k :: k in env ==> NEWLINE !in k && CleanValue(env[k])
  }

  lemma StripKeepsNoNewline(cs: Charset, s: Bytes)
    requires NEWLINE !in s
    ensures NEWLINE !in Strip(cs, s)
  {
    var r := Strip(cs, s);
    var i := SkipSpace(cs, s, 0);
    forall k | 0 <= k < |r| ensures r[k] != NEWLINE {
      assert r[k] == s[i + k];
    }
  }

  /** A line as `readline` returns it has its newline only at the end, and stripping removes it. */
  lemma StripLineNoNewline(line: Bytes)
    requires IsLine(line)
    ensures NEWLINE !in Strip(TextSpace, line)
  {
    var t := Strip(TextSpace, line);
    var i := SkipSpace(TextSpace, line, 0);
    forall k | 0 <= k < |t| ensures t[k] != NEWLINE {
      assert t[k] == line[i + k];
      if i + k < |line| - 1 {
        assert line[..|line| - 1][i + k] == line[i + k];
      } else {
        assert k == |t| - 1;
      }
    }
  }

  /** Keys and values parsed from a line contain no newline and values are stripped. */
  lemma FieldIsClean(line: Bytes)
    requires IsLine(line) && HeaderLine(line).Field?
    ensures NEWLINE !in HeaderLine(line).key && CleanValue(HeaderLine(line).value)
  {
    var t := Strip(TextSpace, line);
    var key := HeaderLine(line).key;
    StripLineNoNewline(line);
    var u := t[|key| + 1..];
    forall k | 0 <= k < |u| ensures u[k] != NEWLINE {
      assert u[k] == t[|key| + 1 + k];
    }
    forall k | 0 <= k < |key| ensures key[k] != NEWLINE {
      assert key[k] == t[k];
    }
    StripKeepsNoNewline(TextSpace, u);
  }

  /** The bytes and the text whitespace differ: U+001C before `open` defeats the skip. */
  lemma SeparatorBeforeOpenIsMalformed(sep: byte)
    requires 28 <= sep as int <= 31
    ensures HeaderLine([sep] + OPEN + [NEWLINE]) == Malformed
  {
    var line := [sep] + OPEN + [NEWLINE];
    OpenHasNoColon();
    SeparatorBytesStrip(sep, line);
    SeparatorTextStrip(sep, line);
    MalformedOf(line);
  }

  lemma OpenHasNoColon()
    ensures ':' !in OPEN
  {
  }

  lemma MalformedOf(line: Bytes)
    requires Strip(ByteSpace, line) != OPEN && ':' !in Strip(TextSpace, line)
    ensures HeaderLine(line) == Malformed
  {
  }

  lemma SeparatorBytesStrip(sep: byte, line: Bytes)
    requires 28 <= sep as int <= 31 && line == [sep] + OPEN + [NEWLINE]
    ensures Strip(ByteSpace, line) != OPEN
  {
    var w := [sep] + OPEN;
    assert line == [] + w + [NEWLINE];
    assert IsStripped(ByteSpace, w) by {
      assert w[0] == sep && w[|w| - 1] == OPEN[|OPEN| - 1];
    }
    StripOf(ByteSpace, [], w, [NEWLINE]);
    assert |w| != |OPEN|;
  }

  lemma SeparatorTextStrip(sep: byte, line: Bytes)
    requires 28 <= sep as int <= 31 && line == [sep] + OPEN + [NEWLINE]
    ensures Strip(TextSpace, line) == OPEN
  {
    StripOf(TextSpace, [sep], OPEN, [NEWLINE]);
  }

  /** A blank line is not ignored: it has no ':' and so cannot be split. */
  lemma BlankLineIsMalformed()
    ensures HeaderLine("\n") == Malformed
    ensures HeaderLine(" \r\n") == Malformed
  {
    var blank: Bytes, padded: Bytes := "\n", " \r\n";
    assert AllSpace(TextSpace, blank) && AllSpace(TextSpace, padded);
    WhitespaceLineIsMalformed(blank);
    WhitespaceLineIsMalformed(padded);
  }

  /** A line of whitespace, byte-level or text-level, has no ':' and is not `open`. */
  lemma WhitespaceLineIsMalformed(line: Bytes)
    requires AllSpace(TextSpace, line)
    ensures HeaderLine(line) == Malformed
  {
    var b := Strip(ByteSpace, line);
    if |b| > 0 {
      assert IsSpace(TextSpace, b[0]);
    }
    StripOf(TextSpace, line, [], []);
  }

  /** `open` surrounded by whitespace is still the bare `open` line. */
  lemma PaddedOpenIsSkipped()
    ensures HeaderLine(" open\r\n") == Skip
  {
    assert " open\r\n" == " " + OPEN + "\r\n";
    StripOf(ByteSpace, " ", OPEN, "\r\n");
  }

  // ---------------------------------------------------------------------
  // The length-prefixed body (rsub.py:57-67).

  lemma {:induction false} ConcatTake(lines: seq<Bytes>)
    requires |lines| > 0
    ensures forall j :: 1 <= j <= |lines| ==> Concat(lines[..j]) == lines[0] + Concat(lines[1..][..j - 1])
  {
    forall j | 1 <= j <= |lines|
      ensures Concat(lines[..j]) == lines[0] + Concat(lines[1..][..j - 1])
    {
      assert lines[..j][1..] == lines[1..][..j - 1];
    }
  }

  /**
   * How many lines the body loop reads before it has `total` bytes: the
   * first count whose lines reach `total`, or None when all of them fall short.
   */
  function LinesNeeded(total: int, lines: seq<Bytes>): (r: Option<nat>)
    ensures r.Some? ==> r.value <= |lines| && |Concat(lines[..r.value])| >= total
    ensures r.Some? ==> forall j :: 0 <= j < r.value ==> |Concat(lines[..j])| < total
    ensures r.None? ==> |Concat(lines)| < total
    decreases |lines|
  {
    if total <= 0 then Some(0)
    else if lines == [] then None
    else
      ConcatTake(lines);
      assert lines == lines[..|lines|];
      match LinesNeeded(total - |lines[0]|, lines[1..])
      case None => None
      case Some(k) => Some(k + 1)
  }

  /**
   * The count of lines read is determined by the stream: any `j` whose lines
   * first reach `total` is the one `LinesNeeded` finds, and a stream that
   * never reaches `total` has none.
   */
  lemma LinesNeededUnique(total: int, lines: seq<Bytes>, j: nat)
    requires j <= |lines|
    requires forall i :: 0 <= i < j ==> |Concat(lines[..i])| < total
    ensures |Concat(lines[..j])| >= total ==> LinesNeeded(total, lines) == Some(j)
    ensures j == |lines| && |Concat(lines)| < total ==> LinesNeeded(total, lines) == None
  {
    assert lines[..|lines|] == lines;
    match LinesNeeded(total, lines)
    case None =>
      ConcatPrefix(lines, j);
    case Some(k) =>
      ConcatPrefix(lines, k);
  }

  /** What `_download` leaves behind. */
  datatype Download =
    | Fetched(staging: Staging, body: Bytes, rest: seq<Bytes>) // the staged file holds `body`
    | FetchFailed(error: Error)                                // raised before the body was read
    | FetchSpins(staging: Staging)                             // EOF inside the body: the loop never ends

  /**
   * rsub.py:41-69 on header map `env` with the body lines `lines` still
   * unread: parse the size, derive the staged paths, then read lines until
   * `total` bytes are in and keep exactly `total` of them. A size of 1 or
   * less reads and writes nothing.
   */
  function Fetch(root: Path, env: map<Bytes, Bytes>, lines: seq<Bytes>): (r: Download)
    requires DATA in env
    ensures r.Fetched? ==> SuffixOf(r.rest, lines)
  {
    match ParseInt(env[DATA])
    case Err(e) => FetchFailed(e)
    case Ok(total) =>
      match StagedPaths(root, env)
      case Err(e) => FetchFailed(e)
      case Ok(staging) =>
        if total <= 1 then Fetched(staging, [], lines)
        else match LinesNeeded(total, lines)
          case None => FetchSpins(staging)
          case Some(k) =>
            Fetched(staging, Concat(lines[..k])[..total], lines[k..])
  }

  /**
   * A download fails exactly when the size is not an integer or the paths
   * cannot be derived, and the size is parsed first: its error wins.
   */
  lemma FetchFailure(root: Path, env: map<Bytes, Bytes>, lines: seq<Bytes>)
    requires DATA in env
    ensures var f := Fetch(root, env, lines);
      && (f.FetchFailed? <==> ParseInt(env[DATA]).Err? || StagedPaths(root, env).Err?)
      && (ParseInt(env[DATA]).Err? ==> f == FetchFailed(ParseInt(env[DATA]).error))
      && (ParseInt(env[DATA]).Ok? && StagedPaths(root, env).Err? ==> f == FetchFailed(StagedPaths(root, env).error))
      && (!f.FetchFailed? ==> StagedPaths(root, env) == Ok(f.staging))
  {
    match ParseInt(env[DATA])
    case Err(_) =>
    case Ok(total) =>
      match StagedPaths(root, env)
      case Err(_) =>
      case Ok(staging) =>
        FetchOf(root, env, lines, total, staging);
  }

  /** The three ways a download with a readable count and valid paths ends. */
  lemma FetchOf(root: Path, env: map<Bytes, Bytes>, lines: seq<Bytes>, total: int, staging: Staging)
    requires DATA in env && ParseInt(env[DATA]) == Ok(total) && StagedPaths(root, env) == Ok(staging)
    ensures total <= 1 ==> Fetch(root, env, lines) == Fetched(staging, [], lines)
    ensures total > 1 && LinesNeeded(total, lines).None? ==> Fetch(root, env, lines) == FetchSpins(staging)
    ensures total > 1 && LinesNeeded(total, lines).Some? ==>
      var k := LinesNeeded(total, lines).value;
      Fetch(root, env, lines) == Fetched(staging, Concat(lines[..k])[..total], lines[k..])
  {
  }

  /**
   * The body is the first `total` bytes of the concatenated lines, however
   * the bytes are split into lines; reading stops at the first line that
   * brings the count to `total`, and only a stream shorter than `total`
   * makes the loop spin.
   */
  lemma FetchBody(root: Path, env: map<Bytes, Bytes>, lines: seq<Bytes>, total: int)
    requires DATA in env && ParseInt(env[DATA]) == Ok(total) && StagedPaths(root, env).Ok?
    ensures total <= 1 ==> Fetch(root, env, lines) == Fetched(StagedPaths(root, env).value, [], lines)
    ensures total > 1 ==> (Fetch(root, env, lines).FetchSpins? <==> |Concat(lines)| < total)
    ensures total > 1 && |Concat(lines)| >= total ==>
      var f := Fetch(root, env, lines);
      var k := |lines| - |f.rest|;
      && f.Fetched? && f.staging == StagedPaths(root, env).value
      && f.body == Concat(lines)[..total]
      && |Concat(lines[..k])| >= total
      && (forall j :: 0 <= j < k ==> |Concat(lines[..j])| < total)
  {
    var staging := StagedPaths(root, env).value;
    if total <= 1 {
      FetchOf(root, env, lines, total, staging);
    } else {
      FetchSpinsExactly(root, env, lines, total);
      if |Concat(lines)| >= total {
        FetchReads(root, env, lines, total);
      }
    }
  }

  lemma FetchSpinsExactly(root: Path, env: map<Bytes, Bytes>, lines: seq<Bytes>, total: int)
    requires DATA in env && ParseInt(env[DATA]) == Ok(total) && StagedPaths(root, env).Ok? && total > 1
    ensures Fetch(root, env, lines).FetchSpins? <==> |Concat(lines)| < total
  {
    FetchOf(root, env, lines, total, StagedPaths(root, env).value);
    match LinesNeeded(total, lines)
    case None =>
    case Some(k) =>
      ConcatPrefix(lines, k);
  }

  lemma FetchReads(root: Path, env: map<Bytes, Bytes>, lines: seq<Bytes>, total: int)
    requires DATA in env && ParseInt(env[DATA]) == Ok(total) && StagedPaths(root, env).Ok?
    requires total > 1 && |Concat(lines)| >= total
    ensures var f := Fetch(root, env, lines);
      var k := |lines| - |f.rest|;
      && f.Fetched? && f.staging == StagedPaths(root, env).value
      && f.body == Concat(lines)[..total]
      && |Concat(lines[..k])| >= total
      && (forall j :: 0 <= j < k ==> |Concat(lines[..j])| < total)
  {
    FetchOf(root, env, lines, total, StagedPaths(root, env).value);
    match LinesNeeded(total, lines)
    case None =>
    case Some(k) =>
      BodyPrefix(lines, k, total);
      assert |lines| - |lines[k..]| == k;
  }

  lemma BodyPrefix(lines: seq<Bytes>, k: nat, total: int)
    requires k <= |lines| && 0 <= total <= |Concat(lines[..k])|
    ensures total <= |Concat(lines)| && Concat(lines[..k])[..total] == Concat(lines)[..total]
  {
    ConcatPrefix(lines, k);
    var c := Concat(lines[..k]);
    assert c[..total] == Concat(lines)[..total];
  }

  /** Two streams with the same bytes stage the same body, whatever their line boundaries. */
  lemma BodyIndependentOfChunking(root: Path, env: map<Bytes, Bytes>, a: seq<Bytes>, b: seq<Bytes>)
    requires DATA in env && Concat(a) == Concat(b)
    requires Fetch(root, env, a).Fetched?
    ensures Fetch(root, env, b).Fetched? && Fetch(root, env, b).body == Fetch(root, env, a).body
  {
    var total := ParseInt(env[DATA]).value;
    FetchBody(root, env, a, total);
    FetchBody(root, env, b, total);
  }

  // ---------------------------------------------------------------------
  // The whole read loop of a connection (rsub.py:71-95).

  /** The part of a session's state that `run` and `_download` change. */
  datatype ReadState = ReadState(
    env: map<Bytes, Bytes>,
    parseDone: bool,
    staging: Option<Staging>, // `local_dir` and `local_path`
    staged: Option<Bytes>)    // the bytes of the file at `local_path`, once renamed there

  const Fresh := ReadState(map[], false, None, None)

  /** How `run` ends: EOF, an exception, or a body loop that never ends. */
  datatype RunEnd = Eof | Raised(error: Error) | Spinning

  datatype Served = Served(state: ReadState, end: RunEnd, rest: seq<Bytes>)

  /** After one pass of the loop: go on from a new state, or `run` has ended. */
  datatype Next = Continue(state: ReadState, rest: seq<Bytes>) | Stop(served: Served)

  /** The lines `r` are what is left of `s` after some of its first lines were read. */
  predicate SuffixOf(r: seq<Bytes>, s: seq<Bytes>)
  {
    |r| <= |s| && r == s[|s| - |r|..]
  }

  /** The state a pass of the loop leaves, whether or not the loop goes on. */
  function StateOf(n: Next): ReadState
  {
    if n.Continue? then n.state else n.served.state
  }

  /** The lines a pass of the loop leaves unread. */
  function RestOf(n: Next): seq<Bytes>
  {
    if n.Continue? then n.rest else n.served.rest
  }

  /** One pass of the loop in `run` on a line that is not EOF. */
  function Advance(root: Path, st: ReadState, lines: seq<Bytes>): (n: Next)
    requires lines != []
    ensures n.Continue? ==> |n.rest| < |lines|
    ensures SuffixOf(RestOf(n), lines)
    ensures st.env.Keys <= StateOf(n).env.Keys
    ensures st.parseDone ==> n == Continue(st, lines[1..])
  {
    if st.parseDone then Continue(st, lines[1..])
    else match HeaderLine(lines[0])
      case Skip => Continue(st, lines[1..])
      case Malformed => Stop(Served(st, Raised(Unpack), lines[1..]))
      case Field(key, value) => Store(root, st, key, value, lines[1..])
  }

  /** A `key: value` header is stored; a `data` header then runs the download on `rest`. */
  function Store(root: Path, st: ReadState, key: Bytes, value: Bytes, rest: seq<Bytes>): (n: Next)
    ensures SuffixOf(RestOf(n), rest)
    ensures StateOf(n).env == st.env[key := value]
    ensures key != DATA ==> n.Continue? && n.rest == rest && n.state.parseDone == st.parseDone
    ensures key == DATA && n.Continue? ==> n.state.parseDone && n.state.staged.Some?
  {
    var st1 := st.(env := st.env[key := value]);
    if key != DATA then Continue(st1, rest)
    else Received(st1, Fetch(root, st1.env, rest), rest)
  }

  /** Where the loop goes once the download `d` on `rest` has ended. */
  function Received(st: ReadState, d: Download, rest: seq<Bytes>): (n: Next)
    requires d.Fetched? ==> SuffixOf(d.rest, rest)
    ensures SuffixOf(RestOf(n), rest)
    ensures StateOf(n).env == st.env
    ensures n.Continue? <==> d.Fetched?
    ensures n.Continue? ==>
      && n.state.parseDone && n.state.staging == Some(d.staging) && n.state.staged == Some(d.body)
      && n.rest == d.rest
    ensures d.FetchFailed? ==> n.served == Served(st, Raised(d.error), rest)
    ensures d.FetchSpins? ==>
      && n.served.end == Spinning && n.served.rest == []
      && n.served.state.parseDone == st.parseDone && n.served.state.staging == Some(d.staging)
  {
    match d
    case FetchFailed(e) => Stop(Served(st, Raised(e), rest))
    case FetchSpins(staging) => Stop(Served(st.(staging := Some(staging)), Spinning, []))
    case Fetched(staging, body, after) =>
      Continue(st.(parseDone := true, staging := Some(staging), staged := Some(body)), after)
  }

  /** `run` from state `st` on the lines `lines` still to be read. */
  function Serve(root: Path, st: ReadState, lines: seq<Bytes>): (r: Served)
    ensures SuffixOf(r.rest, lines)
    ensures r.end.Eof? || r.end.Spinning? ==> r.rest == []
    ensures st.env.Keys <= r.state.env.Keys
    decreases |lines|
  {
    if lines == [] then Served(st, Eof, [])
    else match Advance(root, st, lines)
      case Stop(served) => served
      case Continue(st1, rest) =>
        var r := Serve(root, st1, rest);
        SuffixTransitive(r.rest, rest, lines);
        r
  }

  lemma SuffixTransitive(a: seq<Bytes>, b: seq<Bytes>, c: seq<Bytes>)
    requires SuffixOf(a, b) && SuffixOf(b, c)
    ensures SuffixOf(a, c)
  {
    assert c[|c| - |b|..][|b| - |a|..] == c[|c| - |a|..];
  }

  /** Once parsing is done every further line is read and discarded until EOF. */
  lemma {:induction false} ServeAfterParse(root: Path, st: ReadState, lines: seq<Bytes>)
    requires st.parseDone
    ensures Serve(root, st, lines) == Served(st, Eof, [])
    decreases |lines|
  {
    if lines != [] {
      ServeAfterParse(root, st, lines[1..]);
    }
  }

  /** A bare `open` line changes nothing. */
  lemma ServeOpenLine(root: Path, st: ReadState, line: Bytes, rest: seq<Bytes>)
    requires !st.parseDone && Strip(ByteSpace, line) == OPEN
    ensures Serve(root, st, [line] + rest) == Serve(root, st, rest)
  {
    assert ([line] + rest)[1..] == rest;
  }

  /** A line without ':' ends the read loop with the unpacking error; the state is as it was. */
  lemma ServeMalformedLine(root: Path, st: ReadState, line: Bytes, rest: seq<Bytes>)
    requires !st.parseDone && Strip(ByteSpace, line) != OPEN && ':' !in Strip(TextSpace, line)
    ensures Serve(root, st, [line] + rest) == Served(st, Raised(Unpack), rest)
  {
    assert ([line] + rest)[1..] == rest;
  }

  /** A header other than `data` is stored under its key, replacing an earlier value. */
  lemma ServeHeaderLine(root: Path, st: ReadState, lines: seq<Bytes>, key: Bytes, value: Bytes)
    requires !st.parseDone && lines != [] && HeaderLine(lines[0]) == Field(key, value) && key != DATA
    ensures Serve(root, st, lines) == Serve(root, st.(env := st.env[key := value]), lines[1..])
  {
  }

  /** Of two headers with one key, the later value is the one kept. */
  lemma ServeLastWriteWins(root: Path, st: ReadState, lines: seq<Bytes>, key: Bytes, v1: Bytes, v2: Bytes)
    requires !st.parseDone && key != DATA && |lines| >= 2
    requires HeaderLine(lines[0]) == Field(key, v1) && HeaderLine(lines[1]) == Field(key, v2)
    ensures Serve(root, st, lines) == Serve(root, st.(env := st.env[key := v2]), lines[2..])
  {
    var st1 := st.(env := st.env[key := v1]);
    ServeHeaderLine(root, st, lines, key, v1);
    var tail := lines[1..];
    assert tail[0] == lines[1] && tail[1..] == lines[2..];
    ServeHeaderLine(root, st1, tail, key, v2);
    Overwrite(st, key, v1, v2);
  }

  lemma Overwrite(st: ReadState, key: Bytes, v1: Bytes, v2: Bytes)
    ensures st.(env := st.env[key := v1]).(env := st.env[key := v1][key := v2]) == st.(env := st.env[key := v2])
  {
    assert st.env[key := v1][key := v2] == st.env[key := v2];
  }

  /**
   * A `data` header triggers the download exactly once: after a complete
   * body the session is parsed, holds that body, and nothing that follows
   * changes it again.
   */
  lemma ServeDataLine(root: Path, st: ReadState, line: Bytes, rest: seq<Bytes>)
    requires !st.parseDone && HeaderLine(line).Field? && HeaderLine(line).key == DATA
    requires var env := st.env[DATA := HeaderLine(line).value]; Fetch(root, env, rest).Fetched?
    ensures var env := st.env[DATA := HeaderLine(line).value];
      var f := Fetch(root, env, rest);
      Serve(root, st, [line] + rest)
        == Served(ReadState(env, true, Some(f.staging), Some(f.body)), Eof, [])
  {
    assert ([line] + rest)[1..] == rest;
    var env := st.env[DATA := HeaderLine(line).value];
    var f := Fetch(root, env, rest);
    ServeAfterParse(root, ReadState(env, true, Some(f.staging), Some(f.body)), f.rest);
  }
}

/**
 * The bytes rsub.py writes to the editor-side client (rsub.py:97-116, 170):
 * the greeting, the `close` command and the `save` command with its
 * length-prefixed body. `Decode` is a reading of those bytes in the
 * protocol's own terms (command line, `key: value` header lines, then
 * `data` bytes), built from the same line and header functions the server's
 * parser uses, so that every encoder has an inverse to be checked against.
 */
module Messages {
  import opened Errors
  import opened Bytes
  import opened Envelope

  const TOKEN: Bytes := "token"
  const CLOSE_LINE: Bytes := "close\n"
  const SAVE_LINE: Bytes := "save\n"

  /** The first line sent on every connection (rsub.py:170). */
  function Greeting(version: Bytes): Bytes
  {
    "Sublime Text " + version + " (rsub plugin)\n"
  }

  /** `key: value` and a newline, as both commands send their headers. */
  function HeaderBytes(key: Bytes, value: Bytes): Bytes
  {
    key + ": " + value + "\n"
  }

  /** The three sends of `close` (rsub.py:98-100). */
  function CloseMessage(token: Bytes): Bytes
  {
    CLOSE_LINE + HeaderBytes(TOKEN, token) + "\n"
  }

  /** The five sends of `send_save` (rsub.py:109-116): the length is the decimal byte count. */
  function SaveMessage(token: Bytes, content: Bytes): Bytes
  {
    SAVE_LINE + HeaderBytes(TOKEN, token) + HeaderBytes(DATA, Decimal(|content|)) + content + "\n"
  }

  datatype Command = Close(token: Bytes) | Save(token: Bytes, content: Bytes)

  function Encode(c: Command): Bytes
  {
    match c
    case Close(token) => CloseMessage(token)
    case Save(token, content) => SaveMessage(token, content)
  }

  /** One header line taken off the front of `s`: its key, its value and what follows. */
  function ReadHeader(s: Bytes): Option<(Bytes, Bytes, Bytes)>
  {
    var (line, rest) := TakeLine(s);
    match HeaderLine(line)
    case Field(key, value) => Some((key, value, rest))
    case _ => None
  }

  /** The `count` bytes of a body and the newline that ends it. */
  function ReadBody(count: Bytes, s: Bytes): Option<Bytes>
  {
    match ParseInt(count)
    case Ok(n) => if 0 <= n && n + 1 == |s| && s[n] == NEWLINE then Some(s[..n]) else None
    case Err(_) => None
  }

  /**
   * Reads one command: its line, a `token` header, and for `save` a `data`
   * header whose count of bytes is followed by a single newline; `close`
   * ends with an empty line.
   */
  function Decode(s: Bytes): Option<Command>
  {
    var (cmd, s1) := TakeLine(s);
    match ReadHeader(s1)
    case None => None
    case Some((key, token, s2)) =>
      if key != TOKEN then None
      else if cmd == CLOSE_LINE then
        if s2 == "\n" then Some(Close(token)) else None
      else if cmd == SAVE_LINE then DecodeSaveBody(token, s2)
      else None
  }

  /** What follows the token of a `save`: the `data` header and the body it counts. */
  function DecodeSaveBody(token: Bytes, s: Bytes): Option<Command>
  {
    match ReadHeader(s)
    case None => None
    case Some((key, count, body)) =>
      if key != DATA then None
      else match ReadBody(count, body)
        case None => None
        case Some(content) => Some(Save(token, content))
  }

  // ---------------------------------------------------------------------
  // Header lines read back.

  predicate PlainKey(key: Bytes)
  {
    key != [] && ':' !in key && NEWLINE !in key && !IsSpace(TextSpace, key[0])
  }

  /** What a header line strips to: the key, ':', and the value after its one space. */
  function Spaced(value: Bytes): Bytes
  {
    if value == [] then [] else [' '] + value
  }

  lemma HeaderStrip(cs: Charset, key: Bytes, value: Bytes)
    requires PlainKey(key) && CleanValue(value)
    ensures Strip(cs, HeaderBytes(key, value)) == key + [':'] + Spaced(value)
  {
    var m := key + [':'] + Spaced(value);
    var b: Bytes := if value == [] then " \n" else "\n";
    HeaderLayout(key, value, m, b);
    HeaderStripped(key, value, m);
    TextStrippedIsByteStripped(m);
    assert AllSpace(cs, b);
    StripOf(cs, [], m, b);
  }

  lemma HeaderLayout(key: Bytes, value: Bytes, m: Bytes, b: Bytes)
    requires m == key + [':'] + Spaced(value) && b == if value == [] then " \n" else "\n"
    ensures HeaderBytes(key, value) == [] + m + b
  {
  }

  lemma HeaderStripped(key: Bytes, value: Bytes, m: Bytes)
    requires PlainKey(key) && CleanValue(value) && m == key + [':'] + Spaced(value)
    ensures IsStripped(TextSpace, m)
  {
    assert m[0] == key[0];
  }

  lemma NotOpen(key: Bytes, after: Bytes)
    ensures key + [':'] + after != OPEN
  {
    var m := key + [':'] + after;
    assert m[|key|] == ':';
    assert ':' !in OPEN;
  }

  lemma HeaderOfStripped(line: Bytes, key: Bytes, after: Bytes)
    requires ':' !in key
    requires Strip(ByteSpace, line) != OPEN
    requires Strip(TextSpace, line) == key + [':'] + after
    ensures HeaderLine(line) == Field(key, Strip(TextSpace, after))
  {
    SplitFirstOf(key, ':', after);
  }

  lemma StripSpaced(value: Bytes)
    requires CleanValue(value)
    ensures Strip(TextSpace, Spaced(value)) == value
  {
    if value != [] {
      assert Spaced(value) == [' '] + value + [];
      StripOf(TextSpace, [' '], value, []);
    }
  }

  /** Each header line the server sends is read back as its key and value. */
  lemma HeaderBytesRead(key: Bytes, value: Bytes)
    requires PlainKey(key) && CleanValue(value)
    ensures HeaderLine(HeaderBytes(key, value)) == Field(key, value)
  {
    var line := HeaderBytes(key, value);
    HeaderStrip(ByteSpace, key, value);
    HeaderStrip(TextSpace, key, value);
    NotOpen(key, Spaced(value));
    HeaderOfStripped(line, key, Spaced(value));
    StripSpaced(value);
  }

  lemma TokenIsPlain()
    ensures PlainKey(TOKEN) && PlainKey(DATA)
  {
  }

  /** A decimal count is a clean header value. */
  lemma DecimalIsClean(n: nat)
    ensures CleanValue(Decimal(n))
  {
    var d := Decimal(n);
    assert IsDigit(d[0]) && IsDigit(d[|d| - 1]);
    assert NEWLINE !in d by {
      forall k | 0 <= k < |d| ensures d[k] != NEWLINE {
        assert IsDigit(d[k]);
      }
    }
  }

  lemma ReadHeaderOf(key: Bytes, value: Bytes, rest: Bytes)
    requires PlainKey(key) && CleanValue(value)
    ensures ReadHeader(HeaderBytes(key, value) + rest) == Some((key, value, rest))
  {
    var l := key + ": " + value;
    assert NEWLINE !in l by {
      forall k | 0 <= k < |l| ensures l[k] != NEWLINE {
        if k < |key| { assert l[k] == key[k]; }
        else if k >= |key| + 2 { assert l[k] == value[k - |key| - 2]; }
      }
    }
    assert HeaderBytes(key, value) + rest == l + [NEWLINE] + rest;
    TakeLineOf(l, rest);
    HeaderBytesRead(key, value);
  }

  lemma CommandLineOf(cmd: Bytes, rest: Bytes)
    requires cmd == CLOSE_LINE || cmd == SAVE_LINE
    ensures TakeLine(cmd + rest) == (cmd, rest)
  {
    var l: Bytes := if cmd == CLOSE_LINE then "close" else "save";
    assert cmd == l + [NEWLINE];
    assert NEWLINE !in l;
    assert cmd + rest == l + [NEWLINE] + rest;
    TakeLineOf(l, rest);
  }

  lemma DecodeClose(s: Bytes, s1: Bytes, token: Bytes)
    requires TakeLine(s) == (CLOSE_LINE, s1) && ReadHeader(s1) == Some((TOKEN, token, "\n"))
    ensures Decode(s) == Some(Close(token))
  {
  }

  lemma DecodeSave(s: Bytes, s1: Bytes, s2: Bytes, token: Bytes)
    requires TakeLine(s) == (SAVE_LINE, s1) && ReadHeader(s1) == Some((TOKEN, token, s2))
    ensures Decode(s) == DecodeSaveBody(token, s2)
  {
    assert SAVE_LINE != CLOSE_LINE;
  }

  lemma SaveBodyOf(token: Bytes, s: Bytes, count: Bytes, body: Bytes, content: Bytes)
    requires ReadHeader(s) == Some((DATA, count, body)) && ReadBody(count, body) == Some(content)
    ensures DecodeSaveBody(token, s) == Some(Save(token, content))
  {
  }

  lemma ReadBodyOf(content: Bytes)
    ensures ReadBody(Decimal(|content|), content + "\n") == Some(content)
  {
    ParseIntDecimal(|content|);
    var body := content + "\n";
    assert body[..|content|] == content;
  }

  // ---------------------------------------------------------------------
  // Round trips.

  /**
   * `close` for a token as the parser stores it reads back as that token;
   * the exact bytes are the command line, the token header and an empty line.
   */
  lemma CloseRoundTrip(token: Bytes)
    requires CleanValue(token)
    ensures Decode(CloseMessage(token)) == Some(Close(token))
  {
    TokenIsPlain();
    var s := CloseMessage(token);
    var rest := HeaderBytes(TOKEN, token) + "\n";
    assert s == CLOSE_LINE + rest;
    CommandLineOf(CLOSE_LINE, rest);
    ReadHeaderOf(TOKEN, token, "\n");
    DecodeClose(s, rest, token);
  }

  /**
   * `save` reads back as the token and exactly the content that was sent,
   * whatever bytes (newlines included) the content holds.
   */
  lemma SaveRoundTrip(token: Bytes, content: Bytes)
    requires CleanValue(token)
    ensures Decode(SaveMessage(token, content)) == Some(Save(token, content))
  {
    var n := Decimal(|content|);
    var body := content + "\n";
    var s2 := HeaderBytes(DATA, n) + body;
    SaveHead(token, s2, SaveMessage(token, content));
    SaveTail(token, content, n, body, s2);
  }

  /** The `save` line and the token header lead to the rest of the message. */
  lemma SaveHead(token: Bytes, s2: Bytes, s: Bytes)
    requires CleanValue(token) && s == SAVE_LINE + HeaderBytes(TOKEN, token) + s2
    ensures Decode(s) == DecodeSaveBody(token, s2)
  {
    TokenIsPlain();
    var s1 := HeaderBytes(TOKEN, token) + s2;
    assert s == SAVE_LINE + s1;
    CommandLineOf(SAVE_LINE, s1);
    ReadHeaderOf(TOKEN, token, s2);
    DecodeSave(s, s1, s2, token);
  }

  /** The `data` header and the counted body read back as the content. */
  lemma SaveTail(token: Bytes, content: Bytes, n: Bytes, body: Bytes, s2: Bytes)
    requires n == Decimal(|content|) && body == content + "\n" && s2 == HeaderBytes(DATA, n) + body
    ensures DecodeSaveBody(token, s2) == Some(Save(token, content))
  {
    TokenIsPlain();
    DecimalIsClean(|content|);
    ReadHeaderOf(DATA, n, body);
    ReadBodyOf(content);
    SaveBodyOf(token, s2, n, body, content);
  }

  /** Every command the server sends for a clean token is read back as itself. */
  lemma DecodeEncode(c: Command)
    requires CleanValue(c.token)
    ensures Decode(Encode(c)) == Some(c)
  {
    match c
    case Close(token) => CloseRoundTrip(token);
    case Save(token, content) => SaveRoundTrip(token, content);
  }

  /** Different commands are sent as different bytes. */
  lemma EncodeInjective(c: Command, d: Command)
    requires CleanValue(c.token) && CleanValue(d.token) && Encode(c) == Encode(d)
    ensures c == d
  {
    DecodeEncode(c);
    DecodeEncode(d);
  }

  /** `close` is read by the peer as three lines: the command, the token header and an empty line. */
  lemma CloseMessageLines(token: Bytes)
    requires NEWLINE !in token
    ensures Lines(CloseMessage(token)) == [CLOSE_LINE, HeaderBytes(TOKEN, token), "\n"]
  {
    var h := HeaderBytes(TOKEN, token);
    HeaderIsLine(TOKEN, token);
    CommandLinesAreLines();
    assert CloseMessage(token) == CLOSE_LINE + h + "\n" + [];
    HeadLinesOf(CLOSE_LINE, h, "\n", []);
    assert Lines([]) == [];
  }

  /**
   * `save` is read by the peer as the command, the token header and the
   * `data` header with the decimal length, followed by lines that spell the
   * content and a final newline.
   */
  lemma SaveMessageLines(token: Bytes, content: Bytes)
    requires NEWLINE !in token
    ensures var ls := Lines(SaveMessage(token, content));
      && |ls| >= 3
      && ls[..3] == [SAVE_LINE, HeaderBytes(TOKEN, token), HeaderBytes(DATA, Decimal(|content|))]
      && Concat(ls[3..]) == content + "\n"
  {
    var n := Decimal(|content|);
    DecimalIsClean(|content|);
    var h1 := HeaderBytes(TOKEN, token);
    var h2 := HeaderBytes(DATA, n);
    HeaderIsLine(TOKEN, token);
    HeaderIsLine(DATA, n);
    CommandLinesAreLines();
    assert SaveMessage(token, content) == SAVE_LINE + h1 + h2 + (content + "\n");
    HeadLines(SAVE_LINE, h1, h2, content + "\n");
  }

  lemma CommandLinesAreLines()
    ensures |SAVE_LINE| > 0 && SAVE_LINE[|SAVE_LINE| - 1] == NEWLINE && NEWLINE !in SAVE_LINE[..|SAVE_LINE| - 1]
    ensures |CLOSE_LINE| > 0 && CLOSE_LINE[|CLOSE_LINE| - 1] == NEWLINE && NEWLINE !in CLOSE_LINE[..|CLOSE_LINE| - 1]
    ensures var e: Bytes := "\n"; |e| > 0 && e[|e| - 1] == NEWLINE && NEWLINE !in e[..|e| - 1]
  {
    assert SAVE_LINE[..|SAVE_LINE| - 1] == "save";
    assert CLOSE_LINE[..|CLOSE_LINE| - 1] == "close";
  }

  lemma HeaderIsLine(key: Bytes, value: Bytes)
    requires NEWLINE !in key && NEWLINE !in value
    ensures var h := HeaderBytes(key, value);
      |h| > 0 && h[|h| - 1] == NEWLINE && NEWLINE !in h[..|h| - 1]
  {
    var h := HeaderBytes(key, value);
    assert h[..|h| - 1] == key + ": " + value;
  }

  /** Three header lines, then a body: the lines read are the three, then the body's lines. */
  lemma HeadLines(cmd: Bytes, h1: Bytes, h2: Bytes, body: Bytes)
    requires |cmd| > 0 && cmd[|cmd| - 1] == NEWLINE && NEWLINE !in cmd[..|cmd| - 1]
    requires |h1| > 0 && h1[|h1| - 1] == NEWLINE && NEWLINE !in h1[..|h1| - 1]
    requires |h2| > 0 && h2[|h2| - 1] == NEWLINE && NEWLINE !in h2[..|h2| - 1]
    ensures var ls := Lines(cmd + h1 + h2 + body);
      && |ls| >= 3 && ls[..3] == [cmd, h1, h2] && Concat(ls[3..]) == body
  {
    HeadLinesOf(cmd, h1, h2, body);
    SplitThree(Lines(cmd + h1 + h2 + body), cmd, h1, h2, Lines(body));
  }

  lemma HeadLinesOf(cmd: Bytes, h1: Bytes, h2: Bytes, body: Bytes)
    requires |cmd| > 0 && cmd[|cmd| - 1] == NEWLINE && NEWLINE !in cmd[..|cmd| - 1]
    requires |h1| > 0 && h1[|h1| - 1] == NEWLINE && NEWLINE !in h1[..|h1| - 1]
    requires |h2| > 0 && h2[|h2| - 1] == NEWLINE && NEWLINE !in h2[..|h2| - 1]
    ensures Lines(cmd + h1 + h2 + body) == [cmd, h1, h2] + Lines(body)
  {
    var t2 := h2 + body;
    var t1 := h1 + t2;
    assert cmd + h1 + h2 + body == cmd + t1;
    OneLine(h2, body);
    OneLine(h1, t2);
    OneLine(cmd, t1);
    ConsThree(Lines(cmd + t1), Lines(t1), Lines(t2), Lines(body), cmd, h1, h2);
  }

  lemma ConsThree(l0: seq<Bytes>, l1: seq<Bytes>, l2: seq<Bytes>, l3: seq<Bytes>, a: Bytes, b: Bytes, c: Bytes)
    requires l0 == [a] + l1 && l1 == [b] + l2 && l2 == [c] + l3
    ensures l0 == [a, b, c] + l3
  {
  }

  lemma SplitThree(ls: seq<Bytes>, a: Bytes, b: Bytes, c: Bytes, rest: seq<Bytes>)
    requires ls == [a, b, c] + rest
    ensures |ls| >= 3 && ls[..3] == [a, b, c] && ls[3..] == rest
  {
  }

  lemma OneLine(l: Bytes, rest: Bytes)
    requires |l| > 0 && l[|l| - 1] == NEWLINE && NEWLINE !in l[..|l| - 1]
    ensures Lines(l + rest) == [l] + Lines(rest)
  {
    var init := l[..|l| - 1];
    assert l == init + [NEWLINE];
    assert l + rest == init + [NEWLINE] + rest;
    LinesOf(init, rest);
  }

  /** The greeting ends in a newline, and is a single line exactly when the version has no newline. */
  lemma GreetingIsLine(version: Bytes)
    ensures var g := Greeting(version); |g| > 0 && g[|g| - 1] == NEWLINE
    ensures IsLine(Greeting(version)) <==> NEWLINE !in version
  {
    var text := "Sublime Text " + version + " (rsub plugin)";
    assert NEWLINE !in "Sublime Text " && NEWLINE !in " (rsub plugin)";
    assert Greeting(version) == text + "\n";
    assert (text + "\n")[..|text|] == text;
  }

  /** For a version without newlines the greeting is exactly one line of the stream. */
  lemma GreetingIsOneLine(version: Bytes, rest: Bytes)
    requires NEWLINE !in version
    ensures TakeLine(Greeting(version) + rest) == (Greeting(version), rest)
  {
    var pre: Bytes := "Sublime Text ";
    var post: Bytes := " (rsub plugin)";
    var g := pre + version + post;
    assert NEWLINE !in pre && NEWLINE !in post;
    assert NEWLINE !in g by {
      forall k | 0 <= k < |g| ensures g[k] != NEWLINE {
        if k < |pre| { assert g[k] == pre[k]; }
        else if k < |pre| + |version| { assert g[k] == version[k - |pre|]; }
        else { assert g[k] == post[k - |pre| - |version|]; }
      }
    }
    assert Greeting(version) == g + [NEWLINE];
    assert Greeting(version) + rest == g + [NEWLINE] + rest;
    TakeLineOf(g, rest);
  }
}

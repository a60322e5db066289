/**
 * The byte-string operations rsub.py relies on: `readline` on the socket
 * file, `strip`, `lstrip`, `split(":", 1)`, `int(...)` and `str(n)`.
 *
 * A byte is a character below U+0100, so that the protocol's literals can be
 * written as Dafny string literals. Decoded text (`line.decode("utf8")`) is
 * represented by its UTF-8 bytes, so decoding is the identity here.
 */
module Bytes {
  import opened Errors

  type byte = c: char | c as int < 256
  type Bytes = seq<byte>

  const NEWLINE: byte := '\n'

  /** Concatenation of a sequence of chunks, as written to a file one after another. */
  function Concat(chunks: seq<Bytes>): (r: Bytes)
    ensures chunks != [] ==> chunks[0] <= r
    ensures chunks == [] ==> r == []
  {
    if chunks == [] then [] else chunks[0] + Concat(chunks[1..])
  }

  lemma {:induction false} ConcatSnoc(chunks: seq<Bytes>, c: Bytes)
    ensures Concat(chunks + [c]) == Concat(chunks) + c
  {
    if chunks == [] {
      assert chunks + [c] == [c];
    } else {
      assert (chunks + [c])[1..] == chunks[1..] + [c];
      ConcatSnoc(chunks[1..], c);
    }
  }

  lemma {:induction false} ConcatPrefix(chunks: seq<Bytes>, k: nat)
    requires k <= |chunks|
    ensures |Concat(chunks[..k])| <= |Concat(chunks)|
    ensures Concat(chunks[..k]) == Concat(chunks)[..|Concat(chunks[..k])|]
  {
    if k > 0 {
      assert chunks[..k][1..] == chunks[1..][..k - 1];
      ConcatPrefix(chunks[1..], k - 1);
    }
  }

  // ---------------------------------------------------------------------
  // Splitting at the first separator: `s.split(sep, 1)` unpacked into two.

  function SplitFirst(s: Bytes, sep: byte): (r: Option<(Bytes, Bytes)>)
    ensures r.None? <==> sep !in s
    ensures r.Some? ==> s == r.value.0 + [sep] + r.value.1 && sep !in r.value.0
  {
    if s == [] then None
    else if s[0] == sep then Some(([], s[1..]))
    else match SplitFirst(s[1..], sep)
      case None => None
      case Some((before, after)) => Some(([s[0]] + before, after))
  }

  /** The pieces around a separator, as slices. */
  lemma Separated(s: Bytes, before: Bytes, sep: byte, after: Bytes)
    requires s == before + [sep] + after
    ensures |before| < |s| && s[..|before|] == before && s[|before|] == sep && s[|before| + 1..] == after
  {
  }

  /** Splitting text that has exactly one separator at a known place gives back the two parts. */
  lemma {:induction false} SplitFirstOf(before: Bytes, sep: byte, after: Bytes)
    requires sep !in before
    ensures SplitFirst(before + [sep] + after, sep) == Some((before, after))
  {
    if before == [] {
      assert before + [sep] + after == [sep] + after;
      assert ([sep] + after)[1..] == after;
    } else {
      assert (before + [sep] + after)[1..] == before[1..] + [sep] + after;
      SplitFirstOf(before[1..], sep, after);
      assert [before[0]] + before[1..] == before;
    }
  }

  // ---------------------------------------------------------------------
  // Lines: what `sockfile.readline()` returns on a binary socket file.

  /** A line as `readline` returns it: not empty, and a newline only at its end. */
  predicate IsLine(l: Bytes)
  {
    |l| > 0 && NEWLINE !in l[..|l| - 1]
  }

  predicate AllLines(lines: seq<Bytes>)
  {
    forall i :: 0 <= i < |lines| ==> IsLine(lines[i])
  }

  /** One `readline` on stream `s`: the line and what is left behind it. */
  function TakeLine(s: Bytes): (r: (Bytes, Bytes))
    ensures r.0 + r.1 == s
    ensures s != [] ==> IsLine(r.0)
    ensures NEWLINE in s ==> r.0[|r.0| - 1] == NEWLINE
    ensures NEWLINE !in s ==> r.1 == []
  {
    match SplitFirst(s, NEWLINE)
    case None => (s, [])
    case Some((line, rest)) => (line + [NEWLINE], rest)
  }

  lemma TakeLineOf(l: Bytes, rest: Bytes)
    requires NEWLINE !in l
    ensures TakeLine(l + [NEWLINE] + rest) == (l + [NEWLINE], rest)
  {
    SplitFirstOf(l, NEWLINE, rest);
  }

  /** The successive results of `readline` until it returns the empty string at EOF. */
  function Lines(s: Bytes): (r: seq<Bytes>)
    ensures Concat(r) == s
    ensures AllLines(r)
    ensures forall i :: 0 <= i < |r| - 1 ==> r[i][|r[i]| - 1] == NEWLINE
    decreases |s|
  {
    if s == [] then []
    else
      var (line, rest) := TakeLine(s);
      [line] + Lines(rest)
  }

  /** A line ending in a newline is the first of the lines `readline` returns. */
  lemma LinesOf(l: Bytes, rest: Bytes)
    requires NEWLINE !in l
    ensures Lines(l + [NEWLINE] + rest) == [l + [NEWLINE]] + Lines(rest)
  {
    TakeLineOf(l, rest);
  }

  // ---------------------------------------------------------------------
  // Whitespace stripping.

  /**
   * Which characters `strip()` removes: `bytes.strip()` removes ASCII
   * whitespace (tab, LF, VT, FF, CR and space); `str.strip()` removes Unicode
   * whitespace, of which the ASCII part is the same set plus the four
   * separators U+001C to U+001F.
   */
  datatype Charset = ByteSpace | TextSpace

  predicate IsSpace(cs: Charset, c: byte)
  {
    var k := c as int;
    k == 32 || 9 <= k <= 13 || (cs == TextSpace && 28 <= k <= 31)
  }

  predicate AllSpace(cs: Charset, s: Bytes)
  {
    forall k :: 0 <= k < |s| ==> IsSpace(cs, s[k])
  }

  predicate IsStripped(cs: Charset, s: Bytes)
  {
    s == [] || (!IsSpace(cs, s[0]) && !IsSpace(cs, s[|s| - 1]))
  }

  /** The first index at or after `i` that does not hold whitespace, or |s|. */
  function SkipSpace(cs: Charset, s: Bytes, i: nat): (n: nat)
    requires i <= |s|
    ensures i <= n <= |s|
    ensures forall k :: i <= k < n ==> IsSpace(cs, s[k])
    ensures n < |s| ==> !IsSpace(cs, s[n])
    decreases |s| - i
  {
    if i < |s| && IsSpace(cs, s[i]) then SkipSpace(cs, s, i + 1) else i
  }

  /** Scanning back from `hi` towards `lo`: the index just past the last byte that is not whitespace, or `lo`. */
  function SkipSpaceBack(cs: Charset, s: Bytes, lo: nat, hi: nat): (n: nat)
    requires lo <= hi <= |s|
    ensures lo <= n <= hi
    ensures forall k :: n <= k < hi ==> IsSpace(cs, s[k])
    ensures n > lo ==> !IsSpace(cs, s[n - 1])
    decreases hi
  {
    if lo < hi && IsSpace(cs, s[hi - 1]) then SkipSpaceBack(cs, s, lo, hi - 1) else hi
  }

  /**
   * `s.strip()`: the result is stripped, it is the slice of `s` that starts
   * after the leading whitespace, and all that surrounds it is whitespace.
   */
  function Strip(cs: Charset, s: Bytes): (r: Bytes)
    ensures IsStripped(cs, r)
    ensures var i := SkipSpace(cs, s, 0);
      && i + |r| <= |s| && (forall k :: 0 <= k < |r| ==> r[k] == s[i + k])
      && AllSpace(cs, s[..i]) && AllSpace(cs, s[i + |r|..])
  {
    var i := SkipSpace(cs, s, 0);
    var j := SkipSpaceBack(cs, s, i, |s|);
    s[i..j]
  }

  lemma {:induction false} SkipSpaceOf(cs: Charset, s: Bytes, i: nat, n: nat)
    requires i <= n <= |s| && (forall k :: i <= k < n ==> IsSpace(cs, s[k]))
    requires n < |s| ==> !IsSpace(cs, s[n])
    ensures SkipSpace(cs, s, i) == n
    decreases n - i
  {
    if i < n {
      SkipSpaceOf(cs, s, i + 1, n);
    }
  }

  lemma {:induction false} SkipSpaceBackOf(cs: Charset, s: Bytes, lo: nat, hi: nat, n: nat)
    requires lo <= n <= hi <= |s| && (forall k :: n <= k < hi ==> IsSpace(cs, s[k]))
    requires n > lo ==> !IsSpace(cs, s[n - 1])
    ensures SkipSpaceBack(cs, s, lo, hi) == n
    decreases hi
  {
    if n < hi {
      SkipSpaceBackOf(cs, s, lo, hi - 1, n);
    }
  }

  /** Stripping is determined by its result: spaces around a stripped middle are all it removes. */
  lemma StripOf(cs: Charset, a: Bytes, m: Bytes, b: Bytes)
    requires AllSpace(cs, a) && AllSpace(cs, b) && IsStripped(cs, m)
    ensures Strip(cs, a + m + b) == m
  {
    var s := a + m + b;
    if m == [] {
      forall k | 0 <= k < |s| ensures IsSpace(cs, s[k]) {
        if k < |a| { assert s[k] == a[k]; } else { assert s[k] == b[k - |a|]; }
      }
      SkipSpaceOf(cs, s, 0, |s|);
    } else {
      var e := |a| + |m|;
      forall k | 0 <= k < |a| ensures IsSpace(cs, s[k]) {
        assert s[k] == a[k];
      }
      assert s[|a|] == m[0];
      SkipSpaceOf(cs, s, 0, |a|);
      forall k | e <= k < |s| ensures IsSpace(cs, s[k]) {
        assert s[k] == b[k - e];
      }
      assert s[e - 1] == m[|m| - 1];
      SkipSpaceBackOf(cs, s, |a|, |s|, e);
      assert s[|a|..e] == m;
    }
  }

  lemma StripIdempotent(cs: Charset, s: Bytes)
    ensures Strip(cs, Strip(cs, s)) == Strip(cs, s)
  {
    var r := Strip(cs, s);
    assert [] + r + [] == r;
    StripOf(cs, [], r, []);
  }

  /** Text whitespace includes byte whitespace, so text-stripped is byte-stripped. */
  lemma TextStrippedIsByteStripped(s: Bytes)
    requires IsStripped(TextSpace, s)
    ensures IsStripped(ByteSpace, s)
  {
  }

  /** `s.lstrip(c)`: drop every leading `c`. */
  function LStrip(s: Bytes, c: byte): (r: Bytes)
    ensures |r| <= |s| && r == s[|s| - |r|..]
    ensures forall k :: 0 <= k < |s| - |r| ==> s[k] == c
    ensures r == [] || r[0] != c
  {
    if s != [] && s[0] == c then LStrip(s[1..], c) else s
  }

  // ---------------------------------------------------------------------
  // Decimal numbers: `str(n)` for a length and `int(s)` for the `data` header.

  predicate IsDigit(c: byte)
  {
    '0' <= c <= '9'
  }

  function DigitValue(c: byte): nat
    requires IsDigit(c)
  {
    c as int - '0' as int
  }

  function DigitChar(d: nat): (c: byte)
    requires d < 10
    ensures IsDigit(c) && DigitValue(c) == d
  {
    ('0' as int + d) as char
  }

  /** `str(n)` for a non-negative `n`: decimal digits, no sign, no leading zero. */
  function Decimal(n: nat): (r: Bytes)
    ensures |r| > 0 && (forall k :: 0 <= k < |r| ==> IsDigit(r[k]))
    ensures |r| > 1 ==> r[0] != '0'
  {
    if n < 10 then [DigitChar(n)] else Decimal(n / 10) + [DigitChar(n % 10)]
  }

  /**
   * The digit part of a Python integer literal as `int()` accepts it:
   * at least one digit, and single underscores allowed between digits.
   */
  predicate WellFormedDigits(s: Bytes)
  {
    && DigitsOrUnderscores(s)
    && |s| > 0
    && IsDigit(s[0])
    && IsDigit(s[|s| - 1])
    && forall k :: 0 <= k < |s| ==> IsDigit(s[k]) || (s[k] == '_' && k + 1 < |s| && IsDigit(s[k + 1]))
  }

  predicate DigitsOrUnderscores(s: Bytes)
  {
    forall k :: 0 <= k < |s| ==> IsDigit(s[k]) || s[k] == '_'
  }

  /** The value of a digit string, ignoring its underscores. */
  function DigitsValue(s: Bytes): nat
    requires DigitsOrUnderscores(s)
  {
    if s == [] then 0
    else
      var init := s[..|s| - 1];
      assert forall k :: 0 <= k < |init| ==> init[k] == s[k];
      if s[|s| - 1] == '_' then DigitsValue(init)
      else DigitsValue(init) * 10 + DigitValue(s[|s| - 1])
  }

  /** `int(s)` on an already stripped string: an optional sign, then digits. */
  function ParseInt(s: Bytes): (r: Result<int>)
    ensures s == [] ==> r == Err(NotAnInteger)
    ensures r.Ok? <==>
      || WellFormedDigits(s)
      || (|s| > 0 && (s[0] == '+' || s[0] == '-') && WellFormedDigits(s[1..]))
    ensures r.Err? ==> r == Err(NotAnInteger)
    ensures r.Ok? ==> IsDigit(s[|s| - 1])
    ensures r.Ok? && s[0] != '-' ==> r.value >= 0
  {
    if |s| > 0 && (s[0] == '+' || s[0] == '-') then
      var digits := s[1..];
      if WellFormedDigits(digits) then
        var v: int := DigitsValue(digits);
        Ok(if s[0] == '-' then -v else v)
      else Err(NotAnInteger)
    else if WellFormedDigits(s) then Ok(DigitsValue(s))
    else Err(NotAnInteger)
  }

  /** A leading `-` negates the value of the digits after it, and a leading `+` keeps it. */
  lemma ParseIntSign(digits: Bytes)
    requires WellFormedDigits(digits)
    ensures ParseInt(digits) == Ok(DigitsValue(digits) as int)
    ensures ParseInt("-" + digits) == Ok(-(DigitsValue(digits) as int))
    ensures ParseInt("+" + digits) == ParseInt(digits)
  {
    assert ("-" + digits)[1..] == digits;
    assert ("+" + digits)[1..] == digits;
  }

  lemma {:induction false} DigitsValueOfDecimal(n: nat)
    ensures DigitsValue(Decimal(n)) == n
  {
    if n >= 10 {
      var d := Decimal(n);
      assert d[..|d| - 1] == Decimal(n / 10);
      DigitsValueOfDecimal(n / 10);
    }
  }

  /** `int(str(n)) == n`: what `send_save` writes as the length, the `data` parser reads back. */
  lemma ParseIntDecimal(n: nat)
    ensures ParseInt(Decimal(n)) == Ok(n)
  {
    DigitsValueOfDecimal(n);
  }
}

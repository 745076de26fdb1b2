/** Token files: how libtokencap writes a captured token, how afl-fuzz reads a file of
    tokens, and that the second undoes the first. */
module DictionaryFile {
  import opened ByteStrings
  import opened Config

  const QUOTE: Byte := 34
  const HASH: Byte := 35
  const EQUALS: Byte := 61
  const AT: Byte := 64
  const BACKSLASH: Byte := 92
  const UNDERSCORE: Byte := 95
  const LETTER_X: Byte := 120
  const NEWLINE: Byte := 10

  const MAX_LINE := 8192

  // ----- C strings and character classes

  /** The bytes before the first NUL. */
  function CString(s: Bytes): (r: Bytes)
    ensures |r| <= |s| && r == s[..|r|] && 0 !in r
    ensures |r| < |s| ==> s[|r|] == 0
  {
    if s == [] || s[0] == 0 then [] else [s[0]] + CString(s[1..])
  }

  predicate IsSpace(b: Byte) { 9 <= b <= 13 || b == 32 }

  predicate IsDigit(b: Byte) { 48 <= b <= 57 }

  predicate IsAlnum(b: Byte) { IsDigit(b) || 65 <= b <= 90 || 97 <= b <= 122 }

  predicate IsXdigit(b: Byte) { IsDigit(b) || 65 <= b <= 70 || 97 <= b <= 102 }

  function HexDigit(n: nat): Byte
    requires n < 16
  {
    if n < 10 then 48 + n else 87 + n
  }

  function HexValue(b: Byte): (n: nat)
    requires IsXdigit(b)
    ensures n < 16
  {
    if b <= 57 then b - 48 else if b <= 70 then b - 55 else b - 87
  }

  // ----- writing

  /** What is kept of a captured token: text ends at its first NUL. */
  function TokenText(ptr: Bytes, isText: bool): Bytes {
    if isText then CString(ptr) else ptr
  }

  function EscapedByte(b: Byte): (r: Bytes)
    ensures |r| == 1 || |r| == 4
  {
    if b < 32 || 127 <= b || b == QUOTE || b == BACKSLASH then [BACKSLASH, LETTER_X, HexDigit(b / 16), HexDigit(b % 16)]
    else [b]
  }

  function Escaped(t: Bytes): (r: Bytes)
    ensures |t| <= |r| <= 4 * |t|
  {
    if t == [] then [] else Escaped(t[..|t| - 1]) + EscapedByte(t[|t| - 1])
  }

  function Line(t: Bytes): Bytes {
    [QUOTE] + Escaped(t) + [QUOTE, NEWLINE]
  }

  predicate Dumpable(ptr: Bytes) { 3 <= |ptr| <= 32 }

  /** The tokens that a run of captures leaves in the file. */
  function Captured(calls: seq<(Bytes, bool)>): (tokens: seq<Bytes>)
    ensures forall t :: t in tokens ==> |t| <= 32
  {
    if calls == [] then []
    else
      var (ptr, isText) := calls[|calls| - 1];
      Captured(calls[..|calls| - 1]) + if Dumpable(ptr) then [TokenText(ptr, isText)] else []
  }

  function Lines(tokens: seq<Bytes>): Bytes {
    if tokens == [] then [] else Line(tokens[0]) + Lines(tokens[1..])
  }

  // ----- reading

  datatype Error = MalformedEnd | MalformedStart | EmptyKeyword | NonPrintable | BadEscape | TooBig

  datatype Text = Text(bytes: Bytes) | Bad(error: Error)

  datatype LineResult = Skipped | Token(bytes: Bytes) | Fatal(error: Error)

  datatype FileResult = Loaded(tokens: seq<Bytes>) | Failed(error: Error, line: nat)

  function After(out: Bytes, rest: Text): Text {
    if rest.Bad? then rest else Text(out + rest.bytes)
  }

  /** The byte that s starts with and how many characters stand for it. */
  datatype Lead = Lead(byte: Byte, length: nat) | NoLead(error: Error)

  function FirstByte(s: Bytes): (l: Lead)
    requires s != []
    ensures l.Lead? ==> 0 < l.length <= |s|
  {
    if s[0] < 32 || 128 <= s[0] then NoLead(NonPrintable)
    else if s[0] != BACKSLASH then Lead(s[0], 1)
    else if |s| >= 2 && (s[1] == BACKSLASH || s[1] == QUOTE) then Lead(s[1], 2)
    else if |s| < 4 || s[1] != LETTER_X || !IsXdigit(s[2]) || !IsXdigit(s[3]) then NoLead(BadEscape)
    else Lead(16 * HexValue(s[2]) + HexValue(s[3]), 4)
  }

  function Unescaped(s: Bytes): Text {
    if s == [] then Text([])
    else
      match FirstByte(s)
      case NoLead(e) => Bad(e)
      case Lead(b, n) => After([b], Unescaped(s[n..]))
  }

  /** What is left of s when a longest prefix of bytes in p is dropped. */
  function DropWhile(p: Byte -> bool, s: Bytes): (r: Bytes)
    ensures |r| <= |s|
  {
    if s != [] && p(s[0]) then DropWhile(p, s[1..]) else s
  }

  function TrimRight(s: Bytes): (r: Bytes)
    ensures |r| <= |s|
  {
    if s != [] && IsSpace(s[|s| - 1]) then TrimRight(s[..|s| - 1]) else s
  }

  function DigitsValue(s: Bytes, acc: nat): nat {
    if s == [] || !IsDigit(s[0]) then acc else DigitsValue(s[1..], 10 * acc + s[0] - 48)
  }

  /** atoi, for numbers that fit. */
  function Atoi(s: Bytes): int {
    var t := DropWhile(IsSpace, s);
    if t != [] && t[0] == 45 then -(DigitsValue(t[1..], 0) as int)
    else if t != [] && t[0] == 43 then DigitsValue(t[1..], 0)
    else DigitsValue(t, 0)
  }

  /** The number after @ is compared as an unsigned one. */
  predicate AboveLevel(s: Bytes, level: nat) {
    Atoi(s) % 0x1_0000_0000 > level
  }

  function Quoted(s: Bytes): LineResult {
    if s == [] || s[0] != QUOTE then Fatal(MalformedStart)
    else if s[1..] == [] then Fatal(EmptyKeyword)
    else
      match Unescaped(s[1..])
      case Bad(e) => Fatal(e)
      case Text(bytes) => if |bytes| > MAX_DICT_FILE then Fatal(TooBig) else Token(bytes)
  }

  predicate InLabel(b: Byte) { IsAlnum(b) || b == UNDERSCORE }

  predicate InGap(b: Byte) { IsSpace(b) || b == EQUALS }

  function AfterLabel(t: Bytes, level: nat): LineResult {
    if t != [] && t[0] == AT then
      if AboveLevel(t[1..], level) then Skipped else AfterLevel(DropWhile(IsDigit, t[1..]))
    else AfterLevel(t)
  }

  function AfterLevel(t: Bytes): LineResult { Quoted(DropWhile(InGap, t)) }

  /** A trimmed line without its closing quote. */
  function Labelled(s: Bytes, level: nat): LineResult { AfterLabel(DropWhile(InLabel, s), level) }

  function ParsedTrimmed(s: Bytes, level: nat): LineResult {
    if s == [] || s[0] == HASH then Skipped
    else if s[|s| - 1] != QUOTE then Fatal(MalformedEnd)
    else Labelled(s[..|s| - 1], level)
  }

  function ParsedLine(line: Bytes, level: nat): LineResult {
    ParsedTrimmed(TrimRight(DropWhile(IsSpace, CString(line))), level)
  }

  /** How many bytes fgets takes. */
  function LineLength(file: Bytes, room: nat): (n: nat)
    ensures n <= |file| && n <= room && (file != [] && room > 0 ==> n > 0)
  {
    if file == [] || room == 0 then 0
    else if file[0] == NEWLINE then 1
    else 1 + LineLength(file[1..], room - 1)
  }

  type LineParser = Bytes -> LineResult

  /** The tokens of a file whose first line has number line, given what becomes of a line. */
  function Parsed(parse: LineParser, file: Bytes, line: nat): FileResult
    decreases |file|
  {
    if file == [] then Loaded([])
    else
      var n := LineLength(file, MAX_LINE - 1);
      Joined(parse(file[..n]), line, Parsed(parse, file[n..], line + 1))
  }

  /** load_extras_file keeps the tokens up to this level. */
  function UpToLevel(level: nat): LineParser { (line: Bytes) => ParsedLine(line, level) }

  function Joined(l: LineResult, line: nat, rest: FileResult): FileResult {
    match l
    case Fatal(e) => Failed(e, line)
    case Skipped => rest
    case Token(t) => Behind([t], rest)
  }

  function Behind(tokens: seq<Bytes>, rest: FileResult): FileResult {
    if rest.Failed? then rest else Loaded(tokens + rest.tokens)
  }

  // ----- the round trip

  lemma HexUndone(b: Byte)
    ensures IsXdigit(HexDigit(b / 16)) && IsXdigit(HexDigit(b % 16))
    ensures 16 * HexValue(HexDigit(b / 16)) + HexValue(HexDigit(b % 16)) == b
  {
  }

  lemma {:induction false} EscapedFromFront(t: Bytes)
    requires t != []
    ensures Escaped(t) == EscapedByte(t[0]) + Escaped(t[1..])
    decreases |t|
  {
    var n := |t| - 1;
    if n == 0 {
      assert t[..0] == t[1..] == [];
    } else {
      EscapedFromFront(t[..n]);
      var mid := t[..n][1..];
      assert mid == t[1..][..n - 1];
      assert Escaped(t[1..]) == Escaped(mid) + EscapedByte(t[n]);
      assert Escaped(t) == EscapedByte(t[0]) + Escaped(mid) + EscapedByte(t[n]);
    }
  }

  /** Escaped text is printable: in particular it has no NUL, no newline and no quote. */
  lemma {:induction false} EscapedIsPlain(t: Bytes)
    ensures forall b :: b in Escaped(t) ==> 32 <= b < 127 && b != QUOTE
    decreases |t|
  {
    if t != [] {
      EscapedIsPlain(t[..|t| - 1]);
    }
  }

  lemma UnescapeByte(b: Byte, rest: Bytes)
    ensures Unescaped(EscapedByte(b) + rest) == After([b], Unescaped(rest))
  {
    var e := EscapedByte(b);
    assert (e + rest)[|e|..] == rest;
    if |e| == 4 {
      HexUndone(b);
      assert (e + rest)[0] == BACKSLASH && (e + rest)[1] == LETTER_X;
      assert (e + rest)[2] == HexDigit(b / 16) && (e + rest)[3] == HexDigit(b % 16);
    } else {
      assert (e + rest)[0] == b;
    }
  }

  lemma {:induction false} UnescapeUndoes(t: Bytes)
    ensures Unescaped(Escaped(t)) == Text(t)
    decreases |t|
  {
    if t != [] {
      UnescapeUndoes(t[1..]);
      EscapedFromFront(t);
      UnescapeByte(t[0], Escaped(t[1..]));
      assert [t[0]] + t[1..] == t;
    }
  }

  lemma {:induction false} NoNul(s: Bytes)
    requires 0 !in s
    ensures CString(s) == s
    decreases |s|
  {
    if s != [] { NoNul(s[1..]); }
  }

  lemma LineTrims(e: Bytes)
    requires 0 !in e
    ensures TrimRight(DropWhile(IsSpace, CString([QUOTE] + e + [QUOTE, NEWLINE]))) == [QUOTE] + e + [QUOTE]
  {
    var l, s := [QUOTE] + e + [QUOTE, NEWLINE], [QUOTE] + e + [QUOTE];
    NoNul(l);
    assert l[0] == QUOTE && l[|l| - 1] == NEWLINE && s[|s| - 1] == QUOTE;
    assert l[..|l| - 1] == s;
    assert TrimRight(s) == s;
  }

  lemma QuotedLine(e: Bytes, level: nat)
    ensures Labelled([QUOTE] + e, level) == Quoted([QUOTE] + e)
  {
    var s := [QUOTE] + e;
    assert s[0] == QUOTE && !InLabel(QUOTE) && !InGap(QUOTE);
    assert DropWhile(InLabel, s) == s;
    assert DropWhile(InGap, s) == s;
  }

  /** A written line is read back as its token, except that an empty token stops the reader. */
  lemma LineRoundTrip(t: Bytes, level: nat)
    requires |t| <= MAX_DICT_FILE
    ensures ParsedLine(Line(t), level) == if t == [] then Fatal(EmptyKeyword) else Token(t)
  {
    var e := Escaped(t);
    EscapedIsPlain(t);
    LineTrims(e);
    var s := [QUOTE] + e + [QUOTE];
    assert s[0] == QUOTE && s[|s| - 1] == QUOTE && s[..|s| - 1] == [QUOTE] + e;
    QuotedLine(e, level);
    assert ([QUOTE] + e)[1..] == e;
    UnescapeUndoes(t);
  }

  lemma {:induction false} LineIsRead(s: Bytes, rest: Bytes, room: nat)
    requires NEWLINE !in s && |s| < room
    ensures LineLength(s + [NEWLINE] + rest, room) == |s| + 1
    decreases |s|
  {
    var f := s + [NEWLINE] + rest;
    if s != [] {
      LineIsRead(s[1..], rest, room - 1);
      assert f[1..] == s[1..] + [NEWLINE] + rest;
    }
  }

  lemma ParseFirstLine(t: Bytes, rest: Bytes, level: nat, line: nat)
    requires |t| <= MAX_DICT_FILE
    ensures Parsed(UpToLevel(level), Line(t) + rest, line) ==
            if t == [] then Failed(EmptyKeyword, line) else Behind([t], Parsed(UpToLevel(level), rest, line + 1))
  {
    var s, f := [QUOTE] + Escaped(t) + [QUOTE], Line(t) + rest;
    EscapedIsPlain(t);
    LineIsRead(s, rest, MAX_LINE - 1);
    assert f == s + [NEWLINE] + rest;
    var n := |s| + 1;
    assert f[..n] == Line(t) && f[n..] == rest;
    LineRoundTrip(t, level);
  }

  /** The number of tokens before the first empty one. */
  function FirstEmpty(tokens: seq<Bytes>): (n: nat)
    ensures n <= |tokens| && (n < |tokens| ==> tokens[n] == []) && forall i :: 0 <= i < n ==> tokens[i] != []
  {
    if tokens == [] || tokens[0] == [] then 0 else 1 + FirstEmpty(tokens[1..])
  }

  /** All the tokens, or a failure at the line of the first empty one. */
  function ReadBack(tokens: seq<Bytes>, line: nat): FileResult {
    if FirstEmpty(tokens) == |tokens| then Loaded(tokens) else Failed(EmptyKeyword, line + FirstEmpty(tokens))
  }

  lemma ReadBackFromFront(tokens: seq<Bytes>, line: nat)
    requires tokens != []
    ensures ReadBack(tokens, line) ==
            if tokens[0] == [] then Failed(EmptyKeyword, line) else Behind([tokens[0]], ReadBack(tokens[1..], line + 1))
  {
    assert [tokens[0]] + tokens[1..] == tokens;
  }

  /** Reading back any list of tokens gives exactly these tokens in order, if none is empty;
      otherwise the reader stops at the line of the first empty one. */
  lemma {:induction false} FileRoundTrip(tokens: seq<Bytes>, level: nat, line: nat)
    requires forall t :: t in tokens ==> |t| <= MAX_DICT_FILE
    ensures Parsed(UpToLevel(level), Lines(tokens), line) == ReadBack(tokens, line)
    decreases |tokens|
  {
    if tokens != [] {
      ParseFirstLine(tokens[0], Lines(tokens[1..]), level, line);
      FileRoundTrip(tokens[1..], level, line + 1);
      ReadBackFromFront(tokens, line);
    }
  }

  /** The dictionary written by any run of captures reads back as the captured tokens if and
      only if no text long enough to be captured starts with a NUL. */
  lemma CaptureRoundTrip(calls: seq<(Bytes, bool)>, level: nat)
    ensures Parsed(UpToLevel(level), Lines(Captured(calls)), 1) == Loaded(Captured(calls)) <==>
            forall c :: c in calls && Dumpable(c.0) && c.1 ==> c.0[0] != 0
  {
    FileRoundTrip(Captured(calls), level, 1);
    NoEmptyCapture(calls);
  }

  lemma {:induction false} NoEmptyCapture(calls: seq<(Bytes, bool)>)
    ensures [] !in Captured(calls) <==> forall c :: c in calls && Dumpable(c.0) && c.1 ==> c.0[0] != 0
    decreases |calls|
  {
    if calls != [] {
      NoEmptyCapture(calls[..|calls| - 1]);
      assert calls == calls[..|calls| - 1] + [calls[|calls| - 1]];
    }
  }

  lemma {:induction false} LinesAppend(tokens: seq<Bytes>, t: Bytes)
    ensures Lines(tokens + [t]) == Lines(tokens) + Line(t)
    decreases |tokens|
  {
    if tokens == [] {
      assert [t][1..] == [];
    } else {
      LinesAppend(tokens[1..], t);
      assert (tokens + [t])[1..] == tokens[1..] + [t];
    }
  }

  /** Where a C string in a buffer ends. */
  lemma {:induction false} CStringEnds(s: Bytes, n: nat)
    requires n <= |s| && 0 !in s[..n] && (n < |s| ==> s[n] == 0)
    ensures CString(s) == s[..n]
    decreases n
  {
    if n > 0 {
      assert s[0] in s[..n];
      assert s[1..][..n - 1] == s[..n][1..];
      CStringEnds(s[1..], n - 1);
    }
  }
}

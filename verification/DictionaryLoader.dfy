/** afl-fuzz's reader of token files, in the buffer that fgets fills. */
module DictionaryLoader {
  import opened ByteStrings
  import opened Config
  import opened DictionaryFile
  import opened DictionaryLines

  /** The C string at from has its NUL at to. */
  ghost predicate StringAt(buf: array<Byte>, from: nat, to: nat)
    reads buf
  {
    from <= to < buf.Length && buf[to] == 0 && forall k :: from <= k < to ==> buf[k] != 0
  }

  method StrLen(buf: array<Byte>, from: nat) returns (n: nat)
    requires from < buf.Length && 0 in buf[from..]
    ensures StringAt(buf, from, from + n)
  {
    n := 0;
    while buf[from + n] != 0
      invariant from + n < buf.Length && 0 in buf[from + n..]
      invariant forall k :: from <= k < from + n ==> buf[k] != 0
      decreases buf.Length - n
    {
      n := n + 1;
    }
  }

  /** Skip bytes in p; the NUL is not in it. */
  method SkipWhile(buf: array<Byte>, from: nat, p: Byte -> bool, ghost to: nat) returns (l: nat)
    requires StringAt(buf, from, to) && !p(0)
    ensures from <= l <= to && buf[l..to] == DropWhile(p, buf[from..to])
  {
    l := from;
    while p(buf[l])
      invariant from <= l <= to
      invariant DropWhile(p, buf[l..to]) == DropWhile(p, buf[from..to])
      decreases buf.Length - l
    {
      assert buf[l..to][1..] == buf[l + 1..to];
      l := l + 1;
    }
  }

  lemma NulFound(s: Bytes)
    requires 0 in s
    ensures |CString(s)| < |s|
  {
    assert s[..|s|] == s;
  }

  /** Trim on left and right, in place. */
  method TrimLine(buf: array<Byte>) returns (l: nat, r: nat)
    requires 0 in buf[..]
    modifies buf
    ensures StringAt(buf, l, r) && buf[l..r] == TrimRight(DropWhile(IsSpace, CString(old(buf[..]))))
  {
    ghost var s := CString(buf[..]);
    NulFound(buf[..]);
    assert buf[0..|s|] == s;
    l := SkipWhile(buf, 0, IsSpace, |s|);
    r := TrimTail(buf, l, |s|);
  }

  method TrimTail(buf: array<Byte>, l: nat, ghost to: nat) returns (r: nat)
    requires StringAt(buf, l, to)
    modifies buf
    ensures StringAt(buf, l, r) && buf[l..r] == TrimRight(old(buf[l..to]))
  {
    ghost var s := buf[l..to];
    var n := StrLen(buf, l);
    OneEnd(buf, l, to, l + n);
    r := l + n;
    while r > l && IsSpace(buf[r - 1])
      invariant l <= r <= to && buf[l..r] == s[..r - l]
      invariant TrimRight(s[..r - l]) == TrimRight(s)
    {
      assert s[..r - l][..r - l - 1] == s[..r - l - 1];
      r := r - 1;
    }
    assert TrimRight(s) == s[..r - l];
    buf[r] := 0;
    assert buf[l..r] == s[..r - l];
  }

  lemma OneEnd(buf: array<Byte>, l: nat, to: nat, to2: nat)
    requires StringAt(buf, l, to) && StringAt(buf, l, to2)
    ensures to == to2
  {
  }

  /** Copy what is between the quotes, undoing the escapes; no byte is written past the space allocated. */
  method CopyKeyword(buf: array<Byte>, from: nat, r: nat) returns (t: Text)
    requires StringAt(buf, from, r)
    ensures t == Unescaped(buf[from..r])
  {
    var data := new Byte[r - from];
    CopyStarts(data[..0], buf[from..r]);
    t := CopyLoop(buf, from, r, data, Unescaped(buf[from..r]));
  }

  method CopyLoop(buf: array<Byte>, from: nat, ghost r: nat, data: array<Byte>, ghost whole: Text) returns (t: Text)
    requires StringAt(buf, from, r) && buf != data && data.Length == r - from
    requires Copied(whole, data[..0], buf[from..r])
    modifies data
    ensures t == whole
  {
    var l, w := from, 0;
    while buf[l] != 0
      invariant from <= l <= r && 0 <= w <= l - from
      invariant Copied(whole, data[..w], buf[l..r])
      decreases buf.Length - l
    {
      var lead := CopyByte(buf, l, r, data, w, whole);
      if lead.NoLead? { return Bad(lead.error); }
      l, w := l + lead.length, w + 1;
    }
    CopyEnds(whole, data[..w], buf[l..r]);
    t := Text(data[..w]);
  }

  /** With done copied and rest to come, the result will be whole. */
  ghost predicate Copied(whole: Text, done: Bytes, rest: Bytes) {
    whole == After(done, Unescaped(rest))
  }

  lemma CopyStarts(none: Bytes, s: Bytes)
    requires none == []
    ensures Copied(Unescaped(s), none, s)
  {
  }

  lemma CopyNext(whole: Text, done: Bytes, rest: Bytes)
    requires rest != [] && Copied(whole, done, rest)
    ensures var lead := FirstByte(rest);
            if lead.NoLead? then whole == Bad(lead.error)
            else Copied(whole, done + [lead.byte], rest[lead.length..])
  {
  }

  lemma CopyEnds(whole: Text, done: Bytes, rest: Bytes)
    requires rest == [] && Copied(whole, done, rest)
    ensures whole == Text(done)
  {
  }

  method CopyByte(buf: array<Byte>, l: nat, ghost r: nat, data: array<Byte>, w: nat, ghost whole: Text) returns (lead: Lead)
    requires StringAt(buf, l, r) && l < r && buf != data && w < data.Length
    requires Copied(whole, data[..w], buf[l..r])
    modifies data
    ensures if lead.NoLead? then whole == Bad(lead.error)
            else 0 < lead.length <= r - l && Copied(whole, data[..w + 1], buf[l + lead.length..r])
  {
    lead := ReadByte(buf, l, r);
    CopyNext(whole, data[..w], buf[l..r]);
    if lead.Lead? {
      assert buf[l..r][lead.length..] == buf[l + lead.length..r];
      ghost var done := data[..w];
      data[w] := lead.byte;
      assert data[..w + 1] == done + [lead.byte];
    }
  }

  method ReadByte(buf: array<Byte>, l: nat, ghost r: nat) returns (lead: Lead)
    requires StringAt(buf, l, r) && l < r
    ensures lead == FirstByte(buf[l..r])
  {
    ghost var s := buf[l..r];
    if buf[l] < 32 || 128 <= buf[l] { return NoLead(NonPrintable); }
    if buf[l] == BACKSLASH {
      if buf[l + 1] == BACKSLASH || buf[l + 1] == QUOTE { return Lead(buf[l + 1], 2); }
      if buf[l + 1] != LETTER_X || !IsXdigit(buf[l + 2]) || !IsXdigit(buf[l + 3]) { return NoLead(BadEscape); }
      return Lead(16 * HexValue(buf[l + 2]) + HexValue(buf[l + 3]), 4);
    }
    return Lead(buf[l], 1);
  }

  /** A trimmed, nonempty line between l and r. */
  method ParseTrimmed(buf: array<Byte>, l0: nat, r0: nat, level: nat) returns (res: LineResult)
    requires StringAt(buf, l0, r0) && l0 < r0
    modifies buf
    ensures res == if old(buf[r0 - 1]) != QUOTE then Fatal(MalformedEnd) else Labelled(old(buf[l0..r0 - 1]), level)
  {
    var r := r0 - 1;
    if buf[r] != QUOTE { return Fatal(MalformedEnd); }
    ghost var s := buf[l0..r];
    buf[r] := 0;
    assert buf[l0..r] == s;
    var l := SkipWhile(buf, l0, InLabel, r);
    res := ParseAfterLabel(buf, l, r, level);
  }

  method ParseAfterLabel(buf: array<Byte>, from: nat, r: nat, level: nat) returns (res: LineResult)
    requires StringAt(buf, from, r)
    ensures res == AfterLabel(buf[from..r], level)
  {
    var l := from;
    if buf[l] == AT {
      l := l + 1;
      assert buf[from..r][1..] == buf[l..r];
      if AboveLevel(buf[l..r], level) { return Skipped; }
      l := SkipWhile(buf, l, IsDigit, r);
    }
    res := ParseAfterLevel(buf, l, r);
  }

  method ParseAfterLevel(buf: array<Byte>, from: nat, r: nat) returns (res: LineResult)
    requires StringAt(buf, from, r)
    ensures res == AfterLevel(buf[from..r])
  {
    var l := SkipWhile(buf, from, InGap, r);
    res := ParseQuoted(buf, l, r);
  }

  method ParseQuoted(buf: array<Byte>, from: nat, r: nat) returns (res: LineResult)
    requires StringAt(buf, from, r)
    ensures res == Quoted(buf[from..r])
  {
    if buf[from] != QUOTE { return Fatal(MalformedStart); }
    var l := from + 1;
    assert buf[from..r][1..] == buf[l..r];
    if buf[l] == 0 { return Fatal(EmptyKeyword); }
    var text := CopyKeyword(buf, l, r);
    if text.Bad? { return Fatal(text.error); }
    if |text.bytes| > MAX_DICT_FILE { return Fatal(TooBig); }
    res := Token(text.bytes);
  }

  lemma LineMeans(line: Bytes, level: nat)
    ensures forall t :: ParsedLine(line, level) == Token(t) <==> exists p :: TokenLine(line, level, t, p)
    ensures forall p :: PartsOk(p) && CString(line) == Whole(p) ==>
              (ParsedLine(line, level) == Skipped <==> p.marked && Decimal(p.level) % 0x1_0000_0000 > level)
    ensures Blanks(CString(line)) || Comment(CString(line)) ==> ParsedLine(line, level) == Skipped
  {
    hide ParsedLine, TokenLine, PartsOk, Whole;
    forall t ensures ParsedLine(line, level) == Token(t) <==> exists p :: TokenLine(line, level, t, p) {
      TokenLines(line, level, t);
    }
    forall p | PartsOk(p) && CString(line) == Whole(p)
      ensures ParsedLine(line, level) == Skipped <==> p.marked && Decimal(p.level) % 0x1_0000_0000 > level
    {
      PartsRead(line, level, p);
    }
    PlainLines(line, level);
  }

  /** The body of the loop of load_extras_file, on the line in buf. */
  method ParseLine(buf: array<Byte>, level: nat) returns (res: LineResult)
    requires 0 in buf[..]
    modifies buf
    ensures res == ParsedLine(old(buf[..]), level)
    ensures forall t :: res == Token(t) <==> exists p :: TokenLine(old(buf[..]), level, t, p)
    ensures forall p :: PartsOk(p) && CString(old(buf[..])) == Whole(p) ==>
              (res == Skipped <==> p.marked && Decimal(p.level) % 0x1_0000_0000 > level)
    ensures Blanks(CString(old(buf[..]))) || Comment(CString(old(buf[..]))) ==> res == Skipped
  {
    LineMeans(buf[..], level);
    var l, r := TrimLine(buf);
    res := ParseRest(buf, l, r, level);
  }

  method ParseRest(buf: array<Byte>, l: nat, r: nat, level: nat) returns (res: LineResult)
    requires StringAt(buf, l, r)
    modifies buf
    ensures res == ParsedTrimmed(old(buf[l..r]), level)
  {
    if buf[l] == 0 || buf[l] == HASH { return Skipped; }
    assert buf[l..r][..r - l - 1] == buf[l..r - 1];
    res := ParseTrimmed(buf, l, r, level);
  }

  /** fgets: the next line, or as much of it as the buffer holds. */
  method ReadLine(buf: array<Byte>, file: Bytes, pos: nat) returns (n: nat)
    requires pos <= |file| && buf.Length > 0
    modifies buf
    ensures n == LineLength(file[pos..], buf.Length - 1)
    ensures n < buf.Length && buf[..n] == file[pos..pos + n] && buf[n] == 0
  {
    n := 0;
    var ended := false;
    while n < buf.Length - 1 && pos + n < |file| && !ended
      invariant n < buf.Length && pos + n <= |file| && buf[..n] == file[pos..pos + n]
      invariant LineLength(file[pos..], buf.Length - 1) ==
                n + if ended then 0 else LineLength(file[pos + n..], buf.Length - 1 - n)
      decreases buf.Length - n, !ended
    {
      buf[n] := file[pos + n];
      ended := buf[n] == NEWLINE;
      assert file[pos + n..][1..] == file[pos + n + 1..];
      n := n + 1;
    }
    buf[n] := 0;
  }

  /** The bytes before pos, line - 1 lines of them, hold these tokens. */
  ghost predicate Reading(parse: LineParser, file: Bytes, pos: nat, line: nat, tokens: seq<Bytes>) {
    && pos <= |file|
    && Parsed(parse, file, 1) == Behind(tokens, Parsed(parse, file[pos..], line))
  }

  lemma ReadNext(parse: LineParser, file: Bytes, pos: nat, n: nat, res: LineResult, line: nat, tokens: seq<Bytes>)
    requires Reading(parse, file, pos, line, tokens) && pos < |file|
    requires n == LineLength(file[pos..], MAX_LINE - 1) && Gives(parse, file, pos, n, res)
    ensures match res
            case Fatal(e) => Parsed(parse, file, 1) == Failed(e, line)
            case Skipped => Reading(parse, file, pos + n, line + 1, tokens)
            case Token(t) => Reading(parse, file, pos + n, line + 1, tokens + [t])
  {
    hide Parsed;
    var rest := file[pos..];
    assert rest[..n] == file[pos..pos + n] && rest[n..] == file[pos + n..];
    ParsedNext(parse, rest, line);
    BehindJoined(tokens, parse(rest[..n]), line, Parsed(parse, rest[n..], line + 1));
  }

  lemma ParsedNext(parse: LineParser, file: Bytes, line: nat)
    requires file != []
    ensures var n := LineLength(file, MAX_LINE - 1);
            Parsed(parse, file, line) == Joined(parse(file[..n]), line, Parsed(parse, file[n..], line + 1))
  {
  }

  lemma BehindJoined(tokens: seq<Bytes>, l: LineResult, line: nat, rest: FileResult)
    ensures l.Token? ==> Behind(tokens, Joined(l, line, rest)) == Behind(tokens + [l.bytes], rest)
  {
    if l.Token? && rest.Loaded? {
      assert tokens + ([l.bytes] + rest.tokens) == (tokens + [l.bytes]) + rest.tokens;
    }
  }

  lemma ReadAll(parse: LineParser, file: Bytes, line: nat, tokens: seq<Bytes>)
    requires Reading(parse, file, |file|, line, tokens)
    ensures Parsed(parse, file, 1) == Loaded(tokens)
  {
    assert file[|file|..] == [];
  }

  /** What fgets left in the buffer behind the line does not matter. */
  lemma LineInBuffer(buf: Bytes, line: Bytes, level: nat)
    requires |line| < |buf| && buf[..|line|] == line && buf[|line|] == 0
    ensures 0 in buf && ParsedLine(buf, level) == ParsedLine(line, level)
  {
    var m := |CString(line)|;
    assert buf[..m] == line[..m];
    CStringEnds(buf, m);
  }

  class Dictionary {
    var extras: seq<Bytes>

    constructor ()
      ensures extras == []
    {
      extras := [];
    }

    /** load_extras_file, on the contents of the file. A failure ends the program. */
    method LoadExtrasFile(file: Bytes, level: nat) returns (res: FileResult)
      modifies this
      ensures res == Parsed(UpToLevel(level), file, 1)
      ensures exists lines :: FileLines(lines) && Concat(lines) == file && ReadsLines(UpToLevel(level), lines, res)
      ensures res.Loaded? ==> extras == old(extras) + res.tokens
    {
      ghost var lines := FileRead(UpToLevel(level), file);
      res := LoadLines(file, level, UpToLevel(level));
    }

    method LoadLines(file: Bytes, level: nat, ghost parse: LineParser) returns (res: FileResult)
      requires IsParser(parse, level)
      modifies this
      ensures res == Parsed(parse, file, 1)
      ensures res.Loaded? ==> extras == old(extras) + res.tokens
    {
      var buf := new Byte[MAX_LINE];
      var pos, line, first := 0, 1, |extras|;
      while pos < |file|
        invariant first <= |extras| && extras[..first] == old(extras)
        invariant Reading(parse, file, pos, line, extras[first..])
        decreases |file| - pos
      {
        var n, r := NextLine(buf, file, pos, level, parse);
        ReadNext(parse, file, pos, n, r, line, extras[first..]);
        if r.Fatal? { return Failed(r.error, line); }
        if r.Token? {
          assert (extras + [r.bytes])[first..] == extras[first..] + [r.bytes];
          extras := extras + [r.bytes];
        }
        pos, line := pos + n, line + 1;
      }
      ReadAll(parse, file, line, extras[first..]);
      res := Loaded(extras[first..]);
    }
  }

  ghost predicate Gives(parse: LineParser, file: Bytes, pos: nat, n: nat, res: LineResult) {
    pos + n <= |file| && res == parse(file[pos..pos + n])
  }

  ghost predicate Agrees(parse: LineParser, level: nat, line: Bytes) {
    parse(line) == ParsedLine(line, level)
  }

  ghost predicate IsParser(parse: LineParser, level: nat) {
    forall line :: Agrees(parse, level, line)
  }

  method NextLine(buf: array<Byte>, file: Bytes, pos: nat, level: nat, ghost parse: LineParser) returns (n: nat, res: LineResult)
    requires pos < |file| && buf.Length == MAX_LINE && IsParser(parse, level)
    modifies buf
    ensures n == LineLength(file[pos..], MAX_LINE - 1) && Gives(parse, file, pos, n, res)
  {
    n := ReadLine(buf, file, pos);
    LineInBuffer(buf[..], file[pos..pos + n], level);
    assert Agrees(parse, level, file[pos..pos + n]);
    res := ParseLine(buf, level);
  }
}

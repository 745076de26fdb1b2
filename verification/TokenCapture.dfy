/** libtokencap's printer of captured tokens. */
module TokenCapture {
  import opened ByteStrings
  import opened Config
  import opened DictionaryFile
  import opened DictionaryLines

  class Capture {
    var file: Bytes
    /** The captures so far, each with whether it is text. */
    ghost var calls: seq<(Bytes, bool)>

    ghost predicate Valid()
      reads this
    {
      file == Lines(Captured(calls))
    }

    constructor ()
      ensures Valid() && file == [] && calls == []
    {
      file, calls := [], [];
    }

    /** __tokencap_dump; ptr is the captured memory. */
    method Dump(ptr: Bytes, isText: bool)
      requires Valid()
      modifies this
      ensures Valid() && calls == old(calls) + [(ptr, isText)]
      ensures file == old(file) + if Dumpable(ptr) then Line(TokenText(ptr, isText)) else []
      ensures if 3 <= |ptr| <= 32
              then OneLineMore(old(file), if isText then CString(ptr) else ptr, file)
              else file == old(file)
    {
      hide OneLineMore, Written;
      CapturedNext(calls, ptr, isText);
      calls := calls + [(ptr, isText)];
      if |ptr| < MIN_AUTO_EXTRA || |ptr| > MAX_AUTO_EXTRA { return; }
      var text := Print(ptr, isText);
      LineAdded(file, if isText then CString(ptr) else ptr, text);
      file := file + ([QUOTE] + text + [QUOTE, NEWLINE]);
    }
  }

  /** The file has one line more: t as libtokencap writes it, between quotes. */
  ghost predicate OneLineMore(was: Bytes, t: Bytes, now: Bytes) {
    exists s :: Written(t, s) && now == was + ([34] + s + [34, 10])
  }

  lemma LineAdded(was: Bytes, t: Bytes, s: Bytes)
    requires Written(t, s)
    ensures OneLineMore(was, t, was + ([QUOTE] + s + [QUOTE, NEWLINE]))
  {
    hide Written;
    assert [QUOTE] + s + [QUOTE, NEWLINE] == [34] + s + [34, 10];
  }

  lemma CapturedNext(calls: seq<(Bytes, bool)>, ptr: Bytes, isText: bool)
    ensures Lines(Captured(calls + [(ptr, isText)])) ==
            if Dumpable(ptr) then Lines(Captured(calls)) + Line(TokenText(ptr, isText)) else Lines(Captured(calls))
  {
    var next, was := calls + [(ptr, isText)], Captured(calls);
    assert next[..|next| - 1] == calls;
    if Dumpable(ptr) {
      LinesAppend(was, TokenText(ptr, isText));
    } else {
      assert Captured(next) == was + [] == was;
    }
  }

  /** The loop that fills the buffer, and the buffer as a C string. Every write stays in the buffer. */
  method Print(ptr: Bytes, isText: bool) returns (text: Bytes)
    requires Dumpable(ptr)
    ensures text == Escaped(TokenText(ptr, isText)) && Written(if isText then CString(ptr) else ptr, text)
  {
    var buf := new Byte[MAX_AUTO_EXTRA * 4 + 1];
    var i, pos := 0, 0;
    while i < |ptr|
      invariant 0 <= i <= |ptr| && 0 <= pos <= 4 * i
      invariant buf[..pos] == Escaped(ptr[..i])
      invariant isText ==> 0 !in ptr[..i]
    {
      if isText && ptr[i] == 0 { break; }
      pos := PrintByte(buf, pos, ptr[i]);
      assert ptr[..i + 1][..i] == ptr[..i];
      i := i + 1;
    }
    buf[pos] := 0;
    if isText { CStringEnds(ptr, i); } else { assert ptr[..i] == ptr; }
    EscapedIsPlain(ptr[..i]);
    CStringEnds(buf[..], pos);
    text := CString(buf[..]);
    assert text == buf[..pos];
    WrittenEscaped(TokenText(ptr, isText), text);
  }

  /** One byte; sprintf also writes a NUL behind the four characters. */
  method PrintByte(buf: array<Byte>, pos: nat, b: Byte) returns (next: nat)
    requires pos + 5 <= buf.Length
    modifies buf
    ensures pos <= next <= pos + 4 && buf[..next] == old(buf[..pos]) + EscapedByte(b)
  {
    if b < 32 || 127 <= b || b == QUOTE || b == BACKSLASH {
      buf[pos], buf[pos + 1], buf[pos + 2], buf[pos + 3] := BACKSLASH, LETTER_X, HexDigit(b / 16), HexDigit(b % 16);
      buf[pos + 4] := 0;
      next := pos + 4;
    } else {
      buf[pos] := b;
      next := pos + 1;
    }
  }
}

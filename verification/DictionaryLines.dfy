/** Which lines of a token file give a token, which are skipped and which end the program,
    said of their bytes alone. */
module DictionaryLines {
  import opened ByteStrings
  import opened Config
  import opened DictionaryFile

  ghost predicate Blanks(s: Bytes) { forall b :: b in s ==> b == 32 || 9 <= b <= 13 }

  ghost predicate Label(s: Bytes) {
    forall b :: b in s ==> 48 <= b <= 57 || 65 <= b <= 90 || 97 <= b <= 122 || b == 95
  }

  ghost predicate Gap(s: Bytes) { forall b :: b in s ==> b == 32 || 9 <= b <= 13 || b == 61 }

  ghost predicate Digits(s: Bytes) { forall b :: b in s ==> 48 <= b <= 57 }

  /** The value of a decimal number. */
  function Decimal(s: Bytes): int {
    if s == [] then 0 else 10 * Decimal(s[..|s| - 1]) + s[|s| - 1] - 48
  }

  /** v is the value of the hexadecimal digit b. */
  predicate Hex(b: Byte, v: nat) {
    (48 <= b <= 57 && v == b - 48) || (65 <= b <= 70 && v == b - 55) || (97 <= b <= 102 && v == b - 87)
  }

  /** The text s between the quotes stands for the bytes t: a printable byte but 92 for itself,
      92 and 92 or 34 for the second of the two, and 92, 120 and two hexadecimal digits for
      the byte with their value. */
  ghost predicate Spells(s: Bytes, t: Bytes)
    decreases |s|
  {
    if s == [] || t == [] then s == t
    else
      || (s[0] != 92 && 32 <= s[0] <= 127 && t[0] == s[0] && Spells(s[1..], t[1..]))
      || (|s| >= 2 && s[0] == 92 && (s[1] == 92 || s[1] == 34) && t[0] == s[1] && Spells(s[2..], t[1..]))
      || (|s| >= 4 && s[0] == 92 && s[1] == 120 && HexPair(s[2], s[3], t[0]) && Spells(s[4..], t[1..]))
  }

  ghost predicate HexPair(a: Byte, b: Byte, v: Byte) {
    exists h: nat, l: nat :: Hex(a, h) && Hex(b, l) && v == 16 * h + l
  }

  // ----- escapes

  lemma HexIs(b: Byte, v: nat)
    ensures Hex(b, v) <==> IsXdigit(b) && HexValue(b) == v
  {
  }

  lemma HexPairIs(a: Byte, b: Byte, v: Byte)
    ensures HexPair(a, b, v) <==> IsXdigit(a) && IsXdigit(b) && 16 * HexValue(a) + HexValue(b) == v
  {
    if IsXdigit(a) && IsXdigit(b) {
      HexIs(a, HexValue(a));
      HexIs(b, HexValue(b));
      if HexPair(a, b, v) {
        var h: nat, l: nat :| Hex(a, h) && Hex(b, l) && v == 16 * h + l;
        HexIs(a, h);
        HexIs(b, l);
      }
    }
  }

  /** The reader takes a text for t exactly if it spells t. */
  lemma {:induction false} ReadsSpelled(s: Bytes, t: Bytes)
    ensures Unescaped(s) == Text(t) <==> Spells(s, t)
    decreases |s|
  {
    if s != [] && FirstByte(s).Lead? {
      var b, n := FirstByte(s).byte, FirstByte(s).length;
      var rest := Unescaped(s[n..]);
      if n == 4 { HexPairIs(s[2], s[3], b); }
      if t != [] {
        ReadsSpelled(s[n..], t[1..]);
        if n == 4 { HexPairIs(s[2], s[3], t[0]); }
        assert rest.Text? ==> (([b] + rest.bytes)[0] == b && ([b] + rest.bytes)[1..] == rest.bytes);
        assert t == [t[0]] + t[1..];
      }
    } else if s != [] && t != [] {
      if |s| >= 4 { HexPairIs(s[2], s[3], t[0]); }
    }
  }

  /** How libtokencap writes t: printable bytes but 34 and 92 as they are, every other byte as 92, 120 and
      two hexadecimal digits with small letters. */
  ghost predicate Written(t: Bytes, s: Bytes)
    decreases |t|
  {
    if t == [] then s == []
    else if 32 <= t[0] <= 126 && t[0] != 34 && t[0] != 92 then s != [] && s[0] == t[0] && Written(t[1..], s[1..])
    else
      && |s| >= 4 && s[0] == 92 && s[1] == 120 && SmallHex(s[2], t[0] / 16) && SmallHex(s[3], t[0] % 16)
      && Written(t[1..], s[4..])
  }

  predicate SmallHex(b: Byte, v: nat) { (v < 10 && b == 48 + v) || (10 <= v < 16 && b == 87 + v) }

  lemma {:induction false} WrittenEscaped(t: Bytes, s: Bytes)
    ensures Written(t, s) <==> s == Escaped(t)
    decreases |t|
  {
    if t != [] {
      EscapedFromFront(t);
      var e := EscapedByte(t[0]);
      if |s| >= |e| {
        WrittenEscaped(t[1..], s[|e|..]);
        assert s == s[..|e|] + s[|e|..];
        assert (e + Escaped(t[1..]))[..|e|] == e && (e + Escaped(t[1..]))[|e|..] == Escaped(t[1..]);
      }
    }
  }

  // ----- dropping and trimming

  lemma {:induction false} DropsAll(p: Byte -> bool, a: Bytes, s: Bytes)
    requires forall b :: b in a ==> p(b)
    ensures DropWhile(p, a + s) == DropWhile(p, s)
    decreases |a|
  {
    if a == [] {
      assert a + s == s;
    } else {
      assert (a + s)[1..] == a[1..] + s;
      DropsAll(p, a[1..], s);
    }
  }

  /** What DropWhile drops. */
  lemma {:induction false} Dropped(p: Byte -> bool, s: Bytes) returns (a: Bytes)
    ensures s == a + DropWhile(p, s) && forall b :: b in a ==> p(b)
    ensures DropWhile(p, s) != [] ==> !p(DropWhile(p, s)[0])
  {
    if s != [] && p(s[0]) {
      var a1 := Dropped(p, s[1..]);
      a := [s[0]] + a1;
      assert s == [s[0]] + s[1..];
    } else {
      a := [];
    }
  }

  lemma {:induction false} TrimsAll(s: Bytes, a: Bytes)
    requires Blanks(a)
    ensures TrimRight(s + a) == TrimRight(s)
    decreases |a|
  {
    if a == [] {
      assert s + a == s;
    } else {
      var n := |a| - 1;
      assert (s + a)[..|s| + n] == s + a[..n] && (s + a)[|s| + n] == a[n] && a[n] in a;
      assert forall b :: b in a[..n] ==> b in a;
      TrimsAll(s, a[..n]);
    }
  }

  lemma {:induction false} Trimmed(s: Bytes) returns (a: Bytes)
    ensures s == TrimRight(s) + a && Blanks(a)
    ensures TrimRight(s) != [] ==> !IsSpace(TrimRight(s)[|TrimRight(s)| - 1])
  {
    if s != [] && IsSpace(s[|s| - 1]) {
      var n := |s| - 1;
      var a1 := Trimmed(s[..n]);
      a := a1 + [s[n]];
      assert s == s[..n] + [s[n]];
    } else {
      a := [];
    }
  }

  // ----- the number behind @

  lemma {:induction false} DigitsAccumulate(d: Bytes, s: Bytes, acc: nat)
    requires Digits(d) && (s == [] || !IsDigit(s[0]))
    ensures DigitsValue(d + s, acc) == Scaled(acc, |d|) + Decimal(d)
    decreases |d|
  {
    if d == [] {
      assert d + s == s;
    } else {
      assert d[0] in d && (d + s)[1..] == d[1..] + s;
      assert Digits(d[1..]) by { assert forall b :: b in d[1..] ==> b in d; }
      DigitsAccumulate(d[1..], s, 10 * acc + d[0] - 48);
      DecimalFromFront(d);
      ScaledSum(10 * acc, d[0] - 48, |d| - 1);
      ScaledTen(acc, |d| - 1);
    }
  }

  function Scaled(v: int, n: nat): int { if n == 0 then v else 10 * Scaled(v, n - 1) }

  lemma {:induction false} ScaledSum(a: int, b: int, n: nat)
    ensures Scaled(a + b, n) == Scaled(a, n) + Scaled(b, n)
  {
    if n > 0 { ScaledSum(a, b, n - 1); }
  }

  lemma {:induction false} ScaledTen(a: int, n: nat)
    ensures Scaled(10 * a, n) == Scaled(a, n + 1)
  {
    if n > 0 { ScaledTen(a, n - 1); }
  }

  lemma {:induction false} DecimalFromFront(d: Bytes)
    requires Digits(d) && d != []
    ensures Digits(d[1..]) && Decimal(d) == Scaled((d[0] as int) - 48, |d| - 1) + Decimal(d[1..])
    decreases |d|
  {
    assert d[0] in d && forall b :: b in d[1..] ==> b in d;
    var n := |d| - 1;
    if n > 0 {
      assert forall b :: b in d[..n] ==> b in d;
      DecimalFromFront(d[..n]);
      assert d[..n][1..] == d[1..][..n - 1] && d[1..][n - 1] == d[n];
    }
  }

  lemma DigitsEnd(g: Bytes, s: Bytes)
    requires Gap(g) && s != [] && s[0] == 34
    ensures g + s != [] && !IsDigit((g + s)[0])
  {
    if g != [] { assert g[0] in g; }
  }

  /** The number read after an @ that digits and then no digit follow. */
  lemma NumberRead(d: Bytes, g: Bytes, s: Bytes)
    requires Digits(d) && Gap(g) && s != [] && s[0] == 34
    ensures Atoi(d + g + s) == Decimal(d)
  {
    var u := d + g + s;
    if d != [] {
      assert u[0] == d[0] && d[0] in d;
      assert u == d + (g + s);
      DigitsEnd(g, s);
      assert Digits(d);
      DigitsAccumulate(d, g + s, 0);
      ScaledZero(|d|);
    } else {
      assert u == g + s;
      var a := Dropped(IsSpace, g);
      assert u == a + (DropWhile(IsSpace, g) + s);
      var w := DropWhile(IsSpace, g) + s;
      DropsAll(IsSpace, a, w);
      if DropWhile(IsSpace, g) != [] {
        assert w[0] == DropWhile(IsSpace, g)[0] && w[0] == g[|a|] && g[|a|] in g;
      }
      assert DropWhile(IsSpace, w) == w;
    }
  }

  lemma {:induction false} ScaledZero(n: nat)
    ensures Scaled(0, n) == 0
  {
    if n > 0 { ScaledZero(n - 1); }
  }

  // ----- a line that gives a token

  /** A label, perhaps an @ with a level, a gap, and a text between quotes, with blanks around. */
  datatype Parts = Parts(before: Bytes, tag: Bytes, marked: bool, level: Bytes, gap: Bytes, text: Bytes, behind: Bytes)

  function Mark(p: Parts): Bytes { if p.marked then [64] + p.level else [] }

  /** What stands between the blanks around the line, but for the last quote. */
  function Inside(p: Parts): Bytes { p.tag + (Mark(p) + (p.gap + ([34] + p.text))) }

  function Whole(p: Parts): Bytes { p.before + (Inside(p) + ([34] + p.behind)) }

  ghost predicate PartsOk(p: Parts) {
    Blanks(p.before) && Label(p.tag) && Digits(p.level) && Gap(p.gap) && Blanks(p.behind)
  }

  /** A line that starts with neither a blank nor a 35. */
  ghost predicate Begun(u: Bytes) { u != [] && u[0] != 35 && !IsSpace(u[0]) }

  /** Behind the leading blanks everything is left, but for the blanks a gap starts with if there is no label. */
  lemma LeadingBlanks(p: Parts) returns (q: Parts)
    requires PartsOk(p)
    ensures PartsOk(q) && q == p.(before := [], gap := q.gap)
    ensures DropWhile(IsSpace, Whole(p)) == Whole(q) && Begun(Whole(q))
  {
    q := p.(before := []);
    assert Whole(p) == p.before + Whole(q);
    DropsAll(IsSpace, p.before, Whole(q));
    if p.tag == [] && !p.marked {
      q := LeadingGap(q);
    } else {
      assert Whole(q)[0] == if p.tag == [] then 64 else p.tag[0];
      if p.tag != [] { assert p.tag[0] in p.tag; }
    }
  }

  lemma LeadingGap(p: Parts) returns (q: Parts)
    requires PartsOk(p) && p.before == [] && p.tag == [] && !p.marked
    ensures PartsOk(q) && q == p.(gap := q.gap)
    ensures DropWhile(IsSpace, Whole(p)) == Whole(q) && Begun(Whole(q))
  {
    var a := Dropped(IsSpace, p.gap);
    var gap := DropWhile(IsSpace, p.gap);
    assert forall b :: b in gap ==> b in p.gap;
    q := p.(gap := gap);
    var tail := ([34] + p.text) + ([34] + p.behind);
    GapFirst(p, tail);
    GapFirst(q, tail);
    assert a + gap + tail == a + (gap + tail);
    DropsAll(IsSpace, a, gap + tail);
    assert (gap + tail)[0] == if gap == [] then 34 else gap[0];
    if gap != [] { assert gap[0] in gap; }
  }

  lemma GapFirst(p: Parts, tail: Bytes)
    requires p.before == [] && p.tag == [] && !p.marked && tail == ([34] + p.text) + ([34] + p.behind)
    ensures Whole(p) == p.gap + tail
  {
    assert Inside(p) == p.gap + ([34] + p.text);
  }

  /** A line made of these parts is read by its level and its text. */
  lemma WholeLine(p: Parts, level: nat)
    requires PartsOk(p)
    ensures ParsedTrimmed(TrimRight(DropWhile(IsSpace, Whole(p))), level) ==
              if p.marked && Decimal(p.level) % 0x1_0000_0000 > level then Skipped else Quoted([34] + p.text)
  {
    var q := LeadingBlanks(p);
    var tail := [34] + q.text;
    var v := q.tag + (Mark(q) + (q.gap + tail));
    assert Whole(q) == (v + [34]) + q.behind;
    TrimsAll(v + [34], q.behind);
    assert TrimRight(v + [34]) == v + [34];
    assert (v + [34])[..|v|] == v;
    assert (v + [34])[0] == Whole(q)[0];
    LabelRead(q, tail, level);
  }

  lemma LabelRead(q: Parts, tail: Bytes, level: nat)
    requires PartsOk(q) && tail != [] && tail[0] == 34
    ensures Labelled(q.tag + (Mark(q) + (q.gap + tail)), level) ==
              if q.marked && Decimal(q.level) % 0x1_0000_0000 > level then Skipped else Quoted(tail)
  {
    var w := Mark(q) + (q.gap + tail);
    DropsAll(InLabel, q.tag, w);
    assert w[0] == 64 || w[0] == 34 || w[0] in q.gap;
    assert DropWhile(InLabel, w) == w;
    GapRead(q.gap, tail);
    if q.marked {
      assert w[1..] == q.level + q.gap + tail == q.level + (q.gap + tail);
      NumberRead(q.level, q.gap, tail);
      DropsAll(IsDigit, q.level, q.gap + tail);
      assert DropWhile(IsDigit, q.gap + tail) == q.gap + tail by {
        assert (q.gap + tail)[0] == 34 || (q.gap + tail)[0] in q.gap;
      }
    } else {
      assert w == q.gap + tail;
    }
  }

  lemma GapRead(gap: Bytes, tail: Bytes)
    requires Gap(gap) && tail != [] && tail[0] == 34
    ensures AfterLevel(gap + tail) == Quoted(tail)
  {
    DropsAll(InGap, gap, tail);
    assert DropWhile(InGap, tail) == tail;
  }

  /** The line, up to its first NUL, has these parts, its level is not too high, and its
      text stands for t. */
  ghost predicate TokenLine(line: Bytes, level: nat, t: Bytes, p: Parts) {
    && PartsOk(p) && CString(line) == Whole(p)
    && (p.marked ==> Decimal(p.level) % 0x1_0000_0000 <= level)
    && p.text != [] && Spells(p.text, t) && |t| <= 128
  }

  /** What becomes of any line made of these parts. */
  lemma PartsRead(line: Bytes, level: nat, p: Parts)
    requires PartsOk(p) && CString(line) == Whole(p)
    ensures ParsedLine(line, level) == Skipped <==> p.marked && Decimal(p.level) % 0x1_0000_0000 > level
    ensures forall t :: ParsedLine(line, level) == Token(t) <==> TokenLine(line, level, t, p)
    ensures !(p.marked && Decimal(p.level) % 0x1_0000_0000 > level) ==>
              && (p.text == [] ==> ParsedLine(line, level) == Fatal(EmptyKeyword))
              && (forall t :: Spells(p.text, t) && |t| > 128 ==> ParsedLine(line, level) == Fatal(TooBig))
  {
    WholeLine(p, level);
    assert ([34] + p.text)[1..] == p.text;
    forall t ensures Unescaped(p.text) == Text(t) <==> Spells(p.text, t) {
      ReadsSpelled(p.text, t);
    }
  }

  /** A line without the blanks around it. */
  lemma Core(s: Bytes) returns (a: Bytes, u: Bytes, b: Bytes)
    ensures s == a + u + b && Blanks(a) && Blanks(b) && u == TrimRight(DropWhile(IsSpace, s))
    ensures u != [] ==> !IsSpace(u[0]) && !IsSpace(u[|u| - 1])
  {
    a := Dropped(IsSpace, s);
    var s1 := DropWhile(IsSpace, s);
    u := TrimRight(s1);
    b := Trimmed(s1);
    if u != [] { assert u[0] == s1[0]; }
  }

  /** The parts of a line that gives a token. */
  lemma TokenParts(line: Bytes, level: nat, t: Bytes) returns (p: Parts)
    requires ParsedLine(line, level) == Token(t)
    ensures TokenLine(line, level, t, p)
  {
    hide Labelled, Spells;
    var s := CString(line);
    var before, u, behind := Core(s);
    p := LabelParts(u[..|u| - 1], level, t);
    PutBack(s, before, u, behind, p);
    p := p.(before := before, behind := behind);
  }

  lemma PutBack(s: Bytes, before: Bytes, u: Bytes, behind: Bytes, p: Parts)
    requires s == before + u + behind && u != [] && u[|u| - 1] == 34 && Inside(p) == u[..|u| - 1]
    ensures Whole(p.(before := before, behind := behind)) == s
  {
    hide Inside;
    assert Inside(p.(before := before, behind := behind)) == Inside(p) by { SameInside(p, before, behind); }
    assert u == Inside(p) + [34];
    assert s == before + (u + behind);
    assert u + behind == Inside(p) + ([34] + behind);
  }

  lemma SameInside(p: Parts, before: Bytes, behind: Bytes)
    ensures Inside(p.(before := before, behind := behind)) == Inside(p)
  {
  }

  lemma LabelParts(v: Bytes, level: nat, t: Bytes) returns (p: Parts)
    requires Labelled(v, level) == Token(t)
    ensures PartsOk(p) && Inside(p) == v
    ensures p.marked ==> Decimal(p.level) % 0x1_0000_0000 <= level
    ensures p.text != [] && Spells(p.text, t) && |t| <= 128
  {
    hide Spells, TrimRight, Quoted;
    var tag := Dropped(InLabel, v);
    var w := DropWhile(InLabel, v);
    p := MarkParts(w, level, t);
    p := p.(tag := tag);
  }

  lemma MarkParts(w: Bytes, level: nat, t: Bytes) returns (p: Parts)
    requires AfterLabel(w, level) == Token(t)
    ensures PartsOk(p) && p.tag == [] && Mark(p) + (p.gap + ([34] + p.text)) == w
    ensures p.marked ==> Decimal(p.level) % 0x1_0000_0000 <= level
    ensures p.text != [] && Spells(p.text, t) && |t| <= 128
  {
    hide Spells, Quoted, AfterLevel;
    if w != [] && w[0] == 64 {
      var digits := Dropped(IsDigit, w[1..]);
      var gap, text := TextParts(DropWhile(IsDigit, w[1..]), t);
      assert w[1..] == digits + gap + ([34] + text);
      NumberRead(digits, gap, [34] + text);
      p := Parts([], [], true, digits, gap, text, []);
      assert w == [64] + w[1..];
    } else {
      var gap, text := TextParts(w, t);
      p := Parts([], [], false, [], gap, text, []);
    }
  }

  lemma TextParts(w: Bytes, t: Bytes) returns (gap: Bytes, text: Bytes)
    requires AfterLevel(w) == Token(t)
    ensures Gap(gap) && w == gap + ([34] + text) && text != [] && Spells(text, t) && |t| <= 128
  {
    gap := Dropped(InGap, w);
    var x := DropWhile(InGap, w);
    text := x[1..];
    assert x == [34] + text;
    ReadsSpelled(text, t);
  }

  /** The lines that give a token are exactly these. */
  lemma TokenLines(line: Bytes, level: nat, t: Bytes)
    ensures ParsedLine(line, level) == Token(t) <==> exists p :: TokenLine(line, level, t, p)
  {
    if ParsedLine(line, level) == Token(t) {
      var p := TokenParts(line, level, t);
    }
    if p :| TokenLine(line, level, t, p) {
      PartsRead(line, level, p);
    }
  }

  /** A comment: its first byte but for blanks is 35. */
  ghost predicate Comment(s: Bytes) {
    exists a, c :: Blanks(a) && s == a + ([35] + c)
  }

  /** The last byte but for blanks is 34. */
  ghost predicate Closed(s: Bytes) { exists u, b :: ClosedBy(s, u, b) }

  ghost predicate ClosedBy(s: Bytes, u: Bytes, b: Bytes) { Blanks(b) && s == u + [34] + b }

  lemma BlankCore(a: Bytes, u: Bytes, b: Bytes)
    requires Blanks(a) && Blanks(b) && (u != [] ==> !IsSpace(u[0]) && !IsSpace(u[|u| - 1]))
    ensures Blanks(a + u + b) <==> u == []
  {
    if u != [] { assert u[0] in a + u + b; }
  }

  lemma CommentCore(s: Bytes, a: Bytes, u: Bytes, b: Bytes)
    requires Blanks(a) && Blanks(b) && u != [] && !IsSpace(u[0]) && s == a + u + b
    ensures Comment(s) <==> u[0] == 35
  {
    if u[0] == 35 {
      assert s == a + ([35] + (u[1..] + b));
    }
    if a2, c :| Blanks(a2) && s == a2 + ([35] + c) {
      assert s[|a|] == u[0] && s[|a2|] == 35;
      if |a| < |a2| { assert s[|a|] == a2[|a|] && a2[|a|] in a2; }
      if |a2| < |a| { assert s[|a2|] == a[|a2|] && a[|a2|] in a; }
    }
  }

  lemma BlankBehind(s: Bytes, x: Bytes, b: Bytes)
    requires s == x + b && Blanks(b)
    ensures forall k :: |x| <= k < |s| ==> IsSpace(s[k])
  {
    forall k | |x| <= k < |s| ensures IsSpace(s[k]) {
      assert s[k] == b[k - |x|] && b[k - |x|] in b;
    }
  }

  lemma ClosedCore(s: Bytes, a: Bytes, u: Bytes, b: Bytes)
    requires Blanks(b) && u != [] && !IsSpace(u[|u| - 1]) && s == a + u + b
    ensures Closed(s) <==> u[|u| - 1] == 34
  {
    var m := |a| + |u| - 1;
    if u[|u| - 1] == 34 {
      assert ClosedBy(s, a + u[..|u| - 1], b);
    }
    if u2, b2 :| ClosedBy(s, u2, b2) {
      assert |a + u| == m + 1 && |u2 + [34]| == |u2| + 1;
      BlankBehind(s, a + u, b);
      BlankBehind(s, u2 + [34], b2);
      assert s[m] == u[|u| - 1];
      assert s[|u2|] == (u2 + [34])[|u2|] == 34;
      assert m == |u2|;
    }
  }

  lemma {:induction false} EscapeErrors(s: Bytes)
    ensures Unescaped(s) == Bad(NonPrintable) || Unescaped(s) == Bad(BadEscape) || Unescaped(s).Text?
    decreases |s|
  {
    if s != [] && FirstByte(s).Lead? {
      EscapeErrors(s[FirstByte(s).length..]);
    }
  }

  /** Blank lines and comments are skipped; any other line must end in a quote. */
  lemma PlainLines(line: Bytes, level: nat)
    ensures Blanks(CString(line)) || Comment(CString(line)) ==> ParsedLine(line, level) == Skipped
    ensures ParsedLine(line, level) == Fatal(MalformedEnd) <==>
              !Blanks(CString(line)) && !Comment(CString(line)) && !Closed(CString(line))
  {
    var s := CString(line);
    var a, u, b := Core(s);
    BlankCore(a, u, b);
    if u == [] {
      if a2, c :| Blanks(a2) && s == a2 + ([35] + c) {
        assert s[|a2|] == 35 && s[|a2|] in s;
      }
    } else {
      CommentCore(s, a, u, b);
      ClosedCore(s, a, u, b);
      NeverMalformedEnd(u[..|u| - 1], level);
    }
  }

  lemma NeverMalformedEnd(v: Bytes, level: nat)
    ensures Labelled(v, level) != Fatal(MalformedEnd)
  {
    var w := DropWhile(InLabel, v);
    var x := DropWhile(InGap, w);
    if x != [] { EscapeErrors(x[1..]); }
    if w != [] {
      var y := DropWhile(InGap, DropWhile(IsDigit, w[1..]));
      if y != [] { EscapeErrors(y[1..]); }
    }
  }

  // ----- the lines of a file

  /** A line as fgets takes it, from a buffer of 8192 bytes: it ends with a newline, or is as
      long as the buffer can hold, or is the last one. */
  ghost predicate FileLine(l: Bytes, last: bool) {
    && 0 < |l| <= 8191 && 10 !in l[..|l| - 1]
    && (l[|l| - 1] == 10 || |l| == 8191 || last)
  }

  ghost predicate FileLines(lines: seq<Bytes>) {
    forall k :: 0 <= k < |lines| ==> FileLine(lines[k], k == |lines| - 1)
  }

  function Concat(lines: seq<Bytes>): Bytes { if lines == [] then [] else lines[0] + Concat(lines[1..]) }

  /** The tokens that lines give, in order. */
  function TokensOf(parse: LineParser, lines: seq<Bytes>): seq<Bytes> {
    if lines == [] then []
    else TokensOf(parse, lines[..|lines| - 1]) +
         match parse(lines[|lines| - 1]) { case Token(t) => [t] case _ => [] }
  }

  lemma {:induction false} TokensFromFront(parse: LineParser, lines: seq<Bytes>)
    requires lines != []
    ensures TokensOf(parse, lines) == (match parse(lines[0]) case Token(t) => [t] case _ => []) + TokensOf(parse, lines[1..])
    decreases |lines|
  {
    var n := |lines| - 1;
    if n > 0 {
      TokensFromFront(parse, lines[..n]);
      assert lines[..n][1..] == lines[1..][..n - 1] && lines[1..][n - 1] == lines[n];
    }
  }

  lemma {:induction false} LineTaken(l: Bytes, rest: Bytes, room: nat)
    requires 0 < |l| <= room && 10 !in l[..|l| - 1] && (l[|l| - 1] == 10 || |l| == room || rest == [])
    ensures LineLength(l + rest, room) == |l|
    decreases |l|
  {
    if |l| > 1 {
      assert l[0] in l[..|l| - 1];
      assert (l + rest)[1..] == l[1..] + rest;
      assert l[1..][..|l| - 2] == l[..|l| - 1][1..];
      LineTaken(l[1..], rest, room - 1);
    } else {
      assert (l + rest)[0] == l[0] && (l + rest)[1..] == rest;
    }
  }

  lemma FirstLine(l: Bytes, rest: Bytes)
    requires FileLine(l, rest == [])
    ensures LineLength(l + rest, MAX_LINE - 1) == |l| && (l + rest)[..|l|] == l && (l + rest)[|l|..] == rest
  {
    LineTaken(l, rest, 8191);
  }

  lemma {:induction false} NothingConcat(lines: seq<Bytes>)
    requires FileLines(lines)
    ensures Concat(lines) == [] <==> lines == []
  {
    if lines != [] { assert FileLine(lines[0], 0 == |lines| - 1); }
  }

  /** Every file is a list of such lines. */
  lemma {:induction false} SplitFile(file: Bytes) returns (lines: seq<Bytes>)
    ensures FileLines(lines) && Concat(lines) == file
    decreases |file|
  {
    if file == [] {
      lines := [];
    } else {
      var n := LineLength(file, 8191);
      TakenLine(file, 8191);
      var rest := SplitFile(file[n..]);
      NothingConcat(rest);
      lines := [file[..n]] + rest;
      assert lines[1..] == rest;
      forall k | 0 <= k < |lines| ensures FileLine(lines[k], k == |lines| - 1) {
        if k > 0 { assert FileLine(rest[k - 1], k - 1 == |rest| - 1); }
      }
    }
  }

  lemma {:induction false} TakenLine(file: Bytes, room: nat)
    requires file != [] && room > 0
    ensures var n := LineLength(file, room);
            0 < n <= room && 10 !in file[..n - 1] && (file[n - 1] == 10 || n == room || n == |file|)
    decreases |file|
  {
    if file[0] != 10 && |file| > 1 && room > 1 {
      TakenLine(file[1..], room - 1);
      var n := LineLength(file, room);
      assert file[..n - 1] == [file[0]] + file[1..][..n - 2];
    }
  }

  lemma {:induction false} RestOfFile(lines: seq<Bytes>)
    requires FileLines(lines) && lines != []
    ensures FileLines(lines[1..]) && FileLine(lines[0], Concat(lines[1..]) == [])
  {
    assert FileLine(lines[0], 0 == |lines| - 1);
    forall k | 0 <= k < |lines| - 1 ensures FileLine(lines[1..][k], k == |lines| - 2) {
      assert FileLine(lines[k + 1], k + 1 == |lines| - 1);
    }
    NothingConcat(lines[1..]);
  }

  lemma ReadsFirst(parse: LineParser, l: Bytes, rest: Bytes, first: nat)
    requires FileLine(l, rest == [])
    ensures Parsed(parse, l + rest, first) == Joined(parse(l), first, Parsed(parse, rest, first + 1))
  {
    FirstLine(l, rest);
  }

  /** A file is read line by line: if no line ends the program, the tokens of all its lines are
      there in order. */
  lemma {:induction false} LinesRead(parse: LineParser, lines: seq<Bytes>, first: nat)
    requires FileLines(lines) && forall k :: 0 <= k < |lines| ==> !parse(lines[k]).Fatal?
    ensures Parsed(parse, Concat(lines), first) == Loaded(TokensOf(parse, lines))
    decreases |lines|
  {
    if lines != [] {
      hide Parsed, TokensOf;
      RestOfFile(lines);
      ReadsFirst(parse, lines[0], Concat(lines[1..]), first);
      LinesRead(parse, lines[1..], first + 1);
      TokensFromFront(parse, lines);
    }
  }

  /** Otherwise the first line that does is reported, with its number. */
  lemma {:induction false} FirstBadLine(parse: LineParser, lines: seq<Bytes>, first: nat, k: nat)
    requires FileLines(lines) && k < |lines| && parse(lines[k]).Fatal?
    requires forall j :: 0 <= j < k ==> !parse(lines[j]).Fatal?
    ensures Parsed(parse, Concat(lines), first) == Failed(parse(lines[k]).error, first + k)
    decreases |lines|
  {
    hide Parsed;
    RestOfFile(lines);
    ReadsFirst(parse, lines[0], Concat(lines[1..]), first);
    if k > 0 {
      FirstBadLine(parse, lines[1..], first + 1, k - 1);
    }
  }

  /** What reading a file made of these lines gives. */
  ghost predicate ReadsLines(parse: LineParser, lines: seq<Bytes>, res: FileResult) {
    match res
    case Loaded(tokens) => (forall k :: 0 <= k < |lines| ==> !parse(lines[k]).Fatal?) && tokens == TokensOf(parse, lines)
    case Failed(e, n) =>
      && 1 <= n <= |lines| && parse(lines[n - 1]) == Fatal(e)
      && forall j :: 0 <= j < n - 1 ==> !parse(lines[j]).Fatal?
  }

  lemma FirstBad(parse: LineParser, lines: seq<Bytes>) returns (k: nat)
    ensures k <= |lines| && (forall j :: 0 <= j < k ==> !parse(lines[j]).Fatal?)
    ensures k < |lines| ==> parse(lines[k]).Fatal?
  {
    k := 0;
    while k < |lines| && !parse(lines[k]).Fatal?
      invariant k <= |lines| && forall j :: 0 <= j < k ==> !parse(lines[j]).Fatal?
    {
      k := k + 1;
    }
  }

  /** Any file: its lines are read in turn. */
  lemma FileRead(parse: LineParser, file: Bytes) returns (lines: seq<Bytes>)
    ensures FileLines(lines) && Concat(lines) == file && ReadsLines(parse, lines, Parsed(parse, file, 1))
  {
    lines := SplitFile(file);
    var k := FirstBad(parse, lines);
    if k < |lines| {
      FirstBadLine(parse, lines, 1, k);
    } else {
      LinesRead(parse, lines, 1);
    }
  }
}

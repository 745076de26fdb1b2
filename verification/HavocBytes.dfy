/** The edits of the havoc stage and its score again, said of bytes and whole numbers alone. */
module HavocBytes {
  import opened ByteStrings
  import opened Config
  import opened HavocSpec

  /** The unsigned number at a place, lowest byte first, or highest first when swapped. */
  function Word(s: Bytes, at: nat, width: nat, swap: bool): nat
    requires (width == 1 || width == 2 || width == 4) && at + width <= |s|
  {
    if width == 1 then s[at]
    else if width == 2 then
      if swap then 256 * (s[at] as nat) + s[at + 1] else (s[at] as nat) + 256 * (s[at + 1] as nat)
    else if swap then 16777216 * (s[at] as nat) + 65536 * (s[at + 1] as nat) + 256 * (s[at + 2] as nat) + s[at + 3]
    else (s[at] as nat) + 256 * (s[at + 1] as nat) + 65536 * (s[at + 2] as nat) + 16777216 * (s[at + 3] as nat)
  }

  function Range(width: nat): (n: nat)
    ensures n > 0
  {
    if width == 1 then 256 else if width == 2 then 65536 else 4294967296
  }

  /** t is s but for n bytes from at on. */
  ghost predicate SameButAt(s: Bytes, t: Bytes, at: nat, n: nat) {
    |t| == |s| && forall i :: 0 <= i < |s| && !(at <= i < at + n) ==> t[i] == s[i]
  }

  /** The bits of a byte, highest first. */
  const BIT: seq<nat> := [128, 64, 32, 16, 8, 4, 2, 1]

  ghost predicate BitFlipped(s: Bytes, t: Bytes, bit: nat)
    requires bit < 8 * |s|
  {
    var i, w := bit / 8, BIT[bit % 8];
    SameButAt(s, t, i, 1) && if s[i] / w % 2 == 0 then t[i] == s[i] + w else s[i] == t[i] + w
  }

  ghost predicate NumberSet(s: Bytes, t: Bytes, at: nat, width: nat, swap: bool, value: int) {
    && (width == 1 || width == 2 || width == 4) && at + width <= |s|
    && SameButAt(s, t, at, width) && Word(t, at, width, swap) == value % Range(width)
  }

  ghost predicate NumberAdded(s: Bytes, t: Bytes, at: nat, width: nat, swap: bool, delta: int) {
    && (width == 1 || width == 2 || width == 4) && at + width <= |s|
    && SameButAt(s, t, at, width) && Word(t, at, width, swap) == (Word(s, at, width, swap) + delta) % Range(width)
  }

  /** Bit k of a number, from the lowest. */
  function Bit(v: nat, k: nat): nat { if k == 0 then v % 2 else Bit(v / 2, k - 1) }

  ghost predicate BitsToggled(s: Bytes, t: Bytes, at: nat, mask: Byte)
    requires at < |s|
  {
    SameButAt(s, t, at, 1) && t[at] != s[at] && forall k :: 0 <= k < 8 ==> Bit(t[at], k) == (Bit(s[at], k) + Bit(mask, k)) % 2
  }

  ghost predicate AllAre(t: Bytes, from: nat, n: nat, b: Byte) {
    from + n <= |t| && forall i :: from <= i < from + n ==> t[i] == b
  }

  /** What edit e does, in bytes: t comes from s by it. */
  ghost predicate InBytes(e: Edit, s: Bytes, t: Bytes, tokens: set<Bytes>) {
    match e
    case Nothing => t == s
    case FlipBit(bit) => bit < 8 * |s| && BitFlipped(s, t, bit)
    case Set(at, width, swap, value) => NumberSet(s, t, at, width, swap, value) && value in Interesting(width)
    case Add(at, width, swap, delta) => NumberAdded(s, t, at, width, swap, delta) && 1 <= (if delta < 0 then -delta else delta) <= 35
    case Xor(at, mask) => at < |s| && BitsToggled(s, t, at, mask)
    case Delete(from, len) => 0 < len < |s| && from + len <= |s| && t == s[..from] + s[from + len..]
    case Clone(to, from, len) =>
      0 < len && from + len <= |s| && to < |s| && |t| < 1048576 && t == s[..to] + s[from..from + len] + s[to..]
    case InsertFill(to, len, fill) =>
      && 0 < len && to < |s| && |t| == |s| + len < 1048576
      && t[..to] == s[..to] && AllAre(t, to, len, fill) && t[to + len..] == s[to..]
    case Copy(to, from, len) =>
      0 < len < |s| && from + len <= |s| && to + len <= |s| && t == s[..to] + s[from..from + len] + s[to + len..]
    case Fill(to, len, fill) => 0 < len < |s| && to + len <= |s| && SameButAt(s, t, to, len) && AllAre(t, to, len, fill)
    case Overwrite(at, token) => token in tokens && at + |token| <= |s| && t == s[..at] + token + s[at + |token|..]
    case Insert(at, token) => token in tokens && at <= |s| && |t| < 1048576 && t == s[..at] + token + s[at..]
  }

  lemma PatchedBytes(s: Bytes, at: nat, data: Bytes)
    requires at + |data| <= |s|
    ensures SameButAt(s, Patched(s, at, data), at, |data|) && Patched(s, at, data)[at..at + |data|] == data
  {
  }

  lemma WordValue(s: Bytes, at: nat, width: nat, swap: bool)
    requires (width == 1 || width == 2 || width == 4) && at + width <= |s|
    ensures Word(s, at, width, swap) == Value(s[at..at + width], swap)
    ensures Range(width) == Span(width)
  {
    var b := s[at..at + width];
    assert forall i :: 0 <= i < width ==> b[i] == s[at + i];
  }

  lemma NumberWritten(s: Bytes, at: nat, width: nat, swap: bool, v: nat)
    requires (width == 1 || width == 2 || width == 4) && at + width <= |s| && v < Span(width)
    ensures SameButAt(s, Patched(s, at, Number(v, width, swap)), at, width)
    ensures Word(Patched(s, at, Number(v, width, swap)), at, width, swap) == v
  {
    PatchedBytes(s, at, Number(v, width, swap));
    WordValue(Patched(s, at, Number(v, width, swap)), at, width, swap);
    NumberHasValue(v, width, swap);
  }

  lemma FlipInBytes(s: Bytes, bit: nat)
    requires bit < 8 * |s|
    ensures BitFlipped(s, s[bit / 8 := Flipped(s[bit / 8], bit % 8)], bit)
  {
    hide Flipped;
    FlippedByte(s[bit / 8], bit % 8);
  }

  lemma FlippedByte(b: Byte, k: nat)
    requires k < 8
    ensures var f, w := Flipped(b, k), BIT[k]; if b / w % 2 == 0 then f == b + w else b == f + w
  {
    WeightIsBit(k);
  }

  lemma WeightIsBit(k: nat)
    requires k < 8
    ensures Weight(k) == BIT[k]
  {
  }

  lemma XorInBytes(s: Bytes, at: nat, mask: Byte)
    requires at < |s| && mask != 0
    ensures BitsToggled(s, s[at := XorByte(s[at], mask)], at, mask)
  {
    hide XorByte, Bit;
    XorTwice(s[at], mask);
    forall k | 0 <= k < 8 ensures Bit(XorByte(s[at], mask), k) == (Bit(s[at], k) + Bit(mask, k)) % 2 {
      XorByteBit(s[at], mask, k);
    }
  }

  lemma XorByteBit(b: Byte, mask: Byte, k: nat)
    requires k < 8
    ensures Bit(XorByte(b, mask), k) == (Bit(b, k) + Bit(mask, k)) % 2
  {
    hide Bit;
    XorBit(b, mask, 8, k);
  }

  lemma {:induction false} XorBit(a: nat, b: nat, n: nat, k: nat)
    requires k < n
    ensures Bit(XorBits(a, b, n), k) == (Bit(a, k) + Bit(b, k)) % 2
    decreases n
  {
    var x := XorBits(a, b, n);
    assert x / 2 == XorBits(a / 2, b / 2, n - 1) && x % 2 == if a % 2 == b % 2 then 0 else 1;
    if k > 0 {
      XorBit(a / 2, b / 2, n - 1, k - 1);
    } else {
      assert (a % 2 + b % 2) % 2 == if a % 2 == b % 2 then 0 else 1;
    }
  }

  lemma MakesInBytes(e: Edit, s: Bytes, t: Bytes, tokens: set<Bytes>)
    requires Makes(e, s, t, tokens)
    ensures InBytes(e, s, t, tokens)
  {
    hide Flipped, BitFlipped, BitsToggled, XorByte, Number, Word, Patched, SameButAt, AllAre, Value, Interesting, Inserted, Repeat, Reversed, Digit;
    match e
    case FlipBit(bit) => FlipInBytes(s, bit);
    case Set(at, width, swap, value) => NumberWritten(s, at, width, swap, value % Span(width));
    case Add(at, width, swap, delta) =>
      WordValue(s, at, width, swap);
      NumberWritten(s, at, width, swap, (Value(s[at..at + width], swap) + delta) % Span(width));
    case Xor(at, mask) => XorInBytes(s, at, mask);
    case Copy(to, from, len) => PatchedIs(s, to, s[from..from + len]);
    case Overwrite(at, token) => PatchedIs(s, at, token);
    case Fill(to, len, fill) => FillInBytes(s, to, len, fill);
    case InsertFill(to, len, fill) => InsertFillInBytes(s, to, len, fill);
    case Clone(to, from, len) => InsertedIs(s, to, s[from..from + len]);
    case Insert(at, token) => InsertedIs(s, at, token);
    case _ =>
  }

  lemma InsertedIs(s: Bytes, at: nat, data: Bytes)
    requires at <= |s|
    ensures Inserted(s, at, data) == s[..at] + data + s[at..] && |Inserted(s, at, data)| == |s| + |data|
  {
  }

  lemma InsertFillInBytes(s: Bytes, to: nat, len: nat, fill: Byte)
    requires to <= |s|
    ensures var t := Inserted(s, to, Repeat(fill, len));
            |t| == |s| + len && t[..to] == s[..to] && AllAre(t, to, len, fill) && t[to + len..] == s[to..]
  {
  }

  lemma PatchedIs(s: Bytes, at: nat, data: Bytes)
    requires at + |data| <= |s|
    ensures Patched(s, at, data) == s[..at] + data + s[at + |data|..]
  {
  }

  lemma FillInBytes(s: Bytes, to: nat, len: nat, fill: Byte)
    requires to + len <= |s|
    ensures var t := Patched(s, to, Repeat(fill, len)); SameButAt(s, t, to, len) && AllAre(t, to, len, fill)
  {
    PatchedBytes(s, to, Repeat(fill, len));
  }

  /** The values tried, width by width. */
  lemma InterestingAre(v: int)
    ensures v in Interesting(1) <==> v in {-128, -1, 0, 1, 16, 32, 64, 100, 127}
    ensures v in Interesting(2) <==>
              v in Interesting(1) || v in {-32768, -129, 128, 255, 256, 512, 1000, 1024, 4096, 32767}
    ensures v in Interesting(4) <==>
              v in Interesting(2) || v in {-2147483648, -100663046, -32769, 32768, 65535, 65536, 100663045, 2147483647}
  {
  }

  /** The values tried are numbers with a sign of this many bytes. */
  lemma InterestingFits(width: nat, v: int)
    requires (width == 1 || width == 2 || width == 4) && v in Interesting(width)
    ensures 0 <= v + Range(width) / 2 < Range(width)
  {
  }

  // ----- the score in whole numbers

  /** The share for speed, in percent, from cross-multiplied times: below average speed from a
      quarter more time on, above it from half the time down. */
  lemma SpeedBands(m: Measures)
    ensures var us, avg, r := m.execUs, m.avgExecUs, SpeedScore(m);
            && (us > 10 * avg ==> r == 10)
            && (4 * avg < us <= 10 * avg ==> r == 25)
            && (2 * avg < us <= 4 * avg ==> r == 50)
            && (us <= 2 * avg && 4 * avg < 3 * us ==> r == 75)
            && (3 * us <= 4 * avg && avg <= 2 * us ==> r == 100)
            && (2 * us < avg <= 3 * us ==> r == 150)
            && (3 * us < avg <= 4 * us ==> r == 200)
            && (4 * us < avg ==> r == 300)
  {
  }

  /** The share for coverage scales what was there, rounding down. */
  lemma SizeBands(m: Measures, perf: nat)
    ensures var size, avg, r := m.bitmapSize, m.avgBitmapSize, SizeScore(m, perf);
            && (3 * size > 10 * avg ==> r == 3 * perf)
            && (3 * size <= 10 * avg && size > 2 * avg ==> r == 2 * perf)
            && (size <= 2 * avg && 3 * size > 4 * avg ==> 2 * r <= 3 * perf < 2 * r + 2)
            && (3 * size <= 4 * avg && 2 * avg <= 3 * size ==> r == perf)
            && (3 * size < 2 * avg && avg <= 2 * size ==> 4 * r <= 3 * perf < 4 * r + 4)
            && (2 * size < avg <= 3 * size ==> 2 * r <= perf < 2 * r + 2)
            && (3 * size < avg ==> 4 * r <= perf < 4 * r + 4)
  {
  }

  /** Latecomers and deeper entries get more, and the sum is cut at 1600. */
  lemma ScoreFactors(m: Measures)
    ensures var late := if m.handicap == 0 then 1 else if m.handicap <= 3 then 2 else 4;
            var deep := if m.depth <= 3 then 1 else if m.depth <= 7 then 2 else if m.depth <= 13 then 3 else if m.depth <= 25 then 4 else 5;
            var full := SizeScore(m, SpeedScore(m)) * late * deep;
            Score(m) == if full < 1600 then full else 1600
  {
  }
}

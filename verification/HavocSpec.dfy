/** The edits of afl-fuzz's havoc stage, as functions on the input, and the score that
    sets how long the stage runs. */
module HavocSpec {
  import opened ByteStrings
  import opened Config

  const MAX_FILE := 1048576
  const ARITH_MAX := 35
  const HAVOC_BLK_SMALL := 32
  const HAVOC_BLK_MEDIUM := 128
  const HAVOC_BLK_LARGE := 1500
  const HAVOC_BLK_XL := 32768
  const HAVOC_STACK_POW2 := 7
  const HAVOC_MAX_MULT := 16
  const HAVOC_MIN := 16
  const HAVOC_CYCLES := 256
  const HAVOC_CYCLES_INIT := 1024
  const SPLICE_HAVOC := 32

  const INTERESTING_8: seq<int> := [-128, -1, 0, 1, 16, 32, 64, 100, 127]
  const INTERESTING_16: seq<int> :=
    INTERESTING_8 + [-32768, -129, 128, 255, 256, 512, 1000, 1024, 4096, 32767]
  const INTERESTING_32: seq<int> :=
    INTERESTING_16 + [-2147483648, -100663046, -32769, 32768, 65535, 65536, 100663045, 2147483647]

  function Interesting(width: nat): seq<int> {
    if width == 1 then INTERESTING_8 else if width == 2 then INTERESTING_16 else INTERESTING_32
  }

  // ----- numbers in the buffer

  function Span(width: nat): (n: nat)
    ensures n > 0
  {
    if width == 1 then 0x100 else if width == 2 then 0x1_0000 else 0x1_0000_0000
  }

  /** The number v, lowest byte first, or highest first when swapped. */
  function Number(v: nat, width: nat, swap: bool): (b: Bytes)
    requires width == 1 || width == 2 || width == 4
    ensures |b| == width
  {
    var low := if width == 1 then [Digit(v, 0)] else if width == 2 then [Digit(v, 0), Digit(v, 1)]
               else [Digit(v, 0), Digit(v, 1), Digit(v, 2), Digit(v, 3)];
    if swap then Reversed(low) else low
  }

  function Reversed(b: Bytes): (r: Bytes)
    ensures |r| == |b| && forall i :: 0 <= i < |b| ==> r[i] == b[|b| - 1 - i]
  {
    seq(|b|, i requires 0 <= i < |b| => b[|b| - 1 - i])
  }

  function Value(b: Bytes, swap: bool): (v: nat)
    requires |b| == 1 || |b| == 2 || |b| == 4
    ensures v < Span(|b|)
  {
    var low := if swap then Reversed(b) else b;
    if |b| == 1 then low[0]
    else if |b| == 2 then (low[0] as nat) + 0x100 * (low[1] as nat)
    else (low[0] as nat) + 0x100 * (low[1] as nat) + 0x1_0000 * (low[2] as nat) + 0x100_0000 * (low[3] as nat)
  }

  lemma NumberHasValue(v: nat, width: nat, swap: bool)
    requires (width == 1 || width == 2 || width == 4) && v < Span(width)
    ensures Value(Number(v, width, swap), swap) == v
  {
    if width == 2 { TwoDigits(v); }
    if width == 4 { FourDigits(v); }
  }

  /** The bytes of a number after an addition that wraps around. */
  function Added(word: Bytes, swap: bool, delta: int): (r: Bytes)
    requires |word| == 1 || |word| == 2 || |word| == 4
    ensures |r| == |word|
  {
    Number((Value(word, swap) + delta) % Span(|word|), |word|, swap)
  }

  // ----- edits

  datatype Edit =
    | Nothing
    | FlipBit(bit: nat)
    | Set(at: nat, width: nat, swap: bool, value: int)
    | Add(at: nat, width: nat, swap: bool, delta: int)
    | Xor(at: nat, mask: Byte)
    | Delete(from: nat, len: nat)
    | Clone(to: nat, from: nat, len: nat)
    | InsertFill(to: nat, len: nat, fill: Byte)
    | Copy(to: nat, from: nat, len: nat)
    | Fill(to: nat, len: nat, fill: Byte)
    | Overwrite(at: nat, token: Bytes)
    | Insert(at: nat, token: Bytes)

  function Inserted(s: Bytes, at: nat, data: Bytes): Bytes
    requires at <= |s|
  {
    s[..at] + data + s[at..]
  }

  function Repeat(b: Byte, n: nat): (s: Bytes)
    ensures |s| == n && forall i :: 0 <= i < n ==> s[i] == b
  {
    seq(n, i => b)
  }

  function Weight(k: nat): (w: nat)
    requires k < 8
    ensures w > 0
  {
    if k == 0 then 128 else if k == 1 then 64 else if k == 2 then 32 else if k == 3 then 16
    else if k == 4 then 8 else if k == 5 then 4 else if k == 6 then 2 else 1
  }

  /** Bit k of b, counted from the highest, the other way round. */
  function Flipped(b: Byte, k: nat): Byte
    requires k < 8
  {
    if b / Weight(k) % 2 == 1 then b - Weight(k) else b + Weight(k)
  }

  /** Exclusive or on the lowest n bits. */
  function XorBits(a: nat, b: nat, n: nat): (x: nat)
    decreases n
  {
    if n == 0 then 0 else 2 * XorBits(a / 2, b / 2, n - 1) + (if a % 2 == b % 2 then 0 else 1)
  }

  function XorByte(b: Byte, mask: Byte): Byte {
    XorFits(b, mask, 8);
    XorBits(b, mask, 8)
  }

  function TwoTo(n: nat): nat { if n == 0 then 1 else 2 * TwoTo(n - 1) }

  lemma {:induction false} XorFits(a: nat, b: nat, n: nat)
    ensures XorBits(a, b, n) < TwoTo(n) && TwoTo(8) == 256
  {
    if n > 0 { XorFits(a / 2, b / 2, n - 1); }
  }

  /** Where and how an edit may be made. */
  ghost predicate Legal(e: Edit, s: Bytes, tokens: set<Bytes>) {
    match e
    case Nothing => true
    case FlipBit(bit) => bit < 8 * |s|
    case Set(at, width, swap, value) => width in {1, 2, 4} && at + width <= |s| && value in Interesting(width)
    case Add(at, width, swap, delta) => width in {1, 2, 4} && at + width <= |s| && delta != 0 && -ARITH_MAX <= delta <= ARITH_MAX
    case Xor(at, mask) => at < |s| && mask != 0
    case Delete(from, len) => 0 < len < |s| && from + len <= |s|
    case Clone(to, from, len) => 0 < len && from + len <= |s| && to < |s| && |s| + len < MAX_FILE
    case InsertFill(to, len, fill) => 0 < len && to < |s| && |s| + len < MAX_FILE
    case Copy(to, from, len) => 0 < len < |s| && from + len <= |s| && to + len <= |s|
    case Fill(to, len, fill) => 0 < len < |s| && to + len <= |s|
    case Overwrite(at, token) => token in tokens && at + |token| <= |s|
    case Insert(at, token) => token in tokens && at <= |s| && |s| + |token| < MAX_FILE
  }

  ghost function Apply(e: Edit, s: Bytes, tokens: set<Bytes>): Bytes
    requires Legal(e, s, tokens)
  {
    match e
    case Nothing => s
    case FlipBit(bit) => s[bit / 8 := Flipped(s[bit / 8], bit % 8)]
    case Set(at, width, swap, value) => Patched(s, at, Number(value % Span(width), width, swap))
    case Add(at, width, swap, delta) => Patched(s, at, Added(s[at..at + width], swap, delta))
    case Xor(at, mask) => s[at := XorByte(s[at], mask)]
    case Delete(from, len) => s[..from] + s[from + len..]
    case Clone(to, from, len) => Inserted(s, to, s[from..from + len])
    case InsertFill(to, len, fill) => Inserted(s, to, Repeat(fill, len))
    case Copy(to, from, len) => Patched(s, to, s[from..from + len])
    case Fill(to, len, fill) => Patched(s, to, Repeat(fill, len))
    case Overwrite(at, token) => Patched(s, at, token)
    case Insert(at, token) => Inserted(s, at, token)
  }

  /** Edit e makes t out of s. */
  ghost predicate Makes(e: Edit, s: Bytes, t: Bytes, tokens: set<Bytes>) {
    Legal(e, s, tokens) && t == Apply(e, s, tokens)
  }

  lemma AddMakes(s: Bytes, at: nat, width: nat, swap: bool, delta: int, tokens: set<Bytes>)
    requires width in {1, 2, 4} && at + width <= |s| && delta != 0 && -ARITH_MAX <= delta <= ARITH_MAX
    ensures Makes(Add(at, width, swap, delta), s, Patched(s, at, Added(s[at..at + width], swap, delta)), tokens)
  {
  }

  lemma CopyMakes(s: Bytes, to: nat, from: nat, len: nat, tokens: set<Bytes>)
    requires 0 < len < |s| && from + len <= |s| && to + len <= |s|
    ensures Makes(Copy(to, from, len), s, Patched(s, to, s[from..from + len]), tokens)
    ensures from == to ==> Patched(s, to, s[from..from + len]) == s
  {
  }

  lemma NothingMakes(s: Bytes, tokens: set<Bytes>)
    ensures Makes(Nothing, s, s, tokens)
  {
  }

  lemma DeleteMakes(s: Bytes, from: nat, len: nat, tokens: set<Bytes>)
    requires 0 < len < |s| && from + len <= |s|
    ensures Makes(Delete(from, len), s, s[..from] + s[from + len..], tokens)
  {
  }

  lemma XorMakes(s: Bytes, at: nat, mask: Byte, tokens: set<Bytes>)
    requires at < |s| && mask != 0
    ensures Makes(Xor(at, mask), s, s[at := XorByte(s[at], mask)], tokens)
  {
  }

  lemma FillMakes(s: Bytes, to: nat, len: nat, fill: Byte, tokens: set<Bytes>)
    requires 0 < len < |s| && to + len <= |s|
    ensures Makes(Fill(to, len, fill), s, Patched(s, to, Repeat(fill, len)), tokens)
  {
  }

  lemma GrowMakes(s: Bytes, to: nat, from: nat, len: nat, fill: Byte, tokens: set<Bytes>)
    requires 0 < len && to < |s| && |s| + len < MAX_FILE
    ensures from + len <= |s| ==> Makes(Clone(to, from, len), s, Inserted(s, to, s[from..from + len]), tokens)
    ensures Makes(InsertFill(to, len, fill), s, Inserted(s, to, Repeat(fill, len)), tokens)
  {
  }

  /** An input that the target is given: not empty and not too long. */
  predicate Sized(s: Bytes) { 1 <= |s| <= MAX_FILE }

  lemma EditKeepsSize(e: Edit, s: Bytes, tokens: set<Bytes>)
    requires Sized(s) && Legal(e, s, tokens)
    ensures Sized(Apply(e, s, tokens))
  {
  }

  /** t comes from s by n edits. */
  ghost predicate Edited(s: Bytes, t: Bytes, n: nat, tokens: set<Bytes>)
    decreases n
  {
    if n == 0 then s == t
    else exists u, e :: Edited(s, u, n - 1, tokens) && Makes(e, u, t, tokens)
  }

  lemma {:induction false} EditedKeepsSize(s: Bytes, t: Bytes, n: nat, tokens: set<Bytes>)
    requires Sized(s) && Edited(s, t, n, tokens)
    ensures Sized(t)
    decreases n
  {
    if n > 0 {
      var u, e :| Edited(s, u, n - 1, tokens) && Makes(e, u, t, tokens);
      EditedKeepsSize(s, u, n - 1, tokens);
      EditKeepsSize(e, u, tokens);
    }
  }

  /** Neither a flip nor an exclusive or leaves the input as it was; done again, each undoes itself. */
  lemma FlipChanges(s: Bytes, bit: nat, tokens: set<Bytes>)
    requires bit < 8 * |s|
    ensures Apply(FlipBit(bit), s, tokens) != s
    ensures Apply(FlipBit(bit), Apply(FlipBit(bit), s, tokens), tokens) == s
  {
    var b, w := s[bit / 8], Weight(bit % 8);
    FlipTwice(b, bit % 8);
    assert Apply(FlipBit(bit), s, tokens)[bit / 8] == Flipped(b, bit % 8);
  }

  lemma XorChanges(s: Bytes, at: nat, mask: Byte, tokens: set<Bytes>)
    requires at < |s| && mask != 0
    ensures Apply(Xor(at, mask), s, tokens) != s
    ensures Apply(Xor(at, mask), Apply(Xor(at, mask), s, tokens), tokens) == s
  {
    XorTwice(s[at], mask);
    assert Apply(Xor(at, mask), s, tokens)[at] == XorByte(s[at], mask);
  }

  lemma {:induction false} XorUndone(a: nat, b: nat, n: nat)
    requires a < TwoTo(n) && b < TwoTo(n)
    ensures XorBits(XorBits(a, b, n), b, n) == a && (XorBits(a, b, n) == a ==> b == 0)
    decreases n
  {
    if n > 0 {
      XorUndone(a / 2, b / 2, n - 1);
      var x := XorBits(a, b, n);
      assert x / 2 == XorBits(a / 2, b / 2, n - 1) && x % 2 == if a % 2 == b % 2 then 0 else 1;
    }
  }

  lemma XorTwice(b: Byte, mask: Byte)
    ensures mask != 0 ==> XorByte(b, mask) != b
    ensures XorByte(XorByte(b, mask), mask) == b
  {
    XorFits(b, mask, 8);
    XorUndone(b, mask, 8);
  }

  lemma FlipTwice(b: Byte, k: nat)
    requires k < 8
    ensures Flipped(b, k) != b && Flipped(Flipped(b, k), k) == b
  {
  }

  // ----- the score

  /** What calculate_score looks at; the averages are over all calibrated entries. */
  datatype Measures = Measures(execUs: nat, avgExecUs: nat, bitmapSize: nat, avgBitmapSize: nat, handicap: nat, depth: nat)

  function SpeedScore(m: Measures): nat {
    var us, avg := m.execUs as real, m.avgExecUs as real;
    if us * 0.1 > avg then 10 else if us * 0.25 > avg then 25 else if us * 0.5 > avg then 50
    else if us * 0.75 > avg then 75 else if us * 4.0 < avg then 300 else if us * 3.0 < avg then 200
    else if us * 2.0 < avg then 150 else 100
  }

  /** Multiplying by a fraction cuts the result to a whole number. */
  function SizeScore(m: Measures, perf: nat): nat {
    var size, avg := m.bitmapSize as real, m.avgBitmapSize as real;
    if size * 0.3 > avg then perf * 3 else if size * 0.5 > avg then perf * 2 else if size * 0.75 > avg then perf * 3 / 2
    else if size * 3.0 < avg then perf / 4 else if size * 2.0 < avg then perf / 2 else if size * 1.5 < avg then perf * 3 / 4
    else perf
  }

  function HandicapScore(handicap: nat, perf: nat): nat {
    if handicap >= 4 then perf * 4 else if handicap > 0 then perf * 2 else perf
  }

  function DepthScore(depth: nat, perf: nat): nat {
    if depth < 4 then perf else if depth < 8 then perf * 2 else if depth < 14 then perf * 3
    else if depth < 26 then perf * 4 else perf * 5
  }

  function Score(m: Measures): nat {
    var perf := DepthScore(m.depth, HandicapScore(m.handicap, SizeScore(m, SpeedScore(m))));
    if perf > HAVOC_MAX_MULT * 100 then HAVOC_MAX_MULT * 100 else perf
  }

  /** However slow, small and young an entry is, its score is at least 2. */
  lemma ScoreBounds(m: Measures)
    ensures 2 <= Score(m) <= HAVOC_MAX_MULT * 100
  {
  }
}

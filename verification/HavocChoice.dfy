/** What chance makes of one havoc edit: the edit as a function of the random numbers drawn, and
    exactly which edits can come up. */
module HavocChoice {
  import opened ByteStrings
  import opened Config
  import opened HavocSpec

  /** The random numbers in the order in which they are drawn; UR takes them modulo its limit. */
  type Dice = nat -> nat

  /** What the choices depend on beside the input. */
  datatype Stage = Stage(extras: seq<Bytes>, aExtras: seq<Bytes>, queueCycle: nat, runOver10m: bool)

  /** An edit, and the number of the next draw. */
  datatype Chosen = Chosen(edit: Edit, next: nat)

  datatype Length = Length(n: nat, next: nat)

  datatype Token = Token(bytes: Bytes, next: nat)

  datatype Filler = Filler(b: Byte, next: nat)

  function Roll(d: Dice, k: nat, limit: nat): (r: nat)
    requires limit > 0
    ensures r < limit
  {
    d(k) % limit
  }

  function Min(a: nat, b: nat): nat { if a < b then a else b }

  // ----- block lengths

  datatype Bounds = Bounds(lo: nat, hi: nat, next: nat)

  function BoundsFor(d: Dice, k: nat, st: Stage): (b: Bounds)
    requires st.queueCycle >= 1
    ensures 1 <= b.lo < b.hi
  {
    var size := Roll(d, k, if st.runOver10m then Min(st.queueCycle, 3) else 1);
    if size == 0 then Bounds(1, HAVOC_BLK_SMALL, k + 1)
    else if size == 1 then Bounds(HAVOC_BLK_SMALL, HAVOC_BLK_MEDIUM, k + 1)
    else if Roll(d, k + 1, 10) != 0 then Bounds(HAVOC_BLK_MEDIUM, HAVOC_BLK_LARGE, k + 2)
    else Bounds(HAVOC_BLK_LARGE, HAVOC_BLK_XL, k + 2)
  }

  /** choose_block_len. */
  function BlockLen(d: Dice, k: nat, limit: nat, st: Stage): (l: Length)
    requires limit > 0 && st.queueCycle >= 1
    ensures 1 <= l.n <= limit
  {
    var b := BoundsFor(d, k, st);
    var lo := if b.lo >= limit then 1 else b.lo;
    Length(lo + Roll(d, b.next, Min(b.hi, limit) - lo + 1), b.next + 1)
  }

  // ----- edits

  function FlipChoice(d: Dice, k: nat, s: Bytes): Chosen
    requires s != []
  {
    Chosen(FlipBit(Roll(d, k, 8 * |s|)), k + 1)
  }

  /** The byte order, drawn only for more than one byte, the place, and one of some numbers. */
  datatype Spot = Spot(swap: bool, at: nat, pick: nat, next: nat)

  function SpotChoice(d: Dice, k: nat, s: Bytes, width: nat, limit: nat): (p: Spot)
    requires 0 < width <= |s| && limit > 0
    ensures p.at + width <= |s| && p.pick < limit && (p.swap ==> width > 1)
  {
    if width > 1 then Spot(Roll(d, k, 2) == 0, Roll(d, k + 1, |s| - width + 1), Roll(d, k + 2, limit), k + 3)
    else Spot(false, Roll(d, k, |s| - width + 1), Roll(d, k + 1, limit), k + 2)
  }

  function SetChoice(d: Dice, k: nat, s: Bytes, width: nat): Chosen
    requires width in {1, 2, 4}
  {
    if |s| < width then Chosen(Nothing, k)
    else
      var p := SpotChoice(d, k, s, width, |Interesting(width)|);
      Chosen(Set(p.at, width, p.swap, Interesting(width)[p.pick]), p.next)
  }

  function AddChoice(d: Dice, k: nat, s: Bytes, width: nat, minus: bool): Chosen
    requires width in {1, 2, 4}
  {
    if |s| < width then Chosen(Nothing, k)
    else
      var p := SpotChoice(d, k, s, width, ARITH_MAX);
      Chosen(Add(p.at, width, p.swap, if minus then -(1 + p.pick as int) else 1 + p.pick), p.next)
  }

  function XorChoice(d: Dice, k: nat, s: Bytes): Chosen
    requires s != []
  {
    Chosen(Xor(Roll(d, k, |s|), 1 + Roll(d, k + 1, 255)), k + 2)
  }

  function DeleteChoice(d: Dice, k: nat, s: Bytes, st: Stage): Chosen
    requires st.queueCycle >= 1
  {
    if |s| < 2 then Chosen(Nothing, k)
    else
      var l := BlockLen(d, k, |s| - 1, st);
      Chosen(Delete(Roll(d, l.next, |s| - l.n + 1), l.n), l.next + 1)
  }

  /** Half of the time any byte, otherwise one of the input's. */
  function FillChoice(d: Dice, k: nat, s: Bytes): Filler
    requires s != []
  {
    Filler(if Roll(d, k, 2) != 0 then Roll(d, k + 1, 256) else s[Roll(d, k + 1, |s|)], k + 2)
  }

  function CloneChoice(d: Dice, k: nat, s: Bytes, st: Stage): (c: Chosen)
    requires s != [] && st.queueCycle >= 1
  {
    var l := BlockLen(d, k, |s|, st);
    Chosen(Clone(Roll(d, l.next + 1, |s|), Roll(d, l.next, |s| - l.n + 1), l.n), l.next + 2)
  }

  function InsertFillChoice(d: Dice, k: nat, s: Bytes, st: Stage): (c: Chosen)
    requires s != [] && st.queueCycle >= 1
  {
    var l := BlockLen(d, k, HAVOC_BLK_XL, st);
    var f := FillChoice(d, l.next + 1, s);
    Chosen(InsertFill(Roll(d, l.next, |s|), l.n, f.b), f.next)
  }

  function GrowChoice(d: Dice, k: nat, s: Bytes, st: Stage): Chosen
    requires s != [] && st.queueCycle >= 1
  {
    if |s| + HAVOC_BLK_XL >= MAX_FILE then Chosen(Nothing, k)
    else if Roll(d, k, 4) != 0 then CloneChoice(d, k + 1, s, st)
    else InsertFillChoice(d, k + 1, s, st)
  }

  lemma GrowParts(d: Dice, k: nat, s: Bytes, st: Stage)
    requires s != [] && st.queueCycle >= 1
    ensures |s| + HAVOC_BLK_XL >= MAX_FILE ==> GrowChoice(d, k, s, st) == Chosen(Nothing, k)
    ensures |s| + HAVOC_BLK_XL < MAX_FILE ==>
              GrowChoice(d, k, s, st) == if Roll(d, k, 4) != 0 then CloneChoice(d, k + 1, s, st) else InsertFillChoice(d, k + 1, s, st)
  {
    hide CloneChoice, InsertFillChoice, Roll;
  }

  /** A block's length and where it starts and goes. */
  datatype Places = Places(len: nat, from: nat, to: nat, next: nat)

  function PlacesChoice(d: Dice, k: nat, s: Bytes, st: Stage): (p: Places)
    requires |s| >= 2 && st.queueCycle >= 1
    ensures 0 < p.len < |s| && p.from + p.len <= |s| && p.to + p.len <= |s|
  {
    var l := BlockLen(d, k, |s| - 1, st);
    Places(l.n, Roll(d, l.next, |s| - l.n + 1), Roll(d, l.next + 1, |s| - l.n + 1), l.next + 2)
  }

  function OverwriteChoice(d: Dice, k: nat, s: Bytes, st: Stage): Chosen
    requires st.queueCycle >= 1
  {
    if |s| < 2 then Chosen(Nothing, k)
    else
      var p := PlacesChoice(d, k, s, st);
      if Roll(d, p.next, 4) != 0 then Chosen(Copy(p.to, p.from, p.len), p.next + 1)
      else
        var f := FillChoice(d, p.next + 1, s);
        Chosen(Edit.Fill(p.to, p.len, f.b), f.next)
  }

  function TokenChoice(d: Dice, k: nat, st: Stage): (t: Token)
    requires |st.extras| + |st.aExtras| > 0
    ensures t.bytes in st.extras || t.bytes in st.aExtras
  {
    if st.extras == [] then Token(st.aExtras[Roll(d, k, |st.aExtras|)], k + 1)
    else if st.aExtras == [] then Token(st.extras[Roll(d, k, |st.extras|)], k + 1)
    else if Roll(d, k, 2) != 0 then Token(st.aExtras[Roll(d, k + 1, |st.aExtras|)], k + 2)
    else Token(st.extras[Roll(d, k + 1, |st.extras|)], k + 2)
  }

  function OverwriteTokenChoice(d: Dice, k: nat, s: Bytes, st: Stage): Chosen
    requires |st.extras| + |st.aExtras| > 0
  {
    var t := TokenChoice(d, k, st);
    if |t.bytes| > |s| then Chosen(Nothing, t.next)
    else Chosen(Overwrite(Roll(d, t.next, |s| - |t.bytes| + 1), t.bytes), t.next + 1)
  }

  function InsertTokenChoice(d: Dice, k: nat, s: Bytes, st: Stage): Chosen
    requires |st.extras| + |st.aExtras| > 0
  {
    var t := TokenChoice(d, k + 1, st);
    if |s| + |t.bytes| >= MAX_FILE then Chosen(Nothing, t.next)
    else Chosen(Insert(Roll(d, k, |s| + 1), t.bytes), t.next)
  }

  function Kinds(st: Stage): (n: nat)
    ensures n > 0
  {
    15 + if |st.extras| + |st.aExtras| > 0 then 2 else 0
  }

  /** The edit for one kind. */
  function EditOfKind(d: Dice, k: nat, s: Bytes, st: Stage, kind: nat): Chosen
    requires s != [] && st.queueCycle >= 1 && kind < Kinds(st)
  {
    if kind == 0 then FlipChoice(d, k, s)
    else if kind == 1 then SetChoice(d, k, s, 1)
    else if kind == 2 then SetChoice(d, k, s, 2)
    else if kind == 3 then SetChoice(d, k, s, 4)
    else if kind == 4 then AddChoice(d, k, s, 1, true)
    else if kind == 5 then AddChoice(d, k, s, 1, false)
    else if kind == 6 then AddChoice(d, k, s, 2, true)
    else if kind == 7 then AddChoice(d, k, s, 2, false)
    else if kind == 8 then AddChoice(d, k, s, 4, true)
    else if kind == 9 then AddChoice(d, k, s, 4, false)
    else if kind == 10 then XorChoice(d, k, s)
    else if kind <= 12 then DeleteChoice(d, k, s, st)
    else if kind == 13 then GrowChoice(d, k, s, st)
    else if kind == 14 then OverwriteChoice(d, k, s, st)
    else if kind == 15 then OverwriteTokenChoice(d, k, s, st)
    else InsertTokenChoice(d, k, s, st)
  }

  function EditChoice(d: Dice, k: nat, s: Bytes, st: Stage): Chosen
    requires s != [] && st.queueCycle >= 1
  {
    EditOfKind(d, k + 1, s, st, Roll(d, k, Kinds(st)))
  }

  // ----- which edits can come up

  function LongestBlock(st: Stage): nat {
    if !st.runOver10m || st.queueCycle == 1 then 32 else if st.queueCycle == 2 then 128 else 32768
  }

  ghost predicate IsToken(st: Stage, t: Bytes) { t in st.extras || t in st.aExtras }

  /** The edits that chance can bring. */
  ghost predicate Possible(e: Edit, s: Bytes, st: Stage) {
    match e
    case Nothing =>
      || |s| < 4 || |s| + 32768 >= 1048576
      || exists t :: IsToken(st, t) && (|t| > |s| || |s| + |t| >= 1048576)
    case FlipBit(bit) => bit < 8 * |s|
    case Set(at, width, swap, value) =>
      (width == 1 || width == 2 || width == 4) && at + width <= |s| && (swap ==> width > 1) && value in Interesting(width)
    case Add(at, width, swap, delta) =>
      && (width == 1 || width == 2 || width == 4) && at + width <= |s| && (swap ==> width > 1)
      && (1 <= delta <= 35 || -35 <= delta <= -1)
    case Xor(at, mask) => at < |s| && mask != 0
    case Delete(from, len) => 0 < len < |s| && from + len <= |s| && len <= LongestBlock(st)
    case Clone(to, from, len) =>
      0 < len <= LongestBlock(st) && from + len <= |s| && to < |s| && |s| + 32768 < 1048576
    case InsertFill(to, len, fill) => 0 < len <= LongestBlock(st) && to < |s| && |s| + 32768 < 1048576
    case Copy(to, from, len) => 0 < len < |s| && len <= LongestBlock(st) && from + len <= |s| && to + len <= |s|
    case Fill(to, len, fill) => 0 < len < |s| && len <= LongestBlock(st) && to + len <= |s|
    case Overwrite(at, token) => IsToken(st, token) && at + |token| <= |s|
    case Insert(at, token) => IsToken(st, token) && at <= |s| && |s| + |token| < 1048576
  }

  lemma LengthsBounded(d: Dice, k: nat, limit: nat, st: Stage)
    requires limit > 0 && st.queueCycle >= 1
    ensures 1 <= BlockLen(d, k, limit, st).n <= limit && BlockLen(d, k, limit, st).n <= LongestBlock(st)
  {
  }

  lemma KindPossible(d: Dice, k: nat, s: Bytes, st: Stage, kind: nat)
    requires s != [] && st.queueCycle >= 1 && kind < Kinds(st)
    ensures Possible(EditOfKind(d, k, s, st, kind).edit, s, st)
  {
    hide BlockLen, TokenChoice, Interesting, SpotChoice;
    if kind == 11 || kind == 12 || kind == 14 {
      if |s| >= 2 { LengthsBounded(d, k, |s| - 1, st); }
    } else if kind == 13 {
      LengthsBounded(d, k + 1, |s|, st);
      LengthsBounded(d, k + 1, HAVOC_BLK_XL, st);
    } else if kind == 15 {
      assert IsToken(st, TokenChoice(d, k, st).bytes);
    } else if kind == 16 {
      assert IsToken(st, TokenChoice(d, k + 1, st).bytes);
    }
  }

  // ----- how each of them comes up

  ghost predicate Draws(d: Dice, k: nat, v: seq<nat>) {
    forall i :: 0 <= i < |v| ==> d(k + i) == v[i]
  }

  lemma DrawsSplit(d: Dice, k: nat, a: seq<nat>, b: seq<nat>)
    requires Draws(d, k, a + b)
    ensures Draws(d, k, a) && Draws(d, k + |a|, b)
  {
    forall i | 0 <= i < |a| ensures d(k + i) == a[i] {
      assert (a + b)[i] == a[i];
    }
    forall i | 0 <= i < |b| ensures d(k + |a| + i) == b[i] {
      assert (a + b)[|a| + i] == b[i];
      assert d(k + (|a| + i)) == b[i];
    }
  }

  /** A draw below the limit comes out as it is. */
  lemma Drawn(d: Dice, k: nat, v: seq<nat>, i: nat, limit: nat)
    requires Draws(d, k, v) && i < |v| && v[i] < limit
    ensures Roll(d, k + i, limit) == v[i]
  {
  }

  function LenDraws(n: nat): seq<nat>
    requires n >= 1
  {
    if n <= 32 then [0, n - 1] else if n <= 128 then [1, n - 32] else if n <= 1500 then [2, 1, n - 128] else [2, 0, n - 1500]
  }

  lemma LenDrawn(d: Dice, k: nat, limit: nat, st: Stage, n: nat)
    requires st.queueCycle >= 1 && 1 <= n <= limit && n <= LongestBlock(st) && Draws(d, k, LenDraws(n))
    ensures BlockLen(d, k, limit, st) == Length(n, k + |LenDraws(n)|)
  {
    var v := LenDraws(n);
    Drawn(d, k, v, 0, if st.runOver10m then Min(st.queueCycle, 3) else 1);
    if n <= 32 {
      Drawn(d, k, v, 1, Min(HAVOC_BLK_SMALL, limit));
    } else if n <= 128 {
      Drawn(d, k, v, 1, Min(HAVOC_BLK_MEDIUM, limit) - 31);
    } else if n <= 1500 {
      Drawn(d, k, v, 1, 10);
      Drawn(d, k, v, 2, Min(HAVOC_BLK_LARGE, limit) - 127);
    } else {
      Drawn(d, k, v, 1, 10);
      Drawn(d, k, v, 2, Min(HAVOC_BLK_XL, limit) - 1499);
    }
  }

  lemma IndexOf<T>(s: seq<T>, x: T) returns (i: nat)
    requires x in s
    ensures i < |s| && s[i] == x
  {
    i :| i < |s| && s[i] == x;
  }

  /** The draws that bring a token. */
  lemma TokenDraws(st: Stage, t: Bytes) returns (v: seq<nat>)
    requires IsToken(st, t)
    ensures forall d: Dice, k: nat :: Draws(d, k, v) ==> TokenChoice(d, k, st) == Token(t, k + |v|)
  {
    if st.extras == [] {
      var i := IndexOf(st.aExtras, t);
      v := [i];
      forall d: Dice, k: nat | Draws(d, k, v) ensures TokenChoice(d, k, st) == Token(t, k + |v|) {
        Drawn(d, k, v, 0, |st.aExtras|);
      }
    } else if st.aExtras == [] {
      var i := IndexOf(st.extras, t);
      v := [i];
      forall d: Dice, k: nat | Draws(d, k, v) ensures TokenChoice(d, k, st) == Token(t, k + |v|) {
        Drawn(d, k, v, 0, |st.extras|);
      }
    } else if t in st.extras {
      var i := IndexOf(st.extras, t);
      v := [0, i];
      forall d: Dice, k: nat | Draws(d, k, v) ensures TokenChoice(d, k, st) == Token(t, k + |v|) {
        Drawn(d, k, v, 0, 2);
        Drawn(d, k, v, 1, |st.extras|);
      }
    } else {
      var i := IndexOf(st.aExtras, t);
      v := [1, i];
      forall d: Dice, k: nat | Draws(d, k, v) ensures TokenChoice(d, k, st) == Token(t, k + |v|) {
        Drawn(d, k, v, 0, 2);
        Drawn(d, k, v, 1, |st.aExtras|);
      }
    }
  }

  /** The draws v bring edit e. */
  ghost predicate Brings(v: seq<nat>, e: Edit, s: Bytes, st: Stage)
    requires s != [] && st.queueCycle >= 1
  {
    forall d: Dice :: Draws(d, 0, v) ==> EditChoice(d, 0, s, st).edit == e
  }

  /** A kind of edit, and then the draws for it. */
  lemma KindDrawn(d: Dice, kind: nat, v: seq<nat>, s: Bytes, st: Stage)
    requires s != [] && st.queueCycle >= 1 && kind < Kinds(st) && Draws(d, 0, [kind] + v)
    ensures EditChoice(d, 0, s, st) == EditOfKind(d, 1, s, st, kind) && Draws(d, 1, v)
  {
    DrawsSplit(d, 0, [kind], v);
    Drawn(d, 0, [kind], 0, Kinds(st));
  }

  lemma FlipBrought(bit: nat, s: Bytes, st: Stage) returns (v: seq<nat>)
    requires st.queueCycle >= 1 && bit < 8 * |s|
    ensures Brings(v, FlipBit(bit), s, st)
  {
    v := [0] + [bit];
    forall d: Dice | Draws(d, 0, v) ensures EditChoice(d, 0, s, st).edit == FlipBit(bit) {
      KindDrawn(d, 0, [bit], s, st);
      Drawn(d, 1, [bit], 0, 8 * |s|);
    }
  }

  /** The draws for a byte order, which is drawn only for more than one byte, and two more. */
  function OrderDraws(width: nat, swap: bool, a: nat, b: nat): seq<nat> {
    if width == 1 then [a, b] else [if swap then 0 else 1, a, b]
  }

  lemma SpotDrawn(d: Dice, k: nat, s: Bytes, at: nat, width: nat, swap: bool, limit: nat, pick: nat)
    requires 0 < width && at + width <= |s| && (swap ==> width > 1) && pick < limit
    requires Draws(d, k, OrderDraws(width, swap, at, pick))
    ensures var p := SpotChoice(d, k, s, width, limit); p.swap == swap && p.at == at && p.pick == pick
  {
    var v := OrderDraws(width, swap, at, pick);
    if width == 1 {
      Drawn(d, k, v, 0, |s| - width + 1);
      Drawn(d, k, v, 1, limit);
    } else {
      Drawn(d, k, v, 0, 2);
      Drawn(d, k, v, 1, |s| - width + 1);
      Drawn(d, k, v, 2, limit);
    }
  }

  lemma SetBrought(at: nat, width: nat, swap: bool, value: int, s: Bytes, st: Stage) returns (v: seq<nat>)
    requires s != [] && st.queueCycle >= 1 && Possible(Set(at, width, swap, value), s, st)
    ensures Brings(v, Set(at, width, swap, value), s, st)
  {
    hide Interesting, SpotChoice;
    var i := IndexOf(Interesting(width), value);
    var kind := if width == 1 then 1 else if width == 2 then 2 else 3;
    v := [kind] + OrderDraws(width, swap, at, i);
    forall d: Dice | Draws(d, 0, v) ensures EditChoice(d, 0, s, st).edit == Set(at, width, swap, value) {
      KindDrawn(d, kind, OrderDraws(width, swap, at, i), s, st);
      SpotDrawn(d, 1, s, at, width, swap, |Interesting(width)|, i);
    }
  }

  lemma AddBrought(at: nat, width: nat, swap: bool, delta: int, s: Bytes, st: Stage) returns (v: seq<nat>)
    requires s != [] && st.queueCycle >= 1 && Possible(Add(at, width, swap, delta), s, st)
    ensures Brings(v, Add(at, width, swap, delta), s, st)
  {
    hide SpotChoice;
    var num: nat := if delta < 0 then -delta else delta;
    var kind := (if width == 1 then 4 else if width == 2 then 6 else 8) + if delta < 0 then 0 else 1;
    v := [kind] + OrderDraws(width, swap, at, num - 1);
    forall d: Dice | Draws(d, 0, v) ensures EditChoice(d, 0, s, st).edit == Add(at, width, swap, delta) {
      KindDrawn(d, kind, OrderDraws(width, swap, at, num - 1), s, st);
      SpotDrawn(d, 1, s, at, width, swap, ARITH_MAX, num - 1);
    }
  }

  lemma XorBrought(at: nat, mask: Byte, s: Bytes, st: Stage) returns (v: seq<nat>)
    requires st.queueCycle >= 1 && at < |s| && mask != 0
    ensures Brings(v, Xor(at, mask), s, st)
  {
    v := [10] + [at, mask - 1];
    forall d: Dice | Draws(d, 0, v) ensures EditChoice(d, 0, s, st).edit == Xor(at, mask) {
      KindDrawn(d, 10, [at, mask - 1], s, st);
      Drawn(d, 1, [at, mask - 1], 0, |s|);
      Drawn(d, 1, [at, mask - 1], 1, 255);
    }
  }

  lemma DeleteBrought(from: nat, len: nat, s: Bytes, st: Stage) returns (v: seq<nat>)
    requires st.queueCycle >= 1 && 0 < len < |s| && from + len <= |s| && len <= LongestBlock(st)
    ensures Brings(v, Delete(from, len), s, st)
  {
    hide BlockLen, LenDraws;
    v := [11] + (LenDraws(len) + [from]);
    forall d: Dice | Draws(d, 0, v) ensures EditChoice(d, 0, s, st).edit == Delete(from, len) {
      KindDrawn(d, 11, LenDraws(len) + [from], s, st);
      DrawsSplit(d, 1, LenDraws(len), [from]);
      LenDrawn(d, 1, |s| - 1, st, len);
      Drawn(d, 1 + |LenDraws(len)|, [from], 0, |s| - len + 1);
    }
  }

  lemma CloneBrought(to: nat, from: nat, len: nat, s: Bytes, st: Stage) returns (v: seq<nat>)
    requires st.queueCycle >= 1 && Possible(Clone(to, from, len), s, st)
    ensures Brings(v, Clone(to, from, len), s, st)
  {
    hide BlockLen, LenDraws;
    v := [13] + ([1] + (LenDraws(len) + [from, to]));
    forall d: Dice | Draws(d, 0, v) ensures EditChoice(d, 0, s, st).edit == Clone(to, from, len) {
      KindDrawn(d, 13, [1] + (LenDraws(len) + [from, to]), s, st);
      DrawsSplit(d, 1, [1], LenDraws(len) + [from, to]);
      Drawn(d, 1, [1], 0, 4);
      DrawsSplit(d, 2, LenDraws(len), [from, to]);
      LenDrawn(d, 2, |s|, st, len);
      var k := 2 + |LenDraws(len)|;
      Drawn(d, k, [from, to], 0, |s| - len + 1);
      Drawn(d, k, [from, to], 1, |s|);
    }
  }

  lemma FillDrawn(d: Dice, k: nat, s: Bytes, b: Byte)
    requires s != [] && Draws(d, k, [1, b])
    ensures FillChoice(d, k, s).b == b
  {
    Drawn(d, k, [1, b], 0, 2);
    Drawn(d, k, [1, b], 1, 256);
  }

  lemma InsertFillBrought(to: nat, len: nat, fill: Byte, s: Bytes, st: Stage) returns (v: seq<nat>)
    requires st.queueCycle >= 1 && Possible(InsertFill(to, len, fill), s, st)
    ensures Brings(v, InsertFill(to, len, fill), s, st)
  {
    hide BlockLen, LenDraws, FillChoice;
    v := [13] + ([0] + (LenDraws(len) + ([to] + [1, fill])));
    forall d: Dice | Draws(d, 0, v) ensures EditChoice(d, 0, s, st).edit == InsertFill(to, len, fill) {
      KindDrawn(d, 13, [0] + (LenDraws(len) + ([to] + [1, fill])), s, st);
      DrawsSplit(d, 1, [0], LenDraws(len) + ([to] + [1, fill]));
      Drawn(d, 1, [0], 0, 4);
      DrawsSplit(d, 2, LenDraws(len), [to] + [1, fill]);
      LenDrawn(d, 2, HAVOC_BLK_XL, st, len);
      var k := 2 + |LenDraws(len)|;
      DrawsSplit(d, k, [to], [1, fill]);
      Drawn(d, k, [to], 0, |s|);
      FillDrawn(d, k + 1, s, fill);
    }
  }

  lemma CopyBrought(to: nat, from: nat, len: nat, s: Bytes, st: Stage) returns (v: seq<nat>)
    requires st.queueCycle >= 1 && Possible(Copy(to, from, len), s, st)
    ensures Brings(v, Copy(to, from, len), s, st)
  {
    hide BlockLen, LenDraws;
    v := [14] + (LenDraws(len) + [from, to, 1]);
    forall d: Dice | Draws(d, 0, v) ensures EditChoice(d, 0, s, st).edit == Copy(to, from, len) {
      KindDrawn(d, 14, LenDraws(len) + [from, to, 1], s, st);
      DrawsSplit(d, 1, LenDraws(len), [from, to, 1]);
      LenDrawn(d, 1, |s| - 1, st, len);
      var k := 1 + |LenDraws(len)|;
      Drawn(d, k, [from, to, 1], 0, |s| - len + 1);
      Drawn(d, k, [from, to, 1], 1, |s| - len + 1);
      Drawn(d, k, [from, to, 1], 2, 4);
    }
  }

  lemma FillBrought(to: nat, len: nat, fill: Byte, s: Bytes, st: Stage) returns (v: seq<nat>)
    requires st.queueCycle >= 1 && Possible(Edit.Fill(to, len, fill), s, st)
    ensures Brings(v, Edit.Fill(to, len, fill), s, st)
  {
    hide BlockLen, LenDraws, FillChoice;
    v := [14] + (LenDraws(len) + ([0, to, 0] + [1, fill]));
    forall d: Dice | Draws(d, 0, v) ensures EditChoice(d, 0, s, st).edit == Edit.Fill(to, len, fill) {
      KindDrawn(d, 14, LenDraws(len) + ([0, to, 0] + [1, fill]), s, st);
      DrawsSplit(d, 1, LenDraws(len), [0, to, 0] + [1, fill]);
      LenDrawn(d, 1, |s| - 1, st, len);
      var k := 1 + |LenDraws(len)|;
      DrawsSplit(d, k, [0, to, 0], [1, fill]);
      Drawn(d, k, [0, to, 0], 0, |s| - len + 1);
      Drawn(d, k, [0, to, 0], 1, |s| - len + 1);
      Drawn(d, k, [0, to, 0], 2, 4);
      FillDrawn(d, k + 3, s, fill);
    }
  }

  lemma OverwriteTokenDrawn(at: nat, t: Bytes, s: Bytes, st: Stage) returns (v: seq<nat>)
    requires s != [] && st.queueCycle >= 1 && IsToken(st, t) && (|t| <= |s| ==> at + |t| <= |s|)
    ensures Brings(v, if |t| > |s| then Nothing else Overwrite(at, t), s, st)
  {
    hide TokenChoice;
    var u := TokenDraws(st, t);
    v := [15] + (u + [at]);
    forall d: Dice | Draws(d, 0, v) ensures EditChoice(d, 0, s, st).edit == if |t| > |s| then Nothing else Overwrite(at, t) {
      KindDrawn(d, 15, u + [at], s, st);
      DrawsSplit(d, 1, u, [at]);
      if |t| <= |s| { Drawn(d, 1 + |u|, [at], 0, |s| - |t| + 1); }
    }
  }

  lemma InsertTokenDrawn(at: nat, t: Bytes, s: Bytes, st: Stage) returns (v: seq<nat>)
    requires s != [] && st.queueCycle >= 1 && IsToken(st, t) && at <= |s|
    ensures Brings(v, if |s| + |t| >= 1048576 then Nothing else Insert(at, t), s, st)
  {
    hide TokenChoice;
    var u := TokenDraws(st, t);
    v := [16] + ([at] + u);
    forall d: Dice | Draws(d, 0, v)
      ensures EditChoice(d, 0, s, st).edit == if |s| + |t| >= 1048576 then Nothing else Insert(at, t)
    {
      KindDrawn(d, 16, [at] + u, s, st);
      DrawsSplit(d, 1, [at], u);
      Drawn(d, 1, [at], 0, |s| + 1);
    }
  }

  lemma NothingBrought(s: Bytes, st: Stage) returns (v: seq<nat>)
    requires s != [] && st.queueCycle >= 1 && Possible(Nothing, s, st)
    ensures Brings(v, Nothing, s, st)
  {
    if |s| < 4 || |s| + 32768 >= 1048576 {
      var kind := if |s| < 4 then 3 else 13;
      v := [kind] + [];
      forall d: Dice | Draws(d, 0, v) ensures EditChoice(d, 0, s, st).edit == Nothing {
        KindDrawn(d, kind, [], s, st);
      }
    } else {
      var t :| IsToken(st, t) && (|t| > |s| || |s| + |t| >= 1048576);
      if |t| > |s| {
        v := OverwriteTokenDrawn(0, t, s, st);
      } else {
        v := InsertTokenDrawn(0, t, s, st);
      }
    }
  }

  lemma Brought(e: Edit, s: Bytes, st: Stage) returns (v: seq<nat>)
    requires s != [] && st.queueCycle >= 1 && Possible(e, s, st)
    ensures Brings(v, e, s, st)
  {
    hide Brings;
    match e
    case Nothing => v := NothingBrought(s, st);
    case FlipBit(bit) => v := FlipBrought(bit, s, st);
    case Set(at, width, swap, value) => v := SetBrought(at, width, swap, value, s, st);
    case Add(at, width, swap, delta) => v := AddBrought(at, width, swap, delta, s, st);
    case Xor(at, mask) => v := XorBrought(at, mask, s, st);
    case Delete(from, len) => v := DeleteBrought(from, len, s, st);
    case Clone(to, from, len) => v := CloneBrought(to, from, len, s, st);
    case InsertFill(to, len, fill) => v := InsertFillBrought(to, len, fill, s, st);
    case Copy(to, from, len) => v := CopyBrought(to, from, len, s, st);
    case Fill(to, len, fill) => v := FillBrought(to, len, fill, s, st);
    case Overwrite(at, token) => v := OverwriteTokenDrawn(at, token, s, st);
    case Insert(at, token) => v := InsertTokenDrawn(at, token, s, st);
  }

  /** The edits that can come up are exactly the possible ones. */
  lemma ExactlyPossible(e: Edit, s: Bytes, st: Stage)
    requires s != [] && st.queueCycle >= 1
    ensures (exists d: Dice :: EditChoice(d, 0, s, st).edit == e) <==> Possible(e, s, st)
  {
    if Possible(e, s, st) {
      var v := Brought(e, s, st);
      var d: Dice := (k: nat) => if k < |v| then v[k] else 0;
      assert Draws(d, 0, v);
      assert EditChoice(d, 0, s, st).edit == e;
    }
    if d: Dice :| EditChoice(d, 0, s, st).edit == e {
      KindPossible(d, 1, s, st, Roll(d, 0, Kinds(st)));
    }
  }
}

/** What afl-tmin's stages do to the data, as functions, and the minimality they aim at. */
module TminSpec {
  import opened ByteStrings

  /** The byte everything is normalised to, the character '0'. */
  const ZERO: Byte := 48

  type Target = Bytes -> bool

  // ----- powers of two

  predicate PowerOfTwo(n: nat) {
    n == 1 || (n > 1 && n % 2 == 0 && PowerOfTwo(n / 2))
  }

  function DoubledTo(ret: nat, val: nat): (p: nat)
    requires PowerOfTwo(ret) && (ret > 1 ==> ret / 2 < val)
    ensures val <= p && PowerOfTwo(p) && (p > 1 ==> p / 2 < val)
    decreases val - ret
  {
    if val > ret then DoubledTo(2 * ret, val) else ret
  }

  /** The smallest power of two that is at least val. */
  function P2(val: nat): (p: nat)
    ensures val <= p && PowerOfTwo(p) && (p > 1 ==> p / 2 < val)
  {
    DoubledTo(1, val)
  }

  function TwoTo(n: nat): (p: nat)
    ensures p > 0
  {
    if n == 0 then 1 else 2 * TwoTo(n - 1)
  }

  lemma {:induction false} PowersOfTwo(n: nat) returns (k: nat)
    requires PowerOfTwo(n)
    ensures n == TwoTo(k)
  {
    if n == 1 {
      k := 0;
    } else {
      k := PowersOfTwo(n / 2);
      k := k + 1;
    }
  }

  // ----- deleting blocks

  /** s without the block of length len at pos, or without its tail when the block passes the end. */
  function Cut(s: Bytes, pos: nat, len: nat): Bytes
    requires pos <= |s|
  {
    if pos + len <= |s| then s[..pos] + s[pos + len..] else s[..pos]
  }

  /** The deletion loop as it would be without its shortcut: every block is tried. */
  function Sweep(acc: Target, s: Bytes, len: nat, pos: nat): Bytes
    requires len > 0
    decreases |s| - pos
  {
    if pos >= |s| then s
    else if acc(Cut(s, pos, len)) then Sweep(acc, Cut(s, pos, len), len, pos)
    else Sweep(acc, s, len, pos + len)
  }

  function Joined(blocks: seq<Bytes>): Bytes {
    if blocks == [] then [] else blocks[0] + Joined(blocks[1..])
  }

  /** The blocks that are kept, joined. */
  function Kept(blocks: seq<Bytes>, kept: seq<bool>): Bytes
    requires |blocks| == |kept|
  {
    if blocks == [] then [] else (if kept[0] then blocks[0] else []) + Kept(blocks[1..], kept[1..])
  }

  /** All blocks but the last have this length, and that one has at least one byte. */
  ghost predicate BlocksOf(blocks: seq<Bytes>, s: Bytes, len: nat) {
    && Joined(blocks) == s
    && forall k :: 0 <= k < |blocks| ==> 0 < |blocks[k]| <= len && (k < |blocks| - 1 ==> |blocks[k]| == len)
  }

  /** Behind head every block is judged once, in order: it is kept exactly if the target rejects what
      was kept before it together with all that comes behind it. */
  ghost predicate JudgedInTurn(acc: Target, head: Bytes, blocks: seq<Bytes>, kept: seq<bool>)
    requires |blocks| == |kept|
  {
    forall k :: 0 <= k < |blocks| ==> (kept[k] <==> !acc(head + Kept(blocks[..k], kept[..k]) + Joined(blocks[k + 1..])))
  }

  lemma JudgedNext(acc: Target, head: Bytes, b: Bytes, keep: bool, blocks: seq<Bytes>, kept: seq<bool>)
    requires |blocks| == |kept| && (keep <==> !acc(head + Joined(blocks)))
    requires JudgedInTurn(acc, if keep then head + b else head, blocks, kept)
    ensures JudgedInTurn(acc, head, [b] + blocks, [keep] + kept)
  {
    var bs, ks := [b] + blocks, [keep] + kept;
    forall k | 0 <= k < |bs| ensures ks[k] <==> !acc(head + Kept(bs[..k], ks[..k]) + Joined(bs[k + 1..])) {
      if k == 0 {
        assert bs[1..] == blocks && head + [] == head;
      } else {
        KeptShift(head, b, keep, blocks, kept, k - 1);
        assert ks[k] == kept[k - 1];
      }
    }
  }

  lemma KeptShift(head: Bytes, b: Bytes, keep: bool, blocks: seq<Bytes>, kept: seq<bool>, k: nat)
    requires |blocks| == |kept| && k < |blocks|
    ensures head + Kept(([b] + blocks)[..k + 1], ([keep] + kept)[..k + 1]) ==
              (if keep then head + b else head) + Kept(blocks[..k], kept[..k])
    ensures ([b] + blocks)[k + 2..] == blocks[k + 1..]
  {
    var bs, ks := ([b] + blocks)[..k + 1], ([keep] + kept)[..k + 1];
    assert bs[1..] == blocks[..k] && ks[1..] == kept[..k];
  }

  lemma {:induction false} SweepJudges(acc: Target, head: Bytes, s: Bytes, len: nat) returns (blocks: seq<Bytes>, kept: seq<bool>)
    requires len > 0
    ensures BlocksOf(blocks, s, len) && |kept| == |blocks| && JudgedInTurn(acc, head, blocks, kept)
    ensures Sweep(acc, head + s, len, |head|) == head + Kept(blocks, kept)
    decreases |s|
  {
    if s == [] {
      blocks, kept := [], [];
      assert head + s == head;
    } else {
      var n := if len < |s| then len else |s|;
      var b, r := s[..n], s[n..];
      var keep := !acc(head + r);
      var bs, ks := SweepJudges(acc, if keep then head + b else head, r, len);
      blocks, kept := [b] + bs, [keep] + ks;
      SweepStep(acc, head, s, b, r, len, keep, bs, ks);
    }
  }

  lemma SweepStep(acc: Target, head: Bytes, s: Bytes, b: Bytes, r: Bytes, len: nat, keep: bool, bs: seq<Bytes>, ks: seq<bool>)
    requires 0 < |b| <= len && (r != [] ==> |b| == len) && s == b + r && (keep <==> !acc(head + r))
    requires BlocksOf(bs, r, len) && |ks| == |bs|
    requires var next := if keep then head + b else head;
             JudgedInTurn(acc, next, bs, ks) && Sweep(acc, next + r, len, |next|) == next + Kept(bs, ks)
    ensures BlocksOf([b] + bs, s, len) && JudgedInTurn(acc, head, [b] + bs, [keep] + ks)
    ensures Sweep(acc, head + s, len, |head|) == head + Kept([b] + bs, [keep] + ks)
  {
    hide Sweep, JudgedInTurn, BlocksOf;
    BlocksNext(b, bs, r, len);
    JoinedIs(bs, r, len);
    JudgedNext(acc, head, b, keep, bs, ks);
    SweepFirst(acc, head, b, r, len);
    assert head + s == head + b + r;
    KeptNext(b, keep, bs, ks);
    var now := if keep then b else [];
    assert head + (now + Kept(bs, ks)) == head + now + Kept(bs, ks);
    assert head + [] == head;
  }

  lemma KeptNext(b: Bytes, keep: bool, bs: seq<Bytes>, ks: seq<bool>)
    requires |bs| == |ks|
    ensures Kept([b] + bs, [keep] + ks) == (if keep then b else []) + Kept(bs, ks)
  {
    assert ([b] + bs)[1..] == bs && ([keep] + ks)[1..] == ks;
  }

  lemma SweepFirst(acc: Target, head: Bytes, b: Bytes, r: Bytes, len: nat)
    requires 0 < |b| <= len && (r != [] ==> |b| == len)
    ensures var next := if acc(head + r) then head else head + b;
            Sweep(acc, head + b + r, len, |head|) == Sweep(acc, next + r, len, |next|)
  {
    assert Cut(head + b + r, |head|, len) == head + r;
  }

  lemma JoinedIs(blocks: seq<Bytes>, s: Bytes, len: nat)
    requires BlocksOf(blocks, s, len)
    ensures Joined(blocks) == s
  {
  }

  /** What a deletion pass leaves. */
  ghost predicate KeepsJudged(acc: Target, s: Bytes, len: nat, t: Bytes) {
    exists blocks, kept ::
      BlocksOf(blocks, s, len) && |kept| == |blocks| && JudgedInTurn(acc, [], blocks, kept) && t == Kept(blocks, kept)
  }

  lemma SweepKeepsJudged(acc: Target, s: Bytes, len: nat)
    requires len > 0
    ensures KeepsJudged(acc, s, len, Sweep(acc, s, len, 0))
  {
    var blocks, kept := SweepJudges(acc, [], s, len);
    assert [] + s == s && [] + Kept(blocks, kept) == Kept(blocks, kept);
  }

  lemma BlocksNext(b: Bytes, blocks: seq<Bytes>, r: Bytes, len: nat)
    requires BlocksOf(blocks, r, len) && 0 < |b| <= len && (r != [] ==> |b| == len)
    ensures BlocksOf([b] + blocks, b + r, len)
  {
    assert ([b] + blocks)[1..] == blocks;
  }

  /** How often a deletion pass runs the target: not for a full block behind which there is more, if it
      equals the block before it and that one was just rejected. */
  ghost function PassRuns(acc: Target, s: Bytes, len: nat, pos: nat, prevDel: bool): nat
    requires len > 0
    decreases |s| - pos
  {
    if pos >= |s| then 0
    else if !prevDel && len <= pos && pos + len < |s| && s[pos - len..pos] == s[pos..pos + len] then PassRuns(acc, s, len, pos + len, false)
    else if acc(Cut(s, pos, len)) then 1 + PassRuns(acc, Cut(s, pos, len), len, pos, true)
    else 1 + PassRuns(acc, s, len, pos + len, false)
  }

  /** Where the count of runs stands in a pass that started on s0. */
  ghost predicate RunsOk(acc: Target, det: bool, s0: Bytes, s: Bytes, len: nat, pos: nat, prevDel: bool, runs: nat)
    requires len > 0
  {
    det ==> runs + PassRuns(acc, s, len, pos, prevDel) == PassRuns(acc, s0, len, 0, true)
  }

  lemma RunsStart(acc: Target, det: bool, s: Bytes, len: nat)
    requires len > 0
    ensures RunsOk(acc, det, s, s, len, 0, true, 0)
  {
  }

  lemma RunsEnd(acc: Target, det: bool, s0: Bytes, s: Bytes, len: nat, pos: nat, prevDel: bool, runs: nat)
    requires len > 0 && RunsOk(acc, det, s0, s, len, pos, prevDel, runs) && pos >= |s|
    ensures det ==> runs == PassRuns(acc, s0, len, 0, true)
  {
  }

  lemma RunsNext(acc: Target, det: bool, s0: Bytes, s: Bytes, len: nat, pos: nat, prevDel: bool, runs: nat)
    requires len > 0 && RunsOk(acc, det, s0, s, len, pos, prevDel, runs) && pos < |s|
    ensures var same := !prevDel && len <= pos && pos + len < |s| && s[pos - len..pos] == s[pos..pos + len];
            && (same ==> RunsOk(acc, det, s0, s, len, pos + len, false, runs))
            && (!same && (det ==> acc(Cut(s, pos, len))) ==> RunsOk(acc, det, s0, Cut(s, pos, len), len, pos, true, runs + 1))
            && (!same && (det ==> !acc(Cut(s, pos, len))) ==> RunsOk(acc, det, s0, s, len, pos + len, false, runs + 1))
  {
  }

  /** Deleting a block or the equal block after it gives the same data. */
  lemma EqualBlocksSameCut(s: Bytes, pos: nat, len: nat)
    requires len > 0 && pos >= len && pos + len <= |s|
    requires s[pos - len..pos] == s[pos..pos + len]
    ensures Cut(s, pos - len, len) == Cut(s, pos, len)
  {
    var a, b := Cut(s, pos - len, len), Cut(s, pos, len);
    assert |a| == |b|;
    forall i | 0 <= i < |a| ensures a[i] == b[i] {
      if pos - len <= i < pos {
        assert s[pos - len..pos][i - (pos - len)] == s[pos..pos + len][i - (pos - len)];
      }
    }
  }

  /** No single byte can be deleted. */
  ghost predicate OneMinimal(acc: Target, s: Bytes) {
    forall p :: 0 <= p < |s| ==> !acc(Cut(s, p, 1))
  }

  // ----- replacing symbols and characters

  function Replace(s: Bytes, c: Byte): (r: Bytes)
    ensures |r| == |s|
    ensures forall i :: 0 <= i < |s| ==> r[i] == if s[i] == c then ZERO else s[i]
  {
    seq(|s|, i requires 0 <= i < |s| => if s[i] == c then ZERO else s[i])
  }

  /** No symbol other than '0' can be replaced throughout. */
  ghost predicate SymbolMinimal(acc: Target, s: Bytes) {
    forall c :: c in s && c != ZERO ==> !acc(Replace(s, c))
  }

  /** No single byte can be replaced by '0'. */
  ghost predicate CharMinimal(acc: Target, s: Bytes) {
    forall i :: 0 <= i < |s| && s[i] != ZERO ==> !acc(s[i := ZERO])
  }

  /** The symbol stage over the symbols c and up, for the symbols that occur in map. */
  function SymbolSweep(acc: Target, map0: Bytes, s: Bytes, c: nat): (r: Bytes)
    requires c <= 256
    ensures |r| == |s|
    decreases 256 - c
  {
    if c == 256 then s
    else if c != ZERO && c in map0 && acc(Replace(s, c)) then SymbolSweep(acc, map0, Replace(s, c), c + 1)
    else SymbolSweep(acc, map0, s, c + 1)
  }

  /** The character stage from position i on. */
  function CharSweep(acc: Target, s: Bytes, i: nat): (r: Bytes)
    requires i <= |s|
    ensures |r| == |s|
    decreases |s| - i
  {
    if i == |s| then s
    else if s[i] != ZERO && acc(s[i := ZERO]) then CharSweep(acc, s[i := ZERO], i + 1)
    else CharSweep(acc, s, i + 1)
  }

  /** s with every byte in z replaced by '0'. */
  function ZeroAll(s: Bytes, z: set<Byte>): (r: Bytes)
    ensures |r| == |s| && forall i :: 0 <= i < |s| ==> r[i] == if s[i] in z then 48 else s[i]
  {
    seq(|s|, i requires 0 <= i < |s| => if s[i] in z then 48 else s[i])
  }

  /** The symbols below c that a symbol stage replaced: each was tried, in order, with those
      before it that could go replaced too. */
  ghost predicate SymbolsInTurn(acc: Target, s: Bytes, z: set<Byte>, c: nat) {
    forall x: Byte :: x in z <==> x < c && x in s && x != 48 && acc(ZeroAll(s, Below(z, x) + {x}))
  }

  function Below(z: set<Byte>, c: nat): set<Byte> { set x | x in z && x < c }

  /** z, and b with it if that can go. */
  function WithSymbol(acc: Target, s: Bytes, z: set<Byte>, b: Byte): set<Byte> {
    if b != 48 && b in s && acc(ZeroAll(s, z + {b})) then z + {b} else z
  }

  lemma SweepOneSymbol(acc: Target, s: Bytes, z: set<Byte>, b: Byte)
    ensures SymbolSweep(acc, s, ZeroAll(s, z), b) == SymbolSweep(acc, s, ZeroAll(s, WithSymbol(acc, s, z, b)), b + 1)
  {
    assert Replace(ZeroAll(s, z), b) == ZeroAll(s, z + {b});
  }

  lemma {:induction false} SymbolsJudged(acc: Target, s: Bytes, z: set<Byte>, c: nat) returns (all: set<Byte>)
    requires c <= 256 && SymbolsInTurn(acc, s, z, c)
    ensures SymbolsInTurn(acc, s, all, 256) && SymbolSweep(acc, s, ZeroAll(s, z), c) == ZeroAll(s, all)
    decreases 256 - c
  {
    if c == 256 {
      all := z;
    } else {
      hide SymbolsInTurn, SymbolSweep, ZeroAll, WithSymbol;
      SweepOneSymbol(acc, s, z, c);
      SymbolsNext(acc, s, z, c);
      all := SymbolsJudged(acc, s, WithSymbol(acc, s, z, c), c + 1);
    }
  }

  lemma SymbolsNext(acc: Target, s: Bytes, z: set<Byte>, b: Byte)
    requires SymbolsInTurn(acc, s, z, b)
    ensures SymbolsInTurn(acc, s, WithSymbol(acc, s, z, b), b + 1)
  {
    var z2 := WithSymbol(acc, s, z, b);
    assert Below(z, b) == z;
    forall x: Byte | x <= b ensures Below(z2, x) == Below(z, x) {
    }
  }

  /** What the symbol stage leaves. */
  ghost predicate SymbolsReplaced(acc: Target, s: Bytes, t: Bytes) {
    exists z :: SymbolsInTurn(acc, s, z, 256) && t == ZeroAll(s, z)
  }

  lemma SweepReplacesSymbols(acc: Target, s: Bytes)
    ensures SymbolsReplaced(acc, s, SymbolSweep(acc, s, s, 0))
  {
    assert ZeroAll(s, {}) == s;
    var all := SymbolsJudged(acc, s, {}, 0);
  }

  /** The character stage judges every byte once, in order: it becomes '0' exactly if the target accepts
      that, with what was decided before it and the original behind it. */
  lemma {:induction false} CharsJudged(acc: Target, s: Bytes, i: nat)
    requires i <= |s|
    ensures var r := CharSweep(acc, s, i);
            r[..i] == s[..i] &&
            forall k :: i <= k < |s| ==> r[k] == if s[k] != 48 && acc(r[..k] + [48] + s[k + 1..]) then 48 else s[k]
    decreases |s| - i
  {
    if i < |s| {
      var s2 := if s[i] != ZERO && acc(s[i := ZERO]) then s[i := ZERO] else s;
      var r := CharSweep(acc, s, i);
      CharsJudged(acc, s2, i + 1);
      assert r[..i] == r[..i + 1][..i] == s[..i];
      assert s[i := ZERO] == s[..i] + [48] + s[i + 1..];
      assert r[i] == r[..i + 1][i] == s2[i];
      forall k | i < k < |s| ensures s2[k + 1..] == s[k + 1..] && s2[k] == s[k] {
      }
    }
  }

  // ----- the size that every change lowers

  function NonZeros(s: Bytes): nat {
    if s == [] then 0 else NonZeros(s[..|s| - 1]) + (if s[|s| - 1] == ZERO then 0 else 1)
  }

  function Size(s: Bytes): nat { |s| + NonZeros(s) }

  lemma {:induction false} NonZerosConcat(a: Bytes, b: Bytes)
    ensures NonZeros(a + b) == NonZeros(a) + NonZeros(b)
  {
    if b == [] {
      assert a + b == a;
    } else {
      assert (a + b)[..|a + b| - 1] == a + b[..|b| - 1];
      NonZerosConcat(a, b[..|b| - 1]);
    }
  }

  lemma CutSize(s: Bytes, pos: nat, len: nat)
    requires pos < |s| && len > 0
    ensures |Cut(s, pos, len)| < |s| && Size(Cut(s, pos, len)) < Size(s)
  {
    var m := if pos + len <= |s| then pos + len else |s|;
    assert s == s[..pos] + s[pos..m] + s[m..];
    assert Cut(s, pos, len) == s[..pos] + s[m..];
    NonZerosConcat(s[..pos], s[pos..m]);
    NonZerosConcat(s[..pos] + s[pos..m], s[m..]);
    NonZerosConcat(s[..pos], s[m..]);
  }

  /** t is s with some bytes replaced by '0'. */
  ghost predicate Zeroed(t: Bytes, s: Bytes) {
    |t| == |s| && forall i :: 0 <= i < |s| ==> t[i] == s[i] || t[i] == ZERO
  }

  lemma {:induction false} ZeroedSize(t: Bytes, s: Bytes)
    requires Zeroed(t, s)
    ensures Size(t) <= Size(s) && (t != s ==> Size(t) < Size(s))
    decreases |s|
  {
    if s != [] {
      var k := |s| - 1;
      ZeroedSize(t[..k], s[..k]);
      assert t == t[..k] + [t[k]] && s == s[..k] + [s[k]];
    }
  }

  // ----- the output is the input with bytes deleted or replaced by '0'

  ghost predicate Reduced(t: Bytes, s: Bytes) {
    if s == [] then t == []
    else (t != [] && (t[0] == s[0] || t[0] == ZERO) && Reduced(t[1..], s[1..])) || Reduced(t, s[1..])
  }

  /** Nothing but '0' comes in, and nothing grows. */
  lemma {:induction false} ReducedBytes(t: Bytes, s: Bytes)
    requires Reduced(t, s)
    ensures |t| <= |s| && forall b :: b in t ==> b == 48 || b in s
    decreases |s|
  {
    if s != [] {
      if t != [] && (t[0] == s[0] || t[0] == ZERO) && Reduced(t[1..], s[1..]) {
        ReducedBytes(t[1..], s[1..]);
        assert t == [t[0]] + t[1..] && s == [s[0]] + s[1..];
      } else {
        ReducedBytes(t, s[1..]);
      }
    }
  }

  lemma {:induction false} ZeroedReduced(t: Bytes, s: Bytes)
    requires Zeroed(t, s)
    ensures Reduced(t, s)
    decreases |s|
  {
    if s != [] { ZeroedReduced(t[1..], s[1..]); }
  }

  lemma {:induction false} SuffixReduced(s: Bytes, k: nat)
    requires k <= |s|
    ensures Reduced(s[k..], s)
    decreases |s|
  {
    if s == [] {
    } else if k == 0 {
      assert s[0..] == s;
      ZeroedReduced(s, s);
    } else {
      assert s[1..][k - 1..] == s[k..];
      SuffixReduced(s[1..], k - 1);
    }
  }

  lemma {:induction false} CutReduced(s: Bytes, pos: nat, len: nat)
    requires pos <= |s|
    ensures Reduced(Cut(s, pos, len), s)
    decreases |s|
  {
    if pos == 0 {
      var k := if len <= |s| then len else |s|;
      assert Cut(s, 0, len) == s[k..];
      SuffixReduced(s, k);
    } else {
      CutReduced(s[1..], pos - 1, len);
      assert Cut(s, pos, len)[1..] == Cut(s[1..], pos - 1, len);
    }
  }

  lemma {:induction false} ReducedTransitive(a: Bytes, b: Bytes, c: Bytes)
    requires Reduced(a, b) && Reduced(b, c)
    ensures Reduced(a, c)
    decreases |c|, |b|
  {
    if c == [] {
    } else if Reduced(b, c[1..]) {
      ReducedTransitive(a, b, c[1..]);
    } else if Reduced(a, b[1..]) {
      ReducedTransitive(a, b[1..], c[1..]);
    } else {
      ReducedTransitive(a[1..], b[1..], c[1..]);
    }
  }

  // ----- the functions keep what the target accepts

  lemma {:induction false} SweepAccepts(acc: Target, s: Bytes, len: nat, pos: nat)
    requires len > 0 && acc(s)
    ensures acc(Sweep(acc, s, len, pos))
    decreases |s| - pos
  {
    if pos >= |s| {
    } else if acc(Cut(s, pos, len)) {
      SweepAccepts(acc, Cut(s, pos, len), len, pos);
    } else {
      SweepAccepts(acc, s, len, pos + len);
    }
  }

  // ----- the invariant of a deletion pass

  /** s0 is the data at the start and s now.  For a deterministic target (det): the
      block before pos was rejected unless something was just deleted, sweeping on
      from here gives what sweeping from the start gives, and while nothing has
      changed no block before pos can go. */
  ghost predicate PassOk(acc: Target, det: bool, s0: Bytes, s: Bytes, len: nat, pos: nat, prevDel: bool, changed: bool)
    requires len > 0
  {
    && |s| <= |s0| && Reduced(s, s0)
    && (if changed then Size(s) < Size(s0) else s == s0)
    && (!prevDel ==> len <= pos && pos - len <= |s|)
    && (det ==>
      && (!prevDel ==> !acc(Cut(s, pos - len, len)))
      && Sweep(acc, s, len, pos) == Sweep(acc, s0, len, 0)
      && (!changed && len == 1 ==> forall p :: 0 <= p < pos && p < |s| ==> !acc(Cut(s, p, 1))))
  }

  /** What the invariant says, and what it comes to at the end of the pass. */
  lemma PassFacts(acc: Target, det: bool, s0: Bytes, s: Bytes, len: nat, pos: nat, prevDel: bool, changed: bool)
    requires len > 0 && PassOk(acc, det, s0, s, len, pos, prevDel, changed)
    ensures |s| <= |s0| && Reduced(s, s0) && (if changed then Size(s) < Size(s0) else s == s0)
    ensures !prevDel ==> len <= pos
    ensures pos >= |s| && det ==> s == Sweep(acc, s0, len, 0) && (!changed && len == 1 ==> OneMinimal(acc, s))
  {
  }

  lemma PassStart(acc: Target, det: bool, s: Bytes, len: nat)
    requires len > 0
    ensures PassOk(acc, det, s, s, len, 0, true, false)
  {
    ZeroedReduced(s, s);
  }

  /** The shortcut: a block equal to the rejected block before it would be rejected. */
  lemma PassSkip(acc: Target, det: bool, s0: Bytes, s: Bytes, len: nat, pos: nat, changed: bool)
    requires len > 0 && PassOk(acc, det, s0, s, len, pos, false, changed)
    requires pos + len < |s| && s[pos - len..pos] == s[pos..pos + len]
    ensures PassOk(acc, det, s0, s, len, pos + len, false, changed)
  {
    EqualBlocksSameCut(s, pos, len);
  }

  lemma PassReject(acc: Target, det: bool, s0: Bytes, s: Bytes, len: nat, pos: nat, prevDel: bool, changed: bool)
    requires len > 0 && PassOk(acc, det, s0, s, len, pos, prevDel, changed)
    requires pos < |s| && (det ==> !acc(Cut(s, pos, len)))
    ensures PassOk(acc, det, s0, s, len, pos + len, false, changed)
  {
  }

  lemma PassCut(acc: Target, det: bool, s0: Bytes, s: Bytes, len: nat, pos: nat, prevDel: bool, changed: bool)
    requires len > 0 && PassOk(acc, det, s0, s, len, pos, prevDel, changed)
    requires pos < |s| && (det ==> acc(Cut(s, pos, len)))
    ensures PassOk(acc, det, s0, Cut(s, pos, len), len, pos, true, true)
  {
    CutSize(s, pos, len);
    CutReduced(s, pos, len);
    ReducedTransitive(Cut(s, pos, len), s, s0);
  }

  // ----- the invariants of the symbol and character stages

  ghost predicate SymbolsOk(acc: Target, det: bool, s0: Bytes, s: Bytes, c: nat, changed: bool)
    requires c <= 256
  {
    && Zeroed(s, s0) && (changed <==> s != s0)
    && (forall i :: 0 <= i < |s| && s0[i] >= c ==> s[i] == s0[i])
    && (det ==>
      && SymbolSweep(acc, s0, s, c) == SymbolSweep(acc, s0, s0, 0)
      && (!changed ==> forall x :: x in s0 && x < c && x != ZERO ==> !acc(Replace(s0, x))))
  }

  lemma SymbolSkip(acc: Target, det: bool, s0: Bytes, s: Bytes, c: Byte, changed: bool)
    requires SymbolsOk(acc, det, s0, s, c, changed) && (c == ZERO || c !in s0)
    ensures SymbolsOk(acc, det, s0, s, c + 1, changed)
  {
  }

  lemma SymbolStep(acc: Target, det: bool, s0: Bytes, s: Bytes, c: Byte, changed: bool, res: bool)
    requires SymbolsOk(acc, det, s0, s, c, changed) && c != ZERO && c in s0
    requires det ==> (res <==> acc(Replace(s, c)))
    ensures SymbolsOk(acc, det, s0, if res then Replace(s, c) else s, c + 1, changed || res)
  {
    var i :| 0 <= i < |s0| && s0[i] == c;
    assert s[i] == c && Replace(s, c)[i] == ZERO;
  }

  ghost predicate CharsOk(acc: Target, det: bool, s0: Bytes, s: Bytes, i: nat, changed: bool)
    requires i <= |s0|
  {
    && Zeroed(s, s0) && (changed <==> s != s0)
    && (forall k :: i <= k < |s| ==> s[k] == s0[k])
    && (det ==>
      && CharSweep(acc, s, i) == CharSweep(acc, s0, 0)
      && (!changed ==> forall k :: 0 <= k < i && s0[k] != ZERO ==> !acc(s0[k := ZERO])))
  }

  lemma CharStep(acc: Target, det: bool, s0: Bytes, s: Bytes, i: nat, changed: bool, res: bool)
    requires i < |s0| && CharsOk(acc, det, s0, s, i, changed || s != s0)
    requires changed <==> s != s0
    requires res ==> s[i] != ZERO
    requires det ==> (res <==> s[i] != ZERO && acc(s[i := ZERO]))
    ensures CharsOk(acc, det, s0, if res then s[i := ZERO] else s, i + 1, changed || res)
  {
  }

  lemma {:induction false} SymbolSweepAccepts(acc: Target, s0: Bytes, s: Bytes, c: nat)
    requires c <= 256 && acc(s)
    ensures acc(SymbolSweep(acc, s0, s, c))
    decreases 256 - c
  {
    if c == 256 {
    } else if c != ZERO && c in s0 && acc(Replace(s, c)) {
      SymbolSweepAccepts(acc, s0, Replace(s, c), c + 1);
    } else {
      SymbolSweepAccepts(acc, s0, s, c + 1);
    }
  }

  lemma {:induction false} CharSweepAccepts(acc: Target, s: Bytes, i: nat)
    requires i <= |s| && acc(s)
    ensures acc(CharSweep(acc, s, i))
    decreases |s| - i
  {
    if i == |s| {
    } else if s[i] != ZERO && acc(s[i := ZERO]) {
      CharSweepAccepts(acc, s[i := ZERO], i + 1);
    } else {
      CharSweepAccepts(acc, s, i + 1);
    }
  }

  lemma ZeroedDiffers(a: Bytes, b: Bytes, c: Bytes)
    requires Zeroed(b, a) && Zeroed(c, b)
    ensures Zeroed(c, a) && (c == a <==> b == a && c == b)
  {
    if c == a {
      assert forall i :: 0 <= i < |a| ==> b[i] == a[i];
    }
  }
}

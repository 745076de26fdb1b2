/** What afl-tmin's minimizer computes on a deterministic target, as a function, and when
    its result is minimal in every way. */
module TminPasses {
  import opened ByteStrings
  import opened Config
  import opened TminSpec

  const TMIN_SET_STEPS := 128
  const TMIN_SET_MIN_SIZE := 4

  // ----- block normalisation

  /** s with the n bytes at pos, or those there are, replaced by '0'. */
  function ZeroBlock(s: Bytes, pos: nat, n: nat): (r: Bytes)
    ensures |r| == |s|
  {
    seq(|s|, i requires 0 <= i < |s| => if pos <= i < pos + n then ZERO else s[i])
  }

  /** A block that passes the end is cut there. */
  lemma ZeroBlockCut(s: Bytes, pos: nat, n: nat, use: nat)
    requires pos <= |s| && use == if n < |s| - pos then n else |s| - pos
    ensures ZeroBlock(s, pos, use) == ZeroBlock(s, pos, n)
    ensures ZeroBlock(s, pos, n) == s <==> forall i :: pos <= i < pos + use ==> s[i] == ZERO
  {
    if i :| pos <= i < pos + use && s[i] != ZERO {
      assert ZeroBlock(s, pos, n)[i] == ZERO;
    }
  }

  function NormalizeFrom(acc: Target, s: Bytes, setLen: nat, pos: nat): (r: Bytes)
    requires setLen > 0
    ensures |r| == |s|
    decreases |s| - pos
  {
    if pos >= |s| then s
    else
      var z := ZeroBlock(s, pos, setLen);
      NormalizeFrom(acc, if z != s && acc(z) then z else s, setLen, pos + setLen)
  }

  function Zeros(n: nat): Bytes { seq(n, i => 48) }

  /** The blocks, joined, with '0's in the place of those that are zeroed. */
  function Blanked(blocks: seq<Bytes>, zeroed: seq<bool>): Bytes
    requires |blocks| == |zeroed|
  {
    if blocks == [] then [] else (if zeroed[0] then Zeros(|blocks[0]|) else blocks[0]) + Blanked(blocks[1..], zeroed[1..])
  }

  /** Behind head every block that is not all '0' is tried once, in order, with what was decided before it
      and the original behind it. */
  ghost predicate ZeroedInTurn(acc: Target, head: Bytes, blocks: seq<Bytes>, zeroed: seq<bool>)
    requires |blocks| == |zeroed|
  {
    forall k :: 0 <= k < |blocks| ==>
      (zeroed[k] <==>
         && blocks[k] != Zeros(|blocks[k]|)
         && acc(head + Blanked(blocks[..k], zeroed[..k]) + Zeros(|blocks[k]|) + Joined(blocks[k + 1..])))
  }

  lemma ZeroedNext(acc: Target, head: Bytes, b: Bytes, zero: bool, blocks: seq<Bytes>, zeroed: seq<bool>)
    requires |blocks| == |zeroed|
    requires zero <==> b != Zeros(|b|) && acc(head + Zeros(|b|) + Joined(blocks))
    requires ZeroedInTurn(acc, head + if zero then Zeros(|b|) else b, blocks, zeroed)
    ensures ZeroedInTurn(acc, head, [b] + blocks, [zero] + zeroed)
  {
    var bs, zs := [b] + blocks, [zero] + zeroed;
    forall k | 0 <= k < |bs|
      ensures zs[k] <==> bs[k] != Zeros(|bs[k]|) && acc(head + Blanked(bs[..k], zs[..k]) + Zeros(|bs[k]|) + Joined(bs[k + 1..]))
    {
      if k == 0 {
        assert bs[1..] == blocks && head + [] == head;
      } else {
        BlankedShift(head, b, zero, blocks, zeroed, k - 1);
        assert bs[k] == blocks[k - 1] && zs[k] == zeroed[k - 1];
      }
    }
  }

  lemma BlankedShift(head: Bytes, b: Bytes, zero: bool, blocks: seq<Bytes>, zeroed: seq<bool>, k: nat)
    requires |blocks| == |zeroed| && k < |blocks|
    ensures head + Blanked(([b] + blocks)[..k + 1], ([zero] + zeroed)[..k + 1]) ==
              (head + if zero then Zeros(|b|) else b) + Blanked(blocks[..k], zeroed[..k])
    ensures ([b] + blocks)[k + 2..] == blocks[k + 1..]
  {
    assert ([b] + blocks)[..k + 1] == [b] + blocks[..k] && ([zero] + zeroed)[..k + 1] == [zero] + zeroed[..k];
    BlankedNext(b, zero, blocks[..k], zeroed[..k]);
  }

  lemma ZeroFirst(head: Bytes, b: Bytes, r: Bytes, setLen: nat)
    requires 0 < |b| <= setLen && (r != [] ==> |b| == setLen)
    ensures ZeroBlock(head + b + r, |head|, setLen) == head + Zeros(|b|) + r
    ensures ZeroBlock(head + b + r, |head|, setLen) == head + b + r <==> b == Zeros(|b|)
  {
    var s, z := head + b + r, head + Zeros(|b|) + r;
    assert s[|head|..|head| + |b|] == b && z[|head|..|head| + |b|] == Zeros(|b|);
  }

  lemma NormalizeFirst(acc: Target, head: Bytes, b: Bytes, r: Bytes, setLen: nat)
    requires 0 < |b| <= setLen && (r != [] ==> |b| == setLen)
    ensures var next := head + if b != Zeros(|b|) && acc(head + Zeros(|b|) + r) then Zeros(|b|) else b;
            NormalizeFrom(acc, head + b + r, setLen, |head|) == NormalizeFrom(acc, next + r, setLen, |next|)
  {
    ZeroFirst(head, b, r, setLen);
  }

  lemma {:induction false} NormalizeJudges(acc: Target, head: Bytes, s: Bytes, setLen: nat) returns (blocks: seq<Bytes>, zeroed: seq<bool>)
    requires setLen > 0
    ensures BlocksOf(blocks, s, setLen) && |zeroed| == |blocks| && ZeroedInTurn(acc, head, blocks, zeroed)
    ensures NormalizeFrom(acc, head + s, setLen, |head|) == head + Blanked(blocks, zeroed)
    decreases |s|
  {
    if s == [] {
      blocks, zeroed := [], [];
      assert head + s == head;
    } else {
      var n := if setLen < |s| then setLen else |s|;
      var b, r := s[..n], s[n..];
      var zero := b != Zeros(n) && acc(head + Zeros(n) + r);
      var next := head + if zero then Zeros(n) else b;
      var bs, zs := NormalizeJudges(acc, next, r, setLen);
      blocks, zeroed := [b] + bs, [zero] + zs;
      NormalizeStep(acc, head, s, b, r, setLen, zero, bs, zs);
    }
  }

  lemma NormalizeStep(acc: Target, head: Bytes, s: Bytes, b: Bytes, r: Bytes, setLen: nat, zero: bool, bs: seq<Bytes>, zs: seq<bool>)
    requires 0 < |b| <= setLen && (r != [] ==> |b| == setLen) && s == b + r
    requires zero <==> b != Zeros(|b|) && acc(head + Zeros(|b|) + r)
    requires BlocksOf(bs, r, setLen) && |zs| == |bs|
    requires var next := head + if zero then Zeros(|b|) else b;
             ZeroedInTurn(acc, next, bs, zs) && NormalizeFrom(acc, next + r, setLen, |next|) == next + Blanked(bs, zs)
    ensures BlocksOf([b] + bs, s, setLen) && ZeroedInTurn(acc, head, [b] + bs, [zero] + zs)
    ensures NormalizeFrom(acc, head + s, setLen, |head|) == head + Blanked([b] + bs, [zero] + zs)
  {
    hide NormalizeFrom, ZeroedInTurn, BlocksOf;
    BlocksNext(b, bs, r, setLen);
    JoinedIs(bs, r, setLen);
    ZeroedNext(acc, head, b, zero, bs, zs);
    NormalizeFirst(acc, head, b, r, setLen);
    assert head + s == head + b + r;
    BlankedNext(b, zero, bs, zs);
    var now := if zero then Zeros(|b|) else b;
    assert head + (now + Blanked(bs, zs)) == head + now + Blanked(bs, zs);
  }

  lemma BlankedNext(b: Bytes, zero: bool, bs: seq<Bytes>, zs: seq<bool>)
    requires |bs| == |zs|
    ensures Blanked([b] + bs, [zero] + zs) == (if zero then Zeros(|b|) else b) + Blanked(bs, zs)
  {
    assert ([b] + bs)[1..] == bs && ([zero] + zs)[1..] == zs;
  }

  /** What block normalisation leaves. */
  ghost predicate BlocksZeroed(acc: Target, s: Bytes, setLen: nat, t: Bytes) {
    exists blocks, zeroed ::
      && BlocksOf(blocks, s, setLen) && |zeroed| == |blocks|
      && ZeroedInTurn(acc, [], blocks, zeroed) && t == Blanked(blocks, zeroed)
  }

  lemma NormalizeZeroes(acc: Target, s: Bytes, setLen: nat)
    requires setLen > 0
    ensures BlocksZeroed(acc, s, setLen, NormalizeFrom(acc, s, setLen, 0))
  {
    hide ZeroedInTurn, BlocksOf, Blanked, NormalizeFrom;
    var blocks, zeroed := NormalizeJudges(acc, [], s, setLen);
    assert [] + s == s && [] + Blanked(blocks, zeroed) == Blanked(blocks, zeroed);
  }

  function SetLen(n: nat): (len: nat)
    ensures len > 0
  {
    if P2(n / TMIN_SET_STEPS) < TMIN_SET_MIN_SIZE then TMIN_SET_MIN_SIZE else P2(n / TMIN_SET_STEPS)
  }

  function Normalized(acc: Target, s: Bytes): Bytes { NormalizeFrom(acc, s, SetLen(|s|), 0) }

  /** s0 was the data at the start of block normalisation, and s is the data when the blocks
      before pos are done. */
  ghost predicate BlocksOk(acc: Target, det: bool, s0: Bytes, s: Bytes, setLen: nat, pos: nat)
    requires setLen > 0
  {
    Zeroed(s, s0) && (det ==> NormalizeFrom(acc, s, setLen, pos) == NormalizeFrom(acc, s0, setLen, 0))
  }

  lemma BlockStep(acc: Target, det: bool, s0: Bytes, s: Bytes, setLen: nat, pos: nat, zeroed: bool)
    requires setLen > 0 && BlocksOk(acc, det, s0, s, setLen, pos) && pos < |s|
    requires det ==> (zeroed <==> ZeroBlock(s, pos, setLen) != s && acc(ZeroBlock(s, pos, setLen)))
    ensures BlocksOk(acc, det, s0, if zeroed then ZeroBlock(s, pos, setLen) else s, setLen, pos + setLen)
  {
  }

  // ----- block deletion

  function SweepsFrom(acc: Target, s: Bytes, len: nat): Bytes
    requires len > 0
    decreases len
  {
    var d := Sweep(acc, s, len, 0);
    if len > 1 && |d| >= 1 then SweepsFrom(acc, d, len / 2) else d
  }

  function Deleted(acc: Target, s: Bytes): Bytes { SweepsFrom(acc, s, P2(|s| / TRIM_START_STEPS)) }

  /** ds lists the data before and after sweeps at the powers of two from the k-th down. */
  ghost predicate Halving(acc: Target, ds: seq<Bytes>, k: nat) {
    1 < |ds| <= k + 2 && forall i :: 0 < i < |ds| ==> ds[i] == Sweep(acc, ds[i - 1], TwoTo(k + 1 - i), 0)
  }

  lemma LastSweep(acc: Target, s: Bytes, k: nat)
    ensures Halving(acc, [s, Sweep(acc, s, TwoTo(k), 0)], k)
  {
  }

  lemma HalvingNext(acc: Target, s: Bytes, ds: seq<Bytes>, k: nat)
    requires k > 0 && Halving(acc, ds, k - 1) && ds[0] == Sweep(acc, s, TwoTo(k), 0)
    ensures Halving(acc, [s] + ds, k)
  {
    hide Sweep, TwoTo;
    var es := [s] + ds;
    forall i | 0 < i < |es| ensures es[i] == Sweep(acc, es[i - 1], TwoTo(k + 1 - i), 0) {
      assert es[i] == ds[i - 1];
      if i > 1 { assert es[i - 1] == ds[i - 2]; }
    }
  }

  /** Block deletion sweeps once at each power of two from the first length down to 1, or until nothing is left. */
  lemma {:induction false} SweepsHalve(acc: Target, s: Bytes, k: nat) returns (ds: seq<Bytes>)
    ensures 1 < |ds| <= k + 2 && Halving(acc, ds, k) && ds[0] == s && ds[|ds| - 1] == SweepsFrom(acc, s, TwoTo(k))
    ensures |ds| == k + 2 || ds[|ds| - 1] == []
    decreases k
  {
    hide Halving, Sweep;
    var d := Sweep(acc, s, TwoTo(k), 0);
    if k > 0 && |d| >= 1 {
      var rest := SweepsHalve(acc, d, k - 1);
      HalvingNext(acc, s, rest, k);
      ds := [s] + rest;
      assert ds[|ds| - 1] == rest[|rest| - 1];
    } else {
      ds := [s, d];
      LastSweep(acc, s, k);
    }
  }

  /** The lengths that block normalisation and block deletion start with: the least power of two that is
      at least 4 and a 128th of the data, and the least that is at least a 16th. */
  lemma FirstLengths(acc: Target, s: Bytes) returns (setLen: nat, delLen: nat)
    ensures PowerOfTwo(setLen) && 4 <= setLen && |s| / 128 <= setLen && (setLen > 4 ==> setLen / 2 < |s| / 128)
    ensures BlocksZeroed(acc, s, setLen, Normalized(acc, s))
    ensures PowerOfTwo(delLen) && |s| / 16 <= delLen && (delLen > 1 ==> delLen / 2 < |s| / 16)
    ensures Deleted(acc, s) == SweepsFrom(acc, s, delLen) && exists k :: delLen == TwoTo(k)
  {
    setLen := SetLen(|s|);
    delLen := P2(|s| / 16);
    NormalizeZeroes(acc, s, setLen);
    var k := PowersOfTwo(delLen);
    assert PowerOfTwo(2) && PowerOfTwo(4);
  }

  // ----- symbols and characters

  function Content(acc: Target, s: Bytes): (r: Bytes)
    ensures |r| == |s|
  {
    CharSweep(acc, SymbolSweep(acc, s, s, 0), 0)
  }

  // ----- every change lowers the size

  lemma {:induction false} SweepShrinks(acc: Target, s: Bytes, len: nat, pos: nat)
    requires len > 0
    ensures Sweep(acc, s, len, pos) == s || Size(Sweep(acc, s, len, pos)) < Size(s)
    decreases |s| - pos
  {
    if pos >= |s| {
    } else if acc(Cut(s, pos, len)) {
      CutSize(s, pos, len);
      SweepShrinks(acc, Cut(s, pos, len), len, pos);
    } else {
      SweepShrinks(acc, s, len, pos + len);
    }
  }

  lemma {:induction false} SweepsShrink(acc: Target, s: Bytes, len: nat)
    requires len > 0
    ensures SweepsFrom(acc, s, len) == s || Size(SweepsFrom(acc, s, len)) < Size(s)
    decreases len
  {
    var d := Sweep(acc, s, len, 0);
    SweepShrinks(acc, s, len, 0);
    if len > 1 && |d| >= 1 {
      SweepsShrink(acc, d, len / 2);
    }
  }

  lemma {:induction false} SymbolSweepZeroes(acc: Target, map0: Bytes, s: Bytes, c: nat)
    requires c <= 256
    ensures Zeroed(SymbolSweep(acc, map0, s, c), s)
    decreases 256 - c
  {
    if c == 256 {
    } else if c != ZERO && c in map0 && acc(Replace(s, c)) {
      SymbolSweepZeroes(acc, map0, Replace(s, c), c + 1);
    } else {
      SymbolSweepZeroes(acc, map0, s, c + 1);
    }
  }

  lemma {:induction false} CharSweepZeroes(acc: Target, s: Bytes, i: nat)
    requires i <= |s|
    ensures Zeroed(CharSweep(acc, s, i), s) && CharSweep(acc, s, i)[..i] == s[..i]
    decreases |s| - i
  {
    if i == |s| {
    } else if s[i] != ZERO && acc(s[i := ZERO]) {
      CharSweepZeroes(acc, s[i := ZERO], i + 1);
      assert s[i := ZERO][..i] == s[..i];
      assert CharSweep(acc, s, i)[..i] == CharSweep(acc, s, i)[..i + 1][..i];
      assert s[i := ZERO][..i + 1][..i] == s[i := ZERO][..i];
    } else {
      CharSweepZeroes(acc, s, i + 1);
      assert s[..i + 1][..i] == s[..i];
      assert CharSweep(acc, s, i)[..i] == CharSweep(acc, s, i)[..i + 1][..i];
    }
  }

  lemma ContentZeroes(acc: Target, s: Bytes)
    ensures Zeroed(Content(acc, s), s)
  {
    SymbolSweepZeroes(acc, s, s, 0);
    CharSweepZeroes(acc, SymbolSweep(acc, s, s, 0), 0);
  }

  lemma PassShrinks(acc: Target, s: Bytes)
    ensures var d := Deleted(acc, s);
            var c := Content(acc, d);
            (d == s && c == d) || Size(c) < Size(s)
  {
    var d := Deleted(acc, s);
    SweepsShrink(acc, s, P2(|s| / TRIM_START_STEPS));
    ContentZeroes(acc, d);
    ZeroedSize(Content(acc, d), d);
  }

  // ----- the passes

  datatype End = End(data: Bytes, early: bool)

  /** The passes over the stages: the result, and whether the loop was left right after
      block deletion, which happens only from the second pass on. */
  function Passes(acc: Target, s: Bytes, first: bool): End
    decreases Size(s)
  {
    var d := Deleted(acc, s);
    if !first && d == s then End(d, true)
    else
      var c := Content(acc, d);
      if d == s && c == d then End(c, false)
      else
        PassShrinks(acc, s);
        Passes(acc, c, false)
  }

  /** What the minimizer computes. */
  function Minimized(acc: Target, input: Bytes): End { Passes(acc, Normalized(acc, input), true) }

  // ----- the result is accepted when the input is

  lemma {:induction false} NormalizeAccepts(acc: Target, s: Bytes, setLen: nat, pos: nat)
    requires setLen > 0 && acc(s)
    ensures acc(NormalizeFrom(acc, s, setLen, pos))
    decreases |s| - pos
  {
    if pos < |s| {
      var z := ZeroBlock(s, pos, setLen);
      NormalizeAccepts(acc, if z != s && acc(z) then z else s, setLen, pos + setLen);
    }
  }

  lemma {:induction false} SweepsAccept(acc: Target, s: Bytes, len: nat)
    requires len > 0 && acc(s)
    ensures acc(SweepsFrom(acc, s, len))
    decreases len
  {
    SweepAccepts(acc, s, len, 0);
    var d := Sweep(acc, s, len, 0);
    if len > 1 && |d| >= 1 {
      SweepsAccept(acc, d, len / 2);
    }
  }

  lemma {:induction false} PassesAccept(acc: Target, s: Bytes, first: bool)
    requires acc(s)
    ensures acc(Passes(acc, s, first).data)
    decreases Size(s)
  {
    var d := Deleted(acc, s);
    var c := Content(acc, d);
    PassShrinks(acc, s);
    SweepsAccept(acc, s, P2(|s| / TRIM_START_STEPS));
    SymbolSweepAccepts(acc, d, d, 0);
    CharSweepAccepts(acc, SymbolSweep(acc, d, d, 0), 0);
    if !(!first && d == s) && !(d == s && c == d) {
      PassesAccept(acc, c, false);
    }
  }

  lemma MinimizedAccepts(acc: Target, input: Bytes)
    ensures acc(input) ==> acc(Minimized(acc, input).data)
  {
    if acc(input) {
      NormalizeAccepts(acc, input, SetLen(|input|), 0);
      PassesAccept(acc, Normalized(acc, input), true);
    }
  }

  // ----- minimality of the result

  lemma {:induction false} SweepNothing(acc: Target, s: Bytes, pos: nat)
    ensures Sweep(acc, s, 1, pos) == s <==> forall p :: pos <= p < |s| ==> !acc(Cut(s, p, 1))
    decreases |s| - pos
  {
    if pos >= |s| {
    } else if acc(Cut(s, pos, 1)) {
      CutSize(s, pos, 1);
      SweepShrinks(acc, Cut(s, pos, 1), 1, pos);
    } else {
      SweepNothing(acc, s, pos + 1);
    }
  }

  lemma {:induction false} SymbolSweepNothing(acc: Target, map0: Bytes, s: Bytes, c: nat)
    requires c <= 256 && forall x :: x in map0 && c <= x ==> x in s
    ensures SymbolSweep(acc, map0, s, c) == s <==> forall x :: x in map0 && c <= x && x != ZERO ==> !acc(Replace(s, x))
    decreases 256 - c
  {
    if c == 256 {
    } else if c != ZERO && c in map0 && acc(Replace(s, c)) {
      SymbolSweepZeroes(acc, map0, Replace(s, c), c + 1);
      var i :| 0 <= i < |s| && s[i] == c;
      assert Replace(s, c)[i] == ZERO;
    } else {
      SymbolSweepNothing(acc, map0, s, c + 1);
    }
  }

  lemma {:induction false} CharSweepNothing(acc: Target, s: Bytes, i: nat)
    requires i <= |s|
    ensures CharSweep(acc, s, i) == s <==> forall k :: i <= k < |s| && s[k] != ZERO ==> !acc(s[k := ZERO])
    decreases |s| - i
  {
    if i == |s| {
    } else if s[i] != ZERO && acc(s[i := ZERO]) {
      CharSweepZeroes(acc, s[i := ZERO], i + 1);
      assert CharSweep(acc, s, i)[..i + 1][i] == ZERO;
    } else {
      CharSweepNothing(acc, s, i + 1);
    }
  }

  /** Another go at symbols and characters changes nothing just when none can be replaced. */
  lemma ContentMinimal(acc: Target, s: Bytes)
    ensures Content(acc, s) == s <==> SymbolMinimal(acc, s) && CharMinimal(acc, s)
  {
    var m := SymbolSweep(acc, s, s, 0);
    SymbolSweepNothing(acc, s, s, 0);
    CharSweepNothing(acc, m, 0);
    SymbolSweepZeroes(acc, s, s, 0);
    CharSweepZeroes(acc, m, 0);
    ZeroedDiffers(s, m, Content(acc, s));
  }

  /** The minimizer without its early exit. */
  function PassesToTheEnd(acc: Target, s: Bytes): Bytes
    decreases Size(s)
  {
    var d := Deleted(acc, s);
    var c := Content(acc, d);
    if d == s && c == d then c
    else
      PassShrinks(acc, s);
      PassesToTheEnd(acc, c)
  }

  lemma {:induction false} ToTheEndShrinks(acc: Target, s: Bytes)
    ensures Size(PassesToTheEnd(acc, s)) <= Size(s)
    decreases Size(s)
  {
    PassShrinks(acc, s);
    var d := Deleted(acc, s);
    var c := Content(acc, d);
    if !(d == s && c == d) {
      ToTheEndShrinks(acc, c);
    }
  }

  lemma {:induction false} ExitExactly(acc: Target, s: Bytes, first: bool)
    ensures var t := Passes(acc, s, first).data;
            SymbolMinimal(acc, t) && CharMinimal(acc, t) <==> t == PassesToTheEnd(acc, s)
    decreases Size(s)
  {
    var d := Deleted(acc, s);
    var c := Content(acc, d);
    PassShrinks(acc, s);
    ContentMinimal(acc, d);
    if d == s && c == d {
    } else if !first && d == s {
      ToTheEndShrinks(acc, c);
    } else {
      ExitExactly(acc, c, false);
    }
  }

  /** The early exit costs minimality exactly when the passes would not be over: the result
      is symbol- and character-minimal just when the loop without that exit gives it too. */
  lemma MinimalExactly(acc: Target, input: Bytes)
    ensures var t := Minimized(acc, input).data;
            SymbolMinimal(acc, t) && CharMinimal(acc, t) <==> t == PassesToTheEnd(acc, Normalized(acc, input))
  {
    ExitExactly(acc, Normalized(acc, input), true);
  }

  lemma {:induction false} LateExitMinimal(acc: Target, s: Bytes, first: bool)
    ensures var e := Passes(acc, s, first); !e.early ==> SymbolMinimal(acc, e.data) && CharMinimal(acc, e.data)
    decreases Size(s)
  {
    var d := Deleted(acc, s);
    var c := Content(acc, d);
    if (!first && d == s) || (d == s && c == d) {
      ContentMinimal(acc, d);
    } else {
      PassShrinks(acc, s);
      LateExitMinimal(acc, c, false);
    }
  }

  // ----- a target for which the early exit costs nothing

  /** Replacing bytes of a rejected input by '0' never makes the target accept it. */
  ghost predicate ZeroingNeverHelps(acc: Target) {
    forall z, y :: Zeroed(y, z) && !acc(z) ==> !acc(y)
  }

  lemma {:induction false} SymbolsStayRejected(acc: Target, map0: Bytes, s: Bytes, c: nat, t: Bytes, x: Byte)
    requires ZeroingNeverHelps(acc) && c <= x < 256 && x != ZERO && x in map0
    requires Zeroed(t, SymbolSweep(acc, map0, s, c)) && x in t
    ensures !acc(Replace(t, x))
    decreases 256 - c
  {
    if c < x {
      if c != ZERO && c in map0 && acc(Replace(s, c)) {
        SymbolsStayRejected(acc, map0, Replace(s, c), c + 1, t, x);
      } else {
        SymbolsStayRejected(acc, map0, s, c + 1, t, x);
      }
    } else if acc(Replace(s, x)) {
      SymbolSweepZeroes(acc, map0, Replace(s, x), x + 1);
      assert false;
    } else {
      SymbolSweepZeroes(acc, map0, s, x + 1);
      assert Zeroed(Replace(t, x), Replace(s, x));
    }
  }

  lemma {:induction false} CharsStayRejected(acc: Target, s: Bytes, i: nat, k: nat)
    requires ZeroingNeverHelps(acc) && i <= k < |s|
    ensures var t := CharSweep(acc, s, i); t[k] != ZERO ==> !acc(t[k := ZERO])
    decreases |s| - i
  {
    var t := CharSweep(acc, s, i);
    if i < k {
      if s[i] != ZERO && acc(s[i := ZERO]) {
        CharsStayRejected(acc, s[i := ZERO], i + 1, k);
      } else {
        CharsStayRejected(acc, s, i + 1, k);
      }
    } else if s[k] != ZERO && acc(s[k := ZERO]) {
      CharSweepZeroes(acc, s[k := ZERO], k + 1);
    } else {
      CharSweepZeroes(acc, s, k + 1);
      assert t[k] != ZERO ==> Zeroed(t[k := ZERO], s[k := ZERO]);
    }
  }

  lemma ContentStaysMinimal(acc: Target, s: Bytes)
    requires ZeroingNeverHelps(acc)
    ensures SymbolMinimal(acc, Content(acc, s)) && CharMinimal(acc, Content(acc, s))
  {
    var m, t := SymbolSweep(acc, s, s, 0), Content(acc, s);
    ContentZeroes(acc, s);
    CharSweepZeroes(acc, m, 0);
    forall x | x in t && x != ZERO ensures !acc(Replace(t, x)) {
      var i :| 0 <= i < |t| && t[i] == x;
      assert x in s;
      SymbolsStayRejected(acc, s, s, 0, t, x);
    }
    forall k | 0 <= k < |t| && t[k] != ZERO ensures !acc(t[k := ZERO]) {
      CharsStayRejected(acc, m, 0, k);
    }
  }

  lemma {:induction false} PassesMinimal(acc: Target, s: Bytes, first: bool)
    requires ZeroingNeverHelps(acc) && (first || (SymbolMinimal(acc, s) && CharMinimal(acc, s)))
    ensures var t := Passes(acc, s, first).data; SymbolMinimal(acc, t) && CharMinimal(acc, t)
    decreases Size(s)
  {
    var d := Deleted(acc, s);
    var c := Content(acc, d);
    PassShrinks(acc, s);
    ContentStaysMinimal(acc, d);
    if !(!first && d == s) && !(d == s && c == d) {
      PassesMinimal(acc, c, false);
    }
  }

  /** For such a target the result is minimal in every way, on every input. */
  lemma MonotoneTargetMinimal(acc: Target, input: Bytes)
    requires ZeroingNeverHelps(acc)
    ensures var t := Minimized(acc, input).data; SymbolMinimal(acc, t) && CharMinimal(acc, t)
  {
    PassesMinimal(acc, Normalized(acc, input), true);
  }

  // ----- and one for which it does cost something

  function Picky(): Target {
    s => s == [65, 66, 66] || s == [65, 66, 48] || s == [48, 66, 48]
  }

  lemma PickySymbols()
    ensures var s: Bytes := [65, 66, 66]; SymbolSweep(Picky(), s, s, 0) == s
  {
    var s: Bytes := [65, 66, 66];
    assert Replace(s, 65) == [48, 66, 66] && Replace(s, 66) == [65, 48, 48];
    SymbolSweepNothing(Picky(), s, s, 0);
  }

  lemma PickyChars()
    ensures CharSweep(Picky(), [65, 66, 66], 0) == [65, 66, 48]
  {
    var acc: Target, s: Bytes, t: Bytes := Picky(), [65, 66, 66], [65, 66, 48];
    assert s[0 := ZERO] == [48, 66, 66] && s[1 := ZERO] == [65, 48, 66] && s[2 := ZERO] == t;
    assert CharSweep(acc, s, 2) == CharSweep(acc, t, 3) == t;
    assert CharSweep(acc, s, 1) == CharSweep(acc, s, 2);
    assert CharSweep(acc, s, 0) == CharSweep(acc, s, 1);
  }

  lemma PickyKeepsLength(s: Bytes)
    requires |s| == 3
    ensures Deleted(Picky(), s) == s
  {
    SweepNothing(Picky(), s, 0);
    assert P2(0) == 1;
  }

  /** The loop is left at its end if the first pass changes nothing, and only then can that be. */
  lemma LateExitExactly(acc: Target, s: Bytes)
    ensures var d := Deleted(acc, s); !Passes(acc, s, true).early <==> d == s && Content(acc, d) == s
  {
    var d := Deleted(acc, s);
    var c := Content(acc, d);
    PassShrinks(acc, s);
    if !(d == s && c == d) { LaterExitsEarly(acc, c); }
  }

  lemma {:induction false} LaterExitsEarly(acc: Target, s: Bytes)
    ensures Passes(acc, s, false).early
    decreases Size(s)
  {
    var d := Deleted(acc, s);
    var c := Content(acc, d);
    PassShrinks(acc, s);
    if d != s { LaterExitsEarly(acc, c); }
  }

  /** The target accepts three words.  The first pass replaces the last byte of the input,
      and in the second no byte can be deleted, so the loop is left, although the first
      byte of the result, and its symbol, could now be replaced. */
  lemma EarlyExitNotMinimal()
    ensures var acc, e := Picky(), Minimized(Picky(), [65, 66, 66]);
            && acc([65, 66, 66]) && e == End([65, 66, 48], true)
            && !CharMinimal(acc, e.data) && !SymbolMinimal(acc, e.data)
  {
    var acc: Target, s: Bytes, t: Bytes := Picky(), [65, 66, 66], [65, 66, 48];
    assert P2(0) == 1 && SetLen(3) == 4;
    assert ZeroBlock(s, 0, 4) == [48, 48, 48];
    assert Normalized(acc, s) == s;
    PickyKeepsLength(s);
    PickySymbols();
    PickyChars();
    PickyKeepsLength(t);
    assert Passes(acc, t, false) == End(t, true);
    assert Replace(t, 65) == [48, 66, 48] && t[0 := ZERO] == [48, 66, 48];
    assert t[0] == 65 && 65 in t;
  }
}

/** Coverage maps: what a trace takes out of a virgin map, over whole runs. */
module CoverageSpec {
  type Map = seq<bv8>

  // ----- one trace against one virgin map

  /** The virgin map after a trace: every bit of the trace is gone. */
  function Clear(virgin: Map, trace: Map): (r: Map)
    requires |virgin| == |trace|
    ensures |r| == |virgin| && forall i :: 0 <= i < |virgin| ==> r[i] == virgin[i] & !trace[i]
  {
    seq(|virgin|, i requires 0 <= i < |virgin| => virgin[i] & !trace[i])
  }

  ghost predicate NewTuple(virgin: Map, trace: Map)
    requires |virgin| == |trace|
  {
    exists i :: 0 <= i < |virgin| && trace[i] != 0 && virgin[i] == 0xff
  }

  ghost predicate NewBits(virgin: Map, trace: Map)
    requires |virgin| == |trace|
  {
    exists i :: 0 <= i < |virgin| && Shares(virgin[i], trace[i])
  }

  predicate Shares(v: bv8, t: bv8) { t & v != 0 }

  /** 2 for a tuple never hit, 1 for a hit count never seen, 0 for neither. */
  ghost function Verdict(virgin: Map, trace: Map): nat
    requires |virgin| == |trace|
  {
    if NewTuple(virgin, trace) then 2 else if NewBits(virgin, trace) then 1 else 0
  }

  // ----- whole runs

  ghost predicate Sized(n: nat, traces: seq<Map>) {
    forall k :: 0 <= k < |traces| ==> |traces[k]| == n
  }

  /** The virgin map after a run of traces. */
  function After(virgin: Map, traces: seq<Map>): (r: Map)
    requires Sized(|virgin|, traces)
    ensures |r| == |virgin|
  {
    if traces == [] then virgin else Clear(After(virgin, traces[..|traces| - 1]), traces[|traces| - 1])
  }

  /** Some trace of the run has bit m at position i. */
  ghost predicate Hit(traces: seq<Map>, i: nat, m: bv8) {
    exists k :: 0 <= k < |traces| && i < |traces[k]| && traces[k][i] & m != 0
  }

  ghost predicate OneBit(m: bv8) {
    m == 1 || m == 2 || m == 4 || m == 8 || m == 16 || m == 32 || m == 64 || m == 128
  }

  lemma ClearBit(v: bv8, t: bv8, m: bv8)
    requires OneBit(m)
    ensures (v & !t) & m != 0 <==> v & m != 0 && t & m == 0
  {
  }

  /** A bit is left exactly when it was there and no trace of the run has it. */
  lemma {:induction false} AfterBit(virgin: Map, traces: seq<Map>, i: nat, m: bv8)
    requires Sized(|virgin|, traces) && i < |virgin| && OneBit(m)
    ensures After(virgin, traces)[i] & m != 0 <==> virgin[i] & m != 0 && !Hit(traces, i, m)
    decreases |traces|
  {
    if traces != [] {
      var k := |traces| - 1;
      var p := traces[..k];
      AfterBit(virgin, p, i, m);
      ClearBit(After(virgin, p)[i], traces[k][i], m);
      assert Hit(traces, i, m) <==> Hit(p, i, m) || traces[k][i] & m != 0 by {
        if Hit(p, i, m) {
          var j :| 0 <= j < |p| && i < |p[j]| && p[j][i] & m != 0;
          assert traces[j][i] & m != 0;
        }
        if Hit(traces, i, m) {
          var j :| 0 <= j < |traces| && i < |traces[j]| && traces[j][i] & m != 0;
          assert j == k || p[j][i] & m != 0;
        }
      }
    }
  }

  lemma SameBits(a: bv8, b: bv8)
    requires a & 1 != 0 <==> b & 1 != 0
    requires a & 2 != 0 <==> b & 2 != 0
    requires a & 4 != 0 <==> b & 4 != 0
    requires a & 8 != 0 <==> b & 8 != 0
    requires a & 16 != 0 <==> b & 16 != 0
    requires a & 32 != 0 <==> b & 32 != 0
    requires a & 64 != 0 <==> b & 64 != 0
    requires a & 128 != 0 <==> b & 128 != 0
    ensures a == b
  {
  }

  lemma HitAgain(a: seq<Map>, b: seq<Map>, i: nat, m: bv8)
    requires (forall t :: t in a ==> t in b) && Hit(a, i, m)
    ensures Hit(b, i, m)
  {
    var k :| 0 <= k < |a| && i < |a[k]| && a[k][i] & m != 0;
    assert a[k] in b;
    var j :| 0 <= j < |b| && b[j] == a[k];
  }

  /** The same traces, in whatever order and however often, leave the same map. */
  lemma OrderDoesNotMatter(virgin: Map, a: seq<Map>, b: seq<Map>)
    requires Sized(|virgin|, a) && Sized(|virgin|, b)
    requires forall t :: t in a <==> t in b
    ensures After(virgin, a) == After(virgin, b)
  {
    forall i | 0 <= i < |virgin| ensures After(virgin, a)[i] == After(virgin, b)[i] {
      forall m: bv8 | OneBit(m) ensures After(virgin, a)[i] & m != 0 <==> After(virgin, b)[i] & m != 0 {
        AfterBit(virgin, a, i, m);
        AfterBit(virgin, b, i, m);
        if Hit(a, i, m) { HitAgain(a, b, i, m); }
        if Hit(b, i, m) { HitAgain(b, a, i, m); }
      }
      assert OneBit(1) && OneBit(2) && OneBit(4) && OneBit(8) && OneBit(16) && OneBit(32) && OneBit(64) && OneBit(128);
      SameBits(After(virgin, a)[i], After(virgin, b)[i]);
    }
  }

  ghost predicate AllSet(virgin: Map) {
    forall i :: 0 <= i < |virgin| ==> virgin[i] == 0xff
  }

  /** No trace of the run touches position i. */
  ghost predicate Untouched(traces: seq<Map>, i: nat) {
    forall k :: 0 <= k < |traces| && i < |traces[k]| ==> traces[k][i] == 0
  }

  lemma {:induction false} StillVirgin(virgin: Map, traces: seq<Map>, i: nat)
    requires Sized(|virgin|, traces) && i < |virgin| && virgin[i] == 0xff
    ensures After(virgin, traces)[i] == 0xff <==> Untouched(traces, i)
    decreases |traces|
  {
    if traces != [] {
      var k := |traces| - 1;
      var p := traces[..k];
      StillVirgin(virgin, p, i);
      var v, t := After(virgin, p)[i], traces[k][i];
      assert v & !t == 0xff <==> v == 0xff && t == 0;
      assert Untouched(traces, i) <==> Untouched(p, i) && t == 0 by {
        assert forall j :: 0 <= j < k ==> p[j] == traces[j];
      }
    }
  }

  /** Trace t has, at position i, a bit that no trace of the run has there. */
  ghost predicate FreshBit(traces: seq<Map>, t: Map, i: nat, m: bv8) {
    i < |t| && OneBit(m) && t[i] & m != 0 && !Hit(traces, i, m)
  }

  lemma BitIsFresh(virgin: Map, traces: seq<Map>, t: Map, i: nat) returns (m: bv8)
    requires AllSet(virgin) && Sized(|virgin|, traces) && |t| == |virgin|
    requires i < |t| && Shares(After(virgin, traces)[i], t[i])
    ensures FreshBit(traces, t, i, m)
  {
    m := SharedBit(t[i], After(virgin, traces)[i]);
    AfterBit(virgin, traces, i, m);
  }

  lemma FreshIsBit(virgin: Map, traces: seq<Map>, t: Map, i: nat, m: bv8)
    requires AllSet(virgin) && Sized(|virgin|, traces) && |t| == |virgin|
    requires FreshBit(traces, t, i, m)
    ensures Shares(After(virgin, traces)[i], t[i])
  {
    assert virgin[i] == 0xff;
    assert 0xff & m != 0;
    AfterBit(virgin, traces, i, m);
    BitShared(t[i], After(virgin, traces)[i], m);
  }

  lemma NewBitsMean(virgin: Map, traces: seq<Map>, t: Map)
    requires AllSet(virgin) && Sized(|virgin|, traces) && |t| == |virgin|
    ensures NewBits(After(virgin, traces), t) <==> exists i: nat, m: bv8 :: FreshBit(traces, t, i, m)
  {
    if NewBits(After(virgin, traces), t) {
      var i: nat :| i < |t| && Shares(After(virgin, traces)[i], t[i]);
      var m := BitIsFresh(virgin, traces, t, i);
    }
    if i: nat, m: bv8 :| FreshBit(traces, t, i, m) {
      FreshIsBit(virgin, traces, t, i, m);
    }
  }

  /** The verdict on the next trace of a run, in terms of the run itself: 2 exactly when
      it hits a tuple none of them hit, otherwise 1 exactly when it has a hit-count bit
      that none of them had in that place, otherwise 0. */
  lemma VerdictMeans(virgin: Map, traces: seq<Map>, t: Map)
    requires AllSet(virgin) && Sized(|virgin|, traces) && |t| == |virgin|
    ensures Verdict(After(virgin, traces), t) == 2 <==> exists i :: 0 <= i < |t| && t[i] != 0 && Untouched(traces, i)
    ensures Verdict(After(virgin, traces), t) != 0 <==> exists i: nat, m: bv8 :: FreshBit(traces, t, i, m)
  {
    var v := After(virgin, traces);
    forall i | 0 <= i < |t| ensures v[i] == 0xff <==> Untouched(traces, i) {
      StillVirgin(virgin, traces, i);
    }
    NewBitsMean(virgin, traces, t);
    VerdictZero(v, t);
  }

  lemma SharedBit(a: bv8, b: bv8) returns (m: bv8)
    requires a & b != 0
    ensures OneBit(m) && a & m != 0 && b & m != 0
  {
    var c := a & b;
    m := if c & 1 != 0 then 1 else if c & 2 != 0 then 2 else if c & 4 != 0 then 4 else if c & 8 != 0 then 8
    else if c & 16 != 0 then 16 else if c & 32 != 0 then 32 else if c & 64 != 0 then 64 else 128;
  }

  lemma BitShared(a: bv8, b: bv8, m: bv8)
    requires OneBit(m) && a & m != 0 && b & m != 0
    ensures a & b != 0
  {
  }

  // ----- how often a run can bring news

  function Bit(b: bool): nat { if b then 1 else 0 }

  function OnesIn(v: bv8): nat {
    Bit(v & 1 != 0) + Bit(v & 2 != 0) + Bit(v & 4 != 0) + Bit(v & 8 != 0) +
    Bit(v & 16 != 0) + Bit(v & 32 != 0) + Bit(v & 64 != 0) + Bit(v & 128 != 0)
  }

  function Ones(virgin: Map): nat {
    if virgin == [] then 0 else Ones(virgin[..|virgin| - 1]) + OnesIn(virgin[|virgin| - 1])
  }

  lemma ClearOnes(v: bv8, t: bv8)
    ensures OnesIn(v & !t) <= OnesIn(v) && (t & v != 0 ==> OnesIn(v & !t) < OnesIn(v))
  {
  }

  lemma NewBitsSplit(virgin: Map, trace: Map)
    requires |virgin| == |trace| > 0
    ensures var k := |virgin| - 1;
            && (NewBits(virgin, trace) <==> NewBits(virgin[..k], trace[..k]) || Shares(virgin[k], trace[k]))
            && Clear(virgin, trace)[..k] == Clear(virgin[..k], trace[..k])
            && Clear(virgin, trace)[k] == virgin[k] & !trace[k]
  {
    var k := |virgin| - 1;
    if NewBits(virgin, trace) {
      var i :| 0 <= i < |virgin| && Shares(virgin[i], trace[i]);
      assert i == k || Shares(virgin[..k][i], trace[..k][i]);
    }
    if NewBits(virgin[..k], trace[..k]) {
      var i :| 0 <= i < k && Shares(virgin[..k][i], trace[..k][i]);
      assert Shares(virgin[i], trace[i]);
    }
  }

  lemma {:induction false} ClearLowers(virgin: Map, trace: Map)
    requires |virgin| == |trace|
    ensures Ones(Clear(virgin, trace)) <= Ones(virgin)
    ensures NewBits(virgin, trace) ==> Ones(Clear(virgin, trace)) < Ones(virgin)
    decreases |virgin|
  {
    if virgin != [] {
      var k := |virgin| - 1;
      ClearLowers(virgin[..k], trace[..k]);
      ClearOnes(virgin[k], trace[k]);
      NewBitsSplit(virgin, trace);
    }
  }

  ghost function News(virgin: Map, traces: seq<Map>): nat
    requires Sized(|virgin|, traces)
  {
    if traces == [] then 0
    else
      var p := traces[..|traces| - 1];
      News(virgin, p) + Bit(Verdict(After(virgin, p), traces[|traces| - 1]) != 0)
  }

  lemma {:induction false} OnesBound(virgin: Map)
    ensures Ones(virgin) <= 8 * |virgin|
  {
    if virgin != [] { OnesBound(virgin[..|virgin| - 1]); }
  }

  /** A run of any length brings news at most 8 times for each byte of the map. */
  lemma {:induction false} NewsBounded(virgin: Map, traces: seq<Map>)
    requires Sized(|virgin|, traces)
    ensures News(virgin, traces) + Ones(After(virgin, traces)) <= Ones(virgin) <= 8 * |virgin|
    decreases |traces|
  {
    OnesBound(virgin);
    if traces != [] {
      var k := |traces| - 1;
      NewsBounded(virgin, traces[..k]);
      ClearLowers(After(virgin, traces[..k]), traces[k]);
      VerdictZero(After(virgin, traces[..k]), traces[k]);
    }
  }

  lemma VerdictZero(virgin: Map, t: Map)
    requires |virgin| == |t|
    ensures Verdict(virgin, t) != 0 <==> NewBits(virgin, t)
  {
    if NewTuple(virgin, t) {
      var i :| 0 <= i < |t| && t[i] != 0 && virgin[i] == 0xff;
      assert Shares(virgin[i], t[i]);
    }
  }

  // ----- simplified traces: every byte says hit or not hit

  ghost predicate Simplified(t: Map) {
    forall i :: 0 <= i < |t| ==> t[i] == 1 || t[i] == 128
  }

  ghost predicate AllSimplified(traces: seq<Map>) {
    forall k :: 0 <= k < |traces| ==> Simplified(traces[k])
  }

  /** Every trace of the run says b at position i. */
  ghost predicate Always(traces: seq<Map>, i: nat, b: bv8) {
    forall k :: 0 <= k < |traces| && i < |traces[k]| ==> traces[k][i] == b
  }

  /** A crash is unique exactly when it hits a tuple that no earlier one hit, or misses
      a tuple that every earlier one hit. */
  lemma UniqueMeans(virgin: Map, traces: seq<Map>, t: Map)
    requires AllSet(virgin) && Sized(|virgin|, traces) && |t| == |virgin| && Simplified(t) && AllSimplified(traces)
    ensures Verdict(After(virgin, traces), t) != 0 <==>
              (exists i :: 0 <= i < |t| && t[i] == 128 && Always(traces, i, 1)) ||
              (exists i :: 0 <= i < |t| && t[i] == 1 && Always(traces, i, 128))
  {
    var v := After(virgin, traces);
    VerdictZero(v, t);
    forall i: nat | i < |t| ensures Shares(v[i], t[i]) <==> Always(traces, i, if t[i] == 128 then 1 else 128) {
      AfterBit(virgin, traces, i, t[i]);
      assert t[i] & v[i] == v[i] & t[i];
      HitOrAlways(traces, |t|, i, t[i]);
    }
    if NewBits(v, t) {
      var i: nat :| i < |t| && Shares(v[i], t[i]);
      assert Always(traces, i, if t[i] == 128 then 1 else 128);
    }
  }

  lemma HitOrAlways(traces: seq<Map>, n: nat, i: nat, b: bv8)
    requires Sized(n, traces) && AllSimplified(traces) && i < n && (b == 1 || b == 128)
    ensures Hit(traces, i, b) <==> !Always(traces, i, if b == 128 then 1 else 128)
  {
    forall k | 0 <= k < |traces| ensures traces[k][i] & b != 0 <==> traces[k][i] == b {
      assert Simplified(traces[k]);
    }
  }

  /** The positions where a simplified trace could still bring news. */
  function Open(virgin: Map): nat {
    if virgin == [] then 0 else Open(virgin[..|virgin| - 1]) + Bit(virgin[|virgin| - 1] & 129 != 0)
  }

  /** After the first simplified trace no position has both of its bits left. */
  ghost predicate Halved(virgin: Map) {
    forall i :: 0 <= i < |virgin| ==> virgin[i] & 129 != 129
  }

  lemma {:induction false} ClearCloses(virgin: Map, t: Map)
    requires |virgin| == |t| && Simplified(t)
    ensures Halved(Clear(virgin, t))
    ensures Open(Clear(virgin, t)) <= Open(virgin) <= |virgin|
    ensures Halved(virgin) && NewBits(virgin, t) ==> Open(Clear(virgin, t)) < Open(virgin)
    decreases |virgin|
  {
    if virgin != [] {
      var k := |virgin| - 1;
      ClearCloses(virgin[..k], t[..k]);
      NewBitsSplit(virgin, t);
      ByteCloses(virgin[k], t[k]);
      HalvedSplit(virgin);
      HalvedSplit(Clear(virgin, t));
    }
  }

  lemma HalvedSplit(virgin: Map)
    requires |virgin| > 0
    ensures Halved(virgin) <==> Halved(virgin[..|virgin| - 1]) && virgin[|virgin| - 1] & 129 != 129
  {
    assert forall i :: 0 <= i < |virgin| - 1 ==> virgin[..|virgin| - 1][i] == virgin[i];
  }

  lemma ByteCloses(v: bv8, t: bv8)
    requires t == 1 || t == 128
    ensures (v & !t) & 129 != 129
    ensures v & 129 == 0 ==> (v & !t) & 129 == 0
    ensures v & 129 != 129 && t & v != 0 ==> v & 129 != 0 && (v & !t) & 129 == 0
  {
  }

  /** However long the run, at most one crash more than the map has bytes is unique. */
  lemma {:induction false} UniqueBounded(virgin: Map, traces: seq<Map>)
    requires Sized(|virgin|, traces) && AllSimplified(traces)
    ensures traces == [] || Halved(After(virgin, traces))
    ensures News(virgin, traces) + Open(After(virgin, traces)) <= |virgin| + (if traces == [] then 0 else 1)
    decreases |traces|
  {
    if traces == [] {
      OpenBound(virgin);
    } else {
      var k := |traces| - 1;
      UniqueBounded(virgin, traces[..k]);
      var v := After(virgin, traces[..k]);
      assert Simplified(traces[k]);
      ClearCloses(v, traces[k]);
      VerdictZero(v, traces[k]);
    }
  }

  lemma {:induction false} OpenBound(virgin: Map)
    ensures Open(virgin) <= |virgin|
  {
    if virgin != [] { OpenBound(virgin[..|virgin| - 1]); }
  }
}

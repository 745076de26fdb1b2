/** afl-fuzz's trimmer: deletes blocks from a queue entry while its trace keeps its checksum. */
module Trim {
  import opened ByteStrings
  import opened Common
  import opened Config
  import opened TminSpec
  import Tmin

  const TRIM_MIN_BYTES := 4
  const TRIM_END_STEPS := 1024

  /** One run of the target: stopped by the user or failed to run, or the trace it left. */
  datatype Run<T> = Aborted | Traced(trace: T)

  function Max(a: nat, b: nat): nat { if a > b then a else b }

  /** The smallest block length tried on data of this length. */
  function Finest(len: nat): nat { Max(P2(len) / 1024, 4) }

  /** What trimming comes to when every run of the target gives the same answer: one sweep
      for each block length, each sparing its first block. */
  function Trimmed(acc: Target, s: Bytes, step: nat): Bytes
    decreases step
  {
    if step < Finest(|s|) then s else Trimmed(acc, Sweep(acc, s, step, step), step / 2)
  }

  // ----- what every sweep keeps

  /** t is s with some bytes deleted. */
  ghost predicate Subsequence(t: Bytes, s: Bytes) {
    if s == [] then t == []
    else (t != [] && t[0] == s[0] && Subsequence(t[1..], s[1..])) || Subsequence(t, s[1..])
  }

  lemma {:induction false} SubsequenceOfSelf(s: Bytes)
    ensures Subsequence(s, s)
    decreases |s|
  {
    if s != [] { SubsequenceOfSelf(s[1..]); }
  }

  lemma {:induction false} SuffixIsSubsequence(s: Bytes, k: nat)
    requires k <= |s|
    ensures Subsequence(s[k..], s)
    decreases |s|
  {
    if k == 0 {
      assert s[0..] == s;
      SubsequenceOfSelf(s);
    } else {
      assert s[1..][k - 1..] == s[k..];
      SuffixIsSubsequence(s[1..], k - 1);
    }
  }

  lemma {:induction false} CutIsSubsequence(s: Bytes, pos: nat, len: nat)
    requires pos <= |s|
    ensures Subsequence(Cut(s, pos, len), s)
    decreases |s|
  {
    if pos == 0 {
      var k := if len <= |s| then len else |s|;
      assert Cut(s, 0, len) == s[k..];
      SuffixIsSubsequence(s, k);
    } else {
      CutIsSubsequence(s[1..], pos - 1, len);
      assert Cut(s, pos, len)[1..] == Cut(s[1..], pos - 1, len);
    }
  }

  lemma {:induction false} SubsequenceTransitive(a: Bytes, b: Bytes, c: Bytes)
    requires Subsequence(a, b) && Subsequence(b, c)
    ensures Subsequence(a, c)
    decreases |c|, |b|
  {
    if c == [] {
    } else if Subsequence(b, c[1..]) {
      SubsequenceTransitive(a, b, c[1..]);
    } else if Subsequence(a, b[1..]) {
      SubsequenceTransitive(a, b[1..], c[1..]);
    } else {
      SubsequenceTransitive(a[1..], b[1..], c[1..]);
    }
  }

  /** A sweep spares the first block and judges each of the others once, in order. */
  lemma SweepSparesFirst(acc: Target, s: Bytes, step: nat) returns (blocks: seq<Bytes>, kept: seq<bool>)
    requires 0 < step <= |s|
    ensures BlocksOf(blocks, s[step..], step) && |kept| == |blocks| && JudgedInTurn(acc, s[..step], blocks, kept)
    ensures Sweep(acc, s, step, step) == s[..step] + Kept(blocks, kept)
  {
    blocks, kept := SweepJudges(acc, s[..step], s[step..], step);
    assert s[..step] + s[step..] == s;
  }

  /** Trimming sweeps once at each of the lengths step, step / 2, step / 4 and so on, down to the last
      that is at least 4 and a 1024th of the power of two above the length there is by then. */
  lemma {:induction false} TrimmedHalves(acc: Target, s: Bytes, step: nat) returns (ds: seq<Bytes>, steps: seq<nat>)
    ensures |steps| == |ds| > 0 && ds[0] == s && steps[0] == step && ds[|ds| - 1] == Trimmed(acc, s, step)
    ensures forall i :: 0 <= i < |ds| - 1 ==>
              && (steps[i] >= 4 && steps[i] >= P2(|ds[i]|) / 1024) && steps[i + 1] == steps[i] / 2
              && ds[i + 1] == Sweep(acc, ds[i], steps[i], steps[i])
    ensures var n := |ds| - 1; steps[n] < 4 || steps[n] < P2(|ds[n]|) / 1024
    decreases step
  {
    if step < Finest(|s|) {
      ds, steps := [s], [step];
    } else {
      var d := Sweep(acc, s, step, step);
      var ds1, steps1 := TrimmedHalves(acc, d, step / 2);
      ds, steps := [s] + ds1, [step] + steps1;
      forall i | 0 <= i < |ds| - 1
        ensures steps[i] >= 4 && steps[i] >= P2(|ds[i]|) / 1024 && steps[i + 1] == steps[i] / 2
        ensures ds[i + 1] == Sweep(acc, ds[i], steps[i], steps[i])
      {
        if i > 0 {
          assert ds1[i - 1 + 1] == Sweep(acc, ds1[i - 1], steps1[i - 1], steps1[i - 1]);
        }
      }
    }
  }

  lemma CutInBytes(s: Bytes, pos: nat, avail: nat, step: nat)
    requires pos <= |s| && avail == if step < |s| - pos then step else |s| - pos
    ensures Cut(s, pos, avail) == Cut(s, pos, step) == s[..pos] + s[pos + avail..]
    ensures s[pos + avail..] == if pos + step < |s| then s[pos + step..] else []
  {
  }

  // ----- the number of runs

  lemma {:induction false} PowersDivide(p: nat, q: nat) returns (k: nat)
    requires PowerOfTwo(p) && PowerOfTwo(q) && q <= p
    ensures p == k * q
    decreases p
  {
    k := p;
    if q > 1 {
      k := PowersDivide(p / 2, q / 2);
      assert k * q == k * (q / 2) * 2;
    }
  }

  /** At no block length that is tried does the data have more than 1024 blocks. */
  lemma FewBlocks(len: nat, step: nat)
    requires step >= Finest(len)
    ensures len <= 1024 * step
  {
    var p := P2(len);
    if p >= TRIM_END_STEPS {
      assert PowerOfTwo(1024) by { assert PowerOfTwo(32) && PowerOfTwo(64) && PowerOfTwo(128) && PowerOfTwo(256) && PowerOfTwo(512); }
      var k := PowersDivide(p, TRIM_END_STEPS);
    }
  }

  /** Where a sweep stands: runs so far, s0 the data at its start, s the data now. */
  ghost predicate SweepOk(acc: Target, det: bool, s0: Bytes, s: Bytes, step: nat, pos: nat, runs: nat)
    requires step > 0
  {
    && TRIM_MIN_BYTES <= step <= pos && |s| <= |s0| && step < |s0|
    && Subsequence(s, s0) && |s| >= TRIM_MIN_BYTES && s[..TRIM_MIN_BYTES] == s0[..TRIM_MIN_BYTES]
    && (|s| == |s0| ==> s == s0)
    && runs * step < |s0| && (pos < |s| ==> runs * step == pos - step + |s0| - |s|)
    && (det ==>
      && Sweep(acc, s, step, pos) == Sweep(acc, s0, step, step)
      && (|s| < |s0| ==> acc(s)))
  }

  lemma SweepStarts(acc: Target, det: bool, s: Bytes, step: nat)
    requires TRIM_MIN_BYTES <= step < |s|
    ensures SweepOk(acc, det, s, s, step, step, 0)
  {
    SubsequenceOfSelf(s);
  }

  lemma OneMoreRun(runs: nat, step: nat)
    ensures (runs + 1) * step == runs * step + step
  {
  }

  lemma SweepPasses(acc: Target, det: bool, s0: Bytes, s: Bytes, step: nat, pos: nat, runs: nat)
    requires step > 0 && SweepOk(acc, det, s0, s, step, pos, runs) && pos < |s|
    requires det ==> !acc(Cut(s, pos, step))
    ensures SweepOk(acc, det, s0, s, step, pos + step, runs + 1)
  {
    OneMoreRun(runs, step);
  }

  lemma SweepCuts(acc: Target, det: bool, s0: Bytes, s: Bytes, step: nat, pos: nat, runs: nat)
    requires step > 0 && SweepOk(acc, det, s0, s, step, pos, runs) && pos < |s|
    requires det ==> acc(Cut(s, pos, step))
    ensures SweepOk(acc, det, s0, Cut(s, pos, step), step, pos, runs + 1)
    ensures |Cut(s, pos, step)| < |s|
  {
    OneMoreRun(runs, step);
    CutIsSubsequence(s, pos, step);
    SubsequenceTransitive(Cut(s, pos, step), s, s0);
    assert Cut(s, pos, step)[..TRIM_MIN_BYTES] == s[..TRIM_MIN_BYTES];
  }

  // ----- the trimmer

  class Trimmer<T> {
    /** The n-th run of the target on the given input. */
    const target: (nat, Bytes) -> Run<T>
    const sum: T -> bv32
    /** The checksum recorded for the entry. */
    const execCksum: bv32
    const inBuf: array<Byte>
    var len: nat
    var trimExecs: nat
    /** The trace of the first run that was kept. */
    var cleanTrace: Option<T>

    predicate Matches(r: Run<T>) {
      r.Traced? && sum(r.trace) == execCksum
    }

    /** Was the n-th run given up, on this input or on some? */
    ghost predicate Aborts(n: nat, mem: Bytes) { target(n, mem).Aborted? }

    ghost predicate AbortedAt(n: nat) { exists mem :: Aborts(n, mem) }

    ghost predicate Deterministic() {
      forall n, m: nat, s: Bytes :: target(n, s) == target(m, s)
    }

    /** Inputs on which a deterministic target leaves a trace with the recorded checksum. */
    ghost function Acc(): Target {
      s => Matches(target(0, s))
    }

    ghost function Data(): Bytes
      requires len <= inBuf.Length
      reads `len, inBuf
    {
      inBuf[..len]
    }

    constructor (target: (nat, Bytes) -> Run<T>, sum: T -> bv32, execCksum: bv32, input: Bytes)
      ensures len == inBuf.Length && Data() == input && cleanTrace == None && trimExecs == 0
      ensures this.target == target && this.sum == sum && this.execCksum == execCksum
    {
      this.target, this.sum, this.execCksum := target, sum, execCksum;
      len, trimExecs, cleanTrace := |input|, 0, None;
      inBuf := new Byte[|input|](i requires 0 <= i < |input| => input[i]);
    }

    /** write_with_gap: what is tested has the gap left out. */
    method WriteWithGap(skipAt: nat, skipLen: nat) returns (mem: Bytes)
      requires skipAt + skipLen <= len <= inBuf.Length
      ensures mem == Data()[..skipAt] + Data()[skipAt + skipLen..] == Cut(Data(), skipAt, skipLen)
    {
      var tailLen := len - skipAt - skipLen;
      mem := [];
      if skipAt != 0 { mem := inBuf[..skipAt]; }
      if tailLen != 0 { mem := mem + inBuf[skipAt + skipLen..skipAt + skipLen + tailLen]; }
    }

    method MemMove(to: nat, from: nat, n: nat)
      requires to <= from && from + n <= inBuf.Length
      modifies inBuf
      ensures inBuf[..to + n] == old(inBuf[..to] + inBuf[from..from + n])
    {
      forall i | 0 <= i < n {
        inBuf[to + i] := inBuf[from + i];
      }
    }

    /** One block: run without it, and leave it out if the checksum is the recorded one. */
    method TryBlock(step: nat, pos: nat) returns (aborted: bool, kept: bool)
      requires 0 < step && pos < len <= inBuf.Length
      modifies this, inBuf
      ensures len <= inBuf.Length && trimExecs == old(trimExecs) + 1
      ensures aborted <==> Aborts(old(trimExecs), Cut(old(Data()), pos, step))
      ensures aborted ==> !kept
      ensures Data() == if kept then Cut(old(Data()), pos, step) else old(Data())
      ensures kept ==> Data() == old(Data())[..pos] + (if pos + step < old(len) then old(Data())[pos + step..] else [])
      ensures Deterministic() && !aborted ==> (kept <==> Acc()(Cut(old(Data()), pos, step)))
      ensures cleanTrace.Some? <==> old(cleanTrace).Some? || kept
      ensures old(cleanTrace).Some? ==> cleanTrace == old(cleanTrace)
      ensures cleanTrace.Some? && old(cleanTrace).None? ==> sum(cleanTrace.value) == execCksum
    {
      hide Cut;
      var avail := if step < len - pos then step else len - pos;
      CutInBytes(Data(), pos, avail, step);
      var mem := WriteWithGap(pos, avail);
      var r := target(trimExecs, mem);
      trimExecs := trimExecs + 1;
      if r.Aborted? { return true, false; }
      aborted, kept := false, sum(r.trace) == execCksum;
      if kept {
        var moveTail := len - pos - avail;
        len := len - avail;
        MemMove(pos, pos + avail, moveTail);
        if cleanTrace.None? { cleanTrace := Some(r.trace); }
      }
    }

    /** The inner loop, for one block length. */
    method TrimPass(step: nat, p2: nat) returns (aborted: bool, lenP2: nat, runs: nat)
      requires Finest(len) <= step && TRIM_MIN_BYTES <= len <= inBuf.Length && p2 == P2(len)
      modifies this, inBuf
      ensures TRIM_MIN_BYTES <= len <= old(len) && len <= inBuf.Length
      ensures Subsequence(Data(), old(Data())) && Data()[..TRIM_MIN_BYTES] == old(Data())[..TRIM_MIN_BYTES]
      ensures len == old(len) ==> Data() == old(Data())
      ensures trimExecs == old(trimExecs) + runs && runs < 1024
      ensures !aborted ==> lenP2 == P2(len)
      ensures aborted ==> runs > 0 && AbortedAt(trimExecs - 1)
      ensures CleanAfter(old(cleanTrace), cleanTrace, len < old(len))
      ensures Deterministic() && len < old(len) ==> Acc()(Data())
      ensures Deterministic() && !aborted ==> Data() == Sweep(Acc(), old(Data()), step, step)
    {
      ghost var acc, det, s0, clean := Acc(), Deterministic(), Data(), cleanTrace;
      aborted, lenP2, runs := false, p2, 0;
      FewBlocks(len, step);
      SubsequenceOfSelf(s0);
      if step >= len { return; }
      var pos: nat := step;
      SweepStarts(acc, det, s0, step);
      while pos < len
        invariant len <= inBuf.Length && SweepOk(acc, det, s0, Data(), step, pos, runs)
        invariant trimExecs == old(trimExecs) + runs && lenP2 == P2(len)
        invariant CleanAfter(clean, cleanTrace, len < |s0|)
        decreases |s0| + len - pos
      {
        ghost var s := Data();
        var kept;
        aborted, kept := TryBlock(step, pos);
        if aborted {
          RunsBounded(s0, step, runs, pos, len);
          runs := runs + 1;
          return;
        }
        if kept {
          SweepCuts(acc, det, s0, s, step, pos, runs);
          lenP2 := Tmin.NextP2(len);
        } else {
          SweepPasses(acc, det, s0, s, step, pos, runs);
          pos := pos + step;
        }
        runs := runs + 1;
      }
      RunsFew(runs, step, |s0|);
    }

    /** trim_case, up to the point where the trimmed entry is written back and scored. */
    method TrimCase() returns (aborted: bool)
      requires len <= inBuf.Length && cleanTrace == None
      modifies this, inBuf
      ensures aborted ==> trimExecs > 0 && AbortedAt(trimExecs - 1)
      ensures len <= old(len) && Subsequence(Data(), old(Data()))
      ensures old(len) >= 4 ==> len >= 4 && Data()[..4] == old(Data())[..4]
      ensures cleanTrace.Some? <==> len < old(len)
      ensures cleanTrace.Some? ==> sum(cleanTrace.value) == execCksum
      ensures len == old(len) ==> Data() == old(Data())
      ensures Deterministic() && (len < old(len) || Acc()(old(Data()))) ==> Acc()(Data())
      ensures Deterministic() && !aborted && old(len) >= 5 ==>
                Data() == Trimmed(Acc(), old(Data()), Max(P2(old(len)) / 16, 4))
    {
      ghost var acc, det, s0 := Acc(), Deterministic(), Data();
      SubsequenceOfSelf(s0);
      if len < 5 { return false; }
      var lenP2 := Tmin.NextP2(len);
      var removeLen: nat := Max(lenP2 / TRIM_START_STEPS, TRIM_MIN_BYTES);
      ghost var start := removeLen;
      while removeLen >= Max(lenP2 / TRIM_END_STEPS, TRIM_MIN_BYTES)
        invariant TRIM_MIN_BYTES <= len <= |s0| && len <= inBuf.Length && lenP2 == P2(len)
        invariant Subsequence(Data(), s0) && Data()[..TRIM_MIN_BYTES] == s0[..TRIM_MIN_BYTES]
        invariant CleanAfter(None, cleanTrace, len < |s0|)
        invariant len == |s0| ==> Data() == s0
        invariant det && len < |s0| ==> acc(Data())
        invariant det ==> Trimmed(acc, Data(), removeLen) == Trimmed(acc, s0, start)
        decreases removeLen
      {
        ghost var s := Data();
        var runs;
        aborted, lenP2, runs := TrimPass(removeLen, lenP2);
        SubsequenceTransitive(Data(), s, s0);
        if aborted { return; }
        removeLen := removeLen / 2;
      }
      aborted := false;
    }

    /** The clean trace is the trace of the first run kept, and has the recorded checksum. */
    ghost predicate CleanAfter(was: Option<T>, now: Option<T>, shorter: bool) {
      && (now.Some? <==> was.Some? || shorter)
      && (was.Some? ==> now == was)
      && (now.Some? && was.None? ==> sum(now.value) == execCksum)
    }
  }

  lemma RunsFew(runs: nat, step: nat, n: nat)
    requires runs * step < n <= TRIM_END_STEPS * step
    ensures runs < TRIM_END_STEPS
  {
    TimesMonotone(TRIM_END_STEPS, runs, step);
  }

  lemma RunsBounded(s0: Bytes, step: nat, runs: nat, pos: nat, len: nat)
    requires pos < len <= |s0| <= TRIM_END_STEPS * step && runs * step == pos - step + |s0| - len
    ensures runs + 1 < TRIM_END_STEPS
  {
    OneMoreRun(runs, step);
    RunsFew(runs + 1, step, |s0|);
  }
}

/** afl-tmin: the verdict on one run of the target, and the minimizer around it. */
module Tmin {
  import opened ByteStrings
  import opened Config
  import opened TminPasses
  import opened TminSpec

  const MSAN_ERROR := 86

  datatype Status = Exited(code: nat) | Signaled(sig: nat)
  /** One run of the target: whether the timer went off, how it ended, the checksum of its trace. */
  datatype Outcome = Outcome(timedOut: bool, status: Status, cksum: nat, anySet: bool)

  datatype Mode = Mode(exactMode: bool, exitCrash: bool, crashMode: bool, origCksum: nat)

  predicate Crashed(mode: Mode, o: Outcome) {
    match o.status
    case Signaled(_) => true
    case Exited(code) => code == MSAN_ERROR || (code != 0 && mode.exitCrash)
  }

  /** Should a change with this outcome be kept? */
  predicate Keeps(mode: Mode, o: Outcome) {
    && !o.timedOut
    && (if Crashed(mode, o) then mode.crashMode && (!mode.exactMode || mode.origCksum == o.cksum)
        else !mode.crashMode && mode.origCksum == o.cksum)
  }

  /** next_p2. */
  method NextP2(val: nat) returns (ret: nat)
    ensures ret == P2(val)
  {
    ret := 1;
    while val > ret
      invariant PowerOfTwo(ret) && (ret > 1 ==> ret / 2 < val)
      invariant DoubledTo(ret, val) == P2(val)
      decreases val - ret
    {
      ret := ret * 2;
    }
  }

  method MemCpy(dst: array<Byte>, di: nat, src: array<Byte>, si: nat, n: nat)
    requires dst != src && di + n <= dst.Length && (n == 0 || si + n <= src.Length)
    modifies dst
    ensures forall i :: 0 <= i < dst.Length ==> dst[i] == if di <= i < di + n then src[si + i - di] else old(dst[i])
  {
    forall i | 0 <= i < n {
      dst[di + i] := src[si + i];
    }
  }

  method MemEqual(a: array<Byte>, p: nat, q: nat, n: nat) returns (same: bool)
    requires p + n <= a.Length && q + n <= a.Length
    ensures same <==> a[p..p + n] == a[q..q + n]
  {
    for i := 0 to n
      invariant a[p..p + i] == a[q..q + i]
    {
      if a[p + i] != a[q + i] {
        assert a[p..p + n][i] != a[q..q + n][i];
        return false;
      }
    }
    return true;
  }

  method MemSetZero(dst: array<Byte>, at: nat, n: nat)
    requires at + n <= dst.Length
    modifies dst
    ensures forall i :: 0 <= i < dst.Length ==> dst[i] == if at <= i < at + n then ZERO else old(dst[i])
  {
    forall i | 0 <= i < n {
      dst[at + i] := ZERO;
    }
  }

  class Minimizer {
    /** The target: its outcome on the n-th run with the given input. */
    const target: (nat, Bytes) -> Outcome
    const exactMode: bool
    const exitCrash: bool
    var crashMode: bool
    var origCksum: nat
    var totalExecs: nat
    var missedHangs: nat
    var missedCrashes: nat
    var missedPaths: nat
    ghost var kept: nat
    const inData: array<Byte>
    var inLen: nat

    ghost predicate Deterministic() {
      forall n, m: nat, s: Bytes :: target(n, s) == target(m, s)
    }

    function CurrentMode(): Mode
      reads `crashMode, `origCksum
    {
      Mode(exactMode, exitCrash, crashMode, origCksum)
    }

    /** What a deterministic target accepts. */
    ghost function Acc(): Target
      reads `crashMode, `origCksum
    {
      Accepting(CurrentMode(), target)
    }

    /** The buffer holds the data, and every run was either kept or counted as missed. */
    ghost predicate Valid()
      reads `inLen, `totalExecs, `missedHangs, `missedCrashes, `missedPaths, `kept
    {
      inLen <= inData.Length && totalExecs == kept + missedHangs + missedCrashes + missedPaths
    }

    ghost function Data(): Bytes
      requires inLen <= inData.Length
      reads `inLen, inData
    {
      inData[..inLen]
    }

    constructor (target: (nat, Bytes) -> Outcome, exactMode: bool, exitCrash: bool, input: Bytes)
      ensures Valid() && fresh(inData) && Data() == input && !crashMode && totalExecs == 0
      ensures this.target == target && this.exactMode == exactMode && this.exitCrash == exitCrash
    {
      this.target, this.exactMode, this.exitCrash := target, exactMode, exitCrash;
      crashMode, origCksum := false, 0;
      totalExecs, missedHangs, missedCrashes, missedPaths, kept := 0, 0, 0, 0, 0;
      inLen := |input|;
      inData := new Byte[|input|](i requires 0 <= i < |input| => input[i]);
    }

    /** run_target: judge one run; the first run sets what later runs are compared with. */
    method RunTarget(mem: Bytes, firstRun: bool) returns (keep: bool, o: Outcome)
      requires Valid() && (firstRun ==> !crashMode)
      modifies `crashMode, `origCksum, `totalExecs, `missedHangs, `missedCrashes, `missedPaths, `kept
      ensures Valid() && totalExecs == old(totalExecs) + 1
      ensures o == target(old(totalExecs), mem)
      ensures keep <==> Keeps(CurrentMode(), o)
      ensures var crash := o.status.Signaled? || o.status.code == 86 || (exitCrash && o.status.code != 0);
              && (keep <==> !o.timedOut && crash == crashMode && ((crashMode && !exactMode) || o.cksum == origCksum))
              && (firstRun && !o.timedOut ==> keep && crashMode == crash && (!crash || exactMode ==> origCksum == o.cksum))
              && missedCrashes == old(missedCrashes) + (if !o.timedOut && crash && !crashMode then 1 else 0)
      ensures kept == old(kept) + (if keep then 1 else 0)
      ensures missedHangs == old(missedHangs) + (if o.timedOut then 1 else 0)
      ensures !firstRun || o.timedOut ==> CurrentMode() == old(CurrentMode())
    {
      o := target(totalExecs, mem);
      totalExecs := totalExecs + 1;
      if o.timedOut {
        missedHangs := missedHangs + 1;
        return false, o;
      }
      if Crashed(CurrentMode(), o) {
        if firstRun { crashMode := true; }
        if crashMode {
          if !exactMode {
            kept := kept + 1;
            return true, o;
          }
        } else {
          missedCrashes := missedCrashes + 1;
          return false, o;
        }
      } else if crashMode {
        missedPaths := missedPaths + 1;
        return false, o;
      }
      if firstRun { origCksum := o.cksum; }
      if origCksum == o.cksum {
        kept := kept + 1;
        return true, o;
      }
      missedPaths := missedPaths + 1;
      return false, o;
    }

    method Try(mem: Bytes) returns (keep: bool)
      requires Valid()
      modifies `crashMode, `origCksum, `totalExecs, `missedHangs, `missedCrashes, `missedPaths, `kept
      ensures Valid() && CurrentMode() == old(CurrentMode()) && totalExecs == old(totalExecs) + 1
      ensures Deterministic() ==> (keep <==> Acc()(mem))
    {
      var o;
      keep, o := RunTarget(mem, false);
    }

    /** Try the data without the block at pos; keep it that way if the target agrees. */
    method TryCut(tmp: array<Byte>, pos: nat, len: nat) returns (res: bool)
      requires Valid() && tmp != inData && inLen <= tmp.Length && pos < inLen && len > 0
      modifies this, inData, tmp
      ensures Valid() && CurrentMode() == old(CurrentMode()) && totalExecs == old(totalExecs) + 1
      ensures Data() == if res then Cut(old(Data()), pos, len) else old(Data())
      ensures res ==> Data() == old(Data())[..pos] + (if pos + len < old(inLen) then old(Data())[pos + len..] else [])
      ensures Deterministic() ==> (res <==> Acc()(Cut(old(Data()), pos, len)))
    {
      var n := BuildCut(tmp, pos, len);
      res := Try(tmp[..n]);
      if res {
        ghost var t := tmp[..n];
        MemCpy(inData, 0, tmp, 0, n);
        inLen := n;
        assert Data() == t;
      }
    }

    /** The data without the block, in the other buffer. */
    method BuildCut(tmp: array<Byte>, pos: nat, len: nat) returns (n: nat)
      requires tmp != inData && inLen <= inData.Length && inLen <= tmp.Length && pos < inLen
      modifies tmp
      ensures n <= inLen && tmp[..n] == Cut(Data(), pos, len)
    {
      var tailLen := if pos + len <= inLen then inLen - pos - len else 0;
      ghost var s := Data();
      MemCpy(tmp, 0, inData, 0, pos);
      MemCpy(tmp, pos, inData, pos + len, tailLen);
      n := pos + tailLen;
      assert tmp[..n] == Cut(s, pos, len);
    }

    /** Is the block at pos the same as the one before it? */
    method Repeats(pos: nat, len: nat) returns (same: bool)
      requires len <= pos && pos + len <= inLen <= inData.Length
      ensures same <==> Data()[pos - len..pos] == Data()[pos..pos + len]
    {
      same := MemEqual(inData, pos - len, pos, len);
      SameBlocks(inData[..], inLen, pos, len);
    }

    /** One pass of block deletion.  For a deterministic target the blocks it skips
        make no difference: it ends with what trying every block would give. */
    method DeletePass(tmp: array<Byte>, delLen: nat) returns (changed: bool)
      requires Valid() && tmp != inData && inLen <= tmp.Length && delLen > 0
      modifies this, inData, tmp
      ensures Valid() && CurrentMode() == old(CurrentMode())
      ensures inLen <= old(inLen) && Reduced(Data(), old(Data()))
      ensures if changed then Size(Data()) < Size(old(Data())) else Data() == old(Data())
      ensures Deterministic() ==> Data() == Sweep(Acc(), old(Data()), delLen, 0)
      ensures Deterministic() ==> totalExecs == old(totalExecs) + PassRuns(Acc(), old(Data()), delLen, 0, true)
      ensures Deterministic() && !changed && delLen == 1 ==> OneMinimal(Acc(), Data())
    {
      hide Reduced, PassRuns, RunsOk, PassOk, Sweep, OneMinimal;
      ghost var runs := totalExecs;
      ghost var acc, det, s0 := Acc(), Deterministic(), Data();
      var delPos := 0;
      var prevDel := true;
      changed := false;
      PassStart(acc, det, s0, delLen);
      RunsStart(acc, det, s0, delLen);
      while delPos < inLen
        invariant Valid() && CurrentMode() == old(CurrentMode()) && inLen <= |s0|
        invariant PassOk(acc, det, s0, Data(), delLen, delPos, prevDel, changed)
        invariant totalExecs >= runs && RunsOk(acc, det, s0, Data(), delLen, delPos, prevDel, totalExecs - runs)
        decreases inLen - delPos
      {
        ghost var s := Data();
        PassFacts(acc, det, s0, s, delLen, delPos, prevDel, changed);
        RunsNext(acc, det, s0, s, delLen, delPos, prevDel, totalExecs - runs);
        var same := false;
        if !prevDel && delPos + delLen < inLen {
          same := Repeats(delPos, delLen);
        }
        if same {
          PassSkip(acc, det, s0, s, delLen, delPos, changed);
          delPos := delPos + delLen;
        } else {
          ghost var prev := prevDel;
          prevDel := false;
          var res := TryCut(tmp, delPos, delLen);
          if res {
            PassCut(acc, det, s0, s, delLen, delPos, prev, changed);
            prevDel := true;
            changed := true;
          } else {
            PassReject(acc, det, s0, s, delLen, delPos, prev, changed);
            delPos := delPos + delLen;
          }
        }
      }
      PassFacts(acc, det, s0, Data(), delLen, delPos, prevDel, changed);
      RunsEnd(acc, det, s0, Data(), delLen, delPos, prevDel, totalExecs - runs);
    }

    /** Stage 1: block deletion with halving block lengths, down to single bytes. */
    method DeleteStage(tmp: array<Byte>) returns (changed: bool)
      requires Valid() && tmp != inData && inLen <= tmp.Length
      modifies this, inData, tmp
      ensures Valid() && CurrentMode() == old(CurrentMode())
      ensures inLen <= old(inLen) && Reduced(Data(), old(Data()))
      ensures if changed then Size(Data()) < Size(old(Data())) else Data() == old(Data())
      ensures Deterministic() ==> Data() == Deleted(Acc(), old(Data()))
      ensures Deterministic() && !changed ==> OneMinimal(Acc(), Data())
    {
      ghost var s0 := Data();
      var delLen := NextP2(inLen / TRIM_START_STEPS);
      changed := false;
      ZeroedReduced(s0, s0);
      while true
        invariant Valid() && CurrentMode() == old(CurrentMode()) && inLen <= |s0| && Reduced(Data(), s0)
        invariant if changed then Size(Data()) < Size(s0) else Data() == s0
        invariant Deterministic() ==> SweepsFrom(Acc(), Data(), if delLen == 0 then 1 else delLen) == Deleted(Acc(), s0)
        decreases delLen
      {
        if delLen == 0 { delLen := 1; }
        ghost var s := Data();
        var now := DeletePass(tmp, delLen);
        ReducedTransitive(Data(), s, s0);
        changed := changed || now;
        if !(delLen > 1 && inLen >= 1) {
          return;
        }
        delLen := delLen / 2;
      }
    }

    /** Try with the n bytes at from set to '0'; keep it that way if the target agrees. */
    method TryZeroBlock(tmp: array<Byte>, from: nat, n: nat) returns (res: bool)
      requires Valid() && tmp != inData && inLen <= tmp.Length && from + n <= inLen
      modifies this, inData, tmp
      ensures Valid() && CurrentMode() == old(CurrentMode()) && inLen == old(inLen)
      ensures Data() == if res then ZeroBlock(old(Data()), from, n) else old(Data())
      ensures Deterministic() ==> (res <==> Acc()(ZeroBlock(old(Data()), from, n)))
    {
      MemCpy(tmp, 0, inData, 0, inLen);
      MemSetZero(tmp, from, n);
      assert tmp[..inLen] == ZeroBlock(Data(), from, n);
      ghost var t := tmp[..inLen];
      res := Try(tmp[..inLen]);
      if res {
        MemSetZero(inData, from, n);
        assert Data() == t;
      }
    }

    /** Stage 0: one-time block normalisation. */
    method NormalizeBlocks(tmp: array<Byte>)
      requires Valid() && tmp != inData && inLen <= tmp.Length
      modifies this, inData, tmp
      ensures Valid() && CurrentMode() == old(CurrentMode()) && inLen == old(inLen)
      ensures Zeroed(Data(), old(Data()))
      ensures Deterministic() ==> Data() == Normalized(Acc(), old(Data()))
    {
      ghost var acc, det, s0 := Acc(), Deterministic(), Data();
      var setLen := NextP2(inLen / TMIN_SET_STEPS);
      var setPos := 0;
      if setLen < TMIN_SET_MIN_SIZE { setLen := TMIN_SET_MIN_SIZE; }
      while setPos < inLen
        invariant Valid() && CurrentMode() == old(CurrentMode()) && inLen == |s0|
        invariant BlocksOk(acc, det, s0, Data(), setLen, setPos)
        decreases inLen - setPos
      {
        ghost var s := Data();
        var zeroed := NormalizeBlock(tmp, setPos, setLen);
        BlockStep(acc, det, s0, s, setLen, setPos, zeroed);
        setPos := setPos + setLen;
      }
    }

    /** One block of stage 0, which is left alone if it is all '0' already. */
    method NormalizeBlock(tmp: array<Byte>, setPos: nat, setLen: nat) returns (zeroed: bool)
      requires Valid() && tmp != inData && inLen <= tmp.Length && setPos < inLen && setLen > 0
      modifies this, inData, tmp
      ensures Valid() && CurrentMode() == old(CurrentMode()) && inLen == old(inLen)
      ensures Data() == if zeroed then ZeroBlock(old(Data()), setPos, setLen) else old(Data())
      ensures Deterministic() ==>
                (zeroed <==> ZeroBlock(old(Data()), setPos, setLen) != old(Data()) && Acc()(ZeroBlock(old(Data()), setPos, setLen)))
    {
      ghost var s := Data();
      var useLen := if setLen < inLen - setPos then setLen else inLen - setPos;
      ZeroBlockCut(s, setPos, setLen, useLen);
      var i := 0;
      while i < useLen && inData[setPos + i] == ZERO
        invariant i <= useLen && forall k :: setPos <= k < setPos + i ==> s[k] == ZERO
      {
        i := i + 1;
      }
      zeroed := false;
      if i != useLen {
        assert s[setPos + i] != ZERO;
        zeroed := TryZeroBlock(tmp, setPos, useLen);
      }
    }

    /** Try with every occurrence of symbol c replaced. */
    method TrySymbol(tmp: array<Byte>, c: Byte) returns (res: bool)
      requires Valid() && tmp != inData && inLen <= tmp.Length && c != ZERO
      modifies this, inData, tmp
      ensures Valid() && CurrentMode() == old(CurrentMode()) && inLen == old(inLen)
      ensures Data() == if res then Replace(old(Data()), c) else old(Data())
      ensures Deterministic() ==> (res <==> Acc()(Replace(old(Data()), c)))
    {
      ghost var s := Data();
      ReplaceInto(tmp, c);
      res := Try(tmp[..inLen]);
      if res {
        MemCpy(inData, 0, tmp, 0, inLen);
        assert Data() == Replace(s, c);
      }
    }

    method ReplaceInto(tmp: array<Byte>, c: Byte)
      requires inLen <= inData.Length && tmp != inData && inLen <= tmp.Length
      modifies tmp
      ensures tmp[..inLen] == Replace(Data(), c)
    {
      ghost var s := Data();
      MemCpy(tmp, 0, inData, 0, inLen);
      for r := 0 to inLen
        invariant forall k :: 0 <= k < r ==> tmp[k] == if s[k] == c then ZERO else s[k]
        invariant forall k :: r <= k < inLen ==> tmp[k] == s[k]
      {
        if tmp[r] == c { tmp[r] := ZERO; }
      }
    }

    /** The symbol counts that stage 2 starts from. */
    method CountSymbols() returns (alphaMap: array<nat>)
      requires Valid()
      ensures fresh(alphaMap) && alphaMap.Length == 256
      ensures forall c: Byte :: alphaMap[c] > 0 <==> c in Data()
    {
      alphaMap := new nat[256](i => 0);
      for i := 0 to inLen
        invariant forall c: Byte :: alphaMap[c] > 0 <==> c in inData[..i]
      {
        assert inData[..i + 1] == inData[..i] + [inData[i]];
        alphaMap[inData[i]] := alphaMap[inData[i]] + 1;
      }
    }

    /** Stage 2: replace whole symbols, in order of their codes. */
    method MinimizeSymbols(tmp: array<Byte>) returns (changed: bool)
      requires Valid() && tmp != inData && inLen <= tmp.Length
      modifies this, inData, tmp
      ensures Valid() && CurrentMode() == old(CurrentMode()) && inLen == old(inLen)
      ensures Zeroed(Data(), old(Data())) && (changed <==> Data() != old(Data()))
      ensures Deterministic() ==> Data() == SymbolSweep(Acc(), old(Data()), old(Data()), 0)
      ensures Deterministic() && !changed ==> SymbolMinimal(Acc(), Data())
    {
      ghost var acc, det, s0 := Acc(), Deterministic(), Data();
      var alphaMap := CountSymbols();
      changed := false;
      for i := 0 to 256
        invariant Valid() && CurrentMode() == old(CurrentMode()) && inLen == |s0|
        invariant forall c: Byte :: alphaMap[c] > 0 <==> c in s0
        invariant SymbolsOk(acc, det, s0, Data(), i, changed)
      {
        var c: Byte := i;
        ghost var s := Data();
        if c != ZERO && alphaMap[c] > 0 {
          var res := TrySymbol(tmp, c);
          SymbolStep(acc, det, s0, s, c, changed, res);
          changed := changed || res;
        } else {
          SymbolSkip(acc, det, s0, s, c, changed);
        }
      }
    }

    /** Stage 3: replace single characters. */
    method MinimizeChars(tmp: array<Byte>) returns (changed: bool)
      requires Valid() && tmp != inData && inLen <= tmp.Length
      modifies this, inData, tmp
      ensures Valid() && CurrentMode() == old(CurrentMode()) && inLen == old(inLen)
      ensures Zeroed(Data(), old(Data())) && (changed <==> Data() != old(Data()))
      ensures Deterministic() ==> Data() == CharSweep(Acc(), old(Data()), 0)
      ensures Deterministic() && !changed ==> CharMinimal(Acc(), Data())
    {
      ghost var acc, det, s0 := Acc(), Deterministic(), Data();
      changed := false;
      MemCpy(tmp, 0, inData, 0, inLen);
      for i := 0 to inLen
        invariant Valid() && CurrentMode() == old(CurrentMode()) && inLen == |s0|
        invariant tmp[..inLen] == Data()
        invariant CharsOk(acc, det, s0, Data(), i, changed)
      {
        ghost var s, prev := Data(), changed;
        var orig := tmp[i];
        assert orig == s[i] by { assert tmp[..inLen][i] == s[i]; }
        var res := false;
        if orig != ZERO {
          tmp[i] := ZERO;
          assert tmp[..inLen] == s[i := ZERO];
          res := Try(tmp[..inLen]);
          if res {
            inData[i] := ZERO;
            changed := true;
          } else {
            tmp[i] := orig;
          }
        }
        assert Data() == if res then s[i := ZERO] else s;
        CharStep(acc, det, s0, s, i, prev, res);
        assert tmp[..inLen] == Data();
      }
    }

    /** Stages 2 and 3 of a pass. */
    method MinimizeContent(tmp: array<Byte>) returns (changed: bool)
      requires Valid() && tmp != inData && inLen <= tmp.Length
      modifies this, inData, tmp
      ensures Valid() && CurrentMode() == old(CurrentMode()) && inLen == old(inLen)
      ensures Zeroed(Data(), old(Data())) && (changed <==> Data() != old(Data()))
      ensures Deterministic() ==> Data() == Content(Acc(), old(Data()))
    {
      ghost var s0 := Data();
      var symbols := MinimizeSymbols(tmp);
      ghost var s1 := Data();
      var chars := MinimizeChars(tmp);
      ZeroedDiffers(s0, s1, Data());
      changed := symbols || chars;
    }

    /** The passes over all stages.  For any target they end, with deletions and '0's only.
        For a deterministic target the result is the one described, it is accepted
        whenever the input is, and no single byte of it can be deleted. */
    method Minimize()
      requires Valid()
      modifies this, inData
      ensures Valid() && CurrentMode() == old(CurrentMode())
      ensures Reduced(Data(), old(Data()))
      ensures Deterministic() ==> Data() == Minimized(Acc(), old(Data())).data
      ensures Deterministic() && Acc()(old(Data())) ==> Acc()(Data())
      ensures Deterministic() ==> OneMinimal(Acc(), Data())
    {
      var tmp := new Byte[inLen](i => ZERO);
      ghost var s0 := Data();
      NormalizeBlocks(tmp);
      ghost var n := Data();
      ZeroedReduced(n, s0);
      var curPass := 0;
      MinimizedAccepts(Acc(), s0);
      while true
        invariant Valid() && CurrentMode() == old(CurrentMode()) && inLen <= tmp.Length && fresh(tmp)
        invariant Reduced(Data(), s0)
        invariant Deterministic() ==> Passes(Acc(), Data(), curPass == 0) == Minimized(Acc(), s0)
        decreases Size(Data())
      {
        curPass := curPass + 1;
        ghost var s := Data();
        var changedAny := DeleteStage(tmp);
        ReducedTransitive(Data(), s, s0);
        if curPass > 1 && !changedAny {
          return;
        }
        ghost var d := Data();
        var content := MinimizeContent(tmp);
        ZeroedSize(Data(), d);
        ZeroedReduced(Data(), d);
        ReducedTransitive(Data(), d, s0);
        changedAny := changedAny || content;
        if !changedAny {
          return;
        }
      }
    }

    /** The new outcome is one that the minimizer takes for the old one: in crash mode any
        crash, or in exact mode one with the same trace; otherwise an ordinary end with the
        same trace. */
    ghost predicate Alike(o0: Outcome, o: Outcome) {
      var crash0 := o0.status.Signaled? || o0.status.code == 86 || (exitCrash && o0.status.code != 0);
      && !o.timedOut
      && (crash0 ==> o.status.Signaled? || o.status.code == 86 || (exitCrash && o.status.code != 0))
      && (!crash0 ==> o.status.Exited? && o.status.code != 86 && (exitCrash ==> o.status.code == 0))
      && ((crash0 && !exactMode) || o.cksum == o0.cksum)
    }

    /** The program: a first run that sets the mode, and unless it is refused, the minimizer. */
    method Run() returns (done: bool)
      requires Valid() && !crashMode && totalExecs == 0
      modifies this, inData
      ensures Valid()
      ensures var o0 := target(0, old(Data()));
              var crash0 := o0.status.Signaled? || o0.status.code == 86 || (exitCrash && o0.status.code != 0);
              && (done <==> !o0.timedOut && (crash0 || o0.anySet))
              && (done ==> Reduced(Data(), old(Data())) && crashMode == crash0)
              && (done ==> inLen <= old(inLen) && forall b :: b in Data() ==> b == 48 || b in old(Data()))
              && (done && Deterministic() ==> Alike(o0, target(0, Data())))
              && (done && Deterministic() ==> forall i :: 0 <= i < inLen ==>
                    !Alike(o0, target(0, Data()[..i] + Data()[i + 1..])))
      ensures !done ==> Data() == old(Data())
      ensures done && Deterministic() ==> Data() == Minimized(Acc(), old(Data())).data
    {
      var keep, o := RunTarget(inData[..inLen], true);
      if o.timedOut || (!crashMode && !o.anySet) {
        return false;
      }
      ghost var o0 := o;
      Minimize();
      KeptAlike(o0, Data());
      ReducedBytes(Data(), old(Data()));
      return true;
    }

    /** What a deterministic target accepts after the first run, in terms of that run's outcome. */
    lemma KeptAlike(o0: Outcome, s: Bytes)
      requires crashMode == (o0.status.Signaled? || o0.status.code == 86 || (exitCrash && o0.status.code != 0))
      requires !crashMode || exactMode ==> origCksum == o0.cksum
      ensures Acc()(s) <==> Alike(o0, target(0, s))
      ensures OneMinimal(Acc(), s) ==> forall i :: 0 <= i < |s| ==> !Alike(o0, target(0, s[..i] + s[i + 1..]))
    {
      if OneMinimal(Acc(), s) {
        forall i | 0 <= i < |s| ensures !Alike(o0, target(0, s[..i] + s[i + 1..])) {
          assert Cut(s, i, 1) == s[..i] + s[i + 1..];
        }
      }
    }
  }

  lemma SameBlocks(a: Bytes, n: nat, pos: nat, len: nat)
    requires len <= pos && pos + len <= n <= |a|
    ensures a[pos - len..pos - len + len] == a[pos..pos + len] <==> a[..n][pos - len..pos] == a[..n][pos..pos + len]
  {
    assert a[..n][pos - len..pos] == a[pos - len..pos - len + len];
    assert a[..n][pos..pos + len] == a[pos..pos + len];
  }

  ghost function Accepting(mode: Mode, target: (nat, Bytes) -> Outcome): Target {
    s => Keeps(mode, target(0, s))
  }
}

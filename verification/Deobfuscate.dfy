/** Scanner.deobfuscate: cut the code after its last RETURN_VALUE or END_FINALLY,
    drop the NOPs and retarget the jumps. */
module Deobfuscate {
  import opened ByteStrings
  import opened Bytecode
  import opened Common

  // ----- how many bytes are kept

  /** The bytes kept of the instructions from i up to j. */
  function Kept(isa: Isa, c: Bytes, i: nat, j: nat): nat
    decreases j - i
  {
    if i >= j || i >= |c| then 0
    else (if c[i] == isa.nop then 0 else OpSize(isa, c[i])) + Kept(isa, c, i + OpSize(isa, c[i]), j)
  }

  lemma {:induction false} KeptSplits(isa: Isa, c: Bytes, i: nat, k: nat, j: nat)
    requires Walk(isa, c, i, k) && k <= j && k <= |c|
    ensures Kept(isa, c, i, j) == Kept(isa, c, i, k) + Kept(isa, c, k, j)
    decreases k - i
  {
    if i != k { KeptSplits(isa, c, i + OpSize(isa, c[i]), k, j); }
  }

  lemma {:induction false} KeptBounded(isa: Isa, c: Bytes, i: nat, j: nat)
    requires Walk(isa, c, i, j)
    ensures Kept(isa, c, i, j) <= j - i
    decreases j - i
  {
    if i != j { KeptBounded(isa, c, i + OpSize(isa, c[i]), j); }
  }

  /** The new position of what starts at j. */
  function NewPos(isa: Isa, c: Bytes, j: nat): nat { Kept(isa, c, 0, j) }

  /** From one instruction to the next the new position moves by the bytes kept. */
  lemma NewPosStep(isa: Isa, c: Bytes, i: nat)
    requires Start(isa, c, i)
    ensures Walk(isa, c, 0, i + OpSize(isa, c[i]))
    ensures NewPos(isa, c, i + OpSize(isa, c[i])) == NewPos(isa, c, i) + (if c[i] == isa.nop then 0 else OpSize(isa, c[i]))
  {
    var next := i + OpSize(isa, c[i]);
    WalkOn(isa, c, 0, i);
    KeptSplits(isa, c, 0, i, next);
    assert Kept(isa, c, next, next) == 0;
  }

  /** Positions keep their order, and distances only shrink. */
  lemma NewPosMonotone(isa: Isa, c: Bytes, i: nat, j: nat)
    requires Walk(isa, c, 0, i) && Walk(isa, c, 0, j) && i <= j <= |c|
    ensures NewPos(isa, c, i) <= NewPos(isa, c, j) <= NewPos(isa, c, i) + (j - i)
  {
    KeptSplits(isa, c, 0, i, j);
    WalkBetween(isa, c, 0, i, j);
    KeptBounded(isa, c, i, j);
  }

  /** The kept instruction at i ends, in the new code, before anything later begins. */
  lemma KeptBefore(isa: Isa, c: Bytes, i: nat, j: nat)
    requires Start(isa, c, i) && c[i] != isa.nop && Walk(isa, c, 0, j) && i < j <= |c|
    ensures NewPos(isa, c, i) + OpSize(isa, c[i]) <= NewPos(isa, c, j)
  {
    NoOverlap(isa, c, i, j);
    NewPosStep(isa, c, i);
    NewPosMonotone(isa, c, i + OpSize(isa, c[i]), j);
  }

  /** While bytes remain to be kept there is a next kept instruction, with only NOPs before it. */
  lemma {:induction false} NextKept(isa: Isa, c: Bytes, i: nat) returns (s: nat)
    requires Whole(isa, c) && Walk(isa, c, 0, i) && i <= |c| && NewPos(isa, c, i) < NewPos(isa, c, |c|)
    ensures Start(isa, c, s) && c[s] != isa.nop && NewPos(isa, c, s) == NewPos(isa, c, i)
    decreases |c| - i
  {
    NoOverlap'(isa, c, i);
    if c[i] != isa.nop {
      s := i;
    } else {
      NewPosStep(isa, c, i);
      s := NextKept(isa, c, i + OpSize(isa, c[i]));
    }
  }

  lemma NoOverlap'(isa: Isa, c: Bytes, i: nat)
    requires Whole(isa, c) && Walk(isa, c, 0, i) && i <= |c| && NewPos(isa, c, i) < NewPos(isa, c, |c|)
    ensures i < |c| && i + OpSize(isa, c[i]) <= |c|
  {
    if i < |c| { NoOverlap(isa, c, i, |c|); }
  }

  // ----- where the code is cut

  ghost predicate Ends(isa: Isa, op: nat) { op == isa.returnValue || op == isa.endFinally }

  /** n is just after the last instruction that ends code, or 0 if there is none. */
  ghost predicate CutAt(isa: Isa, c: Bytes, n: nat) {
    && n <= |c|
    && (n > 0 ==> Start(isa, c, n - 1) && Ends(isa, c[n - 1]))
    && (forall i: nat :: Start(isa, c, i) && i >= n ==> !Ends(isa, c[i]))
  }

  lemma {:induction false} PrefixWalk(isa: Isa, c: Bytes, n: nat, i: nat, j: nat)
    requires n <= |c| && j <= n
    ensures Walk(isa, c, i, j) <==> Walk(isa, c[..n], i, j)
    decreases j - i
  {
    if i < j && i + OpSize(isa, c[i]) <= j { PrefixWalk(isa, c, n, i + OpSize(isa, c[i]), j); }
  }

  /** The cut leaves whole instructions only. */
  lemma CutIsWhole(isa: Isa, c: Bytes, n: nat)
    requires IsaOk(isa) && CutAt(isa, c, n)
    ensures Whole(isa, c[..n])
  {
    if n > 0 {
      WalkOn(isa, c, 0, n - 1);
      PrefixWalk(isa, c, n, 0, n);
    }
  }

  /** Every jump of the code goes to the start of one of its instructions. */
  ghost predicate JumpsInside(isa: Isa, c: Bytes) {
    forall i: nat :: Start(isa, c, i) && IsJump(isa, c[i]) && i + 2 < |c| ==> Start(isa, c, JumpTarget(isa, c, i))
  }

  // ----- the same in bytes: operands have their low byte first

  /** If there is a jump at i, its operand gives the start of an instruction; a relative one is
      counted from behind the jump. */
  ghost predicate OperandInside(isa: Isa, c: Bytes, i: nat)
    requires i < |c|
  {
    i + 2 < |c| ==>
      var operand := (c[i + 1] as nat) + 256 * (c[i + 2] as nat);
      && (c[i] in isa.jrel ==> Start(isa, c, i + 3 + operand))
      && (c[i] in isa.jabs ==> Start(isa, c, operand))
  }

  ghost predicate OperandsInside(isa: Isa, c: Bytes) {
    forall i: nat {:trigger OperandInside(isa, c, i)} :: Start(isa, c, i) ==> OperandInside(isa, c, i)
  }

  /** If there is a jump at i, its operand in the new code gives the new position of what the
      old one gave. */
  ghost predicate OperandMoved(isa: Isa, c: Bytes, nc: Bytes, pos: map<nat, nat>, i: nat)
    requires i < |c|
  {
    c[i] in isa.jrel || c[i] in isa.jabs ==>
      && i + 2 < |c| && i in pos && pos[i] + 2 < |nc| && nc[pos[i]] == c[i]
      && (var operand := (c[i + 1] as nat) + 256 * (c[i + 2] as nat);
          var now := (nc[pos[i] + 1] as nat) + 256 * (nc[pos[i] + 2] as nat);
          && (c[i] in isa.jrel ==> i + 3 + operand in pos && pos[i] + 3 + now == pos[i + 3 + operand])
          && (c[i] in isa.jabs ==> operand in pos && now == pos[operand]))
  }

  ghost predicate OperandsMoved(isa: Isa, c: Bytes, nc: Bytes, pos: map<nat, nat>) {
    forall i: nat {:trigger OperandMoved(isa, c, nc, pos, i)} :: Start(isa, c, i) ==> OperandMoved(isa, c, nc, pos, i)
  }

  lemma InsideAt(isa: Isa, c: Bytes, i: nat)
    requires IsaOk(isa) && i < |c|
    ensures OperandInside(isa, c, i) <==> (IsJump(isa, c[i]) && i + 2 < |c| ==> Start(isa, c, JumpTarget(isa, c, i)))
  {
    hide Start;
  }

  lemma InsideInBytes(isa: Isa, c: Bytes)
    requires IsaOk(isa)
    ensures JumpsInside(isa, c) <==> OperandsInside(isa, c)
  {
    hide OperandInside, JumpTarget;
    forall i: nat | Start(isa, c, i)
      ensures OperandInside(isa, c, i) <==> (IsJump(isa, c[i]) && i + 2 < |c| ==> Start(isa, c, JumpTarget(isa, c, i)))
    {
      InsideAt(isa, c, i);
    }
  }

  lemma MovedInBytes(isa: Isa, c: Bytes, nc: Bytes, pos: map<nat, nat>)
    requires IsaOk(isa) && Relocated(isa, c, nc, pos)
    ensures OperandsMoved(isa, c, nc, pos)
  {
    forall i: nat | Start(isa, c, i) ensures OperandMoved(isa, c, nc, pos, i) {
      assert InstructionMoved(isa, c, nc, pos, i);
    }
  }

  // ----- the new code while it is made

  ghost predicate KeptStart(isa: Isa, c: Bytes, s: nat) {
    Start(isa, c, s) && c[s] != isa.nop
  }

  /** The kept instruction at s stands unchanged at its new position. */
  ghost predicate Copied(isa: Isa, c: Bytes, nc: Bytes, s: nat)
    requires s < |c|
  {
    var p := NewPos(isa, c, s);
    && s + OpSize(isa, c[s]) <= |c| && p + OpSize(isa, c[s]) <= |nc|
    && nc[p] == c[s]
    && (c[s] >= isa.haveArgument ==> nc[p + 1] == c[s + 1] && nc[p + 2] == c[s + 2])
  }

  /** The kept instruction at s stands at its new position, and if it is a jump it
      refers to the new position of its old target. */
  ghost predicate Retargeted(isa: Isa, c: Bytes, nc: Bytes, s: nat)
    requires s < |c|
  {
    var p := NewPos(isa, c, s);
    && s + OpSize(isa, c[s]) <= |c| && p + OpSize(isa, c[s]) <= |nc|
    && nc[p] == c[s]
    && (c[s] >= isa.haveArgument ==>
         if IsJump(isa, c[s])
         then Start(isa, c, JumpTarget(isa, c, s)) && JumpTarget(isa, nc, p) == NewPos(isa, c, JumpTarget(isa, c, s))
         else nc[p + 1] == c[s + 1] && nc[p + 2] == c[s + 2])
  }

  /** Every kept instruction before new position p is done, and the rest is still as copied. */
  ghost predicate DoneBefore(isa: Isa, c: Bytes, nc: Bytes, p: nat) {
    && |nc| == NewPos(isa, c, |c|) && p <= |nc|
    && (p < |nc| ==> exists s: nat :: KeptStart(isa, c, s) && NewPos(isa, c, s) == p)
    && (forall s: nat {:trigger Retargeted(isa, c, nc, s)} :: KeptStart(isa, c, s) && NewPos(isa, c, s) < p ==> Retargeted(isa, c, nc, s))
    && (forall s: nat {:trigger Copied(isa, c, nc, s)} :: KeptStart(isa, c, s) && NewPos(isa, c, s) >= p ==> Copied(isa, c, nc, s))
  }

  /** Same new position, same kept instruction; and kept instructions do not overlap in the new code. */
  lemma KeptApart(isa: Isa, c: Bytes, s: nat, t: nat)
    requires KeptStart(isa, c, s) && KeptStart(isa, c, t)
    ensures NewPos(isa, c, s) < NewPos(isa, c, t) ==> NewPos(isa, c, s) + OpSize(isa, c[s]) <= NewPos(isa, c, t)
    ensures NewPos(isa, c, s) == NewPos(isa, c, t) ==> s == t
  {
    if s < t { KeptBefore(isa, c, s, t); }
    if t < s { KeptBefore(isa, c, t, s); }
  }

  /** Treating the instruction at s moves the done mark past it. */
  lemma DoneNext(isa: Isa, c: Bytes, nc: Bytes, nc': Bytes, s: nat)
    requires Whole(isa, c) && KeptStart(isa, c, s) && DoneBefore(isa, c, nc, NewPos(isa, c, s))
    requires Retargeted(isa, c, nc', s) && |nc'| == |nc|
    requires forall q :: 0 <= q < |nc| && !(NewPos(isa, c, s) <= q < NewPos(isa, c, s) + OpSize(isa, c[s])) ==> nc'[q] == nc[q]
    ensures DoneBefore(isa, c, nc', NewPos(isa, c, s) + OpSize(isa, c[s]))
  {
    var p := NewPos(isa, c, s);
    var next := s + OpSize(isa, c[s]);
    NewPosStep(isa, c, s);
    NoOverlap(isa, c, s, |c|);
    NewPosMonotone(isa, c, next, |c|);
    if p + OpSize(isa, c[s]) < |nc'| {
      var t := NextKept(isa, c, next);
      assert KeptStart(isa, c, t) && NewPos(isa, c, t) == p + OpSize(isa, c[s]);
    }
    forall t: nat | KeptStart(isa, c, t) && NewPos(isa, c, t) < p + OpSize(isa, c[s]) ensures Retargeted(isa, c, nc', t) {
      KeptApart(isa, c, s, t);
      KeptApart(isa, c, t, s);
      if t != s {
        assert Retargeted(isa, c, nc, t);
      }
    }
    forall t: nat | KeptStart(isa, c, t) && NewPos(isa, c, t) >= p + OpSize(isa, c[s]) ensures Copied(isa, c, nc', t) {
      assert Copied(isa, c, nc, t);
    }
  }

  lemma DoneIsRelocated(isa: Isa, c: Bytes, nc: Bytes, pos: map<nat, nat>)
    requires IsaOk(isa) && Whole(isa, c) && DoneBefore(isa, c, nc, |nc|)
    requires forall i: nat :: i in pos <==> Walk(isa, c, 0, i) && i <= |c|
    requires forall i :: i in pos ==> pos[i] == NewPos(isa, c, i)
    ensures Relocated(isa, c, nc, pos)
  {
    forall i: nat | Start(isa, c, i) ensures InstructionMoved(isa, c, nc, pos, i) {
      NoOverlap(isa, c, i, |c|);
      NewPosStep(isa, c, i);
      NewPosMonotone(isa, c, i, |c|);
      if c[i] != isa.nop {
        KeptBefore(isa, c, i, |c|);
        assert KeptStart(isa, c, i) && Retargeted(isa, c, nc, i);
      }
    }
  }

  /** A rewritten operand fits in two bytes, whatever jump it belongs to. */
  lemma OperandFits(isa: Isa, c: Bytes, s: nat)
    requires IsaOk(isa) && Whole(isa, c) && KeptStart(isa, c, s) && IsJump(isa, c[s]) && s + 2 < |c|
    requires Start(isa, c, JumpTarget(isa, c, s))
    ensures var p, t := NewPos(isa, c, s), NewPos(isa, c, JumpTarget(isa, c, s));
            if c[s] in isa.jrel then p + 3 <= t <= p + 3 + 65535 else t <= 65535
  {
    var t := JumpTarget(isa, c, s);
    if c[s] in isa.jrel {
      NewPosStep(isa, c, s);
      NewPosMonotone(isa, c, s + 3, t);
    } else {
      NewPosMonotone(isa, c, 0, t);
    }
  }

  class Scanner {
    const isa: Isa
    var code: Bytes

    constructor (isa: Isa, code: Bytes)
      ensures this.isa == isa && this.code == code
    {
      this.isa, this.code := isa, code;
    }

    /** The first loop: just after the last instruction that ends code. */
    method FindCut() returns (n: nat)
      requires IsaOk(isa)
      ensures CutAt(isa, code, n)
    {
      n := 0;
      var i := 0;
      while i < |code|
        invariant Walk(isa, code, 0, i)
        invariant n <= |code| && n <= i
        invariant n > 0 ==> Start(isa, code, n - 1) && Ends(isa, code[n - 1])
        invariant forall k: nat :: Start(isa, code, k) && n <= k < i ==> !Ends(isa, code[k])
        decreases |code| - i
      {
        if code[i] == isa.returnValue || code[i] == isa.endFinally {
          n := i + 1;
        }
        WalkOn(isa, code, 0, i);
        ghost var j := i + OpSize(isa, code[i]);
        forall k: nat | Start(isa, code, k) && n <= k < j ensures !Ends(isa, code[k]) {
          if k > i { NoOverlap(isa, code, i, k); }
        }
        i := i + OpSize(isa, code[i]);
      }
    }

    /** The second loop: copy what is not a NOP, and note both ways which position became which. */
    method DropNops(n: nat) returns (fixedCode: Bytes, oldToNew: map<nat, nat>, newToOld: map<nat, nat>)
      requires IsaOk(isa) && CutAt(isa, code, n)
      ensures Whole(isa, code[..n]) && Dropped(isa, code[..n], n, fixedCode, oldToNew, newToOld)
    {
      ghost var c := code[..n];
      CutIsWhole(isa, code, n);
      fixedCode, oldToNew, newToOld := [], map[], map[];
      var m := 0;
      var i := 0;
      while i < n
        invariant i <= n && m == |fixedCode| && Dropped(isa, c, i, fixedCode, oldToNew, newToOld)
        decreases n - i
      {
        ghost var before := fixedCode;
        NoOverlap(isa, c, i, n);
        DropStep(isa, c, i, fixedCode, oldToNew, newToOld);
        oldToNew := oldToNew[i := m];
        newToOld := newToOld[m := i];
        if code[i] != isa.nop {
          fixedCode := fixedCode + [code[i]];
          m := m + 1;
          if code[i] >= isa.haveArgument {
            fixedCode := fixedCode + [code[i + 1]] + [code[i + 2]];
            m := m + 2;
          }
        }
        assert fixedCode == AfterCopy(isa, c, i, before);
        i := i + OpSize(isa, code[i]);
      }
    }

    /** The third loop's body: if a jump stands at i, look up where its target went. */
    method RetargetAt(i: nat, ghost s: nat, oldToNew: map<nat, nat>, newToOld: map<nat, nat>, ghost c: Bytes) returns (ok: bool)
      requires IsaOk(isa) && Whole(isa, c) && KeptStart(isa, c, s) && NewPos(isa, c, s) == i
      requires DoneBefore(isa, c, code, i)
      requires i in newToOld && newToOld[i] == s
      requires forall j: nat :: j in oldToNew <==> Start(isa, c, j)
      requires forall j :: j in oldToNew ==> oldToNew[j] == NewPos(isa, c, j)
      modifies `code
      ensures ok ==> DoneBefore(isa, c, code, i + OpSize(isa, c[s])) && code[i] == c[s]
      ensures !ok ==> IsJump(isa, c[s]) && s + 2 < |c| && !Start(isa, c, JumpTarget(isa, c, s))
      ensures ok <==> OperandInside(isa, c, s)
      ensures ok && (c[s] in isa.jrel || c[s] in isa.jabs) ==>
                && s + 2 < |c| && i + 2 < |code|
                && (var operand := (c[s + 1] as nat) + 256 * (c[s + 2] as nat);
                    var now := (code[i + 1] as nat) + 256 * (code[i + 2] as nat);
                    && (c[s] in isa.jrel ==> s + 3 + operand in oldToNew && i + 3 + now == oldToNew[s + 3 + operand])
                    && (c[s] in isa.jabs ==> operand in oldToNew && now == oldToNew[operand]))
    {
      ghost var nc := code;
      assert Copied(isa, c, nc, s);
      if code[i] in isa.jrel {
        var oldJump := Arg(code, i);
        var oldTarget := newToOld[i] + 3 + oldJump;
        if oldTarget !in oldToNew {
          return false;
        }
        OperandFits(isa, c, s);
        var newTarget := oldToNew[oldTarget];
        var newJump := newTarget - i - 3;
        code := code[i + 1 := newJump % 256][i + 2 := newJump / 256];
      }
      if code[i] in isa.jabs {
        var oldTarget := Arg(code, i);
        if oldTarget !in oldToNew {
          return false;
        }
        OperandFits(isa, c, s);
        var newTarget := oldToNew[oldTarget];
        code := code[i + 1 := newTarget % 256][i + 2 := newTarget / 256];
      }
      assert Retargeted(isa, c, code, s);
      DoneNext(isa, c, nc, code, s);
      ok := true;
    }

    method RetargetJumps(oldToNew: map<nat, nat>, newToOld: map<nat, nat>, ghost c: Bytes) returns (ok: bool)
      requires IsaOk(isa) && Whole(isa, c)
      requires Dropped(isa, c, |c|, code, oldToNew, newToOld)
      modifies `code
      ensures ok ==> DoneBefore(isa, c, code, |code|)
      ensures ok <==> JumpsInside(isa, c)
    {
      CopiedIsDone(isa, c, code);
      var i := 0;
      while i < |code|
        invariant i >= 0 && DoneBefore(isa, c, code, i)
        decreases |code| - i
      {
        ghost var s: nat :| KeptStart(isa, c, s) && NewPos(isa, c, s) == i;
        ok := RetargetAt(i, s, oldToNew, newToOld, c);
        if !ok {
          return;
        }
        i := i + OpSize(isa, code[i]);
      }
      DoneJumpsInside(isa, c, code);
      ok := true;
    }

    /** deobfuscate: fails, with a KeyError, exactly when some jump before the cut does not
        go to the start of an instruction before the cut; otherwise the new code is the
        old code up to the cut without its NOPs, and every jump goes to the same instruction. */
    method Deobfuscate() returns (ok: bool, ghost n: nat, ghost pos: map<nat, nat>)
      requires IsaOk(isa)
      modifies `code
      ensures n <= |old(code)| && (n > 0 ==> Start(isa, old(code), n - 1) && old(code)[n - 1] in {isa.returnValue, isa.endFinally})
      ensures forall i: nat :: Start(isa, old(code), i) && i >= n ==> old(code)[i] !in {isa.returnValue, isa.endFinally}
      ensures ok <==> OperandsInside(isa, old(code)[..n])
      ensures ok ==> Relocated(isa, old(code)[..n], code, pos) && OperandsMoved(isa, old(code)[..n], code, pos)
    {
      var cut := FindCut();
      n := cut;
      ghost var c := code[..n];
      var fixedCode, oldToNew, newToOld := DropNops(cut);
      code := fixedCode;
      ok := RetargetJumps(oldToNew, newToOld, c);
      pos := oldToNew[|c| := NewPos(isa, c, |c|)];
      InsideInBytes(isa, c);
      if ok {
        DoneIsRelocated(isa, c, code, pos);
        MovedInBytes(isa, c, code, pos);
      }
    }
  }

  lemma DoneJumpsInside(isa: Isa, c: Bytes, nc: Bytes)
    requires IsaOk(isa) && Whole(isa, c) && DoneBefore(isa, c, nc, |nc|)
    ensures JumpsInside(isa, c)
  {
    forall i: nat | Start(isa, c, i) && IsJump(isa, c[i]) && i + 2 < |c| ensures Start(isa, c, JumpTarget(isa, c, i)) {
      NoOverlap(isa, c, i, |c|);
      KeptBefore(isa, c, i, |c|);
      assert KeptStart(isa, c, i) && Retargeted(isa, c, nc, i);
    }
  }

  /** What the second loop has made of the instructions before i. */
  ghost predicate Dropped(isa: Isa, c: Bytes, i: nat, nc: Bytes, oldToNew: map<nat, nat>, newToOld: map<nat, nat>) {
    && Walk(isa, c, 0, i) && i <= |c| && |nc| == NewPos(isa, c, i)
    && (forall j: nat :: j in oldToNew <==> Walk(isa, c, 0, j) && j < i)
    && (forall j :: j in oldToNew ==> oldToNew[j] == NewPos(isa, c, j))
    && (forall s: nat {:trigger NewPos(isa, c, s)} :: KeptStart(isa, c, s) && s < i ==>
          NewPos(isa, c, s) in newToOld && newToOld[NewPos(isa, c, s)] == s)
    && (forall s: nat {:trigger Copied(isa, c, nc, s)} :: KeptStart(isa, c, s) && s < i ==> Copied(isa, c, nc, s))
  }

  function AfterCopy(isa: Isa, c: Bytes, i: nat, nc: Bytes): Bytes
    requires i < |c| && i + OpSize(isa, c[i]) <= |c|
  {
    if c[i] == isa.nop then nc else nc + c[i..i + OpSize(isa, c[i])]
  }

  lemma DropStep(isa: Isa, c: Bytes, i: nat, nc: Bytes, oldToNew: map<nat, nat>, newToOld: map<nat, nat>)
    requires IsaOk(isa) && Whole(isa, c) && Dropped(isa, c, i, nc, oldToNew, newToOld)
    requires i < |c| && i + OpSize(isa, c[i]) <= |c|
    ensures Dropped(isa, c, i + OpSize(isa, c[i]), AfterCopy(isa, c, i, nc), oldToNew[i := |nc|], newToOld[|nc| := i])
  {
    var next := i + OpSize(isa, c[i]);
    NewPosStep(isa, c, i);
    CopyStep(isa, c, nc, AfterCopy(isa, c, i, nc), i);
    KeysStep(isa, c, i);
    forall s: nat | KeptStart(isa, c, s) && s < next
      ensures NewPos(isa, c, s) in newToOld[|nc| := i] && newToOld[|nc| := i][NewPos(isa, c, s)] == s
    {
      if s < i { KeptBefore(isa, c, s, i); }
      if s > i { NoOverlap(isa, c, i, s); }
    }
  }

  lemma KeysStep(isa: Isa, c: Bytes, i: nat)
    requires Start(isa, c, i)
    ensures forall j: nat :: Walk(isa, c, 0, j) && j < i + OpSize(isa, c[i]) <==> (Walk(isa, c, 0, j) && j < i) || j == i
  {
    forall j: nat | Walk(isa, c, 0, j) && i < j ensures j >= i + OpSize(isa, c[i]) {
      NoOverlap(isa, c, i, j);
    }
  }

  lemma CopyStep(isa: Isa, c: Bytes, nc: Bytes, nc': Bytes, i: nat)
    requires Whole(isa, c) && Start(isa, c, i) && i + OpSize(isa, c[i]) <= |c| && |nc| == NewPos(isa, c, i)
    requires nc' == if c[i] == isa.nop then nc else nc + c[i..i + OpSize(isa, c[i])]
    requires forall s: nat {:trigger Copied(isa, c, nc, s)} :: KeptStart(isa, c, s) && s < i ==> Copied(isa, c, nc, s)
    ensures forall s: nat {:trigger Copied(isa, c, nc', s)} :: KeptStart(isa, c, s) && s < i + OpSize(isa, c[i]) ==> Copied(isa, c, nc', s)
  {
    forall s: nat | KeptStart(isa, c, s) && s < i + OpSize(isa, c[i]) ensures Copied(isa, c, nc', s) {
      if s < i {
        assert Copied(isa, c, nc, s);
        KeptBefore(isa, c, s, i);
      } else if s > i {
        NoOverlap(isa, c, i, s);
      }
    }
  }

  lemma CopiedIsDone(isa: Isa, c: Bytes, nc: Bytes)
    requires Whole(isa, c) && |nc| == NewPos(isa, c, |c|)
    requires forall s: nat {:trigger Copied(isa, c, nc, s)} :: KeptStart(isa, c, s) && s < |c| ==> Copied(isa, c, nc, s)
    ensures DoneBefore(isa, c, nc, 0)
  {
    if |nc| > 0 {
      var s := NextKept(isa, c, 0);
      assert KeptStart(isa, c, s);
    }
  }
}

/** Variable-length bytecode: where instructions start, what running it does, and
    when two pieces of code are the same up to NOPs. */
module Bytecode {
  import opened ByteStrings
  import opened Common

  /** The opcode tables of the interpreter. */
  datatype Isa = Isa(haveArgument: nat, nop: nat, returnValue: nat, endFinally: nat, jrel: set<nat>, jabs: set<nat>)

  ghost predicate IsaOk(isa: Isa) {
    && isa.nop < isa.haveArgument && isa.returnValue < isa.haveArgument && isa.endFinally < isa.haveArgument
    && isa.nop != isa.returnValue && isa.nop != isa.endFinally
    && (forall op :: op in isa.jrel || op in isa.jabs ==> op >= isa.haveArgument)
    && isa.jrel !! isa.jabs
  }

  function OpSize(isa: Isa, op: nat): (n: nat)
    ensures n == 1 || n == 3
  {
    if op < isa.haveArgument then 1 else 3
  }

  /** j is reached from i by going from instruction to instruction. */
  ghost predicate Walk(isa: Isa, c: Bytes, i: nat, j: nat)
    decreases j - i
  {
    i == j || (i < j && i < |c| && i + OpSize(isa, c[i]) <= j && Walk(isa, c, i + OpSize(isa, c[i]), j))
  }

  /** An instruction starts at i. */
  ghost predicate Start(isa: Isa, c: Bytes, i: nat) {
    i < |c| && Walk(isa, c, 0, i)
  }

  lemma {:induction false} WalkOn(isa: Isa, c: Bytes, i: nat, j: nat)
    requires Walk(isa, c, i, j) && j < |c|
    ensures Walk(isa, c, i, j + OpSize(isa, c[j]))
    decreases j - i
  {
    if i != j { WalkOn(isa, c, i + OpSize(isa, c[i]), j); }
  }

  lemma {:induction false} WalkBetween(isa: Isa, c: Bytes, k: nat, i: nat, j: nat)
    requires Walk(isa, c, k, i) && Walk(isa, c, k, j) && i <= j
    ensures Walk(isa, c, i, j)
    decreases i - k
  {
    if k != i { WalkBetween(isa, c, k + OpSize(isa, c[k]), i, j); }
  }

  /** Instructions start at 0 and just behind an instruction of one or three bytes, and nowhere else. */
  lemma StartsAre(isa: Isa, c: Bytes, j: nat)
    ensures Start(isa, c, j) <==>
              j < |c| && (j == 0 || exists i: nat :: i < j && Start(isa, c, i) && j == i + (if c[i] < isa.haveArgument then 1 else 3))
  {
    if Start(isa, c, j) && j > 0 {
      var i := LastBefore(isa, c, 0, j);
    }
    if i: nat :| i < j < |c| && Start(isa, c, i) && j == i + (if c[i] < isa.haveArgument then 1 else 3) {
      WalkOn(isa, c, 0, i);
    }
  }

  lemma {:induction false} LastBefore(isa: Isa, c: Bytes, k: nat, j: nat) returns (i: nat)
    requires Walk(isa, c, k, j) && k < j
    ensures k <= i < j && i < |c| && Walk(isa, c, k, i) && j == i + OpSize(isa, c[i])
    decreases j - k
  {
    if k + OpSize(isa, c[k]) == j {
      i := k;
    } else {
      i := LastBefore(isa, c, k + OpSize(isa, c[k]), j);
    }
  }

  /** Instructions do not overlap. */
  lemma NoOverlap(isa: Isa, c: Bytes, i: nat, j: nat)
    requires Start(isa, c, i) && Walk(isa, c, 0, j) && i < j
    ensures i + OpSize(isa, c[i]) <= j && Walk(isa, c, i + OpSize(isa, c[i]), j)
  {
    WalkBetween(isa, c, 0, i, j);
  }

  /** The code is a whole number of instructions. */
  ghost predicate Whole(isa: Isa, c: Bytes) {
    Walk(isa, c, 0, |c|)
  }

  function Arg(c: Bytes, i: nat): nat
    requires i + 2 < |c|
  {
    (c[i + 1] as nat) + 256 * (c[i + 2] as nat)
  }

  function IsJump(isa: Isa, op: nat): bool { op in isa.jrel || op in isa.jabs }

  /** The address a jump at i refers to. */
  function JumpTarget(isa: Isa, c: Bytes, i: nat): nat
    requires i + 2 < |c|
  {
    if c[i] in isa.jrel then i + 3 + Arg(c, i) else Arg(c, i)
  }

  // ----- running code

  /** An address an instruction can know without looking at the code: that of the next
      instruction, its own target if it is a jump, or one that was saved. */
  datatype Place = Following | Target | Saved(index: nat)

  /** What an instruction does to control, beside its effect on the data: go to a place and
      keep any places as saved, in any order, or stop. */
  datatype Action = Go(to: Place, keep: seq<Place>) | Stop

  /** A machine state: where it is, its data, and the addresses saved in it. */
  datatype Run<S> = At(pc: nat, data: S, saved: seq<nat>) | Done(result: S)

  /** An instruction that took effect, with its argument if that is not an address. */
  datatype Event = Event(op: nat, arg: Option<nat>)

  /** The meaning of instructions other than NOP: any function of opcode, argument, data and
      the number of saved addresses. */
  type Sem<!S> = (nat, Option<nat>, S, nat) -> (S, Action)

  function EventAt(isa: Isa, c: Bytes, i: nat): Event
    requires i < |c| && i + OpSize(isa, c[i]) <= |c|
  {
    Event(c[i], if c[i] < isa.haveArgument || IsJump(isa, c[i]) then None else Some(Arg(c, i)))
  }

  ghost predicate Runnable<S>(isa: Isa, c: Bytes, r: Run<S>) {
    r.At? && r.pc < |c| && r.pc + OpSize(isa, c[r.pc]) <= |c|
  }

  /** An instruction may use its own target if it has one, and the addresses that are saved. */
  predicate Known(isa: Isa, op: nat, saved: nat, p: Place) {
    match p
    case Following => true
    case Target => IsJump(isa, op) && op >= isa.haveArgument
    case Saved(index) => index < saved
  }

  predicate AllKnown(isa: Isa, op: nat, saved: nat, a: Action) {
    a.Go? && Known(isa, op, saved, a.to) && forall j :: 0 <= j < |a.keep| ==> Known(isa, op, saved, a.keep[j])
  }

  function Address(isa: Isa, c: Bytes, i: nat, saved: seq<nat>, p: Place): nat
    requires i < |c| && i + OpSize(isa, c[i]) <= |c| && Known(isa, c[i], |saved|, p)
  {
    match p
    case Following => i + OpSize(isa, c[i])
    case Target => JumpTarget(isa, c, i)
    case Saved(index) => saved[index]
  }

  function Addresses(isa: Isa, c: Bytes, i: nat, saved: seq<nat>, ps: seq<Place>): (r: seq<nat>)
    requires i < |c| && i + OpSize(isa, c[i]) <= |c|
    requires forall j :: 0 <= j < |ps| ==> Known(isa, c[i], |saved|, ps[j])
    ensures |r| == |ps| && forall j :: 0 <= j < |ps| ==> r[j] == Address(isa, c, i, saved, ps[j])
  {
    seq(|ps|, j requires 0 <= j < |ps| => Address(isa, c, i, saved, ps[j]))
  }

  ghost function Step<S>(isa: Isa, sem: Sem<S>, c: Bytes, r: Run<S>): Run<S>
    requires Runnable(isa, c, r)
  {
    var op := c[r.pc];
    if op == isa.nop then r.(pc := r.pc + OpSize(isa, op))
    else
      var (d, action) := sem(op, EventAt(isa, c, r.pc).arg, r.data, |r.saved|);
      if AllKnown(isa, op, |r.saved|, action)
      then At(Address(isa, c, r.pc, r.saved, action.to), d, Addresses(isa, c, r.pc, r.saved, action.keep))
      else Done(d)
  }

  /** From r, k steps through the code lead to r', and evs are the effects on the way. */
  ghost predicate Runs<S>(isa: Isa, sem: Sem<S>, c: Bytes, r: Run<S>, k: nat, r': Run<S>, evs: seq<Event>)
    decreases k
  {
    if k == 0 then r' == r && evs == []
    else
      && Runnable(isa, c, r)
      && (if c[r.pc] == isa.nop then Runs(isa, sem, c, Step(isa, sem, c, r), k - 1, r', evs)
          else evs != [] && evs[0] == EventAt(isa, c, r.pc) && Runs(isa, sem, c, Step(isa, sem, c, r), k - 1, r', evs[1..]))
  }

  /** Running is deterministic: as many steps from the same state end in the same state, with the same effects. */
  lemma {:induction false} OneRun<S>(isa: Isa, sem: Sem<S>, c: Bytes, r: Run<S>, k: nat, a: Run<S>, b: Run<S>, evs: seq<Event>, evs2: seq<Event>)
    requires Runs(isa, sem, c, r, k, a, evs) && Runs(isa, sem, c, r, k, b, evs2)
    ensures a == b && evs == evs2
    decreases k
  {
    if k > 0 {
      if c[r.pc] == isa.nop {
        OneRun(isa, sem, c, Step(isa, sem, c, r), k - 1, a, b, evs, evs2);
      } else {
        OneRun(isa, sem, c, Step(isa, sem, c, r), k - 1, a, b, evs[1..], evs2[1..]);
        assert evs == [evs[0]] + evs[1..] && evs2 == [evs2[0]] + evs2[1..];
      }
    }
  }

  /** The effect of an instruction shows its operand, low byte first, unless it is a jump. */
  lemma EffectShowsOperand(isa: Isa, c: Bytes, i: nat)
    requires i + 2 < |c| && c[i] >= isa.haveArgument
    ensures EventAt(isa, c, i).op == c[i]
    ensures EventAt(isa, c, i).arg ==
              if c[i] in isa.jrel || c[i] in isa.jabs then None else Some((c[i + 1] as nat) + 256 * (c[i + 2] as nat))
  {
  }

  // ----- relocated code

  /** nc is c without its NOPs and with its jumps retargeted; pos says where each
      instruction of c, and the end, went. */
  ghost predicate Relocated(isa: Isa, c: Bytes, nc: Bytes, pos: map<nat, nat>) {
    && Whole(isa, c)
    && (forall i: nat :: i in pos <==> Walk(isa, c, 0, i) && i <= |c|)
    && 0 in pos && pos[0] == 0 && |c| in pos && pos[|c|] == |nc|
    && (forall i {:trigger InstructionMoved(isa, c, nc, pos, i)} :: Start(isa, c, i) ==> InstructionMoved(isa, c, nc, pos, i))
  }

  ghost predicate InstructionMoved(isa: Isa, c: Bytes, nc: Bytes, pos: map<nat, nat>, i: nat)
    requires i < |c|
  {
    var next := i + OpSize(isa, c[i]);
    && next <= |c| && i in pos && next in pos
    && (if c[i] == isa.nop then pos[next] == pos[i]
        else
          && pos[next] == pos[i] + OpSize(isa, c[i]) <= |nc|
          && nc[pos[i]] == c[i]
          && (c[i] >= isa.haveArgument ==>
               if IsJump(isa, c[i])
               then JumpTarget(isa, c, i) in pos && JumpTarget(isa, c, i) < |c| && JumpTarget(isa, nc, pos[i]) == pos[JumpTarget(isa, c, i)]
               else nc[pos[i] + 1] == c[i + 1] && nc[pos[i] + 2] == c[i + 2]))
  }

  ghost predicate Mapped(pos: map<nat, nat>, saved: seq<nat>) {
    forall a :: 0 <= a < |saved| ==> saved[a] in pos
  }

  ghost function MapSaved(pos: map<nat, nat>, saved: seq<nat>): seq<nat>
    requires Mapped(pos, saved)
  {
    seq(|saved|, a requires 0 <= a < |saved| => pos[saved[a]])
  }

  /** The same state in the relocated code: addresses moved, data untouched. */
  ghost predicate Corresponds<S>(pos: map<nat, nat>, r: Run<S>, r': Run<S>) {
    match r
    case Done(d) => r' == Done(d)
    case At(pc, d, saved) => pc in pos && Mapped(pos, saved) && r' == At(pos[pc], d, MapSaved(pos, saved))
  }

  /** One step in the old code is no step (a NOP) or the same step in the new one. */
  lemma StepCorresponds<S>(isa: Isa, sem: Sem<S>, c: Bytes, nc: Bytes, pos: map<nat, nat>, r: Run<S>, r': Run<S>)
    requires IsaOk(isa) && Relocated(isa, c, nc, pos) && Corresponds(pos, r, r') && Runnable(isa, c, r)
    ensures c[r.pc] == isa.nop ==> Corresponds(pos, Step(isa, sem, c, r), r')
    ensures c[r.pc] != isa.nop ==>
              && Runnable(isa, nc, r') && nc[r'.pc] == c[r.pc]
              && EventAt(isa, nc, r'.pc) == EventAt(isa, c, r.pc)
              && Corresponds(pos, Step(isa, sem, c, r), Step(isa, sem, nc, r'))
  {
    var i := r.pc;
    assert Start(isa, c, i);
    assert InstructionMoved(isa, c, nc, pos, i);
    if c[i] != isa.nop {
      var op := c[i];
      assert EventAt(isa, nc, r'.pc) == EventAt(isa, c, i);
      var (d, action) := sem(op, EventAt(isa, c, i).arg, r.data, |r.saved|);
      if AllKnown(isa, op, |r.saved|, action) {
        PlaceMoves(isa, c, nc, pos, i, r.saved, action.to);
        forall j | 0 <= j < |action.keep|
          ensures Address(isa, c, i, r.saved, action.keep[j]) in pos
          ensures Address(isa, nc, pos[i], r'.saved, action.keep[j]) == pos[Address(isa, c, i, r.saved, action.keep[j])]
        {
          PlaceMoves(isa, c, nc, pos, i, r.saved, action.keep[j]);
        }
        assert MapSaved(pos, Addresses(isa, c, i, r.saved, action.keep)) == Addresses(isa, nc, pos[i], r'.saved, action.keep);
      }
    }
  }

  /** Whatever place an instruction can name moves with the code. */
  lemma PlaceMoves(isa: Isa, c: Bytes, nc: Bytes, pos: map<nat, nat>, i: nat, saved: seq<nat>, p: Place)
    requires IsaOk(isa) && Start(isa, c, i) && c[i] != isa.nop && InstructionMoved(isa, c, nc, pos, i)
    requires Mapped(pos, saved) && Known(isa, c[i], |saved|, p)
    ensures pos[i] < |nc| && nc[pos[i]] == c[i] && pos[i] + OpSize(isa, c[i]) <= |nc|
    ensures Address(isa, c, i, saved, p) in pos
    ensures Address(isa, nc, pos[i], MapSaved(pos, saved), p) == pos[Address(isa, c, i, saved, p)]
  {
  }

  /** Every run of the old code is a run of the new code with the NOP steps left out:
      the same effects in the same order, ending in the corresponding state. */
  lemma {:induction false} OldRunsInNew<S>(isa: Isa, sem: Sem<S>, c: Bytes, nc: Bytes, pos: map<nat, nat>,
                                           r: Run<S>, k: nat, s: Run<S>, evs: seq<Event>, r': Run<S>)
    returns (s': Run<S>)
    requires IsaOk(isa) && Relocated(isa, c, nc, pos) && Corresponds(pos, r, r')
    requires Runs(isa, sem, c, r, k, s, evs)
    ensures Runs(isa, sem, nc, r', |evs|, s', evs) && Corresponds(pos, s, s')
    decreases k
  {
    if k == 0 {
      s' := r';
    } else {
      StepCorresponds(isa, sem, c, nc, pos, r, r');
      if c[r.pc] == isa.nop {
        s' := OldRunsInNew(isa, sem, c, nc, pos, Step(isa, sem, c, r), k - 1, s, evs, r');
      } else {
        s' := OldRunsInNew(isa, sem, c, nc, pos, Step(isa, sem, c, r), k - 1, s, evs[1..], Step(isa, sem, nc, r'));
      }
    }
  }

  /** From a state of the old code that is not at its end, NOPs lead to a state at a
      real instruction or at the end. */
  lemma {:induction false} SkipNops<S>(isa: Isa, sem: Sem<S>, c: Bytes, nc: Bytes, pos: map<nat, nat>, r: Run<S>, r': Run<S>)
    returns (k: nat, q: Run<S>)
    requires IsaOk(isa) && Relocated(isa, c, nc, pos) && Corresponds(pos, r, r') && r.At?
    ensures q.At? && Runs(isa, sem, c, r, k, q, []) && Corresponds(pos, q, r')
    ensures q.pc == |c| || (q.pc < |c| && c[q.pc] != isa.nop && Runnable(isa, c, q))
    decreases |c| - r.pc
  {
    k, q := 0, r;
    if r.pc < |c| {
      assert Start(isa, c, r.pc);
      assert InstructionMoved(isa, c, nc, pos, r.pc);
      if c[r.pc] == isa.nop {
        StepCorresponds(isa, sem, c, nc, pos, r, r');
        k, q := SkipNops(isa, sem, c, nc, pos, Step(isa, sem, c, r), r');
        k := k + 1;
      }
    }
  }

  lemma {:induction false} RunsCompose<S>(isa: Isa, sem: Sem<S>, c: Bytes, r: Run<S>, j: nat, q: Run<S>, a: seq<Event>, k: nat, s: Run<S>, b: seq<Event>)
    requires Runs(isa, sem, c, r, j, q, a) && Runs(isa, sem, c, q, k, s, b)
    ensures Runs(isa, sem, c, r, j + k, s, a + b)
    decreases j
  {
    if j == 0 {
      assert a + b == b;
    } else if c[r.pc] == isa.nop {
      RunsCompose(isa, sem, c, Step(isa, sem, c, r), j - 1, q, a, k, s, b);
    } else {
      RunsCompose(isa, sem, c, Step(isa, sem, c, r), j - 1, q, a[1..], k, s, b);
      assert (a + b)[1..] == a[1..] + b;
    }
  }

  /** Every run of the new code comes from a run of the old code with the same effects. */
  lemma {:induction false} NewRunsInOld<S>(isa: Isa, sem: Sem<S>, c: Bytes, nc: Bytes, pos: map<nat, nat>,
                                           r: Run<S>, r': Run<S>, k': nat, s': Run<S>, evs: seq<Event>)
    returns (k: nat, s: Run<S>)
    requires IsaOk(isa) && Relocated(isa, c, nc, pos) && Corresponds(pos, r, r')
    requires Runs(isa, sem, nc, r', k', s', evs)
    ensures Runs(isa, sem, c, r, k, s, evs) && Corresponds(pos, s, s') && |evs| == k'
    decreases k'
  {
    if k' == 0 {
      k, s := 0, r;
    } else {
      var j, q := SkipNops(isa, sem, c, nc, pos, r, r');
      StepCorresponds(isa, sem, c, nc, pos, q, r');
      var k1, s1 := NewRunsInOld(isa, sem, c, nc, pos, Step(isa, sem, c, q), Step(isa, sem, nc, r'), k' - 1, s', evs[1..]);
      assert Runs(isa, sem, c, q, k1 + 1, s1, evs);
      RunsCompose(isa, sem, c, r, j, q, [], k1 + 1, s1, evs);
      assert [] + evs == evs;
      k, s := j + k1 + 1, s1;
    }
  }

  /** From the start of the code, with data d, the effects evs can happen in turn. */
  ghost predicate CanDo<S(!new)>(isa: Isa, sem: Sem<S>, c: Bytes, d: S, evs: seq<Event>) {
    exists k: nat, s: Run<S> :: Runs(isa, sem, c, At(0, d, []), k, s, evs)
  }

  /** From the start, old and new code can have exactly the same sequences of effects. */
  lemma SameEffects<S(!new)>(isa: Isa, sem: Sem<S>, c: Bytes, nc: Bytes, pos: map<nat, nat>, d: S, evs: seq<Event>)
    requires IsaOk(isa) && Relocated(isa, c, nc, pos)
    ensures CanDo(isa, sem, c, d, evs) <==> CanDo(isa, sem, nc, d, evs)
  {
    var r: Run<S> := At(0, d, []);
    assert Corresponds(pos, r, r);
    if CanDo(isa, sem, c, d, evs) {
      var k: nat, s: Run<S> :| Runs(isa, sem, c, r, k, s, evs);
      var s' := OldRunsInNew(isa, sem, c, nc, pos, r, k, s, evs, r);
    }
    if CanDo(isa, sem, nc, d, evs) {
      var k': nat, s': Run<S> :| Runs(isa, sem, nc, r, k', s', evs);
      var k, s := NewRunsInOld(isa, sem, c, nc, pos, r, r, k', s', evs);
    }
  }

  lemma StepInPrefix<S>(isa: Isa, sem: Sem<S>, c: Bytes, n: nat, r: Run<S>)
    requires n <= |c| && Runnable(isa, c[..n], r)
    ensures Runnable(isa, c, r) && c[r.pc] == c[..n][r.pc]
    ensures EventAt(isa, c[..n], r.pc) == EventAt(isa, c, r.pc) && Step(isa, sem, c[..n], r) == Step(isa, sem, c, r)
  {
  }

  /** A run of code cut short is a run of the whole code. */
  lemma {:induction false} CutRunsInCode<S>(isa: Isa, sem: Sem<S>, c: Bytes, n: nat, r: Run<S>, k: nat, s: Run<S>, evs: seq<Event>)
    requires n <= |c| && Runs(isa, sem, c[..n], r, k, s, evs)
    ensures Runs(isa, sem, c, r, k, s, evs)
    decreases k
  {
    if k > 0 {
      StepInPrefix(isa, sem, c, n, r);
      CutRunsInCode(isa, sem, c, n, Step(isa, sem, c, r), k - 1, s, if c[r.pc] == isa.nop then evs else evs[1..]);
    }
  }
}

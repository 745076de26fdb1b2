/** afl-fuzz's dictionary overwrite stages: every token is pasted at every offset, and the
    buffer is not restored between the tokens of one offset. */
module DictionaryStage {
  import opened ByteStrings
  import Extras

  const MAX_DET_EXTRAS := 200

  ghost predicate ByLength(tokens: seq<Bytes>) {
    forall j, k :: 0 <= j < k < |tokens| ==> |tokens[j]| <= |tokens[k]|
  }

  /** A paste over a shorter one hides it. */
  lemma PasteOver(s: Bytes, i: nat, last: Bytes, t: Bytes)
    requires |last| <= |t| && i + |t| <= |s|
    ensures Patched(Patched(s, i, last), i, t) == Patched(s, i, t)
  {
  }

  /** Under a shorter paste it shows, unless its end was in the original. */
  lemma ShorterPasteOver(s: Bytes, i: nat, last: Bytes, t: Bytes)
    requires |t| <= |last| && i + |last| <= |s|
    ensures Patched(Patched(s, i, last), i, t) == Patched(s, i, t) <==> last[|t|..] == s[i + |t|..i + |last|]
  {
    var a, b := Patched(Patched(s, i, last), i, t), Patched(s, i, t);
    assert a[i + |t|..i + |last|] == last[|t|..];
    assert b[i + |t|..i + |last|] == s[i + |t|..i + |last|];
    assert a == s[..i] + t + last[|t|..] + s[i + |last|..];
    assert b == s[..i] + t + s[i + |t|..i + |last|] + s[i + |last|..];
  }

  function DataOf(extras: seq<Extras.Extra>): seq<Bytes> {
    seq(|extras|, i requires 0 <= i < |extras| => extras[i].data)
  }

  /** The stages get their tokens from dictionaries that are always sorted by length. */
  lemma DictionariesFit(extras: seq<Extras.Extra>, aExtras: seq<Extras.Extra>)
    requires Extras.SortedBy(Extras.ByLength, extras) && Extras.SortedBy(Extras.ByLength, Extras.Top(aExtras))
    ensures ByLength(DataOf(extras)) && ByLength(DataOf(Extras.Top(aExtras)))
  {
    forall j, k | 0 <= j < k < |extras| ensures |extras[j].data| <= |extras[k].data| {
      assert Extras.ByLength(extras[j]) <= Extras.ByLength(extras[k]);
    }
    var top := Extras.Top(aExtras);
    forall j, k | 0 <= j < k < |top| ensures |top[j].data| <= |top[k].data| {
      assert Extras.ByLength(top[j]) <= Extras.ByLength(top[k]);
    }
  }

  /** A token that is there already would not change the buffer. */
  lemma PasteAgain(s: Bytes, i: nat, last: Bytes, t: Bytes)
    requires |last| <= |t| && i + |t| <= |s| && Patched(s, i, last)[i..i + |t|] == t
    ensures Patched(s, i, t) == Patched(s, i, last)
  {
    PasteOver(s, i, last, t);
    var b := Patched(s, i, last);
    assert Patched(b, i, t) == b[..i] + b[i..i + |t|] + b[i + |t|..] == b;
  }

  lemma Restored(s: Bytes, i: nat, last: Bytes)
    requires i + |last| <= |s|
    ensures Patched(Patched(s, i, last), i, s[i..i + |last|]) == s
  {
    PasteOver(s, i, last, s[i..i + |last|]);
  }

  class OverwriteStage {
    const inBuf: Bytes
    const tokens: seq<Bytes>
    const outBuf: array<Byte>
    /** Does the span of this length at this offset have a byte set in the effector map? */
    const eff: (nat, nat) -> bool
    /** Does chance skip this token at this offset, when there are too many tokens? */
    const unlucky: (nat, nat) -> bool
    /** Does the n-th execution end the work on this entry? */
    const ends: nat -> bool
    var stageCur: nat
    var stageMax: int
    /** The inputs run so far. */
    var executed: seq<Bytes>

    predicate Left(i: nat, j: nat)
      requires j < |tokens|
    {
      |tokens| > MAX_DET_EXTRAS && unlucky(i, j)
    }

    /** The tokens that are meant to be tried at an offset. */
    predicate Meant(i: nat, j: nat)
      requires j < |tokens|
    {
      (|tokens| > 200 ==> !unlucky(i, j)) && i + |tokens[j]| <= |inBuf| && eff(i, |tokens[j]|)
    }

    /** The original with token j in the place of as many bytes at offset i. */
    function Pasted(i: nat, j: nat): Bytes
      requires j < |tokens| && i + |tokens[j]| <= |inBuf|
    {
      inBuf[..i] + tokens[j] + inBuf[i + |tokens[j]|..]
    }

    ghost predicate Tried(run: seq<Bytes>, i: nat, j: nat)
      requires j < |tokens|
    {
      Meant(i, j) ==> Pasted(i, j) == inBuf || Pasted(i, j) in run
    }

    /** Everything before token j at offset i was tried. */
    ghost predicate AllTried(run: seq<Bytes>, i: nat, j: nat) {
      forall k, m :: 0 <= m < |tokens| && (0 <= k < i || (k == i && m < j)) ==> Tried(run, k, m)
    }

    ghost predicate IsPaste(s: Bytes) {
      exists i: nat, j: nat :: i < |inBuf| && j < |tokens| && Meant(i, j) && s == Pasted(i, j)
    }

    ghost predicate AllPastes(run: seq<Bytes>) {
      forall k :: 0 <= k < |run| ==> IsPaste(run[k])
    }

    constructor (inBuf: Bytes, tokens: seq<Bytes>, eff: (nat, nat) -> bool, unlucky: (nat, nat) -> bool, ends: nat -> bool)
      ensures this.inBuf == inBuf && this.tokens == tokens && outBuf[..] == inBuf && executed == []
      ensures this.eff == eff && this.unlucky == unlucky && this.ends == ends && stageCur == 0 && fresh(outBuf)
    {
      this.inBuf, this.tokens, this.eff, this.unlucky, this.ends := inBuf, tokens, eff, unlucky, ends;
      outBuf := new Byte[|inBuf|](i requires 0 <= i < |inBuf| => inBuf[i]);
      stageCur, stageMax, executed := 0, 0, [];
    }

    method MemCpy(at: nat, t: Bytes)
      requires at + |t| <= outBuf.Length
      modifies outBuf
      ensures outBuf[..] == Patched(old(outBuf[..]), at, t)
    {
      forall k | 0 <= k < |t| {
        outBuf[at + k] := t[k];
      }
    }

    /** The work on this entry ended with the last execution, or has not ended yet. */
    ghost predicate EndedNow(done: bool)
      reads `executed
    {
      && (done ==> |executed| > 0 && ends(|executed| - 1))
      && forall k :: 0 <= k < |executed| - (if done then 1 else 0) ==> !ends(k)
    }

    /** common_fuzz_stuff, as far as it matters here. */
    method Execute() returns (done: bool)
      requires EndedNow(false)
      modifies `executed
      ensures executed == old(executed) + [outBuf[..]] && EndedNow(done)
    {
      done := ends(|executed|);
      executed := executed + [outBuf[..]];
    }

    /** The buffer holds the last token written at i, which is no longer than the tokens from j on. */
    ghost predicate Holds(i: nat, j: nat, last: Bytes)
      reads outBuf, `executed
    {
      && i + |last| <= |inBuf| && outBuf[..] == Patched(inBuf, i, last)
      && (forall k :: j <= k < |tokens| ==> |last| <= |tokens[k]|)
      && (outBuf[..] == inBuf || outBuf[..] in executed)
    }

    ghost predicate Progress(i: nat, j: nat)
      reads `executed, `stageCur, `stageMax
    {
      && AllPastes(executed) && AllTried(executed, i, j)
      && stageCur == |executed|
      && stageMax - stageCur == Rounds(i, j)
    }

    /** The rounds left from token j at offset i. */
    ghost function Rounds(i: nat, j: nat): int {
      |tokens| * (|inBuf| - i) - j
    }

    lemma OffsetRounds(i: nat)
      ensures Rounds(i, |tokens|) == Rounds(i + 1, 0)
    {
    }

    lemma TriedNext(run: seq<Bytes>, more: seq<Bytes>, i: nat, j: nat)
      requires AllTried(run, i, j) && j < |tokens| && Tried(run + more, i, j)
      ensures AllTried(run + more, i, j + 1)
    {
      forall k, m | 0 <= m < |tokens| && (0 <= k < i || (k == i && m < j + 1)) ensures Tried(run + more, k, m) {
        if k < i || m < j { assert Tried(run, k, m); }
      }
    }

    /** A token that is skipped is not meant for this offset, or there already. */
    method SkipToken(i: nat, j: nat, ghost last: Bytes)
      requires i < |inBuf| == outBuf.Length && j < |tokens| && Holds(i, j, last) && Progress(i, j)
      requires Meant(i, j) ==> tokens[j] == outBuf[i..i + |tokens[j]|]
      modifies `stageMax
      ensures Holds(i, j + 1, last) && Progress(i, j + 1) && executed == old(executed)
    {
      if Meant(i, j) { PasteAgain(inBuf, i, last, tokens[j]); }
      assert executed + [] == executed;
      TriedNext(executed, [], i, j);
      stageMax := stageMax - 1;
    }

    method WriteToken(i: nat, j: nat, ghost last: Bytes) returns (done: bool)
      requires ByLength(tokens) && i < |inBuf| == outBuf.Length && j < |tokens| && Meant(i, j)
      requires Holds(i, j, last) && Progress(i, j) && EndedNow(false)
      modifies outBuf, `executed, `stageCur
      ensures executed == old(executed) + [Patched(inBuf, i, tokens[j])]
      ensures AllPastes(executed) && EndedNow(done)
      ensures !done ==> Holds(i, j + 1, tokens[j]) && Progress(i, j + 1)
    {
      var t := tokens[j];
      ghost var run := executed;
      PasteOver(inBuf, i, last, t);
      MemCpy(i, t);
      done := Execute();
      assert IsPaste(Patched(inBuf, i, t));
      TriedNext(run, [Patched(inBuf, i, t)], i, j);
      if !done { stageCur := stageCur + 1; }
    }

    /** One token at one offset. */
    method TryToken(i: nat, j: nat, lastLen: nat, ghost last: Bytes) returns (done: bool, newLen: nat, ghost now: Bytes)
      requires ByLength(tokens) && i < |inBuf| == outBuf.Length && j < |tokens|
      requires Holds(i, j, last) && lastLen == |last| && Progress(i, j) && EndedNow(false)
      modifies outBuf, `executed, `stageCur, `stageMax
      ensures AllPastes(executed) && EndedNow(done)
      ensures !done ==> Holds(i, j + 1, now) && newLen == |now| && Progress(i, j + 1)
    {
      var t := tokens[j];
      if Left(i, j) || |t| > |inBuf| - i || t == outBuf[i..i + |t|] || !eff(i, |t|) {
        SkipToken(i, j, last);
        return false, lastLen, last;
      }
      newLen, now := |t|, t;
      done := WriteToken(i, j, last);
    }

    /** All tokens at one offset, and what they clobbered restored. */
    method TryOffset(i: nat) returns (done: bool)
      requires ByLength(tokens) && i < |inBuf| == outBuf.Length && outBuf[..] == inBuf && Progress(i, 0) && EndedNow(false)
      modifies outBuf, `executed, `stageCur, `stageMax
      ensures AllPastes(executed) && EndedNow(done)
      ensures !done ==> outBuf[..] == inBuf && Progress(i + 1, 0)
    {
      hide Rounds;
      var lastLen := 0;
      ghost var last: Bytes := [];
      for j := 0 to |tokens|
        invariant Holds(i, j, last) && lastLen == |last| && Progress(i, j) && EndedNow(false)
      {
        done, lastLen, last := TryToken(i, j, lastLen, last);
        if done { return; }
      }
      Restored(inBuf, i, last);
      MemCpy(i, inBuf[i..i + lastLen]);
      OffsetDone(executed, i);
      OffsetRounds(i);
      done := false;
    }

    lemma OffsetDone(run: seq<Bytes>, i: nat)
      requires AllTried(run, i, |tokens|)
      ensures AllTried(run, i + 1, 0)
    {
    }

    /** An overwrite stage.  Whatever happens, each input run is the original with exactly one
        token pasted into it.  If the stage is not cut short, every token meant for an offset
        was run there, or was in place already or after a run at that offset; the buffer is
        the original again; and every round is counted as run or taken off the plan. */
    method Overwrite() returns (done: bool)
      requires ByLength(tokens) && outBuf[..] == inBuf && executed == []
      modifies outBuf, `executed, `stageCur, `stageMax
      ensures AllPastes(executed) && EndedNow(done)
      ensures !done ==> outBuf[..] == inBuf && AllTried(executed, |inBuf|, 0)
      ensures !done ==> stageCur == stageMax == |executed|
    {
      stageCur, stageMax := 0, |tokens| * |inBuf|;
      for i := 0 to |inBuf|
        invariant outBuf[..] == inBuf && Progress(i, 0) && EndedNow(false)
      {
        done := TryOffset(i);
        if done { return; }
      }
      done := false;
    }
  }
}

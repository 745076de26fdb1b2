/** afl-fuzz's havoc stage: stacks of random edits in a buffer that grows and shrinks. */
module Havoc {
  import opened ByteStrings
  import opened Common
  import opened Config
  import opened HavocBytes
  import opened HavocChoice
  import opened HavocSpec

  function Pow2(n: nat): (p: nat)
    ensures p > 0
  {
    if n == 0 then 1 else 2 * Pow2(n - 1)
  }

  class HavocStage {
    const inBuf: Bytes
    const extras: seq<Bytes>
    const aExtras: seq<Bytes>
    const queueCycle: nat
    const runOver10m: bool
    /** Does the n-th execution end the work on this entry, and does it queue a new path? */
    const ends: nat -> bool
    const finds: nat -> bool
    /** The random numbers, and how many have been drawn: what is proved holds for all of them. */
    const dice: Dice
    var rolls: nat
    var outBuf: array<Byte>
    var tempLen: nat
    var executed: seq<Bytes>

    ghost function Tokens(): set<Bytes> {
      (set t | t in extras) + (set t | t in aExtras)
    }

    /** The input so far is the start of the buffer, which is large enough for it. */
    ghost predicate Valid()
      reads `outBuf, `tempLen
    {
      1 <= tempLen <= outBuf.Length && tempLen <= MAX_FILE && queueCycle >= 1
    }

    ghost function Data(): Bytes
      requires Valid()
      reads `outBuf, `tempLen, outBuf
    {
      outBuf[..tempLen]
    }

    constructor (inBuf: Bytes, extras: seq<Bytes>, aExtras: seq<Bytes>, queueCycle: nat, runOver10m: bool, ends: nat -> bool, finds: nat -> bool, dice: Dice)
      requires Sized(inBuf) && queueCycle >= 1
      ensures this.inBuf == inBuf && this.extras == extras && this.aExtras == aExtras
      ensures this.queueCycle == queueCycle && this.runOver10m == runOver10m && this.ends == ends && this.finds == finds
      ensures this.dice == dice && rolls == 0
      ensures Valid() && Data() == inBuf && executed == [] && fresh(outBuf)
    {
      this.dice, rolls := dice, 0;
      this.inBuf, this.extras, this.aExtras := inBuf, extras, aExtras;
      this.queueCycle, this.runOver10m, this.ends, this.finds := queueCycle, runOver10m, ends, finds;
      outBuf := new Byte[|inBuf|](i requires 0 <= i < |inBuf| => inBuf[i]);
      tempLen, executed := |inBuf|, [];
    }

    function St(): Stage { Stage(extras, aExtras, queueCycle, runOver10m) }

    method UR(limit: nat) returns (r: nat)
      requires limit > 0
      modifies `rolls
      ensures r == Roll(dice, old(rolls), limit) && rolls == old(rolls) + 1
    {
      r := dice(rolls) % limit;
      rolls := rolls + 1;
    }

    /** choose_block_len: never zero, and never more than it may be. */
    method ChooseBlockLen(limit: nat) returns (n: nat)
      requires limit > 0 && queueCycle >= 1
      modifies `rolls
      ensures Length(n, rolls) == BlockLen(dice, old(rolls), limit, St())
      ensures 1 <= n <= limit && n <= 32768
      ensures !runOver10m || queueCycle == 1 ==> n <= 32
      ensures queueCycle == 2 ==> n <= 128
    {
      var rlim := if runOver10m then Min(queueCycle, 3) else 1;
      var minValue, maxValue := 1, HAVOC_BLK_SMALL;
      var size := UR(rlim);
      if size == 1 {
        minValue, maxValue := HAVOC_BLK_SMALL, HAVOC_BLK_MEDIUM;
      } else if size > 1 {
        var large := UR(10);
        if large != 0 {
          minValue, maxValue := HAVOC_BLK_MEDIUM, HAVOC_BLK_LARGE;
        } else {
          minValue, maxValue := HAVOC_BLK_LARGE, HAVOC_BLK_XL;
        }
      }
      if minValue >= limit { minValue := 1; }
      var more := UR(Min(maxValue, limit) - minValue + 1);
      n := minValue + more;
    }

    // ----- changes to the buffer

    method Patch(at: nat, data: Bytes)
      requires Valid() && at + |data| <= tempLen
      modifies outBuf
      ensures Valid() && Data() == Patched(old(Data()), at, data)
    {
      forall i | 0 <= i < |data| {
        outBuf[at + i] := data[i];
      }
    }

    method ReadBlock(from: nat, len: nat) returns (block: Bytes)
      requires Valid() && from + len <= tempLen
      ensures block == Data()[from..from + len]
    {
      block := outBuf[from..from + len];
      ghost var s := Data();
      assert |block| == len && forall i :: 0 <= i < len ==> block[i] == s[from + i];
    }

    /** A new buffer with a block put in: head, block, tail. */
    method InsertBlock(at: nat, data: Bytes)
      requires Valid() && at <= tempLen && tempLen + |data| <= MAX_FILE
      modifies `outBuf, `tempLen
      ensures Valid() && fresh(outBuf) && Data() == Inserted(old(Data()), at, data)
    {
      var n := |data|;
      ghost var s := Data();
      var newBuf := new Byte[tempLen + n];
      forall i | 0 <= i < at {
        newBuf[i] := outBuf[i];
      }
      forall i | 0 <= i < n {
        newBuf[at + i] := data[i];
      }
      forall i | at <= i < tempLen {
        newBuf[i + n] := outBuf[i];
      }
      outBuf := newBuf;
      tempLen := tempLen + n;
      assert Data() == Inserted(s, at, data);
    }

    method DeleteBlock(from: nat, len: nat)
      requires Valid() && 0 < len < tempLen && from + len <= tempLen
      modifies `tempLen, outBuf
      ensures Valid() && Data() == old(Data())[..from] + old(Data())[from + len..]
    {
      forall i | from <= i < tempLen - len {
        outBuf[i] := outBuf[i + len];
      }
      tempLen := tempLen - len;
    }

    /** The buffer was edited like this. */
    twostate predicate Did(e: Edit)
      requires old(Valid()) && Valid()
      reads this, outBuf
    {
      Makes(e, old(Data()), Data(), Tokens())
    }

    // ----- the edits

    /** FLIP_BIT. */
    method FlipABit() returns (ghost e: Edit)
      requires Valid()
      modifies outBuf, `rolls
      ensures Valid() && Did(e) && Chosen(e, rolls) == FlipChoice(dice, old(rolls), old(Data()))
    {
      var bit := UR(8 * tempLen);
      e := FlipBit(bit);
      ghost var s := Data();
      outBuf[bit / 8] := Flipped(outBuf[bit / 8], bit % 8);
      assert Data() == s[bit / 8 := Flipped(s[bit / 8], bit % 8)];
    }

    /** A byte order, where there is more than one, a place, and one of some numbers. */
    method DrawSpot(width: nat, limit: nat) returns (swap: bool, at: nat, pick: nat)
      requires Valid() && 0 < width <= tempLen && limit > 0
      modifies `rolls
      ensures Spot(swap, at, pick, rolls) == SpotChoice(dice, old(rolls), Data(), width, limit)
    {
      hide Roll;
      swap := false;
      if width > 1 {
        var order := UR(2);
        swap := order == 0;
      }
      at := UR(tempLen - width + 1);
      pick := UR(limit);
    }

    /** An interesting value of this width, in either byte order. */
    method SetInteresting(width: nat) returns (ghost e: Edit)
      requires Valid() && width in {1, 2, 4}
      modifies outBuf, `rolls
      ensures Valid() && Did(e) && Chosen(e, rolls) == SetChoice(dice, old(rolls), old(Data()), width)
      ensures if old(tempLen) < width then e.Nothing? else e.Set? && e.width == width && (e.swap ==> width > 1)
    {
      if tempLen < width { return Nothing; }
      hide SpotChoice;
      ghost var s := Data();
      var swap, at, which := DrawSpot(width, |Interesting(width)|);
      assert Data() == s;
      var value := Interesting(width)[which];
      e := Set(at, width, swap, value);
      Patch(at, Number(value % Span(width), width, swap));
    }

    /** A small number added to or subtracted from a number of this width, in either byte order. */
    method Arith(width: nat, minus: bool) returns (ghost e: Edit)
      requires Valid() && width in {1, 2, 4}
      modifies outBuf, `rolls
      ensures Valid() && Did(e) && Chosen(e, rolls) == AddChoice(dice, old(rolls), old(Data()), width, minus)
      ensures if old(tempLen) < width then e.Nothing?
              else e.Add? && e.width == width && (e.swap ==> width > 1) && (minus <==> e.delta < 0)
    {
      hide Makes, Added, Patched, SpotChoice;
      ghost var s := Data();
      if tempLen < width {
        NothingMakes(s, Tokens());
        return Nothing;
      }
      var swap, at, num := DrawSpot(width, ARITH_MAX);
      assert Data() == s;
      var delta: int := if minus then -(1 + num as int) else 1 + num;
      var word := ReadBlock(at, width);
      assert word == s[at..at + width];
      e := Add(at, width, swap, delta);
      AddMakes(s, at, width, swap, delta, Tokens());
      Patch(at, Added(word, swap, delta));
    }

    method XorAByte() returns (ghost e: Edit)
      requires Valid()
      modifies outBuf, `rolls
      ensures Valid() && Did(e) && Chosen(e, rolls) == XorChoice(dice, old(rolls), old(Data()))
    {
      hide Makes, XorByte;
      ghost var s := Data();
      var at := UR(tempLen);
      var less := UR(255);
      assert Data() == s;
      e := Xor(at, 1 + less);
      XorMakes(s, at, 1 + less, Tokens());
      outBuf[at] := XorByte(outBuf[at], 1 + less);
      assert Data() == s[at := XorByte(s[at], 1 + less)];
    }

    method DeleteBytes() returns (ghost e: Edit)
      requires Valid()
      modifies `tempLen, outBuf, `rolls
      ensures Valid() && Did(e) && Chosen(e, rolls) == DeleteChoice(dice, old(rolls), old(Data()), St())
      ensures if old(tempLen) < 2 then e.Nothing? else e.Delete? && e.len <= HAVOC_BLK_XL
    {
      hide BlockLen, Roll, Makes;
      ghost var s := Data();
      if tempLen < 2 {
        NothingMakes(s, Tokens());
        return Nothing;
      }
      var len := ChooseBlockLen(tempLen - 1);
      var from := UR(tempLen - len + 1);
      assert Data() == s;
      e := Delete(from, len);
      DeleteMakes(s, from, len, Tokens());
      DeleteBlock(from, len);
    }

    method FillByte() returns (b: Byte)
      requires Valid()
      modifies `rolls
      ensures Filler(b, rolls) == FillChoice(dice, old(rolls), Data())
    {
      var own := UR(2);
      if own != 0 {
        b := UR(256);
      } else {
        var at := UR(tempLen);
        b := outBuf[at];
      }
    }

    /** Clone a block, or insert one of a single byte, while the file stays small enough. */
    method GrowBytes() returns (ghost e: Edit)
      requires Valid()
      modifies `tempLen, `outBuf, `rolls
      ensures Valid() && Did(e) && (outBuf == old(outBuf) || fresh(outBuf))
      ensures Chosen(e, rolls) == GrowChoice(dice, old(rolls), old(Data()), St())
      ensures if old(tempLen) + HAVOC_BLK_XL >= MAX_FILE then e.Nothing?
              else (e.Clone? || e.InsertFill?) && e.len <= HAVOC_BLK_XL
    {
      hide CloneChoice, InsertFillChoice, GrowChoice, Roll, Makes;
      ghost var s := Data();
      GrowParts(dice, rolls, s, St());
      if tempLen + HAVOC_BLK_XL >= MAX_FILE {
        NothingMakes(s, Tokens());
        return Nothing;
      }
      var clone := UR(4);
      assert Data() == s;
      if clone != 0 {
        e := CloneABlock();
      } else {
        e := InsertABlock();
      }
    }

    method CloneABlock() returns (ghost e: Edit)
      requires Valid() && tempLen + HAVOC_BLK_XL < MAX_FILE
      modifies `tempLen, `outBuf, `rolls
      ensures Valid() && fresh(outBuf) && Makes(e, old(Data()), Data(), Tokens()) && e.Clone? && e.len <= HAVOC_BLK_XL
      ensures Chosen(e, rolls) == CloneChoice(dice, old(rolls), old(Data()), St())
    {
      ghost var s := Data();
      var len, from, to := DrawClone();
      assert Data() == s;
      e := Clone(to, from, len);
      GrowMakes(s, to, from, len, 0, Tokens());
      var block := ReadBlock(from, len);
      InsertBlock(to, block);
    }

    method DrawClone() returns (len: nat, from: nat, to: nat)
      requires Valid()
      modifies `rolls
      ensures Chosen(Clone(to, from, len), rolls) == CloneChoice(dice, old(rolls), Data(), St())
      ensures 0 < len <= HAVOC_BLK_XL && from + len <= tempLen && to < tempLen
    {
      hide BlockLen, Roll;
      len := ChooseBlockLen(tempLen);
      from := UR(tempLen - len + 1);
      to := UR(tempLen);
    }

    method InsertABlock() returns (ghost e: Edit)
      requires Valid() && tempLen + HAVOC_BLK_XL < MAX_FILE
      modifies `tempLen, `outBuf, `rolls
      ensures Valid() && fresh(outBuf) && Makes(e, old(Data()), Data(), Tokens()) && e.InsertFill? && e.len <= HAVOC_BLK_XL
      ensures Chosen(e, rolls) == InsertFillChoice(dice, old(rolls), old(Data()), St())
    {
      ghost var s := Data();
      var len, to, b := DrawInsertFill();
      assert Data() == s;
      e := InsertFill(to, len, b);
      GrowMakes(s, to, 0, len, b, Tokens());
      InsertBlock(to, Repeat(b, len));
    }

    method DrawInsertFill() returns (len: nat, to: nat, b: Byte)
      requires Valid()
      modifies `rolls
      ensures Chosen(InsertFill(to, len, b), rolls) == InsertFillChoice(dice, old(rolls), Data(), St())
      ensures 0 < len <= HAVOC_BLK_XL && to < tempLen
    {
      hide BlockLen, FillChoice, Roll;
      len := ChooseBlockLen(HAVOC_BLK_XL);
      to := UR(tempLen);
      b := FillByte();
    }

    /** Overwrite a block with another, or with a single byte. */
    method OverwriteBytes() returns (ghost e: Edit)
      requires Valid()
      modifies outBuf, `rolls
      ensures Valid() && Did(e) && Chosen(e, rolls) == OverwriteChoice(dice, old(rolls), old(Data()), St())
      ensures if old(tempLen) < 2 then e.Nothing? else (e.Copy? || e.Fill?) && e.len <= HAVOC_BLK_XL
    {
      if tempLen < 2 { return Nothing; }
      hide PlacesChoice, FillChoice, Roll, Makes, Patched;
      ghost var s := Data();
      var len, from, to := DrawPlaces();
      var copy := UR(4);
      if copy != 0 {
        e := Copy(to, from, len);
        CopyBlock(to, from, len);
      } else {
        var b := FillByte();
        assert Data() == s;
        e := Edit.Fill(to, len, b);
        FillMakes(s, to, len, b, Tokens());
        Patch(to, Repeat(b, len));
      }
    }

    method DrawPlaces() returns (len: nat, from: nat, to: nat)
      requires Valid() && tempLen >= 2
      modifies `rolls
      ensures Places(len, from, to, rolls) == PlacesChoice(dice, old(rolls), Data(), St())
      ensures 0 < len < tempLen && len <= HAVOC_BLK_XL && from + len <= tempLen && to + len <= tempLen
    {
      hide BlockLen, Roll;
      len := ChooseBlockLen(tempLen - 1);
      from := UR(tempLen - len + 1);
      to := UR(tempLen - len + 1);
    }

    method CopyBlock(to: nat, from: nat, len: nat)
      requires Valid() && 0 < len < tempLen && from + len <= tempLen && to + len <= tempLen
      modifies outBuf
      ensures Valid() && Makes(Copy(to, from, len), old(Data()), Data(), Tokens())
    {
      CopyMakes(Data(), to, from, len, Tokens());
      if from != to {
        var block := ReadBlock(from, len);
        Patch(to, block);
      }
    }

    /** A token of either dictionary. */
    method ChooseExtra() returns (t: Bytes)
      requires |extras| + |aExtras| > 0
      modifies `rolls
      ensures t in Tokens() && Token(t, rolls) == TokenChoice(dice, old(rolls), St())
    {
      var auto := 0;
      if |extras| > 0 && |aExtras| > 0 { auto := UR(2); }
      if |extras| == 0 || auto != 0 {
        var use := UR(|aExtras|);
        t := aExtras[use];
      } else {
        var use := UR(|extras|);
        t := extras[use];
      }
    }

    method OverwriteExtra() returns (ghost e: Edit)
      requires Valid() && |extras| + |aExtras| > 0
      modifies outBuf, `rolls
      ensures Valid() && Did(e) && Chosen(e, rolls) == OverwriteTokenChoice(dice, old(rolls), old(Data()), St())
      ensures e.Overwrite? || (e.Nothing? && exists t :: t in Tokens() && |t| > old(tempLen))
    {
      hide TokenChoice;
      var t := ChooseExtra();
      if |t| > tempLen { return Nothing; }
      var at := UR(tempLen - |t| + 1);
      e := Overwrite(at, t);
      Patch(at, t);
    }

    method InsertExtra() returns (ghost e: Edit)
      requires Valid() && |extras| + |aExtras| > 0
      modifies `tempLen, `outBuf, `rolls
      ensures Valid() && Did(e) && (outBuf == old(outBuf) || fresh(outBuf))
      ensures Chosen(e, rolls) == InsertTokenChoice(dice, old(rolls), old(Data()), St())
      ensures e.Insert? || (e.Nothing? && exists t :: t in Tokens() && old(tempLen) + |t| >= MAX_FILE)
    {
      hide TokenChoice;
      var at := UR(tempLen + 1);
      var t := ChooseExtra();
      if tempLen + |t| >= MAX_FILE { return Nothing; }
      e := Insert(at, t);
      InsertBlock(at, t);
    }

    /** One edit, of a random kind. */
    method EditOnce() returns (ghost e: Edit)
      requires Valid()
      modifies `tempLen, `outBuf, outBuf, `rolls
      ensures Valid() && Did(e) && (outBuf == old(outBuf) || fresh(outBuf))
      ensures Chosen(e, rolls) == EditChoice(dice, old(rolls), old(Data()), St())
      ensures InBytes(e, old(Data()), Data(), Tokens())
    {
      ghost var s := Data();
      var kind := UR(15 + if |extras| + |aExtras| > 0 then 2 else 0);
      e := EditOfThisKind(kind);
      MakesInBytes(e, s, Data(), Tokens());
    }

    method EditOfThisKind(kind: nat) returns (ghost e: Edit)
      requires Valid() && kind < Kinds(St())
      modifies `tempLen, `outBuf, outBuf, `rolls
      ensures Valid() && Did(e) && (outBuf == old(outBuf) || fresh(outBuf))
      ensures Chosen(e, rolls) == EditOfKind(dice, old(rolls), old(Data()), St(), kind)
    {
      hide FlipChoice, SetChoice, AddChoice, XorChoice, DeleteChoice, GrowChoice, OverwriteChoice, OverwriteTokenChoice, InsertTokenChoice;
      if kind == 0 { e := FlipABit(); }
      else if kind == 1 { e := SetInteresting(1); }
      else if kind == 2 { e := SetInteresting(2); }
      else if kind == 3 { e := SetInteresting(4); }
      else if kind == 4 { e := Arith(1, true); }
      else if kind == 5 { e := Arith(1, false); }
      else if kind == 6 { e := Arith(2, true); }
      else if kind == 7 { e := Arith(2, false); }
      else if kind == 8 { e := Arith(4, true); }
      else if kind == 9 { e := Arith(4, false); }
      else if kind == 10 { e := XorAByte(); }
      else if kind <= 12 { e := DeleteBytes(); }
      else if kind == 13 { e := GrowBytes(); }
      else if kind == 14 { e := OverwriteBytes(); }
      else if kind == 15 { e := OverwriteExtra(); }
      else { e := InsertExtra(); }
    }

    // ----- the stage

    /** The input after a stack of edits. */
    method EditStack(n: nat)
      requires Valid() && Data() == inBuf
      modifies `tempLen, `outBuf, outBuf, `rolls
      ensures Valid() && Edited(inBuf, Data(), n, Tokens()) && (outBuf == old(outBuf) || fresh(outBuf))
    {
      for i := 0 to n
        invariant Valid() && Edited(inBuf, Data(), i, Tokens()) && (outBuf == old(outBuf) || fresh(outBuf))
      {
        ghost var u := Data();
        ghost var e := EditOnce();
        assert Edited(inBuf, u, i, Tokens()) && Makes(e, u, Data(), Tokens());
      }
    }

    /** The work on this entry ended with the last execution, or has not ended yet. */
    ghost predicate EndedNow(done: bool)
      reads `executed
    {
      && (done ==> |executed| > 0 && ends(|executed| - 1))
      && forall k :: 0 <= k < |executed| - (if done then 1 else 0) ==> !ends(k)
    }

    method Execute() returns (done: bool, found: bool)
      requires Valid() && EndedNow(false)
      modifies `executed
      ensures executed == old(executed) + [Data()] && EndedNow(done)
      ensures found == finds(|old(executed)|)
    {
      done, found := ends(|executed|), finds(|executed|);
      executed := executed + [outBuf[..tempLen]];
    }

    /** Back to the original size and shape; a buffer that became too small is enlarged first. */
    method Restore()
      requires Valid() && Sized(inBuf)
      requires tempLen < |inBuf| || |inBuf| <= outBuf.Length
      modifies `tempLen, `outBuf, outBuf
      ensures Valid() && Data() == inBuf && (outBuf == old(outBuf) || fresh(outBuf))
    {
      if tempLen < |inBuf| {
        var n := |inBuf|;
        outBuf := new Byte[n];
      }
      tempLen := |inBuf|;
      forall i | 0 <= i < |inBuf| {
        outBuf[i] := inBuf[i];
      }
    }

    /** Each input run comes from the original by a stack of edits whose height is a power of two. */
    ghost predicate Stacked(run: seq<Bytes>) {
      forall k :: 0 <= k < |run| ==>
        Sized(run[k]) && exists j: nat :: 1 <= j <= 7 && Edited(inBuf, run[k], Pow2(j), Tokens())
    }

    /** One round of the stage. */
    method Round() returns (done: bool, found: bool)
      requires Valid() && Sized(inBuf) && Data() == inBuf && Stacked(executed) && EndedNow(false)
      modifies `tempLen, `outBuf, `executed, outBuf, `rolls
      ensures Valid() && Stacked(executed) && |executed| == |old(executed)| + 1 && EndedNow(done)
      ensures outBuf == old(outBuf) || fresh(outBuf)
      ensures found == finds(|old(executed)|)
      ensures Edited(inBuf, executed[|executed| - 1], Pow2(1 + Roll(dice, old(rolls), 7)), Tokens())
      ensures !done ==> Data() == inBuf
    {
      var j := UR(HAVOC_STACK_POW2);
      EditStack(Pow2(1 + j));
      EditedKeepsSize(inBuf, Data(), Pow2(1 + j), Tokens());
      ghost var run, t := executed, Data();
      done, found := Execute();
      assert executed == run + [t];
      if done { return; }
      Restore();
    }

    /** The length of the stage to start with. */
    function StageMax(perf: nat, doingDet: bool, splicing: bool, havocDiv: nat): (n: nat)
      requires havocDiv > 0
      ensures n >= HAVOC_MIN
    {
      var cycles := if splicing then SPLICE_HAVOC else if doingDet then HAVOC_CYCLES_INIT else HAVOC_CYCLES;
      var n := cycles * perf / havocDiv / 100;
      if n < HAVOC_MIN then HAVOC_MIN else n
    }

    lemma StageMaxIs(perf: nat, doingDet: bool, splicing: bool, havocDiv: nat)
      requires havocDiv > 0
      ensures var n := (if splicing then 32 else if doingDet then 1024 else 256) * perf / havocDiv / 100;
              StageMax(perf, doingDet, splicing, havocDiv) == if n < 16 then 16 else n
    {
    }

    /** How many of the first n runs find a new path. */
    ghost function Finds(n: nat): nat {
      if n == 0 then 0 else Finds(n - 1) + if finds(n - 1) then 1 else 0
    }

    /** The length of the stage after n runs: doubled at each find, as long as the score, which is doubled too,
        is at most 1600. */
    ghost function Planned(first: nat, perf: nat, n: nat): nat
      requires perf > 0
    {
      var doublings := if Finds(n) < Doublings(perf) then Finds(n) else Doublings(perf);
      first * Pow2(doublings)
    }

    lemma PlanStarts(perf: nat)
      requires perf > 0 && executed == []
      ensures Finds(0) == 0 && Stacked(executed)
    {
    }

    /** What one run does to the plan. */
    lemma PlanNext(first: nat, perf: nat, n: nat, doublings: nat, perfScore: nat)
      requires perf > 0 && Doubled(perf, doublings, perfScore)
      requires doublings == if Finds(n) < Doublings(perf) then Finds(n) else Doublings(perf)
      ensures Doubled(first, doublings, Planned(first, perf, n))
      ensures perfScore <= 1600 <==> doublings < Doublings(perf)
      ensures var more := doublings + if finds(n) && perfScore <= 1600 then 1 else 0;
              more == if Finds(n + 1) < Doublings(perf) then Finds(n + 1) else Doublings(perf)
    {
      DoublingsLeft(perf, doublings);
    }

    /** The stage ends whatever the target does, even if every run finds something: its length
        is doubled at most ten times.  Every input run is a stack of legal edits of the
        original.  Unless the work on this entry is given up the buffer is the original in
        the end, and the stage stops after as many runs as are planned by then. */
    method Run(perf: nat, doingDet: bool, splicing: bool, havocDiv: nat) returns (done: bool)
      requires Valid() && Sized(inBuf) && Data() == inBuf && executed == []
      requires 2 <= perf <= HAVOC_MAX_MULT * 100 && havocDiv > 0
      modifies `tempLen, `outBuf, `executed, outBuf, `rolls
      ensures Valid() && Stacked(executed) && EndedNow(done)
      ensures |executed| <= 1024 * StageMax(perf, doingDet, splicing, havocDiv)
      ensures var n := (if splicing then 32 else if doingDet then 1024 else 256) * perf / havocDiv / 100;
              var first := if n < 16 then 16 else n;
              && (forall m: nat :: m < |executed| ==> m < Planned(first, perf, m))
              && (!done ==> |executed| == Planned(first, perf, |executed|))
      ensures !done ==> Data() == inBuf
    {
      hide Planned, Finds, Doublings, Stacked, Pow2;
      PlanStarts(perf);
      var stageMax := StageMax(perf, doingDet, splicing, havocDiv);
      StageMaxIs(perf, doingDet, splicing, havocDiv);
      var perfScore: nat, stageCur: nat := perf, 0;
      ghost var planned: nat, doublings: nat := stageMax, 0;
      NotDoubled(perf);
      NotDoubled(planned);
      while stageCur < stageMax
        invariant Valid() && Data() == inBuf && Stacked(executed) && EndedNow(false) && stageCur == |executed| <= stageMax
        invariant Doubled(perf, doublings, perfScore) && Doubled(planned, doublings, stageMax) && doublings <= 10
        invariant doublings == if Finds(stageCur) < Doublings(perf) then Finds(stageCur) else Doublings(perf)
        invariant forall m: nat :: m < stageCur ==> m < Planned(planned, perf, m)
        invariant outBuf == old(outBuf) || fresh(outBuf)
        decreases 10 - doublings, stageMax - stageCur
      {
        var found;
        DoublingBound(planned, doublings, stageMax);
        PlanNext(planned, perf, stageCur, doublings, perfScore);
        done, found := Round();
        if done { return; }
        stageCur := stageCur + 1;
        if found && perfScore <= HAVOC_MAX_MULT * 100 {
          FewDoublings(perf, doublings, perfScore);
          DoubleAgain(planned, doublings, stageMax);
          DoubleAgain(perf, doublings, perfScore);
          stageMax, perfScore := stageMax * 2, perfScore * 2;
          doublings := doublings + 1;
        }
      }
      DoublingBound(planned, doublings, stageMax);
      PlanNext(planned, perf, stageCur, doublings, perfScore);
      done := false;
    }
  }

  /** How often a score can be doubled until it is above 1600. */
  function Doublings(perf: nat): nat
    requires perf > 0
    decreases 1600 - perf
  {
    if perf > 1600 then 0 else 1 + Doublings(2 * perf)
  }

  lemma {:induction false} DoublingsLeft(perf: nat, k: nat)
    requires perf > 0
    ensures perf * Pow2(k) <= 1600 <==> k < Doublings(perf)
    decreases k
  {
    if k > 0 {
      assert perf * Pow2(k) == (2 * perf) * Pow2(k - 1);
      if perf <= 1600 {
        DoublingsLeft(2 * perf, k - 1);
      } else {
        PowersGrow(0, k);
        TimesMonotone(1, Pow2(k), perf);
      }
    }
  }

  ghost predicate Doubled(start: nat, times: nat, now: nat) {
    now == start * Pow2(times)
  }

  lemma NotDoubled(start: nat)
    ensures Doubled(start, 0, start)
  {
  }

  lemma DoubleAgain(start: nat, times: nat, now: nat)
    requires Doubled(start, times, now)
    ensures Doubled(start, times + 1, now * 2)
  {
  }

  lemma DoublingBound(start: nat, times: nat, now: nat)
    requires Doubled(start, times, now) && times <= 10
    ensures start <= now <= 1024 * start
  {
    PowersGrow(times, 10);
    TimesMonotone(1, Pow2(times), start);
    TimesMonotone(Pow2(times), 1024, start);
  }

  lemma {:induction false} PowersGrow(a: nat, b: nat)
    requires a <= b
    ensures Pow2(a) <= Pow2(b)
    ensures b == 10 ==> Pow2(b) == 1024
    decreases b
  {
    if a < b { PowersGrow(a, b - 1); }
    assert Pow2(5) == 32;
  }

  lemma FewDoublings(start: nat, times: nat, now: nat)
    requires start >= 2 && times <= 10 && Doubled(start, times, now) && now <= HAVOC_MAX_MULT * 100
    ensures times < 10
  {
    PowersGrow(10, 10);
    if times == 10 { TimesMonotone(2, start, 1024); }
  }
}

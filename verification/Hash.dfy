/** A hash that folds a round over words, when the round can be undone in each argument. */
module HashFold {
  /** A round, with the functions that find the state before it or the word it took. */
  datatype Step<!W> = Step(run: (W, W) -> W, stateOf: (W, W) -> W, wordOf: (W, W) -> W)

  ghost predicate Invertible<W(!new)>(s: Step<W>) {
    && (forall h, k :: s.stateOf(s.run(h, k), k) == h && s.run(s.stateOf(h, k), k) == h)
    && (forall h, k :: s.wordOf(s.run(h, k), h) == k && s.run(h, s.wordOf(k, h)) == k)
  }

  function Fold<W>(s: Step<W>, h: W, words: seq<W>): W {
    if words == [] then h else s.run(Fold(s, h, words[..|words| - 1]), words[|words| - 1])
  }

  /** Buffers that differ in exactly word i. */
  ghost predicate DifferAt<W>(a: seq<W>, b: seq<W>, i: nat) {
    |a| == |b| && i < |a| && a[i] != b[i] && forall j :: 0 <= j < |a| && j != i ==> a[j] == b[j]
  }

  function With<W>(words: seq<W>, i: nat, w: W): seq<W>
    requires i < |words|
  {
    words[i := w]
  }

  /** One word changed changes the state after the last word. */
  lemma {:induction false} OneWordChangesState<W(!new)>(s: Step<W>, h: W, a: seq<W>, b: seq<W>, i: nat)
    requires Invertible(s) && DifferAt(a, b, i)
    ensures Fold(s, h, a) != Fold(s, h, b)
    decreases |a|
  {
    var n := |a| - 1;
    if i == n {
      assert a[..n] == b[..n];
      var before := Fold(s, h, a[..n]);
      assert s.wordOf(s.run(before, a[n]), before) != s.wordOf(s.run(before, b[n]), before);
    } else {
      OneWordChangesState(s, h, a[..n], b[..n], i);
      assert s.stateOf(s.run(Fold(s, h, a[..n]), a[n]), a[n]) != s.stateOf(s.run(Fold(s, h, b[..n]), b[n]), b[n]);
    }
  }

  /** Word i can bring the state after the last word to any value. */
  lemma {:induction false} WordForState<W(!new)>(s: Step<W>, h: W, words: seq<W>, i: nat, goal: W) returns (w: W)
    requires Invertible(s) && i < |words|
    ensures Fold(s, h, words[i := w]) == goal
    decreases |words|
  {
    var n := |words| - 1;
    if i == n {
      w := s.wordOf(goal, Fold(s, h, words[..n]));
      assert words[i := w][..n] == words[..n];
    } else {
      w := WordForState(s, h, words[..n], i, s.stateOf(goal, words[n]));
      assert words[i := w][..n] == words[..n][i := w];
    }
  }

  /** Another state to start from changes the state after the last word. */
  lemma {:induction false} OtherStartChangesState<W(!new)>(s: Step<W>, h: W, h2: W, words: seq<W>)
    requires Invertible(s) && h != h2
    ensures Fold(s, h, words) != Fold(s, h2, words)
    decreases |words|
  {
    if words != [] {
      var n := |words| - 1;
      OtherStartChangesState(s, h, h2, words[..n]);
      assert s.stateOf(s.run(Fold(s, h, words[..n]), words[n]), words[n]) != s.stateOf(s.run(Fold(s, h2, words[..n]), words[n]), words[n]);
    }
  }
}

/** hash32 of hash.h where a word has 32 bits. */
module Hash32 {
  import opened HashFold

  // ----- the steps, each beside the one that undoes it

  function ScaleA(x: bv32): bv32 { x * 0xcc9e2d51 }

  function UnscaleA(x: bv32): bv32 { x * 0xdee13bb1 }

  function TurnA(x: bv32): bv32 { (x << 15) | (x >> 17) }

  function UnturnA(x: bv32): bv32 { (x << 17) | (x >> 15) }

  function ScaleB(x: bv32): bv32 { x * 0x1b873593 }

  function UnscaleB(x: bv32): bv32 { x * 0x56ed309b }

  function TurnB(x: bv32): bv32 { (x << 13) | (x >> 19) }

  function UnturnB(x: bv32): bv32 { (x << 19) | (x >> 13) }

  function Advance(x: bv32): bv32 { x * 5 + 0xe6546b64 }

  function Retreat(x: bv32): bv32 { (x - 0xe6546b64) * 0xcccccccd }

  function Xor16(x: bv32): bv32 { x ^ (x >> 16) }

  function Unxor16(x: bv32): bv32 { x ^ (x >> 16) }

  function Xor13(x: bv32): bv32 { x ^ (x >> 13) }

  function Unxor13(x: bv32): bv32 { x ^ (x >> 13) ^ (x >> 26) }

  function ScaleC(x: bv32): bv32 { x * 0x85ebca6b }

  function UnscaleC(x: bv32): bv32 { x * 0xa5cb9243 }

  function ScaleD(x: bv32): bv32 { x * 0xc2b2ae35 }

  function UnscaleD(x: bv32): bv32 { x * 0x7ed1b41d }

  lemma ScaleAUndone(x: bv32)
    ensures UnscaleA(ScaleA(x)) == x && ScaleA(UnscaleA(x)) == x
  {
    assert UnscaleA(x * 0xcc9e2d51) == x;
    assert ScaleA(x * 0xdee13bb1) == x;
  }

  lemma TurnAUndone(x: bv32)
    ensures UnturnA(TurnA(x)) == x && TurnA(UnturnA(x)) == x
  {
    assert UnturnA((x << 15) | (x >> 17)) == x;
    assert TurnA((x << 17) | (x >> 15)) == x;
  }

  lemma ScaleBUndone(x: bv32)
    ensures UnscaleB(ScaleB(x)) == x && ScaleB(UnscaleB(x)) == x
  {
    assert UnscaleB(x * 0x1b873593) == x;
    assert ScaleB(x * 0x56ed309b) == x;
  }

  lemma TurnBUndone(x: bv32)
    ensures UnturnB(TurnB(x)) == x && TurnB(UnturnB(x)) == x
  {
    assert UnturnB((x << 13) | (x >> 19)) == x;
    assert TurnB((x << 19) | (x >> 13)) == x;
  }

  lemma AdvanceUndone(x: bv32)
    ensures Retreat(Advance(x)) == x && Advance(Retreat(x)) == x
  {
    assert Retreat(x * 5 + 0xe6546b64) == x;
    assert Advance((x - 0xe6546b64) * 0xcccccccd) == x;
  }

  lemma Xor16Undone(x: bv32)
    ensures Unxor16(Xor16(x)) == x && Xor16(Unxor16(x)) == x
  {
    assert Unxor16(x ^ (x >> 16)) == x;
    assert Xor16(x ^ (x >> 16)) == x;
  }

  lemma Xor13Undone(x: bv32)
    ensures Unxor13(Xor13(x)) == x && Xor13(Unxor13(x)) == x
  {
    assert Unxor13(x ^ (x >> 13)) == x;
    assert Xor13(x ^ (x >> 13) ^ (x >> 26)) == x;
  }

  lemma ScaleCUndone(x: bv32)
    ensures UnscaleC(ScaleC(x)) == x && ScaleC(UnscaleC(x)) == x
  {
    assert UnscaleC(x * 0x85ebca6b) == x;
    assert ScaleC(x * 0xa5cb9243) == x;
  }

  lemma ScaleDUndone(x: bv32)
    ensures UnscaleD(ScaleD(x)) == x && ScaleD(UnscaleD(x)) == x
  {
    assert UnscaleD(x * 0xc2b2ae35) == x;
    assert ScaleD(x * 0x7ed1b41d) == x;
  }
  function Join(h: bv32, k: bv32): bv32 { h ^ k }

  lemma JoinUndone(h: bv32, k: bv32)
    ensures Join(Join(h, k), k) == h && Join(h, k) == Join(k, h)
  {
    assert (h ^ k) ^ k == h;
    assert h ^ k == k ^ h;
  }

  // ----- one round, and the finish

  function MixWord(k: bv32): bv32 { ScaleB(TurnA(ScaleA(k))) }

  function UnmixWord(k: bv32): bv32 { UnscaleA(UnturnA(UnscaleB(k))) }

  function Round(h: bv32, k: bv32): bv32 { Advance(TurnB(Join(h, MixWord(k)))) }

  function StateBefore(h: bv32, k: bv32): bv32 { Join(UnturnB(Retreat(h)), MixWord(k)) }

  function WordTaken(h: bv32, was: bv32): bv32 { UnmixWord(Join(UnturnB(Retreat(h)), was)) }

  const ROUND := Step((h: bv32, k: bv32) => Round(h, k), (h: bv32, k: bv32) => StateBefore(h, k), (h: bv32, was: bv32) => WordTaken(h, was))

  function Finish(h: bv32): bv32 { Xor16(ScaleD(Xor13(ScaleC(Xor16(h))))) }

  function Unfinish(h: bv32): bv32 { Unxor16(UnscaleC(Unxor13(UnscaleD(Unxor16(h))))) }

  lemma MixUndone(k: bv32)
    ensures UnmixWord(MixWord(k)) == k && MixWord(UnmixWord(k)) == k
  {
    ScaleAUndone(k);
    TurnAUndone(ScaleA(k));
    ScaleBUndone(TurnA(ScaleA(k)));
    ScaleBUndone(k);
    TurnAUndone(UnscaleB(k));
    ScaleAUndone(UnturnA(UnscaleB(k)));
  }

  lemma TurnUndone(h: bv32)
    ensures UnturnB(Retreat(Advance(TurnB(h)))) == h && Advance(TurnB(UnturnB(Retreat(h)))) == h
  {
    TurnBUndone(h);
    AdvanceUndone(TurnB(h));
    AdvanceUndone(h);
    TurnBUndone(Retreat(h));
  }

  lemma RoundUndone(h: bv32, k: bv32)
    ensures StateBefore(Round(h, k), k) == h && Round(StateBefore(h, k), k) == h
    ensures WordTaken(Round(h, k), h) == k && Round(h, WordTaken(k, h)) == k
  {
    var m := MixWord(k);
    TurnUndone(Join(h, m));
    TurnUndone(h);
    TurnUndone(k);
    JoinUndone(h, m);
    JoinUndone(m, h);
    JoinUndone(UnturnB(Retreat(h)), m);
    MixUndone(k);
    var c := Join(UnturnB(Retreat(k)), h);
    MixUndone(c);
    JoinUndone(UnturnB(Retreat(k)), h);
    JoinUndone(c, h);
  }

  lemma RoundIsInvertible()
    ensures Invertible(ROUND)
  {
    forall h, k ensures ROUND.stateOf(ROUND.run(h, k), k) == h && ROUND.run(ROUND.stateOf(h, k), k) == h {
      RoundUndone(h, k);
    }
    forall h, k ensures ROUND.wordOf(ROUND.run(h, k), h) == k && ROUND.run(h, ROUND.wordOf(k, h)) == k {
      RoundUndone(h, k);
    }
  }

  lemma FinishUndone(h: bv32)
    ensures Unfinish(Finish(h)) == h && Finish(Unfinish(h)) == h
  {
    Xor16Undone(h);
    ScaleCUndone(Xor16(h));
    Xor13Undone(ScaleC(Xor16(h)));
    ScaleDUndone(Xor13(ScaleC(Xor16(h))));
    Xor16Undone(ScaleD(Xor13(ScaleC(Xor16(h)))));
    Xor16Undone(h);
    ScaleDUndone(Unxor16(h));
    Xor13Undone(UnscaleD(Unxor16(h)));
    ScaleCUndone(Unxor13(UnscaleD(Unxor16(h))));
    Xor16Undone(UnscaleC(Unxor13(UnscaleD(Unxor16(h)))));
  }

  // ----- the hash

  function Start(len: bv32, seed: bv32): bv32 { Join(seed, len) }

  function HashOf(words: seq<bv32>, len: bv32, seed: bv32): bv32 {
    Finish(Fold(ROUND, Start(len, seed), words))
  }

  // ----- the same as formulas

  function Times(x: bv32, c: bv32): bv32 { x * c }

  function Plus(x: bv32, c: bv32): bv32 { x + c }

  /** ROL32. */
  function Rotated(x: bv32, n: nat): bv32
    requires n < 32
  {
    (x << n) | (x >> (32 - n))
  }

  function Shifted(x: bv32, n: nat): bv32
    requires n < 32
  {
    x ^ (x >> n)
  }

  lemma TurnAIs(x: bv32)
    ensures Rotated(x, 15) == TurnA(x)
  {
  }

  lemma TurnBIs(x: bv32)
    ensures Rotated(x, 13) == TurnB(x)
  {
  }

  lemma Xor16Is(x: bv32)
    ensures Shifted(x, 16) == Xor16(x)
  {
  }

  lemma Xor13Is(x: bv32)
    ensures Shifted(x, 13) == Xor13(x)
  {
  }

  lemma StartIs(len: bv32, seed: bv32)
    ensures Start(len, seed) == Join(seed, len)
  {
  }

  lemma ScaleAIs(x: bv32)
    ensures Times(x, 0xcc9e2d51) == ScaleA(x)
  {
  }

  lemma ScaleBIs(x: bv32)
    ensures Times(x, 0x1b873593) == ScaleB(x)
  {
  }

  lemma ScaleCIs(x: bv32)
    ensures Times(x, 0x85ebca6b) == ScaleC(x)
  {
  }

  lemma ScaleDIs(x: bv32)
    ensures Times(x, 0xc2b2ae35) == ScaleD(x)
  {
  }

  lemma AdvanceIs(x: bv32)
    ensures Plus(Times(x, 5), 0xe6546b64) == Advance(x)
  {
  }

  function Mixed(h: bv32, k: bv32): bv32 {
    var n := Times(Rotated(Times(k, 0xcc9e2d51), 15), 0x1b873593);
    Plus(Times(Rotated(Join(h, n), 13), 5), 0xe6546b64)
  }

  function Iterated(h: bv32, words: seq<bv32>): bv32 {
    if words == [] then h else Mixed(Iterated(h, words[..|words| - 1]), words[|words| - 1])
  }

  function Avalanched(h: bv32): bv32 {
    Shifted(Times(Shifted(Times(Shifted(h, 16), 0x85ebca6b), 13), 0xc2b2ae35), 16)
  }

  lemma MixedIsRound(h: bv32, k: bv32)
    ensures Mixed(h, k) == Round(h, k)
  {
    hide Times, Plus, Join, Rotated, TurnA, TurnB, ScaleA, ScaleB, Advance;
    ScaleAIs(k);
    TurnAIs(ScaleA(k));
    ScaleBIs(TurnA(ScaleA(k)));
    TurnBIs(Join(h, MixWord(k)));
    AdvanceIs(TurnB(Join(h, MixWord(k))));
  }

  lemma AvalanchedIsFinish(h: bv32)
    ensures Avalanched(h) == Finish(h)
  {
    hide Times, Shifted, ScaleC, ScaleD, Xor13, Xor16;
    Xor16Is(h);
    ScaleCIs(Xor16(h));
    Xor13Is(ScaleC(Xor16(h)));
    ScaleDIs(Xor13(ScaleC(Xor16(h))));
    Xor16Is(ScaleD(Xor13(ScaleC(Xor16(h)))));
  }

  lemma {:induction false} FormulaFolds(h: bv32, words: seq<bv32>)
    ensures Iterated(h, words) == Fold(ROUND, h, words)
  {
    hide Mixed, Round;
    if words != [] {
      var n := |words| - 1;
      FormulaFolds(h, words[..n]);
      MixedIsRound(Iterated(h, words[..n]), words[n]);
    }
  }

  lemma HashIsFormula(words: seq<bv32>, len: bv32, seed: bv32)
    ensures HashOf(words, len, seed) == Avalanched(Iterated(Start(len, seed), words))
  {
    hide Iterated, Avalanched, Finish, Round, Mixed;
    FormulaFolds(Start(len, seed), words);
    AvalanchedIsFinish(Iterated(Start(len, seed), words));
  }

  /** hash32 of the first len bytes of data; bytes after the last whole word do not count. */
  method Hash(data: array<bv32>, len: nat, seed: bv32) returns (h: bv32)
    requires len < 0x1_0000_0000 && len / 4 <= data.Length
    ensures h == HashOf(data[..len / 4], len as bv32, seed)
    ensures h == Avalanched(Iterated(Join(seed, len as bv32), data[..len / 4]))
  {
    hide Times, Plus, Join, Rotated, Shifted, HashOf, Start;
    StartIs(len as bv32, seed);
    h := Join(seed, len as bv32);
    for i := 0 to len / 4
      invariant h == Iterated(Start(len as bv32, seed), data[..i])
    {
      var k := data[i];
      k := Times(k, 0xcc9e2d51);
      k := Rotated(k, 15);
      k := Times(k, 0x1b873593);
      assert data[..i + 1][..i] == data[..i];
      h := Join(h, k);
      h := Rotated(h, 13);
      h := Plus(Times(h, 5), 0xe6546b64);
    }
    h := Shifted(h, 16);
    h := Times(h, 0x85ebca6b);
    h := Shifted(h, 13);
    h := Times(h, 0xc2b2ae35);
    h := Shifted(h, 16);
    HashIsFormula(data[..len / 4], len as bv32, seed);
  }

  /** Buffers of any length that differ in exactly one word have different hashes. */
  lemma OneWordChangesHash(a: seq<bv32>, b: seq<bv32>, i: nat, len: bv32, seed: bv32)
    requires DifferAt(a, b, i)
    ensures HashOf(a, len, seed) != HashOf(b, len, seed)
  {
    RoundIsInvertible();
    OneWordChangesState(ROUND, Start(len, seed), a, b, i);
    FinishUndone(Fold(ROUND, Start(len, seed), a));
    FinishUndone(Fold(ROUND, Start(len, seed), b));
  }

  lemma WordForHash(words: seq<bv32>, i: nat, len: bv32, seed: bv32, hash: bv32) returns (w: bv32)
    requires i < |words|
    ensures HashOf(With(words, i, w), len, seed) == hash
  {
    RoundIsInvertible();
    w := WordForState(ROUND, Start(len, seed), words, i, Unfinish(hash));
    FinishUndone(hash);
  }

  /** With all other words fixed, the hash is a bijection of word i: each value is the hash for exactly one word. */
  lemma EveryHashOnce(words: seq<bv32>, i: nat, len: bv32, seed: bv32, hash: bv32) returns (w: bv32)
    requires i < |words|
    ensures forall v :: HashOf(With(words, i, v), len, seed) == hash <==> v == w
  {
    w := WordForHash(words, i, len, seed, hash);
    forall v | v != w ensures HashOf(With(words, i, v), len, seed) != hash {
      OneWordChangesHash(With(words, i, v), With(words, i, w), i, len, seed);
    }
  }

  /** The same words with another seed, or another length that has as many words, have another hash. */
  lemma OtherStartChangesHash(words: seq<bv32>, len: bv32, seed: bv32, len2: bv32, seed2: bv32)
    requires Start(len, seed) != Start(len2, seed2)
    ensures HashOf(words, len, seed) != HashOf(words, len2, seed2)
  {
    RoundIsInvertible();
    OtherStartChangesState(ROUND, Start(len, seed), Start(len2, seed2), words);
    FinishUndone(Fold(ROUND, Start(len, seed), words));
    FinishUndone(Fold(ROUND, Start(len2, seed2), words));
  }
}

/** hash32 of hash.h where a word has 64 bits. */
module Hash64 {
  import opened HashFold

  // ----- the steps, each beside the one that undoes it

  function ScaleA(x: bv64): bv64 { x * 0x87c37b91114253d5 }

  function UnscaleA(x: bv64): bv64 { x * 0xa98409e882ce4d7d }

  function TurnA(x: bv64): bv64 { (x << 31) | (x >> 33) }

  function UnturnA(x: bv64): bv64 { (x << 33) | (x >> 31) }

  function ScaleB(x: bv64): bv64 { x * 0x4cf5ad432745937f }

  function UnscaleB(x: bv64): bv64 { x * 0xa81e14edd9de2c7f }

  function TurnB(x: bv64): bv64 { (x << 27) | (x >> 37) }

  function UnturnB(x: bv64): bv64 { (x << 37) | (x >> 27) }

  function Advance(x: bv64): bv64 { x * 5 + 0x52dce729 }

  function Retreat(x: bv64): bv64 { (x - 0x52dce729) * 0xcccccccccccccccd }

  function Xor33(x: bv64): bv64 { x ^ (x >> 33) }

  function Unxor33(x: bv64): bv64 { x ^ (x >> 33) }

  function ScaleC(x: bv64): bv64 { x * 0xff51afd7ed558ccd }

  function UnscaleC(x: bv64): bv64 { x * 0x4f74430c22a54005 }

  function ScaleD(x: bv64): bv64 { x * 0xc4ceb9fe1a85ec53 }

  function UnscaleD(x: bv64): bv64 { x * 0x9cb4b2f8129337db }

  lemma ScaleAUndone(x: bv64)
    ensures UnscaleA(ScaleA(x)) == x && ScaleA(UnscaleA(x)) == x
  {
    assert UnscaleA(x * 0x87c37b91114253d5) == x;
    assert ScaleA(x * 0xa98409e882ce4d7d) == x;
  }

  lemma TurnAUndone(x: bv64)
    ensures UnturnA(TurnA(x)) == x && TurnA(UnturnA(x)) == x
  {
    assert UnturnA((x << 31) | (x >> 33)) == x;
    assert TurnA((x << 33) | (x >> 31)) == x;
  }

  lemma ScaleBUndone(x: bv64)
    ensures UnscaleB(ScaleB(x)) == x && ScaleB(UnscaleB(x)) == x
  {
    assert UnscaleB(x * 0x4cf5ad432745937f) == x;
    assert ScaleB(x * 0xa81e14edd9de2c7f) == x;
  }

  lemma TurnBUndone(x: bv64)
    ensures UnturnB(TurnB(x)) == x && TurnB(UnturnB(x)) == x
  {
    assert UnturnB((x << 27) | (x >> 37)) == x;
    assert TurnB((x << 37) | (x >> 27)) == x;
  }

  lemma AdvanceUndone(x: bv64)
    ensures Retreat(Advance(x)) == x && Advance(Retreat(x)) == x
  {
    assert Retreat(x * 5 + 0x52dce729) == x;
    assert Advance((x - 0x52dce729) * 0xcccccccccccccccd) == x;
  }

  lemma Xor33Undone(x: bv64)
    ensures Unxor33(Xor33(x)) == x && Xor33(Unxor33(x)) == x
  {
    assert Unxor33(x ^ (x >> 33)) == x;
    assert Xor33(x ^ (x >> 33)) == x;
  }

  lemma ScaleCUndone(x: bv64)
    ensures UnscaleC(ScaleC(x)) == x && ScaleC(UnscaleC(x)) == x
  {
    assert UnscaleC(x * 0xff51afd7ed558ccd) == x;
    assert ScaleC(x * 0x4f74430c22a54005) == x;
  }

  lemma ScaleDUndone(x: bv64)
    ensures UnscaleD(ScaleD(x)) == x && ScaleD(UnscaleD(x)) == x
  {
    assert UnscaleD(x * 0xc4ceb9fe1a85ec53) == x;
    assert ScaleD(x * 0x9cb4b2f8129337db) == x;
  }
  function Join(h: bv64, k: bv64): bv64 { h ^ k }

  lemma JoinUndone(h: bv64, k: bv64)
    ensures Join(Join(h, k), k) == h && Join(h, k) == Join(k, h)
  {
    assert (h ^ k) ^ k == h;
    assert h ^ k == k ^ h;
  }

  // ----- one round, and the finish

  function MixWord(k: bv64): bv64 { ScaleB(TurnA(ScaleA(k))) }

  function UnmixWord(k: bv64): bv64 { UnscaleA(UnturnA(UnscaleB(k))) }

  function Round(h: bv64, k: bv64): bv64 { Advance(TurnB(Join(h, MixWord(k)))) }

  function StateBefore(h: bv64, k: bv64): bv64 { Join(UnturnB(Retreat(h)), MixWord(k)) }

  function WordTaken(h: bv64, was: bv64): bv64 { UnmixWord(Join(UnturnB(Retreat(h)), was)) }

  const ROUND := Step((h: bv64, k: bv64) => Round(h, k), (h: bv64, k: bv64) => StateBefore(h, k), (h: bv64, was: bv64) => WordTaken(h, was))

  function Finish(h: bv64): bv64 { Xor33(ScaleD(Xor33(ScaleC(Xor33(h))))) }

  function Unfinish(h: bv64): bv64 { Unxor33(UnscaleC(Unxor33(UnscaleD(Unxor33(h))))) }

  lemma MixUndone(k: bv64)
    ensures UnmixWord(MixWord(k)) == k && MixWord(UnmixWord(k)) == k
  {
    ScaleAUndone(k);
    TurnAUndone(ScaleA(k));
    ScaleBUndone(TurnA(ScaleA(k)));
    ScaleBUndone(k);
    TurnAUndone(UnscaleB(k));
    ScaleAUndone(UnturnA(UnscaleB(k)));
  }

  lemma TurnUndone(h: bv64)
    ensures UnturnB(Retreat(Advance(TurnB(h)))) == h && Advance(TurnB(UnturnB(Retreat(h)))) == h
  {
    TurnBUndone(h);
    AdvanceUndone(TurnB(h));
    AdvanceUndone(h);
    TurnBUndone(Retreat(h));
  }

  lemma RoundUndone(h: bv64, k: bv64)
    ensures StateBefore(Round(h, k), k) == h && Round(StateBefore(h, k), k) == h
    ensures WordTaken(Round(h, k), h) == k && Round(h, WordTaken(k, h)) == k
  {
    var m := MixWord(k);
    TurnUndone(Join(h, m));
    TurnUndone(h);
    TurnUndone(k);
    JoinUndone(h, m);
    JoinUndone(m, h);
    JoinUndone(UnturnB(Retreat(h)), m);
    MixUndone(k);
    var c := Join(UnturnB(Retreat(k)), h);
    MixUndone(c);
    JoinUndone(UnturnB(Retreat(k)), h);
    JoinUndone(c, h);
  }

  lemma RoundIsInvertible()
    ensures Invertible(ROUND)
  {
    forall h, k ensures ROUND.stateOf(ROUND.run(h, k), k) == h && ROUND.run(ROUND.stateOf(h, k), k) == h {
      RoundUndone(h, k);
    }
    forall h, k ensures ROUND.wordOf(ROUND.run(h, k), h) == k && ROUND.run(h, ROUND.wordOf(k, h)) == k {
      RoundUndone(h, k);
    }
  }

  lemma FinishUndone(h: bv64)
    ensures Unfinish(Finish(h)) == h && Finish(Unfinish(h)) == h
  {
    Xor33Undone(h);
    ScaleCUndone(Xor33(h));
    Xor33Undone(ScaleC(Xor33(h)));
    ScaleDUndone(Xor33(ScaleC(Xor33(h))));
    Xor33Undone(ScaleD(Xor33(ScaleC(Xor33(h)))));
    Xor33Undone(h);
    ScaleDUndone(Unxor33(h));
    Xor33Undone(UnscaleD(Unxor33(h)));
    ScaleCUndone(Unxor33(UnscaleD(Unxor33(h))));
    Xor33Undone(UnscaleC(Unxor33(UnscaleD(Unxor33(h)))));
  }

  // ----- the hash

  function Start(len: bv32, seed: bv32): bv64 { (seed ^ len) as bv64 }

  /** All 64 bits, before the result is cut to 32. */
  function StateOf(words: seq<bv64>, len: bv32, seed: bv32): bv64 {
    Finish(Fold(ROUND, Start(len, seed), words))
  }

  function Low(h: bv64): bv32 { (h & 0xffff_ffff) as bv32 }

  // ----- the same as formulas

  function Times(x: bv64, c: bv64): bv64 { x * c }

  function Plus(x: bv64, c: bv64): bv64 { x + c }

  /** ROL64. */
  function Rotated(x: bv64, n: nat): bv64
    requires n < 64
  {
    (x << n) | (x >> (64 - n))
  }

  function Shifted(x: bv64, n: nat): bv64
    requires n < 64
  {
    x ^ (x >> n)
  }

  lemma TurnAIs(x: bv64)
    ensures Rotated(x, 31) == TurnA(x)
  {
  }

  lemma TurnBIs(x: bv64)
    ensures Rotated(x, 27) == TurnB(x)
  {
  }

  lemma Xor33Is(x: bv64)
    ensures Shifted(x, 33) == Xor33(x)
  {
  }

  lemma StartIs(len: bv32, seed: bv32)
    ensures Start(len, seed) == (seed ^ len) as bv64
  {
  }

  lemma ScaleAIs(x: bv64)
    ensures Times(x, 0x87c37b91114253d5) == ScaleA(x)
  {
  }

  lemma ScaleBIs(x: bv64)
    ensures Times(x, 0x4cf5ad432745937f) == ScaleB(x)
  {
  }

  lemma ScaleCIs(x: bv64)
    ensures Times(x, 0xff51afd7ed558ccd) == ScaleC(x)
  {
  }

  lemma ScaleDIs(x: bv64)
    ensures Times(x, 0xc4ceb9fe1a85ec53) == ScaleD(x)
  {
  }

  lemma AdvanceIs(x: bv64)
    ensures Plus(Times(x, 5), 0x52dce729) == Advance(x)
  {
  }

  function Mixed(h: bv64, k: bv64): bv64 {
    var n := Times(Rotated(Times(k, 0x87c37b91114253d5), 31), 0x4cf5ad432745937f);
    Plus(Times(Rotated(Join(h, n), 27), 5), 0x52dce729)
  }

  function Iterated(h: bv64, words: seq<bv64>): bv64 {
    if words == [] then h else Mixed(Iterated(h, words[..|words| - 1]), words[|words| - 1])
  }

  function Avalanched(h: bv64): bv64 {
    Shifted(Times(Shifted(Times(Shifted(h, 33), 0xff51afd7ed558ccd), 33), 0xc4ceb9fe1a85ec53), 33)
  }

  lemma MixedIsRound(h: bv64, k: bv64)
    ensures Mixed(h, k) == Round(h, k)
  {
    hide Times, Plus, Join, Rotated, TurnA, TurnB, ScaleA, ScaleB, Advance;
    ScaleAIs(k);
    TurnAIs(ScaleA(k));
    ScaleBIs(TurnA(ScaleA(k)));
    TurnBIs(Join(h, MixWord(k)));
    AdvanceIs(TurnB(Join(h, MixWord(k))));
  }

  lemma AvalanchedIsFinish(h: bv64)
    ensures Avalanched(h) == Finish(h)
  {
    hide Times, Shifted, ScaleC, ScaleD, Xor33;
    Xor33Is(h);
    ScaleCIs(Xor33(h));
    Xor33Is(ScaleC(Xor33(h)));
    ScaleDIs(Xor33(ScaleC(Xor33(h))));
    Xor33Is(ScaleD(Xor33(ScaleC(Xor33(h)))));
  }

  lemma {:induction false} FormulaFolds(h: bv64, words: seq<bv64>)
    ensures Iterated(h, words) == Fold(ROUND, h, words)
  {
    hide Mixed, Round;
    if words != [] {
      var n := |words| - 1;
      FormulaFolds(h, words[..n]);
      MixedIsRound(Iterated(h, words[..n]), words[n]);
    }
  }

  lemma StateIsFormula(words: seq<bv64>, len: bv32, seed: bv32)
    ensures StateOf(words, len, seed) == Avalanched(Iterated(Start(len, seed), words))
  {
    hide Iterated, Avalanched, Finish, Round, Mixed;
    FormulaFolds(Start(len, seed), words);
    AvalanchedIsFinish(Iterated(Start(len, seed), words));
  }

  /** hash32 of the first len bytes of data; bytes after the last whole word do not count. */
  method Hash(data: array<bv64>, len: nat, seed: bv32) returns (hash: bv32)
    requires len < 0x1_0000_0000 && len / 8 <= data.Length
    ensures hash == Low(StateOf(data[..len / 8], len as bv32, seed))
    ensures hash == Low(Avalanched(Iterated((seed ^ (len as bv32)) as bv64, data[..len / 8])))
  {
    hide Times, Plus, Join, Rotated, Shifted, StateOf, Start, Low;
    StartIs(len as bv32, seed);
    var h := (seed ^ (len as bv32)) as bv64;
    for i := 0 to len / 8
      invariant h == Iterated(Start(len as bv32, seed), data[..i])
    {
      var k := data[i];
      k := Times(k, 0x87c37b91114253d5);
      k := Rotated(k, 31);
      k := Times(k, 0x4cf5ad432745937f);
      assert data[..i + 1][..i] == data[..i];
      h := Join(h, k);
      h := Rotated(h, 27);
      h := Plus(Times(h, 5), 0x52dce729);
    }
    h := Shifted(h, 33);
    h := Times(h, 0xff51afd7ed558ccd);
    h := Shifted(h, 33);
    h := Times(h, 0xc4ceb9fe1a85ec53);
    h := Shifted(h, 33);
    hash := Low(h);
    StateIsFormula(data[..len / 8], len as bv32, seed);
  }

  /** Buffers of any length that differ in exactly one word have different 64-bit states. */
  lemma OneWordChangesAll64(a: seq<bv64>, b: seq<bv64>, i: nat, len: bv32, seed: bv32)
    requires DifferAt(a, b, i)
    ensures StateOf(a, len, seed) != StateOf(b, len, seed)
  {
    RoundIsInvertible();
    OneWordChangesState(ROUND, Start(len, seed), a, b, i);
    FinishUndone(Fold(ROUND, Start(len, seed), a));
    FinishUndone(Fold(ROUND, Start(len, seed), b));
  }

  lemma WordForAll64(words: seq<bv64>, i: nat, len: bv32, seed: bv32, state: bv64) returns (w: bv64)
    requires i < |words|
    ensures StateOf(With(words, i, w), len, seed) == state
  {
    RoundIsInvertible();
    w := WordForState(ROUND, Start(len, seed), words, i, Unfinish(state));
    FinishUndone(state);
  }

  /** With all other words fixed, each 64-bit state is reached by exactly one word. */
  lemma EveryStateOnce(words: seq<bv64>, i: nat, len: bv32, seed: bv32, state: bv64) returns (w: bv64)
    requires i < |words|
    ensures forall v :: StateOf(With(words, i, v), len, seed) == state <==> v == w
  {
    w := WordForAll64(words, i, len, seed, state);
    forall v | v != w ensures StateOf(With(words, i, v), len, seed) != state {
      OneWordChangesAll64(With(words, i, v), With(words, i, w), i, len, seed);
    }
  }

  /** The cut to 32 bits loses this: whatever the other words, two values of word i have the same hash. */
  lemma CutCollides(words: seq<bv64>, i: nat, len: bv32, seed: bv32) returns (v: bv64, w: bv64)
    requires i < |words|
    ensures v != w && Low(StateOf(With(words, i, v), len, seed)) == Low(StateOf(With(words, i, w), len, seed))
  {
    v := EveryStateOnce(words, i, len, seed, 0);
    w := EveryStateOnce(words, i, len, seed, 0x1_0000_0000);
    assert StateOf(With(words, i, v), len, seed) == 0;
    assert StateOf(With(words, i, w), len, seed) == 0x1_0000_0000;
  }
}

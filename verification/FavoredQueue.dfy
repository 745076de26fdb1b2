/** afl-fuzz's queue: which entry wins each byte of the map, the reference counts kept for
    that, and the greedy choice of favored entries. */
module FavoredQueue {
  import opened Common
  import opened CoverageSpec

  // ----- one bit for each byte of a trace

  function Mask(k: nat): (m: bv8)
    requires k < 8
    ensures OneBit(m)
  {
    if k == 0 then 1 else if k == 1 then 2 else if k == 2 then 4 else if k == 3 then 8
    else if k == 4 then 16 else if k == 5 then 32 else if k == 6 then 64 else 128
  }

  predicate BitSet(b: bv8, k: nat)
    requires k < 8
  {
    b & Mask(k) != 0
  }

  function SetBit(b: bv8, k: nat): bv8
    requires k < 8
  {
    b | Mask(k)
  }

  predicate HasBit(bits: Map, i: nat) {
    i / 8 < |bits| && BitSet(bits[i / 8], i % 8)
  }

  function Nonzero(trace: Map): set<nat> {
    set i: nat | i < |trace| && trace[i] != 0
  }

  /** bits is the set s, for a map of n bytes. */
  ghost predicate Encodes(bits: Map, s: set<nat>, n: nat) {
    8 * |bits| == n && forall i: nat :: i < n ==> (HasBit(bits, i) <==> i in s)
  }

  lemma OtherBits(b: bv8, j: nat, k: nat)
    requires j < 8 && k < 8
    ensures BitSet(SetBit(b, j), k) <==> j == k || BitSet(b, k)
  {
  }

  function WithBit(bits: Map, i: nat): Map
    requires i / 8 < |bits|
  {
    bits[i / 8 := SetBit(bits[i / 8], i % 8)]
  }

  lemma WithBitHas(bits: Map, i: nat, k: nat)
    requires i / 8 < |bits| && k / 8 < |bits|
    ensures HasBit(WithBit(bits, i), k) <==> k == i || HasBit(bits, k)
  {
    if k / 8 == i / 8 {
      OtherBits(bits[i / 8], i % 8, k % 8);
      assert k % 8 == i % 8 <==> k == i;
    }
  }

  /** The bits of a byte, lowest first. */
  const BIT: seq<bv8> := [1, 2, 4, 8, 16, 32, 64, 128]

  /** minimize_bits: one bit for each nonzero byte. */
  method MinimizeBits(src: Map) returns (bits: Map)
    requires |src| % 8 == 0
    ensures Encodes(bits, Nonzero(src), |src|)
    ensures |src| == 8 * |bits| && forall i :: 0 <= i < |src| ==> (bits[i / 8] & BIT[i % 8] != 0 <==> src[i] != 0)
  {
    var dst := new bv8[|src| / 8](i => 0);
    for i := 0 to |src|
      invariant forall k: nat :: k < |src| ==> (HasBit(dst[..], k) <==> k < i && src[k] != 0)
    {
      if src[i] != 0 {
        ghost var was := dst[..];
        dst[i / 8] := SetBit(dst[i / 8], i % 8);
        assert dst[..] == WithBit(was, i);
        forall k: nat | k < |src| ensures HasBit(dst[..], k) <==> k == i || HasBit(was, k) {
          WithBitHas(was, i, k);
        }
      }
    }
    bits := dst[..];
    forall i | 0 <= i < |src| ensures bits[i / 8] & BIT[i % 8] != 0 <==> src[i] != 0 {
      MaskIsBit(i % 8);
      assert HasBit(bits, i) <==> i in Nonzero(src);
    }
  }

  lemma MaskIsBit(k: nat)
    requires k < 8
    ensures Mask(k) == BIT[k]
  {
  }

  lemma ClearedBit(b: bv8, m: bv8, k: nat)
    requires k < 8
    ensures BitSet(b & !m, k) <==> BitSet(b, k) && !BitSet(m, k)
  {
    ClearBit(b, m, Mask(k));
  }

  lemma ClearEncodes(bits: Map, mini: Map, s: set<nat>, c: set<nat>, n: nat)
    requires Encodes(bits, s, n) && Encodes(mini, c, n)
    ensures Encodes(Clear(bits, mini), s - c, n)
  {
    forall i: nat | i < n ensures HasBit(Clear(bits, mini), i) <==> i in s - c {
      ClearedBit(bits[i / 8], mini[i / 8], i % 8);
      assert HasBit(bits, i) <==> i in s;
      assert HasBit(mini, i) <==> i in c;
    }
  }

  // ----- the ratings, as values

  /** What the fields of an entry hold; covers is the set of bytes hit by the trace it was last scored on. */
  datatype View = View(len: nat, execUs: nat, calFailed: nat, wasFuzzed: bool, favored: bool,
                       traceMini: Option<Map>, tcRef: nat, covers: set<nat>)
  {
    function Cost(): nat { FavFactor(execUs, len) }
  }

  /** Faster and smaller entries are favored. */
  function FavFactor(execUs: nat, len: nat): nat { execUs * len }

  lemma ShorterIsCheaper(execUs: nat, len: nat, was: nat)
    requires len <= was
    ensures FavFactor(execUs, len) <= FavFactor(execUs, was)
  {
  }

  type Slots = seq<QueueEntry?>
  type Views = map<QueueEntry, View>

  ghost function HeldBy(slots: Slots, e: QueueEntry): set<nat> {
    set i: nat | i < |slots| && slots[i] == e
  }

  ghost predicate SlotsOk(slots: Slots, vs: Views) {
    forall i: nat :: i < |slots| && slots[i] != null ==> slots[i] in vs && i in vs[slots[i]].covers
  }

  /** The count of slots is right, and the compact trace is kept exactly while it is above zero. */
  ghost predicate RefOk(slots: Slots, e: QueueEntry, v: View) {
    && v.tcRef == |HeldBy(slots, e)|
    && (v.traceMini.Some? <==> v.tcRef > 0)
    && (v.traceMini.Some? ==> Encodes(v.traceMini.value, v.covers, |slots|))
  }

  ghost predicate RefsOk(slots: Slots, vs: Views) {
    forall e :: e in vs ==> RefOk(slots, e, vs[e])
  }

  /** The winner of byte i costs no more than entry e. */
  ghost predicate Beats(slots: Slots, vs: Views, i: nat, e: QueueEntry)
    requires SlotsOk(slots, vs) && e in vs
  {
    i < |slots| && slots[i] != null && vs[slots[i]].Cost() <= vs[e].Cost()
  }

  /** No scored entry is cheaper than the winner of a byte it covers; entry but is
      compared for the first n bytes only. */
  ghost predicate Best(slots: Slots, vs: Views, scored: set<QueueEntry>, but: QueueEntry?, n: nat)
    requires SlotsOk(slots, vs) && scored <= vs.Keys
  {
    forall e, i: nat :: e in scored && i in vs[e].covers && (e == but ==> i < n) ==> Beats(slots, vs, i, e)
  }

  ghost predicate Rating(slots: Slots, vs: Views, scored: set<QueueEntry>, but: QueueEntry?, n: nat) {
    && SlotsOk(slots, vs) && RefsOk(slots, vs)
    && scored <= vs.Keys && HoldersIn(slots, scored)
    && Best(slots, vs, scored, but, n)
  }

  ghost predicate HoldersIn(slots: Slots, scored: set<QueueEntry>) {
    forall i: nat :: i < |slots| && slots[i] != null ==> slots[i] in scored
  }

  lemma HeldAfter(slots: Slots, i: nat, q: QueueEntry?, e: QueueEntry)
    requires i < |slots|
    ensures q == e ==> |HeldBy(slots[i := q], e)| == |HeldBy(slots, e)| + (if slots[i] == e then 0 else 1)
    ensures q != e ==> |HeldBy(slots[i := q], e)| == |HeldBy(slots, e)| - (if slots[i] == e then 1 else 0)
  {
    var a, b := HeldBy(slots, e), HeldBy(slots[i := q], e);
    if q == e {
      assert b == a + {i};
    } else {
      assert b == a - {i};
    }
  }

  /** An entry after it lost a slot. */
  function Loser(v: View): View
    requires v.tcRef > 0
  {
    v.(tcRef := v.tcRef - 1, traceMini := if v.tcRef == 1 then None else v.traceMini)
  }

  /** An entry after it won a slot with a trace whose compact form is mini. */
  function Winner(v: View, mini: Map): View {
    v.(tcRef := v.tcRef + 1, traceMini := if v.traceMini.None? then Some(mini) else v.traceMini)
  }

  lemma LoseSlot(slots: Slots, vs: Views, i: nat)
    requires i < |slots| && SlotsOk(slots, vs) && RefsOk(slots, vs) && slots[i] != null
    ensures vs[slots[i]].tcRef > 0
    ensures SlotsOk(slots[i := null], vs[slots[i] := Loser(vs[slots[i]])])
    ensures RefsOk(slots[i := null], vs[slots[i] := Loser(vs[slots[i]])])
  {
    var w := slots[i];
    HeldAfter(slots, i, null, w);
    forall e | e in vs && e != w ensures RefOk(slots[i := null], e, vs[e]) {
      HeldAfter(slots, i, null, e);
      assert RefOk(slots, e, vs[e]);
    }
    assert RefOk(slots, w, vs[w]);
  }

  lemma WinSlot(slots: Slots, vs: Views, i: nat, q: QueueEntry, mini: Map)
    requires i < |slots| && SlotsOk(slots, vs) && RefsOk(slots, vs) && slots[i] == null
    requires q in vs && i in vs[q].covers && (vs[q].traceMini.None? ==> Encodes(mini, vs[q].covers, |slots|))
    ensures SlotsOk(slots[i := q], vs[q := Winner(vs[q], mini)])
    ensures RefsOk(slots[i := q], vs[q := Winner(vs[q], mini)])
  {
    HeldAfter(slots, i, q, q);
    forall e | e in vs && e != q ensures RefOk(slots[i := q], e, vs[e]) {
      HeldAfter(slots, i, q, e);
      assert RefOk(slots, e, vs[e]);
    }
    assert RefOk(slots, q, vs[q]);
  }

  /** The entries after the holder of byte i, if any, lost it. */
  ghost function Lost(slots: Slots, vs: Views, i: nat): Views
    requires i < |slots| && SlotsOk(slots, vs) && RefsOk(slots, vs)
  {
    if slots[i] == null then vs else LoseSlot(slots, vs, i); vs[slots[i] := Loser(vs[slots[i]])]
  }

  ghost function Taken(slots: Slots, vs: Views, i: nat, q: QueueEntry, mini: Map): Views
    requires i < |slots| && SlotsOk(slots, vs) && RefsOk(slots, vs) && q in vs
  {
    Lost(slots, vs, i)[q := Winner(Lost(slots, vs, i)[q], mini)]
  }

  lemma TakeRefs(slots: Slots, vs: Views, i: nat, q: QueueEntry, mini: Map)
    requires i < |slots| && SlotsOk(slots, vs) && RefsOk(slots, vs) && q in vs && i in vs[q].covers
    requires Lost(slots, vs, i)[q].traceMini.None? ==> Encodes(mini, vs[q].covers, |slots|)
    ensures SlotsOk(slots[i := q], Taken(slots, vs, i, q, mini))
    ensures RefsOk(slots[i := q], Taken(slots, vs, i, q, mini))
  {
    if slots[i] != null {
      LoseSlot(slots, vs, i);
    }
    var slots1, vs1 := slots[i := null], Lost(slots, vs, i);
    assert slots[i] == null ==> slots1 == slots;
    WinSlot(slots1, vs1, i, q, mini);
    assert slots1[i := q] == slots[i := q];
  }

  lemma TakenScores(slots: Slots, vs: Views, i: nat, q: QueueEntry, mini: Map)
    requires i < |slots| && SlotsOk(slots, vs) && RefsOk(slots, vs) && q in vs
    ensures SameScores(vs, Taken(slots, vs, i, q, mini))
  {
    if slots[i] != null {
      LoseSlot(slots, vs, i);
    }
  }

  /** Byte i changes hands: counts, compact traces and the ranking stay right. */
  lemma TakeSlot(slots: Slots, vs: Views, scored: set<QueueEntry>, i: nat, q: QueueEntry, mini: Map)
    requires i < |slots| && Rating(slots, vs, scored, q, i) && q in scored && i in vs[q].covers
    requires slots[i] != null ==> vs[q].Cost() <= vs[slots[i]].Cost()
    requires Lost(slots, vs, i)[q].traceMini.None? ==> Encodes(mini, vs[q].covers, |slots|)
    ensures Rating(slots[i := q], Taken(slots, vs, i, q, mini), scored, q, i + 1)
    ensures SameScores(vs, Taken(slots, vs, i, q, mini))
  {
    TakeRefs(slots, vs, i, q, mini);
    TakenScores(slots, vs, i, q, mini);
    ghost var vs2 := Taken(slots, vs, i, q, mini);
    assert forall e :: e in vs ==> vs2[e].covers == vs[e].covers && vs2[e].Cost() == vs[e].Cost();
    BestAfter(slots, vs, slots[i := q], vs2, scored, q, i, true);
  }

  /** Whoever holds byte i after the comparison, q has met it there. */
  lemma BestAfter(slots: Slots, vs: Views, slots2: Slots, vs2: Views, scored: set<QueueEntry>, q: QueueEntry, i: nat, won: bool)
    requires SlotsOk(slots, vs) && SlotsOk(slots2, vs2) && scored <= vs.Keys == vs2.Keys && q in scored
    requires Best(slots, vs, scored, q, i) && i < |slots| == |slots2|
    requires forall e :: e in vs ==> vs2[e].covers == vs[e].covers && vs2[e].Cost() == vs[e].Cost()
    requires i in vs[q].covers
    requires won ==> slots2 == slots[i := q] && (slots[i] != null ==> vs[q].Cost() <= vs[slots[i]].Cost())
    requires !won ==> slots2 == slots && slots[i] != null && vs[slots[i]].Cost() < vs[q].Cost()
    ensures Best(slots2, vs2, scored, q, i + 1)
  {
    forall e, k: nat | e in scored && k in vs2[e].covers && (e == q ==> k < i + 1) ensures Beats(slots2, vs2, k, e) {
      if e != q || k < i { assert Beats(slots, vs, k, e); }
    }
  }

  /** Byte i goes to q if nobody holds it or the holder is not cheaper. */
  ghost predicate Wins(slots: Slots, vs: Views, q: QueueEntry, i: nat)
    requires SlotsOk(slots, vs) && q in vs && i < |slots|
  {
    slots[i] == null || vs[q].Cost() <= vs[slots[i]].Cost()
  }

  /** The slots once q has been compared on its first n bytes. */
  ghost function Contended(slots: Slots, vs: Views, q: QueueEntry, n: nat): (r: Slots)
    requires SlotsOk(slots, vs) && q in vs && n <= |slots|
    ensures |r| == |slots|
    ensures forall i: nat :: i < |slots| ==> r[i] == if i < n && i in vs[q].covers && Wins(slots, vs, q, i) then q else slots[i]
  {
    seq(|slots|, i requires 0 <= i < |slots| => if i < n && i in vs[q].covers && Wins(slots, vs, q, i) then q else slots[i])
  }

  /** Nothing but reference counts and compact traces differs. */
  ghost predicate SameScores(vs: Views, vs2: Views) {
    && vs.Keys == vs2.Keys
    && forall e :: e in vs ==> vs2[e].(traceMini := vs[e].traceMini, tcRef := vs[e].tcRef) == vs[e]
  }

  lemma ContendedNext(slots: Slots, vs: Views, vs2: Views, q: QueueEntry, i: nat)
    requires SlotsOk(slots, vs) && q in vs && i < |slots| && SameScores(vs, vs2)
    requires SlotsOk(Contended(slots, vs, q, i), vs2)
    ensures Wins(Contended(slots, vs, q, i), vs2, q, i) == Wins(slots, vs, q, i)
    ensures Contended(slots, vs, q, i + 1) ==
            if i in vs[q].covers && Wins(slots, vs, q, i) then Contended(slots, vs, q, i)[i := q] else Contended(slots, vs, q, i)
  {
  }

  ghost predicate WinsAny(slots: Slots, vs: Views, q: QueueEntry, n: nat)
    requires SlotsOk(slots, vs) && q in vs && n <= |slots|
  {
    exists i: nat :: i < n && i in vs[q].covers && Wins(slots, vs, q, i)
  }

  /** Where the scoring of q stands after n bytes; news says that q won some byte. */
  ghost predicate Scoring(slots0: Slots, vs0: Views, slots: Slots, vs: Views, scored: set<QueueEntry>, q: QueueEntry, n: nat, news: bool) {
    && n <= |slots0| && SlotsOk(slots0, vs0) && q in vs0 && SameScores(vs0, vs)
    && slots == Contended(slots0, vs0, q, n) && Rating(slots, vs, scored, q, n)
    && news == WinsAny(slots0, vs0, q, n)
  }

  lemma ScoringNext(slots0: Slots, vs0: Views, slots: Slots, vs: Views, slots2: Slots, vs2: Views,
                    scored: set<QueueEntry>, q: QueueEntry, n: nat, news: bool)
    requires Scoring(slots0, vs0, slots, vs, scored, q, n, news) && n < |slots0| && q in vs
    requires SameScores(vs, vs2) && Rating(slots2, vs2, scored, q, n + 1)
    requires var won := n in vs[q].covers && Wins(slots, vs, q, n); slots2 == if won then slots[n := q] else slots
    ensures Scoring(slots0, vs0, slots2, vs2, scored, q, n + 1, news || (n in vs[q].covers && Wins(slots, vs, q, n)))
  {
    ContendedNext(slots0, vs0, vs, q, n);
  }

  lemma ScoringDone(slots0: Slots, vs0: Views, slots: Slots, vs: Views, scored: set<QueueEntry>, q: QueueEntry, news: bool)
    requires Scoring(slots0, vs0, slots, vs, scored, q, |slots0|, news) && q in vs0
    requires forall i :: i in vs0[q].covers ==> i < |slots0|
    ensures Rating(slots, vs, scored, null, 0) && Rescored(slots0, vs0, slots, vs, q)
    ensures SlotsOk(slots0, vs0) && news == WinsAny(slots0, vs0, q, |slots0|)
  {
  }

  lemma ScoringStarts(slots: Slots, vs: Views, scored: set<QueueEntry>, q: QueueEntry)
    requires Rating(slots, vs, scored, q, 0) && q in vs
    ensures Scoring(slots, vs, slots, vs, scored, q, 0, false)
  {
  }

  lemma KeepsHolder(slots: Slots, vs: Views, scored: set<QueueEntry>, q: QueueEntry, i: nat)
    requires Rating(slots, vs, scored, q, i) && q in scored && i < |slots| && i in vs[q].covers
    requires slots[i] != null && slots[i] in vs && vs[slots[i]].Cost() < vs[q].Cost()
    ensures Rating(slots, vs, scored, q, i + 1)
  {
    BestAfter(slots, vs, slots, vs, scored, q, i, false);
  }

  lemma BestSkips(slots: Slots, vs: Views, scored: set<QueueEntry>, q: QueueEntry, i: nat)
    requires Rating(slots, vs, scored, q, i) && q in vs && i !in vs[q].covers
    ensures Rating(slots, vs, scored, q, i + 1)
  {
  }

  /** Entry q, about to be scored again, may cost less than before, and may cover other
      bytes than before when it holds no slot. */
  lemma BeforeScoring(slots: Slots, vs: Views, scored: set<QueueEntry>, q: QueueEntry, v: View)
    requires Rating(slots, vs, scored, null, 0) && q in vs
    requires v.tcRef == vs[q].tcRef && v.traceMini == vs[q].traceMini
    requires v.covers != vs[q].covers ==> v.tcRef == 0
    requires q in scored ==> v.Cost() <= vs[q].Cost()
    ensures Rating(slots, vs[q := v], scored + {q}, q, 0)
  {
    var vs2 := vs[q := v];
    assert RefOk(slots, q, vs[q]);
    forall i: nat | i < |slots| && slots[i] == q ensures v.covers == vs[q].covers {
      assert i in HeldBy(slots, q);
    }
    forall e, i: nat | e in scored + {q} && i in vs2[e].covers && e != q ensures Beats(slots, vs2, i, e) {
      assert Beats(slots, vs, i, e);
    }
  }

  /** What scoring q does: each byte of its trace goes to q unless its holder is cheaper. */
  ghost predicate Rescored(slots: Slots, vs: Views, slots2: Slots, vs2: Views, q: QueueEntry) {
    && q in vs && SlotsOk(slots, vs)
    && SameScores(vs, vs2)
    && slots2 == Contended(slots, vs, q, |slots|)
  }

  lemma ChangesHands(slots: Slots, vs: Views, slots2: Slots, vs2: Views, q: QueueEntry, trace: Map)
    requires Rescored(slots, vs, slots2, vs2, q) && |trace| == |slots| && vs[q].covers == Nonzero(trace)
    ensures |slots2| == |slots|
    ensures forall i: nat :: i < |slots| && slots[i] != null ==> slots[i] in vs
    ensures forall i: nat :: i < |slots| ==>
              slots2[i] == if trace[i] != 0 && (slots[i] == null || vs[q].execUs * vs[q].len <= vs[slots[i]].execUs * vs[slots[i]].len)
                           then q else slots[i]
  {
  }

  /** No scored entry has a smaller product of time and length than the holder of a byte it covers. */
  lemma HolderCheapest(slots: Slots, vs: Views, scored: set<QueueEntry>, e: QueueEntry, i: nat)
    requires Rating(slots, vs, scored, null, 0) && e in scored && i in vs[e].covers
    ensures i < |slots| && slots[i] != null && slots[i] in vs && i in vs[slots[i]].covers
    ensures vs[slots[i]].execUs * vs[slots[i]].len <= vs[e].execUs * vs[e].len
  {
    assert Beats(slots, vs, i, e);
  }

  // ----- the greedy choice

  /** In slot order, the winner of each byte that no choice so far covers. */
  ghost function Picks(slots: Slots, vs: Views, n: nat): (p: set<QueueEntry>)
    requires n <= |slots| && SlotsOk(slots, vs)
    ensures forall e :: e in p ==> e in vs && e in slots[..n]
  {
    if n == 0 then {}
    else
      var p := Picks(slots, vs, n - 1);
      var w := slots[n - 1];
      if w != null && !Covered(vs, p, n - 1) then p + {w} else p
  }

  ghost predicate Covered(vs: Views, p: set<QueueEntry>, i: nat) {
    exists e :: e in p && e in vs && i in vs[e].covers
  }

  lemma {:induction false} PicksCover(slots: Slots, vs: Views, n: nat, i: nat)
    requires i < n <= |slots| && SlotsOk(slots, vs) && slots[i] != null
    ensures Covered(vs, Picks(slots, vs, n), i)
  {
    if i < n - 1 {
      PicksCover(slots, vs, n - 1, i);
      CoveredStays(vs, Picks(slots, vs, n - 1), Picks(slots, vs, n), i);
    } else if Covered(vs, Picks(slots, vs, i), i) {
      CoveredStays(vs, Picks(slots, vs, i), Picks(slots, vs, n), i);
    } else {
      WinnerCovers(vs, Picks(slots, vs, n), slots[i], i);
    }
  }

  /** Slot i has a winner, and no winner of an earlier slot in d covers byte i. */
  ghost predicate Open(slots: Slots, vs: Views, d: set<nat>, i: nat)
    requires i < |slots| && SlotsOk(slots, vs)
  {
    slots[i] != null && forall j: nat :: j in d && j < i && slots[j] != null ==> i !in vs[slots[j]].covers
  }

  /** The slots that decide, of the first n: those that are open to the ones deciding before them. */
  ghost predicate Decides(slots: Slots, vs: Views, d: set<nat>, n: nat)
    requires n <= |slots| && SlotsOk(slots, vs)
  {
    (forall i :: i in d ==> i < n) && (forall i: nat :: i < n ==> (i in d <==> Open(slots, vs, d, i)))
  }

  lemma DecidesNext(slots: Slots, vs: Views, d: set<nat>, k: nat)
    requires k < |slots| && SlotsOk(slots, vs) && Decides(slots, vs, d, k)
    ensures Decides(slots, vs, if Open(slots, vs, d, k) then d + {k} else d, k + 1)
  {
    var d2 := if Open(slots, vs, d, k) then d + {k} else d;
    forall i: nat | i < k + 1 ensures i in d2 <==> Open(slots, vs, d2, i) {
      assert Open(slots, vs, d2, i) <==> Open(slots, vs, d, i);
    }
  }

  /** p is the set of winners of the slots in d, all before n. */
  ghost predicate WinnersOf(slots: Slots, p: set<QueueEntry>, d: set<nat>, n: nat)
    requires n <= |slots|
  {
    && (forall e :: e in p ==> exists i: nat :: i in d && i < n && slots[i] == e)
    && (forall i: nat :: i in d && i < n && slots[i] != null ==> slots[i] in p)
  }

  lemma CoveredByDeciders(slots: Slots, vs: Views, p: set<QueueEntry>, d: set<nat>, k: nat)
    requires k < |slots| && SlotsOk(slots, vs) && WinnersOf(slots, p, d, k) && forall i :: i in d ==> i < k
    ensures Open(slots, vs, d, k) <==> slots[k] != null && !Covered(vs, p, k)
  {
    if e :| e in p && e in vs && k in vs[e].covers {
      var j: nat :| j in d && j < k && slots[j] == e;
    }
    if j: nat :| j in d && j < k && slots[j] != null && k in vs[slots[j]].covers {
      assert slots[j] in p;
    }
  }

  lemma WinnersNext(slots: Slots, p: set<QueueEntry>, d: set<nat>, k: nat)
    requires k < |slots| && WinnersOf(slots, p, d, k) && forall i :: i in d ==> i < k
    ensures WinnersOf(slots, p, d, k + 1)
    ensures slots[k] != null ==> WinnersOf(slots, p + {slots[k]}, d + {k}, k + 1)
  {
  }

  lemma DecidesBelow(slots: Slots, vs: Views, d: set<nat>, k: nat)
    requires k <= |slots| && SlotsOk(slots, vs) && Decides(slots, vs, d, k)
    ensures forall i :: i in d ==> i < k
  {
  }

  lemma PicksNext(slots: Slots, vs: Views, k: nat)
    requires k < |slots| && SlotsOk(slots, vs)
    ensures Picks(slots, vs, k + 1) ==
              Picks(slots, vs, k) + if slots[k] != null && !Covered(vs, Picks(slots, vs, k), k) then {slots[k]} else {}
  {
  }

  /** The greedy choice is the winners of the deciding slots. */
  lemma {:induction false} PicksDecide(slots: Slots, vs: Views, n: nat) returns (d: set<nat>)
    requires n <= |slots| && SlotsOk(slots, vs)
    ensures Decides(slots, vs, d, n) && WinnersOf(slots, Picks(slots, vs, n), d, n)
  {
    if n == 0 {
      d := {};
    } else {
      hide Covered, Decides, WinnersOf, SlotsOk, Open, Picks;
      var k := n - 1;
      d := PicksDecide(slots, vs, k);
      var p := Picks(slots, vs, k);
      DecidesBelow(slots, vs, d, k);
      WinnersNext(slots, p, d, k);
      CoveredByDeciders(slots, vs, p, d, k);
      DecidesNext(slots, vs, d, k);
      PicksNext(slots, vs, k);
      if Open(slots, vs, d, k) {
        d := d + {k};
      } else {
        assert p + {} == p;
      }
    }
  }

  lemma WinnerCovers(vs: Views, p: set<QueueEntry>, w: QueueEntry, i: nat)
    requires w in vs && i in vs[w].covers && w in p
    ensures Covered(vs, p, i)
  {
  }

  /** The choice depends on what the holders of slots cover, and on nothing else. */
  lemma {:induction false} PicksSame(slots: Slots, vs: Views, vs2: Views, n: nat)
    requires n <= |slots| && SlotsOk(slots, vs) && SlotsOk(slots, vs2)
    requires forall i: nat :: i < |slots| && slots[i] != null ==> vs2[slots[i]].covers == vs[slots[i]].covers
    ensures Picks(slots, vs2, n) == Picks(slots, vs, n)
  {
    if n > 0 {
      PicksSame(slots, vs, vs2, n - 1);
      var p := Picks(slots, vs, n - 1);
      forall e | e in p ensures vs2[e].covers == vs[e].covers {
        assert e in slots[..n - 1];
      }
    }
  }

  lemma CoveredStays(vs: Views, p: set<QueueEntry>, p2: set<QueueEntry>, i: nat)
    requires p <= p2 && Covered(vs, p, i)
    ensures Covered(vs, p2, i)
  {
  }

  /** The entries with exactly those of p marked as favored. */
  ghost function Marked(vs: Views, p: set<QueueEntry>): Views {
    map e | e in vs :: vs[e].(favored := e in p)
  }

  ghost function Uncovered(vs: Views, p: set<QueueEntry>, n: nat): set<nat> {
    set i: nat | i < n && !Covered(vs, p, i)
  }

  /** Where the cull stands after n bytes. */
  ghost predicate Culling(slots: Slots, vs: Views, now: Views, n: nat, temp: Map, qf: nat, pf: nat) {
    && n <= |slots| && SlotsOk(slots, vs)
    && now == Marked(vs, Picks(slots, vs, n))
    && Encodes(temp, Uncovered(vs, Picks(slots, vs, n), |slots|), |slots|)
    && qf == |Picks(slots, vs, n)|
    && pf == |Picks(slots, vs, n) * Unfuzzed(vs)|
  }

  /** What a cull does to the entries: exactly the greedy choice is marked. */
  ghost predicate IsCull(slots: Slots, vs: Views, now: Views) {
    SlotsOk(slots, vs) && now == Marked(vs, Picks(slots, vs, |slots|))
  }

  lemma CullStarts(slots: Slots, vs: Views, temp: Map)
    requires SlotsOk(slots, vs) && 8 * |temp| == |slots| && forall j :: 0 <= j < |temp| ==> temp[j] == 0xff
    ensures Culling(slots, vs, Marked(vs, {}), 0, temp, 0, 0)
  {
    forall i: nat | i < |slots| ensures HasBit(temp, i) {
      AllBits(Mask(i % 8));
    }
    assert Picks(slots, vs, 0) * Unfuzzed(vs) == {};
  }

  lemma AllBits(m: bv8)
    requires OneBit(m)
    ensures 0xff & m != 0
  {
  }

  lemma PickedOnce(slots: Slots, vs: Views, n: nat)
    requires n < |slots| && SlotsOk(slots, vs) && slots[n] != null && !Covered(vs, Picks(slots, vs, n), n)
    ensures slots[n] !in Picks(slots, vs, n) && Picks(slots, vs, n + 1) == Picks(slots, vs, n) + {slots[n]}
  {
  }

  lemma UncoveredNext(vs: Views, p: set<QueueEntry>, w: QueueEntry, n: nat)
    requires w in vs
    ensures Uncovered(vs, p + {w}, n) == Uncovered(vs, p, n) - vs[w].covers
  {
    forall i: nat | i < n ensures Covered(vs, p + {w}, i) <==> Covered(vs, p, i) || i in vs[w].covers {
      if Covered(vs, p, i) { CoveredStays(vs, p, p + {w}, i); }
    }
  }

  lemma PendingNext(vs: Views, p: set<QueueEntry>, w: QueueEntry)
    requires w in vs && w !in p
    ensures |(p + {w}) * Unfuzzed(vs)| == |p * Unfuzzed(vs)| + Bit(!vs[w].wasFuzzed)
  {
    if vs[w].wasFuzzed {
      assert (p + {w}) * Unfuzzed(vs) == p * Unfuzzed(vs);
    } else {
      assert (p + {w}) * Unfuzzed(vs) == p * Unfuzzed(vs) + {w};
    }
  }

  /** The winner of a byte not covered yet is picked. */
  lemma CullPick(slots: Slots, vs: Views, now: Views, n: nat, temp: Map, qf: nat, pf: nat, mini: Map)
    requires Culling(slots, vs, now, n, temp, qf, pf) && n < |slots|
    requires slots[n] != null && HasBit(temp, n) && slots[n] in now && Encodes(mini, now[slots[n]].covers, |slots|)
    ensures Culling(slots, vs, now[slots[n] := now[slots[n]].(favored := true)], n + 1, Clear(temp, mini),
                    qf + 1, pf + Bit(!now[slots[n]].wasFuzzed))
  {
    hide SlotsOk;
    var w, p := slots[n], Picks(slots, vs, n);
    PickedOnce(slots, vs, n);
    UncoveredNext(vs, p, w, |slots|);
    ClearEncodes(temp, mini, Uncovered(vs, p, |slots|), vs[w].covers, |slots|);
    PendingNext(vs, p, w);
    assert now[w := now[w].(favored := true)] == Marked(vs, p + {w});
  }

  lemma CullPass(slots: Slots, vs: Views, now: Views, n: nat, temp: Map, qf: nat, pf: nat)
    requires Culling(slots, vs, now, n, temp, qf, pf) && n < |slots|
    requires slots[n] == null || !HasBit(temp, n)
    ensures Culling(slots, vs, now, n + 1, temp, qf, pf)
  {
    assert Picks(slots, vs, n + 1) == Picks(slots, vs, n);
  }

  lemma HolderKeepsTrace(slots: Slots, vs: Views, now: Views, n: nat, temp: Map, qf: nat, pf: nat)
    requires Culling(slots, vs, now, n, temp, qf, pf) && RefsOk(slots, vs) && n < |slots| && slots[n] != null
    ensures slots[n] in now && now[slots[n]].traceMini.Some? && Encodes(now[slots[n]].traceMini.value, now[slots[n]].covers, |slots|)
  {
    assert n in HeldBy(slots, slots[n]);
    assert RefOk(slots, slots[n], vs[slots[n]]);
  }

  lemma RatingParts(slots: Slots, vs: Views, scored: set<QueueEntry>)
    requires Rating(slots, vs, scored, null, 0)
    ensures SlotsOk(slots, vs) && RefsOk(slots, vs)
  {
  }

  lemma CullMarks(slots: Slots, vs: Views, now: Views, temp: Map, qf: nat, pf: nat)
    requires Culling(slots, vs, now, |slots|, temp, qf, pf)
    ensures IsCull(slots, vs, now) && SlotsOk(slots, now)
    ensures Favored(now) == Picks(slots, vs, |slots|) && Unfuzzed(now) == Unfuzzed(vs)
    ensures qf == |Favored(now)| && pf == |Favored(now) * Unfuzzed(now)|
  {
  }

  lemma SoundAfterCull(slots: Slots, vs: Views, scored: set<QueueEntry>, now: Views, temp: Map, qf: nat, pf: nat, pnf: nat)
    requires Rating(slots, vs, scored, null, 0) && Culling(slots, vs, now, |slots|, temp, qf, pf)
    requires pnf == |Unfuzzed(vs)|
    ensures IsCull(slots, vs, now)
    ensures Sound(slots, now, scored, qf, pf, pnf, true)
  {
    hide Culling, RefsOk, Best, HoldersIn;
    CullMarks(slots, vs, now, temp, qf, pf);
    PicksSame(slots, vs, now, |slots|);
    FieldKeepsRating(slots, vs, now, scored);
  }

  /** From a cull until the next change of score: what any scored entry covers, some favored entry covers. */
  lemma FavoredCoverAll(slots: Slots, vs: Views, scored: set<QueueEntry>, qf: nat, pf: nat, pnf: nat, e: QueueEntry, i: nat)
    requires Sound(slots, vs, scored, qf, pf, pnf, true) && e in scored && i in vs[e].covers
    ensures Covered(vs, Favored(vs), i)
  {
    assert Beats(slots, vs, i, e);
    PicksCover(slots, vs, |slots|, i);
  }

  ghost function Favored(vs: Views): set<QueueEntry> {
    set e | e in vs && vs[e].favored
  }

  ghost function Unfuzzed(vs: Views): set<QueueEntry> {
    set e | e in vs && !vs[e].wasFuzzed
  }

  /** What holds between the fuzzer's steps: the ratings are right, the three counters are
      true counts, and from a cull until the next change of score the favored entries are the greedy choice. */
  ghost predicate Sound(slots: Slots, vs: Views, scored: set<QueueEntry>,
                        queuedFavored: nat, pendingFavored: nat, pendingNotFuzzed: nat, culled: bool) {
    && Rating(slots, vs, scored, null, 0)
    && queuedFavored == |Favored(vs)|
    && pendingNotFuzzed == |Unfuzzed(vs)|
    && pendingFavored == |Favored(vs) * Unfuzzed(vs)|
    && (culled ==> Favored(vs) == Picks(slots, vs, |slots|))
  }

  // ----- the queue and its routines

  class QueueEntry {
    var len: nat
    var execUs: nat
    var calFailed: nat
    var wasFuzzed: bool
    var favored: bool
    var traceMini: Option<Map>
    var tcRef: nat
    /** The bytes hit by the trace this entry was last scored on. */
    ghost var covers: set<nat>

    constructor (len: nat)
      ensures this.len == len && execUs == 0 && calFailed == 0 && !wasFuzzed && !favored
      ensures traceMini == None && tcRef == 0 && covers == {}
    {
      this.len, execUs, calFailed := len, 0, 0;
      wasFuzzed, favored, traceMini, tcRef, covers := false, false, None, 0, {};
    }

    ghost function Now(): View
      reads this
    {
      View(len, execUs, calFailed, wasFuzzed, favored, traceMini, tcRef, covers)
    }
  }

  class Fuzzer {
    const mapSize: nat
    const dumbMode: bool
    const topRated: array<QueueEntry?>
    var queue: seq<QueueEntry>
    var scoreChanged: bool
    var queuedFavored: nat
    var pendingFavored: nat
    var pendingNotFuzzed: nat
    /** The entries that update_bitmap_score has seen. */
    ghost var scored: set<QueueEntry>

    ghost function Entries(): Views
      reads this, queue
    {
      map e | e in queue :: e.Now()
    }

    ghost predicate Sized()
      reads this
    {
      topRated.Length == mapSize && mapSize % 8 == 0
    }

    ghost predicate Valid()
      reads this, topRated, queue
    {
      && Sized()
      && Sound(topRated[..], Entries(), scored, queuedFavored, pendingFavored, pendingNotFuzzed, !dumbMode && !scoreChanged)
    }

    constructor (mapSize: nat, dumbMode: bool)
      requires mapSize % 8 == 0
      ensures Valid() && queue == [] && this.mapSize == mapSize && this.dumbMode == dumbMode && fresh(topRated)
    {
      this.mapSize, this.dumbMode := mapSize, dumbMode;
      topRated := new QueueEntry?[mapSize](i => null);
      queue, scored := [], {};
      scoreChanged, queuedFavored, pendingFavored, pendingNotFuzzed := false, 0, 0, 0;
    }

    /** The table holds, for every byte that a scored entry covers, an entry that covers it at the
        smallest product of time and length. */
    lemma HoldersCheapest(e: QueueEntry, i: nat)
      requires Valid() && e in scored && i in e.covers
      ensures i < mapSize && topRated[i] != null && topRated[i] in queue && i in topRated[i].covers
      ensures topRated[i].execUs * topRated[i].len <= e.execUs * e.len
    {
      HolderCheapest(topRated[..], Entries(), scored, e, i);
      assert topRated[..][i] == topRated[i];
    }

    /** add_to_queue. */
    method AddToQueue(len: nat) returns (q: QueueEntry)
      requires Valid()
      modifies this
      ensures Valid() && fresh(q) && queue == old(queue) + [q]
      ensures Entries() == old(Entries())[q := View(len, 0, 0, false, false, None, 0, {})]
      ensures pendingNotFuzzed == old(pendingNotFuzzed) + 1
      ensures queuedFavored == old(queuedFavored) && pendingFavored == old(pendingFavored)
      ensures scored == old(scored) && scoreChanged == old(scoreChanged)
    {
      hide Sound;
      ghost var vs := Entries();
      q := new QueueEntry(len);
      queue := queue + [q];
      pendingNotFuzzed := pendingNotFuzzed + 1;
      assert Entries() == vs[q := q.Now()];
      AddSound(topRated[..], vs, scored, q, q.Now(), queuedFavored, pendingFavored, pendingNotFuzzed - 1, !dumbMode && !scoreChanged);
    }

    /** What calibrate_case does to entry q: on a failed calibration only the count of
        failures grows; otherwise q is scored on the last trace. Before that q was never
        scored, or it is no more expensive now; and it hits the bytes it hit before, if it
        holds a slot. */
    method Calibrate(q: QueueEntry, outcome: Option<(nat, Map)>)
      requires Valid() && q in queue
      requires outcome.Some? ==> Consistent(q, outcome.value.0, q.len, outcome.value.1)
      modifies this`scoreChanged, this`scored, topRated, queue
      ensures Valid()
      ensures outcome.None? ==> Entries() == old(Entries())[q := old(q.Now()).(calFailed := old(q.calFailed) + 1)]
      ensures outcome.None? ==> topRated[..] == old(topRated[..]) && scoreChanged == old(scoreChanged) && scored == old(scored)
      ensures outcome.Some? ==> scored == old(scored) + {q}
      ensures outcome.Some? ==>
                var v := old(q.Now()).(execUs := outcome.value.0, calFailed := 0, covers := Nonzero(outcome.value.1));
                Rescored(old(topRated[..]), old(Entries())[q := v], topRated[..], Entries(), q)
    {
      if outcome.Some? {
        ghost var vs1 := Rescore(q, outcome.value.0, q.len, 0, outcome.value.1);
      } else {
        CountFailure(q);
      }
    }

    method CountFailure(q: QueueEntry)
      requires Valid() && q in queue
      modifies q`calFailed
      ensures Valid() && Entries() == old(Entries())[q := old(q.Now()).(calFailed := old(q.calFailed) + 1)]
    {
      ghost var vs := Entries();
      q.calFailed := q.calFailed + 1;
      assert Entries() == vs[q := q.Now()];
      RecountKeeps(topRated[..], vs, scored, q, q.calFailed, queuedFavored, pendingFavored, pendingNotFuzzed, !dumbMode && !scoreChanged);
    }

    ghost predicate Consistent(q: QueueEntry, execUs: nat, len: nat, trace: Map)
      reads this, q
    {
      && |trace| == mapSize
      && (q in scored ==> FavFactor(execUs, len) <= FavFactor(q.execUs, q.len))
      && (q.tcRef > 0 ==> Nonzero(trace) == q.covers)
    }

    /** Entry q gets a new time or length, and is scored; vs1 is what the entries hold in between. */
    method Rescore(q: QueueEntry, execUs: nat, len: nat, calFailed: nat, trace: Map) returns (ghost vs1: Views)
      requires Valid() && q in queue && Consistent(q, execUs, len, trace)
      modifies this`scoreChanged, this`scored, topRated, queue
      ensures Valid() && scored == old(scored) + {q}
      ensures vs1 == old(Entries())[q := old(q.Now()).(execUs := execUs, len := len, calFailed := calFailed, covers := Nonzero(trace))]
      ensures Rescored(old(topRated[..]), vs1, topRated[..], Entries(), q)
    {
      hide Sound, Rating;
      ghost var slots, vs, was := topRated[..], Entries(), scored;
      vs1 := Prepare(q, execUs, len, calFailed, trace);
      UpdateBitmapScore(q, trace, slots, vs1);
      SoundAfterScoring(slots, vs, was, vs1, topRated[..], Entries(), scored, q,
                        queuedFavored, pendingFavored, pendingNotFuzzed, !dumbMode && !old(scoreChanged));
    }

    method Prepare(q: QueueEntry, execUs: nat, len: nat, calFailed: nat, trace: Map) returns (ghost vs1: Views)
      requires Valid() && q in queue && Consistent(q, execUs, len, trace)
      modifies q, this`scored
      ensures q.covers == Nonzero(trace) && scored == old(scored) + {q}
      ensures vs1 == Entries() == old(Entries())[q := old(q.Now()).(execUs := execUs, len := len, calFailed := calFailed, covers := Nonzero(trace))]
      ensures Rating(topRated[..], vs1, scored, q, 0)
    {
      ghost var vs, was := Entries(), scored;
      Measure(q, execUs, len, calFailed, trace);
      vs1 := Entries();
      BeforeScoring(topRated[..], vs, was, q, vs1[q]);
    }

    /** The new measurements of q, before it is compared with anyone. */
    method Measure(q: QueueEntry, execUs: nat, len: nat, calFailed: nat, trace: Map)
      requires q in queue
      modifies q, this`scored
      ensures q.covers == Nonzero(trace) && scored == old(scored) + {q}
      ensures Entries() == old(Entries())[q := old(q.Now()).(execUs := execUs, len := len, calFailed := calFailed, covers := Nonzero(trace))]
    {
      ghost var vs := Entries();
      q.execUs, q.len, q.calFailed, q.covers, scored := execUs, len, calFailed, Nonzero(trace), scored + {q};
      assert Entries() == vs[q := q.Now()];
    }

    /** The end of trim_case, when it made q shorter: q is scored on the trace saved from a clean run. */
    method Trimmed(q: QueueEntry, len: nat, cleanTrace: Map)
      requires Valid() && q in queue && len <= q.len && |cleanTrace| == mapSize
      requires q.tcRef > 0 ==> Nonzero(cleanTrace) == q.covers
      modifies this`scoreChanged, this`scored, topRated, queue
      ensures Valid() && scored == old(scored) + {q}
      ensures var v := old(q.Now()).(len := len, covers := Nonzero(cleanTrace));
              Rescored(old(topRated[..]), old(Entries())[q := v], topRated[..], Entries(), q)
    {
      ShorterIsCheaper(q.execUs, len, q.len);
      ghost var vs1 := Rescore(q, q.execUs, len, q.calFailed, cleanTrace);
    }

    /** update_bitmap_score, for the trace just seen of q; slots and vs are what the slots
        and entries hold on entry. */
    method UpdateBitmapScore(q: QueueEntry, trace: Map, ghost slots: Slots, ghost vs: Views)
      requires Sized() && q in queue && q in scored && |trace| == mapSize && q.covers == Nonzero(trace)
      requires slots == topRated[..] && vs == Entries() && Rating(slots, vs, scored, q, 0)
      modifies this`scoreChanged, topRated, queue
      ensures Rating(topRated[..], Entries(), scored, null, 0)
      ensures Rescored(slots, vs, topRated[..], Entries(), q)
      ensures scoreChanged == (old(scoreChanged) || WinsAny(slots, vs, q, |slots|))
      ensures forall i: nat :: i < mapSize ==>
                topRated[i] == if trace[i] != 0 && (slots[i] == null || vs[q].execUs * vs[q].len <= vs[slots[i]].execUs * vs[slots[i]].len)
                               then q else slots[i]
    {
      hide Scoring, Rating, Rescored, SlotsOk;
      ghost var news := false;
      var favFactor := FavFactor(q.execUs, q.len);
      ScoringStarts(slots, vs, scored, q);
      for i := 0 to mapSize
        invariant Scoring(slots, vs, topRated[..], Entries(), scored, q, i, news)
        invariant q.covers == Nonzero(trace) && favFactor == q.Now().Cost()
        invariant scoreChanged == (old(scoreChanged) || news)
      {
        news := ScoreByte(q, i, favFactor, trace, slots, vs, news);
      }
      ScoringDone(slots, vs, topRated[..], Entries(), scored, q, news);
      ChangesHands(slots, vs, topRated[..], Entries(), q, trace);
    }

    method ScoreByte(q: QueueEntry, i: nat, favFactor: nat, trace: Map, ghost slots0: Slots, ghost vs0: Views, ghost news0: bool)
      returns (ghost news: bool)
      requires Sized() && q in queue && q in scored && i < mapSize == |trace|
      requires q.covers == Nonzero(trace) && favFactor == q.Now().Cost()
      requires Scoring(slots0, vs0, topRated[..], Entries(), scored, q, i, news0) && (news0 ==> scoreChanged)
      modifies this`scoreChanged, topRated, queue
      ensures Scoring(slots0, vs0, topRated[..], Entries(), scored, q, i + 1, news)
      ensures q.covers == Nonzero(trace) && favFactor == q.Now().Cost()
      ensures scoreChanged == (old(scoreChanged) || news) && (news0 ==> news)
    {
      ghost var slots, vs := topRated[..], Entries();
      news := news0 || (i in q.covers && Wins(slots, vs, q, i));
      if trace[i] != 0 {
        Contend(q, i, favFactor, trace);
      } else {
        BestSkips(topRated[..], Entries(), scored, q, i);
      }
      ScoringNext(slots0, vs0, slots, vs, topRated[..], Entries(), scored, q, i, news0);
    }

    /** cull_queue: unless nothing changed, the favored entries become the greedy choice. */
    method CullQueue()
      requires Valid()
      modifies this`scoreChanged, this`queuedFavored, this`pendingFavored, queue
      ensures Valid()
      ensures dumbMode || !old(scoreChanged) ==> Entries() == old(Entries()) && scoreChanged == old(scoreChanged)
      ensures !dumbMode && old(scoreChanged) ==> !scoreChanged && IsCull(old(topRated[..]), old(Entries()), Entries())
    {
      if dumbMode || !scoreChanged { return; }
      Recull(topRated[..], Entries());
    }

    method Recull(ghost slots: Slots, ghost vs: Views)
      requires Sized() && slots == topRated[..] && vs == Entries()
      requires Rating(slots, vs, scored, null, 0) && pendingNotFuzzed == |Unfuzzed(vs)|
      modifies this`scoreChanged, this`queuedFavored, this`pendingFavored, queue
      ensures !scoreChanged && IsCull(slots, vs, Entries())
      ensures Sound(slots, Entries(), scored, queuedFavored, pendingFavored, pendingNotFuzzed, true)
    {
      hide Rating, SlotsOk, RefsOk, Sound, Culling, IsCull;
      ghost var was := scored;
      RatingParts(slots, vs, scored);
      scoreChanged, queuedFavored, pendingFavored := false, 0, 0;
      assert Entries() == vs;
      ClearFavored();
      ghost var temp := GrabWinners(slots, vs);
      SoundAfterCull(slots, vs, was, Entries(), temp, queuedFavored, pendingFavored, pendingNotFuzzed);
    }

    /** The loop of cull_queue over the slots; vs is what the entries held before their marks were cleared. */
    method GrabWinners(ghost slots: Slots, ghost vs: Views) returns (ghost left: Map)
      requires Sized() && slots == topRated[..] && SlotsOk(slots, vs) && RefsOk(slots, vs)
      requires Entries() == Marked(vs, {}) && queuedFavored == pendingFavored == 0
      modifies this`queuedFavored, this`pendingFavored, queue
      ensures Culling(slots, vs, Entries(), |slots|, left, queuedFavored, pendingFavored)
    {
      hide Culling;
      var temp := new bv8[mapSize / 8](i => 0xff);
      CullStarts(slots, vs, temp[..]);
      for i := 0 to mapSize
        invariant Culling(slots, vs, Entries(), i, temp[..], queuedFavored, pendingFavored)
      {
        CullByte(i, temp, slots, vs);
      }
      left := temp[..];
    }

    method ClearFavored()
      modifies queue
      ensures Entries() == Marked(old(Entries()), {})
    {
      ghost var vs := Entries();
      for k := 0 to |queue|
        invariant forall e :: e in queue ==> e.Now() == vs[e].(favored := e !in queue[..k] && vs[e].favored)
      {
        queue[k].favored := false;
      }
      assert queue[..|queue|] == queue;
      assert Entries() == Marked(vs, {});
    }

    method CullByte(i: nat, temp: array<bv8>, ghost slots: Slots, ghost vs: Views)
      requires Sized() && i < mapSize && slots == topRated[..] && SlotsOk(slots, vs) && RefsOk(slots, vs)
      requires vs.Keys == Entries().Keys
      requires Culling(slots, vs, Entries(), i, temp[..], queuedFavored, pendingFavored)
      modifies this`queuedFavored, this`pendingFavored, queue, temp
      ensures Culling(slots, vs, Entries(), i + 1, temp[..], queuedFavored, pendingFavored)
    {
      var w := topRated[i];
      if w != null && BitSet(temp[i / 8], i % 8) {
        ghost var now, bits, qf, pf := Entries(), temp[..], queuedFavored, pendingFavored;
        assert now[w] == w.Now();
        HolderKeepsTrace(slots, vs, now, i, bits, qf, pf);
        CullPick(slots, vs, now, i, bits, qf, pf, now[w].traceMini.value);
        Pick(w, temp, now, bits);
      } else {
        CullPass(slots, vs, Entries(), i, temp[..], queuedFavored, pendingFavored);
      }
    }

    method Pick(w: QueueEntry, temp: array<bv8>, ghost now: Views, ghost bits: Map)
      requires w in queue && w.traceMini.Some? && |w.traceMini.value| == temp.Length
      requires now == Entries() && bits == temp[..]
      modifies this`queuedFavored, this`pendingFavored, w, temp
      ensures Entries() == now[w := now[w].(favored := true)]
      ensures temp[..] == Clear(bits, now[w].traceMini.value)
      ensures queuedFavored == old(queuedFavored) + 1
      ensures pendingFavored == old(pendingFavored) + Bit(!now[w].wasFuzzed)
    {
      ClearBits(temp, w.traceMini.value);
      Favor(w);
    }

    method Favor(w: QueueEntry)
      requires w in queue
      modifies this`queuedFavored, this`pendingFavored, w
      ensures Entries() == old(Entries())[w := old(w.Now()).(favored := true)]
      ensures queuedFavored == old(queuedFavored) + 1
      ensures pendingFavored == old(pendingFavored) + Bit(!old(w.wasFuzzed))
    {
      ghost var vs := Entries();
      w.favored := true;
      queuedFavored := queuedFavored + 1;
      if !w.wasFuzzed { pendingFavored := pendingFavored + 1; }
      assert Entries() == vs[w := w.Now()];
    }

    /** The end of fuzz_one: an entry that was calibrated and not fuzzed before is now fuzzed. */
    method AbandonEntry(q: QueueEntry, stopSoon: bool)
      requires Valid() && q in queue
      modifies this`pendingNotFuzzed, this`pendingFavored, q`wasFuzzed
      ensures Valid()
      ensures !stopSoon && old(q.calFailed) == 0 ==> Entries() == old(Entries())[q := old(q.Now()).(wasFuzzed := true)]
      ensures stopSoon || old(q.calFailed) > 0 ==> Entries() == old(Entries())
    {
      hide Sound;
      ghost var vs := Entries();
      assert vs[q := q.Now()] == vs;
      if !stopSoon && q.calFailed == 0 && !q.wasFuzzed {
        FuzzedKeeps(topRated[..], vs, scored, q, queuedFavored, pendingFavored, pendingNotFuzzed, !dumbMode && !scoreChanged);
        MarkFuzzed(q);
      }
    }

    method MarkFuzzed(q: QueueEntry)
      requires q in queue && pendingNotFuzzed > 0 && (q.favored ==> pendingFavored > 0)
      modifies this`pendingNotFuzzed, this`pendingFavored, q`wasFuzzed
      ensures Entries() == old(Entries())[q := old(Entries())[q].(wasFuzzed := true)]
      ensures pendingNotFuzzed == old(pendingNotFuzzed) - 1
      ensures pendingFavored == old(pendingFavored) - Bit(old(Entries())[q].favored)
    {
      ghost var vs := Entries();
      q.wasFuzzed := true;
      pendingNotFuzzed := pendingNotFuzzed - 1;
      if q.favored { pendingFavored := pendingFavored - 1; }
      assert Entries() == vs[q := q.Now()];
    }

    /** One byte of update_bitmap_score. */
    method Contend(q: QueueEntry, i: nat, favFactor: nat, trace: Map)
      requires Sized() && q in queue && q in scored && i < mapSize == |trace| && trace[i] != 0
      requires q.covers == Nonzero(trace) && favFactor == q.Now().Cost()
      requires Rating(topRated[..], Entries(), scored, q, i)
      modifies this`scoreChanged, topRated, queue
      ensures Rating(topRated[..], Entries(), scored, q, i + 1)
      ensures SameScores(old(Entries()), Entries())
      ensures topRated[..] == if old(Wins(topRated[..], Entries(), q, i)) then old(topRated[..])[i := q] else old(topRated[..])
      ensures scoreChanged == (old(scoreChanged) || old(Wins(topRated[..], Entries(), q, i)))
      ensures topRated[i] == if old(topRated[i] == null || q.execUs * q.len <= topRated[i].execUs * topRated[i].len)
                             then q else old(topRated[i])
    {
      hide RefsOk, Best, HoldersIn;
      ghost var slots, vs := topRated[..], Entries();
      var w := topRated[i];
      if w != null && favFactor > FavFactor(w.execUs, w.len) {
        KeepsHolder(slots, vs, scored, q, i);
        return;
      }
      Take(q, i, trace);
      ghost var taken := Entries();
      scoreChanged := true;
      assert Entries() == taken;
    }

    method Take(q: QueueEntry, i: nat, trace: Map)
      requires Sized() && q in queue && q in scored && i < mapSize == |trace| && trace[i] != 0
      requires q.covers == Nonzero(trace)
      requires Rating(topRated[..], Entries(), scored, q, i)
      requires topRated[i] != null ==> q.Now().Cost() <= topRated[i].Now().Cost()
      modifies topRated, queue
      ensures Rating(topRated[..], Entries(), scored, q, i + 1)
      ensures SameScores(old(Entries()), Entries())
      ensures topRated[..] == old(topRated[..])[i := q]
    {
      hide RefsOk, Best;
      ghost var slots, vs := topRated[..], Entries();
      var w := topRated[i];
      if w != null {
        LoseSlot(slots, vs, i);
        LoseRef(w);
      }
      assert Entries() == Lost(slots, vs, i);
      topRated[i] := q;
      ghost var mini := WinRef(q, trace);
      assert Entries() == Taken(slots, vs, i, q, mini);
      TakeSlot(slots, vs, scored, i, q, mini);
    }
  }

  /** Remove from temp the bits of a compact trace. */
  method ClearBits(temp: array<bv8>, mini: Map)
    requires temp.Length == |mini|
    modifies temp
    ensures temp[..] == Clear(old(temp[..]), mini)
  {
    ghost var was := temp[..];
    var j := |mini|;
    while j > 0
      invariant 0 <= j <= |mini|
      invariant forall k :: 0 <= k < j ==> temp[k] == was[k]
      invariant forall k :: j <= k < |mini| ==> temp[k] == was[k] & !mini[k]
    {
      j := j - 1;
      if mini[j] != 0 { temp[j] := temp[j] & !mini[j]; }
    }
    assert temp[..] == Clear(was, mini);
  }

  method LoseRef(w: QueueEntry)
    requires w.tcRef > 0
    modifies w
    ensures w.Now() == Loser(old(w.Now()))
  {
    w.tcRef := w.tcRef - 1;
    if w.tcRef == 0 { w.traceMini := None; }
  }

  method WinRef(q: QueueEntry, trace: Map) returns (ghost mini: Map)
    requires |trace| % 8 == 0
    modifies q
    ensures q.Now() == Winner(old(q.Now()), mini)
    ensures old(q.traceMini).None? ==> Encodes(mini, Nonzero(trace), |trace|)
  {
    mini := [];
    q.tcRef := q.tcRef + 1;
    if q.traceMini.None? {
      var bits := MinimizeBits(trace);
      q.traceMini := Some(bits);
      mini := bits;
    }
  }

  /** A fresh entry holds no slot, is not favored and is not fuzzed. */
  lemma AddEntry(slots: Slots, vs: Views, scored: set<QueueEntry>, q: QueueEntry, v: View)
    requires Rating(slots, vs, scored, null, 0) && q !in vs
    requires v.traceMini == None && v.tcRef == 0
    ensures Rating(slots, vs[q := v], scored, null, 0)
  {
    var vs2 := vs[q := v];
    assert HeldBy(slots, q) == {};
    forall e, i: nat | e in scored && i in vs2[e].covers ensures Beats(slots, vs2, i, e) {
      assert Beats(slots, vs, i, e);
    }
  }

  lemma CountEntry(slots: Slots, vs: Views, q: QueueEntry, v: View)
    requires SlotsOk(slots, vs) && q !in vs && !v.favored && !v.wasFuzzed
    ensures Picks(slots, vs[q := v], |slots|) == Picks(slots, vs, |slots|)
    ensures Favored(vs[q := v]) == Favored(vs)
    ensures |Unfuzzed(vs[q := v])| == |Unfuzzed(vs)| + 1
    ensures |Favored(vs[q := v]) * Unfuzzed(vs[q := v])| == |Favored(vs) * Unfuzzed(vs)|
  {
    var vs2 := vs[q := v];
    PicksSame(slots, vs, vs2, |slots|);
    assert Unfuzzed(vs2) == Unfuzzed(vs) + {q};
    assert Favored(vs2) == Favored(vs);
    assert Favored(vs2) * Unfuzzed(vs2) == Favored(vs) * Unfuzzed(vs);
  }

  lemma AddSound(slots: Slots, vs: Views, scored: set<QueueEntry>, q: QueueEntry, v: View, qf: nat, pf: nat, pnf: nat, culled: bool)
    requires Sound(slots, vs, scored, qf, pf, pnf, culled) && q !in vs
    requires v.traceMini == None && v.tcRef == 0 && !v.favored && !v.wasFuzzed
    ensures Sound(slots, vs[q := v], scored, qf, pf, pnf + 1, culled)
  {
    hide RefsOk, Best, HoldersIn;
    AddEntry(slots, vs, scored, q, v);
    CountEntry(slots, vs, q, v);
  }

  lemma SameMarks(vs: Views, vs2: Views)
    requires vs.Keys == vs2.Keys
    requires forall e :: e in vs ==> vs2[e].favored == vs[e].favored && vs2[e].wasFuzzed == vs[e].wasFuzzed
    ensures Favored(vs2) == Favored(vs) && Unfuzzed(vs2) == Unfuzzed(vs)
  {
  }

  /** While q wins no byte the greedy choice stays what it was. */
  lemma ChoiceStays(slots: Slots, vs: Views, vs1: Views, slots2: Slots, vs2: Views, q: QueueEntry)
    requires SlotsOk(slots, vs) && SlotsOk(slots2, vs2) && q in vs && q in vs1 && vs1 == vs[q := vs1[q]]
    requires Rescored(slots, vs1, slots2, vs2, q) && !WinsAny(slots, vs1, q, |slots|)
    ensures slots2 == slots && Picks(slots, vs2, |slots|) == Picks(slots, vs, |slots|)
  {
    assert slots2 == slots;
    assert forall i: nat :: i < |slots| && slots[i] == q ==> Wins(slots, vs1, q, i);
    PicksSame(slots, vs, vs2, |slots|);
  }

  lemma SoundAfterScoring(slots: Slots, vs: Views, scored: set<QueueEntry>, vs1: Views, slots2: Slots, vs2: Views, scored2: set<QueueEntry>,
                          q: QueueEntry, qf: nat, pf: nat, pnf: nat, culled: bool)
    requires Sound(slots, vs, scored, qf, pf, pnf, culled)
    requires q in vs && q in vs1 && vs1 == vs[q := vs1[q]]
    requires Rescored(slots, vs1, slots2, vs2, q) && Rating(slots2, vs2, scored2, null, 0)
    requires vs1[q].favored == vs[q].favored && vs1[q].wasFuzzed == vs[q].wasFuzzed
    ensures Sound(slots2, vs2, scored2, qf, pf, pnf, culled && !WinsAny(slots, vs1, q, |slots|))
  {
    SameMarks(vs, vs2);
    if !WinsAny(slots, vs1, q, |slots|) {
      ChoiceStays(slots, vs, vs1, slots2, vs2, q);
    }
  }

  lemma FuzzedKeeps(slots: Slots, vs: Views, scored: set<QueueEntry>, q: QueueEntry, qf: nat, pf: nat, pnf: nat, culled: bool)
    requires Sound(slots, vs, scored, qf, pf, pnf, culled) && q in vs && !vs[q].wasFuzzed
    ensures pnf > 0 && (vs[q].favored ==> pf > 0)
    ensures Sound(slots, vs[q := vs[q].(wasFuzzed := true)], scored, qf, pf - Bit(vs[q].favored), pnf - 1, culled)
  {
    var vs2 := vs[q := vs[q].(wasFuzzed := true)];
    FuzzedCounts(vs, q);
    FieldKeepsRating(slots, vs, vs2, scored);
    PicksSame(slots, vs, vs2, |slots|);
  }

  lemma FuzzedCounts(vs: Views, q: QueueEntry)
    requires q in vs && !vs[q].wasFuzzed
    ensures var vs2 := vs[q := vs[q].(wasFuzzed := true)];
            && Favored(vs2) == Favored(vs)
            && |Unfuzzed(vs)| > 0 && |Unfuzzed(vs2)| == |Unfuzzed(vs)| - 1
            && |Favored(vs) * Unfuzzed(vs)| >= Bit(vs[q].favored)
            && |Favored(vs2) * Unfuzzed(vs2)| == |Favored(vs) * Unfuzzed(vs)| - Bit(vs[q].favored)
  {
    var vs2 := vs[q := vs[q].(wasFuzzed := true)];
    assert Favored(vs2) == Favored(vs);
    assert Unfuzzed(vs2) == Unfuzzed(vs) - {q};
    assert q in Unfuzzed(vs);
    if vs[q].favored {
      assert q in Favored(vs) * Unfuzzed(vs);
      assert Favored(vs2) * Unfuzzed(vs2) == Favored(vs) * Unfuzzed(vs) - {q};
    } else {
      assert Favored(vs2) * Unfuzzed(vs2) == Favored(vs) * Unfuzzed(vs);
    }
  }

  /** Fields that no rating reads may change. */
  lemma FieldKeepsRating(slots: Slots, vs: Views, vs2: Views, scored: set<QueueEntry>)
    requires Rating(slots, vs, scored, null, 0) && vs2.Keys == vs.Keys
    requires forall e :: e in vs ==>
               && vs2[e].covers == vs[e].covers && vs2[e].tcRef == vs[e].tcRef && vs2[e].traceMini == vs[e].traceMini
               && vs2[e].execUs == vs[e].execUs && vs2[e].len == vs[e].len
    ensures Rating(slots, vs2, scored, null, 0)
  {
    forall e | e in vs2 ensures RefOk(slots, e, vs2[e]) {
      assert RefOk(slots, e, vs[e]);
    }
    forall e, i: nat | e in scored && i in vs2[e].covers ensures Beats(slots, vs2, i, e) {
      assert Beats(slots, vs, i, e);
    }
  }

  lemma RecountKeeps(slots: Slots, vs: Views, scored: set<QueueEntry>, q: QueueEntry, failed: nat, qf: nat, pf: nat, pnf: nat, culled: bool)
    requires Sound(slots, vs, scored, qf, pf, pnf, culled) && q in vs
    ensures Sound(slots, vs[q := vs[q].(calFailed := failed)], scored, qf, pf, pnf, culled)
  {
    var vs2 := vs[q := vs[q].(calFailed := failed)];
    SameMarks(vs, vs2);
    PicksSame(slots, vs, vs2, |slots|);
    FieldKeepsRating(slots, vs, vs2, scored);
  }
}

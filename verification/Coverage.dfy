/** afl-fuzz's bitmap routines, which work through the maps a machine word at a time,
    and the log of unique crashes kept with them. */
module Coverage {
  import opened CoverageSpec

  const KEEP_UNIQUE_CRASH := 5000

  /** The bytes at..at+w of a word of the trace and of the virgin map share a bit. */
  method WordShares(trace: array<bv8>, virgin: array<bv8>, at: nat, w: nat) returns (shares: bool)
    requires trace.Length == virgin.Length && at + w <= trace.Length
    ensures shares <==> exists i :: at <= i < at + w && Shares(virgin[i], trace[i])
  {
    for j := 0 to w
      invariant forall i :: at <= i < at + j ==> !Shares(virgin[i], trace[i])
    {
      if trace[at + j] & virgin[at + j] != 0 {
        assert Shares(virgin[at + j], trace[at + j]);
        return true;
      }
    }
    return false;
  }

  method WordHasNewTuple(trace: array<bv8>, virgin: array<bv8>, at: nat, w: nat) returns (found: bool)
    requires trace.Length == virgin.Length && at + w <= trace.Length
    ensures found <==> exists i :: at <= i < at + w && trace[i] != 0 && virgin[i] == 0xff
  {
    for j := 0 to w
      invariant forall i :: at <= i < at + j ==> !(trace[i] != 0 && virgin[i] == 0xff)
    {
      if trace[at + j] != 0 && virgin[at + j] == 0xff { return true; }
    }
    return false;
  }

  predicate Fresh(v: bv8, t: bv8) { t != 0 && v == 0xff }

  function ClearByte(v: bv8, t: bv8): bv8 { v & !t }

  /** What has_new_bits answers for the first n bytes. */
  ghost predicate Answer(v: Map, t: Map, n: nat, ret: nat)
    requires n <= |v| == |t|
  {
    && ret <= 2
    && (ret == 2 <==> exists i :: 0 <= i < n && Fresh(v[i], t[i]))
    && (ret != 0 <==> exists i :: 0 <= i < n && Shares(v[i], t[i]))
  }

  /** The body of the loop of has_new_bits, for the word at at. */
  method ScanWord(trace: array<bv8>, virgin: array<bv8>, at: nat, w: nat, ret0: nat, ghost v0: Map) returns (ret: nat)
    requires trace != virgin && trace.Length == virgin.Length == |v0| && at + w <= trace.Length
    requires forall i :: at <= i < virgin.Length ==> virgin[i] == v0[i]
    requires Answer(v0, trace[..], at, ret0)
    modifies virgin
    ensures forall i :: 0 <= i < virgin.Length && !(at <= i < at + w) ==> virgin[i] == old(virgin[i])
    ensures forall i :: at <= i < at + w ==> virgin[i] == ClearByte(v0[i], trace[i])
    ensures Answer(v0, trace[..], at + w, ret)
  {
    ret := ret0;
    ghost var t := trace[..];
    var shares := WordShares(trace, virgin, at, w);
    if shares {
      var found := WordHasNewTuple(trace, virgin, at, w);
      if ret < 2 {
        ret := if found then 2 else 1;
      }
      forall j | at <= j < at + w {
        virgin[j] := ClearByte(virgin[j], trace[j]);
      }
    } else {
      forall i | at <= i < at + w ensures ClearByte(v0[i], t[i]) == v0[i] && !Fresh(v0[i], t[i]) {
        assert !Shares(v0[i], t[i]);
        NothingToClear(v0[i], t[i]);
        FreshShares(v0[i], t[i]);
      }
    }
  }

  /** has_new_bits: for each word with something new, decide what is new and clear it. */
  method HasNewBits(trace: array<bv8>, virgin: array<bv8>, w: nat, words: nat) returns (ret: nat)
    requires trace != virgin && trace.Length == virgin.Length == words * w
    modifies virgin
    ensures virgin[..] == Clear(old(virgin[..]), trace[..])
    ensures ret == Verdict(old(virgin[..]), trace[..])
  {
    ghost var v0 := virgin[..];
    ret := 0;
    var at := 0;
    for k := 0 to words
      invariant at == k * w <= trace.Length
      invariant forall i :: 0 <= i < at ==> virgin[i] == ClearByte(v0[i], trace[i])
      invariant forall i :: at <= i < virgin.Length ==> virgin[i] == v0[i]
      invariant Answer(v0, trace[..], at, ret)
    {
      WordFits(k, words, w);
      ret := ScanWord(trace, virgin, at, w, ret, v0);
      at := at + w;
    }
    AnswerIsVerdict(v0, trace[..], ret);
    assert virgin[..] == Clear(v0, trace[..]);
  }

  lemma AnswerIsVerdict(v: Map, t: Map, ret: nat)
    requires |v| == |t| && Answer(v, t, |v|, ret)
    ensures ret == Verdict(v, t)
  {
    assert NewTuple(v, t) <==> exists i :: 0 <= i < |v| && Fresh(v[i], t[i]) by {
      if NewTuple(v, t) {
        var i :| 0 <= i < |v| && t[i] != 0 && v[i] == 0xff;
        assert Fresh(v[i], t[i]);
      }
    }
  }

  lemma WordFits(k: nat, words: nat, w: nat)
    requires k < words
    ensures k * w + w == (k + 1) * w <= words * w
  {
  }

  lemma NothingToClear(v: bv8, t: bv8)
    requires !Shares(v, t)
    ensures ClearByte(v, t) == v
  {
  }

  lemma FreshShares(v: bv8, t: bv8)
    ensures Fresh(v, t) ==> Shares(v, t)
  {
  }

  // ----- classifying and simplifying traces

  /** count_class_lookup8: the bucket of a hit count. */
  function Class(b: bv8): bv8 {
    if b == 0 then 0 else if b == 1 then 1 else if b == 2 then 2 else if b == 3 then 4
    else if b < 8 then 8 else if b < 16 then 16 else if b < 32 then 32 else if b < 128 then 64 else 128
  }

  function Hits(b: bv8): bv8 { if b == 0 then 1 else 128 }

  function Classified(t: Map): (r: Map)
    ensures |r| == |t| && forall i :: 0 <= i < |t| ==> r[i] == Class(t[i])
  {
    seq(|t|, i requires 0 <= i < |t| => Class(t[i]))
  }

  function SimplifiedOf(t: Map): (r: Map)
    ensures |r| == |t| && Simplified(r) && forall i :: 0 <= i < |t| ==> r[i] == Hits(t[i])
  {
    seq(|t|, i requires 0 <= i < |t| => Hits(t[i]))
  }

  /** A classified byte is zero or a single bit. */
  lemma ClassIsOneBit(b: bv8)
    ensures Class(b) == 0 <==> b == 0
    ensures b != 0 ==> OneBit(Class(b))
  {
  }

  /** Position i of t holds a class that no trace of the run has there. */
  ghost predicate NewClass(traces: seq<Map>, t: Map, i: nat) {
    i < |t| && t[i] != 0 && forall k :: 0 <= k < |traces| && i < |traces[k]| ==> traces[k][i] != t[i]
  }

  ghost predicate Classes(t: Map) {
    forall i :: 0 <= i < |t| ==> t[i] == 0 || OneBit(t[i])
  }

  /** On classified traces a hit-count bit is new exactly when this class is new in its
      place: the verdict is nonzero exactly when some tuple has a class no earlier trace gave it. */
  lemma ClassifiedNews(virgin: Map, traces: seq<Map>, raw: Map)
    requires AllSet(virgin) && Sized(|virgin|, traces) && |raw| == |virgin|
    requires forall k :: 0 <= k < |traces| ==> Classes(traces[k])
    ensures Verdict(After(virgin, traces), Classified(raw)) != 0 <==> exists i: nat :: NewClass(traces, Classified(raw), i)
  {
    var t := Classified(raw);
    VerdictMeans(virgin, traces, t);
    assert Classes(t) by {
      forall i | 0 <= i < |t| ensures t[i] == 0 || OneBit(t[i]) { ClassIsOneBit(raw[i]); }
    }
    if i: nat, m: bv8 :| FreshBit(traces, t, i, m) {
      FreshIsNewClass(traces, t, i, m);
    }
    if i: nat :| NewClass(traces, t, i) {
      NewClassIsFresh(traces, t, i);
    }
  }

  lemma FreshIsNewClass(traces: seq<Map>, t: Map, i: nat, m: bv8)
    requires Classes(t) && FreshBit(traces, t, i, m)
    ensures NewClass(traces, t, i)
  {
    SingleBits(t[i], m);
    forall k | 0 <= k < |traces| && i < |traces[k]| ensures traces[k][i] != t[i] {
      assert !(traces[k][i] & m != 0);
    }
  }

  lemma NewClassIsFresh(traces: seq<Map>, t: Map, i: nat)
    requires Classes(t) && NewClass(traces, t, i)
    requires forall k :: 0 <= k < |traces| ==> Classes(traces[k])
    ensures FreshBit(traces, t, i, t[i])
  {
    SingleBits(t[i], t[i]);
    forall k | 0 <= k < |traces| && i < |traces[k]| ensures traces[k][i] & t[i] == 0 {
      assert Classes(traces[k]);
      SingleBits(traces[k][i], t[i]);
    }
  }

  lemma SingleBits(a: bv8, m: bv8)
    requires (a == 0 || OneBit(a)) && OneBit(m)
    ensures a & m != 0 <==> a == m
  {
  }

  /** Classifying a trace twice is the same as once exactly if no count lies between 3 and 31:
      3 hits become 4 and then 8, and so on up to 31, which become 64 by way of 32. */
  lemma ClassifiedTwiceExactly(t: Map)
    ensures Classified(Classified(t)) == Classified(t) <==> forall i :: 0 <= i < |t| ==> t[i] < 3 || t[i] >= 32
  {
    forall i | 0 <= i < |t| ensures Class(Class(t[i])) == Class(t[i]) <==> t[i] < 3 || t[i] >= 32 {
      ClassTwice(t[i]);
    }
    var once, twice := Classified(t), Classified(Classified(t));
    if once == twice {
      forall i | 0 <= i < |t| ensures t[i] < 3 || t[i] >= 32 {
        assert twice[i] == once[i];
      }
    }
  }

  lemma ClassTwice(b: bv8)
    ensures Class(Class(b)) == Class(b) <==> b < 3 || b >= 32
  {
  }

  lemma SameByte(b: bv8)
    ensures (b as nat) < 256 && (b as nat) as bv8 == b
  {
  }

  /** A 16-bit number as its low and high byte. */
  datatype Pair = Pair(lo: bv8, hi: bv8)

  /** Two counts at a time. */
  function ClassOfPair(p: Pair): Pair { Pair(Class(p.lo), Class(p.hi)) }

  /** The table, with the high byte of the index first. */
  ghost predicate IsTable(table: array2<Pair>)
    reads table
  {
    && table.Length0 == 256 && table.Length1 == 256
    && forall hi: nat, lo: nat :: hi < 256 && lo < 256 ==> table[hi, lo] == ClassOfPair(Pair(lo as bv8, hi as bv8))
  }

  method InitCountClass16() returns (table: array2<Pair>)
    ensures fresh(table) && IsTable(table)
  {
    table := new Pair[256, 256]((i, j) => Pair(0, 0));
    for b1 := 0 to 256
      invariant forall hi: nat, lo: nat :: hi < b1 && lo < 256 ==> table[hi, lo] == Entry(hi, lo)
    {
      hide Entry;
      for b2 := 0 to 256
        invariant forall hi: nat, lo: nat :: hi < b1 && lo < 256 ==> table[hi, lo] == Entry(hi, lo)
        invariant forall lo: nat :: lo < b2 ==> table[b1, lo] == Entry(b1, lo)
      {
        EntryIs(b1, b2);
        table[b1, b2] := Pair(Class(b2 as bv8), Class(b1 as bv8));
      }
    }
  }

  /** What belongs at a place of the table. */
  function Entry(hi: nat, lo: nat): Pair
    requires hi < 256 && lo < 256
  {
    ClassOfPair(Pair(lo as bv8, hi as bv8))
  }

  lemma EntryIs(hi: nat, lo: nat)
    requires hi < 256 && lo < 256
    ensures Entry(hi, lo) == Pair(Class(lo as bv8), Class(hi as bv8))
  {
  }

  /** The byte that stands for n hits: each stands for one range of counts. */
  predicate InBucket(n: bv8, c: bv8) {
    || (n == 0 && c == 0)
    || (n == 1 && c == 1)
    || (n == 2 && c == 2)
    || (n == 3 && c == 4)
    || (4 <= n <= 7 && c == 8)
    || (8 <= n <= 15 && c == 16)
    || (16 <= n <= 31 && c == 32)
    || (32 <= n <= 127 && c == 64)
    || (128 <= n && c == 128)
  }

  lemma ClassBuckets(n: bv8)
    ensures forall c :: InBucket(n, c) <==> c == Class(n)
  {
  }

  lemma ClassifiedBuckets(was: Map, now: Map)
    requires now == Classified(was)
    ensures |now| == |was| && forall i :: 0 <= i < |was| ==> InBucket(was[i], now[i])
  {
    forall i | 0 <= i < |was| ensures InBucket(was[i], now[i]) {
      ClassBuckets(was[i]);
    }
  }

  /** classify_counts: two bytes at a time through the table, skipping zero words; h is half the bytes of a word. */
  method ClassifyCounts(mem: array<bv8>, table: array2<Pair>, h: nat, words: nat)
    requires mem.Length == words * (2 * h) && IsTable(table)
    modifies mem
    ensures mem[..] == Classified(old(mem[..]))
    ensures forall i :: 0 <= i < mem.Length ==> InBucket(old(mem[i]), mem[i])
  {
    ghost var m0 := mem[..];
    var at := 0;
    for k := 0 to words
      invariant at == k * (2 * h) <= mem.Length
      invariant forall i :: 0 <= i < at ==> mem[i] == Class(m0[i])
      invariant forall i :: at <= i < mem.Length ==> mem[i] == m0[i]
    {
      WordFits(k, words, 2 * h);
      ClassifyWord(mem, table, at, h, m0);
      at := at + 2 * h;
    }
    assert mem[..] == Classified(m0);
    ClassifiedBuckets(m0, mem[..]);
  }

  method ClassifyWord(mem: array<bv8>, table: array2<Pair>, at: nat, h: nat, ghost m0: Map)
    requires at + 2 * h <= mem.Length == |m0| && IsTable(table)
    requires forall i :: at <= i < mem.Length ==> mem[i] == m0[i]
    modifies mem
    ensures forall i :: 0 <= i < at ==> mem[i] == old(mem[i])
    ensures forall i :: at <= i < at + 2 * h ==> mem[i] == Class(m0[i])
    ensures forall i :: at + 2 * h <= i < mem.Length ==> mem[i] == m0[i]
  {
    var zero := WordIsZero(mem, at, 2 * h);
    if !zero {
      for j := 0 to h
        invariant forall i :: 0 <= i < at ==> mem[i] == old(mem[i])
        invariant forall i :: at <= i < at + 2 * j ==> mem[i] == Class(m0[i])
        invariant forall i :: at + 2 * j <= i < mem.Length ==> mem[i] == m0[i]
      {
        ClassifyPair(mem, table, at + 2 * j);
      }
    }
  }

  method ClassifyPair(mem: array<bv8>, table: array2<Pair>, p: nat)
    requires p + 1 < mem.Length && IsTable(table)
    modifies mem
    ensures mem[p] == Class(old(mem[p])) && mem[p + 1] == Class(old(mem[p + 1]))
    ensures forall i :: 0 <= i < mem.Length && i != p && i != p + 1 ==> mem[i] == old(mem[i])
  {
    SameByte(mem[p]);
    SameByte(mem[p + 1]);
    var v := table[mem[p + 1] as nat, mem[p] as nat];
    mem[p], mem[p + 1] := v.lo, v.hi;
  }

  method WordIsZero(mem: array<bv8>, at: nat, w: nat) returns (zero: bool)
    requires at + w <= mem.Length
    ensures zero <==> forall i :: at <= i < at + w ==> mem[i] == 0
  {
    for j := 0 to w
      invariant forall i :: at <= i < at + j ==> mem[i] == 0
    {
      if mem[at + j] != 0 { return false; }
    }
    return true;
  }

  /** simplify_trace: a zero word becomes all ones at once, another goes through the table. */
  method SimplifyTrace(mem: array<bv8>, w: nat, words: nat)
    requires mem.Length == words * w
    modifies mem
    ensures mem[..] == SimplifiedOf(old(mem[..]))
    ensures forall i :: 0 <= i < mem.Length ==> (old(mem[i]) == 0 && mem[i] == 1) || (old(mem[i]) != 0 && mem[i] == 128)
  {
    ghost var m0 := mem[..];
    var at := 0;
    for k := 0 to words
      invariant at == k * w <= mem.Length
      invariant forall i :: 0 <= i < at ==> mem[i] == Hits(m0[i])
      invariant forall i :: at <= i < mem.Length ==> mem[i] == m0[i]
    {
      WordFits(k, words, w);
      var zero := WordIsZero(mem, at, w);
      if !zero {
        forall j | at <= j < at + w { mem[j] := Hits(mem[j]); }
      } else {
        forall j | at <= j < at + w { mem[j] := 1; }
      }
      at := at + w;
    }
    assert mem[..] == SimplifiedOf(m0);
  }

  // ----- the log of unique crashes

  class CrashLog {
    const w: nat
    const words: nat
    const virginCrash: array<bv8>
    var totalCrashes: nat
    var uniqueCrashes: nat
    /** The simplified traces compared so far. */
    ghost var compared: seq<Map>

    ghost predicate Valid()
      reads this, virginCrash
    {
      && virginCrash.Length == words * w
      && Sized(words * w, compared) && AllSimplified(compared)
      && virginCrash[..] == After(AllOnes(words * w), compared)
      && uniqueCrashes == News(AllOnes(words * w), compared)
      && |compared| <= totalCrashes
    }

    constructor (w: nat, words: nat)
      ensures Valid() && fresh(virginCrash) && compared == [] && uniqueCrashes == totalCrashes == 0
      ensures this.w == w && this.words == words
    {
      this.w, this.words := w, words;
      virginCrash := new bv8[words * w](i => 0xff);
      totalCrashes, uniqueCrashes, compared := 0, 0, [];
      new;
      assert virginCrash[..] == AllOnes(words * w);
    }

    /** What save_if_interesting does with a crash, outside dumb mode: is it unique? */
    method OnCrash(trace: array<bv8>) returns (unique: bool)
      requires Valid() && trace != virginCrash && trace.Length == words * w
      modifies this, virginCrash, trace
      ensures Valid()
      ensures old(uniqueCrashes) >= 5000 ==> !unique && compared == old(compared) && trace[..] == old(trace[..])
      ensures old(uniqueCrashes) < 5000 ==>
                && compared == old(compared) + [SimplifiedOf(old(trace[..]))]
                && (unique <==> IsUnique(old(compared), old(trace[..])))
      ensures uniqueCrashes == old(uniqueCrashes) + Bit(unique) && totalCrashes == old(totalCrashes) + 1
      ensures uniqueCrashes <= words * w + 1
    {
      hide IsUnique, Verdict;
      totalCrashes := totalCrashes + 1;
      if uniqueCrashes >= KEEP_UNIQUE_CRASH {
        UniqueBounded(AllOnes(words * w), compared);
        return false;
      }
      ghost var raw, before := trace[..], virginCrash[..];
      SimplifyTrace(trace, w, words);
      ghost var t := trace[..];
      var news := HasNewBits(trace, virginCrash, w, words);
      UniqueOf(compared, raw);
      assert (compared + [t])[..|compared|] == compared;
      compared := compared + [t];
      UniqueBounded(AllOnes(words * w), compared);
      unique := news != 0;
      if unique { uniqueCrashes := uniqueCrashes + 1; }
    }
  }

  function AllOnes(n: nat): (v: Map)
    ensures |v| == n && AllSet(v)
  {
    seq(n, i => 0xff)
  }

  /** The raw trace of a crash hits a tuple that no compared crash hit, or misses one that
      all of them hit. */
  ghost predicate IsUnique(traces: seq<Map>, raw: Map) {
    || (exists i :: 0 <= i < |raw| && raw[i] != 0 && Always(traces, i, 1))
    || (exists i :: 0 <= i < |raw| && raw[i] == 0 && Always(traces, i, 128))
  }

  lemma UniqueOf(traces: seq<Map>, raw: Map)
    requires Sized(|raw|, traces) && AllSimplified(traces)
    ensures Verdict(After(AllOnes(|raw|), traces), SimplifiedOf(raw)) != 0 <==> IsUnique(traces, raw)
  {
    var t := SimplifiedOf(raw);
    UniqueMeans(AllOnes(|raw|), traces, t);
    assert forall i :: 0 <= i < |raw| ==> (t[i] == 128 <==> raw[i] != 0) && (t[i] == 1 <==> raw[i] == 0);
  }
}

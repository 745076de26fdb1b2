/** The memory of libdislocator: every block ends at a page nobody may touch, and its length
    and a canary are kept just below it. */
module DislocatorSpec {
  import opened ByteStrings
  import opened Common

  const PAGE_SIZE: nat := 4096
  const ALLOC_CANARY: nat := 0xAACC_AACC
  const ALLOC_CLOBBER: Byte := 0xCC
  const TWO_32: nat := 0x1_0000_0000
  const TWO_64: nat := 0x1_0000_0000_0000_0000

  /** The bytes that may be read and written. */
  type Cells = map<nat, Byte>

  /** Where the mapping of a block starts, and the length asked for. */
  datatype Block = Block(base: nat, len: nat)

  /** Blocks by address. */
  type Blocks = map<nat, Block>

  // ----- the layout of a block

  function PgCount(l: nat): nat { (l + (PAGE_SIZE - 1)) / PAGE_SIZE }

  /** Block p and its header end at a page boundary, in as few whole pages as hold them. */
  ghost predicate Laid(p: nat, b: Block) {
    && b.base > 0 && b.base % PAGE_SIZE == 0
    && p + b.len == b.base + PAGE_SIZE * PgCount(b.len + 8)
  }

  lemma FewestPages(l: nat)
    requires l > 0
    ensures 4096 * (PgCount(l) - 1) < l <= 4096 * PgCount(l)
  {
  }

  lemma HeaderFits(p: nat, b: Block)
    requires Laid(p, b)
    ensures b.base <= p - 8 && (p + b.len) % PAGE_SIZE == 0
  {
  }

  /** The usable bytes of a block's mapping. */
  predicate InBlock(p: nat, b: Block, a: nat) {
    b.base <= a < p + b.len
  }

  predicate InGuard(p: nat, b: Block, a: nat) {
    p + b.len <= a < p + b.len + PAGE_SIZE
  }

  /** Two mappings, guard pages included, have no byte in common. */
  predicate Apart(p: nat, b: Block, q: nat, d: Block) {
    p + b.len + PAGE_SIZE <= d.base || q + d.len + PAGE_SIZE <= b.base
  }

  // ----- words in memory

  ghost predicate Has(c: Cells, from: nat, to: nat) {
    forall a: nat :: from <= a < to ==> a in c
  }

  function Get32(c: Cells, a: nat): nat
    requires Has(c, a, a + 4)
  {
    (c[a] as nat) + 0x100 * (c[a + 1] as nat) + 0x1_0000 * (c[a + 2] as nat) + 0x100_0000 * (c[a + 3] as nat)
  }

  function Put32(c: Cells, a: nat, v: nat): Cells {
    c[a := Digit(v, 0)][a + 1 := Digit(v, 1)][a + 2 := Digit(v, 2)][a + 3 := Digit(v, 3)]
  }

  lemma GetPut(c: Cells, a: nat, v: nat)
    requires v < TWO_32
    ensures Has(Put32(c, a, v), a, a + 4) && Get32(Put32(c, a, v), a) == v
  {
    FourDigits(v);
  }

  // ----- the invariant

  /** The header of p holds its length and the canary. */
  ghost predicate HeaderOk(c: Cells, p: nat, len: nat) {
    p >= 8 && Has(c, p - 8, p) && Get32(c, p - 8) == len && Get32(c, p - 4) == ALLOC_CANARY
  }

  ghost predicate Mapped(c: Cells, p: nat, b: Block) {
    forall a: nat :: InBlock(p, b, a) ==> a in c
  }

  ghost predicate AllApart(blocks: Blocks) {
    forall p, q :: p in blocks && q in blocks && p != q ==> Apart(p, blocks[p], q, blocks[q])
  }

  ghost predicate AllLaid(blocks: Blocks) {
    forall p {:trigger Laid(p, blocks[p])} :: p in blocks ==> Laid(p, blocks[p])
  }

  ghost predicate InSome(blocks: Blocks, a: nat) {
    exists p :: p in blocks && InBlock(p, blocks[p], a)
  }

  /** Live blocks can be used from the start of their mapping to their end; no other byte of
      a mapping can: not the guard pages, and nothing of a freed block. */
  ghost predicate Ok(c: Cells, live: Blocks, freed: Blocks) {
    && live.Keys !! freed.Keys
    && AllApart(live + freed) && AllLaid(live + freed)
    && (forall p {:trigger HeaderOk(c, p, live[p].len)} :: p in live ==> HeaderOk(c, p, live[p].len))
    && (forall p :: p in live ==> Mapped(c, p, live[p]))
    && (forall a :: a in c ==> InSome(live, a))
  }

  function Contents(c: Cells, p: nat, len: nat): Bytes
    requires Has(c, p, p + len)
  {
    seq(len, i requires 0 <= i < len => c[p + i])
  }

  /** A byte is in the mapping of at most one block, and then in no guard page. */
  lemma OneBlock(blocks: Blocks, p: nat, q: nat, a: nat)
    requires AllApart(blocks) && AllLaid(blocks) && p in blocks && q in blocks && InBlock(q, blocks[q], a)
    ensures InBlock(p, blocks[p], a) || InGuard(p, blocks[p], a) ==> p == q && InBlock(p, blocks[p], a)
  {
    assert Laid(p, blocks[p]);
    HeaderFits(p, blocks[p]);
    if p != q { assert Apart(p, blocks[p], q, blocks[q]); }
  }

  // ----- the length of all blocks together

  ghost function Total(blocks: Blocks): nat {
    if blocks == map[] then 0
    else
      var p :| p in blocks;
      blocks[p].len + Total(blocks - {p})
  }

  lemma {:induction false} TotalWithout(blocks: Blocks, p: nat)
    requires p in blocks
    ensures Total(blocks) == blocks[p].len + Total(blocks - {p})
    decreases |blocks|
  {
    var q :| q in blocks && Total(blocks) == blocks[q].len + Total(blocks - {q});
    if q != p {
      TotalWithout(blocks - {q}, p);
      TotalWithout(blocks - {p}, q);
      assert (blocks - {q}) - {p} == (blocks - {p}) - {q};
    }
  }

  lemma TotalWith(blocks: Blocks, p: nat, b: Block)
    requires p !in blocks
    ensures Total(blocks[p := b]) == Total(blocks) + b.len
  {
    TotalWithout(blocks[p := b], p);
    assert blocks[p := b] - {p} == blocks;
  }

  // ----- what the steps do to memory

  function Zeroed(p: nat, b: Block): Cells {
    map a: nat | a < p + b.len && InBlock(p, b, a) :: 0
  }

  /** A new block: a zeroed mapping with the length and the canary below the block. */
  function Allocated(c: Cells, p: nat, b: Block): Cells
    requires p >= 8
  {
    Put32(Put32(c + Zeroed(p, b), p - 8, b.len), p - 4, ALLOC_CANARY)
  }

  function Protected(c: Cells, p: nat, b: Block): Cells {
    map a | a in c && !InBlock(p, b, a) :: c[a]
  }

  function Written(c: Cells, p: nat, data: Bytes): Cells {
    map a | a in c :: if p <= a < p + |data| then data[a - p] else c[a]
  }

  /** The block may be put here: it touches no mapping made before, not even of a freed block. */
  ghost predicate Fits(blocks: Blocks, p: nat, b: Block) {
    Laid(p, b) && forall q :: q in blocks ==> Apart(p, b, q, blocks[q])
  }

  ghost predicate SameBlock(c: Cells, c2: Cells, p: nat, b: Block) {
    forall a: nat :: InBlock(p, b, a) ==> a in c && a in c2 && c2[a] == c[a]
  }

  ghost predicate SameBlocks(c: Cells, c2: Cells, blocks: Blocks) {
    forall q :: q in blocks ==> SameBlock(c, c2, q, blocks[q])
  }

  lemma SameHeader(c: Cells, c2: Cells, q: nat, b: Block)
    requires HeaderOk(c, q, b.len) && SameBlock(c, c2, q, b) && Laid(q, b)
    ensures HeaderOk(c2, q, b.len)
  {
    HeaderFits(q, b);
    assert forall a: nat :: q - 8 <= a < q ==> InBlock(q, b, a);
  }

  /** Outside the mapping of block p nothing changes for another block. */
  lemma OthersSame(c: Cells, c2: Cells, all: Blocks, p: nat, q: nat)
    requires AllApart(all) && AllLaid(all) && p in all && q in all && p != q
    requires HeaderOk(c, q, all[q].len) && Mapped(c, q, all[q])
    requires forall a: nat :: a in c && !InBlock(p, all[p], a) ==> a in c2 && c2[a] == c[a]
    ensures SameBlock(c, c2, q, all[q]) && HeaderOk(c2, q, all[q].len) && Mapped(c2, q, all[q])
  {
    forall a: nat | InBlock(q, all[q], a) ensures a in c && a in c2 && c2[a] == c[a] {
      OneBlock(all, p, q, a);
    }
    assert Laid(q, all[q]);
    SameHeader(c, c2, q, all[q]);
  }

  lemma NewCells(c: Cells, p: nat, b: Block)
    requires Laid(p, b)
    ensures p >= 8
    ensures forall a: nat :: a in Allocated(c, p, b) <==> a in c || InBlock(p, b, a)
    ensures forall a: nat :: a in c && !InBlock(p, b, a) ==> Allocated(c, p, b)[a] == c[a]
    ensures forall a: nat :: p <= a < p + b.len ==> Allocated(c, p, b)[a] == 0
  {
    HeaderFits(p, b);
    assert forall a: nat :: p - 8 <= a < p + b.len ==> InBlock(p, b, a);
  }

  lemma NewBlock(c: Cells, p: nat, b: Block)
    requires Laid(p, b) && b.len < TWO_32
    ensures p >= 8 && HeaderOk(Allocated(c, p, b), p, b.len)
  {
    HeaderFits(p, b);
    var c2 := Put32(c + Zeroed(p, b), p - 8, b.len);
    GetPut(c + Zeroed(p, b), p - 8, b.len);
    GetPut(c2, p - 4, ALLOC_CANARY);
  }

  lemma FreshAddress(all: Blocks, p: nat, b: Block)
    requires AllLaid(all) && Fits(all, p, b)
    ensures p !in all
  {
    if p in all {
      assert Apart(p, b, p, all[p]) && Laid(p, all[p]);
      HeaderFits(p, b);
      HeaderFits(p, all[p]);
    }
  }

  lemma AllocLayout(all: Blocks, p: nat, b: Block)
    requires AllApart(all) && AllLaid(all) && Fits(all, p, b)
    ensures AllApart(all[p := b]) && AllLaid(all[p := b])
  {
    var all2 := all[p := b];
    forall q | q in all2 ensures Laid(q, all2[q]) {
      if q != p { assert Laid(q, all[q]); }
    }
  }

  lemma AllocCells(c: Cells, live: Blocks, p: nat, b: Block)
    requires Laid(p, b) && p !in live && forall a :: a in c ==> InSome(live, a)
    ensures p >= 8 && Mapped(Allocated(c, p, b), p, b)
    ensures forall a :: a in Allocated(c, p, b) ==> InSome(live[p := b], a)
  {
    NewCells(c, p, b);
    forall a | a in Allocated(c, p, b) ensures InSome(live[p := b], a) {
      if a in c {
        StillInSome(live, p, b, a);
      } else {
        assert InBlock(p, live[p := b][p], a);
      }
    }
  }

  /** All other live blocks are as before. */
  ghost predicate Kept(c: Cells, c2: Cells, live: Blocks) {
    forall q {:trigger HeaderOk(c2, q, live[q].len)} :: q in live ==>
      SameBlock(c, c2, q, live[q]) && HeaderOk(c2, q, live[q].len) && Mapped(c2, q, live[q])
  }

  lemma GrowOthers(c: Cells, c2: Cells, live: Blocks, freed: Blocks, p: nat, b: Block)
    requires Ok(c, live, freed) && Fits(live + freed, p, b) && p !in live + freed
    requires forall a: nat :: a in c && !InBlock(p, b, a) ==> a in c2 && c2[a] == c[a]
    ensures Kept(c, c2, live)
  {
    hide HeaderOk, Mapped, SameBlock;
    var all := (live + freed)[p := b];
    AllocLayout(live + freed, p, b);
    forall q | q in live ensures SameBlock(c, c2, q, live[q]) && HeaderOk(c2, q, live[q].len) && Mapped(c2, q, live[q]) {
      assert all[q] == live[q] && HeaderOk(c, q, live[q].len);
      OthersSame(c, c2, all, p, q);
    }
  }

  lemma GrowKeeps(c: Cells, c2: Cells, live: Blocks, freed: Blocks, p: nat, b: Block)
    requires Kept(c, c2, live) && HeaderOk(c2, p, b.len) && Mapped(c2, p, b)
    requires live.Keys !! freed.Keys && p !in live && p !in freed
    requires AllApart((live + freed)[p := b]) && AllLaid((live + freed)[p := b])
    requires forall a :: a in c2 ==> InSome(live[p := b], a)
    ensures Ok(c2, live[p := b], freed)
  {
    var live2 := live[p := b];
    assert live2 + freed == (live + freed)[p := b];
    forall q | q in live2 ensures HeaderOk(c2, q, live2[q].len) && Mapped(c2, q, live2[q]) {
      if q != p { assert HeaderOk(c2, q, live[q].len); }
    }
  }

  lemma KeptSame(c: Cells, c2: Cells, live: Blocks)
    requires Kept(c, c2, live)
    ensures SameBlocks(c, c2, live)
  {
    forall q | q in live ensures SameBlock(c, c2, q, live[q]) {
      assert HeaderOk(c2, q, live[q].len);
    }
  }

  lemma AllocKeeps(c: Cells, live: Blocks, freed: Blocks, p: nat, b: Block)
    requires Ok(c, live, freed) && Fits(live + freed, p, b) && b.len < TWO_32
    ensures p >= 8 && p !in live + freed
    ensures Ok(Allocated(c, p, b), live[p := b], freed)
    ensures SameBlocks(c, Allocated(c, p, b), live)
  {
    FreshAddress(live + freed, p, b);
    NewCells(c, p, b);
    NewBlock(c, p, b);
    AllocCells(c, live, p, b);
    GrowOthers(c, Allocated(c, p, b), live, freed, p, b);
    AllocLayout(live + freed, p, b);
    GrowKeeps(c, Allocated(c, p, b), live, freed, p, b);
    KeptSame(c, Allocated(c, p, b), live);
  }

  lemma StillInSome(live: Blocks, p: nat, b: Block, a: nat)
    requires InSome(live, a) && p !in live
    ensures InSome(live[p := b], a)
  {
    var q :| q in live && InBlock(q, live[q], a);
    assert q in live[p := b] && live[p := b][q] == live[q];
  }

  lemma FreeKeeps(c: Cells, live: Blocks, freed: Blocks, p: nat)
    requires Ok(c, live, freed) && p in live
    ensures Ok(Protected(c, p, live[p]), live - {p}, freed[p := live[p]])
    ensures SameBlocks(c, Protected(c, p, live[p]), live - {p})
  {
    var c2, live2, all := Protected(c, p, live[p]), live - {p}, live + freed;
    assert live2 + freed[p := live[p]] == all;
    forall q | q in live2 ensures SameBlock(c, c2, q, live2[q]) && HeaderOk(c2, q, live2[q].len) && Mapped(c2, q, live2[q]) {
      assert HeaderOk(c, q, live[q].len);
      OthersSame(c, c2, all, p, q);
    }
    forall a | a in c2 ensures InSome(live2, a) {
      var q :| q in live && InBlock(q, live[q], a);
      assert q in live2 && live2[q] == live[q];
    }
  }

  /** Nothing of a freed block can be read, so freeing it again crashes on the canary. */
  lemma FreedIsGone(c: Cells, live: Blocks, freed: Blocks, p: nat, a: nat)
    requires Ok(c, live, freed) && p in freed && (InBlock(p, freed[p], a) || InGuard(p, freed[p], a))
    ensures a !in c
  {
    if a in c {
      var q :| q in live && InBlock(q, live[q], a);
      OneBlock(live + freed, p, q, a);
    }
  }

  /** A live block ends exactly where its guard page starts. */
  lemma GuardPage(c: Cells, live: Blocks, freed: Blocks, p: nat, a: nat)
    requires Ok(c, live, freed) && p in live && InGuard(p, live[p], a)
    ensures (p + live[p].len) % PAGE_SIZE == 0 && a !in c
  {
    assert Laid(p, (live + freed)[p]);
    HeaderFits(p, live[p]);
    if a in c {
      var q :| q in live && InBlock(q, live[q], a);
      OneBlock(live + freed, p, q, a);
    }
  }

  lemma LiveCells(c: Cells, live: Blocks, freed: Blocks, p: nat)
    requires Ok(c, live, freed) && p in live
    ensures p >= 8 && Has(c, p - 8, p + live[p].len) && HeaderOk(c, p, live[p].len) && Laid(p, live[p])
  {
    assert Laid(p, (live + freed)[p]);
    HeaderFits(p, live[p]);
    assert Mapped(c, p, live[p]) && HeaderOk(c, p, live[p].len);
    forall a: nat | p - 8 <= a < p + live[p].len ensures a in c {
      assert InBlock(p, live[p], a);
    }
  }

  lemma WriteCells(c: Cells, p: nat, b: Block, data: Bytes)
    requires Laid(p, b) && HeaderOk(c, p, b.len) && Mapped(c, p, b) && |data| <= b.len
    ensures forall a: nat :: a in c && !InBlock(p, b, a) ==> a in Written(c, p, data) && Written(c, p, data)[a] == c[a]
    ensures HeaderOk(Written(c, p, data), p, b.len) && Mapped(Written(c, p, data), p, b)
  {
    HeaderFits(p, b);
    assert forall a: nat :: p <= a < p + b.len ==> InBlock(p, b, a);
  }

  lemma WriteKeeps(c: Cells, live: Blocks, freed: Blocks, p: nat, data: Bytes)
    requires Ok(c, live, freed) && p in live && |data| <= live[p].len
    ensures Ok(Written(c, p, data), live, freed)
    ensures SameBlocks(c, Written(c, p, data), live - {p})
  {
    var c2, all := Written(c, p, data), live + freed;
    LiveCells(c, live, freed, p);
    WriteCells(c, p, live[p], data);
    forall q | q in live && q != p ensures SameBlock(c, c2, q, live[q]) && HeaderOk(c2, q, live[q].len) && Mapped(c2, q, live[q]) {
      assert HeaderOk(c, q, live[q].len);
      OthersSame(c, c2, all, p, q);
    }
  }

  lemma WrittenContents(c: Cells, p: nat, len: nat, data: Bytes)
    requires Has(c, p, p + len) && |data| <= len
    ensures Has(Written(c, p, data), p, p + len)
    ensures Contents(Written(c, p, data), p, len) == data + Contents(c, p, len)[|data|..]
  {
  }

  lemma SameContents(c: Cells, c2: Cells, p: nat, b: Block)
    requires SameBlock(c, c2, p, b) && Laid(p, b)
    ensures Has(c, p, p + b.len) && Has(c2, p, p + b.len) && Contents(c2, p, b.len) == Contents(c, p, b.len)
  {
    HeaderFits(p, b);
    assert forall a: nat :: p <= a < p + b.len ==> InBlock(p, b, a);
  }

  /** The check of calloc is exact: it passes if and only if the product does not wrap around. */
  lemma OverflowCheck(n: nat, cnt: nat)
    requires n < TWO_64 && cnt < TWO_64
    ensures cnt == 0 || n * cnt % TWO_64 / cnt == n <==> n * cnt < TWO_64
  {
    if cnt == 0 {
      assert n * cnt == 0;
    } else if n * cnt < TWO_64 {
      QuotientOfProduct(n, cnt);
    } else {
      SmallerQuotient(n * cnt % TWO_64, n, cnt);
    }
  }

  lemma QuotientOfProduct(n: nat, cnt: nat)
    requires cnt > 0
    ensures n * cnt / cnt == n
  {
    var m := n * cnt;
    var q, r := m / cnt, m % cnt;
    assert m == q * cnt + r;
    TimesMonotone(q + 1, n, cnt);
    TimesMonotone(n + 1, q, cnt);
    assert (q + 1) * cnt == q * cnt + cnt && (n + 1) * cnt == n * cnt + cnt;
  }

  lemma SmallerQuotient(p: nat, n: nat, cnt: nat)
    requires cnt > 0 && p < n * cnt
    ensures p / cnt < n
  {
    assert p / cnt * cnt <= p;
    TimesMonotone(n, p / cnt, cnt);
  }
}

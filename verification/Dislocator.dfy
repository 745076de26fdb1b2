/** libdislocator's allocation routines, for one thread. */
module Dislocator {
  import opened ByteStrings
  import opened Common
  import opened DislocatorSpec

  /** What an allocation comes to. */
  datatype Outcome = Address(p: nat) | Null | Abort | Fault

  datatype Freeing = Done | Segfault | BadCanary

  /** What the canary test comes to for an address. */
  function Tested(c: Cells, ptr: nat): Freeing {
    if !CanRead32(c, ptr - 4) then Segfault else if Get32(c, ptr - 4) != ALLOC_CANARY then BadCanary else Done
  }

  /** The canary is below an address that is no live block's, so the program has put it there. */
  ghost predicate Forged(c: Cells, live: Blocks, ptr: nat) {
    ptr !in live && Tested(c, ptr) == Done
  }

  function Fill(len: nat, b: Byte): (s: Bytes)
    ensures |s| == len && forall i :: 0 <= i < len ==> s[i] == b
  {
    seq(len, i => b)
  }

  class Allocator {
    const maxMem: nat
    const hardFail: bool
    const noCallocOver: bool
    var totalMem: nat
    var cells: Cells
    ghost var live: Blocks
    ghost var freed: Blocks

    ghost predicate Valid()
      reads this
    {
      maxMem < TWO_32 && Ok(cells, live, freed) && totalMem == Total(live) && totalMem <= maxMem
    }

    constructor (maxMem: nat, hardFail: bool, noCallocOver: bool)
      requires maxMem < TWO_32
      ensures Valid() && live == map[] && freed == map[] && totalMem == 0
      ensures this.maxMem == maxMem && this.hardFail == hardFail && this.noCallocOver == noCallocOver
    {
      this.maxMem, this.hardFail, this.noCallocOver := maxMem, hardFail, noCallocOver;
      totalMem, cells, live, freed := 0, map[], map[], map[];
    }

    /** What mmap promises about the address it gives for the pages of a block, its header and
        the guard page: they are whole pages, none of them at address 0, that no mapping made before has a byte of. */
    ghost predicate MmapGives(at: Option<nat>, len: nat)
      reads this
    {
      at.Some? && totalMem + len <= maxMem ==>
        && at.value > 0 && at.value % 4096 == 0
        && forall q :: q in live + freed ==>
             at.value + 4096 * (1 + (len + 8 + 4095) / 4096) <= (live + freed)[q].base || q + (live + freed)[q].len + 4096 <= at.value
    }

    /** So a block that ends where the guard page starts fits in. */
    lemma MmapFits(at: nat, len: nat)
      requires MmapGives(Some(at), len) && totalMem + len <= maxMem
      ensures Fits(live + freed, Right(at, len), Block(at, len))
    {
      var p, b := Right(at, len), Block(at, len);
      assert p + len == at + 4096 * ((len + 8 + 4095) / 4096);
      forall q | q in live + freed ensures Apart(p, b, q, (live + freed)[q]) {
      }
    }

    /** A live block in bytes: its length and the canary stand below it, low byte first, it ends
        at a page boundary, and the next page cannot be touched. */
    lemma LiveBlock(p: nat)
      requires Valid() && p in live
      ensures p >= 8 && Has(cells, p - 8, p + live[p].len)
      ensures live[p].len == (cells[p - 8] as nat) + 256 * (cells[p - 7] as nat) + 65536 * (cells[p - 6] as nat) + 16777216 * (cells[p - 5] as nat)
      ensures cells[p - 4] == 0xCC && cells[p - 3] == 0xAA && cells[p - 2] == 0xCC && cells[p - 1] == 0xAA
      ensures (p + live[p].len) % 4096 == 0 && forall a: nat :: p + live[p].len <= a < p + live[p].len + 4096 ==> a !in cells
    {
      LiveCells(cells, live, freed, p);
      CanaryBytes(cells[p - 4], cells[p - 3], cells[p - 2], cells[p - 1]);
      HeaderFits(p, live[p]);
      forall a: nat | p + live[p].len <= a < p + live[p].len + 4096 ensures a !in cells {
        GuardPage(cells, live, freed, p, a);
      }
    }

    lemma CanaryBytes(a: Byte, b: Byte, c: Byte, d: Byte)
      requires (a as nat) + 0x100 * (b as nat) + 0x1_0000 * (c as nat) + 0x100_0000 * (d as nat) == ALLOC_CANARY
      ensures a == 0xCC && b == 0xAA && c == 0xCC && d == 0xAA
    {
    }

    /** Of a freed block nothing can be touched, from its mapping's start to the end of its guard page. */
    lemma FreedBlock(p: nat)
      requires Valid() && p in freed
      ensures forall a: nat :: freed[p].base <= a < p + freed[p].len + 4096 ==> a !in cells
    {
      forall a: nat | freed[p].base <= a < p + freed[p].len + 4096 ensures a !in cells {
        FreedIsGone(cells, live, freed, p, a);
      }
    }

    /** Where a block goes in its mapping. */
    function Right(at: nat, len: nat): (p: nat)
    {
      EnoughPages(len);
      at + PAGE_SIZE * PgCount(len + 8) - len - 8 + 8
    }

    lemma EnoughPages(len: nat)
      ensures PAGE_SIZE * PgCount(len + 8) >= len + 8
    {
    }

    /** An allocation of len bytes filled like this succeeds exactly when it fits the limit and mmap works. */
    twostate predicate Allocates(len: nat, at: Option<nat>, fill: Byte, r: Outcome)
      reads this
    {
      if old(totalMem) + len > maxMem || at.None? then
        && r == (if hardFail then Abort else Null)
        && cells == old(cells) && live == old(live) && freed == old(freed) && totalMem == old(totalMem)
      else
        var p, b := Right(at.value, len), Block(at.value, len);
        && r == Address(p) && p !in old(live) && p !in old(freed)
        && live == old(live)[p := b] && freed == old(freed) && totalMem == old(totalMem) + len
        && SameBlocks(old(cells), cells, old(live))
        && Has(cells, p, p + len) && Contents(cells, p, len) == Fill(len, fill)
    }

    /** __dislocator_alloc; at is what mmap answers. */
    method DislocatorAlloc(len: nat, at: Option<nat>) returns (r: Outcome)
      requires Valid() && len < TWO_64 && MmapGives(at, len)
      modifies this
      ensures Valid() && Allocates(len, at, 0, r)
    {
      var sum := (totalMem + len) % TWO_64;
      if sum > maxMem || sum < totalMem { return if hardFail then Abort else Null; }
      if at.None? { return if hardFail then Abort else Null; }
      var ret := Right(at.value, len);
      MmapFits(at.value, len);
      ghost var b := Block(at.value, len);
      AllocKeeps(cells, live, freed, ret, b);
      NewContents(cells, ret, b);
      TotalWith(live, ret, b);
      cells := Allocated(cells, ret, Block(at.value, len));
      live := live[ret := b];
      totalMem := totalMem + len;
      r := Address(ret);
    }

    /** calloc: fails on a product that wraps around, and zeroes the block. */
    method Calloc(elemLen: nat, elemCnt: nat, at: Option<nat>) returns (r: Outcome)
      requires Valid() && elemLen < TWO_64 && elemCnt < TWO_64
      requires elemLen * elemCnt < TWO_64 ==> MmapGives(at, elemLen * elemCnt)
      modifies this
      ensures Valid()
      ensures elemLen * elemCnt >= 0x1_0000_0000_0000_0000 ==>
                && r == (if noCallocOver then Null else Abort)
                && cells == old(cells) && live == old(live) && freed == old(freed) && totalMem == old(totalMem)
      ensures elemLen * elemCnt < 0x1_0000_0000_0000_0000 ==> Allocates(elemLen * elemCnt, at, 0, r)
    {
      var len, wraps := Multiply(elemLen, elemCnt);
      if wraps {
        return if noCallocOver then Null else Abort;
      }
      r := DislocatorAlloc(len, at);
    }

    /** malloc: the same, but the block is clobbered. */
    method Malloc(len: nat, at: Option<nat>) returns (r: Outcome)
      requires Valid() && len < TWO_64 && MmapGives(at, len)
      modifies this
      ensures Valid() && Allocates(len, at, 0xCC, r)
    {
      r := DislocatorAlloc(len, at);
      if r.Address? && len != 0 {
        ghost var c := cells;
        MemSet(r.p, ALLOC_CLOBBER, len);
        assert live - {r.p} == old(live);
        SameBlocksStill(old(cells), c, cells, old(live));
      }
    }

    /** memset on a whole block. */
    method MemSet(p: nat, b: Byte, len: nat)
      requires Valid() && p in live && len == live[p].len
      modifies `cells
      ensures Valid() && SameBlocks(old(cells), cells, live - {p})
      ensures Has(cells, p, p + len) && Contents(cells, p, len) == Fill(len, b)
    {
      var data := Fill(len, b);
      LiveCells(cells, live, freed, p);
      WriteKeeps(cells, live, freed, p, data);
      WrittenContents(cells, p, len, data);
      cells := Written(cells, p, data);
    }

    /** free: everything of the block becomes unusable, for good.  An address that is no live
        block's is caught by the canary test, unless the program itself wrote a canary there. */
    method Free(ptr: nat) returns (r: Freeing)
      requires Valid() && (ptr == 0 || !Forged(cells, live, ptr))
      modifies this
      ensures Valid()
      ensures ptr == 0 || ptr !in old(live) ==> cells == old(cells) && live == old(live) && freed == old(freed) && totalMem == old(totalMem)
      ensures ptr == 0 ==> r == Done
      ensures ptr != 0 && ptr !in old(live) ==> r == Tested(old(cells), ptr) != Done
      ensures ptr != 0 && ptr in old(freed) ==> r == Segfault
      ensures ptr != 0 && ptr in old(live) ==>
                && r == Done && live == old(live) - {ptr} && freed == old(freed)[ptr := old(live)[ptr]]
                && totalMem == old(totalMem) - old(live)[ptr].len
                && SameBlocks(old(cells), cells, live)
    {
      if ptr == 0 { return Done; }
      if ptr in live || ptr in freed { FreeReads(cells, live, freed, ptr); }
      if !CanRead32(cells, ptr - 4) { return Segfault; }
      if Get32(cells, ptr - 4) != ALLOC_CANARY { return BadCanary; }
      Release(ptr, Get32(cells, ptr - 8));
      r := Done;
    }

    method Release(ptr: nat, len: nat)
      requires Valid() && ptr in live && len == live[ptr].len && live[ptr].base == ptr - (PAGE_SIZE * PgCount(len + 8) - len - 8) - 8
      modifies this
      ensures Valid() && live == old(live) - {ptr} && freed == old(freed)[ptr := old(live)[ptr]]
      ensures totalMem == old(totalMem) - len && SameBlocks(old(cells), cells, live)
    {
      hide Ok;
      ghost var b := live[ptr];
      TotalWithout(live, ptr);
      FreeKeeps(cells, live, freed, ptr);
      totalMem := totalMem - len;
      var base := ptr - (PAGE_SIZE * PgCount(len + 8) - len - 8) - 8;
      cells := Protected(cells, ptr, Block(base, len));
      live, freed := live - {ptr}, freed[ptr := b];
    }

    /** Where the new block goes, there is nothing of the canary for ptr. */
    ghost predicate AwayFromNew(ptr: nat, at: Option<nat>, len: nat)
      reads this
    {
      at.Some? ==> forall a: nat :: InBlock(Right(at.value, len), Block(at.value, len), a) ==> !(ptr - 4 <= a < ptr)
    }

    /** realloc: always a new block; what the old one held is copied as far as it fits.  An
        address that is no live block's is caught by the canary test, but only when the new
        block is there. */
    method Realloc(ptr: nat, len: nat, at: Option<nat>) returns (r: Outcome)
      requires Valid() && len < TWO_64 && MmapGives(at, len)
      requires ptr == 0 || ptr in live || ptr in freed || (!Forged(cells, live, ptr) && AwayFromNew(ptr, at, len))
      modifies this
      ensures Valid()
      ensures ptr == 0 || old(totalMem) + len > maxMem || at.None? ==> Allocates(len, at, 0xCC, r)
      ensures ptr != 0 && ptr !in old(live) && old(totalMem) + len <= maxMem && at.Some? ==>
                && Allocates(len, at, 0xCC, Address(Right(at.value, len)))
                && r == if Tested(old(cells), ptr) == Segfault then Fault else Abort
      ensures ptr != 0 && ptr in old(freed) && old(totalMem) + len <= maxMem && at.Some? ==> r == Fault
      ensures ptr in old(live) && old(totalMem) + len <= maxMem && at.Some? ==>
                && r == Address(Right(at.value, len)) && r.p !in old(freed)
                && Moved(old(cells), old(live), cells, live, ptr, r.p, Block(at.value, len))
                && freed == old(freed)[ptr := old(live)[ptr]] && totalMem == old(totalMem) + len - old(live)[ptr].len
    {
      ghost var c0, live0 := cells, live;
      if ptr in live { LiveCells(cells, live, freed, ptr); }
      r := Malloc(len, at);
      if !r.Address? || ptr == 0 {
        return;
      }
      CanaryBelow(c0, cells, live0, live, freed, ptr, r.p, Block(at.value, len));
      if !CanRead32(cells, ptr - 4) { return Fault; }
      if Get32(cells, ptr - 4) != ALLOC_CANARY { return Abort; }
      FinishRealloc(ptr, r.p, len, c0, live0);
    }

    method FinishRealloc(ptr: nat, p: nat, len: nat, ghost c0: Cells, ghost live0: Blocks)
      requires Valid() && ptr in live0 && Laid(ptr, live0[ptr]) && p !in live0 && p in live && live[p].len == len
      requires live == live0[p := live[p]] && SameBlocks(c0, cells, live0)
      modifies this
      ensures Valid() && Moved(c0, live0, cells, live, ptr, p, old(live)[p])
      ensures freed == old(freed)[ptr := live0[ptr]] && totalMem == old(totalMem) - live0[ptr].len
    {
      ghost var c1, b := cells, live[p];
      ghost var live1 := live;
      MoveBlock(ptr, p, len);
      MoveAdds(c0, c1, cells, live0, live1, ptr, p, b);
    }

    /** The rest of realloc, once block p is there. */
    method MoveBlock(ptr: nat, p: nat, len: nat)
      requires Valid() && ptr in live && p in live && p != ptr && live[p].len == len
      modifies this
      ensures Valid() && live == old(live) - {ptr} && freed == old(freed)[ptr := old(live)[ptr]]
      ensures totalMem == old(totalMem) - old(live)[ptr].len
      ensures SameBlocks(old(cells), cells, live - {p})
      ensures old(Has(cells, ptr, ptr + live[ptr].len)) && Has(cells, p, p + len)
      ensures var m := Min(len, old(live)[ptr].len);
              Contents(cells, p, len)[..m] == old(Contents(cells, ptr, live[ptr].len))[..m]
    {
      ghost var c0, live0 := cells, live;
      LiveCells(cells, live, freed, ptr);
      assert Get32(cells, ptr - 4) == ALLOC_CANARY;
      CopyInto(p, ptr, Min(len, Get32(cells, ptr - 8)));
      ghost var c1 := cells;
      var f := Free(ptr);
      LiveCells(c1, live0, old(freed), p);
      FreedAfter(c0, c1, cells, live0, ptr, p);
    }

    /** memcpy of the first n bytes of a block into another block. */
    method CopyInto(p: nat, ptr: nat, n: nat)
      requires Valid() && p in live && ptr in live && p != ptr && n <= live[p].len && n <= live[ptr].len
      modifies `cells
      ensures Valid() && SameBlocks(old(cells), cells, live - {p})
      ensures old(Has(cells, ptr, ptr + live[ptr].len)) && Has(cells, p, p + live[p].len)
      ensures Contents(cells, p, live[p].len)[..n] == old(Contents(cells, ptr, live[ptr].len))[..n]
    {
      LiveCells(cells, live, freed, p);
      LiveCells(cells, live, freed, ptr);
      var data := Contents(cells, ptr, n);
      WriteKeeps(cells, live, freed, p, data);
      WrittenContents(cells, p, live[p].len, data);
      assert data == Contents(cells, ptr, live[ptr].len)[..n];
      cells := Written(cells, p, data);
    }
  }

  /** Block ptr became block p, with as much of its contents as fits, and no other block changed. */
  ghost predicate Moved(c0: Cells, live0: Blocks, c: Cells, live: Blocks, ptr: nat, p: nat, b: Block) {
    && ptr in live0 && p !in live0 && live == (live0 - {ptr})[p := b]
    && SameBlocks(c0, c, live0 - {ptr})
    && Has(c0, ptr, ptr + live0[ptr].len) && Has(c, p, p + b.len)
    && forall i :: 0 <= i < b.len && i < live0[ptr].len ==> Contents(c, p, b.len)[i] == Contents(c0, ptr, live0[ptr].len)[i]
  }

  function Min(a: nat, b: nat): nat { if a < b then a else b }

  /** The product as the machine computes it, and whether the check takes it for wrapped around. */
  method Multiply(n: nat, cnt: nat) returns (len: nat, wraps: bool)
    requires n < TWO_64 && cnt < TWO_64
    ensures wraps <==> n * cnt >= TWO_64
    ensures !wraps ==> len == n * cnt
  {
    len := n * cnt % TWO_64;
    OverflowCheck(n, cnt);
    wraps := cnt != 0 && len / cnt != n;
  }

  lemma FreedAfter(c0: Cells, c1: Cells, c2: Cells, live: Blocks, ptr: nat, p: nat)
    requires ptr in live && p in live && p != ptr && Laid(p, live[p])
    requires SameBlocks(c0, c1, live - {p}) && SameBlocks(c1, c2, live - {ptr})
    ensures SameBlocks(c0, c2, live - {ptr} - {p})
    ensures Has(c1, p, p + live[p].len) && Has(c2, p, p + live[p].len)
    ensures Contents(c2, p, live[p].len) == Contents(c1, p, live[p].len)
  {
    forall q | q in live - {ptr} - {p} ensures SameBlock(c0, c2, q, live[q]) {
      assert q in live - {p} && q in live - {ptr};
      assert (live - {p})[q] == live[q] && (live - {ptr})[q] == live[q];
      assert SameBlock(c0, c1, q, live[q]) && SameBlock(c1, c2, q, live[q]);
    }
    assert p in live - {ptr} && (live - {ptr})[p] == live[p];
    SameContents(c1, c2, p, live[p]);
  }

  lemma MoveAdds(c0: Cells, c1: Cells, c2: Cells, live0: Blocks, live1: Blocks, ptr: nat, p: nat, b: Block)
    requires ptr in live0 && p !in live0 && Laid(ptr, live0[ptr]) && live1 == live0[p := b]
    requires SameBlocks(c0, c1, live0) && SameBlocks(c1, c2, live1 - {ptr} - {p})
    requires Has(c1, ptr, ptr + live0[ptr].len) && Has(c2, p, p + b.len)
    requires var m := Min(b.len, live0[ptr].len);
             Contents(c2, p, b.len)[..m] == Contents(c1, ptr, live0[ptr].len)[..m]
    ensures Moved(c0, live0, c2, live1 - {ptr}, ptr, p, b)
  {
    assert live1 - {ptr} - {p} == live0 - {ptr};
    assert live1 - {ptr} == (live0 - {ptr})[p := b];
    SameContents(c0, c1, ptr, live0[ptr]);
    var m := Min(b.len, live0[ptr].len);
    forall i | 0 <= i < b.len && i < live0[ptr].len ensures Contents(c2, p, b.len)[i] == Contents(c0, ptr, live0[ptr].len)[i] {
      assert Contents(c2, p, b.len)[..m][i] == Contents(c1, ptr, live0[ptr].len)[..m][i];
    }
    forall q | q in live0 - {ptr} ensures SameBlock(c0, c2, q, live0[q]) {
      assert (live0 - {ptr})[q] == live0[q];
      assert SameBlock(c0, c1, q, live0[q]) && SameBlock(c1, c2, q, live0[q]);
    }
  }

  lemma SameBlocksStill(c: Cells, c2: Cells, c3: Cells, blocks: Blocks)
    requires SameBlocks(c, c2, blocks) && SameBlocks(c2, c3, blocks)
    ensures SameBlocks(c, c3, blocks)
  {
    forall q | q in blocks ensures SameBlock(c, c3, q, blocks[q]) {
      assert SameBlock(c, c2, q, blocks[q]) && SameBlock(c2, c3, q, blocks[q]);
    }
  }

  predicate CanRead32(c: Cells, a: int) {
    a >= 0 && a in c && a + 1 in c && a + 2 in c && a + 3 in c
  }

  /** What free finds below a block that is live, and below one that is not any more; and
      where the mapping starts follows from the address and the length. */
  lemma FreeReads(c: Cells, live: Blocks, freed: Blocks, p: nat)
    requires Ok(c, live, freed) && (p in live || p in freed)
    ensures p in live <==> CanRead32(c, p - 4)
    ensures p in live ==> HeaderOk(c, p, live[p].len) && live[p].base == p - (PAGE_SIZE * PgCount(live[p].len + 8) - live[p].len - 8) - 8
  {
    if p in live {
      LiveCells(c, live, freed, p);
    } else {
      assert Laid(p, (live + freed)[p]);
      HeaderFits(p, freed[p]);
      FreedIsGone(c, live, freed, p, p - 4);
    }
  }

  /** After a new block was made, the canary test of another address comes out as before. */
  lemma CanaryBelow(c: Cells, c2: Cells, live: Blocks, live2: Blocks, freed: Blocks, ptr: nat, p: nat, b: Block)
    requires Ok(c, live, freed) && Ok(c2, live2, freed) && live2 == live[p := b] && p !in live && p !in freed
    requires SameBlocks(c, c2, live) && ptr > 0
    requires ptr in live || ptr in freed || forall a: nat :: InBlock(p, b, a) ==> !(ptr - 4 <= a < ptr)
    ensures ptr in live ==> Tested(c2, ptr) == Done
    ensures ptr in freed ==> Tested(c, ptr) == Segfault
    ensures ptr !in live ==> Tested(c2, ptr) == Tested(c, ptr)
  {
    if ptr in live {
      LiveCells(c2, live2, freed, ptr);
    } else if ptr in freed {
      FreeReads(c, live, freed, ptr);
      FreeReads(c2, live2, freed, ptr);
    } else {
      forall a: nat | ptr - 4 <= a < ptr ensures a in c <==> a in c2
      ensures a in c ==> c2[a] == c[a]
      {
        SameBelow(c, c2, live, live2, freed, p, b, a);
      }
    }
  }

  /** A byte outside the new block's mapping is as it was. */
  lemma SameBelow(c: Cells, c2: Cells, live: Blocks, live2: Blocks, freed: Blocks, p: nat, b: Block, a: nat)
    requires Ok(c, live, freed) && Ok(c2, live2, freed) && live2 == live[p := b] && p !in live
    requires SameBlocks(c, c2, live) && !InBlock(p, b, a)
    ensures a in c <==> a in c2
    ensures a in c ==> c2[a] == c[a]
  {
    if a in c {
      var q :| q in live && InBlock(q, live[q], a);
      assert SameBlock(c, c2, q, live[q]);
    }
    if a in c2 {
      var q :| q in live2 && InBlock(q, live2[q], a);
      assert q in live && SameBlock(c, c2, q, live[q]);
    }
  }

  lemma NewContents(c: Cells, p: nat, b: Block)
    requires Laid(p, b)
    ensures p >= 8 && Has(Allocated(c, p, b), p, p + b.len)
    ensures Contents(Allocated(c, p, b), p, b.len) == Fill(b.len, 0)
  {
    NewCells(c, p, b);
    HeaderFits(p, b);
    assert forall a: nat :: p <= a < p + b.len ==> InBlock(p, b, a);
  }
}

/** kmalloc, kfree and the DMA pool over the headers in memory (kernel/MEMORY.C). */
module Heap {
  import opened HeapSpec
  import opened HeapRoom

  datatype Header = Header(next: nat, para: nat, inuse: bool)

  type Memory = map<nat, Header>

  // ----- headers in memory

  ghost predicate At(mem: Memory, bs: Blocks, nul: nat, i: nat)
    requires i < |bs|
  {
    && bs[i].addr != nul && bs[i].addr in mem
    && mem[bs[i].addr] == Header(if i + 1 < |bs| then bs[i+1].addr else nul, bs[i].para, bs[i].inuse)
  }

  ghost predicate Apart(bs: Blocks) {
    forall i, j :: 0 <= i < j < |bs| ==> bs[i].addr != bs[j].addr
  }

  /** The headers that chain up the blocks, from the first on; behind the last one
      comes `nul`.  Other addresses may hold anything. */
  ghost predicate Chained(mem: Memory, bs: Blocks, nul: nat) {
    Apart(bs) && forall i :: 0 <= i < |bs| ==> At(mem, bs, nul, i)
  }

  /** Entry i of the new list is entry j of the old one, at an address that was
      not written. */
  lemma {:induction false} Moved(mem: Memory, bs: Blocks, now: Memory, r: Blocks, nul: nat, i: nat, j: nat)
    requires i < |r| && j < |bs| && r[i] == bs[j] && At(mem, bs, nul, j)
    requires bs[j].addr in now && now[bs[j].addr] == mem[bs[j].addr]
    requires (i + 1 < |r|) == (j + 1 < |bs|) && (i + 1 < |r| ==> r[i+1].addr == bs[j+1].addr)
    ensures At(now, r, nul, i)
  {
  }

  lemma {:induction false} FlagChained(mem: Memory, bs: Blocks, nul: nat, k: nat, inuse: bool)
    requires Chained(mem, bs, nul) && k < |bs|
    ensures bs[k].addr in mem
    ensures Chained(mem[bs[k].addr := mem[bs[k].addr].(inuse := inuse)], bs[k := bs[k].(inuse := inuse)], nul)
  {
    assert At(mem, bs, nul, k);
    var r := bs[k := bs[k].(inuse := inuse)];
    var now := mem[bs[k].addr := mem[bs[k].addr].(inuse := inuse)];
    forall i | 0 <= i < |r| ensures At(now, r, nul, i) {
      assert At(mem, bs, nul, i);
    }
  }

  /** A block split in two: the second header lies in what was the first block. */
  lemma {:induction false} SplitChained(mem: Memory, bs: Blocks, nul: nat, k: nat, b: Block, c: Block)
    requires Chained(mem, bs, nul) && k < |bs| && b.addr == bs[k].addr && c.addr != nul
    requires forall i :: 0 <= i < |bs| ==> bs[i].addr != c.addr
    ensures b.addr in mem
    ensures Chained(mem[c.addr := Header(mem[b.addr].next, c.para, c.inuse)][b.addr := Header(c.addr, b.para, b.inuse)],
                    bs[..k] + [b, c] + bs[k+1..], nul)
  {
    assert At(mem, bs, nul, k);
    var now := mem[c.addr := Header(mem[b.addr].next, c.para, c.inuse)][b.addr := Header(c.addr, b.para, b.inuse)];
    var r := bs[..k] + [b, c] + bs[k+1..];
    hide Apart;
    forall i | 0 <= i < |r| ensures At(now, r, nul, i) {
      if i < k {
        ApartAt(bs, i, k);
        assert At(mem, bs, nul, i);
        Moved(mem, bs, now, r, nul, i, i);
      } else if i > k + 1 {
        ApartAt(bs, k, i - 1);
        assert At(mem, bs, nul, i - 1);
        Moved(mem, bs, now, r, nul, i, i - 1);
      }
    }
    SplitApart(bs, k, b, c);
  }

  lemma {:induction false} ApartAt(bs: Blocks, i: nat, j: nat)
    requires Apart(bs) && i < j < |bs|
    ensures bs[i].addr != bs[j].addr
  {
  }

  lemma {:induction false} SplitApart(bs: Blocks, k: nat, b: Block, c: Block)
    requires Apart(bs) && k < |bs| && b.addr == bs[k].addr && forall i :: 0 <= i < |bs| ==> bs[i].addr != c.addr
    ensures Apart(bs[..k] + [b, c] + bs[k+1..])
  {
    var r := bs[..k] + [b, c] + bs[k+1..];
    forall i, j | 0 <= i < j < |r| ensures r[i].addr != r[j].addr {
      assert i != k + 1 ==> r[i].addr == bs[if i <= k then i else i - 1].addr;
      assert j != k + 1 ==> r[j].addr == bs[if j <= k then j else j - 1].addr;
    }
  }

  /** A block joined with the one behind it. */
  lemma {:induction false} JoinedChained(mem: Memory, bs: Blocks, nul: nat, k: nat)
    requires Chained(mem, bs, nul) && k + 1 < |bs|
    ensures bs[k].addr in mem && bs[k+1].addr in mem
    ensures var h, n := mem[bs[k].addr], mem[bs[k+1].addr];
      Chained(mem[bs[k].addr := Header(n.next, h.para + 1 + n.para, h.inuse)], Joined(bs, k), nul)
  {
    assert At(mem, bs, nul, k) && At(mem, bs, nul, k + 1);
    var r, h, n := Joined(bs, k), mem[bs[k].addr], mem[bs[k+1].addr];
    var now := mem[bs[k].addr := Header(n.next, h.para + 1 + n.para, h.inuse)];
    hide Apart;
    forall i | 0 <= i < |r| ensures At(now, r, nul, i) {
      if i < k {
        ApartAt(bs, i, k);
        assert At(mem, bs, nul, i);
        Moved(mem, bs, now, r, nul, i, i);
      } else if i > k {
        ApartAt(bs, k, i + 1);
        assert At(mem, bs, nul, i + 1);
        Moved(mem, bs, now, r, nul, i, i + 1);
      }
    }
    JoinedApart(bs, k);
  }

  lemma {:induction false} JoinedApart(bs: Blocks, k: nat)
    requires Apart(bs) && k + 1 < |bs|
    ensures Apart(Joined(bs, k))
  {
    var r := Joined(bs, k);
    forall i, j | 0 <= i < j < |r| ensures r[i].addr != r[j].addr {
      assert r[i].addr == bs[if i <= k then i else i + 1].addr;
      assert r[j].addr == bs[if j <= k then j else j + 1].addr;
    }
  }

  /** Different blocks have different addresses, and none is `nul`. */
  lemma {:induction false} Addresses(p: Pool, bs: Blocks, nul: nat)
    requires Tiles(p, bs) && (nul < p.base || p.End() <= nul)
    ensures forall i, j :: 0 <= i < j < |bs| ==> bs[i].addr != bs[j].addr
    ensures forall i :: 0 <= i < |bs| ==> p.base <= bs[i].addr < p.End() && bs[i].addr != nul
  {
    forall i | 0 <= i < |bs| ensures p.base <= bs[i].addr < p.End() {
      Inside(p, bs, i);
    }
    forall i, j | 0 <= i < j < |bs| ensures bs[i].addr != bs[j].addr {
      Ordered(p, bs, i, j);
    }
  }

  /** The second header of a split lies strictly inside the block. */
  lemma {:induction false} SplitInside(p: Pool, bs: Blocks, k: nat, sz: nat)
    requires Tiles(p, bs) && k < |bs| && bs[k].para > sz + 1
    ensures var a := bs[k].addr + p.Step(sz + 1);
      && bs[k].addr < a < p.Behind(bs[k]) <= p.End() && forall i :: 0 <= i < |bs| ==> bs[i].addr != a
  {
    var a := bs[k].addr + p.Step(sz + 1);
    forall i | 0 <= i < |bs| ensures bs[i].addr != a {
      if i != k {
        Disjoint(p, bs, i, k);
      }
    }
    Inside(p, bs, k);
  }

  /** No block has address n. */
  ghost predicate New(bs: Blocks, n: nat, nul: nat) {
    n != nul && forall i :: 0 <= i < |bs| ==> bs[i].addr != n
  }

  ghost function SplitAt(bs: Blocks, k: nat, sz: nat, n: nat): Blocks
    requires k < |bs| && bs[k].para > sz + 1
  {
    bs[..k] + [Block(bs[k].addr, sz, bs[k].inuse), Block(n, bs[k].para - 1 - sz, false)] + bs[k+1..]
  }

  lemma {:induction false} TakenIs(p: Pool, bs: Blocks, k: nat, sz: nat)
    requires k < |bs|
    ensures var marked := bs[k := bs[k].(inuse := true)];
      Taken(p, bs, k, sz) == if bs[k].para > sz + 1 then SplitAt(marked, k, sz, bs[k].addr + p.Step(sz + 1)) else marked
  {
  }

  lemma {:induction false} SetHeader(mem: Memory, bs: Blocks, nul: nat, k: nat)
    requires Chained(mem, bs, nul) && k < |bs|
    ensures bs[k].addr in mem && bs[k].addr != nul
    ensures mem[bs[k].addr] == Header(if k + 1 < |bs| then bs[k+1].addr else nul, bs[k].para, bs[k].inuse)
  {
    assert At(mem, bs, nul, k);
  }

  class Arena {
    const p: Pool
    const nul: nat
    var mem: Memory
    ghost var bs: Blocks

    ghost predicate Valid()
      reads this
    {
      (nul < p.base || p.End() <= nul) && Inv(p, bs) && Chained(mem, bs, nul)
    }

    /** `mem_init` for one pool. */
    constructor (base: nat, total: nat, dma: bool, nul: nat, mem: Memory)
      requires 1 <= total && (nul < base || Pool(base, total, dma).End() <= nul)
      ensures Valid() && p == Pool(base, total, dma) && this.nul == nul && bs == Initial(p)
    {
      p := Pool(base, total, dma);
      this.nul := nul;
      this.mem := mem[base := Header(nul, total - 1, false)];
      bs := [Block(base, total - 1, false)];
    }

    /** The header of block k, and where the list begins. */
    lemma {:induction false} HeaderAt(k: nat)
      requires Valid() && k <= |bs|
      ensures bs != [] && p.base == bs[0].addr
      ensures k < |bs| ==> bs[k].addr != nul && bs[k].addr in mem
      ensures k < |bs| ==>
        mem[bs[k].addr] == Header(if k + 1 < |bs| then bs[k+1].addr else nul, bs[k].para, bs[k].inuse)
    {
      assert k < |bs| ==> At(mem, bs, nul, k);
    }

    /** The search for the first free block that fits. */
    method FindFit(sz: nat) returns (b: nat, ghost k: nat)
      requires Valid()
      ensures k == FirstFit(bs, sz, 0) && b == if k < |bs| then bs[k].addr else nul
      ensures b == nul <==> k == |bs|
    {
      hide Valid;
      HeaderAt(0);
      b, k := p.base, 0;
      while b != nul
        invariant k <= |bs| && b == (if k < |bs| then bs[k].addr else nul)
        invariant FirstFit(bs, sz, 0) == FirstFit(bs, sz, k)
        decreases |bs| - k
      {
        HeaderAt(k);
        if !mem[b].inuse {
          if mem[b].para >= sz {
            return;
          }
        }
        b, k := mem[b].next, k + 1;
      }
      HeaderAt(k);
    }

    /** Allocating sz paragraphs: the address of the header, or `nul`. */
    method Take(sz: nat) returns (b: nat)
      requires Valid()
      modifies this
      ensures Valid() && Alloc(p, old(bs), sz).1 == bs
      ensures var k := Alloc(p, old(bs), sz).0; b == if k < |old(bs)| then old(bs)[k].addr else nul
    {
      ghost var k;
      b, k := FindFit(sz);
      AllocKeeps(p, bs, sz);
      hide Inv, Chained, FirstFit, Taken;
      if b != nul {
        TakeAt(b, sz, k);
      }
    }

    /** Block k marked in use and split if it is larger than need be. */
    method TakeAt(b: nat, sz: nat, ghost k: nat)
      requires Valid() && k < |bs| && b == bs[k].addr
      modifies this
      ensures Chained(mem, bs, nul) && bs == Taken(p, old(bs), k, sz)
    {
      ghost var marked := bs[k := bs[k].(inuse := true)];
      TakenIs(p, bs, k, sz);
      SplitFits(sz, k);
      hide *;
      SetFlag(b, true, k);
      assert bs == marked && marked[k].para == old(bs)[k].para;
      SplitIfLarge(b, sz, k);
    }

    method SplitIfLarge(b: nat, sz: nat, ghost k: nat)
      requires Chained(mem, bs, nul) && k < |bs| && b == bs[k].addr
      requires bs[k].para > sz + 1 ==> New(bs, b + p.Step(sz + 1), nul)
      modifies this
      ensures Chained(mem, bs, nul)
      ensures bs == if old(bs)[k].para > sz + 1 then SplitAt(old(bs), k, sz, b + p.Step(sz + 1)) else old(bs)
    {
      SetHeader(mem, bs, nul, k);
      hide *;
      if mem[b].para > sz + 1 {
        Split(b, sz, b + p.Step(sz + 1), k);
      }
    }

    lemma {:induction false} SplitFits(sz: nat, k: nat)
      requires Valid() && k < |bs|
      ensures bs[k].para > sz + 1 ==> New(bs[k := bs[k].(inuse := true)], bs[k].addr + p.Step(sz + 1), nul)
    {
      if bs[k].para > sz + 1 {
        SplitInside(p, bs, k, sz);
        Addresses(p, bs, nul);
      }
    }

    method SetFlag(b: nat, inuse: bool, ghost k: nat)
      requires Chained(mem, bs, nul) && k < |bs| && b == bs[k].addr
      modifies this
      ensures Chained(mem, bs, nul) && bs == old(bs)[k := old(bs)[k].(inuse := inuse)]
    {
      assert At(mem, bs, nul, k);
      FlagChained(mem, bs, nul, k, inuse);
      mem := mem[b := mem[b].(inuse := inuse)];
      bs := bs[k := bs[k].(inuse := inuse)];
    }

    method Split(b: nat, sz: nat, n: nat, ghost k: nat)
      requires Chained(mem, bs, nul) && k < |bs| && b == bs[k].addr && bs[k].para > sz + 1 && New(bs, n, nul)
      modifies this
      ensures Chained(mem, bs, nul) && bs == SplitAt(old(bs), k, sz, n)
    {
      assert At(mem, bs, nul, k);
      ghost var c, d := Block(b, sz, bs[k].inuse), Block(n, bs[k].para - 1 - sz, false);
      SplitChained(mem, bs, nul, k, c, d);
      mem := mem[n := Header(mem[b].next, mem[b].para - 1 - sz, false)];
      mem := mem[b := Header(n, sz, mem[b].inuse)];
      bs := bs[..k] + [c, d] + bs[k+1..];
    }

    // ----- freeing

    /** The search for a header at address a and the one before it. */
    method FindBlock(a: nat) returns (prev: nat, b: nat, ghost k: nat)
      requires Valid()
      ensures k == Find(bs, a, 0) && b == (if k < |bs| then a else nul)
      ensures b != nul ==> prev == if k > 0 then bs[k-1].addr else nul
      ensures b == nul <==> k == |bs|
    {
      hide Valid;
      HeaderAt(0);
      prev, b, k := nul, p.base, 0;
      while b != nul
        invariant k <= |bs| && b == (if k < |bs| then bs[k].addr else nul)
        invariant prev == if k > 0 then bs[k-1].addr else nul
        invariant Find(bs, a, 0) == Find(bs, a, k)
        decreases |bs| - k
      {
        HeaderAt(k);
        if b == a {
          return;
        }
        prev := b;
        b, k := mem[b].next, k + 1;
      }
      HeaderAt(k);
    }

    /** Freeing the block with its header at address a; no such block is a panic. */
    method Release(a: nat) returns (panic: bool)
      requires Valid()
      modifies this
      ensures Valid() && bs == Do(p, old(bs), Free(a)) && (panic <==> Find(old(bs), a, 0) == |old(bs)|)
    {
      var prev, b;
      ghost var k;
      prev, b, k := FindBlock(a);
      panic := b == nul;
      if !panic {
        FreedKeeps(p, bs, k);
        hide Inv;
        ReleaseAt(prev, b, k);
      }
    }

    method ReleaseAt(prev: nat, b: nat, ghost k: nat)
      requires Chained(mem, bs, nul) && k < |bs| && b == bs[k].addr && prev == if k > 0 then bs[k-1].addr else nul
      modifies this
      ensures Chained(mem, bs, nul) && bs == FreedAt(old(bs), k)
    {
      assert At(mem, bs, nul, k) && (k > 0 ==> At(mem, bs, nul, k - 1));
      var curr := b;
      ghost var k1 := k;
      if prev != nul {
        if !mem[prev].inuse {
          Join(prev, b, k - 1);
          curr, k1 := prev, k - 1;
        }
      }
      assert At(mem, bs, nul, k1) && (k1 + 1 < |bs| ==> At(mem, bs, nul, k1 + 1));
      var next := mem[curr].next;
      if next != nul {
        if !mem[next].inuse {
          Join(curr, next, k1);
        }
      }
      SetFlag(curr, false, k1);
    }

    /** The header at b takes in the one behind it, at n. */
    method Join(b: nat, n: nat, ghost k: nat)
      requires Chained(mem, bs, nul) && k + 1 < |bs| && b == bs[k].addr && n == bs[k+1].addr
      modifies this
      ensures Chained(mem, bs, nul) && bs == Joined(old(bs), k)
    {
      assert At(mem, bs, nul, k) && At(mem, bs, nul, k + 1);
      JoinedChained(mem, bs, nul, k);
      mem := mem[b := Header(mem[n].next, mem[b].para + 1 + mem[n].para, mem[b].inuse)];
      bs := Joined(bs, k);
    }
  }

  // ----- the two pools

  const PARASIZE: nat := 16
  const DMA_START: nat := 0x50
  const DMANULL: nat := 0xffff

  /** `ROUND_TO_PARA`. */
  function Paras(size: nat): nat { (size + PARASIZE - 1) / PARASIZE }

  lemma {:induction false} ParasFit(size: nat, para: nat)
    ensures Paras(size) <= para <==> size <= 16 * para
  {
  }

  /** A free block has room for size bytes. */
  ghost predicate RoomFor(bs: Blocks, size: nat) {
    exists i :: 0 <= i < |bs| && !bs[i].inuse && size <= 16 * bs[i].para
  }

  lemma {:induction false} FitIsRoom(bs: Blocks, size: nat)
    ensures FirstFit(bs, Paras(size), 0) < |bs| <==> RoomFor(bs, size)
  {
    hide Paras;
    forall i | 0 <= i < |bs| ensures Paras(size) <= bs[i].para <==> size <= 16 * bs[i].para {
      ParasFit(size, bs[i].para);
    }
  }

  /** The far heap: addresses are segments, and segment 0 ends the list. */
  ghost predicate FarHeap(a: Arena) {
    a.nul == 0 && !a.p.dma && 0 < a.p.base && a.p.total <= 0xffff && a.p.End() <= 0x10000
  }

  /** `kmalloc`: a linear address, or 0 exactly when no free block has room. */
  method Kmalloc(a: Arena, size: nat) returns (ptr: nat)
    requires a.Valid() && FarHeap(a)
    modifies a
    ensures a.Valid()
    ensures ptr == 0 <==> !RoomFor(old(a.bs), size)
    ensures ptr == 0 ==> a.bs == old(a.bs)
    ensures ptr != 0 ==> var (k, r) := Alloc(a.p, old(a.bs), Paras(size));
      && k < |old(a.bs)| && a.bs == r && ptr == 16 * old(a.bs)[k].addr + 16
      && k < |r| && size <= 16 * r[k].para < size + 32
  {
    FarFacts(a, size);
    HandedOut(a.p, a.bs, size);
    hide *;
    if size > 0xffff0 {
      return 0;
    }
    var seg := a.Take(Paras(size));
    FarAlloc(a.p, old(a.bs), size);
    ptr := if seg == 0 then 0 else 16 * seg + 16;
  }

  lemma {:induction false} FarAlloc(p: Pool, bs: Blocks, size: nat)
    ensures Alloc(p, bs, Paras(size)).0 == FirstFit(bs, Paras(size), 0)
    ensures FirstFit(bs, Paras(size), 0) == |bs| ==> Alloc(p, bs, Paras(size)).1 == bs
  {
  }

  /** The block handed out has the bytes asked for and fewer than 32 more. */
  lemma {:induction false} HandedOut(p: Pool, bs: Blocks, size: nat)
    requires Inv(p, bs)
    ensures var (k, r) := Alloc(p, bs, Paras(size)); k < |bs| ==> k < |r| && size <= 16 * r[k].para < size + 32
  {
    AllocTakes(p, bs, Paras(size));
    hide Alloc;
  }

  /** No block has more paragraphs than the pool, and none lies at 0. */
  lemma {:induction false} FarFacts(a: Arena, size: nat)
    requires a.Valid() && FarHeap(a)
    ensures FirstFit(a.bs, Paras(size), 0) < |a.bs| <==> RoomFor(a.bs, size)
    ensures forall i :: 0 <= i < |a.bs| ==> a.bs[i].addr > 0
    ensures size > 0xffff0 ==> !RoomFor(a.bs, size)
  {
    FitIsRoom(a.bs, size);
    hide Paras, FirstFit, Chained, Merged;
    forall i | 0 <= i < |a.bs| ensures a.bs[i].para < 0xffff && a.bs[i].addr > 0 {
      Inside(a.p, a.bs, i);
    }
  }

  /** `kfree`: the header lies one paragraph before the pointer, whose linear
      address is taken modulo 32 bits and its segment modulo 16. */
  method Kfree(a: Arena, ptr: nat) returns (panic: bool)
    requires a.Valid() && FarHeap(a) && ptr < 0x1_0000_0000
    modifies a
    ensures a.Valid()
    ensures panic <==> ptr % 16 != 0 || Find(old(a.bs), HeaderSeg(ptr), 0) == |old(a.bs)|
    ensures a.bs == if panic then old(a.bs) else Do(a.p, old(a.bs), Free(HeaderSeg(ptr)))
  {
    var lin := (ptr + 0x1_0000_0000 - 16) % 0x1_0000_0000;
    var seg, offs := lin / 16 % 0x10000, lin % 16;
    if offs != 0 {
      return true;
    }
    hide Inv, Chained, Tiles, FreedAt;
    panic := a.Release(seg);
  }

  function HeaderSeg(ptr: nat): nat {
    (ptr + 0x1_0000_0000 - 16) % 0x1_0000_0000 / 16 % 0x10000
  }

  /** Freeing what kmalloc just gave is no panic and restores the list of blocks. */
  method MallocThenFree(a: Arena, size: nat)
    requires a.Valid() && FarHeap(a)
    modifies a
    ensures a.Valid() && a.bs == old(a.bs)
  {
    hide *;
    Undone(a, size);
    var ptr := Kmalloc(a, size);
    if ptr != 0 {
      var panic := Kfree(a, ptr);
      if panic {
        assert false;
      }
    }
  }

  lemma {:induction false} Undone(a: Arena, size: nat)
    requires a.Valid() && FarHeap(a)
    ensures var (k, r) := Alloc(a.p, a.bs, Paras(size));
      k < |a.bs| ==>
        && 16 * a.bs[k].addr + 16 < 0x1_0000_0000 && (16 * a.bs[k].addr + 16) % 16 == 0
        && HeaderSeg(16 * a.bs[k].addr + 16) == a.bs[k].addr
        && Find(r, a.bs[k].addr, 0) < |r| && Do(a.p, r, Free(a.bs[k].addr)) == a.bs
  {
    FreeUndoesAlloc(a.p, a.bs, Paras(size));
    AllocKeeps(a.p, a.bs, Paras(size));
    var (k, r) := Alloc(a.p, a.bs, Paras(size));
    if k < |a.bs| {
      FindIs(a.p, r, k);
      Inside(a.p, a.bs, k);
      hide Alloc, FreedAt, Chained, Merged, Tiles, Paras;
      SegOf(a.bs[k].addr);
    }
  }

  lemma {:induction false} SegOf(seg: nat)
    requires seg < 0x10000
    ensures (16 * seg + 16) % 16 == 0 && HeaderSeg(16 * seg + 16) == seg
  {
  }

  /** The DMA pool: addresses are offsets in its segment. */
  ghost predicate DmaPool(a: Arena) {
    a.nul == DMANULL && a.p.dma && a.p.base == 0 && a.p.End() <= DMANULL
  }

  /** `mem_dma_alloc`: an offset behind the header, or DMANULL for NULL. */
  method DmaAlloc(a: Arena, size: nat) returns (offs: nat)
    requires a.Valid() && DmaPool(a) && size < 0x10000
    modifies a
    ensures a.Valid()
    ensures offs == DMANULL <==> !RoomFor(old(a.bs), size)
    ensures offs == DMANULL ==> a.bs == old(a.bs)
    ensures offs != DMANULL ==> var (k, r) := Alloc(a.p, old(a.bs), Paras(size));
      && k < |old(a.bs)| && a.bs == r && offs == old(a.bs)[k].addr + 16
      && k < |r| && size <= 16 * r[k].para < size + 32
  {
    HandedOut(a.p, a.bs, size);
    FitIsRoom(a.bs, size);
    Addresses(a.p, a.bs, DMANULL);
    DmaSizes(a);
    if size > 0xfff0 {
      return DMANULL;
    }
    hide Inv, Chained, Tiles;
    var b := a.Take(Paras(size));
    offs := if b == DMANULL then DMANULL else b + 16;
  }

  lemma {:induction false} DmaSizes(a: Arena)
    requires a.Valid() && DmaPool(a)
    ensures forall i :: 0 <= i < |a.bs| ==> a.bs[i].addr + 16 < DMANULL && 16 * a.bs[i].para <= 0xffe0
  {
    forall i | 0 <= i < |a.bs| ensures a.bs[i].addr + 16 < DMANULL && 16 * a.bs[i].para <= 0xffe0 {
      DmaSize(a.p, a.bs, i);
    }
  }

  lemma {:induction false} DmaSize(p: Pool, bs: Blocks, i: nat)
    requires Tiles(p, bs) && i < |bs| && p.dma && p.base == 0 && p.End() <= 0xffff
    ensures bs[i].addr + 16 < 0xffff && 16 * bs[i].para <= 0xffe0
  {
    Inside(p, bs, i);
    hide Tiles;
    assert p.End() == 16 * p.total && p.total <= 4095;
  }

  /** `mem_dma_free`. */
  method DmaFree(a: Arena, seg: nat, offs: nat) returns (panic: bool)
    requires a.Valid() && DmaPool(a) && offs < 0x10000
    modifies a
    ensures a.Valid()
    ensures panic <==> seg != DMA_START || Find(old(a.bs), (offs + 0xfff0) % 0x10000, 0) == |old(a.bs)|
    ensures a.bs == if panic then old(a.bs) else Do(a.p, old(a.bs), Free((offs + 0xfff0) % 0x10000))
  {
    if seg != DMA_START {
      return true;
    }
    hide Inv, Chained, Tiles, FreedAt;
    panic := a.Release((offs + 0xfff0) % 0x10000);
  }

  /** Freeing what mem_dma_alloc just gave is no panic and restores the list of
      blocks. */
  method DmaAllocThenFree(a: Arena, size: nat)
    requires a.Valid() && DmaPool(a) && size < 0x10000
    modifies a
    ensures a.Valid() && a.bs == old(a.bs)
  {
    DmaUndone(a, size);
    var offs := DmaAlloc(a, size);
    if offs != DMANULL {
      var panic := DmaFree(a, DMA_START, offs);
      if panic {
        assert false;
      }
    }
  }

  lemma {:induction false} DmaUndone(a: Arena, size: nat)
    requires a.Valid() && DmaPool(a)
    ensures var (k, r) := Alloc(a.p, a.bs, Paras(size));
      k < |a.bs| ==>
        && a.bs[k].addr + 16 < 0x10000 && (a.bs[k].addr + 16 + 0xfff0) % 0x10000 == a.bs[k].addr
        && Find(r, a.bs[k].addr, 0) < |r| && Do(a.p, r, Free(a.bs[k].addr)) == a.bs
  {
    var (k, r) := Alloc(a.p, a.bs, Paras(size));
    if k < |a.bs| {
      DmaSizes(a);
      AllocKeeps(a.p, a.bs, Paras(size));
      FreeUndoesAlloc(a.p, a.bs, Paras(size));
      FindIs(a.p, r, k);
    }
  }
}

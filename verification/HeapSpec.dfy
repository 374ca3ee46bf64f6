/** The paragraph heap as a list of blocks in address order (kernel/MEMORY.C).

    A block is a header of one paragraph and `para` paragraphs behind it.  The
    far heap counts addresses in paragraphs, the DMA pool in bytes. */
module HeapSpec {

  datatype Block = Block(addr: nat, para: nat, inuse: bool)

  type Blocks = seq<Block>

  /** A pool begins at address `base` and has `total` paragraphs; `dma` tells
      whether addresses count bytes. */
  datatype Pool = Pool(base: nat, total: nat, dma: bool)
  {
    function Step(n: nat): nat { if dma then 16 * n else n }

    function End(): nat { base + Step(total) }

    /** The address behind a block. */
    function Behind(b: Block): nat { b.addr + Step(b.para + 1) }
  }

  // ----- the invariant

  /** Block i ends where the next one begins, or at the end of the pool. */
  ghost predicate TileAt(p: Pool, bs: Blocks, i: nat)
    requires i < |bs|
  {
    p.Behind(bs[i]) == if i + 1 < |bs| then bs[i+1].addr else p.End()
  }

  /** The blocks fill the pool without a gap. */
  ghost predicate Tiles(p: Pool, bs: Blocks) {
    bs != [] && bs[0].addr == p.base && forall i :: 0 <= i < |bs| ==> TileAt(p, bs, i)
  }

  /** A block with the place and the neighbour of block j of another list. */
  lemma {:induction false} TileMoved(p: Pool, bs: Blocks, j: nat, r: Blocks, i: nat)
    requires j < |bs| && TileAt(p, bs, j) && i < |r|
    requires r[i].addr == bs[j].addr && r[i].para == bs[j].para
    requires (i + 1 < |r|) == (j + 1 < |bs|) && (i + 1 < |r| ==> r[i+1].addr == bs[j+1].addr)
    ensures TileAt(p, r, i)
  {
  }

  /** No two neighbours are both free. */
  ghost predicate Merged(bs: Blocks) {
    forall i {:trigger bs[i]} :: 0 <= i < |bs| - 1 ==> bs[i].inuse || bs[i+1].inuse
  }

  ghost predicate Inv(p: Pool, bs: Blocks) {
    Tiles(p, bs) && Merged(bs)
  }

  lemma {:induction false} Ordered(p: Pool, bs: Blocks, i: nat, j: nat)
    requires Tiles(p, bs) && i < j < |bs|
    ensures p.Behind(bs[i]) <= bs[j].addr
    decreases j
  {
    assert TileAt(p, bs, j - 1);
    if i < j - 1 {
      Ordered(p, bs, i, j - 1);
    }
  }

  lemma {:induction false} Inside(p: Pool, bs: Blocks, i: nat)
    requires Tiles(p, bs) && i < |bs|
    ensures p.base <= bs[i].addr && p.Behind(bs[i]) <= p.End()
  {
    assert TileAt(p, bs, |bs| - 1);
    if i > 0 {
      Ordered(p, bs, 0, i);
    }
    if i < |bs| - 1 {
      Ordered(p, bs, i, |bs| - 1);
    }
  }

  /** The blocks lie in the pool, one behind the other: no two overlap. */
  lemma {:induction false} Disjoint(p: Pool, bs: Blocks, i: nat, j: nat)
    requires Tiles(p, bs) && i < |bs| && j < |bs| && i != j
    ensures p.base <= bs[i].addr && p.Behind(bs[i]) <= p.End()
    ensures p.Behind(bs[i]) <= bs[j].addr || p.Behind(bs[j]) <= bs[i].addr
  {
    Inside(p, bs, i);
    if i < j {
      Ordered(p, bs, i, j);
    } else {
      Ordered(p, bs, j, i);
    }
  }

  // ----- finding a block

  /** The first free block from the i-th on with sz paragraphs; |bs| if none. */
  function FirstFit(bs: Blocks, sz: nat, i: nat): (k: nat)
    requires i <= |bs|
    ensures i <= k <= |bs|
    ensures k < |bs| ==> !bs[k].inuse && bs[k].para >= sz
    ensures forall j :: i <= j < k ==> bs[j].inuse || bs[j].para < sz
    decreases |bs| - i
  {
    if i == |bs| || (!bs[i].inuse && bs[i].para >= sz) then i else FirstFit(bs, sz, i + 1)
  }

  /** The block with address a, from the i-th on; |bs| if none. */
  function Find(bs: Blocks, a: nat, i: nat): (k: nat)
    requires i <= |bs|
    ensures i <= k <= |bs|
    ensures k < |bs| ==> bs[k].addr == a
    ensures forall j :: i <= j < k ==> bs[j].addr != a
    decreases |bs| - i
  {
    if i == |bs| || bs[i].addr == a then i else Find(bs, a, i + 1)
  }

  lemma {:induction false} FindIs(p: Pool, bs: Blocks, k: nat)
    requires Tiles(p, bs) && k < |bs|
    ensures Find(bs, bs[k].addr, 0) == k
  {
    var j := Find(bs, bs[k].addr, 0);
    if j != k {
      Disjoint(p, bs, j, k);
    }
  }

  // ----- allocating

  /** Block k taken for sz paragraphs; what is left over becomes a free block if
      it has room for more than a header. */
  function Taken(p: Pool, bs: Blocks, k: nat, sz: nat): Blocks
    requires k < |bs|
  {
    var b := bs[k];
    if b.para > sz + 1 then
      bs[..k] + [Block(b.addr, sz, true), Block(b.addr + p.Step(sz + 1), b.para - 1 - sz, false)] + bs[k+1..]
    else bs[k := b.(inuse := true)]
  }

  /** Allocating sz paragraphs: the position of the block, |bs| when none fits,
      and the new list. */
  function Alloc(p: Pool, bs: Blocks, sz: nat): (nat, Blocks) {
    var k := FirstFit(bs, sz, 0);
    if k == |bs| then (k, bs) else (k, Taken(p, bs, k, sz))
  }

  lemma {:induction false} TakenTiles(p: Pool, bs: Blocks, k: nat, sz: nat)
    requires Tiles(p, bs) && k < |bs|
    ensures Tiles(p, Taken(p, bs, k, sz))
  {
    var r, b := Taken(p, bs, k, sz), bs[k];
    hide Pool.Step, Pool.Behind, TileAt;
    forall i | 0 <= i < |r| ensures TileAt(p, r, i) {
      if i < k || b.para <= sz + 1 {
        assert TileAt(p, bs, i);
        TileMoved(p, bs, i, r, i);
      } else if i > k + 1 {
        assert TileAt(p, bs, i - 1);
        TileMoved(p, bs, i - 1, r, i);
      } else {
        assert TileAt(p, bs, k);
        SplitTiles(p, bs, k, sz, r);
      }
    }
  }

  lemma {:induction false} SplitTiles(p: Pool, bs: Blocks, k: nat, sz: nat, r: Blocks)
    requires k < |bs| && TileAt(p, bs, k) && bs[k].para > sz + 1 && |r| == |bs| + 1
    requires r[k] == Block(bs[k].addr, sz, true)
    requires r[k+1] == Block(bs[k].addr + p.Step(sz + 1), bs[k].para - 1 - sz, false)
    requires k + 2 < |r| ==> r[k+2] == bs[k+1]
    ensures TileAt(p, r, k) && TileAt(p, r, k + 1)
  {
    BehindSplit(p, bs[k], sz);
    hide Pool.Step, Pool.Behind;
  }

  lemma {:induction false} TakenMerged(p: Pool, bs: Blocks, k: nat, sz: nat)
    requires Merged(bs) && k < |bs| && !bs[k].inuse
    ensures Merged(Taken(p, bs, k, sz))
  {
    var r, b := Taken(p, bs, k, sz), bs[k];
    assert k + 1 < |bs| ==> bs[k+1].inuse;
    forall i {:trigger r[i]} | 0 <= i < |r| - 1 ensures r[i].inuse || r[i+1].inuse {
      if b.para > sz + 1 {
        assert i < k ==> r[i] == bs[i];
        assert i > k + 1 ==> r[i] == bs[i-1];
      } else {
        assert i != k ==> r[i] == bs[i];
      }
    }
  }

  /** Allocation keeps the invariant, hands out a block that was free and has at
      least sz paragraphs, and fails only when no free block has as many. */
  lemma {:induction false} AllocKeeps(p: Pool, bs: Blocks, sz: nat)
    requires Inv(p, bs)
    ensures var (k, r) := Alloc(p, bs, sz);
      && Inv(p, r)
      && (k == |bs| <==> forall j :: 0 <= j < |bs| ==> bs[j].inuse || bs[j].para < sz)
      && (k < |bs| ==> !bs[k].inuse && k < |r| && r[k].inuse && r[k].addr == bs[k].addr && r[k].para >= sz)
  {
    var k := FirstFit(bs, sz, 0);
    if k < |bs| {
      TakenTiles(p, bs, k, sz);
      TakenMerged(p, bs, k, sz);
    }
  }

  // ----- freeing

  /** Blocks k and k + 1 made one. */
  function Joined(bs: Blocks, k: nat): Blocks
    requires k + 1 < |bs|
  {
    bs[..k] + [bs[k].(para := bs[k].para + 1 + bs[k+1].para)] + bs[k+2..]
  }

  /** Block k freed and joined with the block behind it if that is free. */
  function FreedRight(bs: Blocks, k: nat): Blocks
    requires k < |bs|
  {
    var bs1 := if k + 1 < |bs| && !bs[k+1].inuse then Joined(bs, k) else bs;
    bs1[k := bs1[k].(inuse := false)]
  }

  /** Block k freed: joined to the block before it if that is free, and then with
      the block behind it if that is free. */
  function FreedAt(bs: Blocks, k: nat): Blocks
    requires k < |bs|
  {
    if k > 0 && !bs[k-1].inuse then FreedRight(Joined(bs, k - 1), k - 1) else FreedRight(bs, k)
  }

  /** The run of blocks that freeing block k makes into one. */
  function Lo(bs: Blocks, k: nat): nat
    requires k < |bs|
  {
    if k > 0 && !bs[k-1].inuse then k - 1 else k
  }

  function Hi(bs: Blocks, k: nat): nat
    requires k < |bs|
  {
    if k + 1 < |bs| && !bs[k+1].inuse then k + 2 else k + 1
  }

  function Paras(bs: Blocks, k: nat): nat
    requires k < |bs|
  {
    bs[k].para + (if Lo(bs, k) < k then 1 + bs[k-1].para else 0) + (if Hi(bs, k) > k + 1 then 1 + bs[k+1].para else 0)
  }

  lemma {:induction false} RightShape(bs: Blocks, k: nat)
    requires k < |bs|
    ensures FreedRight(bs, k) ==
      bs[..k] + [Block(bs[k].addr, bs[k].para + (if Hi(bs, k) > k + 1 then 1 + bs[k+1].para else 0), false)] + bs[Hi(bs, k)..]
  {
  }

  /** Freeing block k makes one free block of it and its free neighbours. */
  lemma {:induction false} FreedShape(bs: Blocks, k: nat)
    requires k < |bs|
    ensures FreedAt(bs, k) ==
      bs[..Lo(bs, k)] + [Block(bs[Lo(bs, k)].addr, Paras(bs, k), false)] + bs[Hi(bs, k)..]
  {
    LoHi(bs, k);
    if Lo(bs, k) < k {
      LeftShape(bs, k);
    } else {
      RightShape(bs, k);
    }
    hide FreedRight, Joined, Hi;
  }

  lemma {:induction false} LoHi(bs: Blocks, k: nat)
    requires k < |bs|
    ensures Lo(bs, k) <= k < Hi(bs, k) <= k + 2 && Hi(bs, k) <= |bs|
  {
  }

  lemma {:induction false} LeftShape(bs: Blocks, k: nat)
    requires 0 < k < |bs|
    ensures FreedRight(Joined(bs, k - 1), k - 1) ==
      bs[..k-1] + [Block(bs[k-1].addr, bs[k-1].para + 1 + bs[k].para + (if Hi(bs, k) > k + 1 then 1 + bs[k+1].para else 0), false)]
      + bs[Hi(bs, k)..]
  {
    RightShape(Joined(bs, k - 1), k - 1);
    JoinedLeft(bs, k);
    LoHi(bs, k);
    hide FreedRight, Joined, Hi;
  }

  /** The blocks around the one that block k was joined into. */
  lemma {:induction false} JoinedLeft(bs: Blocks, k: nat)
    requires 0 < k < |bs|
    ensures var bs1 := Joined(bs, k - 1);
      && |bs1| == |bs| - 1 && bs1[k-1] == bs[k-1].(para := bs[k-1].para + 1 + bs[k].para)
      && bs1[..k-1] == bs[..k-1] && (k < |bs1| ==> bs1[k] == bs[k+1])
      && bs1[Hi(bs1, k - 1)..] == bs[Hi(bs, k)..] && Hi(bs1, k - 1) == Hi(bs, k) - 1
  {
    var bs1 := Joined(bs, k - 1);
    assert k < |bs1| ==> bs1[k] == bs[k+1];
  }

  lemma {:induction false} Middle(a: Blocks, b: Block, c: Blocks, i: nat)
    requires i <= |a| + |c|
    ensures (a + [b] + c)[i] == if i < |a| then a[i] else if i == |a| then b else c[i - |a| - 1]
  {
  }

  lemma {:induction false} FreedBlock(bs: Blocks, k: nat, i: nat)
    requires k < |bs| && i < |FreedAt(bs, k)|
    ensures |FreedAt(bs, k)| == Lo(bs, k) + 1 + |bs| - Hi(bs, k)
    ensures FreedAt(bs, k)[i] ==
      if i < Lo(bs, k) then bs[i]
      else if i == Lo(bs, k) then Block(bs[i].addr, Paras(bs, k), false)
      else bs[i - Lo(bs, k) - 1 + Hi(bs, k)]
  {
    LoHi(bs, k);
    hide FreedAt, Lo, Hi, Paras;
    FreedShape(bs, k);
    Middle(bs[..Lo(bs, k)], Block(bs[Lo(bs, k)].addr, Paras(bs, k), false), bs[Hi(bs, k)..], i);
  }

  lemma {:induction false} FreedLength(bs: Blocks, k: nat)
    requires k < |bs|
    ensures |FreedAt(bs, k)| == Lo(bs, k) + 1 + |bs| - Hi(bs, k)
  {
    FreedShape(bs, k);
    hide FreedAt;
  }

  lemma {:induction false} FreedTiles(p: Pool, bs: Blocks, k: nat)
    requires Tiles(p, bs) && k < |bs|
    ensures Tiles(p, FreedAt(bs, k))
  {
    hide FreedAt, Paras, TileAt;
    var r := FreedAt(bs, k);
    FreedLength(bs, k);
    FreedBlock(bs, k, 0);
    forall i | 0 <= i < |r| ensures TileAt(p, r, i) {
      FreedBlock(bs, k, i);
      if i + 1 < |r| {
        FreedBlock(bs, k, i + 1);
      }
      if i == Lo(bs, k) {
        FreedTile(p, bs, k, r);
      } else {
        var j := if i < Lo(bs, k) then i else i - Lo(bs, k) - 1 + Hi(bs, k);
        assert TileAt(p, bs, j);
        TileMoved(p, bs, j, r, i);
      }
    }
  }

  lemma {:induction false} FreedTile(p: Pool, bs: Blocks, k: nat, r: Blocks)
    requires Tiles(p, bs) && k < |bs| && |r| == Lo(bs, k) + 1 + |bs| - Hi(bs, k)
    requires r[Lo(bs, k)] == Block(bs[Lo(bs, k)].addr, Paras(bs, k), false)
    requires Lo(bs, k) + 1 < |r| ==> r[Lo(bs, k) + 1] == bs[Hi(bs, k)]
    ensures TileAt(p, r, Lo(bs, k))
  {
    hide Pool.Step, Pool.Behind, Paras;
    JoinedEnd(p, bs, k);
  }

  lemma {:induction false} BehindJoin(p: Pool, b: Block, c: Block)
    requires p.Behind(b) == c.addr
    ensures p.Behind(b.(para := b.para + 1 + c.para)) == p.Behind(c)
  {
    StepAdd(p, b.para + 1, c.para + 1);
    hide Pool.Step;
    assert b.para + 1 + c.para + 1 == b.para + 1 + (c.para + 1);
  }

  lemma {:induction false} JoinedEnd(p: Pool, bs: Blocks, k: nat)
    requires Tiles(p, bs) && k < |bs|
    ensures p.Behind(Block(bs[Lo(bs, k)].addr, Paras(bs, k), false)) ==
            if Hi(bs, k) < |bs| then bs[Hi(bs, k)].addr else p.End()
  {
    hide Tiles, Pool.Step, Pool.Behind;
    BehindAt(p, bs, k);
    var m := bs[k];
    if Lo(bs, k) < k {
      BehindAt(p, bs, k - 1);
      BehindJoin(p, bs[k-1], bs[k]);
      m := bs[k-1].(para := bs[k-1].para + 1 + bs[k].para);
    }
    if Hi(bs, k) > k + 1 {
      BehindAt(p, bs, k + 1);
      BehindJoin(p, m, bs[k+1]);
      m := m.(para := m.para + 1 + bs[k+1].para);
    }
    BehindSame(p, m, Block(bs[Lo(bs, k)].addr, Paras(bs, k), false));
  }

  lemma {:induction false} BehindSame(p: Pool, b: Block, c: Block)
    requires b.addr == c.addr && b.para == c.para
    ensures p.Behind(b) == p.Behind(c)
  {
  }

  /** Cut in two, the second part begins where the first ends and ends where the
      block did. */
  lemma {:induction false} BehindSplit(p: Pool, b: Block, sz: nat)
    requires b.para > sz + 1
    ensures p.Behind(Block(b.addr, sz, true)) == b.addr + p.Step(sz + 1)
    ensures p.Behind(Block(b.addr + p.Step(sz + 1), b.para - 1 - sz, false)) == p.Behind(b)
  {
    BehindJoin(p, Block(b.addr, sz, true), Block(b.addr + p.Step(sz + 1), b.para - 1 - sz, false));
    BehindSame(p, b, Block(b.addr, sz + 1 + (b.para - 1 - sz), true));
  }

  lemma {:induction false} BehindAt(p: Pool, bs: Blocks, k: nat)
    requires Tiles(p, bs) && k < |bs|
    ensures p.Behind(bs[k]) == if k + 1 < |bs| then bs[k+1].addr else p.End()
  {
    assert TileAt(p, bs, k);
  }

  lemma {:induction false} StepAdd(p: Pool, m: nat, n: nat)
    ensures p.Step(m + n) == p.Step(m) + p.Step(n) && p.Step(0) == 0
  {
  }

  lemma {:induction false} FreedMerged(bs: Blocks, k: nat)
    requires Merged(bs) && k < |bs|
    ensures Merged(FreedAt(bs, k))
  {
    hide FreedAt;
    var r := FreedAt(bs, k);
    assert k > 1 ==> bs[k-2].inuse || bs[k-1].inuse;
    assert k + 2 < |bs| ==> bs[k+1].inuse || bs[k+2].inuse;
    forall i {:trigger r[i]} | 0 <= i < |r| - 1 ensures r[i].inuse || r[i+1].inuse {
      FreedBlock(bs, k, i);
      FreedBlock(bs, k, i + 1);
      if i + 1 < Lo(bs, k) {
        assert bs[i].inuse || bs[i+1].inuse;
      } else if i > Lo(bs, k) {
        var j := i - Lo(bs, k) - 1 + Hi(bs, k);
        assert bs[j].inuse || bs[j+1].inuse;
      }
    }
  }

  lemma {:induction false} FreedKeeps(p: Pool, bs: Blocks, k: nat)
    requires Inv(p, bs) && k < |bs|
    ensures Inv(p, FreedAt(bs, k))
  {
    FreedTiles(p, bs, k);
    FreedMerged(bs, k);
  }

  /** Freeing a block just allocated gives back the list as it was. */
  lemma {:induction false} FreeUndoesAlloc(p: Pool, bs: Blocks, sz: nat)
    requires Inv(p, bs)
    ensures var (k, r) := Alloc(p, bs, sz); k < |bs| ==> k < |r| && FreedAt(r, k) == bs
  {
    var k := FirstFit(bs, sz, 0);
    if k < |bs| {
      TakenFreed(p, bs, k, sz);
    }
  }

  lemma {:induction false} TakenFreed(p: Pool, bs: Blocks, k: nat, sz: nat)
    requires Inv(p, bs) && k < |bs| && !bs[k].inuse
    ensures k < |Taken(p, bs, k, sz)| && FreedAt(Taken(p, bs, k, sz), k) == bs
  {
    var r := Taken(p, bs, k, sz);
    TakenShape(p, bs, k, sz);
    FreedShape(r, k);
    hide *;
    Around(bs, k);
  }

  lemma {:induction false} Around(bs: Blocks, k: nat)
    requires k < |bs| && !bs[k].inuse
    ensures bs == bs[..k] + [Block(bs[k].addr, bs[k].para, false)] + bs[k+1..]
  {
  }

  lemma {:induction false} TakenShape(p: Pool, bs: Blocks, k: nat, sz: nat)
    requires Merged(bs) && k < |bs| && !bs[k].inuse
    ensures var r := Taken(p, bs, k, sz);
      && k < |r| && Lo(r, k) == k && r[..k] == bs[..k] && r[Hi(r, k)..] == bs[k+1..]
      && Paras(r, k) == bs[k].para && r[k].addr == bs[k].addr
  {
    var r := Taken(p, bs, k, sz);
    assert k > 0 ==> bs[k-1].inuse && r[k-1] == bs[k-1];
    assert k + 1 < |bs| ==> bs[k+1].inuse;
    if bs[k].para > sz + 1 {
      assert r[k+2..] == bs[k+1..];
    } else {
      assert k + 1 < |r| ==> r[k+1] == bs[k+1];
    }
  }

  /** Freeing a free block changes nothing. */
  lemma {:induction false} FreeTwice(bs: Blocks, k: nat)
    requires Merged(bs) && k < |bs| && !bs[k].inuse
    ensures FreedAt(bs, k) == bs
  {
    assert k > 0 ==> bs[k-1].inuse;
  }

  // ----- runs

  /** The addresses of the blocks in use. */
  ghost function Live(bs: Blocks): set<nat> {
    set i | 0 <= i < |bs| && bs[i].inuse :: bs[i].addr
  }

  datatype Op = Malloc(sz: nat) | Free(addr: nat)

  /** A free of an address that is no block's is a panic: the list stays. */
  function Do(p: Pool, bs: Blocks, op: Op): Blocks {
    match op
    case Malloc(sz) => Alloc(p, bs, sz).1
    case Free(a) => if Find(bs, a, 0) == |bs| then bs else FreedAt(bs, Find(bs, a, 0))
  }

  lemma {:induction false} DoKeeps(p: Pool, bs: Blocks, op: Op)
    requires Inv(p, bs)
    ensures Inv(p, Do(p, bs, op))
  {
    hide Inv, Alloc, FreedAt;
    match op
    case Malloc(sz) => AllocKeeps(p, bs, sz);
    case Free(a) =>
      if Find(bs, a, 0) < |bs| {
        FreedKeeps(p, bs, Find(bs, a, 0));
      }
  }

  function Run(p: Pool, bs: Blocks, ops: seq<Op>): Blocks
    decreases |ops|
  {
    if ops == [] then bs else Run(p, Do(p, bs, ops[0]), ops[1..])
  }

  /** Over every run of allocations and frees the blocks tile the pool and no two
      neighbours are both free. */
  lemma {:induction false} RunKeeps(p: Pool, bs: Blocks, ops: seq<Op>)
    requires Inv(p, bs)
    ensures Inv(p, Run(p, bs, ops))
    decreases |ops|
  {
    if ops != [] {
      DoKeeps(p, bs, ops[0]);
      hide Do;
      RunKeeps(p, Do(p, bs, ops[0]), ops[1..]);
    }
  }

  /** The list after mem_init. */
  function Initial(p: Pool): Blocks
    requires 1 <= p.total
  {
    [Block(p.base, p.total - 1, false)]
  }

  /** With nothing in use the list is the one of mem_init. */
  lemma {:induction false} AllFree(p: Pool, bs: Blocks)
    requires Inv(p, bs) && Live(bs) == {}
    ensures 1 <= p.total && bs == Initial(p)
  {
    assert forall i :: 0 <= i < |bs| && bs[i].inuse ==> bs[i].addr in Live(bs);
    assert |bs| <= 1;
    assert TileAt(p, bs, 0);
  }

  /** Freeing takes exactly that block out of those in use. */
  lemma {:induction false} FreedLive(p: Pool, bs: Blocks, k: nat)
    requires Tiles(p, bs) && k < |bs|
    ensures Live(FreedAt(bs, k)) == Live(bs) - {bs[k].addr}
  {
    hide FreedAt, Tiles;
    var r := FreedAt(bs, k);
    forall a | a in Live(r) ensures a in Live(bs) - {bs[k].addr} {
      var i :| 0 <= i < |r| && r[i].inuse && r[i].addr == a;
      FreedFrom(p, bs, k, i);
    }
    forall a | a in Live(bs) - {bs[k].addr} ensures a in Live(r) {
      var j :| 0 <= j < |bs| && bs[j].inuse && bs[j].addr == a;
      FreedTo(bs, k, j);
    }
  }

  lemma {:induction false} FreedFrom(p: Pool, bs: Blocks, k: nat, i: nat)
    requires Tiles(p, bs) && k < |bs| && i < |FreedAt(bs, k)| && FreedAt(bs, k)[i].inuse
    ensures FreedAt(bs, k)[i] in bs && FreedAt(bs, k)[i].addr != bs[k].addr
  {
    hide FreedAt;
    FreedBlock(bs, k, i);
    var j := if i < Lo(bs, k) then i else i - Lo(bs, k) - 1 + Hi(bs, k);
    assert bs[j] == FreedAt(bs, k)[i];
    Disjoint(p, bs, j, k);
  }

  lemma {:induction false} FreedTo(bs: Blocks, k: nat, j: nat)
    requires k < |bs| && j < |bs| && bs[j].inuse && j != k
    ensures bs[j] in FreedAt(bs, k)
  {
    hide FreedAt;
    var i := if j < Lo(bs, k) then j else j - Hi(bs, k) + Lo(bs, k) + 1;
    FreedShape(bs, k);
    FreedBlock(bs, k, i);
  }

  // ----- what was allocated, over runs

  /** What was asked for and not given back: the paragraphs by the address of the
      block that was handed out. */
  type Ledger = map<nat, nat>

  function Noted(bs: Blocks, want: Ledger, op: Op): Ledger {
    match op
    case Malloc(sz) => if FirstFit(bs, sz, 0) == |bs| then want else want[bs[FirstFit(bs, sz, 0)].addr := sz]
    case Free(a) => if Find(bs, a, 0) == |bs| then want else want - {a}
  }

  /** The blocks in use are those of the ledger, each as large as was asked for or one
      paragraph larger. */
  ghost predicate Honoured(bs: Blocks, want: Ledger) {
    && want.Keys == Live(bs)
    && forall i :: 0 <= i < |bs| && bs[i].inuse ==>
         bs[i].addr in want && want[bs[i].addr] <= bs[i].para <= want[bs[i].addr] + 1
  }

  /** The blocks of the list after an allocation: block k, in use, the rest of it,
      and all the others as they were. */
  lemma {:induction false} TakenFrom(p: Pool, bs: Blocks, k: nat, sz: nat, i: nat)
    requires k < |bs| && i < |Taken(p, bs, k, sz)| && Taken(p, bs, k, sz)[i].inuse && i != k
    ensures exists j :: 0 <= j < |bs| && j != k && bs[j] == Taken(p, bs, k, sz)[i]
  {
    var j := if i < k || bs[k].para <= sz + 1 then i else i - 1;
    assert bs[j] == Taken(p, bs, k, sz)[i];
  }

  lemma {:induction false} TakenTo(p: Pool, bs: Blocks, k: nat, sz: nat, j: nat)
    requires k < |bs| && j < |bs| && j != k
    ensures bs[j] in Taken(p, bs, k, sz)
  {
    var i := if j < k || bs[k].para <= sz + 1 then j else j + 1;
    assert Taken(p, bs, k, sz)[i] == bs[j];
  }

  lemma {:induction false} TakenLive(p: Pool, bs: Blocks, k: nat, sz: nat)
    requires Tiles(p, bs) && k < |bs| && !bs[k].inuse && bs[k].para >= sz
    ensures Live(Taken(p, bs, k, sz)) == Live(bs) + {bs[k].addr} && bs[k].addr !in Live(bs)
  {
    var r := Taken(p, bs, k, sz);
    assert r[k].inuse && r[k].addr == bs[k].addr;
    hide Taken, Tiles;
    forall a | a in Live(r) ensures a in Live(bs) + {bs[k].addr} {
      var i :| 0 <= i < |r| && r[i].inuse && r[i].addr == a;
      if i != k {
        TakenFrom(p, bs, k, sz, i);
      }
    }
    forall a | a in Live(bs) ensures a in Live(r) && a != bs[k].addr {
      var j :| 0 <= j < |bs| && bs[j].inuse && bs[j].addr == a;
      TakenTo(p, bs, k, sz, j);
      Disjoint(p, bs, j, k);
    }
  }

  lemma {:induction false} MallocHonours(p: Pool, bs: Blocks, want: Ledger, k: nat, sz: nat)
    requires Tiles(p, bs) && Honoured(bs, want) && k < |bs| && !bs[k].inuse && bs[k].para >= sz
    ensures Honoured(Taken(p, bs, k, sz), want[bs[k].addr := sz])
  {
    var r := Taken(p, bs, k, sz);
    TakenLive(p, bs, k, sz);
    var now := want[bs[k].addr := sz];
    assert r[k].addr == bs[k].addr && sz <= r[k].para <= sz + 1;
    forall i | 0 <= i < |r| && r[i].inuse
      ensures r[i].addr in now && now[r[i].addr] <= r[i].para <= now[r[i].addr] + 1
    {
      if i != k {
        TakenFrom(p, bs, k, sz, i);
      }
    }
    hide Live, Taken;
  }

  lemma {:induction false} FreeHonours(p: Pool, bs: Blocks, want: Ledger, k: nat)
    requires Tiles(p, bs) && Honoured(bs, want) && k < |bs|
    ensures Honoured(FreedAt(bs, k), want - {bs[k].addr})
  {
    var r := FreedAt(bs, k);
    FreedLive(p, bs, k);
    var now := want - {bs[k].addr};
    forall i | 0 <= i < |r| && r[i].inuse
      ensures r[i].addr in now && now[r[i].addr] <= r[i].para <= now[r[i].addr] + 1
    {
      FreedFrom(p, bs, k, i);
    }
    hide Live, FreedAt;
  }

  lemma {:induction false} DoHonours(p: Pool, bs: Blocks, want: Ledger, op: Op)
    requires Inv(p, bs) && Honoured(bs, want)
    ensures Honoured(Do(p, bs, op), Noted(bs, want, op))
  {
    hide Honoured, Taken, FreedAt, Merged;
    match op
    case Malloc(sz) =>
      var k := FirstFit(bs, sz, 0);
      if k < |bs| {
        MallocHonours(p, bs, want, k, sz);
      }
    case Free(a) =>
      var k := Find(bs, a, 0);
      if k < |bs| {
        FreeHonours(p, bs, want, k);
      }
  }

  function NotedAll(p: Pool, bs: Blocks, want: Ledger, ops: seq<Op>): Ledger
    decreases |ops|
  {
    if ops == [] then want else NotedAll(p, Do(p, bs, ops[0]), Noted(bs, want, ops[0]), ops[1..])
  }

  /** Over every run the blocks in use are exactly those that were allocated and
      not freed, each with the paragraphs that were asked for or one more. */
  lemma {:induction false} RunHonours(p: Pool, bs: Blocks, want: Ledger, ops: seq<Op>)
    requires Inv(p, bs) && Honoured(bs, want)
    ensures Inv(p, Run(p, bs, ops)) && Honoured(Run(p, bs, ops), NotedAll(p, bs, want, ops))
    decreases |ops|
  {
    if ops != [] {
      DoKeeps(p, bs, ops[0]);
      DoHonours(p, bs, want, ops[0]);
      hide Do, Noted, Inv, Honoured;
      RunHonours(p, Do(p, bs, ops[0]), Noted(bs, want, ops[0]), ops[1..]);
    }
  }

  /** So in every run from mem_init on what two callers hold lies in the pool, is
      as long as they asked for, and does not overlap. */
  lemma {:induction false} RunApart(p: Pool, ops: seq<Op>, a: nat, b: nat)
    requires 1 <= p.total
    requires var want := NotedAll(p, Initial(p), map[], ops); a in want && b in want && a != b
    ensures var want := NotedAll(p, Initial(p), map[], ops);
      && p.base <= a && a + p.Step(want[a] + 1) <= p.End()
      && (a + p.Step(want[a] + 1) <= b || b + p.Step(want[b] + 1) <= a)
  {
    var bs, want := Run(p, Initial(p), ops), NotedAll(p, Initial(p), map[], ops);
    InitialInv(p);
    RunHonours(p, Initial(p), map[], ops);
    hide Run, NotedAll, Initial;
    assert a in Live(bs) && b in Live(bs);
    var i :| 0 <= i < |bs| && bs[i].inuse && bs[i].addr == a;
    var j :| 0 <= j < |bs| && bs[j].inuse && bs[j].addr == b;
    Disjoint(p, bs, i, j);
    StepUp(p, want[a] + 1, bs[i].para + 1);
    StepUp(p, want[b] + 1, bs[j].para + 1);
  }

  lemma {:induction false} InitialInv(p: Pool)
    requires 1 <= p.total
    ensures Inv(p, Initial(p)) && Honoured(Initial(p), map[])
  {
  }

  lemma {:induction false} StepUp(p: Pool, m: nat, n: nat)
    requires m <= n
    ensures p.Step(m) <= p.Step(n)
  {
  }

  function Frees(order: seq<nat>): seq<Op> {
    if order == [] then [] else [Free(order[0])] + Frees(order[1..])
  }

  /** Freeing every block in use once, in any order, restores the list of mem_init. */
  lemma {:induction false} FreeEverything(p: Pool, bs: Blocks, order: seq<nat>)
    requires Inv(p, bs) && Live(bs) == (set a | a in order)
    requires forall i, j :: 0 <= i < j < |order| ==> order[i] != order[j]
    ensures 1 <= p.total && Run(p, bs, Frees(order)) == Initial(p)
    decreases |order|
  {
    if order == [] {
      AllFree(p, bs);
    } else {
      assert order[0] in Live(bs);
      var k := Find(bs, order[0], 0);
      FreedKeeps(p, bs, k);
      FreedLive(p, bs, k);
      assert forall a :: a in order <==> a == order[0] || a in order[1..];
      assert Live(FreedAt(bs, k)) == set a | a in order[1..];
      FreeEverything(p, FreedAt(bs, k), order[1..]);
      assert Frees(order)[1..] == Frees(order[1..]);
    }
  }
}

/** How much of a pool is free (kernel/MEMORY.C): what an allocation takes, what a free
    gives back, and how long allocations succeed. */
module HeapRoom {
  import opened HeapSpec

  /** The paragraphs of the free blocks, with their headers. */
  function Room(bs: Blocks): nat {
    if bs == [] then 0 else (if bs[0].inuse then 0 else bs[0].para + 1) + Room(bs[1..])
  }

  /** The paragraphs of the blocks in use, with their headers. */
  function Used(bs: Blocks): nat {
    if bs == [] then 0 else (if bs[0].inuse then bs[0].para + 1 else 0) + Used(bs[1..])
  }

  lemma {:induction false} SumSplit(a: Blocks, b: Blocks)
    ensures Room(a + b) == Room(a) + Room(b) && Used(a + b) == Used(a) + Used(b)
  {
    if a == [] {
      assert a + b == b;
    } else {
      SumSplit(a[1..], b);
      assert (a + b)[1..] == a[1..] + b;
    }
  }

  lemma {:induction false} SumMiddle(a: Blocks, m: Blocks, c: Blocks)
    ensures Room(a + m + c) == Room(a) + Room(m) + Room(c) && Used(a + m + c) == Used(a) + Used(m) + Used(c)
  {
    SumSplit(a + m, c);
    SumSplit(a, m);
  }

  lemma {:induction false} SumOne(b: Block)
    ensures Room([b]) == (if b.inuse then 0 else b.para + 1) && Used([b]) == if b.inuse then b.para + 1 else 0
  {
    assert [b][1..] == [];
  }

  /** An allocation hands out the lowest free block that is large enough, cut down to the
      paragraphs asked for or one more, and nothing else of the pool is taken. */
  lemma {:induction false} AllocTakes(p: Pool, bs: Blocks, sz: nat)
    requires Inv(p, bs)
    ensures var (k, r) := Alloc(p, bs, sz); k < |bs| ==>
      && (forall j :: 0 <= j < k ==> bs[j].inuse || bs[j].para < sz)
      && k < |r| && r[k].inuse && r[k].addr == bs[k].addr && sz <= r[k].para <= sz + 1
      && Room(bs) == Room(r) + r[k].para + 1 && Used(r) == Used(bs) + r[k].para + 1
      && Room(bs) <= Room(r) + sz + 2
  {
    var k := FirstFit(bs, sz, 0);
    if k < |bs| {
      TakenSums(p, bs, k, sz);
    }
  }

  lemma {:induction false} TakenSums(p: Pool, bs: Blocks, k: nat, sz: nat)
    requires k < |bs| && !bs[k].inuse && bs[k].para >= sz
    ensures var r := Taken(p, bs, k, sz);
      && k < |r| && r[k].inuse && r[k].addr == bs[k].addr && sz <= r[k].para <= sz + 1
      && Room(bs) == Room(r) + r[k].para + 1 && Used(r) == Used(bs) + r[k].para + 1
  {
    var r, b := Taken(p, bs, k, sz), bs[k];
    assert bs == bs[..k] + [b] + bs[k+1..];
    SumMiddle(bs[..k], [b], bs[k+1..]);
    SumOne(b);
    if b.para > sz + 1 {
      var c, d := Block(b.addr, sz, true), Block(b.addr + p.Step(sz + 1), b.para - 1 - sz, false);
      SumMiddle(bs[..k], [c, d], bs[k+1..]);
      SumSplit([c], [d]);
      SumOne(c);
      SumOne(d);
      assert [c] + [d] == [c, d];
    } else {
      var c := b.(inuse := true);
      assert r == bs[..k] + [c] + bs[k+1..];
      SumMiddle(bs[..k], [c], bs[k+1..]);
      SumOne(c);
    }
  }

  /** What is free and what is in use make up the pool. */
  lemma {:induction false} Makes(p: Pool, bs: Blocks)
    requires Tiles(p, bs)
    ensures Room(bs) + Used(bs) == p.total
  {
    hide Room, Used;
    SumTo(p, bs, |bs|);
    assert bs[..|bs|] == bs;
    assert TileAt(p, bs, |bs| - 1);
    StepOnce(p, Room(bs) + Used(bs), p.total);
  }

  lemma {:induction false} StepOnce(p: Pool, m: nat, n: nat)
    requires p.Step(m) == p.Step(n)
    ensures m == n
  {
  }

  lemma {:induction false} SumTo(p: Pool, bs: Blocks, i: nat)
    requires Tiles(p, bs) && 0 < i <= |bs|
    ensures p.base + p.Step(Room(bs[..i]) + Used(bs[..i])) == p.Behind(bs[i-1])
  {
    var b := bs[i-1];
    assert bs[..i] == bs[..i-1] + [b];
    SumSplit(bs[..i-1], [b]);
    SumOne(b);
    if i == 1 {
      assert bs[..0] == [];
      assert Room([]) == 0 == Used([]);
    } else {
      SumTo(p, bs, i - 1);
      assert TileAt(p, bs, i - 2);
      StepAdd(p, Room(bs[..i-1]) + Used(bs[..i-1]), b.para + 1);
    }
  }

  /** How many blocks are in use, and the paragraphs that were asked for in them. */
  function Count(bs: Blocks): nat {
    if bs == [] then 0 else (if bs[0].inuse then 1 else 0) + Count(bs[1..])
  }

  function Asked(bs: Blocks, want: Ledger): nat {
    if bs == [] then 0
    else (if bs[0].inuse && bs[0].addr in want then want[bs[0].addr] else 0) + Asked(bs[1..], want)
  }

  lemma {:induction false} UsedAsked(bs: Blocks, want: Ledger)
    requires forall i :: 0 <= i < |bs| && bs[i].inuse ==>
      bs[i].addr in want && want[bs[i].addr] <= bs[i].para <= want[bs[i].addr] + 1
    ensures Asked(bs, want) + Count(bs) <= Used(bs) <= Asked(bs, want) + 2 * Count(bs)
  {
    if bs != [] {
      assert bs[0].inuse ==> bs[0].addr in want && want[bs[0].addr] <= bs[0].para <= want[bs[0].addr] + 1;
      UsedAsked(bs[1..], want);
    }
  }

  /** In every run of allocations and frees what is free and what is in use make up the
      pool, and what is in use is what was asked for and not given back, with a header
      and at most one paragraph more for each block. */
  lemma {:induction false} RunMakes(p: Pool, ops: seq<Op>)
    requires 1 <= p.total
    ensures var r, want := Run(p, Initial(p), ops), NotedAll(p, Initial(p), map[], ops);
      && want.Keys == Live(r) && Room(r) + Used(r) == p.total
      && Asked(r, want) + Count(r) <= Used(r) <= Asked(r, want) + 2 * Count(r)
  {
    InitialInv(p);
    RunHonours(p, Initial(p), map[], ops);
    var r, want := Run(p, Initial(p), ops), NotedAll(p, Initial(p), map[], ops);
    UsedAsked(r, want);
    hide Run, NotedAll, Room, Used, Asked, Count;
    Makes(p, r);
  }

  /** A free gives back all that its block took. */
  lemma {:induction false} FreeGives(p: Pool, bs: Blocks, k: nat)
    requires Tiles(p, bs) && k < |bs| && bs[k].inuse
    ensures Room(FreedAt(bs, k)) == Room(bs) + bs[k].para + 1 && Used(FreedAt(bs, k)) + bs[k].para + 1 == Used(bs)
  {
    hide FreedAt;
    var lo, hi, c := Lo(bs, k), Hi(bs, k), Block(bs[Lo(bs, k)].addr, Paras(bs, k), false);
    FreedShape(bs, k);
    LoHi(bs, k);
    SumMiddle(bs[..lo], [c], bs[hi..]);
    SumOne(c);
    assert bs == bs[..lo] + bs[lo..hi] + bs[hi..];
    SumMiddle(bs[..lo], bs[lo..hi], bs[hi..]);
    JoinedSums(bs, k);
  }

  /** The blocks that a free makes into one. */
  lemma {:induction false} JoinedSums(bs: Blocks, k: nat)
    requires k < |bs| && bs[k].inuse && Lo(bs, k) <= k < Hi(bs, k) <= |bs|
    ensures Used(bs[Lo(bs, k)..Hi(bs, k)]) == bs[k].para + 1
    ensures Room(bs[Lo(bs, k)..Hi(bs, k)]) + bs[k].para + 1 == Paras(bs, k) + 1
  {
    var lo, hi := Lo(bs, k), Hi(bs, k);
    assert bs[lo..hi] == bs[lo..k] + [bs[k]] + bs[k+1..hi];
    SumMiddle(bs[lo..k], [bs[k]], bs[k+1..hi]);
    SumOne(bs[k]);
    if lo < k {
      assert bs[lo..k] == [bs[k-1]];
      SumOne(bs[k-1]);
    }
    if hi > k + 1 {
      assert bs[k+1..hi] == [bs[k+1]];
      SumOne(bs[k+1]);
    }
  }

  // ----- allocations that succeed

  /** What a series of requests needs at most: each its paragraphs, a header and one
      paragraph that is too little to be split off. */
  function Need(szs: seq<nat>): nat {
    if szs == [] then 0 else szs[0] + 2 + Need(szs[1..])
  }

  /** All requests are met one after the other. */
  ghost predicate AllMet(p: Pool, bs: Blocks, szs: seq<nat>)
    decreases |szs|
  {
    szs == [] ||
    ((exists i :: 0 <= i < |bs| && !bs[i].inuse && bs[i].para >= szs[0])
     && AllMet(p, Do(p, bs, Malloc(szs[0])), szs[1..]))
  }

  /** Only the last block is free, and it has t paragraphs with its header. */
  ghost predicate LastFree(bs: Blocks, t: nat) {
    && (forall i :: 0 <= i < |bs| - 1 ==> bs[i].inuse)
    && (t > 0 ==> bs != [] && !bs[|bs|-1].inuse && bs[|bs|-1].para + 1 == t)
  }

  /** From the start, requests are met as long as what they need together fits the pool. */
  lemma {:induction false} RequestsMet(p: Pool, szs: seq<nat>)
    requires 1 <= p.total && Need(szs) <= p.total
    ensures AllMet(p, Initial(p), szs)
  {
    MetFrom(p, Initial(p), p.total, szs);
  }

  lemma {:induction false} MetFrom(p: Pool, bs: Blocks, t: nat, szs: seq<nat>)
    requires LastFree(bs, t) && Need(szs) <= t
    ensures AllMet(p, bs, szs)
    decreases |szs|
  {
    if szs != [] {
      var t1 := LastTaken(p, bs, t, szs[0]);
      MetFrom(p, Do(p, bs, Malloc(szs[0])), t1, szs[1..]);
    }
  }

  lemma {:induction false} LastTaken(p: Pool, bs: Blocks, t: nat, sz: nat) returns (t1: nat)
    requires LastFree(bs, t) && sz + 2 <= t
    ensures exists i :: 0 <= i < |bs| && !bs[i].inuse && bs[i].para >= sz
    ensures LastFree(Do(p, bs, Malloc(sz)), t1) && t <= t1 + sz + 2
  {
    var n := |bs| - 1;
    assert !bs[n].inuse && bs[n].para >= sz;
    assert FirstFit(bs, sz, 0) == n;
    t1 := if bs[n].para > sz + 1 then bs[n].para - sz else 0;
  }
}

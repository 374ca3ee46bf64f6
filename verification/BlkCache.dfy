/** The block cache of the hosted tools over its ring of blocks
    (hosted/blkcache/blkcache.c). */
module BlkCache {
  import opened Bytes
  import opened Rings
  import opened CacheSpec

  const MAX_BLOCK: nat := 8

  /** The drives: a sector either exists, and then every access to it succeeds,
      or it does not, and then every access to it fails. */
  class Disk {
    const units: map<DevKind, nat>
    var sectors: map<Addr, Sector>

    constructor (units: map<DevKind, nat>, sectors: map<Addr, Sector>)
      ensures this.units == units && this.sectors == sectors
    {
      this.units := units;
      this.sectors := sectors;
    }

    method Read(a: Addr, into: Sector) returns (rc: Rc, data: Sector)
      ensures rc == (if a in sectors then Ok else Io)
      ensures data == (if a in sectors then sectors[a] else into)
    {
      if a in sectors {
        return Ok, sectors[a];
      }
      return Io, into;
    }

    method Write(a: Addr, data: Sector) returns (rc: Rc)
      modifies this`sectors
      ensures rc == (if a in old(sectors) then Ok else Io)
      ensures sectors == (if a in old(sectors) then old(sectors)[a := data] else old(sectors))
    {
      if a in sectors {
        sectors := sectors[a := data];
        return Ok;
      }
      return Io;
    }
  }

  class Block {
    const addr: nat  // linear address of its buffer
    var next: Block?
    var unit: nat
    var blkno: nat
    var inuse: bool
    var dirty: bool
    var data: Sector
    ghost var pos: nat     // its position in the ring
    ghost var stale: bool  // handed out to be overwritten, and not yet filled

    constructor (addr: nat, data: Sector)
      ensures this.addr == addr
      ensures SlotOf(this) == Slot(0, INVALID_BLOCK, false, false, false, data)
    {
      this.addr := addr;
      next := null;
      unit, blkno := 0, INVALID_BLOCK;
      inuse, dirty, stale := false, false, false;
      this.data := data;
    }
  }

  ghost function SlotOf(b: Block): Slot
    reads b
  {
    Slot(b.unit, b.blkno, b.inuse, b.dirty, b.stale, b.data)
  }

  class Cache {
    const disk: Disk
    var blocklist: Block?
    ghost var ring: seq<Block>
    ghost var at: nat

    /** The blocks form one ring; the head pointer stands at position `at`. */
    ghost predicate Wired()
      reads this, ring
    {
      && at < |ring| && blocklist == ring[at]
      && (forall i {:trigger ring[i]} :: 0 <= i < |ring| ==> ring[i].pos == i)
      && (forall i {:trigger ring[i].next} :: 0 <= i < |ring| ==> ring[i].next == ring[Wrap(i + 1, |ring|)])
    }

    ghost function View(): State
      reads this, ring, disk
    {
      State(seq(|ring|, i requires 0 <= i < |ring| reads this, ring => SlotOf(ring[i])), at, disk.sectors, disk.units)
    }

    ghost predicate Valid()
      reads this, ring, disk
    {
      Wired() && Inv(View())
    }

    /** The position of a block in the ring. */
    ghost predicate IsAt(b: Block, i: nat)
      reads this
    {
      i < |ring| && ring[i] == b
    }

    // ----- one block at a time

    /** `flush_block`. */
    method FlushBlock(b: Block, ghost i: nat) returns (rc: Rc)
      requires Wired() && IsAt(b, i)
      modifies b`dirty, disk`sectors
      ensures Wired() && View() == Flushed(old(View()), i)
    {
      ghost var s := View();
      assert s.slots[i] == SlotOf(b);
      if !b.dirty {
        return Ok;
      }
      b.dirty := false;
      assert View().slots == Flushed(s, i).slots;
      var (kind, unit) := DeviceOf(b.unit);
      if !(kind in disk.units && unit < disk.units[kind]) {
        return NoDev;
      }
      rc := disk.Write(Addr(b.unit, b.blkno), b.data);
      assert View().slots == Flushed(s, i).slots;
    }

    method SetSlot(b: Block, ghost i: nat, unit: nat, blkno: nat, inuse: bool, ghost stale: bool, data: Sector)
      requires Wired() && IsAt(b, i)
      modifies b`unit, b`blkno, b`inuse, b`stale, b`data
      ensures Wired()
      ensures View() == old(View()).(slots := old(View()).slots[i :=
        Slot(unit, blkno, inuse, old(b.dirty), stale, data)])
    {
      ghost var s := View();
      assert forall j {:trigger ring[j]} :: 0 <= j < |ring| && j != i ==> ring[j] != b;
      b.unit, b.blkno, b.inuse, b.stale, b.data := unit, blkno, inuse, stale, data;
      assert View().slots == s.slots[i := Slot(unit, blkno, inuse, b.dirty, stale, data)];
    }

    /** Moves the head pointer to the block behind `b`. */
    method SetHead(b: Block, ghost i: nat)
      requires Wired() && IsAt(b, i)
      modifies this`blocklist, this`at
      ensures Wired() && View() == old(View()).(head := Wrap(i + 1, |ring|))
    {
      ghost var s := View();
      blocklist := b.next;
      at := Wrap(i + 1, |ring|);
      assert View().slots == s.slots;
    }

    // ----- the operations

    /** One step around the ring from the j-th block after the head. */
    lemma {:induction false} Around(j: nat)
      requires Wired() && j < |ring|
      ensures var b := ring[Wrap(at + j, |ring|)];
        b.next == (if j + 1 == |ring| then blocklist else ring[Wrap(at + j + 1, |ring|)])
      ensures j + 1 < |ring| ==> ring[Wrap(at + j + 1, |ring|)] != blocklist
    {
      NextPlace(at, j, |ring|);
      assert ring[Wrap(at + j, |ring|)].next == ring[Wrap(Wrap(at + j, |ring|) + 1, |ring|)];
    }

    /** Of the first j blocks, `free` is the first one not in use: the f-th. */
    ghost predicate FreeSoFar(s: State, j: nat, free: Block?, f: nat)
      requires at == s.head < |s.slots| == |ring| && j <= |s.slots|
      reads this
    {
      && f <= j
      && (forall k :: 0 <= k < f ==> BusyAt(s.slots, s.head, k))
      && (if free == null then f == j
          else f < j && !BusyAt(s.slots, s.head, f) && free == ring[Wrap(at + f, |ring|)])
    }

    /** The search of `bc_get`: the block with the sector, or else the first
        block from the head that is not in use, or neither. */
    method Search(a: Addr, ghost s: State) returns (hit: Block?, free: Block?, ghost i: nat)
      requires Wired() && View() == s && a.blkno != INVALID_BLOCK
      ensures hit == null ==> Find(s.slots, a) == |ring| && FreeSoFar(s, |ring|, free, i)
      ensures hit != null ==> IsAt(hit, i) && s.slots[i].Holds(a)
    {
      hide Wired, View, MissAt, BusyAt, IsAt, FreeSoFar;
      ViewSizes(s);
      FreeNone(s);
      free := null;
      var b := blocklist;
      ghost var j, n, f := 0, |ring|, 0;
      while true
        invariant 0 <= j < n && Wrap(at + j, n) < n && b == ring[Wrap(at + j, n)]
        invariant forall k :: 0 <= k < j ==> MissAt(s.slots, s.head, k, a)
        invariant FreeSoFar(s, j, free, f)
        decreases n - j
      {
        BlockAt(s, a, j);
        FreeNext(s, j, free, f);
        FlushFacts(b, j);
        if b.unit == a.unit && b.blkno == a.blkno {
          hit := b;
          i := Wrap(at + j, n);
          return;
        }
        if free == null {
          if !b.inuse {
            free := b;
          } else {
            f := f + 1;
          }
        }
        b := b.next;
        if b == blocklist {
          break;
        }
        j := j + 1;
      }
      MissAll(s.slots, s.head, a);
      hit := null;
      i := f;
    }

    lemma {:induction false} BlockAt(s: State, a: Addr, j: nat)
      requires Wired() && View() == s && j < |ring| && a.blkno != INVALID_BLOCK && Wrap(at + j, |ring|) < |ring|
      ensures s.head == at && |s.slots| == |ring|
      ensures var b := ring[Wrap(at + j, |ring|)];
        && (MissAt(s.slots, s.head, j, a) <==> !(b.unit == a.unit && b.blkno == a.blkno))
        && (MissAt(s.slots, s.head, j, a) || s.slots[Wrap(at + j, |ring|)].Holds(a))
        && (BusyAt(s.slots, s.head, j) <==> b.inuse)
    {
    }

    lemma {:induction false} FreeNone(s: State)
      requires at == s.head < |s.slots| == |ring|
      ensures FreeSoFar(s, 0, null, 0)
    {
    }

    lemma {:induction false} FreeNext(s: State, j: nat, free: Block?, f: nat)
      requires at == s.head < |s.slots| == |ring| && j < |ring| && FreeSoFar(s, j, free, f)
      ensures free != null ==> FreeSoFar(s, j + 1, free, f)
      ensures free == null && BusyAt(s.slots, s.head, j) ==> FreeSoFar(s, j + 1, null, f + 1)
      ensures free == null && !BusyAt(s.slots, s.head, j) ==> FreeSoFar(s, j + 1, ring[Wrap(at + j, |ring|)], f)
    {
    }

    /** What the search found free is what `NextFree` says. */
    lemma {:induction false} FreeFound(s: State, free: Block?, f: nat)
      requires at == s.head < |s.slots| == |ring| && FreeSoFar(s, |ring|, free, f)
      ensures free == null <==> NextFree(s.slots, s.head, 0) == |ring|
      ensures free != null ==> IsAt(free, NextFree(s.slots, s.head, 0))
    {
      NoneFree(s.slots, s.head, 0);
      if free != null {
        NextFreeIs(s.slots, s.head, 0, f);
      }
    }

    /** `bc_get`.  When the read fails the caller is left with a block that is free. */
    method BcGet(unit: nat, blkno: nat, overw: bool) returns (rc: Rc, block: Block?)
      requires Valid() && blkno < INVALID_BLOCK
      modifies this, ring, disk
      ensures ring == old(ring) && Valid()
      ensures var (code, i, r) := Get(old(View()), Addr(unit, blkno), overw);
        && rc == code && View() == r
        && (rc == Ok ==> block != null && IsAt(block, i)) && (rc == NoMem ==> block == null)
        && (rc == Io ==> block != null && block in ring && !block.inuse)
    {
      GetKeeps(View(), Addr(unit, blkno), overw);
      rc, block := GetBlock(Addr(unit, blkno), overw, View());
    }

    method GetBlock(a: Addr, overw: bool, ghost s: State) returns (rc: Rc, block: Block?)
      requires Wired() && View() == s && Unique(s.slots) && a.blkno != INVALID_BLOCK
      modifies this, ring, disk
      ensures ring == old(ring) && Wired()
      ensures var (code, i, r) := Get(s, a, overw);
        && rc == code && View() == r
        && (rc == Ok ==> block != null && IsAt(block, i)) && (rc == NoMem ==> block == null)
        && (rc == Io ==> block != null && block in ring && !block.inuse)
    {
      block := null;
      var (kind, n) := DeviceOf(a.unit);
      if !(kind in disk.units && n < disk.units[kind]) {
        return NoDev, null;
      }
      var hit, free, i := Search(a, s);
      if hit != null {
        FindIs(s.slots, a, i);
        Pin(hit, Find(s.slots, a));
        return Ok, hit;
      }
      FreeFound(s, free, i);
      if free == null {
        return NoMem, null;
      }
      rc := Load(free, NextFree(s.slots, s.head, 0), a, overw, s);
      block := free;
    }

    method Pin(b: Block, ghost i: nat)
      requires Wired() && IsAt(b, i)
      modifies b`inuse
      ensures Wired() && View() == Pinned(old(View()), i)
    {
      ghost var s := View();
      b.inuse := true;
      assert View().slots == Pinned(s, i).slots;
    }

    method Load(b: Block, ghost i: nat, a: Addr, overw: bool, ghost s: State) returns (rc: Rc)
      requires Wired() && View() == s && IsAt(b, i)
      modifies this`blocklist, this`at, b, disk`sectors
      ensures ring == old(ring) && Wired()
      ensures rc == if overw || a in Flushed(s, i).dev then Ok else Io
      ensures rc != Ok ==> !b.inuse
      ensures View() == if rc == Ok then Loaded(s, i, a, overw) else Unloaded(s, i, a)
    {
      var rc0 := FlushBlock(b, i);
      ghost var f := Flushed(s, i);
      assert f.slots[i] == SlotOf(b);
      SetHead(b, i);
      var data := b.data;
      rc := Ok;
      if !overw {
        rc, data := disk.Read(a, b.data);
      }
      if rc != Ok {
        SetSlot(b, i, a.unit, INVALID_BLOCK, false, false, data);
        assert View().slots[i] == SlotOf(b);
      } else {
        SetSlot(b, i, a.unit, a.blkno, true, overw, data);
      }
    }

    ghost predicate NotAt(b: Block, j: nat)
      requires at < |ring| && j < |ring|
      reads this
    {
      ring[Wrap(at + j, |ring|)] != b
    }

    /** Whether a block is in the ring. */
    method InRing(block: Block, ghost s: State) returns (found: bool)
      requires Wired() && View() == s
      ensures Wired() && View() == s && (found <==> block in ring)
    {
      var b := blocklist;
      ghost var j, n := 0, |ring|;
      while b != block
        invariant 0 <= j < n && b == ring[Wrap(at + j, n)]
        invariant forall k :: 0 <= k < j ==> NotAt(block, k)
        decreases n - j
      {
        Around(j);
        assert NotAt(block, j);
        b := b.next;
        if b == blocklist {
          forall i | 0 <= i < n ensures ring[i] != block {
            assert NotAt(block, Behind(at, i, n));
          }
          return false;
        }
        j := j + 1;
      }
      return true;
    }

    /** `bc_put`.  A block handed out to be overwritten has to be filled first. */
    method BcPut(block: Block) returns (rc: Rc)
      requires Valid() && (block in ring ==> !block.stale)
      modifies block`inuse
      ensures Valid() && ring == old(ring)
      ensures rc == if block in ring && old(block.inuse) then Ok else Inval
      ensures rc != Ok ==> View() == old(View())
      ensures rc == Ok ==> forall i :: IsAt(block, i) ==> View() == Released(old(View()), i)
    {
      ghost var s := View();
      var found := InRing(block, s);
      if !found || !block.inuse {
        return Inval;
      }
      ghost var i: nat :| i < |ring| && ring[i] == block;
      assert s.slots[i] == SlotOf(block);
      ReleasedKeeps(s, i);
      Unpin(block, i);
      return Ok;
    }

    method Unpin(b: Block, ghost i: nat)
      requires Wired() && IsAt(b, i)
      modifies b`inuse
      ensures Wired() && View() == Released(old(View()), i)
    {
      ghost var s := View();
      b.inuse := false;
      assert View().slots == Released(s, i).slots;
    }

    /** What a caller does with a block it holds: new contents, marked dirty. */
    method Fill(b: Block, ghost i: nat, data: Sector)
      requires Valid() && IsAt(b, i) && b.inuse
      modifies b`data, b`dirty, b`stale
      ensures Valid() && View() == Stored(old(View()), i, data)
    {
      ghost var s := View();
      assert s.slots[i] == SlotOf(b);
      StoredKeeps(s, i, data);
      PutData(b, i, data);
    }

    method PutData(b: Block, ghost i: nat, data: Sector)
      requires Wired() && IsAt(b, i)
      modifies b`data, b`dirty, b`stale
      ensures Wired() && View() == Stored(old(View()), i, data)
    {
      ghost var s := View();
      b.data, b.dirty, b.stale := data, true, false;
      assert View().slots == Stored(s, i, data).slots;
    }

    /** `bc_sync`. */
    method BcSync() returns (rc: Rc)
      requires Valid()
      modifies ring, disk
      ensures Valid() && ring == old(ring) && rc == Ok && View() == SyncedFrom(old(View()), 0)
    {
      SyncedKeeps(View(), 0);
      FlushAll(View());
      return Ok;
    }

    method FlushAll(ghost s: State)
      requires Wired() && View() == s
      modifies ring, disk
      ensures ring == old(ring) && Wired() && View() == SyncedFrom(s, 0)
    {
      hide Wired, View, SyncedFrom, Flushed;
      ViewSizes(s);
      var b := blocklist;
      ghost var j, n, v := 0, |ring|, s;
      while true
        invariant ring == old(ring) && at == old(at) && n == |ring| && v.head == at < n == |v.slots|
        invariant Wired() && View() == v && 0 <= j < n && Wrap(at + j, n) < n && b == ring[Wrap(at + j, n)]
        invariant SyncedFrom(v, j) == SyncedFrom(s, 0)
        decreases n - j
      {
        b := FlushStep(b, j, v);
        v := Flushed(v, Wrap(at + j, n));
        ViewSizes(v);
        j := j + 1;
        if b == blocklist {
          SyncedEnd(v);
          break;
        }
      }
    }

    method FlushStep(b: Block, ghost j: nat, ghost v: State) returns (b1: Block)
      requires Wired() && View() == v && j < |ring| && b == ring[Wrap(at + j, |ring|)]
      modifies ring, disk
      ensures ring == old(ring) && at == old(at) && Wired() && View() == Flushed(v, Wrap(at + j, |ring|))
      ensures b1 == (if j + 1 == |ring| then blocklist else ring[Wrap(at + j + 1, |ring|)])
      ensures j + 1 < |ring| ==> b1 != blocklist
      ensures SyncedFrom(v, j) == SyncedFrom(Flushed(v, Wrap(at + j, |ring|)), j + 1)
    {
      hide *;
      ViewSizes(v);
      FlushFacts(b, j);
      SyncedStep(v, j);
      b1 := b.next;
      var rc := FlushBlock(b, Wrap(at + j, |ring|));
    }

    lemma {:induction false} FlushFacts(b: Block, j: nat)
      requires Wired() && j < |ring| && b == ring[Wrap(at + j, |ring|)]
      ensures IsAt(b, Wrap(at + j, |ring|)) && b in ring
      ensures Wrap(at + j, |ring|) < |ring| && (j + 1 < |ring| ==> Wrap(at + j + 1, |ring|) < |ring|)
      ensures b.next != null && b.next == (if j + 1 == |ring| then blocklist else ring[Wrap(at + j + 1, |ring|)])
      ensures j + 1 < |ring| ==> b.next != blocklist
    {
      Around(j);
    }

    lemma {:induction false} ViewSizes(v: State)
      requires Wired() && View() == v
      ensures v.head == at < |ring| == |v.slots| && blocklist == ring[at] && Wrap(at, |ring|) == at
    {
    }

    // ----- initialization

    /** `bc_init`: of MAX_BLOCK + 1 adjacent buffers from linear address `base`
        on, those that do not cross a 64K page; what the buffers hold at first
        does not matter. */
    constructor (disk: Disk, base: nat, data: Sector)
      requires forall a :: a in disk.sectors ==> HasUnit(disk.units, a.unit)
      ensures this.disk == disk && Valid() && fresh(ring) && MAX_BLOCK <= |ring|
      ensures Logical(View()) == disk.sectors
      ensures forall i :: 0 <= i < |ring| ==> !ring[i].inuse && !CrossesPage(ring[i].addr)
      ensures forall i, j :: 0 <= i < j < |ring| ==> Apart(ring[i].addr, ring[j].addr)
    {
      this.disk := disk;
      blocklist, ring, at := null, [], 0;
      new;
      Gather(base, data);
      Number(data);
      BlankLogical(View(), Slot(0, INVALID_BLOCK, false, false, false, data));
    }

    /** Its loop over the buffers. */
    method Gather(base: nat, data: Sector)
      requires ring == [] && Growing(base, data)
      modifies this
      ensures fresh(ring) && MAX_BLOCK <= |ring| && Growing(base + (MAX_BLOCK + 1) * BLKSIZE, data)
    {
      ghost var skipped, k := 0, 0;
      var i := 0;
      while i < MAX_BLOCK + 1
        invariant 0 <= i <= MAX_BLOCK + 1 && 0 <= skipped <= 1 && |ring| == i - skipped
        invariant skipped == 1 ==> k < i && CrossesPage(base + k * BLKSIZE)
        invariant fresh(ring) && Growing(base + i * BLKSIZE, data)
      {
        if CrossesPage(base + i * BLKSIZE) {
          if skipped == 1 {
            OneCrossing(base + k * BLKSIZE, base + i * BLKSIZE);
          }
          skipped, k := skipped + 1, i;
        } else {
          Insert(base + i * BLKSIZE, data);
        }
        i := i + 1;
      }
    }

    /** A buffer at linear address p begins and ends in different 64K pages. */
    static predicate CrossesPage(p: nat) {
      (p / 0x10000) % 16 != ((p + BLKSIZE - 1) / 0x10000) % 16
    }

    static ghost predicate Apart(p: nat, q: nat) {
      p + BLKSIZE <= q || q + BLKSIZE <= p
    }

    /** Of the few buffers of the cache, at most one crosses a page. */
    static lemma {:induction false} OneCrossing(p: nat, q: nat)
      requires CrossesPage(p) && BLKSIZE <= q - p <= MAX_BLOCK * BLKSIZE
      ensures !CrossesPage(q)
    {
      var n := p / 0x10000 + 1;
      assert n * 0x10000 <= p + BLKSIZE - 1;
    }

    /** The ring while blocks are still being put in behind its head, from
        buffers below `end`. */
    ghost predicate Growing(end: nat, data: Sector)
      reads this, ring
    {
      && at == 0 && (if ring == [] then blocklist == null else blocklist == ring[0])
      && (forall i {:trigger ring[i].next} :: 0 <= i < |ring| ==> ring[i].next == ring[Wrap(i + 1, |ring|)])
      && Buffers(ring, end, data)
    }

    /** Blocks without a sector, with buffers that are apart. */
    static ghost predicate Buffers(r: seq<Block>, end: nat, data: Sector)
      reads r
    {
      && (forall i, j :: 0 <= i < j < |r| ==> r[i] != r[j] && Apart(r[i].addr, r[j].addr))
      && (forall i {:trigger r[i]} :: 0 <= i < |r| ==>
            && SlotOf(r[i]) == Slot(0, INVALID_BLOCK, false, false, false, data)
            && r[i].addr + BLKSIZE <= end && !CrossesPage(r[i].addr))
    }

    method Insert(addr: nat, data: Sector)
      requires Growing(addr, data) && !CrossesPage(addr)
      modifies this, ring
      ensures Growing(addr + BLKSIZE, data) && |ring| == |old(ring)| + 1
      ensures forall i :: 0 <= i < |ring| ==> ring[i] in old(ring) || fresh(ring[i])
    {
      var b := new Block(addr, data);
      if blocklist == null {
        blocklist := b;
        b.next := b;
        ring := [b];
      } else {
        InsertBehind(b, data);
      }
    }

    /** Puts a new block behind the head. */
    method InsertBehind(b: Block, data: Sector)
      requires Growing(b.addr, data) && !CrossesPage(b.addr) && ring != []
      requires b !in ring && SlotOf(b) == Slot(0, INVALID_BLOCK, false, false, false, data)
      modifies this`ring, b`next, ring`next
      ensures Growing(b.addr + BLKSIZE, data) && ring == [old(ring)[0], b] + old(ring)[1..]
    {
      ghost var was := ring;
      LinkBehind(b);
      ring := [was[0], b] + was[1..];
      assert Buffers(was, b.addr, data);
      BuffersJoin(was, b, data);
      hide Buffers;
    }

    /** The links of that. */
    method LinkBehind(b: Block)
      requires ring != [] && blocklist == ring[0] && b !in ring
      requires forall i, j :: 0 <= i < j < |ring| ==> ring[i] != ring[j]
      requires forall i {:trigger ring[i].next} :: 0 <= i < |ring| ==> ring[i].next == ring[Wrap(i + 1, |ring|)]
      modifies b`next, ring`next
      ensures var r := [ring[0], b] + ring[1..];
        forall i {:trigger r[i].next} :: 0 <= i < |r| ==> r[i].next == r[Wrap(i + 1, |r|)]
    {
      ghost var n, r := |ring|, [ring[0], b] + ring[1..];
      assert ring[0].next == ring[Wrap(1, n)];
      b.next := blocklist.next;
      blocklist.next := b;
      assert forall i :: 2 <= i < n + 1 ==> r[i] == ring[i-1] && r[i] != ring[0];
      forall i {:trigger r[i].next} | 0 <= i < n + 1 ensures r[i].next == r[Wrap(i + 1, n + 1)] {
        if i >= 2 {
          assert old(ring[i-1].next) == ring[Wrap(i, n)];
        }
      }
    }

    static lemma {:induction false} BuffersJoin(r: seq<Block>, b: Block, data: Sector)
      requires r != [] && Buffers(r, b.addr, data) && b !in r && !CrossesPage(b.addr)
      requires SlotOf(b) == Slot(0, INVALID_BLOCK, false, false, false, data)
      ensures Buffers([r[0], b] + r[1..], b.addr + BLKSIZE, data)
    {
      hide CrossesPage;
    }

    ghost method Number(data: Sector)
      requires ring != [] && exists end :: Growing(end, data)
      modifies ring`pos
      ensures Wired() && View().slots == seq(|ring|, i => Slot(0, INVALID_BLOCK, false, false, false, data))
      ensures forall i :: 0 <= i < |ring| ==> !ring[i].inuse && !CrossesPage(ring[i].addr)
      ensures forall i, j :: 0 <= i < j < |ring| ==> Apart(ring[i].addr, ring[j].addr)
    {
      forall i | 0 <= i < |ring| {
        ring[i].pos := i;
      }
      assert forall i :: 0 <= i < |ring| ==> SlotOf(ring[i]) == Slot(0, INVALID_BLOCK, false, false, false, data);
    }

    static lemma {:induction false} BlankLogical(s: State, b: Slot)
      requires s.head < |s.slots| && !b.Cached() && !b.inuse && !b.dirty && !b.stale
      requires forall i :: 0 <= i < |s.slots| ==> s.slots[i] == b
      requires forall a :: a in s.dev ==> HasUnit(s.units, a.unit)
      ensures Inv(s) && Logical(s) == s.dev
    {
      assert forall a :: a in s.dev ==> Contents(s, a) == s.dev[a];
      assert Logical(s) == s.dev;
    }
  }
}

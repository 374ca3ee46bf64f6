/** The FAT of a mounted volume, read and written through the block cache
    (hosted/fat/cluster.c, hosted/fat/fileobj.c). */
module FatVolume {
  import opened Bytes
  import opened CacheSpec
  import opened BlkCache
  import opened Fat12
  import opened FatChains
  import opened FatFiles
  import opened FatSpots
  import opened Dirents

  /** Nothing but the FAT changed, and its copies are as alike as before. */
  ghost predicate OnlyFat(v: Vol, img: Image, r: Image) {
    && GoodVol(v, img) && GoodVol(v, r) && r.Keys == img.Keys
    && (forall a :: a in img && OutsideFat(v, a) ==> r[a] == img[a])
    && (Mirrored(v, img) ==> Mirrored(v, r))
  }

  lemma {:induction false} SetNextOnly(v: Vol, img: Image, c: nat, n: nat)
    requires GoodVol(v, img) && c < v.nclus && n < 0x1000
    ensures OnlyFat(v, img, SetNext(v, img, c, n))
    ensures FatView(v, SetNext(v, img, c, n)) == FatView(v, img)[c := n]
  {
    SetNextView(v, img, c, n);
  }

  lemma {:induction false} OnlyFatRefl(v: Vol, img: Image)
    requires GoodVol(v, img)
    ensures OnlyFat(v, img, img)
  {
  }

  lemma {:induction false} OnlyFatTrans(v: Vol, img: Image, img1: Image, img2: Image)
    requires OnlyFat(v, img, img1) && OnlyFat(v, img1, img2)
    ensures OnlyFat(v, img, img2)
  {
  }

  /** The entry of a cluster out of the two sectors that hold its bytes. */
  lemma {:induction false} EntryIs(v: Vol, img: Image, c: nat, offs: nat, sec0: nat, sec1: nat)
    requires GoodVol(v, img) && c < v.nclus && offs == Offs(c)
    requires sec0 == FatSec(v, 0, offs) && sec1 == FatSec(v, 0, offs + 1)
    ensures Addr(v.unit, sec0) in img && Addr(v.unit, sec1) in img && sec0 < INVALID_BLOCK && sec1 < INVALID_BLOCK
    ensures FatView(v, img)[c] ==
            Decode(c, img[Addr(v.unit, sec0)][offs % BLKSIZE], img[Addr(v.unit, sec1)][(offs + 1) % BLKSIZE])
  {
    EntryInFat(v, img, 0, c);
    FatInRange(v, 0, offs);
    FatInRange(v, 0, offs + 1);
  }

  /** Two stores into the sectors of an entry's bytes set the entry in one copy. */
  lemma {:induction false} SetEntryIs(v: Vol, img: Image, k: nat, c: nat, n: nat, offs: nat, sec0: nat, sec1: nat,
                                      img1: Image)
    requires GoodVol(v, img) && k < v.fatCount && c < v.nclus && offs == Offs(c)
    requires sec0 == FatSec(v, k, offs) && sec1 == FatSec(v, k, offs + 1)
    requires Addr(v.unit, sec0) in img
    requires var s0 := img[Addr(v.unit, sec0)];
      img1 == img[Addr(v.unit, sec0) := s0[offs % BLKSIZE := EncodeLow(c, s0[offs % BLKSIZE], n)]]
    requires Addr(v.unit, sec1) in img1
    ensures var s1 := img1[Addr(v.unit, sec1)];
      img1[Addr(v.unit, sec1) := s1[(offs + 1) % BLKSIZE := EncodeHigh(c, s1[(offs + 1) % BLKSIZE], n)]] ==
      SetEntry(v, img, k, c, n)
  {
  }

  lemma {:induction false} SecsExist(v: Vol, img: Image, k: nat, c: nat, offs: nat, sec0: nat, sec1: nat)
    requires GoodVol(v, img) && k < v.fatCount && c < v.nclus && offs == Offs(c)
    requires sec0 == FatSec(v, k, offs) && sec1 == FatSec(v, k, offs + 1)
    ensures Addr(v.unit, sec0) in img && Addr(v.unit, sec1) in img && sec0 < INVALID_BLOCK && sec1 < INVALID_BLOCK
  {
    EntryInFat(v, img, k, c);
    FatInRange(v, k, offs);
    FatInRange(v, k, offs + 1);
  }

  /** The setter stores inside its blocks for every cluster of the volume: with
      the index as written, when the entries lie in the first FAT sector. */
  predicate SetterFits(v: Vol) {
    v.wrapIndex || v.nclus <= 341
  }

  /** The table of the volume is fat. */
  ghost predicate Has(v: Vol, img: Image, fat: Fat) {
    GoodVol(v, img) && FatView(v, img) == fat
  }

  /** Where growing a file began: the disk, its table, the file's clusters, the
      number of clusters to reach, the size in the entry, and whether a block was
      to be had. */
  datatype Growth = Growth(img: Image, fat: Fat, cs: seq<nat>, target: nat, size: nat, roomy: bool)

  /** Where a file's directory entry lies, and the fields of it that change. */
  class FileInfo {
    const sector: nat
    const secoffs: nat
    var cluster0: nat
    var size: nat

    constructor (sector: nat, secoffs: nat, cluster0: nat, size: nat)
      ensures this.sector == sector && this.secoffs == secoffs && this.cluster0 == cluster0 && this.size == size
    {
      this.sector, this.secoffs, this.cluster0, this.size := sector, secoffs, cluster0, size;
    }
  }

  class FatVol {
    const cache: Cache
    const v: Vol

    constructor (cache: Cache, v: Vol)
      ensures this.cache == cache && this.v == v
    {
      this.cache := cache;
      this.v := v;
    }

    // ----- holding a block

    /** The disk behind the cache is img. */
    ghost predicate At(img: Image)
      reads cache, cache.ring, cache.disk
    {
      && cache.Valid() && Quiet(cache.View()) && Real(cache.View()) && Logical(cache.View()) == img
      && GoodVol(v, img)
    }

    /** Not every block of the cache is in use. */
    ghost predicate Roomy()
      reads cache, cache.ring, cache.disk
    {
      AnyFree(cache.View())
    }

    /** Block b, at position i of the ring, is held with sector a; the disk is
        img, or, while the block is to be filled, img apart from that sector. */
    ghost predicate Held(b: Block, i: nat, a: Addr, img: Image)
      reads cache, cache.ring, cache.disk
    {
      cache.Valid() && cache.IsAt(b, i) && Holding(cache.View(), i, a, img) && GoodVol(v, img)
    }

    ghost predicate Filled(b: Block, i: nat, a: Addr, img: Image)
      reads cache, cache.ring, cache.disk
    {
      && cache.Valid() && cache.IsAt(b, i) && GoodVol(v, img)
      && HoldingFilled(cache.View(), i, a, img) && b in cache.ring && b.data == img[a]
      && b.unit == a.unit && b.blkno == a.blkno
    }

    /** A sector that does not exist is not to be had. */
    method Get(sec: nat, overw: bool, ghost img: Image) returns (rc: Rc, b: Block?, ghost i: nat)
      requires At(img) && sec < INVALID_BLOCK && (overw ==> Addr(v.unit, sec) in img)
      modifies cache, cache.ring, cache.disk
      ensures cache.ring == old(cache.ring)
      ensures rc == Ok || rc == NoMem || rc == Io
      ensures rc != Ok ==> b == null && At(img)
      ensures rc == NoMem ==> !old(Roomy())
      ensures rc != NoMem ==> (rc == Ok <==> Addr(v.unit, sec) in img)
      ensures rc == Ok ==> b != null && Held(b, i, Addr(v.unit, sec), img)
      ensures rc == Ok && !overw ==> Filled(b, i, Addr(v.unit, sec), img)
    {
      ghost var s := cache.View();
      if Addr(v.unit, sec) in img {
        GetHolds(s, Addr(v.unit, sec), overw);
      } else {
        UnitServed(img);
        GetMisses(s, Addr(v.unit, sec));
      }
      rc, b := cache.BcGet(v.unit, sec, overw);
      if rc != Ok {
        b := null;
      }
      i := CacheSpec.Get(s, Addr(v.unit, sec), overw).1;
    }

    lemma {:induction false} UnitServed(img: Image)
      requires At(img)
      ensures HasUnit(cache.View().units, v.unit)
    {
      FatStartsApart(v, 0, v.fatCount);
      assert v.spf > 0 && FatStart(v, 0) == v.fat0sec;
      assert Addr(v.unit, v.fat0sec) in img;
    }

    method Put(b: Block, ghost i: nat, ghost a: Addr, ghost img: Image) returns (rc: Rc)
      requires Filled(b, i, a, img)
      modifies b`inuse
      ensures cache.ring == old(cache.ring) && rc == Ok && At(img) && Roomy()
    {
      ghost var s := cache.View();
      assert s.slots[i] == SlotOf(b);
      ReleaseHolds(s, i, a, img);
      rc := cache.BcPut(b);
    }

    /** New contents for the block that is held, marked dirty. */
    method Set(b: Block, ghost i: nat, ghost a: Addr, ghost img: Image, data: Sector)
      requires Held(b, i, a, img)
      modifies b`data, b`dirty, b`stale
      ensures cache.ring == old(cache.ring) && Filled(b, i, a, img[a := data])
    {
      ghost var s := cache.View();
      assert s.slots[i] == SlotOf(b);
      StoreHolds(s, i, a, img, data);
      cache.Fill(b, i, data);
      assert cache.View().slots[i] == SlotOf(b);
      GoodSameKeys(v, img, img[a := data]);
    }

    /** Gives one block back for another: by then not every block is in use. */
    method MoveTo(b: Block, ghost i: nat, sec0: nat, sec: nat, ghost img: Image) returns (rc: Rc, b1: Block, ghost i1: nat)
      requires Filled(b, i, Addr(v.unit, sec0), img) && Addr(v.unit, sec) in img && sec < INVALID_BLOCK
      modifies cache, cache.ring, cache.disk
      ensures cache.ring == old(cache.ring) && rc == Ok && Filled(b1, i1, Addr(v.unit, sec), img)
    {
      rc, b1, i1 := Ok, b, i;
      if sec != sec0 {
        rc := Put(b, i, Addr(v.unit, sec0), img);
        var b2;
        rc, b2, i1 := Get(sec, false, img);
        b1 := b2;
      }
    }

    // ----- cluster.c

    /** `clus_get_next`. */
    method ClusGetNext(cluster: nat, ghost img: Image) returns (rc: Rc, next: nat)
      requires At(img) && cluster < v.nclus
      modifies cache, cache.ring, cache.disk
      ensures cache.ring == old(cache.ring) && At(img)
      ensures rc == Ok || rc == NoMem
      ensures rc == Ok ==> next == FatView(v, img)[cluster] && Roomy()
      ensures rc != Ok ==> !old(Roomy())
    {
      hide FatView, Filled, Decode, Mirrored, GoodVol, FatSec;
      next := 0;
      var offs := cluster * 3 / 2;
      var sec0 := v.fat0sec + offs / BLKSIZE;
      var sec1 := v.fat0sec + (offs + 1) / BLKSIZE;
      FatSecStep(v, 0, offs);
      FatSecStep(v, 0, offs + 1);
      EntryIs(v, img, cluster, offs, sec0, sec1);
      var blk: Block?;
      ghost var i;
      rc, blk, i := Get(sec0, false, img);
      if rc != Ok {
        return;
      }
      var low := ByteOf(blk, i, sec0, img, offs);
      rc, blk, i := MoveTo(blk, i, sec0, sec1, img);
      var high := ByteOf(blk, i, sec1, img, offs + 1);
      rc := Put(blk, i, Addr(v.unit, sec1), img);
      next := Decode(cluster, low, high);
    }

    /** `data[o % blksize]` of a block that is held. */
    function ByteOf(b: Block, ghost i: nat, ghost sec: nat, ghost img: Image, o: nat): (x: Byte)
      requires Filled(b, i, Addr(v.unit, sec), img)
      reads cache, cache.ring, cache.disk, b
      ensures x == img[Addr(v.unit, sec)][o % BLKSIZE]
    {
      b.data[o % BLKSIZE]
    }

    /** `clus_set_next`. */
    method ClusSetNext(curr: nat, next: nat, ghost img: Image) returns (rc: Rc)
      requires At(img) && curr < v.nclus && next < 0x1000 && SetterFits(v)
      modifies cache, cache.ring, cache.disk
      ensures cache.ring == old(cache.ring)
      ensures rc == Ok || rc == NoMem
      ensures rc == Ok ==> At(SetNext(v, img, curr, next)) && Roomy()
      ensures rc != Ok ==> At(img) && !old(Roomy())
    {
      assert v.fatCount >= 1;
      hide SetEntry, GoodVol, Roomy, At, FatSec;
      var offs := curr * 3 / 2;
      FatSecStep(v, 0, offs);
      FatSecStep(v, 0, offs + 1);
      rc := SetAll(curr, next, offs, v.fat0sec + offs / BLKSIZE, v.fat0sec + (offs + 1) / BLKSIZE, img);
    }

    /** Its loop over the copies of the FAT. */
    method SetAll(curr: nat, next: nat, offs: nat, s0: nat, s1: nat, ghost img: Image) returns (rc: Rc)
      requires At(img) && curr < v.nclus && SetterFits(v) && offs == Offs(curr) && v.fatCount >= 1
      requires s0 == FatSec(v, 0, offs) && s1 == FatSec(v, 0, offs + 1)
      modifies cache, cache.ring, cache.disk
      ensures cache.ring == old(cache.ring)
      ensures rc == Ok || rc == NoMem
      ensures rc == Ok ==> At(SetNext(v, img, curr, next)) && Roomy()
      ensures rc != Ok ==> At(img) && !old(Roomy())
    {
      hide SetEntry, GoodVol, Roomy, At, FatSec, Offs;
      var sec0, sec1, i := s0, s1, 0;
      ghost var img1, was := img, Roomy();
      rc := Ok;
      while i < v.fatCount
        invariant i <= v.fatCount && cache.ring == old(cache.ring) && rc == Ok
        invariant sec0 == FatSec(v, i, offs) && sec1 == FatSec(v, i, offs + 1)
        invariant img1 == SetCopies(v, img, curr, next, i) && At(img1) && (if i > 0 then Roomy() else Roomy() == was)
      {
        rc := SetInCopy(curr, next, offs, sec0, sec1, i, img1);
        if rc != Ok {
          return;
        }
        img1 := SetEntry(v, img1, i, curr, next);
        FatSecStep(v, i, offs);
        FatSecStep(v, i, offs + 1);
        sec0, sec1, i := sec0 + v.spf, sec1 + v.spf, i + 1;
      }
    }

    /** One turn of its loop: copy k. */
    method SetInCopy(curr: nat, next: nat, offs: nat, sec0: nat, sec1: nat, ghost k: nat, ghost img: Image)
      returns (rc: Rc)
      requires At(img) && k < v.fatCount && curr < v.nclus && SetterFits(v) && offs == Offs(curr)
      requires sec0 == FatSec(v, k, offs) && sec1 == FatSec(v, k, offs + 1)
      modifies cache, cache.ring, cache.disk
      ensures cache.ring == old(cache.ring)
      ensures rc == Ok || rc == NoMem
      ensures rc == Ok ==> At(SetEntry(v, img, k, curr, next)) && Roomy()
      ensures rc != Ok ==> At(img) && !old(Roomy())
    {
      hide *;
      CopyFacts(curr, offs, sec0, sec1, k, img);
      var blk: Block?;
      ghost var j, img1;
      rc, blk, j, img1 := StoreFirst(curr, next, offs, sec0, img);
      if rc != Ok {
        return;
      }
      rc, blk, j := MoveTo(blk, j, sec0, sec1, img1);
      SetEntryIs(v, img, k, curr, next, offs, sec0, sec1, img1);
      StoreLast(blk, j, sec1, img1, StoreIndex(v, offs + 1), curr, next, offs + 1);
    }

    lemma {:induction false} CopyFacts(curr: nat, offs: nat, sec0: nat, sec1: nat, k: nat, img: Image)
      requires At(img) && k < v.fatCount && curr < v.nclus && SetterFits(v) && offs == Offs(curr)
      requires sec0 == FatSec(v, k, offs) && sec1 == FatSec(v, k, offs + 1)
      ensures GoodVol(v, img) && Addr(v.unit, sec0) in img && Addr(v.unit, sec1) in img
      ensures sec0 < INVALID_BLOCK && sec1 < INVALID_BLOCK
      ensures StoreIndex(v, offs) == offs % BLKSIZE && StoreIndex(v, offs + 1) == (offs + 1) % BLKSIZE
    {
      AtGood(img);
      SecsExist(v, img, k, curr, offs, sec0, sec1);
      StoreIndexInBlock(v, curr);
    }

    /** The lower byte of the entry is stored; its block stays held. */
    method StoreFirst(curr: nat, next: nat, offs: nat, sec: nat, ghost img: Image)
      returns (rc: Rc, blk: Block?, ghost j: nat, ghost img1: Image)
      requires At(img) && Addr(v.unit, sec) in img && sec < INVALID_BLOCK && StoreIndex(v, offs) == offs % BLKSIZE
      modifies cache, cache.ring, cache.disk
      ensures cache.ring == old(cache.ring)
      ensures rc == Ok || rc == NoMem
      ensures rc == Ok ==> blk != null && Filled(blk, j, Addr(v.unit, sec), img1) && img1.Keys == img.Keys
      ensures rc == Ok ==> var s := img[Addr(v.unit, sec)];
        img1 == img[Addr(v.unit, sec) := s[offs % BLKSIZE := EncodeLow(curr, s[offs % BLKSIZE], next)]]
      ensures rc != Ok ==> At(img) && !old(Roomy())
    {
      hide Filled, At, Roomy, EncodeLow, StoreIndex;
      img1 := img;
      rc, blk, j := Get(sec, false, img);
      if rc != Ok {
        return;
      }
      HeldInRing(blk, j, Addr(v.unit, sec), img);
      var low := ByteOf(blk, j, sec, img, offs);
      img1 := StoreByte(blk, j, sec, img, StoreIndex(v, offs), EncodeLow(curr, low, next));
    }

    lemma {:induction false} HeldInRing(b: Block, i: nat, a: Addr, img: Image)
      requires Filled(b, i, a, img)
      ensures b in cache.ring
    {
    }

    lemma {:induction false} AtGood(img: Image)
      requires At(img)
      ensures GoodVol(v, img)
    {
    }

    method StoreLast(b: Block, ghost i: nat, ghost sec: nat, ghost img: Image, at: nat, curr: nat, next: nat, o: nat)
      requires Filled(b, i, Addr(v.unit, sec), img) && at == o % BLKSIZE
      modifies b`data, b`dirty, b`stale, b`inuse
      ensures cache.ring == old(cache.ring) && Roomy()
      ensures var s := img[Addr(v.unit, sec)];
        At(img[Addr(v.unit, sec) := s[o % BLKSIZE := EncodeHigh(curr, s[o % BLKSIZE], next)]])
    {
      hide Filled, At, Roomy, EncodeHigh;
      ghost var img2 := StoreByte(b, i, sec, img, at, EncodeHigh(curr, ByteOf(b, i, sec, img, o), next));
      var _ := Put(b, i, Addr(v.unit, sec), img2);
    }

    /** `data[o] = x` in a block that is held. */
    method StoreByte(b: Block, ghost i: nat, ghost sec: nat, ghost img: Image, o: nat, x: Byte) returns (ghost img1: Image)
      requires Filled(b, i, Addr(v.unit, sec), img) && o < BLKSIZE
      modifies b`data, b`dirty, b`stale
      ensures cache.ring == old(cache.ring) && img1.Keys == img.Keys
      ensures img1 == img[Addr(v.unit, sec) := img[Addr(v.unit, sec)][o := x]]
      ensures Filled(b, i, Addr(v.unit, sec), img1)
    {
      img1 := img[Addr(v.unit, sec) := img[Addr(v.unit, sec)][o := x]];
      Set(b, i, Addr(v.unit, sec), img, b.data[o := x]);
    }

    /** The scan of `clus_alloc` holds no block yet, or the one with sector sec. */
    ghost predicate Scanning(blk: Block?, i: nat, sec: nat, img: Image)
      reads cache, cache.ring, cache.disk, blk
    {
      if blk == null then At(img) else Filled(blk, i, Addr(v.unit, sec), img)
    }

    /** One turn of the scan: the entry of cluster c, read from the block that is
        held as long as it has the entry's bytes. */
    method ScanEntry(c: nat, blk: Block?, ghost i: nat, ghost sec: nat, ghost img: Image)
      returns (rc: Rc, b: Block?, ghost i1: nat, ghost sec1: nat, next: nat)
      requires Scanning(blk, i, sec, img) && GoodVol(v, img) && c < v.nclus
      modifies cache, cache.ring, cache.disk
      ensures cache.ring == old(cache.ring)
      ensures rc == Ok || rc == NoMem
      ensures rc == Ok ==> b != null && Filled(b, i1, Addr(v.unit, sec1), img) && next == FatView(v, img)[c]
      ensures rc != Ok ==> blk == null && At(img) && !old(Roomy())
    {
      hide FatView, Filled, Decode, Mirrored, GoodVol, FatSec, At, Roomy;
      var offs := c * 3 / 2;
      var s0 := v.fat0sec + offs / BLKSIZE;
      var s1 := v.fat0sec + (offs + 1) / BLKSIZE;
      FatSecStep(v, 0, offs);
      FatSecStep(v, 0, offs + 1);
      EntryIs(v, img, c, offs, s0, s1);
      next, sec1 := 0, s1;
      rc, b, i1 := FirstBlock(blk, i, sec, s0, img);
      if rc != Ok {
        return;
      }
      var low := ByteOf(b, i1, s0, img, offs);
      rc, b, i1 := MoveTo(b, i1, s0, s1, img);
      next := Decode(c, low, ByteOf(b, i1, s1, img, offs + 1));
    }

    method FirstBlock(blk: Block?, ghost i: nat, ghost sec: nat, s0: nat, ghost img: Image)
      returns (rc: Rc, b: Block?, ghost i1: nat)
      requires Scanning(blk, i, sec, img) && Addr(v.unit, s0) in img && s0 < INVALID_BLOCK
      modifies cache, cache.ring, cache.disk
      ensures cache.ring == old(cache.ring)
      ensures rc == Ok || rc == NoMem
      ensures rc == Ok ==> b != null && Filled(b, i1, Addr(v.unit, s0), img)
      ensures rc != Ok ==> blk == null && At(img) && !old(Roomy())
    {
      if blk == null {
        rc, b, i1 := Get(s0, false, img);
      } else {
        assert blk.blkno == sec;
        hide Filled, At, Roomy;
        rc, b, i1 := MoveTo(blk, i, blk.blkno, s0, img);
      }
    }

    /** The scan: the lowest cluster whose entry is zero.  When there is none the
        last block stays held. */
    method FindFree(ghost img: Image) returns (rc: Rc, c: nat)
      requires At(img)
      modifies cache, cache.ring, cache.disk
      ensures cache.ring == old(cache.ring) && At(img) && c <= v.nclus
      ensures rc == Ok || rc == NoMem || rc == NoSpc
      ensures rc != NoMem ==> c == LowestFree(FatView(v, img), 2) && (rc == Ok <==> c < v.nclus)
      ensures rc == Ok ==> Roomy()
      ensures rc == NoMem ==> !old(Roomy())
      ensures rc == NoSpc && v.nclus > 2 ==> SomeHeld()
    {
      hide *;
      FirstGood(img);
      VolSizes(img);
      ghost var fat := FatView(v, img);
      var blk: Block?, next := null, 0;
      ghost var i, sec, was := 0, 0, Roomy();
      NothingHeld(img);
      c := 2;
      while c < v.nclus
        invariant 2 <= c <= v.nclus && cache.ring == old(cache.ring)
        invariant Scanning(blk, i, sec, img) && (if c == 2 then blk == null && Roomy() == was else blk != null)
        invariant LowestFree(fat, 2) == LowestFree(fat, c)
      {
        LowestStep(fat, c);
        rc, blk, i, sec, next := ScanEntry(c, blk, i, sec, img);
        if rc != Ok {
          return;
        }
        if next == 0 {
          HeldInRing(blk, i, Addr(v.unit, sec), img);
          rc := Put(blk, i, Addr(v.unit, sec), img);
          return;
        }
        ScansOn(blk, i, sec, img);
        c := c + 1;
      }
      rc := NoSpc;
      LowestEnd(fat);
      StillAt(blk, i, sec, img);
    }

    lemma {:induction false} VolSizes(img: Image)
      requires GoodVol(v, img)
      ensures 2 <= v.nclus
    {
    }

    lemma {:induction false} NothingHeld(img: Image)
      requires At(img)
      ensures Scanning(null, 0, 0, img)
    {
    }

    lemma {:induction false} ScansOn(b: Block, i: nat, sec: nat, img: Image)
      requires Filled(b, i, Addr(v.unit, sec), img)
      ensures Scanning(b, i, sec, img)
    {
    }

    /** Some block is in use. */
    ghost predicate SomeHeld()
      reads cache, cache.ring, cache.disk
    {
      exists j :: 0 <= j < |cache.View().slots| && cache.View().slots[j].inuse
    }

    lemma {:induction false} StillAt(blk: Block?, i: nat, sec: nat, img: Image)
      requires Scanning(blk, i, sec, img)
      ensures At(img) && (blk != null ==> SomeHeld())
    {
      if blk != null {
        FilledLogical(cache.View(), i, Addr(v.unit, sec), img);
      }
    }

    /** `clus_alloc`. */
    method ClusAlloc(ghost img: Image) returns (rc: Rc, clus: nat, ghost img1: Image)
      requires At(img) && SetterFits(v)
      modifies cache, cache.ring, cache.disk
      ensures cache.ring == old(cache.ring) && At(img1) && OnlyFat(v, img, img1)
      ensures rc != NoMem ==> Alloc(FatView(v, img)) == (rc, clus, FatView(v, img1))
      ensures rc == Ok ==> Roomy()
      ensures rc == NoMem ==> img1 == img && !old(Roomy())
      ensures rc == NoSpc && v.nclus > 2 ==> SomeHeld()
    {
      assert GoodVol(v, img);
      hide FatView, GoodVol, Roomy, At, SomeHeld;
      img1 := img;
      OnlyFatRefl(v, img);
      rc, clus := FindFree(img);
      if rc == NoSpc {
        clus := 0;
      }
      if rc != Ok {
        return;
      }
      SetNextOnly(v, img, clus, FAT_LAST);
      rc := ClusSetNext(clus, FAT_LAST, img);
      img1 := SetNext(v, img, clus, FAT_LAST);
    }

    // ----- fileobj.c

    lemma {:induction false} FirstGood(img: Image)
      requires At(img)
      ensures GoodVol(v, img) && |FatView(v, img)| == v.nclus <= FAT_EOC
    {
    }

    /** The walking loop: up to `target` clusters along the chain. */
    method Walk(cluster0: nat, target: nat, ghost img: Image, ghost fat: Fat, ghost cs: seq<nat>)
      returns (rc: Rc, n: nat, p: nat, c: nat)
      requires At(img) && Has(v, img, fat) && IsChain(fat, cs) && cluster0 == Head(cs)
      modifies cache, cache.ring, cache.disk
      ensures cache.ring == old(cache.ring) && At(img)
      ensures rc == Ok || rc == NoMem
      ensures rc == Ok ==> n == (if target < |cs| then target else |cs|) && CutVars(fat, cs, n, p, c)
      ensures rc == Ok ==> if n > 0 then Roomy() else Roomy() == old(Roomy())
      ensures rc != Ok ==> !old(Roomy())
    {
      assert |fat| == v.nclus <= FAT_EOC && GoodVol(v, img);
      hide FatView, GoodVol, After, IsChain, At, Roomy;
      AfterStep(fat, cs, 0);
      n, p, c, rc := 0, 0, cluster0, Ok;
      ghost var was := Roomy();
      if c != 0 {
        while target > n && c < 0xff0
          invariant n <= |cs| && n <= target && cache.ring == old(cache.ring) && At(img) && rc == Ok
          invariant p == Last(cs[..n]) && c == After(fat, cs, n)
          invariant if n > 0 then Roomy() else Roomy() == was
        {
          AfterStep(fat, cs, n);
          p := c;
          rc, c := ClusGetNext(p, img);
          if rc != Ok {
            return;
          }
          n := n + 1;
        }
        AfterStep(fat, cs, n);
      }
    }

    /** One turn of the growing loop: a new cluster behind p. */
    method GrowTurn(info: FileInfo, p: nat, ghost img: Image)
      returns (rc: Rc, c: nat, ghost img1: Image)
      requires At(img) && SetterFits(v) && p < v.nclus
      modifies info, cache, cache.ring, cache.disk
      ensures cache.ring == old(cache.ring) && At(img1) && OnlyFat(v, img, img1)
      ensures rc == Ok || rc == NoMem || rc == NoSpc
      ensures rc != NoMem ==> Append(FatView(v, img), p) == (rc, c, FatView(v, img1))
      ensures rc == NoMem ==> img1 == img && !old(Roomy())
      ensures rc == Ok ==> Roomy()
      ensures info.size == old(info.size)
      ensures info.cluster0 == if rc == Ok && p == 0 then c else old(info.cluster0)
    {
      AllocFits(FatView(v, img));
      hide FatView, GoodVol, OnlyFat, At, Roomy;
      rc, c, img1 := ClusAlloc(img);
      if rc == Ok {
        ghost var img0 := img1;
        img1 := Link(info, p, c, img0);
        OnlyFatTrans(v, img, img0, img1);
      }
    }

    /** The new cluster c becomes the file's first, or the one behind p. */
    method Link(info: FileInfo, p: nat, c: nat, ghost img: Image) returns (ghost img1: Image)
      requires At(img) && Roomy() && SetterFits(v) && p < v.nclus && 2 <= c < v.nclus
      modifies info, cache, cache.ring, cache.disk
      ensures cache.ring == old(cache.ring) && At(img1) && Roomy() && OnlyFat(v, img, img1)
      ensures FatView(v, img1) == if p == 0 then FatView(v, img) else FatView(v, img)[p := c]
      ensures info.size == old(info.size) && info.cluster0 == if p == 0 then c else old(info.cluster0)
    {
      FirstGood(img);
      hide FatView, GoodVol, OnlyFat, At, Roomy, SetterFits, SetNext;
      img1 := img;
      if p == 0 {
        OnlyFatRefl(v, img);
        info.cluster0 := c;
      } else {
        SetNextOnly(v, img, p, c);
        var _ := ClusSetNext(p, c, img);
        img1 := SetNext(v, img, p, c);
      }
    }

    /** The same turn as a step of `Grow`. */
    method GrowOne(info: FileInfo, p: nat, ghost img: Image, ghost fat: Fat, ghost ds: seq<nat>, ghost target: nat)
      returns (rc: Rc, c: nat, ghost img1: Image, ghost fat1: Fat)
      requires At(img) && SetterFits(v) && Has(v, img, fat) && IsChain(fat, ds)
      requires p == Last(ds) && info.cluster0 == Head(ds) && |ds| < target
      modifies info, cache, cache.ring, cache.disk
      ensures cache.ring == old(cache.ring) && At(img1) && OnlyFat(v, img, img1) && Has(v, img1, fat1)
      ensures rc == NoMem ==> img1 == img && !old(Roomy())
      ensures rc == Ok ==> Roomy() && Grown(fat, ds, target, fat1, c) && info.cluster0 == Head(ds + [c])
      ensures rc != Ok && rc != NoMem ==> info.cluster0 == Head(ds) && Stuck(fat, ds, target, rc, fat1)
      ensures info.size == old(info.size)
    {
      FirstGood(img);
      AppendLast(fat, ds);
      AppendGrown(fat, ds, target);
      hide FatView, GoodVol, At, Roomy, IsChain, Append, Grown, Stuck, Mirrored;
      rc, c, img1 := GrowTurn(info, p, img);
      fat1 := FatView(v, img1);
    }

    /** The growing loop with n clusters reached: p is the last of ds. */
    ghost predicate Midway(info: FileInfo, g: Growth, n: nat, p: nat, img1: Image, now: Fat, ds: seq<nat>)
      reads info, cache, cache.ring, cache.disk
    {
      && At(img1) && OnlyFat(v, g.img, img1) && Has(v, img1, now) && SetterFits(v)
      && |g.cs| <= n == |ds| && p == Last(ds) && info.cluster0 == Head(ds) && info.size == g.size
      && Growing(g.fat, g.cs, g.target, now, ds)
      && (if n == |g.cs| then img1 == g.img && Roomy() == g.roomy else Roomy() && EndsAt(now, p))
    }

    method GrowIter(info: FileInfo, n: nat, p: nat, ghost g: Growth, ghost img0: Image, ghost fat0: Fat, ghost ds: seq<nat>)
      returns (rc: Rc, c: nat, ghost img1: Image, ghost now: Fat)
      requires Midway(info, g, n, p, img0, fat0, ds) && n < g.target
      modifies info, cache, cache.ring, cache.disk
      ensures cache.ring == old(cache.ring) && TurnEnds(info, g, n, c, img1, now, ds, rc)
    {
      IterFacts(info, g, n, p, img0, fat0, ds);
      hide *;
      rc, c, img1, now := GrowOne(info, p, img0, fat0, ds, g.target);
      IterEnds(info, g, n, c, img0, img1, now, fat0, ds, rc);
    }

    /** What one turn gives: the loop goes on, or the file is as long as it gets, or
        nothing has happened yet. */
    ghost predicate TurnEnds(info: FileInfo, g: Growth, n: nat, c: nat, img1: Image, now: Fat, ds: seq<nat>, rc: Rc)
      reads info, cache, cache.ring, cache.disk
    {
      if rc == Ok then Midway(info, g, n + 1, c, img1, now, ds + [c])
      else
        && At(img1) && OnlyFat(v, g.img, img1) && Has(v, img1, now) && info.size == g.size
        && (if rc == NoMem then img1 == g.img && !g.roomy else GrewTo(g.fat, g.cs, g.target, rc, now, info.cluster0))
    }

    lemma {:induction false} IterEnds(info: FileInfo, g: Growth, n: nat, c: nat, img0: Image, img1: Image, now: Fat,
                                      fat0: Fat, ds: seq<nat>, rc: Rc)
      requires At(img1) && OnlyFat(v, g.img, img0) && OnlyFat(v, img0, img1) && Has(v, img1, now) && SetterFits(v)
      requires n == |ds| && |g.cs| <= n < g.target && info.size == g.size && Growing(g.fat, g.cs, g.target, fat0, ds)
      requires rc == Ok ==> Roomy() && Grown(fat0, ds, g.target, now, c) && info.cluster0 == Head(ds + [c])
      requires rc != Ok && rc != NoMem ==> Stuck(fat0, ds, g.target, rc, now) && info.cluster0 == Head(ds)
      requires rc == NoMem ==> img1 == img0 == g.img && !g.roomy
      ensures TurnEnds(info, g, n, c, img1, now, ds, rc)
    {
      OnlyFatTrans(v, g.img, img0, img1);
      hide At, Roomy, OnlyFat, Has, SetterFits, Growing, Grown, EndsAt, Stuck, GrewTo;
      if rc == Ok {
        GrowingStep(g.fat, g.cs, g.target, fat0, ds, now, c);
      } else if rc != NoMem {
        GrowingSticks(g.fat, g.cs, g.target, fat0, ds, rc, now);
      }
    }

    lemma {:induction false} IterFacts(info: FileInfo, g: Growth, n: nat, p: nat, img0: Image, fat0: Fat, ds: seq<nat>)
      requires Midway(info, g, n, p, img0, fat0, ds) && n < g.target
      ensures At(img0) && OnlyFat(v, g.img, img0) && Has(v, img0, fat0) && SetterFits(v) && IsChain(fat0, ds)
      ensures n == |ds| && |g.cs| <= n && p == Last(ds) && info.cluster0 == Head(ds) && info.size == g.size
      ensures Growing(g.fat, g.cs, g.target, fat0, ds) && (!Roomy() ==> img0 == g.img && !g.roomy)
    {
    }

    /** The growing loop. */
    method GrowLoop(info: FileInfo, n0: nat, target: nat, p0: nat, ghost g: Growth)
      returns (rc: Rc, p: nat, ghost img1: Image, ghost now: Fat)
      requires Midway(info, g, n0, p0, g.img, g.fat, g.cs) && n0 < target == g.target && n0 == |g.cs|
      modifies info, cache, cache.ring, cache.disk
      ensures cache.ring == old(cache.ring) && At(img1) && OnlyFat(v, g.img, img1) && Has(v, img1, now)
      ensures rc != NoMem ==> GrewTo(g.fat, g.cs, target, rc, now, info.cluster0)
      ensures rc == NoMem ==> img1 == g.img && !g.roomy
      ensures rc == Ok ==> Roomy() && EndsAt(now, p)
      ensures info.size == g.size
    {
      hide *;
      ghost var ds := g.cs;
      var n := n0;
      rc, p, img1, now := Ok, p0, g.img, g.fat;
      while n < target
        invariant n <= target && cache.ring == old(cache.ring) && rc == Ok
        invariant Midway(info, g, n, p, img1, now, ds)
      {
        var c;
        rc, c, img1, now := GrowIter(info, n, p, g, img1, now, ds);
        TurnFacts(info, g, n, c, img1, now, ds, rc);
        if rc != Ok {
          return;
        }
        p, n, ds := c, n + 1, ds + [c];
      }
      MidwayEnds(info, g, n, p, img1, now, ds);
    }

    lemma {:induction false} TurnFacts(info: FileInfo, g: Growth, n: nat, c: nat, img1: Image, now: Fat, ds: seq<nat>, rc: Rc)
      requires TurnEnds(info, g, n, c, img1, now, ds, rc)
      ensures rc == Ok ==> Midway(info, g, n + 1, c, img1, now, ds + [c])
      ensures rc != Ok ==> At(img1) && OnlyFat(v, g.img, img1) && Has(v, img1, now) && info.size == g.size
      ensures rc != Ok && rc != NoMem ==> GrewTo(g.fat, g.cs, g.target, rc, now, info.cluster0)
      ensures rc == NoMem ==> img1 == g.img && !g.roomy
    {
    }

    lemma {:induction false} MidwayEnds(info: FileInfo, g: Growth, n: nat, p: nat, img1: Image, now: Fat, ds: seq<nat>)
      requires Midway(info, g, n, p, img1, now, ds) && n == g.target > |g.cs|
      ensures At(img1) && OnlyFat(v, g.img, img1) && Has(v, img1, now) && info.size == g.size
      ensures GrewTo(g.fat, g.cs, g.target, Ok, now, info.cluster0) && Roomy() && EndsAt(now, p)
    {
      GrowingEnds(g.fat, g.cs, g.target, now, ds);
    }

    /** Growing, with the end mark written once more. */
    method GrowTo(info: FileInfo, n0: nat, target: nat, p0: nat, ghost g: Growth)
      returns (rc: Rc, ghost img1: Image, ghost fat1: Fat)
      requires Midway(info, g, n0, p0, g.img, g.fat, g.cs) && n0 < target == g.target && n0 == |g.cs| && SetterFits(v)
      modifies info, cache, cache.ring, cache.disk
      ensures cache.ring == old(cache.ring) && At(img1) && OnlyFat(v, g.img, img1) && Has(v, img1, fat1)
      ensures rc != NoMem ==> GrewTo(g.fat, g.cs, target, rc, fat1, info.cluster0)
      ensures rc == NoMem ==> img1 == g.img && !g.roomy
      ensures rc == Ok ==> Roomy()
      ensures info.size == g.size
    {
      hide *;
      var p;
      rc, p, img1, fat1 := GrowLoop(info, n0, target, p0, g);
      if rc == Ok {
        img1 := MarkAfter(p, g.img, img1, fat1);
      }
    }

    method MarkAfter(p: nat, ghost img: Image, ghost img0: Image, ghost fat: Fat) returns (ghost img1: Image)
      requires At(img0) && Roomy() && SetterFits(v) && Has(v, img0, fat) && EndsAt(fat, p) && OnlyFat(v, img, img0)
      modifies cache, cache.ring, cache.disk
      ensures cache.ring == old(cache.ring) && At(img1) && Roomy() && OnlyFat(v, img, img1) && Has(v, img1, fat)
    {
      hide *;
      img1 := MarkEnd(p, img0, fat);
      OnlyFatTrans(v, img, img0, img1);
    }

    lemma {:induction false} MidwayStarts(info: FileInfo, img: Image, fat: Fat, cs: seq<nat>, target: nat)
      requires At(img) && SetterFits(v) && Has(v, img, fat) && IsChain(fat, cs) && |cs| <= target
      requires info.cluster0 == Head(cs)
      ensures Midway(info, Growth(img, fat, cs, target, info.size, Roomy()), |cs|, Last(cs), img, fat, cs)
    {
      OnlyFatRefl(v, img);
      GrowingStarts(fat, cs, target);
    }

    method MarkEnd(p: nat, ghost img: Image, ghost fat: Fat) returns (ghost img1: Image)
      requires At(img) && Roomy() && SetterFits(v) && Has(v, img, fat) && EndsAt(fat, p)
      modifies cache, cache.ring, cache.disk
      ensures cache.ring == old(cache.ring) && At(img1) && Roomy() && OnlyFat(v, img, img1)
      ensures Has(v, img1, fat)
    {
      FirstGood(img);
      SetNextOnly(v, img, p, 0xfff);
      assert fat[p := 0xfff] == fat;
      hide FatView, GoodVol, At, Roomy, Mirrored;
      var _ := ClusSetNext(p, 0xfff, img);
      img1 := SetNext(v, img, p, 0xfff);
    }

    // ----- shortening

    /** `clus_set_next` when a block is to be had. */
    method Store(c: nat, n: nat, ghost img: Image, ghost fat: Fat) returns (ghost img1: Image)
      requires At(img) && Roomy() && SetterFits(v) && Has(v, img, fat) && c < |fat| && n < 0x1000
      modifies cache, cache.ring, cache.disk
      ensures cache.ring == old(cache.ring) && At(img1) && Roomy() && OnlyFat(v, img, img1)
      ensures Has(v, img1, fat[c := n])
    {
      FirstGood(img);
      SetNextOnly(v, img, c, n);
      hide FatView, GoodVol, At, Roomy, Mirrored;
      var _ := ClusSetNext(c, n, img);
      img1 := SetNext(v, img, c, n);
    }

    /** The shortening loop with k clusters reached. */
    ghost predicate Cutting(info: FileInfo, g: Growth, k: nat, done: bool, img1: Image, now: Fat)
      reads info, cache, cache.ring, cache.disk
    {
      && At(img1) && OnlyFat(v, g.img, img1) && Has(v, img1, now) && SetterFits(v) && info.size == g.size
      && CutTo(g.fat, g.cs, g.target, k, done, now)
      && info.cluster0 == (if g.target == 0 && (done || k > 0) then 0 else Head(g.cs))
      && (if k == 0 then img1 == g.img && Roomy() == g.roomy else Roomy())
    }

    /** The first half of a turn: the entry of p is zeroed. */
    method CutOne(info: FileInfo, p: nat, ghost c: nat, ghost g: Growth, ghost k: nat, ghost img0: Image, ghost fat0: Fat)
      returns (ghost img1: Image, ghost now: Fat)
      requires Cutting(info, g, k, false, img0, fat0) && CutVars(g.fat, g.cs, k, p, c) && g.target <= k
      modifies info, cache, cache.ring, cache.disk
      ensures cache.ring == old(cache.ring) && Cutting(info, g, k, true, img1, now)
    {
      CutStores(g.fat, g.cs, g.target, k, p, c, fat0);
      hide CutTo, CutVars, At, Roomy, OnlyFat, Has;
      img1, now := img0, fat0;
      if p == 0 {
        CutHead(info, g, img0, fat0);
      } else {
        img1, now := CutStore(info, p, g, k, img0, fat0);
      }
    }

    method CutHead(info: FileInfo, ghost g: Growth, ghost img0: Image, ghost fat0: Fat)
      requires Cutting(info, g, 0, false, img0, fat0) && CutTo(g.fat, g.cs, g.target, 0, true, fat0) && g.target == 0
      modifies info`cluster0
      ensures Cutting(info, g, 0, true, img0, fat0)
    {
      hide CutTo, At, Roomy, OnlyFat, Has;
      info.cluster0 := 0;
    }

    method CutStore(info: FileInfo, p: nat, ghost g: Growth, ghost k: nat, ghost img0: Image, ghost fat0: Fat)
      returns (ghost img1: Image, ghost now: Fat)
      requires Cutting(info, g, k, false, img0, fat0) && k > 0
      requires p < |fat0| && CutTo(g.fat, g.cs, g.target, k, true, fat0[p := 0])
      modifies cache, cache.ring, cache.disk
      ensures cache.ring == old(cache.ring) && Cutting(info, g, k, true, img1, now)
    {
      hide CutTo, CutVars, At, Roomy, OnlyFat, Has;
      img1 := Store(p, 0, img0, fat0);
      now := fat0[p := 0];
      OnlyFatTrans(v, g.img, img0, img1);
    }

    /** The rest of the turn: on to the next cluster. */
    method CutNext(info: FileInfo, c: nat, ghost g: Growth, ghost k: nat, ghost img: Image, ghost fat: Fat)
      returns (rc: Rc, next: nat)
      requires Cutting(info, g, k, true, img, fat) && k < |g.cs| && c == g.cs[k]
      modifies cache, cache.ring, cache.disk
      ensures cache.ring == old(cache.ring)
      ensures rc == Ok ==> Cutting(info, g, k + 1, false, img, fat) && CutVars(g.fat, g.cs, k + 1, c, next)
      ensures rc != Ok ==> rc == NoMem && At(img) && img == g.img && !g.roomy && info.size == g.size
    {
      hide *;
      CutBefore(info, g, k, img, fat);
      rc, next := ClusGetNext(c, img);
      if rc == Ok {
        CutReached(info, g, k, img, fat);
      }
    }

    /** What is known when the entry of cluster k of the chain is to be read. */
    ghost predicate CutLeft(info: FileInfo, g: Growth, k: nat, img: Image, fat: Fat)
      reads info
    {
      && OnlyFat(v, g.img, img) && Has(v, img, fat) && SetterFits(v) && info.size == g.size
      && CutTo(g.fat, g.cs, g.target, k + 1, false, fat)
      && info.cluster0 == (if g.target == 0 then 0 else Head(g.cs))
    }

    lemma {:induction false} CutBefore(info: FileInfo, g: Growth, k: nat, img: Image, fat: Fat)
      requires Cutting(info, g, k, true, img, fat) && k < |g.cs|
      ensures At(img) && CutLeft(info, g, k, img, fat) && info.size == g.size
      ensures g.cs[k] < v.nclus && GoodVol(v, img) && CutVars(g.fat, g.cs, k + 1, g.cs[k], FatView(v, img)[g.cs[k]])
      ensures Roomy() || (img == g.img && !g.roomy)
    {
      CutMoves(g.fat, g.cs, g.target, k, fat);
      hide At, Roomy, OnlyFat, SetterFits;
    }

    lemma {:induction false} CutReached(info: FileInfo, g: Growth, k: nat, img: Image, fat: Fat)
      requires At(img) && Roomy() && CutLeft(info, g, k, img, fat)
      ensures Cutting(info, g, k + 1, false, img, fat)
    {
    }

    /** The shortening loop. */
    method Shrink(info: FileInfo, p0: nat, c0: nat, ghost g: Growth) returns (rc: Rc, ghost img1: Image, ghost now: Fat)
      requires Cutting(info, g, g.target, false, g.img, g.fat) && CutVars(g.fat, g.cs, g.target, p0, c0)
      modifies info, cache, cache.ring, cache.disk
      ensures cache.ring == old(cache.ring) && At(img1) && info.size == g.size
      ensures rc == Ok ==> Cutting(info, g, |g.cs|, true, img1, now)
      ensures rc != Ok ==> rc == NoMem && img1 == g.img && !g.roomy
    {
      hide *;
      var p, c := p0, c0;
      ghost var k := g.target;
      rc, img1, now := Ok, g.img, g.fat;
      while true
        invariant cache.ring == old(cache.ring) && rc == Ok && g.target <= k
        invariant Cutting(info, g, k, false, img1, now) && CutVars(g.fat, g.cs, k, p, c)
        decreases |g.cs| - k
      {
        CutFacts(info, g, k, p, c, img1, now);
        img1, now := CutOne(info, p, c, g, k, img1, now);
        if c >= 0xff0 {
          break;
        }
        p := c;
        rc, c := CutNext(info, p, g, k, img1, now);
        if rc != Ok {
          return;
        }
        k := k + 1;
      }
      CutAfter(info, g, k, img1, now);
    }

    lemma {:induction false} CutFacts(info: FileInfo, g: Growth, k: nat, p: nat, c: nat, img1: Image, now: Fat)
      requires Cutting(info, g, k, false, img1, now) && CutVars(g.fat, g.cs, k, p, c)
      ensures k <= |g.cs| && (c >= 0xff0 <==> k == |g.cs|) && (k < |g.cs| ==> c == g.cs[k])
    {
      CutEnds(g.fat, g.cs, g.target, k, p, c, now);
    }

    lemma {:induction false} CutAfter(info: FileInfo, g: Growth, k: nat, img1: Image, now: Fat)
      requires Cutting(info, g, k, true, img1, now)
      ensures At(img1) && info.size == g.size
    {
    }

    // ----- fobj_trunc

    /** The loops of `fobj_trunc`. */
    method Resize(info: FileInfo, target: nat, ghost img: Image, ghost fat: Fat, ghost cs: seq<nat>)
      returns (rc: Rc, ghost img1: Image, ghost fat1: Fat)
      requires At(img) && SetterFits(v) && Has(v, img, fat) && IsChain(fat, cs) && info.cluster0 == Head(cs)
      modifies info, cache, cache.ring, cache.disk
      ensures cache.ring == old(cache.ring) && At(img1) && info.size == old(info.size)
      ensures OnlyFat(v, img, img1) && Has(v, img1, fat1)
      ensures rc != NoMem ==> Resized(fat, cs, target, rc, fat1, info.cluster0)
      ensures rc == NoMem ==> img1 == img && !old(Roomy())
      ensures rc == Ok ==> Roomy() || (img1 == img && !old(Roomy()))
    {
      FirstGood(img);
      OnlyFatRefl(v, img);
      ghost var room := Roomy();
      hide Roomy, At, OnlyFat, CutVars, After, GoodVol, FatView;
      img1, fat1 := img, fat;
      var n, p, c;
      rc, n, p, c := Walk(info.cluster0, target, img, fat, cs);
      if rc != Ok {
        return;
      }
      WalkEnds(fat, cs, n, p, c);
      if n < target {
        rc, img1, fat1 := Extend(info, n, target, p, img, fat, cs);
      } else if c != 0 {
        rc, img1, fat1 := Cut(info, p, c, Growth(img, fat, cs, target, info.size, Roomy()));
      } else {
        EmptyResized(fat);
      }
    }

    lemma {:induction false} WalkEnds(fat: Fat, cs: seq<nat>, n: nat, p: nat, c: nat)
      requires IsChain(fat, cs) && CutVars(fat, cs, n, p, c)
      ensures n == |cs| ==> p == Last(cs)
      ensures c == 0 <==> cs == []
    {
      assert n == |cs| ==> cs[..n] == cs;
    }

    method Extend(info: FileInfo, n: nat, target: nat, p: nat, ghost img: Image, ghost fat: Fat, ghost cs: seq<nat>)
      returns (rc: Rc, ghost img1: Image, ghost fat1: Fat)
      requires At(img) && SetterFits(v) && Has(v, img, fat) && IsChain(fat, cs)
      requires info.cluster0 == Head(cs) && p == Last(cs) && n == |cs| < target
      modifies info, cache, cache.ring, cache.disk
      ensures cache.ring == old(cache.ring) && At(img1) && info.size == old(info.size)
      ensures OnlyFat(v, img, img1) && Has(v, img1, fat1)
      ensures rc != NoMem ==> Resized(fat, cs, target, rc, fat1, info.cluster0)
      ensures rc == NoMem ==> img1 == img && !old(Roomy())
      ensures rc == Ok ==> Roomy()
    {
      MidwayStarts(info, img, fat, cs, target);
      hide *;
      rc, img1, fat1 := GrowTo(info, n, target, p, Growth(img, fat, cs, target, info.size, Roomy()));
      if rc != NoMem {
        GrewResized(fat, cs, target, rc, fat1, info.cluster0);
      }
    }

    method Cut(info: FileInfo, p: nat, c: nat, ghost g: Growth) returns (rc: Rc, ghost img1: Image, ghost fat1: Fat)
      requires At(g.img) && SetterFits(v) && Has(v, g.img, g.fat) && IsChain(g.fat, g.cs) && g.cs != []
      requires info.cluster0 == Head(g.cs) && info.size == g.size && Roomy() == g.roomy
      requires g.target > 0 ==> Roomy()
      requires CutVars(g.fat, g.cs, g.target, p, c)
      modifies info, cache, cache.ring, cache.disk
      ensures cache.ring == old(cache.ring) && At(img1) && info.size == g.size
      ensures OnlyFat(v, g.img, img1) && Has(v, img1, fat1)
      ensures rc == Ok || rc == NoMem
      ensures rc != NoMem ==> Resized(g.fat, g.cs, g.target, rc, fat1, info.cluster0)
      ensures rc == NoMem ==> img1 == g.img && !g.roomy
      ensures rc == Ok ==> Roomy()
    {
      CutBegins(info, g, p, c);
      hide *;
      rc, img1, fat1 := Shrink(info, p, c, g);
      if rc == Ok {
        CutResult(info, g, img1, fat1);
      } else {
        fat1 := g.fat;
      }
    }

    lemma {:induction false} CutBegins(info: FileInfo, g: Growth, p: nat, c: nat)
      requires At(g.img) && SetterFits(v) && Has(v, g.img, g.fat) && IsChain(g.fat, g.cs) && g.cs != []
      requires info.cluster0 == Head(g.cs) && info.size == g.size && Roomy() == g.roomy
      requires (g.target > 0 ==> Roomy()) && CutVars(g.fat, g.cs, g.target, p, c)
      ensures Cutting(info, g, g.target, false, g.img, g.fat) && OnlyFat(v, g.img, g.img)
    {
      OnlyFatRefl(v, g.img);
      CutStarts(g.fat, g.cs, g.target);
    }

    lemma {:induction false} CutResult(info: FileInfo, g: Growth, img1: Image, now: Fat)
      requires Cutting(info, g, |g.cs|, true, img1, now) && g.cs != []
      ensures OnlyFat(v, g.img, img1) && Has(v, img1, now) && Roomy() && Has(v, img1, now)
      ensures Resized(g.fat, g.cs, g.target, Ok, now, info.cluster0)
    {
      CutResized(g.fat, g.cs, g.target, now);
    }

    /** The directory entry lies in a sector outside the FAT. */
    ghost predicate EntryFits(info: FileInfo, img: Image) {
      && info.secoffs + 32 <= BLKSIZE && info.sector < INVALID_BLOCK
      && EntryAddr(info) in img && OutsideFat(v, EntryAddr(info))
    }

    ghost function EntryAddr(info: FileInfo): Addr {
      Addr(v.unit, info.sector)
    }

    /** Apart from the FAT only the file's directory entry changed: it has the new
        first cluster and length. */
    ghost predicate OnlyEntry(info: FileInfo, img: Image, r: Image, cluster0: nat, length: nat) {
      && GoodVol(v, img) && GoodVol(v, r) && r.Keys == img.Keys && EntryFits(info, img)
      && r[EntryAddr(info)] == PutDirent(img[EntryAddr(info)], info.secoffs, cluster0, length)
      && (forall a :: a in img && OutsideFat(v, a) && a != EntryAddr(info) ==> r[a] == img[a])
      && (Mirrored(v, img) ==> Mirrored(v, r))
    }

    /** The end of `fobj_trunc`: the directory entry is brought up to date. */
    method PutEntry(info: FileInfo, length: nat, ghost img: Image) returns (rc: Rc, ghost img1: Image)
      requires At(img) && EntryFits(info, img)
      modifies cache, cache.ring, cache.disk
      ensures cache.ring == old(cache.ring) && At(img1)
      ensures rc == Ok || rc == NoMem
      ensures rc == Ok ==> Roomy()
      ensures rc == Ok ==> img1 == img[EntryAddr(info) :=
        PutDirent(img[EntryAddr(info)], info.secoffs, info.cluster0, length)]
      ensures rc != Ok ==> img1 == img && !old(Roomy())
    {
      hide At, Roomy, Filled, PutDirent;
      img1 := img;
      var blk: Block?;
      ghost var i;
      rc, blk, i := Get(info.sector, false, img);
      if rc != Ok {
        return;
      }
      img1 := StoreEntry(blk, i, info, length, img);
      rc := Put(blk, i, EntryAddr(info), img1);
    }

    method StoreEntry(b: Block, ghost i: nat, info: FileInfo, length: nat, ghost img: Image) returns (ghost img1: Image)
      requires Filled(b, i, EntryAddr(info), img) && info.secoffs + 32 <= BLKSIZE
      modifies b`data, b`dirty, b`stale
      ensures cache.ring == old(cache.ring)
      ensures Filled(b, i, EntryAddr(info), img1)
      ensures img1 == img[EntryAddr(info) := PutDirent(img[EntryAddr(info)], info.secoffs, info.cluster0, length)]
    {
      var data := PutDirent(b.data, info.secoffs, info.cluster0, length);
      img1 := img[EntryAddr(info) := data];
      Set(b, i, EntryAddr(info), img, data);
    }

    /** `fobj_trunc`. */
    method FobjTrunc(info: FileInfo, length: nat, ghost img: Image, ghost fat: Fat, ghost cs: seq<nat>)
      returns (rc: Rc, ghost img1: Image, ghost fat1: Fat)
      requires At(img) && SetterFits(v) && Has(v, img, fat) && IsChain(fat, cs) && info.cluster0 == Head(cs)
      requires EntryFits(info, img) && length < 0x1_0000_0000 && 1 <= v.spc
      modifies info, cache, cache.ring, cache.disk
      ensures cache.ring == old(cache.ring) && At(img1) && Has(v, img1, fat1)
      ensures rc != NoMem ==> Resized(fat, cs, Target(v, length), rc, fat1, info.cluster0)
      ensures rc == Ok ==> Roomy() && info.size == length && OnlyEntry(info, img, img1, info.cluster0, length)
      ensures rc != Ok ==> OnlyFat(v, img, img1)
      ensures rc == NoMem ==> img1 == img && !old(Roomy())
      ensures rc == NoSpc ==> info.size == old(info.size)
      ensures rc == Ok || rc == NoSpc || rc == NoMem
    {
      hide *;
      rc, img1, fat1 := TruncTo(info, Target(v, length), length, img, fat, cs);
    }

    method TruncTo(info: FileInfo, target: nat, length: nat, ghost img: Image, ghost fat: Fat, ghost cs: seq<nat>)
      returns (rc: Rc, ghost img1: Image, ghost fat1: Fat)
      requires At(img) && SetterFits(v) && Has(v, img, fat) && IsChain(fat, cs) && info.cluster0 == Head(cs)
      requires EntryFits(info, img)
      modifies info, cache, cache.ring, cache.disk
      ensures cache.ring == old(cache.ring) && At(img1) && Has(v, img1, fat1)
      ensures rc != NoMem ==> Resized(fat, cs, target, rc, fat1, info.cluster0)
      ensures rc == Ok ==> Roomy() && info.size == length && OnlyEntry(info, img, img1, info.cluster0, length)
      ensures rc != Ok ==> OnlyFat(v, img, img1)
      ensures rc == NoMem ==> img1 == img && !old(Roomy())
      ensures rc == NoSpc ==> info.size == old(info.size)
      ensures rc == Ok || rc == NoSpc || rc == NoMem
    {
      hide *;
      rc, img1, fat1 := Resize(info, target, img, fat, cs);
      ResizedCode(fat, cs, target, rc, fat1, info.cluster0);
      if rc != Ok {
        return;
      }
      info.size := length;
      EntryStays(info, img, img1);
      ghost var img0 := img1;
      rc, img1 := PutEntry(info, length, img0);
      if rc == Ok {
        EntryWritten(info, img, img0, img1, info.cluster0, length, fat1);
      } else {
        HasUnique(img, fat, fat1);
      }
    }

    lemma {:induction false} HasUnique(img: Image, fat: Fat, fat1: Fat)
      requires Has(v, img, fat) && Has(v, img, fat1)
      ensures fat == fat1 && OnlyFat(v, img, img)
    {
    }

    lemma {:induction false} ResizedCode(fat: Fat, cs: seq<nat>, target: nat, rc: Rc, fat1: Fat, cluster0: nat)
      requires IsChain(fat, cs) && (rc != NoMem ==> Resized(fat, cs, target, rc, fat1, cluster0))
      ensures rc == Ok || rc == NoSpc || rc == NoMem
    {
      if rc != NoMem {
        TruncLinks(fat, cs, target);
      }
    }

    lemma {:induction false} EntryStays(info: FileInfo, img: Image, img1: Image)
      requires EntryFits(info, img) && OnlyFat(v, img, img1)
      ensures EntryFits(info, img1)
    {
    }

    lemma {:induction false} EntryWritten(info: FileInfo, img: Image, img0: Image, img1: Image, cluster0: nat, length: nat,
                                          fat1: Fat)
      requires OnlyFat(v, img, img0) && Has(v, img0, fat1) && EntryFits(info, img)
      requires EntryAddr(info) in img0
      requires img1 == img0[EntryAddr(info) := PutDirent(img0[EntryAddr(info)], info.secoffs, cluster0, length)]
      ensures OnlyEntry(info, img, img1, cluster0, length) && Has(v, img1, fat1)
    {
      ViewOutside(v, img0, img1);
    }

    // ----- fobj_get_sec_at_offs

    /** n steps along the chain. */
    method Follow(cluster0: nat, n: nat, ghost img: Image, ghost fat: Fat, ghost cs: seq<nat>) returns (rc: Rc, ci: nat)
      requires At(img) && Has(v, img, fat) && Linked(fat, cs) && cluster0 == Head(cs)
      requires n < |Walked(cs)| || Ends(fat, cs)
      modifies cache, cache.ring, cache.disk
      ensures cache.ring == old(cache.ring) && At(img)
      ensures rc == Ok || rc == NoMem || rc == Io
      ensures rc == Ok ==> n < |Walked(cs)| && ci == Walked(cs)[n] && (old(Roomy()) ==> Roomy())
      ensures rc == Io ==> n >= |Walked(cs)|
      ensures rc == NoMem ==> !old(Roomy())
    {
      FirstGood(img);
      assert |fat| <= FAT_EOC;
      hide FatView, GoodVol, At, Roomy, Linked, IsChain, Has;
      rc, ci := Ok, cluster0;
      var clus := 0;
      ghost var was := Roomy();
      while clus < n
        invariant clus <= n && clus < |Walked(cs)| && ci == Walked(cs)[clus] && rc == Ok
        invariant cache.ring == old(cache.ring) && At(img) && (if clus > 0 then Roomy() else Roomy() == was)
      {
        WalkStep(img, fat, cs, clus, n);
        rc, ci := ClusGetNext(ci, img);
        if rc != Ok {
          return;
        }
        if ci >= 0xff0 {
          return Io, ci;
        }
        clus := clus + 1;
      }
    }

    lemma {:induction false} WalkStep(img: Image, fat: Fat, cs: seq<nat>, k: nat, n: nat)
      requires Has(v, img, fat) && Linked(fat, cs) && k < |Walked(cs)| && k < n && (n < |Walked(cs)| || Ends(fat, cs))
      ensures Walked(cs)[k] < v.nclus
      ensures var next := FatView(v, img)[Walked(cs)[k]];
        if next >= FAT_EOC then n >= |Walked(cs)| else k + 1 < |Walked(cs)| && next == Walked(cs)[k + 1]
    {
      if cs != [] {
        FollowStep(fat, cs, k);
      }
    }

    /** `fobj_get_sec_at_offs`. */
    method FobjGetSecAtOffs(cluster0: nat, offs: nat, overw: bool, ghost img: Image, ghost fat: Fat, ghost cs: seq<nat>)
      returns (rc: Rc, blk: Block?, ghost i: nat)
      requires At(img) && Has(v, img, fat) && Linked(fat, cs) && cluster0 == Head(cs) && 1 <= v.spc
      requires match SpotAt(v, cs, offs)
               case Ended => Ends(fat, cs)
               case Spot(a) => a.blkno != INVALID_BLOCK && (overw ==> a in img)
      modifies cache, cache.ring, cache.disk
      ensures cache.ring == old(cache.ring)
      ensures rc == Ok || rc == NoMem || rc == Io
      ensures rc == Ok ==> Found(v, img, cs, offs) && blk != null && Held(blk, i, SpotAt(v, cs, offs).a, img)
      ensures rc == Ok && !overw ==> Filled(blk, i, SpotAt(v, cs, offs).a, img)
      ensures rc != Ok ==> At(img)
      ensures rc == Io ==> !Found(v, img, cs, offs)
      ensures rc == NoMem ==> !old(Roomy())
    {
      hide At, Has, Linked, Roomy, Held, Filled, Ends, Walked, ClusIndex, SecNo;
      blk, i := null, 0;
      var ci;
      rc, ci := Follow(cluster0, ClusIndex(v, offs), img, fat, cs);
      if rc == Ok {
        SecBound(ci, offs);
        rc, blk, i := Get(SecNo(v, ci, offs), overw, img);
      }
    }

    lemma {:induction false} SecBound(ci: nat, offs: nat)
      requires 1 <= v.spc
      ensures SecNo(v, ci, offs) < ULONG == INVALID_BLOCK + 1
    {
    }
  }
}

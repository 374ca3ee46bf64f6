/** What a read copies, from any offset (hosted/fat/fileops.c:f_read,
    hosted/fat/fileobj.c:fobj_get_sec_at_offs).

    The offset is an unsigned long and is looked up as a long.  A file without
    clusters is looked up from cluster 0, and an offset just below zero in sectors
    before the file's first. */
module FatSpots {
  import opened Arith
  import opened Bytes
  import opened CacheSpec
  import opened Fat12
  import opened FatChains
  import opened FatFiles

  const ULONG: Width := 0x1_0000_0000  // how many values an unsigned long has

  /** Cluster sizes up to here can be counted in a 16-bit int. */
  const MAX_SPC: nat := 63

  // ----- fobj_get_sec_at_offs

  /** A number as an unsigned long. */
  function Unsigned(n: int): nat { n % ULONG }

  lemma {:induction false} InRange(n: nat)
    requires n < ULONG
    ensures Unsigned(n) == n
  {
    Small(n, ULONG);
  }

  /** The part of a sector that a turn of the loop copies. */
  function Part(s: Sector, off: nat, n: nat): (part: seq<Byte>)
    requires InSector(off, n)
    ensures |part| == n
  {
    s[off % BLKSIZE..off % BLKSIZE + n]
  }

  /** An unsigned long as a long. */
  function Signed(n: int): int {
    if n % ULONG < ULONG / 2 then n % ULONG else n % ULONG - ULONG
  }

  /** Division as in C: towards zero. */
  function CDiv(a: int, b: nat): int
    requires 0 < b
  {
    if a >= 0 then a / b else -(-a / b)
  }

  /** The clusters that a walk comes to. */
  function Walked(cs: seq<nat>): seq<nat> { if cs == [] then [0] else cs }

  /** How many steps along the chain are taken: the quotient as an unsigned long. */
  function ClusIndex(v: Vol, off: nat): nat
    requires 1 <= v.spc
  {
    CDiv(Signed(off), Bpc(v)) % ULONG
  }

  /** The offset in the cluster. */
  function InCluster(v: Vol, off: nat): int
    requires 1 <= v.spc
  {
    Signed(Signed(off) - ClusIndex(v, off) * Bpc(v))
  }

  function SecNo(v: Vol, ci: nat, off: nat): nat
    requires 1 <= v.spc
  {
    (v.datasec + (ci - 2) * v.spc + CDiv(InCluster(v, off), BLKSIZE)) % ULONG
  }

  /** Where the walk for an offset ends: behind the chain, or at a sector. */
  datatype Spot = Ended | Spot(a: Addr)

  function SpotAt(v: Vol, cs: seq<nat>, off: nat): Spot
    requires 1 <= v.spc
  {
    var k := ClusIndex(v, off);
    if k < |Walked(cs)| then Spot(Addr(v.unit, SecNo(v, Walked(cs)[k], off))) else Ended
  }

  /** The walk comes to a sector that exists. */
  ghost predicate Found(v: Vol, img: Image, cs: seq<nat>, off: nat)
    requires 1 <= v.spc
  {
    SpotAt(v, cs, off).Spot? && SpotAt(v, cs, off).a in img
  }

  ghost predicate FoundAt(v: Vol, img: Image, cs: seq<nat>, off: nat, i: nat)
    requires 1 <= v.spc
  {
    Found(v, img, cs, off + i)
  }

  // ----- the loop of f_read

  /** What arrives in the buffer when n bytes are to be read. */
  function Arrived(v: Vol, img: Image, cs: seq<nat>, off: nat, n: nat): (s: seq<Byte>)
    requires 1 <= v.spc
    ensures |s| <= n
    decreases n
  {
    if n == 0 then []
    else
      match SpotAt(v, cs, off)
      case Ended => []
      case Spot(a) =>
        if a !in img then []
        else
          var m := Chunk(off, n);
          Part(img[a], off, m) + Arrived(v, img, cs, Unsigned(off + m), n - m)
  }

  /** The walk ends in an end mark: the file's own, or, for a file without
      clusters, the first entry of the table, which holds the media byte. */
  ghost predicate Ends(fat: Fat, cs: seq<nat>) {
    IsChain(fat, cs) && |fat| > 0 && (cs == [] ==> fat[0] >= FAT_EOC)
  }

  /** On its way the read runs off the clusters only into an end mark, and does not
      come to the sector number that stands for none. */
  ghost predicate Sound(v: Vol, img: Image, fat: Fat, cs: seq<nat>, off: nat, n: nat)
    requires 1 <= v.spc
    decreases n
  {
    n > 0 ==>
      match SpotAt(v, cs, off)
      case Ended => Ends(fat, cs)
      case Spot(a) =>
        && a.blkno != INVALID_BLOCK
        && (a in img ==> Sound(v, img, fat, cs, Unsigned(off + Chunk(off, n)), n - Chunk(off, n)))
  }

  // ----- in the file

  lemma {:induction false} Pigeons(cs: seq<nat>, n: nat)
    requires Distinct(cs) && forall i :: 0 <= i < |cs| ==> cs[i] < n
    ensures |cs| <= n
    decreases n
  {
    if cs != [] {
      assert cs[0] < n;
      if i :| 0 <= i < |cs| && cs[i] == n - 1 {
        var ds := cs[..i] + cs[i + 1..];
        assert forall j :: 0 <= j < |ds| ==> ds[j] == cs[if j < i then j else j + 1];
        Pigeons(ds, n - 1);
      } else {
        Pigeons(cs, n - 1);
      }
    }
  }

  /** All bytes of a file lie far below 2^31. */
  lemma {:induction false} SmallFile(v: Vol, img: Image, cs: seq<nat>)
    requires GoodVol(v, img) && v.spc <= MAX_SPC && Linked(FatView(v, img), cs)
    ensures |Walked(cs)| * Bpc(v) < 0x800_0000 && |Walked(cs)| <= FAT_EOC
  {
    Pigeons(cs, v.nclus);
    assert |Walked(cs)| <= FAT_EOC && Bpc(v) <= 512 * MAX_SPC;
    hide GoodVol, FatView, Linked;
    Below(|Walked(cs)|, FAT_EOC, Bpc(v), 512 * MAX_SPC);
  }

  lemma {:induction false} Below(a: nat, b: nat, c: nat, d: nat)
    requires a <= b && c <= d
    ensures a * c <= b * d
  {
    assert b * d == a * c + (b - a) * d + a * (d - c);
    Product(b - a, d);
    Product(a, d - c);
  }

  lemma {:induction false} SignedIs(n: int)
    requires -0x8000_0000 <= n < 0x8000_0000
    ensures Signed(n) == n
  {
    if n < 0 {
      WrapsOnce(n, ULONG);
    } else {
      Small(n, ULONG);
    }
  }

  /** An offset from zero on: the quotient and the rest. */
  lemma {:induction false} IndexUp(v: Vol, off: nat)
    requires 1 <= v.spc && off < 0x8000_0000
    ensures Signed(off) == off && ClusIndex(v, off) == ClusterAt(v, off)
    ensures CDiv(InCluster(v, off), BLKSIZE) == SectorAt(v, off)
  {
    var b := Bpc(v);
    var q, r := Quotient(off, b), off % b;
    SignedIs(off);
    QuotientBelow(off, b);
    Small(q, ULONG);
    assert off - q * b == r by {
      Divides(off, b);
    }
    assert 0 <= r <= off by {
      Product(q, b);
    }
    SignedIs(r);
    hide Signed, Bpc, Quotient;
  }

  lemma {:induction false} Divides(n: nat, m: nat)
    requires 0 < m
    ensures n == n / m * m + n % m
  {
  }

  lemma {:induction false} QuotientBelow(n: nat, m: nat)
    requires 0 < m
    ensures n / m <= n
  {
    assert n == n / m * m + n % m;
    Product(n / m, m - 1);
  }

  /** In the file the walk comes to the sector of the file. */
  lemma {:induction false} SpotInside(v: Vol, img: Image, cs: seq<nat>, off: nat)
    requires GoodVol(v, img) && v.spc <= MAX_SPC && Linked(FatView(v, img), cs) && HasByte(v, cs, off)
    ensures off < 0x800_0000 && SpotAt(v, cs, off) == Spot(SecOf(v, cs, off / BLKSIZE))
    ensures SecOf(v, cs, off / BLKSIZE) in img && SecOf(v, cs, off / BLKSIZE).blkno < INVALID_BLOCK
  {
    hide *;
    PlaceInside(v, img, cs, off);
    SecNoIs(v, cs[ClusterAt(v, off)], off);
    SpotFrom(v, cs, off);
  }

  lemma {:induction false} PlaceInside(v: Vol, img: Image, cs: seq<nat>, off: nat)
    requires GoodVol(v, img) && v.spc <= MAX_SPC && Linked(FatView(v, img), cs) && HasByte(v, cs, off)
    ensures 1 <= v.spc && off < 0x800_0000 && ClusterAt(v, off) < |cs| && 2 <= cs[ClusterAt(v, off)]
    ensures var a := SecOf(v, cs, off / BLKSIZE);
      && a in img && a.blkno < INVALID_BLOCK
      && a == Addr(v.unit, ClusSec(v, cs[ClusterAt(v, off)]) + SectorAt(v, off))
  {
    hide GoodVol, FatView, Linked, HasByte, SecOf, ClusterAt, SectorAt, ClusSec, Bpc, Walked;
    SectorInside(v, img, cs, off);
    SmallFile(v, img, cs);
    OffsetBelow(v, cs, off);
    PlaceIs(v, cs, off);
    WalkedIs(v, cs);
  }

  lemma {:induction false} WalkedIs(v: Vol, cs: seq<nat>)
    ensures cs != [] ==> |cs| * Bpc(v) == |Walked(cs)| * Bpc(v)
  {
  }

  lemma {:induction false} SectorInside(v: Vol, img: Image, cs: seq<nat>, off: nat)
    requires GoodVol(v, img) && Linked(FatView(v, img), cs) && HasByte(v, cs, off)
    ensures 1 <= v.spc && off / BLKSIZE / v.spc < |cs| && 2 <= cs[off / BLKSIZE / v.spc]
    ensures SecOf(v, cs, off / BLKSIZE) in img && SecOf(v, cs, off / BLKSIZE).blkno < INVALID_BLOCK
  {
    SecExists(v, img, cs, off / BLKSIZE);
    hide SecOf, FatView;
  }

  lemma {:induction false} SpotFrom(v: Vol, cs: seq<nat>, off: nat)
    requires 1 <= v.spc && off < 0x8000_0000 && ClusterAt(v, off) < |cs|
    ensures SpotAt(v, cs, off) == Spot(Addr(v.unit, SecNo(v, cs[ClusterAt(v, off)], off)))
  {
    IndexUp(v, off);
    hide SecNo, ClusIndex, ClusterAt;
  }

  lemma {:induction false} SecNoIs(v: Vol, ci: nat, off: nat)
    requires 1 <= v.spc && 2 <= ci && off < 0x8000_0000
    ensures ClusSec(v, ci) + SectorAt(v, off) < INVALID_BLOCK ==> SecNo(v, ci, off) == ClusSec(v, ci) + SectorAt(v, off)
  {
    IndexUp(v, off);
    hide ClusIndex, InCluster, CDiv, SectorAt;
    assert SecNo(v, ci, off) == (ClusSec(v, ci) + SectorAt(v, off)) % ULONG;
  }

  lemma {:induction false} OffsetBelow(v: Vol, cs: seq<nat>, off: nat)
    requires HasByte(v, cs, off)
    ensures off < |cs| * Bpc(v)
  {
    var k := off / BLKSIZE / v.spc;
    RowFits(k, |cs|, v.spc);
    var q := off / BLKSIZE;
    assert q == k * v.spc + q % v.spc && off == q * BLKSIZE + off % BLKSIZE;
    assert |cs| * Bpc(v) == |cs| * v.spc * BLKSIZE;
  }

  /** In the file exactly the file's bytes arrive. */
  lemma {:induction false} ArrivedInside(v: Vol, img: Image, cs: seq<nat>, off: nat, n: nat)
    requires GoodVol(v, img) && v.spc <= MAX_SPC && Linked(FatView(v, img), cs) && Backed(v, cs, off + n)
    ensures Arrived(v, img, cs, off, n) == FileBytes(v, img, cs, off, n)
    ensures Sound(v, img, FatView(v, img), cs, off, n)
    decreases n
  {
    hide *;
    if n == 0 {
      NothingArrives(v, img, cs, off);
    } else {
      var m := Chunk(off, n);
      BackedParts(v, cs, off, n);
      ArrivedInside(v, img, cs, off + m, n - m);
      ArrivedTurn(v, img, cs, off, n);
      FileBytesJoin(v, img, cs, off, m, n - m);
    }
  }

  lemma {:induction false} NothingArrives(v: Vol, img: Image, cs: seq<nat>, off: nat)
    requires GoodVol(v, img)
    ensures 1 <= v.spc && Arrived(v, img, cs, off, 0) == FileBytes(v, img, cs, off, 0)
    ensures Sound(v, img, FatView(v, img), cs, off, 0)
  {
  }

  lemma {:induction false} BackedParts(v: Vol, cs: seq<nat>, off: nat, n: nat)
    requires Backed(v, cs, off + n) && n > 0
    ensures var m := Chunk(off, n); 0 < m <= n && Backed(v, cs, off + m + (n - m))
  {
  }

  lemma {:induction false} ArrivedTurn(v: Vol, img: Image, cs: seq<nat>, off: nat, n: nat)
    requires GoodVol(v, img) && v.spc <= MAX_SPC && Linked(FatView(v, img), cs) && Backed(v, cs, off + n) && n > 0
    ensures var m := Chunk(off, n);
      && m + (n - m) == n && 1 <= v.spc
      && Arrived(v, img, cs, off, n) == FileBytes(v, img, cs, off, m) + Arrived(v, img, cs, off + m, n - m)
      && (Sound(v, img, FatView(v, img), cs, off + m, n - m) ==> Sound(v, img, FatView(v, img), cs, off, n))
  {
    hide *;
    var m := Chunk(off, n);
    BackedHas(v, img, cs, off, n);
    SpotInside(v, img, cs, off);
    ArrivedStep(v, img, FatView(v, img), cs, off, n);
    PartOfFile(v, img, cs, off, m);
    InRange(off + m);
  }

  lemma {:induction false} PartOfFile(v: Vol, img: Image, cs: seq<nat>, off: nat, m: nat)
    requires InSector(off, m) && SecOf(v, cs, off / BLKSIZE) in img
    ensures Part(img[SecOf(v, cs, off / BLKSIZE)], off, m) == FileBytes(v, img, cs, off, m)
  {
    PartIs(v, img, cs, off, m);
  }

  lemma {:induction false} BackedHas(v: Vol, img: Image, cs: seq<nat>, off: nat, n: nat)
    requires GoodVol(v, img) && v.spc <= MAX_SPC && Linked(FatView(v, img), cs) && Backed(v, cs, off + n) && n > 0
    ensures HasByte(v, cs, off) && 1 <= v.spc && off + n < ULONG
  {
    BackedByte(v, cs, off + n, off);
    SmallFile(v, img, cs);
  }

  /** One turn that finds its sector. */
  lemma {:induction false} ArrivedStep(v: Vol, img: Image, fat: Fat, cs: seq<nat>, off: nat, n: nat)
    requires 1 <= v.spc && n > 0 && SpotAt(v, cs, off).Spot? && SpotAt(v, cs, off).a in img
    ensures var m, a := Chunk(off, n), SpotAt(v, cs, off).a;
      && 0 < m <= n && InSector(off, m)
      && Arrived(v, img, cs, off, n) ==
         Part(img[a], off, m) + Arrived(v, img, cs, Unsigned(off + m), n - m)
      && |Arrived(v, img, cs, off, n)| == m + |Arrived(v, img, cs, Unsigned(off + m), n - m)|
      && (a.blkno < INVALID_BLOCK && Sound(v, img, fat, cs, Unsigned(off + m), n - m) ==> Sound(v, img, fat, cs, off, n))
      && (Sound(v, img, fat, cs, off, n) ==> a.blkno != INVALID_BLOCK && Sound(v, img, fat, cs, Unsigned(off + m), n - m))
  {
    hide SpotAt;
  }

  // ----- how much arrives

  /** A turn of the loop begins i bytes from off. */
  predicate Begins(off: nat, i: nat) { i == 0 || (off + i) % BLKSIZE == 0 }

  /** More than j bytes arrive exactly when the turns that begin up to there find
      their sectors. */
  lemma {:induction false} ArrivesOn(v: Vol, img: Image, cs: seq<nat>, off: nat, n: nat, j: nat)
    requires 1 <= v.spc && j < n && off + j < ULONG
    ensures |Arrived(v, img, cs, off, n)| > j <==> forall i :: 0 <= i <= j && Begins(off, i) ==> FoundAt(v, img, cs, off, i)
    decreases n
  {
    hide SpotAt, Arrived;
    var m := Chunk(off, n);
    NoneBegins(off, m);
    assert Begins(off, 0) && FoundAt(v, img, cs, off, 0) == Found(v, img, cs, off);
    if !Found(v, img, cs, off) {
      NotFound(v, img, cs, off, n);
    } else {
      ArrivedStep(v, img, [], cs, off, n);
      if j >= m {
        InRange(off + m);
        ArrivesOn(v, img, cs, off + m, n - m, j - m);
        hide Found;
        FoundOn(v, img, cs, off, m, off + m, j - m);
      }
    }
  }

  lemma {:induction false} NotFound(v: Vol, img: Image, cs: seq<nat>, off: nat, n: nat)
    requires 1 <= v.spc && !Found(v, img, cs, off)
    ensures Arrived(v, img, cs, off, n) == []
  {
    hide SpotAt;
  }

  lemma {:induction false} FoundOn(v: Vol, img: Image, cs: seq<nat>, off: nat, m: nat, at: nat, j: nat)
    requires 1 <= v.spc && 0 < m && at == off + m && at % BLKSIZE == 0
    ensures (forall i :: 0 <= i <= j && Begins(at, i) ==> FoundAt(v, img, cs, at, i)) <==>
            (forall i :: m <= i <= m + j && Begins(off, i) ==> FoundAt(v, img, cs, off, i))
  {
    hide Found;
    if forall i :: 0 <= i <= j && Begins(at, i) ==> FoundAt(v, img, cs, at, i) {
      forall i | m <= i <= m + j && Begins(off, i) ensures FoundAt(v, img, cs, off, i) {
        assert Begins(at, i - m) && FoundAt(v, img, cs, at, i - m);
      }
    }
    if forall i :: m <= i <= m + j && Begins(off, i) ==> FoundAt(v, img, cs, off, i) {
      forall i | 0 <= i <= j && Begins(at, i) ensures FoundAt(v, img, cs, at, i) {
        assert Begins(off, m + i) && FoundAt(v, img, cs, off, m + i);
      }
    }
  }

  lemma {:induction false} NoneBegins(off: nat, m: nat)
    requires InSector(off, m)
    ensures forall i :: 0 < i < m ==> !Begins(off, i)
  {
  }

  /** A read keeps within the `size` bytes of its caller's buffer exactly when it is
      cut down to no more, or one of the turns for those bytes and the next finds no
      sector. */
  lemma {:induction false} ReadStays(v: Vol, img: Image, cs: seq<nat>, off: nat, size: nat, filesize: nat, sizet: Width)
    requires 1 <= v.spc && off + size < ULONG
    ensures var n := ReadLen(off, size, filesize, ULONG, sizet);
      |Arrived(v, img, cs, off, n)| <= size <==>
      n <= size || exists i :: 0 <= i <= size && Begins(off, i) && !FoundAt(v, img, cs, off, i)
  {
    var n := ReadLen(off, size, filesize, ULONG, sizet);
    hide ReadLen, Arrived, FoundAt;
    if n > size {
      ArrivesOn(v, img, cs, off, n, size);
    }
  }

  /** Every sector from the first of the disk to the last of the volume exists, and
      the sectors before cluster 2 that a walk can come to are among them. */
  ghost predicate Whole(v: Vol, img: Image) {
    && GoodVol(v, img) && v.spc <= MAX_SPC && 3 * v.spc <= v.datasec + 1
    && forall sec :: 0 <= sec < DataEnd(v) ==> Addr(v.unit, sec) in img
  }

  /** Then the walk finds a sector for the offsets of the walked clusters, and for
      negative ones down to a cluster below zero. */
  lemma {:induction false} FoundWhere(v: Vol, img: Image, cs: seq<nat>, off: nat)
    requires Whole(v, img) && Linked(FatView(v, img), cs) && off < ULONG
    ensures Found(v, img, cs, off) <==>
            if off < 0x8000_0000 then off < |Walked(cs)| * Bpc(v) else ULONG - off < Bpc(v)
  {
    SmallFile(v, img, cs);
    assert forall i :: 0 <= i < |cs| ==> 2 <= cs[i] < v.nclus;
    if off < 0x8000_0000 {
      FoundUp(v, img, cs, off);
    } else {
      FoundDown(v, img, cs, off);
    }
  }

  /** Then a read from any offset is sound, when the walk ends. */
  lemma {:induction false} SoundWhole(v: Vol, img: Image, fat: Fat, cs: seq<nat>, off: nat, n: nat)
    requires Whole(v, img) && FatView(v, img) == fat && Ends(fat, cs) && off < ULONG && 1 <= v.spc
    ensures Sound(v, img, fat, cs, off, n)
    decreases n
  {
    hide *;
    EndsLinked(fat, cs);
    SpotBelow(v, img, cs, off);
    if n > 0 {
      ChunkFits(off, n);
      UnsignedBelow(off + Chunk(off, n));
      SoundWhole(v, img, fat, cs, Unsigned(off + Chunk(off, n)), n - Chunk(off, n));
    }
    SoundTurn(v, img, fat, cs, off, n);
  }

  lemma {:induction false} SoundTurn(v: Vol, img: Image, fat: Fat, cs: seq<nat>, off: nat, n: nat)
    requires 1 <= v.spc && Ends(fat, cs) && (SpotAt(v, cs, off).Spot? ==> SpotAt(v, cs, off).a.blkno < INVALID_BLOCK)
    requires n > 0 ==> Sound(v, img, fat, cs, Unsigned(off + Chunk(off, n)), n - Chunk(off, n))
    ensures Sound(v, img, fat, cs, off, n)
  {
    hide SpotAt, Ends, Unsigned;
  }

  lemma {:induction false} EndsLinked(fat: Fat, cs: seq<nat>)
    requires Ends(fat, cs)
    ensures Linked(fat, cs)
  {
  }

  lemma {:induction false} ChunkFits(off: nat, n: nat)
    requires n > 0
    ensures 0 < Chunk(off, n) <= n
  {
  }

  lemma {:induction false} UnsignedBelow(n: nat)
    ensures Unsigned(n) < ULONG
  {
  }

  lemma {:induction false} SpotBelow(v: Vol, img: Image, cs: seq<nat>, off: nat)
    requires Whole(v, img) && Linked(FatView(v, img), cs) && off < ULONG
    ensures 1 <= v.spc && (SpotAt(v, cs, off).Spot? ==> SpotAt(v, cs, off).a.blkno < INVALID_BLOCK)
  {
    SmallFile(v, img, cs);
    assert forall i :: 0 <= i < |cs| ==> 2 <= cs[i] < v.nclus;
    hide SpotAt, Found, FatView;
    if off < 0x8000_0000 {
      FoundUp(v, img, cs, off);
    } else {
      FoundDown(v, img, cs, off);
    }
  }

  lemma {:induction false} FoundUp(v: Vol, img: Image, cs: seq<nat>, off: nat)
    requires Whole(v, img) && off < 0x8000_0000 && forall i :: 0 <= i < |cs| ==> 2 <= cs[i] < v.nclus
    ensures Found(v, img, cs, off) <==> off < |Walked(cs)| * Bpc(v)
    ensures SpotAt(v, cs, off).Spot? ==> SpotAt(v, cs, off).a.blkno < INVALID_BLOCK
  {
    var k := ClusterAt(v, off);
    IndexUp(v, off);
    AtMost(off, |Walked(cs)|, Bpc(v));
    if k < |Walked(cs)| {
      var s := SectorAt(v, off);
      SectorBelow(v, off);
      SectorThere(v, img, Walked(cs)[k], s);
      hide ClusIndex, InCluster, CDiv, SectorAt, ClusterAt;
    }
  }

  lemma {:induction false} AtMost(n: nat, k: nat, m: nat)
    requires 0 < m
    ensures n / m < k <==> n < k * m
  {
    assert n == n / m * m + n % m;
    if n / m < k {
      RowFits(n / m, k, m);
    } else if k < n / m {
      RowFits(k, n / m, m);
    }
  }

  lemma {:induction false} SectorBelow(v: Vol, off: nat)
    requires 1 <= v.spc
    ensures SectorAt(v, off) < v.spc
  {
    DivDiv(off, v.spc);
  }

  /** The sectors of a cluster, those of cluster 0 included, and those before it. */
  lemma {:induction false} SectorThere(v: Vol, img: Image, c: nat, s: int)
    requires Whole(v, img) && c < v.nclus && (c == 0 || 2 <= c) && 0 < v.spc + s && s < v.spc
    ensures 0 <= v.datasec + (c - 2) * v.spc + s < INVALID_BLOCK
    ensures (v.datasec + (c - 2) * v.spc + s) % ULONG == v.datasec + (c - 2) * v.spc + s
    ensures Addr(v.unit, v.datasec + (c - 2) * v.spc + s) in img
  {
    if c == 0 {
      Product(v.nclus - 2, v.spc);
    } else {
      RowFits(c - 2, v.nclus - 2, v.spc);
      Product(c - 2, v.spc);
    }
  }

  lemma {:induction false} FoundDown(v: Vol, img: Image, cs: seq<nat>, off: nat)
    requires Whole(v, img) && 0x8000_0000 <= off < ULONG && |Walked(cs)| <= FAT_EOC
    requires forall i :: 0 <= i < |cs| ==> 2 <= cs[i] < v.nclus
    ensures Found(v, img, cs, off) <==> ULONG - off < Bpc(v)
    ensures SpotAt(v, cs, off).Spot? ==> SpotAt(v, cs, off).a.blkno < INVALID_BLOCK
  {
    var o := ULONG - off;
    IndexDown(v, off);
    if o < Bpc(v) {
      DivDiv(o, v.spc);
      Small(o, Bpc(v));
      SectorThere(v, img, Walked(cs)[0], -(o / BLKSIZE));
      hide ClusIndex, InCluster;
    } else {
      hide ClusIndex;
    }
  }

  /** Below zero: no step within a cluster, and 2^32 or nearly so many otherwise. */
  lemma {:induction false} IndexDown(v: Vol, off: nat)
    requires 1 <= v.spc && 0x8000_0000 <= off < ULONG
    ensures var o := ULONG - off;
      if o < Bpc(v) then ClusIndex(v, off) == 0 && CDiv(InCluster(v, off), BLKSIZE) == -(o / BLKSIZE) && o / BLKSIZE < v.spc
      else ClusIndex(v, off) > FAT_EOC
  {
    var o, b := ULONG - off, Bpc(v);
    Small(off, ULONG);
    assert Signed(off) == -o;
    if o < b {
      Small(o, b);
      assert o / b == 0;
      assert Signed(-o) == -o by {
        WrapsOnce(-o, ULONG);
      }
      AtMost(o, v.spc, BLKSIZE);
    } else {
      AtMost(o, 1, b);
      assert 1 <= o / b;
      QuotientSmall(o, b);
      WrapsOnce(-(o / b), ULONG);
    }
  }

  lemma {:induction false} QuotientSmall(n: nat, m: nat)
    requires 512 <= m && n <= 0x8000_0000
    ensures n / m <= 0x40_0000
  {
    assert n == n / m * m + n % m;
    if n / m > 0x40_0000 {
      Below(0x40_0001, n / m, 512, m);
    }
  }

  /** On a disk with all its sectors a read keeps within its buffer exactly when the
      offset is within the file, or the request is cut down to no more than its
      size, or the walk ends before: at the end of the file's clusters, or of
      cluster 0 for a file without any, or a cluster below zero. */
  lemma {:induction false} ReadStaysWhole(v: Vol, img: Image, cs: seq<nat>, off: nat, size: nat, filesize: nat, sizet: Width)
    requires Whole(v, img) && Linked(FatView(v, img), cs) && off + size < ULONG && size < sizet
    ensures var n := ReadLen(off, size, filesize, ULONG, sizet);
      |Arrived(v, img, cs, off, n)| <= size <==>
      || off <= filesize || n <= size
      || (if off < 0x8000_0000 then |Walked(cs)| * Bpc(v) <= off + size else Bpc(v) <= ULONG - off)
  {
    assert 1 <= v.spc;
    hide *;
    ReadStays(v, img, cs, off, size, filesize, sizet);
    if off <= filesize {
      ReadLenInside(off, size, filesize, ULONG, sizet);
    }
    Misses(v, img, cs, off, size);
  }

  /** One of the turns finds no sector exactly when the walk ends before. */
  lemma {:induction false} Misses(v: Vol, img: Image, cs: seq<nat>, off: nat, size: nat)
    requires Whole(v, img) && Linked(FatView(v, img), cs) && off + size < ULONG
    ensures (exists i :: 0 <= i <= size && Begins(off, i) && !FoundAt(v, img, cs, off, i)) <==>
            if off < 0x8000_0000 then |Walked(cs)| * Bpc(v) <= off + size else Bpc(v) <= ULONG - off
  {
    SmallFile(v, img, cs);
    var w := |Walked(cs)| * Bpc(v);
    WholeFacts(v, img);
    hide *;
    if off < 0x8000_0000 && off + size < w {
      AllFound(v, img, cs, off, size);
    } else if off >= 0x8000_0000 && ULONG - off < Bpc(v) {
      AllFound(v, img, cs, off, size);
    } else {
      OneMissing(v, img, cs, off, size);
    }
  }

  lemma {:induction false} OneMissing(v: Vol, img: Image, cs: seq<nat>, off: nat, size: nat)
    requires Whole(v, img) && Linked(FatView(v, img), cs) && off + size < ULONG && |Walked(cs)| * Bpc(v) < 0x8000_0000
    requires if off < 0x8000_0000 then |Walked(cs)| * Bpc(v) <= off + size else Bpc(v) <= ULONG - off
    ensures 1 <= v.spc && exists i :: 0 <= i <= size && Begins(off, i) && !FoundAt(v, img, cs, off, i)
  {
    WholeFacts(v, img);
    hide *;
    var w := |Walked(cs)| * Bpc(v);
    var i := if off >= 0x8000_0000 || w <= off then 0 else w - off;
    WholeSectors(v, |Walked(cs)|);
    BeginsThere(off, i);
    FoundWhere(v, img, cs, off + i);
    FoundIs(v, img, cs, off, i);
  }

  lemma {:induction false} WholeFacts(v: Vol, img: Image)
    requires Whole(v, img)
    ensures 1 <= v.spc && GoodVol(v, img)
  {
  }

  lemma {:induction false} BeginsThere(off: nat, i: nat)
    requires i == 0 || (off + i) % BLKSIZE == 0
    ensures Begins(off, i)
  {
  }

  lemma {:induction false} FoundIs(v: Vol, img: Image, cs: seq<nat>, off: nat, i: nat)
    requires 1 <= v.spc
    ensures FoundAt(v, img, cs, off, i) == Found(v, img, cs, off + i)
  {
  }

  lemma {:induction false} AllFound(v: Vol, img: Image, cs: seq<nat>, off: nat, size: nat)
    requires Whole(v, img) && Linked(FatView(v, img), cs) && off + size < ULONG
    requires if off < 0x8000_0000 then off + size < |Walked(cs)| * Bpc(v) < 0x8000_0000 else ULONG - off < Bpc(v)
    ensures forall i :: 0 <= i <= size ==> FoundAt(v, img, cs, off, i)
  {
    assert 1 <= v.spc;
    hide Found, Linked, FatView, GoodVol, Bpc, Walked, Whole;
    forall i | 0 <= i <= size ensures FoundAt(v, img, cs, off, i) {
      FoundWhere(v, img, cs, off + i);
    }
  }

  lemma {:induction false} WholeSectors(v: Vol, n: nat)
    ensures n * Bpc(v) % BLKSIZE == 0
  {
    RestIs(n * Bpc(v), n * v.spc, 0, BLKSIZE);
  }

  // ----- reads that overrun

  /** Four bytes read at offset 20 of a file of 10 bytes in one cluster of 512: the
      rest of its cluster, 492 bytes, goes into the buffer of four. */
  lemma {:induction false} ReadOverruns(v: Vol, img: Image)
    requires Whole(v, img) && v.spc == 1 && v.nclus > 2
    ensures ReadLen(20, 4, 10, ULONG, 0x1_0000) == 65526 && |Arrived(v, img, [2], 20, 65526)| == 492
  {
    FoundUp(v, img, [2], 20);
    FoundUp(v, img, [2], 512);
    hide Found, Whole, Arrived;
    OneTurn(v, img, [2], 20, 65526);
  }

  lemma {:induction false} OneTurn(v: Vol, img: Image, cs: seq<nat>, off: nat, n: nat)
    requires 1 <= v.spc && n > 0 && Found(v, img, cs, off) && !Found(v, img, cs, Unsigned(off + Chunk(off, n)))
    ensures |Arrived(v, img, cs, off, n)| == Chunk(off, n)
  {
    ArrivedStep(v, img, [], cs, off, n);
    hide SpotAt, Arrived;
    NotFound(v, img, cs, Unsigned(off + Chunk(off, n)), n - Chunk(off, n));
  }

  /** Four bytes read at offset 1 of an empty file: 511 bytes of the sector that
      cluster 0 would have. */
  lemma {:induction false} EmptyOverruns(v: Vol, img: Image)
    requires Whole(v, img) && v.spc == 1
    ensures ReadLen(1, 4, 0, ULONG, 0x1_0000) == 65535 && |Arrived(v, img, [], 1, 65535)| == 511
  {
    FoundUp(v, img, [], 1);
    FoundUp(v, img, [], 512);
    hide Found, Whole, Arrived;
    OneTurn(v, img, [], 1, 65535);
  }

  /** Four bytes read five below zero in a file of 10 bytes: 15 bytes, of which the
      first five come from the end of the file's first sector. */
  lemma {:induction false} NegativeOverruns(v: Vol, img: Image)
    requires Whole(v, img) && v.spc == 1 && v.nclus > 2
    ensures ReadLen(0xffff_fffb, 4, 10, ULONG, 0x1_0000) == 15
    ensures |Arrived(v, img, [2], 0xffff_fffb, 15)| == 15
  {
    FoundDown(v, img, [2], 0xffff_fffb);
    FoundUp(v, img, [2], 0);
    hide SpotAt, Whole;
    assert Chunk(0xffff_fffb, 15) == 5 && Unsigned(0xffff_fffb + 5) == 0 && Chunk(0, 10) == 10;
    assert |Arrived(v, img, [2], 10, 0)| == 0;
    assert |Arrived(v, img, [2], 0, 10)| == 10;
  }
}

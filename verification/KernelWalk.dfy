/** What the kernel's read copies, from any offset (kernel/fat/fileops.c:fat_read).

    The walk along the chain is done once; from there on the loop goes from sector
    to sector and, behind the last sector of a cluster, to whatever cluster its
    entry in the table names, without looking for an end mark. */
module KernelWalk {
  import opened Bytes
  import opened CacheSpec
  import opened Fat12
  import opened FatChains
  import opened FatFiles
  import opened FatSpots
  import opened FatVolume
  import Arith

  const SIZE_T: Width := 0x1_0000  // how many values a size_t has

  // ----- the sectors of a file

  /** The sectors of the file from sector q on, n of them. */
  function SectorsFrom(v: Vol, cs: seq<nat>, q: nat, n: nat): seq<Addr> {
    seq(n, i requires 0 <= i => SecOf(v, cs, q + i))
  }

  /** Where the walk stands before sector q of the file: the cluster, the sector,
      and how many sectors of the cluster are left. */
  ghost predicate Standing(v: Vol, cs: seq<nat>, q: nat, ci: nat, sec: nat, secleft: nat) {
    && 1 <= v.spc && q / v.spc < |cs| && ci == cs[q / v.spc]
    && SecOf(v, cs, q) == Addr(v.unit, sec) && secleft == v.spc - q % v.spc
  }

  lemma {:induction false} NextInCluster(q: nat, spc: nat)
    requires 1 <= spc
    ensures q % spc + 1 < spc ==> (q + 1) / spc == q / spc && (q + 1) % spc == q % spc + 1
    ensures q % spc + 1 == spc ==> (q + 1) / spc == q / spc + 1 && (q + 1) % spc == 0
  {
    assert q == q / spc * spc + q % spc;
    if q % spc + 1 < spc {
      CellDiv(q + 1, spc, q / spc, q % spc + 1);
    } else {
      assert q + 1 == (q / spc + 1) * spc;
      CellDiv(q + 1, spc, q / spc + 1, 0);
    }
  }

  /** The next sector is the one behind in the same cluster, or the first of the
      next cluster. */
  lemma {:induction false} StandsNext(v: Vol, img: Image, cs: seq<nat>, q: nat, ci: nat, sec: nat, secleft: nat)
    requires GoodVol(v, img) && Linked(FatView(v, img), cs) && Standing(v, cs, q, ci, sec, secleft)
    ensures ci < v.nclus && 1 <= secleft
    ensures secleft > 1 ==> Standing(v, cs, q + 1, ci, sec + 1, secleft - 1)
    ensures secleft == 1 && (q + 1) / v.spc < |cs| ==>
      var next := FatView(v, img)[ci];
      2 <= next && Standing(v, cs, q + 1, next, ClusSec(v, next), v.spc)
  {
    NextInCluster(q, v.spc);
    LinkedNext(FatView(v, img), cs, q / v.spc);
    hide Linked, FatView, ClusSec;
  }

  lemma {:induction false} LinkedNext(fat: Fat, cs: seq<nat>, k: nat)
    requires Linked(fat, cs) && k < |cs|
    ensures 2 <= cs[k] < |fat| && (k + 1 < |cs| ==> fat[cs[k]] == cs[k+1] && 2 <= cs[k+1])
  {
  }

  lemma {:induction false} StandExists(v: Vol, img: Image, cs: seq<nat>, q: nat, ci: nat, sec: nat, secleft: nat)
    requires GoodVol(v, img) && Linked(FatView(v, img), cs) && Standing(v, cs, q, ci, sec, secleft)
    ensures ci < v.nclus && Addr(v.unit, sec) in img
  {
    SecExists(v, img, cs, q);
  }

  /** How many sectors a range of bytes touches. */
  function SectorCount(off: nat, n: nat): nat {
    if n == 0 then 0 else (off + n - 1) / BLKSIZE - off / BLKSIZE + 1
  }

  // ----- the loop of fat_read

  /** Where the loop stands: the cluster, the sector, and how many sectors of the
      cluster are left, this one included. */
  datatype Cursor = Cursor(ci: nat, sec: nat, left: nat)

  /** The entry of a cluster number can be read. */
  predicate Readable(v: Vol, img: Image, c: nat) {
    Addr(v.unit, FatSec(v, 0, Offs(c))) in img && Addr(v.unit, FatSec(v, 0, Offs(c) + 1)) in img
  }

  /** What is read for it, also when it names no cluster of the volume. */
  function EntryOf(v: Vol, img: Image, c: nat): nat
    requires Readable(v, img, c)
  {
    Decode(c, img[Addr(v.unit, FatSec(v, 0, Offs(c)))][Offs(c) % BLKSIZE],
           img[Addr(v.unit, FatSec(v, 0, Offs(c) + 1))][(Offs(c) + 1) % BLKSIZE])
  }

  /** The first sector of a cluster, by its number alone. */
  function FirstSec(v: Vol, ci: nat): nat { Unsigned(v.datasec + (ci - 2) * v.spc) }

  datatype Moved = Stuck | To(p: Cursor)

  /** On to the next sector. */
  function Step(v: Vol, img: Image, p: Cursor): (m: Moved)
    ensures m.To? && 1 <= v.spc && 1 <= p.left ==> 1 <= m.p.left
  {
    if p.left > 1 then To(Cursor(p.ci, Unsigned(p.sec + 1), p.left - 1))
    else if !Readable(v, img, p.ci) then Stuck
    else To(Cursor(EntryOf(v, img, p.ci), FirstSec(v, EntryOf(v, img, p.ci)), v.spc))
  }

  /** What the loop copies, the sectors it reads for it, and whether it comes to its
      end. */
  datatype Copied = Copied(bytes: seq<Byte>, secs: seq<Addr>, ok: bool)

  function Before(part: seq<Byte>, a: Addr, c: Copied): Copied {
    Copied(part + c.bytes, [a] + c.secs, c.ok)
  }

  function Runs(v: Vol, img: Image, off: nat, n: nat, p: Cursor): (c: Copied)
    ensures |c.bytes| <= n
    decreases n
  {
    var a := Addr(v.unit, p.sec);
    if n == 0 then Copied([], [], true)
    else if a !in img then Copied([], [], false)
    else
      var m := Chunk(off, n);
      match Step(v, img, p)
      case Stuck => Copied(Part(img[a], off, m), [a], false)
      case To(q) => Before(Part(img[a], off, m), a, Runs(v, img, off + m, n - m, q))
  }

  /** Where the loop begins for an offset in cluster ci. */
  function StartAt(v: Vol, ci: nat, off: nat): Cursor
    requires 1 <= v.spc
  {
    SectorBelow(v, off);
    Cursor(ci, Unsigned(FirstSec(v, ci) + SectorAt(v, off)), v.spc - SectorAt(v, off))
  }

  function CursorFor(v: Vol, cs: seq<nat>, off: nat): Cursor
    requires 1 <= v.spc && ClusterAt(v, off) < |Walked(cs)|
  {
    StartAt(v, Walked(cs)[ClusterAt(v, off)], off)
  }

  /** All of `fat_read` behind the cutting down: the walk, then the loop. */
  function FatFetched(v: Vol, img: Image, cs: seq<nat>, off: nat, n: nat): (c: Copied)
    requires 1 <= v.spc
    ensures |c.bytes| <= n
  {
    if ClusterAt(v, off) >= |Walked(cs)| then Copied([], [], false)
    else Runs(v, img, off % Bpc(v), n, CursorFor(v, cs, off))
  }

  // ----- along the walked clusters

  /** The loop stands at sector q of the walked clusters. */
  ghost predicate Walking(v: Vol, cs: seq<nat>, q: nat, p: Cursor) {
    && 1 <= v.spc && q / v.spc < |Walked(cs)| && p.ci == Walked(cs)[q / v.spc]
    && p.sec == Unsigned(FirstSec(v, p.ci) + q % v.spc) && p.left == v.spc - q % v.spc
  }

  lemma {:induction false} UnsignedOn(n: nat, k: nat)
    ensures Unsigned(Unsigned(n) + k) == Unsigned(n + k)
  {
  }

  lemma {:induction false} CursorWalks(v: Vol, cs: seq<nat>, off: nat)
    requires 1 <= v.spc && ClusterAt(v, off) < |Walked(cs)|
    ensures Walking(v, cs, off / BLKSIZE, CursorFor(v, cs, off)) && 1 <= CursorFor(v, cs, off).left
    ensures off % Bpc(v) % BLKSIZE == off % BLKSIZE
  {
    DivDiv(off, v.spc);
    ModMod(off, v.spc);
    hide FirstSec, Unsigned;
  }

  /** The entry of a cluster of the volume is that of the table. */
  lemma {:induction false} EntryView(v: Vol, img: Image, c: nat)
    requires GoodVol(v, img) && c < v.nclus
    ensures Readable(v, img, c) && EntryOf(v, img, c) == FatView(v, img)[c]
  {
    EntryIs(v, img, c, Offs(c), FatSec(v, 0, Offs(c)), FatSec(v, 0, Offs(c) + 1));
    hide GoodVol, FatView;
  }

  /** The entries of the walked clusters can be read, and name the next one, or are
      the end mark. */
  lemma {:induction false} EntryNames(v: Vol, img: Image, cs: seq<nat>, k: nat)
    requires GoodVol(v, img) && Linked(FatView(v, img), cs) && k < |Walked(cs)|
    ensures var c := Walked(cs)[k]; c < v.nclus && Readable(v, img, c) && EntryOf(v, img, c) == FatView(v, img)[c]
    ensures k + 1 < |Walked(cs)| ==> FatView(v, img)[Walked(cs)[k]] == Walked(cs)[k + 1]
  {
    var c := Walked(cs)[k];
    EntryView(v, img, c);
    hide GoodVol, FatView;
  }

  lemma {:induction false} WalkNext(v: Vol, img: Image, cs: seq<nat>, q: nat, p: Cursor)
    requires GoodVol(v, img) && Linked(FatView(v, img), cs) && Walking(v, cs, q, p)
    ensures Step(v, img, p).To?
    ensures (q + 1) / v.spc < |Walked(cs)| ==> Walking(v, cs, q + 1, Step(v, img, p).p)
    ensures (q + 1) / v.spc >= |Walked(cs)| ==>
      var e := FatView(v, img)[Walked(cs)[|Walked(cs)| - 1]]; Step(v, img, p).p == Cursor(e, FirstSec(v, e), v.spc)
  {
    hide *;
    WalkingStart(v, cs, q, p);
    EntryNames(v, img, cs, q / v.spc);
    NextInCluster(q, v.spc);
    if p.left > 1 {
      StepSector(v, img, cs, q, p);
    } else {
      StepCluster(v, img, cs, q, p, FatView(v, img)[p.ci]);
    }
  }

  lemma {:induction false} WalkingStart(v: Vol, cs: seq<nat>, q: nat, p: Cursor)
    requires Walking(v, cs, q, p)
    ensures 1 <= v.spc && q / v.spc < |Walked(cs)| && p.ci == Walked(cs)[q / v.spc] && p.left == v.spc - q % v.spc
    ensures q % v.spc < v.spc
  {
  }

  lemma {:induction false} StepSector(v: Vol, img: Image, cs: seq<nat>, q: nat, p: Cursor)
    requires Walking(v, cs, q, p) && p.left > 1 && (q + 1) / v.spc == q / v.spc && (q + 1) % v.spc == q % v.spc + 1
    ensures Step(v, img, p).To? && Walking(v, cs, q + 1, Step(v, img, p).p)
  {
    UnsignedOn(FirstSec(v, p.ci) + q % v.spc, 1);
    hide FirstSec, Unsigned;
  }

  lemma {:induction false} StepCluster(v: Vol, img: Image, cs: seq<nat>, q: nat, p: Cursor, next: nat)
    requires Walking(v, cs, q, p) && p.left == 1 && (q + 1) / v.spc == q / v.spc + 1 && (q + 1) % v.spc == 0
    requires Readable(v, img, p.ci) && EntryOf(v, img, p.ci) == next
    requires q / v.spc + 1 < |Walked(cs)| ==> next == Walked(cs)[q / v.spc + 1]
    ensures Step(v, img, p) == To(Cursor(next, FirstSec(v, next), v.spc))
    ensures (q + 1) / v.spc < |Walked(cs)| ==> Walking(v, cs, q + 1, Step(v, img, p).p)
  {
    FirstIs(v, next);
    hide Readable, EntryOf, FirstSec, Unsigned;
  }

  lemma {:induction false} FirstIs(v: Vol, ci: nat)
    ensures Unsigned(FirstSec(v, ci) + 0) == FirstSec(v, ci)
  {
    UnsignedOn(FirstSec(v, ci), 0);
  }

  // ----- in the file

  lemma {:induction false} WalkingSector(v: Vol, img: Image, cs: seq<nat>, q: nat, p: Cursor)
    requires GoodVol(v, img) && Linked(FatView(v, img), cs) && Walking(v, cs, q, p) && cs != []
    ensures SecOf(v, cs, q) in img && SecOf(v, cs, q) == Addr(v.unit, p.sec)
  {
    SecExists(v, img, cs, q);
    assert 2 <= p.ci;
    hide FatView, Linked;
    var s := ClusSec(v, p.ci);
    Arith.Product(p.ci - 2, v.spc);
    InRange(s);
    InRange(s + q % v.spc);
  }

  /** One turn of the loop in the file. */
  lemma {:induction false} TurnInside(v: Vol, img: Image, cs: seq<nat>, o: nat, off: nat, n: nat, p: Cursor)
    requires GoodVol(v, img) && Linked(FatView(v, img), cs) && Backed(v, cs, off + n) && n > 0
    requires o % BLKSIZE == off % BLKSIZE && Walking(v, cs, off / BLKSIZE, p)
    ensures var m := Chunk(off, n); var r := Step(v, img, p);
      && 0 < m <= n && r.To? && Backed(v, cs, off + m + (n - m)) && (o + m) % BLKSIZE == (off + m) % BLKSIZE
      && (n - m > 0 ==> Walking(v, cs, (off + m) / BLKSIZE, r.p))
      && Runs(v, img, o, n, p) ==
         Before(FileBytes(v, img, cs, off, m), SecOf(v, cs, off / BLKSIZE), Runs(v, img, o + m, n - m, r.p))
  {
    assert BLKSIZE > 0;
    hide *;
    var m, q := Chunk(off, n), off / BLKSIZE;
    ChunkSame(o, off, n);
    ChunkOn(v, cs, off, n, p);
    ModSame(o, off, m);
    WalkNext(v, img, cs, q, p);
    WalkingSector(v, img, cs, q, p);
    PartOfFile(v, img, cs, off, m);
    RunsStep(v, img, o, n, p, m, img[SecOf(v, cs, q)]);
    PartSame(img[SecOf(v, cs, q)], o, off, m);
  }

  lemma {:induction false} ChunkSame(o: nat, off: nat, n: nat)
    requires o % BLKSIZE == off % BLKSIZE && n > 0
    ensures Chunk(o, n) == Chunk(off, n) && 0 < Chunk(off, n) <= n
    ensures InSector(o, Chunk(off, n)) && InSector(off, Chunk(off, n))
  {
  }

  /** Where the next turn stands in the file. */
  lemma {:induction false} ChunkOn(v: Vol, cs: seq<nat>, off: nat, n: nat, p: Cursor)
    requires Backed(v, cs, off + n) && n > 0 && Walking(v, cs, off / BLKSIZE, p)
    ensures var m := Chunk(off, n);
      && cs != [] && m <= n && Backed(v, cs, off + m + (n - m)) && 1 <= v.spc
      && (n - m > 0 ==> (off + m) / BLKSIZE == off / BLKSIZE + 1 && (off / BLKSIZE + 1) / v.spc < |Walked(cs)|)
  {
    var m := Chunk(off, n);
    if n - m > 0 {
      assert (off + m) / BLKSIZE == off / BLKSIZE + 1;
      BackedByte(v, cs, off + n, off + m);
    }
    BackedByte(v, cs, off + n, off);
  }

  lemma {:induction false} PartSame(s: Sector, o: nat, off: nat, m: nat)
    requires o % BLKSIZE == off % BLKSIZE && InSector(o, m) && InSector(off, m)
    ensures Part(s, o, m) == Part(s, off, m)
  {
  }

  lemma {:induction false} RunsStep(v: Vol, img: Image, o: nat, n: nat, p: Cursor, m: nat, data: Sector)
    requires n > 0 && Addr(v.unit, p.sec) in img && data == img[Addr(v.unit, p.sec)] && m == Chunk(o, n)
    requires Step(v, img, p).To?
    ensures m <= n && InSector(o, m)
    ensures Runs(v, img, o, n, p) ==
            Before(Part(data, o, m), Addr(v.unit, p.sec), Runs(v, img, o + m, n - m, Step(v, img, p).p))
  {
    hide Step, Part, Before;
  }

  lemma {:induction false} ModSame(a: nat, b: nat, n: nat)
    requires a % BLKSIZE == b % BLKSIZE
    ensures (a + n) % BLKSIZE == (b + n) % BLKSIZE
  {
    RestOf(a, n);
    RestOf(b, n);
  }

  lemma {:induction false} RestOf(a: nat, n: nat)
    ensures (a + n) % BLKSIZE == (a % BLKSIZE + n) % BLKSIZE
  {
    var q, s := a / BLKSIZE, a % BLKSIZE + n;
    assert a + n == q * BLKSIZE + s == (q + s / BLKSIZE) * BLKSIZE + s % BLKSIZE;
  }

  /** The sectors of a range are that of its first part and those of the rest. */
  lemma {:induction false} SectorsOn(v: Vol, cs: seq<nat>, off: nat, n: nat)
    requires n > 0
    ensures var m := Chunk(off, n);
      && 0 < m <= n
      && SectorsFrom(v, cs, off / BLKSIZE, SectorCount(off, n)) ==
         [SecOf(v, cs, off / BLKSIZE)] + SectorsFrom(v, cs, (off + m) / BLKSIZE, SectorCount(off + m, n - m))
  {
    var m, q := Chunk(off, n), off / BLKSIZE;
    if n == m {
      assert SectorCount(off, n) == 1;
    } else {
      assert (off + m) / BLKSIZE == q + 1 && SectorCount(off, n) == 1 + SectorCount(off + m, n - m);
      hide SecOf;
      var all, rest := SectorsFrom(v, cs, q, SectorCount(off, n)), SectorsFrom(v, cs, q + 1, SectorCount(off + m, n - m));
      forall i | 0 <= i < |rest| ensures all[i + 1] == rest[i] {
      }
      assert all == [SecOf(v, cs, q)] + rest;
    }
  }

  /** In the file the loop copies its bytes, over its sectors in order. */
  lemma {:induction false} RunsInside(v: Vol, img: Image, cs: seq<nat>, o: nat, off: nat, n: nat, p: Cursor)
    requires GoodVol(v, img) && Linked(FatView(v, img), cs) && Backed(v, cs, off + n)
    requires o % BLKSIZE == off % BLKSIZE && 1 <= v.spc && (n > 0 ==> Walking(v, cs, off / BLKSIZE, p))
    ensures Runs(v, img, o, n, p) ==
            Copied(FileBytes(v, img, cs, off, n), SectorsFrom(v, cs, off / BLKSIZE, SectorCount(off, n)), true)
    decreases n
  {
    hide *;
    if n == 0 {
      NothingRuns(v, img, cs, o, off, p);
    } else {
      var m := Chunk(off, n);
      TurnInside(v, img, cs, o, off, n, p);
      RunsInside(v, img, cs, o + m, off + m, n - m, Step(v, img, p).p);
      JoinInside(v, img, cs, off, n, Runs(v, img, o, n, p), Runs(v, img, o + m, n - m, Step(v, img, p).p));
    }
  }

  lemma {:induction false} NothingRuns(v: Vol, img: Image, cs: seq<nat>, o: nat, off: nat, p: Cursor)
    ensures Runs(v, img, o, 0, p) ==
            Copied(FileBytes(v, img, cs, off, 0), SectorsFrom(v, cs, off / BLKSIZE, SectorCount(off, 0)), true)
  {
  }

  lemma {:induction false} JoinInside(v: Vol, img: Image, cs: seq<nat>, off: nat, n: nat, c: Copied, rest: Copied)
    requires n > 0 && Chunk(off, n) <= n
    requires var m := Chunk(off, n);
      && c == Before(FileBytes(v, img, cs, off, m), SecOf(v, cs, off / BLKSIZE), rest)
      && rest == Copied(FileBytes(v, img, cs, off + m, n - m),
                        SectorsFrom(v, cs, (off + m) / BLKSIZE, SectorCount(off + m, n - m)), true)
    ensures c == Copied(FileBytes(v, img, cs, off, n), SectorsFrom(v, cs, off / BLKSIZE, SectorCount(off, n)), true)
  {
    SectorsOn(v, cs, off, n);
    FileBytesJoin(v, img, cs, off, Chunk(off, n), n - Chunk(off, n));
    hide FileBytes, SectorsFrom, SectorCount, SecOf, Chunk;
  }

  /** A read that begins in a cluster of the file, or at offset 0 of an empty one,
      and ends in the file gets the file's bytes. */
  lemma {:induction false} FetchedInside(v: Vol, img: Image, cs: seq<nat>, off: nat, n: nat)
    requires GoodVol(v, img) && Linked(FatView(v, img), cs) && Backed(v, cs, off + n)
    requires HasByte(v, cs, off) || (cs == [] && off == 0)
    ensures 1 <= v.spc
    ensures FatFetched(v, img, cs, off, n) ==
            Copied(FileBytes(v, img, cs, off, n), SectorsFrom(v, cs, off / BLKSIZE, SectorCount(off, n)), true)
  {
    PlaceIs(v, cs, off);
    CursorWalks(v, cs, off);
    hide GoodVol, FatView, Linked, Walking, CursorFor;
    RunsInside(v, img, cs, off % Bpc(v), off, n, CursorFor(v, cs, off));
  }

  // ----- the end of a file

  /** A file with just the clusters it needs: a read at its end is a read of no
      bytes that succeeds exactly when the file is empty or does not fill its
      clusters. */
  lemma {:induction false} EndOfFile(v: Vol, img: Image, cs: seq<nat>, length: nat)
    requires GoodVol(v, img) && Linked(FatView(v, img), cs) && JustEnough(v, length, |cs|)
    ensures 1 <= v.spc && FatFetched(v, img, cs, length, 0).bytes == []
    ensures FatFetched(v, img, cs, length, 0).ok <==> cs == [] || length % Bpc(v) != 0
  {
    PlaceIs(v, cs, length);
    EndHas(v, cs, length);
    if cs == [] {
      assert length == 0;
    }
  }

  lemma {:induction false} EndHas(v: Vol, cs: seq<nat>, length: nat)
    requires 1 <= v.spc && JustEnough(v, length, |cs|)
    ensures HasByte(v, cs, length) <==> length % Bpc(v) != 0
  {
    PlaceIs(v, cs, length);
    var m := Bpc(v);
    var k := length / m;
    assert length == k * m + length % m;
    if k < |cs| {
      Arith.RowFits(k, |cs|, m);
    } else if |cs| < k {
      Arith.RowFits(|cs|, k, m);
    }
  }

  /** A file of 512 bytes in one cluster of 512, read at its end: the read fails. */
  lemma {:induction false} FullCluster(v: Vol, img: Image, c: nat)
    requires GoodVol(v, img) && v.spc == 1 && 2 <= c < v.nclus
    ensures JustEnough(v, 512, |[c]|) && FatFetched(v, img, [c], 512, 0) == Copied([], [], false)
  {
    assert ClusterAt(v, 512) == 1 && |Walked([c])| == 1;
  }

  // ----- how much is copied

  /** Where turn j of the loop stands. */
  function TurnAt(v: Vol, img: Image, p: Cursor, j: nat): Moved
    decreases j
  {
    if j == 0 then To(p)
    else
      match Step(v, img, p)
      case Stuck => Stuck
      case To(q) => TurnAt(v, img, q, j - 1)
  }

  /** It finds its sector. */
  predicate Finds(v: Vol, img: Image, p: Cursor, j: nat) {
    TurnAt(v, img, p, j).To? && Addr(v.unit, TurnAt(v, img, p, j).p.sec) in img
  }

  /** The turn that copies byte `size` of a read from off on. */
  function TurnOf(off: nat, size: nat): nat { (off % BLKSIZE + size) / BLKSIZE }

  lemma {:induction false} RunsOn(v: Vol, img: Image, off: nat, n: nat, p: Cursor, size: nat)
    requires size < n
    ensures |Runs(v, img, off, n, p).bytes| > size <==> forall j :: 0 <= j <= TurnOf(off, size) ==> Finds(v, img, p, j)
    decreases n
  {
    hide Step;
    var m := Chunk(off, n);
    assert Finds(v, img, p, 0) == (Addr(v.unit, p.sec) in img);
    if Finds(v, img, p, 0) {
      if size < m {
        assert TurnOf(off, size) == 0;
      } else {
        TurnOn(off, n, size);
        match Step(v, img, p)
        case Stuck =>
          assert !Finds(v, img, p, 1);
        case To(q) =>
          RunsOn(v, img, off + m, n - m, q, size - m);
          FindsOn(v, img, p, q, TurnOf(off, size));
      }
    }
  }

  lemma {:induction false} TurnOn(off: nat, n: nat, size: nat)
    requires Chunk(off, n) <= size < n
    ensures var m := Chunk(off, n); 1 <= TurnOf(off, size) && TurnOf(off + m, size - m) == TurnOf(off, size) - 1
  {
    var m := Chunk(off, n);
    assert off % BLKSIZE + m == BLKSIZE && (off + m) % BLKSIZE == 0;
  }

  lemma {:induction false} FindsOn(v: Vol, img: Image, p: Cursor, q: Cursor, k: nat)
    requires Step(v, img, p) == To(q) && 1 <= k && Finds(v, img, p, 0)
    ensures (forall j :: 0 <= j <= k ==> Finds(v, img, p, j)) <==> (forall j :: 0 <= j <= k - 1 ==> Finds(v, img, q, j))
  {
    hide Step;
    forall j: nat ensures Finds(v, img, p, j + 1) == Finds(v, img, q, j) {
    }
    if forall j :: 0 <= j <= k - 1 ==> Finds(v, img, q, j) {
      forall j | 0 <= j <= k ensures Finds(v, img, p, j) {
        assert j > 0 ==> Finds(v, img, q, j - 1);
      }
    }
    if forall j :: 0 <= j <= k ==> Finds(v, img, p, j) {
      forall j | 0 <= j <= k - 1 ensures Finds(v, img, q, j) {
        assert Finds(v, img, p, j + 1);
      }
    }
  }

  /** `fat_read` keeps within the `size` bytes of its caller's buffer exactly when it
      is cut down to no more, or the walk ends before the offset, or one of the
      turns for those bytes and the next finds no sector. */
  lemma {:induction false} FatStays(v: Vol, img: Image, cs: seq<nat>, off: nat, size: nat, filesize: nat)
    requires 1 <= v.spc
    ensures var n := ReadLen(off, size, filesize, ULONG, SIZE_T);
      |FatFetched(v, img, cs, off, n).bytes| <= size <==>
      || n <= size || ClusterAt(v, off) >= |Walked(cs)|
      || exists j :: 0 <= j <= TurnOf(off, size) && !Finds(v, img, CursorFor(v, cs, off), j)
  {
    var n := ReadLen(off, size, filesize, ULONG, SIZE_T);
    hide ReadLen, Runs, Finds, CursorFor;
    if n > size && ClusterAt(v, off) < |Walked(cs)| {
      ModMod(off, v.spc);
      RunsOn(v, img, off % Bpc(v), n, CursorFor(v, cs, off), size);
    }
  }

  lemma {:induction false} ModMod(o: nat, spc: nat)
    requires 1 <= spc
    ensures o % (BLKSIZE * spc) % BLKSIZE == o % BLKSIZE
  {
    var m := BLKSIZE * spc;
    var k := o / m;
    assert o == k * m + o % m == (k * spc) * BLKSIZE + o % m;
  }

  /** The entry of the last walked cluster. */
  ghost function LastEntry(v: Vol, img: Image, cs: seq<nat>): nat
    requires GoodVol(v, img) && Linked(FatView(v, img), cs)
  {
    FatView(v, img)[Walked(cs)[|Walked(cs)| - 1]]
  }

  lemma {:induction false} WalksOn(v: Vol, img: Image, cs: seq<nat>, q: nat, p: Cursor, j: nat)
    requires GoodVol(v, img) && Linked(FatView(v, img), cs) && Walking(v, cs, q, p) && q + j < |Walked(cs)| * v.spc
    ensures TurnAt(v, img, p, j).To? && Walking(v, cs, q + j, TurnAt(v, img, p, j).p)
    decreases j
  {
    hide *;
    WalkVol(v, img, cs);
    if j == 0 {
      TurnZero(v, img, p);
    } else {
      WalkNext(v, img, cs, q, p);
      AtMost(q + 1, |Walked(cs)|, v.spc);
      WalksOn(v, img, cs, q + 1, Step(v, img, p).p, j - 1);
      TurnStep(v, img, p, j);
    }
  }

  lemma {:induction false} WalkVol(v: Vol, img: Image, cs: seq<nat>)
    requires GoodVol(v, img) && Linked(FatView(v, img), cs)
    ensures 1 <= v.spc && 1 <= |Walked(cs)|
  {
  }

  lemma {:induction false} TurnZero(v: Vol, img: Image, p: Cursor)
    ensures TurnAt(v, img, p, 0) == To(p)
  {
  }

  lemma {:induction false} TurnStep(v: Vol, img: Image, p: Cursor, j: nat)
    requires j > 0 && Step(v, img, p).To?
    ensures TurnAt(v, img, p, j) == TurnAt(v, img, Step(v, img, p).p, j - 1)
  {
  }

  lemma {:induction false} WalkEnds(v: Vol, img: Image, cs: seq<nat>, q: nat, p: Cursor, j: nat)
    requires GoodVol(v, img) && Linked(FatView(v, img), cs) && Walking(v, cs, q, p) && q + j == |Walked(cs)| * v.spc && j > 0
    ensures TurnAt(v, img, p, j) == To(Cursor(LastEntry(v, img, cs), FirstSec(v, LastEntry(v, img, cs)), v.spc))
    decreases j
  {
    hide *;
    WalkVol(v, img, cs);
    LastIs(v, img, cs);
    WalkNext(v, img, cs, q, p);
    AtMost(q + 1, |Walked(cs)|, v.spc);
    TurnStep(v, img, p, j);
    if j > 1 {
      WalkEnds(v, img, cs, q + 1, Step(v, img, p).p, j - 1);
    } else {
      TurnZero(v, img, Step(v, img, p).p);
    }
  }

  lemma {:induction false} LastIs(v: Vol, img: Image, cs: seq<nat>)
    requires GoodVol(v, img) && Linked(FatView(v, img), cs)
    ensures |Walked(cs)| > 0 && Walked(cs)[|Walked(cs)| - 1] < v.nclus
    ensures LastEntry(v, img, cs) == FatView(v, img)[Walked(cs)[|Walked(cs)| - 1]]
  {
  }

  lemma {:induction false} WalkingThere(v: Vol, img: Image, cs: seq<nat>, q: nat, p: Cursor)
    requires Whole(v, img) && Linked(FatView(v, img), cs) && Walking(v, cs, q, p)
    ensures Addr(v.unit, p.sec) in img
  {
    hide *;
    WalkingFacts(v, cs, q, p);
    WalkedCluster(v, img, cs, q / v.spc);
    SecThere(v, img, p.ci, q % v.spc);
  }

  lemma {:induction false} WalkingFacts(v: Vol, cs: seq<nat>, q: nat, p: Cursor)
    requires Walking(v, cs, q, p)
    ensures 1 <= v.spc && q / v.spc < |Walked(cs)| && p.ci == Walked(cs)[q / v.spc] && q % v.spc < v.spc
    ensures p.sec == Unsigned(FirstSec(v, p.ci) + q % v.spc)
  {
  }

  lemma {:induction false} WalkedCluster(v: Vol, img: Image, cs: seq<nat>, k: nat)
    requires Whole(v, img) && Linked(FatView(v, img), cs) && k < |Walked(cs)|
    ensures Walked(cs)[k] < v.nclus && (Walked(cs)[k] == 0 || 2 <= Walked(cs)[k])
  {
    hide FatView;
  }

  lemma {:induction false} SecThere(v: Vol, img: Image, c: nat, r: nat)
    requires Whole(v, img) && c < v.nclus && (c == 0 || 2 <= c) && r < v.spc
    ensures Addr(v.unit, Unsigned(FirstSec(v, c) + r)) in img
  {
    SectorThere(v, img, c, r);
    UnsignedOn2(v.datasec + (c - 2) * v.spc, r);
    hide Whole;
  }

  lemma {:induction false} UnsignedOn2(n: int, k: nat)
    ensures Unsigned(Unsigned(n) + k) == Unsigned(n + k)
  {
  }

  /** Turn j of the loop finds its sector while that lies in the walked clusters,
      and does not find the first one behind them. */
  lemma {:induction false} FindsWhere(v: Vol, img: Image, cs: seq<nat>, q: nat, p: Cursor, j: nat)
    requires Whole(v, img) && Linked(FatView(v, img), cs) && Walking(v, cs, q, p)
    requires Addr(v.unit, FirstSec(v, LastEntry(v, img, cs))) !in img && q + j <= |Walked(cs)| * v.spc
    ensures Finds(v, img, p, j) <==> q + j < |Walked(cs)| * v.spc
  {
    AtMost(q, |Walked(cs)|, v.spc);
    if q + j < |Walked(cs)| * v.spc {
      WalksOn(v, img, cs, q, p, j);
      WalkingThere(v, img, cs, q + j, TurnAt(v, img, p, j).p);
    } else {
      WalkEnds(v, img, cs, q, p, j);
    }
  }

  /** On a disk with all the volume's sectors, and none where the entry of the last
      cluster points, the same read stays exactly when the offset is in the file, or
      it is cut down to no more than `size`, or the walked clusters end before: the
      file's, or cluster 0 for a file without any. */
  lemma {:induction false} FatStaysWhole(v: Vol, img: Image, cs: seq<nat>, off: nat, size: nat, filesize: nat)
    requires Whole(v, img) && Linked(FatView(v, img), cs) && off + size < 0x8000_0000 && size < SIZE_T
    requires Addr(v.unit, FirstSec(v, LastEntry(v, img, cs))) !in img
    ensures var n := ReadLen(off, size, filesize, ULONG, SIZE_T);
      |FatFetched(v, img, cs, off, n).bytes| <= size <==>
      off <= filesize || n <= size || |Walked(cs)| * Bpc(v) <= off + size
  {
    WholeFacts(v, img);
    hide *;
    FatStays(v, img, cs, off, size, filesize);
    if off <= filesize {
      ReadLenInside(off, size, filesize, ULONG, SIZE_T);
    }
    FindsUpTo(v, img, cs, off, size);
  }

  lemma {:induction false} FindsUpTo(v: Vol, img: Image, cs: seq<nat>, off: nat, size: nat)
    requires Whole(v, img) && Linked(FatView(v, img), cs) && 1 <= v.spc
    requires Addr(v.unit, FirstSec(v, LastEntry(v, img, cs))) !in img
    ensures |Walked(cs)| * Bpc(v) <= off + size <==>
      || ClusterAt(v, off) >= |Walked(cs)|
      || exists j :: 0 <= j <= TurnOf(off, size) && !Finds(v, img, CursorFor(v, cs, off), j)
  {
    var w, q := |Walked(cs)| * v.spc, off / BLKSIZE;
    EndTurn(v, |Walked(cs)|, off, size);
    hide Whole, FatView, Linked, Finds, CursorFor, TurnOf, LastEntry, FirstSec;
    if ClusterAt(v, off) < |Walked(cs)| {
      CursorWalks(v, cs, off);
      var p := CursorFor(v, cs, off);
      if q + TurnOf(off, size) < w {
        forall j | 0 <= j <= TurnOf(off, size) ensures Finds(v, img, p, j) {
          FindsWhere(v, img, cs, q, p, j);
        }
      } else {
        FindsWhere(v, img, cs, q, p, w - q);
      }
    }
  }

  lemma {:induction false} EndTurn(v: Vol, n: nat, off: nat, size: nat)
    requires 1 <= v.spc
    ensures n * Bpc(v) <= off + size <==> n * v.spc <= off / BLKSIZE + TurnOf(off, size)
    ensures ClusterAt(v, off) < n <==> off / BLKSIZE < n * v.spc
  {
    DivDiv(off, v.spc);
    AtMost(off / BLKSIZE, n, v.spc);
    assert off / BLKSIZE + TurnOf(off, size) == (off + size) / BLKSIZE;
    assert n * Bpc(v) == n * v.spc * BLKSIZE;
  }

  // ----- reads that overrun

  lemma {:induction false} FirstTurn(v: Vol, img: Image, cs: seq<nat>, off: nat, n: nat)
    requires Whole(v, img) && Linked(FatView(v, img), cs) && v.spc == 1 && |cs| <= 1 && off < 512 < off + n
    requires Addr(v.unit, FirstSec(v, LastEntry(v, img, cs))) !in img
    ensures |FatFetched(v, img, cs, off, n).bytes| == 512 - off
  {
    CursorWalks(v, cs, off);
    var p := CursorFor(v, cs, off);
    WalkingThere(v, img, cs, 0, p);
    WalkNext(v, img, cs, 0, p);
    hide Whole, FatView, Linked, Walking, CursorFor, LastEntry, FirstSec, Step;
    assert Chunk(off, n) == 512 - off;
    assert Runs(v, img, 512, n - (512 - off), Step(v, img, p).p).bytes == [];
  }

  /** Four bytes read at offset 20 of a file of 10 bytes in one cluster of 512: 492
      bytes are copied. */
  lemma {:induction false} FatReadOverruns(v: Vol, img: Image, c: nat)
    requires Whole(v, img) && v.spc == 1 && 2 <= c < v.nclus
    requires Addr(v.unit, FirstSec(v, FatView(v, img)[c])) !in img
    ensures ReadLen(20, 4, 10, ULONG, SIZE_T) == 65526 && |FatFetched(v, img, [c], 20, 65526).bytes| == 492
  {
    WholeFacts(v, img);
    OneCluster(v, img, c);
    WrapsAt(20, 4, 10);
    hide *;
    FirstTurn(v, img, [c], 20, 65526);
  }

  /** The size of a read behind the end. */
  lemma {:induction false} WrapsAt(off: nat, size: nat, filesize: nat)
    requires filesize < off <= filesize + SIZE_T
    ensures ReadLen(off, size, filesize, ULONG, SIZE_T) == filesize + SIZE_T - off
  {
    WrapsOnce(filesize - off, ULONG);
    RestBelow(off - filesize, 0x1_0000, SIZE_T);
  }

  lemma {:induction false} OneCluster(v: Vol, img: Image, c: nat)
    requires GoodVol(v, img) && 2 <= c < v.nclus
    ensures Linked(FatView(v, img), [c]) && LastEntry(v, img, [c]) == FatView(v, img)[c]
  {
    hide FatView;
  }

  /** At offset 1 of an empty file: 511 bytes of what cluster 0 would be. */
  lemma {:induction false} FatReadEmpty(v: Vol, img: Image)
    requires Whole(v, img) && v.spc == 1 && Addr(v.unit, FirstSec(v, FatView(v, img)[0])) !in img
    ensures ReadLen(1, 4, 0, ULONG, SIZE_T) == 65535 && |FatFetched(v, img, [], 1, 65535).bytes| == 511
  {
    WholeFacts(v, img);
    NoCluster(v, img);
    WrapsAt(1, 4, 0);
    hide *;
    FirstTurn(v, img, [], 1, 65535);
  }

  lemma {:induction false} NoCluster(v: Vol, img: Image)
    requires GoodVol(v, img)
    ensures Linked(FatView(v, img), []) && LastEntry(v, img, []) == FatView(v, img)[0]
  {
    hide FatView;
  }
}

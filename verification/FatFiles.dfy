/** The bytes of a file on a FAT volume (hosted/fat/fileobj.c, fileops.c).

    Byte o of a file with clusters cs lies in sector o / 512 of the file, which
    is a sector of cluster cs[o / 512 / spc]. */
module FatFiles {
  import opened Arith
  import opened Bytes
  import opened CacheSpec
  import opened Fat12
  import opened FatChains

  // ----- where a file's bytes are

  /** Bytes per cluster. */
  function Bpc(v: Vol): nat { BLKSIZE * v.spc }

  /** The first sector of a cluster. */
  function ClusSec(v: Vol, c: nat): nat
    requires 2 <= c
  {
    v.datasec + (c - 2) * v.spc
  }

  /** Sector r of a cluster. */
  function ClusAddr(v: Vol, c: nat, r: nat): Addr
    requires 2 <= c
  {
    Addr(v.unit, ClusSec(v, c) + r)
  }

  /** Sector q of a file. */
  function SecOf(v: Vol, cs: seq<nat>, q: nat): Addr {
    if v.spc == 0 || q / v.spc >= |cs| || cs[q / v.spc] < 2 then Addr(v.unit, INVALID_BLOCK)
    else ClusAddr(v, cs[q / v.spc], q % v.spc)
  }

  function FileByte(v: Vol, img: Image, cs: seq<nat>, o: nat): Byte {
    ByteAt(img, SecOf(v, cs, o / BLKSIZE), o)
  }

  /** The file has a cluster for its byte o. */
  predicate HasByte(v: Vol, cs: seq<nat>, o: nat) {
    1 <= v.spc && o / BLKSIZE / v.spc < |cs|
  }

  /** The file has clusters for its first n bytes. */
  predicate Backed(v: Vol, cs: seq<nat>, n: nat) {
    n <= |cs| * Bpc(v)
  }

  function FileBytes(v: Vol, img: Image, cs: seq<nat>, from: nat, n: nat): (s: seq<Byte>)
    ensures |s| == n
  {
    seq<Byte>(n, j requires 0 <= j => FileByte(v, img, cs, from + j))
  }

  /** `fobj_get_sec_at_offs`: cluster of the file and sector in the cluster. */
  function ClusterAt(v: Vol, offs: nat): nat
    requires 1 <= v.spc
  {
    Quotient(offs, Bpc(v))
  }

  function SectorAt(v: Vol, offs: nat): nat
    requires 1 <= v.spc
  {
    Quotient(offs % Bpc(v), BLKSIZE)
  }

  lemma {:induction false} PlaceIs(v: Vol, cs: seq<nat>, offs: nat)
    requires 1 <= v.spc
    ensures ClusterAt(v, offs) == offs / BLKSIZE / v.spc
    ensures ClusterAt(v, offs) < |cs| && 2 <= cs[ClusterAt(v, offs)] ==>
      SecOf(v, cs, offs / BLKSIZE) == ClusAddr(v, cs[ClusterAt(v, offs)], SectorAt(v, offs))
  {
    DivDiv(offs, v.spc);
  }

  lemma {:induction false} FileBytesJoin(v: Vol, img: Image, cs: seq<nat>, from: nat, n: nat, m: nat)
    ensures FileBytes(v, img, cs, from, n) + FileBytes(v, img, cs, from + n, m) == FileBytes(v, img, cs, from, n + m)
  {
  }

  /** The bytes of a file within one sector are a part of the sector. */
  lemma {:induction false} PartIs(v: Vol, img: Image, cs: seq<nat>, off: nat, n: nat)
    requires InSector(off, n) && SecOf(v, cs, off / BLKSIZE) in img
    ensures img[SecOf(v, cs, off / BLKSIZE)][off % BLKSIZE..off % BLKSIZE + n] == FileBytes(v, img, cs, off, n)
  {
    hide SecOf;
    var s := img[SecOf(v, cs, off / BLKSIZE)];
    var part := s[off % BLKSIZE..off % BLKSIZE + n];
    forall j | 0 <= j < n ensures part[j] == FileBytes(v, img, cs, off, n)[j] {
      ChunkSector(off, n, off + j);
      assert FileByte(v, img, cs, off + j) == s[off % BLKSIZE + j];
    }
  }

  lemma {:induction false} BackedByte(v: Vol, cs: seq<nat>, n: nat, o: nat)
    requires 1 <= v.spc && Backed(v, cs, n) && o < n
    ensures o / BLKSIZE / v.spc < |cs|
  {
    DivDiv(o, v.spc);
    DivBelow(o, |cs|, Bpc(v));
  }

  lemma {:induction false} DivBelow(o: nat, n: nat, m: nat)
    requires 0 < m && o < n * m
    ensures o / m < n
  {
  }

  lemma {:induction false} DivModUnique(q: nat, q1: nat, m: nat)
    requires 0 < m && q / m == q1 / m && q % m == q1 % m
    ensures q == q1
  {
    assert q == q / m * m + q % m;
  }

  /** Dividing by the bytes of a cluster is dividing by the bytes of a sector and
      then by the sectors of a cluster. */
  lemma {:induction false} DivDiv(o: nat, spc: nat)
    requires 1 <= spc
    ensures o / (BLKSIZE * spc) == o / BLKSIZE / spc
    ensures o % (BLKSIZE * spc) / BLKSIZE == o / BLKSIZE % spc
  {
    var q, r := o / BLKSIZE, o % BLKSIZE;
    var k, s := q / spc, q % spc;
    assert o == (k * spc + s) * BLKSIZE + r == k * (BLKSIZE * spc) + (s * BLKSIZE + r);
    assert s * BLKSIZE + r < BLKSIZE * spc;
    CellDiv(o, BLKSIZE * spc, k, s * BLKSIZE + r);
  }

  lemma {:induction false} CellDiv(o: nat, m: nat, k: nat, a: nat)
    requires a < m && o == k * m + a
    ensures o / m == k && o % m == a
  {
    assert o == (o / m) * m + o % m;
    CellUnique(k, a, o / m, o % m, m);
  }

  lemma {:induction false} ClusterInData(v: Vol, img: Image, c: nat, r: nat)
    requires GoodVol(v, img) && 2 <= c < v.nclus && r < v.spc
    ensures v.datasec <= ClusSec(v, c) + r < DataEnd(v)
    ensures ClusAddr(v, c, r) in img && OutsideFat(v, ClusAddr(v, c, r))
  {
    RowFits(c - 2, v.nclus - 2, v.spc);
    Product(c - 2, v.spc);
    FatStartUp(v);
  }

  lemma {:induction false} FatStartUp(v: Vol)
    requires 1 <= v.fatCount
    ensures v.fat0sec <= FatStart(v, v.fatCount)
  {
    FatStartsApart(v, 0, v.fatCount);
  }

  lemma {:induction false} SecExists(v: Vol, img: Image, cs: seq<nat>, q: nat)
    requires GoodVol(v, img) && InTable(FatView(v, img), cs) && q / v.spc < |cs|
    ensures SecOf(v, cs, q) in img && OutsideFat(v, SecOf(v, cs, q))
    ensures v.datasec <= SecOf(v, cs, q).blkno < DataEnd(v)
  {
    ClusterInData(v, img, cs[q / v.spc], q % v.spc);
  }

  /** A sector belongs to one cluster only. */
  lemma {:induction false} SectorUnique(v: Vol, c: nat, r: nat, c1: nat, r1: nat)
    requires 2 <= c && 2 <= c1 && r < v.spc && r1 < v.spc && ClusAddr(v, c, r) == ClusAddr(v, c1, r1)
    ensures c == c1 && r == r1
  {
    CellUnique(c - 2, r, c1 - 2, r1, v.spc);
  }

  /** Different sectors of a file are at different places. */
  lemma {:induction false} SecOfUnique(v: Vol, cs: seq<nat>, q: nat, q1: nat)
    requires 1 <= v.spc && Distinct(cs) && (forall i :: 0 <= i < |cs| ==> 2 <= cs[i])
    requires q / v.spc < |cs| && q1 / v.spc < |cs| && SecOf(v, cs, q) == SecOf(v, cs, q1)
    ensures q == q1
  {
    hide ClusAddr;
    SectorUnique(v, cs[q / v.spc], q % v.spc, cs[q1 / v.spc], q1 % v.spc);
    DivModUnique(q, q1, v.spc);
  }

  /** The number of clusters that `fobj_trunc` computes for a length: the sum
      wraps around at 32 bits. */
  function Target(v: Vol, length: nat): nat
    requires 1 <= v.spc
  {
    Quotient((length + Bpc(v) - 1) % 0x1_0000_0000, Bpc(v))
  }

  /** n clusters are just enough for `length` bytes. */
  ghost predicate JustEnough(v: Vol, length: nat, n: nat) {
    length <= n * Bpc(v) < length + Bpc(v)
  }

  /** It is just enough, unless the sum wraps; then it is 0. */
  lemma {:induction false} TargetExact(v: Vol, length: nat)
    requires 1 <= v.spc && length < 0x1_0000_0000 && Bpc(v) <= 0x1_0000_0000
    ensures JustEnough(v, length, Target(v, length)) <==> length + Bpc(v) <= 0x1_0000_0000
    ensures length + Bpc(v) > 0x1_0000_0000 ==> Target(v, length) == 0
  {
    var b := Bpc(v);
    if length + b <= 0x1_0000_0000 {
      Ceiling(length, b);
    } else {
      WrapsToZero(length + b - 1, b);
    }
  }

  lemma {:induction false} Ceiling(n: nat, b: nat)
    requires 0 < b
    ensures n <= (n + b - 1) / b * b < n + b
  {
    assert n + b - 1 == (n + b - 1) / b * b + (n + b - 1) % b;
  }

  lemma {:induction false} WrapsToZero(n: nat, b: nat)
    requires 0x1_0000_0000 <= n < 0x1_0000_0000 + b - 1
    ensures n % 0x1_0000_0000 / b == 0
  {
  }

  // ----- writing

  /** The sector with `part` put in from position `at` on. */
  function Splice(s: Sector, at: nat, part: seq<Byte>): (r: Sector)
    requires at + |part| <= BLKSIZE
  {
    s[..at] + part + s[at + |part|..]
  }

  /** The n bytes from file offset off on lie in one sector. */
  predicate InSector(off: nat, n: nat) { off % BLKSIZE + n <= BLKSIZE }

  /** They are all of it. */
  predicate WholeSector(off: nat, n: nat) { off % BLKSIZE == 0 && n == BLKSIZE }

  /** How much of a request for `size` bytes lies within the file. */
  function Clamp(off: nat, size: nat, filesize: nat): nat
    requires off <= filesize
  {
    if off + size > filesize then filesize - off else size
  }

  /** How many values an unsigned type has. */
  type Width = n: nat | 0 < n witness 1

  /** What both reads cut a request down to.  Behind the end of the file the
      difference is negative and wraps around, first as an unsigned long and then
      as a size_t. */
  function ReadLen(off: nat, size: nat, filesize: nat, ulong: Width, sizet: Width): nat {
    if off + size > filesize then (filesize - off) % ulong % sizet else size
  }

  /** Within the file it is the rest of the file, if that is less. */
  lemma {:induction false} ReadLenInside(off: nat, size: nat, filesize: nat, ulong: Width, sizet: Width)
    requires off <= filesize && size < sizet && off + size < ulong
    ensures ReadLen(off, size, filesize, ulong, sizet) == if off + size > filesize then filesize - off else size
  {
    if off + size > filesize {
      Small(filesize - off, ulong);
      Small(filesize - off, sizet);
    }
  }

  lemma {:induction false} Small(n: nat, m: nat)
    requires n < m
    ensures n % m == n
  {
  }

  /** Behind the end of the file the read is cut down to at most `size` bytes
      exactly when the distance to the end, in the width of a size_t, is zero or
      lies at most `size` below the wrap. */
  lemma {:induction false} ReadLenBeyond(off: nat, size: nat, filesize: nat, k: nat, sizet: Width)
    requires filesize < off && size < sizet && off < k * sizet
    ensures 0 < k * sizet
    ensures var d := (off - filesize) % sizet;
      ReadLen(off, size, filesize, k * sizet, sizet) <= size <==> d == 0 || sizet - d <= size
  {
    WrapsOnce(filesize - off, k * sizet);
    RestBelow(off - filesize, k, sizet);
  }

  /** The rest of a negative number, from the rest of the positive one. */
  lemma {:induction false} RestBelow(n: nat, k: nat, m: nat)
    requires 0 < m
    ensures var d := n % m; (k * m - n) % m == if d == 0 then 0 else m - d
  {
    var q, d := n / m, n % m;
    assert n == q * m + d;
    if d == 0 {
      assert k * m - n == (k - q) * m;
      RestIs(k * m - n, k - q, 0, m);
    } else {
      assert k * m - n == (k - q - 1) * m + (m - d);
      RestIs(k * m - n, k - q - 1, m - d, m);
    }
  }

  lemma {:induction false} WrapsOnce(n: int, m: nat)
    requires n < 0 <= n + m
    ensures 0 < m && n % m == n + m
  {
    RestIs(n, -1, n + m, m);
  }

  lemma {:induction false} RestIs(n: int, q: int, r: nat, m: nat)
    requires r < m && n == q * m + r
    ensures n % m == r
  {
    var p, s := n / m, n % m;
    assert (p - q) * m == r - s;
    if p > q {
      Product(p - q - 1, m);
    } else if p < q {
      Product(q - p - 1, m);
    }
  }

  /** How much of a transfer of `size` bytes at file offset `off` lies in one
      sector. */
  function Chunk(off: nat, size: nat): (n: nat)
    ensures n <= size && InSector(off, n) && (size > 0 ==> n > 0)
  {
    if BLKSIZE - off % BLKSIZE > size then size else BLKSIZE - off % BLKSIZE
  }

  /** One turn of the loop of `f_write`. */
  function Put(v: Vol, img: Image, cs: seq<nat>, off: nat, part: seq<Byte>): (r: Image)
    requires InSector(off, |part|)
    ensures r.Keys == img.Keys
  {
    var a := SecOf(v, cs, off / BLKSIZE);
    if a in img then img[a := Splice(img[a], off % BLKSIZE, part)] else img
  }

  /** The loop of `f_write`: the data is put into the sectors one by one. */
  function Written(v: Vol, img: Image, cs: seq<nat>, off: nat, data: seq<Byte>): (r: Image)
    ensures r.Keys == img.Keys
    decreases |data|
  {
    if data == [] then img
    else
      var n := Chunk(off, |data|);
      Written(v, Put(v, img, cs, off, data[..n]), cs, off + n, data[n..])
  }

  lemma {:induction false} WrittenStep(v: Vol, img: Image, cs: seq<nat>, off: nat, data: seq<Byte>, wrote: nat)
    requires wrote < |data|
    ensures var n := Chunk(off, |data| - wrote);
      Written(v, img, cs, off, data[wrote..]) ==
      Written(v, Put(v, img, cs, off, data[wrote..wrote + n]), cs, off + n, data[wrote + n..])
  {
    var n, rest := Chunk(off, |data| - wrote), data[wrote..];
    assert rest[..n] == data[wrote..wrote + n] && rest[n..] == data[wrote + n..];
  }

  /** The file's clusters are distinct data clusters that back the range. */
  ghost predicate Range(v: Vol, img: Image, cs: seq<nat>, n: nat) {
    GoodVol(v, img) && InTable(FatView(v, img), cs) && Distinct(cs) && Backed(v, cs, n)
  }

  lemma {:induction false} ChunkSector(off: nat, n: nat, o: nat)
    requires InSector(off, n)
    ensures off <= o < off + n ==> o / BLKSIZE == off / BLKSIZE && o % BLKSIZE == off % BLKSIZE + (o - off)
    ensures o / BLKSIZE == off / BLKSIZE && !(off <= o < off + n) ==>
              o % BLKSIZE < off % BLKSIZE || o % BLKSIZE >= off % BLKSIZE + n
  {
  }

  lemma {:induction false} SpliceAt(s: Sector, at: nat, part: seq<Byte>, i: nat)
    requires at + |part| <= BLKSIZE && i < BLKSIZE
    ensures Splice(s, at, part)[i] == if at <= i < at + |part| then part[i - at] else s[i]
  {
  }

  lemma {:induction false} PutByte(v: Vol, img: Image, cs: seq<nat>, off: nat, part: seq<Byte>, n: nat, o: nat)
    requires Range(v, img, cs, n) && off < n && o < n && InSector(off, |part|)
    ensures FileByte(v, Put(v, img, cs, off, part), cs, o) ==
            if off <= o < off + |part| then part[o - off] else FileByte(v, img, cs, o)
  {
    hide SecOf;
    BackedByte(v, cs, n, off);
    BackedByte(v, cs, n, o);
    SecExists(v, img, cs, off / BLKSIZE);
    SecExists(v, img, cs, o / BLKSIZE);
    ChunkSector(off, |part|, o);
    if SecOf(v, cs, off / BLKSIZE) == SecOf(v, cs, o / BLKSIZE) {
      SecOfUnique(v, cs, off / BLKSIZE, o / BLKSIZE);
      SpliceAt(img[SecOf(v, cs, off / BLKSIZE)], off % BLKSIZE, part, o % BLKSIZE);
    }
  }

  /** Putting a part into a file keeps the volume's FAT. */
  lemma {:induction false} PutRange(v: Vol, img: Image, cs: seq<nat>, off: nat, part: seq<Byte>, n: nat)
    requires Range(v, img, cs, n) && off < n && InSector(off, |part|)
    ensures Range(v, Put(v, img, cs, off, part), cs, n)
    ensures FatView(v, Put(v, img, cs, off, part)) == FatView(v, img)
    ensures Mirrored(v, img) ==> Mirrored(v, Put(v, img, cs, off, part))
  {
    hide SecOf;
    BackedByte(v, cs, n, off);
    SecExists(v, img, cs, off / BLKSIZE);
    ViewOutside(v, img, Put(v, img, cs, off, part));
  }

  lemma {:induction false} WrittenRange(v: Vol, img: Image, cs: seq<nat>, off: nat, data: seq<Byte>, n: nat)
    requires Range(v, img, cs, n) && off + |data| <= n
    ensures Range(v, Written(v, img, cs, off, data), cs, n)
    ensures FatView(v, Written(v, img, cs, off, data)) == FatView(v, img)
    ensures Mirrored(v, img) ==> Mirrored(v, Written(v, img, cs, off, data))
    decreases |data|
  {
    hide Put;
    if data != [] {
      var k := Chunk(off, |data|);
      PutRange(v, img, cs, off, data[..k], n);
      WrittenRange(v, Put(v, img, cs, off, data[..k]), cs, off + k, data[k..], n);
    }
  }

  /** After a write every byte of the file is the data's within the range that
      was written, and what it was elsewhere. */
  lemma {:induction false} WrittenByte(v: Vol, img: Image, cs: seq<nat>, off: nat, data: seq<Byte>, n: nat, o: nat)
    requires Range(v, img, cs, n) && off + |data| <= n && o < n
    ensures FileByte(v, Written(v, img, cs, off, data), cs, o) ==
            if off <= o < off + |data| then data[o - off] else FileByte(v, img, cs, o)
    decreases |data|
  {
    hide Put, FileByte;
    if data != [] {
      var k := Chunk(off, |data|);
      PutRange(v, img, cs, off, data[..k], n);
      PutByte(v, img, cs, off, data[..k], n, o);
      WrittenByte(v, Put(v, img, cs, off, data[..k]), cs, off + k, data[k..], n, o);
    }
  }

  /** Reading back what was written gives the same bytes, for any offset, length
      and alignment. */
  lemma {:induction false} ReadBack(v: Vol, img: Image, cs: seq<nat>, off: nat, data: seq<Byte>, n: nat)
    requires Range(v, img, cs, n) && off + |data| <= n
    ensures FileBytes(v, Written(v, img, cs, off, data), cs, off, |data|) == data
  {
    hide Written, FileByte;
    forall j | 0 <= j < |data| ensures FileByte(v, Written(v, img, cs, off, data), cs, off + j) == data[j] {
      WrittenByte(v, img, cs, off, data, n, off + j);
    }
  }

  /** A sector of none of the file's clusters. */
  ghost predicate Foreign(v: Vol, cs: seq<nat>, a: Addr) {
    forall i, r {:trigger ClusAddr(v, cs[i], r)} ::
      0 <= i < |cs| && 2 <= cs[i] && 0 <= r < v.spc ==> a != ClusAddr(v, cs[i], r)
  }

  lemma {:induction false} ForeignSector(v: Vol, cs: seq<nat>, a: Addr, q: nat)
    requires Foreign(v, cs, a) && 1 <= v.spc && q / v.spc < |cs| && 2 <= cs[q / v.spc]
    ensures SecOf(v, cs, q) != a
  {
    assert SecOf(v, cs, q) == ClusAddr(v, cs[q / v.spc], q % v.spc);
  }

  /** A write touches no sector outside the file's clusters. */
  lemma {:induction false} WrittenForeign(v: Vol, img: Image, cs: seq<nat>, off: nat, data: seq<Byte>, n: nat, a: Addr)
    requires Range(v, img, cs, n) && off + |data| <= n && a in img && Foreign(v, cs, a)
    ensures Written(v, img, cs, off, data)[a] == img[a]
    decreases |data|
  {
    hide Foreign, SecOf;
    if data != [] {
      var k := Chunk(off, |data|);
      PutRange(v, img, cs, off, data[..k], n);
      BackedByte(v, cs, n, off);
      ForeignSector(v, cs, a, off / BLKSIZE);
      WrittenForeign(v, Put(v, img, cs, off, data[..k]), cs, off + k, data[k..], n, a);
    }
  }

  /** The sectors of other clusters are foreign. */
  lemma {:induction false} OtherForeign(v: Vol, cs: seq<nat>, ds: seq<nat>, q: nat)
    requires Disjoint(cs, ds) && 1 <= v.spc && q / v.spc < |ds| && 2 <= ds[q / v.spc]
    ensures Foreign(v, cs, SecOf(v, ds, q))
  {
    var d, s := ds[q / v.spc], q % v.spc;
    forall i, r {:trigger ClusAddr(v, cs[i], r)} | 0 <= i < |cs| && 2 <= cs[i] && 0 <= r < v.spc
      ensures SecOf(v, ds, q) != ClusAddr(v, cs[i], r)
    {
      assert cs[i] in cs && d in ds;
      if ClusAddr(v, d, s) == ClusAddr(v, cs[i], r) {
        SectorUnique(v, cs[i], r, d, s);
      }
    }
  }

  /** Every byte of every other file stays what it was. */
  lemma {:induction false} WrittenOther(v: Vol, img: Image, cs: seq<nat>, off: nat, data: seq<Byte>, n: nat,
                                        ds: seq<nat>, m: nat, o: nat)
    requires Range(v, img, cs, n) && off + |data| <= n && Range(v, img, ds, m) && o < m && Disjoint(cs, ds)
    ensures FileByte(v, Written(v, img, cs, off, data), ds, o) == FileByte(v, img, ds, o)
  {
    hide Written, SecOf;
    BackedByte(v, ds, m, o);
    SecExists(v, img, ds, o / BLKSIZE);
    OtherForeign(v, cs, ds, o / BLKSIZE);
    WrittenForeign(v, img, cs, off, data, n, SecOf(v, ds, o / BLKSIZE));
  }

  // ----- the directory entry's sector

  /** A sector in none of the file's clusters and in no free one. */
  ghost predicate EntryApart(v: Vol, fat: Fat, cs: seq<nat>, a: Addr) {
    forall c, r {:trigger ClusAddr(v, c, r)} ::
      2 <= c < |fat| && 0 <= r < v.spc && (c in cs || fat[c] == 0) ==> a != ClusAddr(v, c, r)
  }

  /** It is in none of the clusters that the file can have after fobj_trunc. */
  lemma {:induction false} EntryForeign(v: Vol, fat: Fat, cs: seq<nat>, target: nat, a: Addr)
    requires 2 <= |fat| && IsChain(fat, cs) && EntryApart(v, fat, cs, a)
    ensures Foreign(v, cs, a) && Foreign(v, Trunc(fat, cs, target).cs, a)
  {
    hide Trunc;
    TruncLinks(fat, cs, target);
    var ds := Trunc(fat, cs, target).cs;
    forall i, r {:trigger ClusAddr(v, ds[i], r)} | 0 <= i < |ds| && 2 <= ds[i] && 0 <= r < v.spc
      ensures a != ClusAddr(v, ds[i], r)
    {
      assert ds[i] in ds;
    }
    forall i, r {:trigger ClusAddr(v, cs[i], r)} | 0 <= i < |cs| && 2 <= cs[i] && 0 <= r < v.spc
      ensures a != ClusAddr(v, cs[i], r)
    {
      assert cs[i] in cs;
    }
  }

  /** Where the sectors outside the FAT and a are the same, so are the bytes of a
      file whose clusters do not have sector a. */
  lemma {:induction false} SameBytes(v: Vol, img: Image, r: Image, fat: Fat, ds: seq<nat>, es: seq<nat>, n: nat, a: Addr, o: nat)
    requires GoodVol(v, img) && FatView(v, img) == fat && InTable(fat, ds) && Backed(v, ds, n) && Foreign(v, ds, a)
    requires r.Keys == img.Keys && forall x :: x in img && OutsideFat(v, x) && x != a ==> r[x] == img[x]
    requires o < n && (ds <= es || (es <= ds && Backed(v, es, n)))
    ensures FileByte(v, r, es, o) == FileByte(v, img, ds, o)
  {
    BackedByte(v, ds, n, o);
    if es <= ds && Backed(v, es, n) {
      BackedByte(v, es, n, o);
    }
    var k := o / BLKSIZE / v.spc;
    assert k < |es| && es[k] == ds[k] by {
      assert ds <= es ==> ds == es[..|ds|];
      assert es <= ds ==> es == ds[..|es|];
    }
    SecExists(v, img, ds, o / BLKSIZE);
    ForeignSector(v, ds, a, o / BLKSIZE);
    hide GoodVol, FatView, InTable, Backed, Foreign;
  }
}

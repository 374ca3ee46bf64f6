/** FAT12 entries on disk (hosted/fat/cluster.c, hosted/fat/fileops.c:f_mount).

    An image gives the contents of every sector.  Each copy of the FAT is read
    as one string of bytes, and the 12-bit entry of a cluster out of the two
    bytes that hold it, wherever the sector boundaries fall. */
module Fat12 {
  import opened Arith
  import opened Bytes
  import opened CacheSpec

  type Image = map<Addr, Sector>

  const FAT_EOC: nat := 0xff0   // entries from here on end a chain
  const FAT_LAST: nat := 0xfff  // the end mark that the code writes

  /** A mounted volume.  `wrapIndex` tells how `clus_set_next` finds a byte in
      its block: false is the index as written, true the index reduced modulo
      the sector size, as in `clus_get_next`. */
  datatype Vol = Vol(unit: nat, fat0sec: nat, fatCount: nat, spf: nat, rootdirsec: nat,
                     datasec: nat, nclus: nat, spc: nat, wrapIndex: bool)

  // ----- layout

  /** Where FAT copy k begins: the setter steps from copy to copy. */
  function FatStart(v: Vol, k: nat): nat {
    if k == 0 then v.fat0sec else FatStart(v, k - 1) + v.spf
  }

  lemma {:induction false} FatStartIs(v: Vol, k: nat)
    ensures FatStart(v, k) == v.fat0sec + k * v.spf
  {
    if k > 0 {
      FatStartIs(v, k - 1);
    }
  }

  lemma {:induction false} FatStartsApart(v: Vol, k: nat, k1: nat)
    requires k < k1
    ensures v.fat0sec <= FatStart(v, k) && FatStart(v, k) + v.spf <= FatStart(v, k1)
    decreases k1
  {
    if k1 == k + 1 {
      if k > 0 {
        FatStartsApart(v, 0, k);
      }
    } else {
      FatStartsApart(v, k, k1 - 1);
    }
  }

  /** The first sector behind the data area. */
  function DataEnd(v: Vol): int { v.datasec + (v.nclus - 2) * v.spc }

  /** The FAT copies, the root directory and the data area follow one another,
      the FAT has an entry for every cluster, every sector exists, and cluster
      numbers are below the end marks. */
  ghost predicate GoodVol(v: Vol, img: Image) {
    && 1 <= v.fatCount && 1 <= v.spc && 2 <= v.nclus <= FAT_EOC
    && FatStart(v, v.fatCount) <= v.rootdirsec <= v.datasec <= DataEnd(v) < INVALID_BLOCK
    && v.nclus * 3 / 2 + 2 <= v.spf * BLKSIZE
    && (forall sec :: v.fat0sec <= sec < DataEnd(v) ==> Addr(v.unit, sec) in img)
  }

  lemma {:induction false} GoodSameKeys(v: Vol, img: Image, r: Image)
    requires GoodVol(v, img) && r.Keys == img.Keys
    ensures GoodVol(v, r)
  {
    assert forall a :: a in img ==> a in r;
  }

  /** The fields of the boot sector's parameter block that f_mount uses. */
  datatype Bpb = Bpb(bytesPerSector: nat, sectorPerCluster: nat, reservedSectors: nat, fatCount: nat,
                     rootEntries: nat, totalSectors: nat, sectorsPerFat: nat, hiddenSectors: nat)

  const DIRENT_SIZE: nat := 32

  /** `f_mount`'s arithmetic. */
  function Mount(unit: nat, b: Bpb, wrapIndex: bool): Vol
    requires 1 <= b.sectorPerCluster
    requires MountDatasec(b) <= b.totalSectors
  {
    var fat0sec := b.hiddenSectors + b.reservedSectors;
    Vol(unit, fat0sec, b.fatCount, b.sectorsPerFat, fat0sec + b.fatCount * b.sectorsPerFat, MountDatasec(b),
        2 + (b.totalSectors - MountDatasec(b)) / b.sectorPerCluster, b.sectorPerCluster, wrapIndex)
  }

  function MountDatasec(b: Bpb): nat {
    b.hiddenSectors + b.reservedSectors + b.fatCount * b.sectorsPerFat +
    (b.rootEntries * DIRENT_SIZE + BLKSIZE - 1) / BLKSIZE
  }

  /** A volume whose sectors all exist, with at least one FAT that is large
      enough, and few enough clusters for FAT12, mounts well; its root directory
      region holds exactly the sectors its entries need, and its clusters fill
      the rest of the volume up to less than one cluster. */
  lemma {:induction false} MountGood(unit: nat, b: Bpb, wrapIndex: bool, img: Image)
    requires 1 <= b.sectorPerCluster && 1 <= b.fatCount && MountDatasec(b) <= b.totalSectors < INVALID_BLOCK
    requires (b.totalSectors - MountDatasec(b)) / b.sectorPerCluster <= FAT_EOC - 2
    requires ((b.totalSectors - MountDatasec(b)) / b.sectorPerCluster + 2) * 3 / 2 + 2 <= b.sectorsPerFat * BLKSIZE
    requires forall sec :: 0 <= sec < b.totalSectors ==> Addr(unit, sec) in img
    ensures var v := Mount(unit, b, wrapIndex);
      && GoodVol(v, img)
      && v.fat0sec == b.hiddenSectors + b.reservedSectors && FatStart(v, b.fatCount) == v.rootdirsec
      && v.spf == b.sectorsPerFat && v.spc == b.sectorPerCluster
      && (v.datasec - v.rootdirsec) * BLKSIZE >= b.rootEntries * DIRENT_SIZE
      && (v.datasec - v.rootdirsec) * BLKSIZE < b.rootEntries * DIRENT_SIZE + BLKSIZE
      && DataEnd(v) <= b.totalSectors < DataEnd(v) + v.spc
  {
    var v := Mount(unit, b, wrapIndex);
    FatStartIs(v, v.fatCount);
    Multiple(b.totalSectors - MountDatasec(b), b.sectorPerCluster);
    DirectorySectors(b.rootEntries * DIRENT_SIZE);
    hide FatStart;
  }

  lemma {:induction false} Multiple(n: nat, d: nat)
    requires 0 < d
    ensures 0 <= n / d * d <= n < n / d * d + d
  {
    assert n == n / d * d + n % d;
    Product(n / d, d);
  }

  lemma {:induction false} DirectorySectors(n: nat)
    ensures n <= (n + BLKSIZE - 1) / BLKSIZE * BLKSIZE < n + BLKSIZE
  {
  }

  // ----- the bytes of the FAT

  function FatSize(v: Vol): nat { v.spf * BLKSIZE }

  /** The sector with byte o of FAT copy k. */
  function FatSec(v: Vol, k: nat, o: nat): nat { FatStart(v, k) + o / BLKSIZE }

  function FatAddr(v: Vol, k: nat, o: nat): Addr {
    Addr(v.unit, FatSec(v, k, o))
  }

  lemma {:induction false} FatSecStep(v: Vol, k: nat, o: nat)
    ensures FatSec(v, 0, o) == v.fat0sec + o / BLKSIZE && FatSec(v, k + 1, o) == FatSec(v, k, o) + v.spf
  {
  }

  function ByteAt(img: Image, a: Addr, o: nat): Byte {
    if a in img then img[a][o % BLKSIZE] else 0
  }

  /** FAT copy k. */
  function FatBytes(v: Vol, img: Image, k: nat): (s: seq<Byte>) {
    seq(FatSize(v), o requires 0 <= o < FatSize(v) => ByteAt(img, FatAddr(v, k, o), o))
  }

  lemma {:induction false} FatInRange(v: Vol, k: nat, o: nat)
    requires k < v.fatCount && o < FatSize(v)
    ensures v.fat0sec <= FatAddr(v, k, o).blkno < FatStart(v, v.fatCount)
  {
    FatStartsApart(v, k, v.fatCount);
  }

  lemma {:induction false} FatExists(v: Vol, img: Image, k: nat, o: nat)
    requires GoodVol(v, img) && k < v.fatCount && o < FatSize(v)
    ensures FatAddr(v, k, o) in img && !OutsideFat(v, FatAddr(v, k, o))
  {
    FatInRange(v, k, o);
    assert FatAddr(v, k, o) == Addr(v.unit, FatAddr(v, k, o).blkno);
  }

  /** Bytes in different copies or different sectors of a copy are apart. */
  lemma {:induction false} FatAddrInjective(v: Vol, k: nat, o: nat, k1: nat, o1: nat)
    requires o < FatSize(v) && o1 < FatSize(v) && FatAddr(v, k, o) == FatAddr(v, k1, o1)
    ensures k == k1 && o / BLKSIZE == o1 / BLKSIZE
  {
    if k < k1 {
      FatStartsApart(v, k, k1);
    } else if k1 < k {
      FatStartsApart(v, k1, k);
    }
  }

  /** A sector that belongs to no FAT copy. */
  predicate OutsideFat(v: Vol, a: Addr) {
    a.unit != v.unit || a.blkno < v.fat0sec || FatStart(v, v.fatCount) <= a.blkno
  }

  /** The image with byte o of copy k set to b. */
  function SetByte(v: Vol, img: Image, k: nat, o: nat, b: Byte): (r: Image)
    ensures r.Keys == img.Keys
  {
    var a := FatAddr(v, k, o);
    if a in img then img[a := img[a][o % BLKSIZE := b]] else img
  }

  lemma {:induction false} SetByteAt(v: Vol, img: Image, k: nat, o: nat, b: Byte, k1: nat, o1: nat)
    requires o < FatSize(v) && o1 < FatSize(v) && FatAddr(v, k, o) in img
    ensures ByteAt(SetByte(v, img, k, o, b), FatAddr(v, k1, o1), o1) ==
            if k1 == k && o1 == o then b else ByteAt(img, FatAddr(v, k1, o1), o1)
  {
    if FatAddr(v, k, o) == FatAddr(v, k1, o1) {
      FatAddrInjective(v, k, o, k1, o1);
    }
  }

  lemma {:induction false} SetByteBytes(v: Vol, img: Image, k: nat, o: nat, b: Byte, k1: nat)
    requires o < FatSize(v) && FatAddr(v, k, o) in img
    ensures FatBytes(v, SetByte(v, img, k, o, b), k1) ==
            if k1 == k then FatBytes(v, img, k)[o := b] else FatBytes(v, img, k1)
  {
    forall o1 | 0 <= o1 < FatSize(v)
      ensures FatBytes(v, SetByte(v, img, k, o, b), k1)[o1] ==
              (if k1 == k then FatBytes(v, img, k)[o := b] else FatBytes(v, img, k1))[o1]
    {
      SetByteAt(v, img, k, o, b, k1, o1);
    }
  }

  // ----- one 12-bit entry

  function Decode(c: nat, low: Byte, high: Byte): (n: nat)
    ensures n < 0x1000
  {
    if c % 2 == 1 then low / 16 + high * 16 else (high % 16) * 256 + low
  }

  /** The two bytes after entry c is set to n: the half of the shared byte that
      belongs to the neighbour stays. */
  function EncodeLow(c: nat, low: Byte, n: nat): Byte {
    if c % 2 == 1 then low % 16 + (n % 16) * 16 else n % 256
  }

  function EncodeHigh(c: nat, high: Byte, n: nat): Byte {
    if c % 2 == 1 then (n / 16) % 256 else high / 16 * 16 + (n / 256) % 16
  }

  lemma {:induction false} DecodeEncodeOdd(low: Byte, n: nat)
    requires n < 0x1000
    ensures (low % 16 + (n % 16) * 16) / 16 + ((n / 16) % 256) * 16 == n
  {
    assert (low % 16 + (n % 16) * 16) / 16 == n % 16;
  }

  lemma {:induction false} DecodeEncodeEven(high: Byte, n: nat)
    requires n < 0x1000
    ensures ((high / 16 * 16 + (n / 256) % 16) % 16) * 256 + n % 256 == n
  {
    assert (high / 16 * 16 + (n / 256) % 16) % 16 == n / 256;
  }

  lemma {:induction false} DecodeEncode(c: nat, low: Byte, high: Byte, n: nat)
    requires n < 0x1000
    ensures Decode(c, EncodeLow(c, low, n), EncodeHigh(c, high, n)) == n
  {
    if c % 2 == 1 {
      DecodeEncodeOdd(low, n);
    } else {
      DecodeEncodeEven(high, n);
    }
  }

  function Offs(c: nat): nat { c * 3 / 2 }

  predicate HasEntry(bytes: seq<Byte>, c: nat) { Offs(c) + 1 < |bytes| }

  /** The entry of cluster c in a copy of the FAT. */
  function Entry(bytes: seq<Byte>, c: nat): (n: nat)
    requires HasEntry(bytes, c)
    ensures n < 0x1000
  {
    Decode(c, bytes[Offs(c)], bytes[Offs(c) + 1])
  }

  /** A copy of the FAT with the entry of cluster c set to n. */
  function WithEntry(bytes: seq<Byte>, c: nat, n: nat): seq<Byte>
    requires HasEntry(bytes, c)
  {
    bytes[Offs(c) := EncodeLow(c, bytes[Offs(c)], n)][Offs(c) + 1 := EncodeHigh(c, bytes[Offs(c) + 1], n)]
  }

  /** After an entry is set it reads back, and every other entry, also the one
      that shares a byte with it, reads as before. */
  lemma {:induction false} WithEntryGets(bytes: seq<Byte>, c: nat, n: nat, c1: nat)
    requires HasEntry(bytes, c) && HasEntry(bytes, c1) && n < 0x1000
    ensures Entry(WithEntry(bytes, c, n), c1) == if c1 == c then n else Entry(bytes, c1)
  {
    var low, high := bytes[Offs(c)], bytes[Offs(c) + 1];
    if c1 == c {
      DecodeEncode(c, low, high, n);
    } else if c1 == c + 1 && c % 2 == 0 {
      NextShares(c, high, bytes[Offs(c1) + 1], n);
    } else if c == c1 + 1 && c % 2 == 1 {
      PrevShares(c, bytes[Offs(c1)], low, n);
    } else {
      Apart(c, c1);
    }
  }

  /** Entries that do not share a byte. */
  lemma {:induction false} Apart(c: nat, c1: nat)
    requires c1 != c && !(c1 == c + 1 && c % 2 == 0) && !(c == c1 + 1 && c % 2 == 1)
    ensures Offs(c1) + 1 < Offs(c) || Offs(c) + 1 < Offs(c1)
  {
  }

  /** The entry behind an even one shares its higher byte. */
  lemma {:induction false} NextShares(c: nat, mid: Byte, high: Byte, n: nat)
    requires c % 2 == 0
    ensures Offs(c + 1) == Offs(c) + 1
    ensures Decode(c + 1, EncodeHigh(c, mid, n), high) == Decode(c + 1, mid, high)
  {
    OffsPair(c / 2);
    HighNibble(mid / 16, n / 256 % 16);
    hide Offs;
  }

  /** The entry before an odd one shares its lower byte. */
  lemma {:induction false} PrevShares(c: nat, low: Byte, mid: Byte, n: nat)
    requires c % 2 == 1
    ensures Offs(c) == Offs(c - 1) + 1
    ensures Decode(c - 1, low, EncodeLow(c, mid, n)) == Decode(c - 1, low, mid)
  {
    OffsPair(c / 2);
    Nibbles(mid, n % 16);
  }

  lemma {:induction false} OffsPair(h: nat)
    ensures Offs(2 * h) == 3 * h && Offs(2 * h + 1) == 3 * h + 1
  {
  }

  lemma {:induction false} HighNibble(a: nat, x: nat)
    requires x < 16
    ensures (a * 16 + x) / 16 == a
  {
  }

  lemma {:induction false} Nibbles(a: nat, b: nat)
    ensures (a % 16 + b * 16) % 16 == a % 16
  {
  }

  // ----- setting an entry on disk

  /** The image with the entry of cluster c in copy k set to n: first the lower
      of its two bytes, then the higher. */
  function SetEntry(v: Vol, img: Image, k: nat, c: nat, n: nat): (r: Image)
    ensures r.Keys == img.Keys
  {
    var low := EncodeLow(c, ByteAt(img, FatAddr(v, k, Offs(c)), Offs(c)), n);
    var img1 := SetByte(v, img, k, Offs(c), low);
    var high := EncodeHigh(c, ByteAt(img1, FatAddr(v, k, Offs(c) + 1), Offs(c) + 1), n);
    SetByte(v, img1, k, Offs(c) + 1, high)
  }

  lemma {:induction false} EntryInFat(v: Vol, img: Image, k: nat, c: nat)
    requires GoodVol(v, img) && k < v.fatCount && c < v.nclus
    ensures Offs(c) + 1 < FatSize(v) && HasEntry(FatBytes(v, img, k), c)
    ensures FatAddr(v, k, Offs(c)) in img && FatAddr(v, k, Offs(c) + 1) in img
    ensures !OutsideFat(v, FatAddr(v, k, Offs(c))) && !OutsideFat(v, FatAddr(v, k, Offs(c) + 1))
  {
    assert Offs(c) + 1 < FatSize(v);
    FatExists(v, img, k, Offs(c));
    FatExists(v, img, k, Offs(c) + 1);
  }

  /** The bytes of an entry in a copy of the FAT. */
  lemma {:induction false} ByteIsIn(v: Vol, img: Image, k: nat, c: nat)
    requires HasEntry(FatBytes(v, img, k), c)
    ensures FatBytes(v, img, k)[Offs(c)] == ByteAt(img, FatAddr(v, k, Offs(c)), Offs(c))
    ensures FatBytes(v, img, k)[Offs(c) + 1] == ByteAt(img, FatAddr(v, k, Offs(c) + 1), Offs(c) + 1)
  {
  }

  lemma {:induction false} SetEntryBytes(v: Vol, img: Image, k: nat, c: nat, n: nat, k1: nat)
    requires GoodVol(v, img) && k < v.fatCount && c < v.nclus && HasEntry(FatBytes(v, img, k1), c)
    ensures FatBytes(v, SetEntry(v, img, k, c, n), k1) ==
            if k1 == k then WithEntry(FatBytes(v, img, k1), c, n) else FatBytes(v, img, k1)
  {
    EntryInFat(v, img, k, c);
    ByteIsIn(v, img, k, c);
    hide GoodVol, FatBytes, SetByte, ByteAt, EncodeLow, EncodeHigh, FatAddr;
    var low := EncodeLow(c, ByteAt(img, FatAddr(v, k, Offs(c)), Offs(c)), n);
    var img1 := SetByte(v, img, k, Offs(c), low);
    SetByteBytes(v, img, k, Offs(c), low, k1);
    SetByteAt(v, img, k, Offs(c), low, k, Offs(c) + 1);
    var high := EncodeHigh(c, ByteAt(img1, FatAddr(v, k, Offs(c) + 1), Offs(c) + 1), n);
    SetByteBytes(v, img1, k, Offs(c) + 1, high, k1);
  }

  // ----- all copies

  /** The first k copies with the entry of cluster c set to n, one by one. */
  function SetCopies(v: Vol, img: Image, c: nat, n: nat, k: nat): (r: Image)
    ensures r.Keys == img.Keys
    decreases k
  {
    if k == 0 then img else SetEntry(v, SetCopies(v, img, c, n, k - 1), k - 1, c, n)
  }

  lemma {:induction false} SetCopiesStep(v: Vol, img: Image, c: nat, n: nat, k: nat) returns (was: Image, now: Image)
    requires 0 < k
    ensures was == SetCopies(v, img, c, n, k - 1) && now == SetCopies(v, img, c, n, k)
    ensures was.Keys == img.Keys && now == SetEntry(v, was, k - 1, c, n)
  {
    was := SetCopies(v, img, c, n, k - 1);
    now := SetEntry(v, was, k - 1, c, n);
  }

  lemma {:induction false} SetCopiesBytes(v: Vol, img: Image, c: nat, n: nat, k: nat, k1: nat)
    requires GoodVol(v, img) && c < v.nclus && k <= v.fatCount && HasEntry(FatBytes(v, img, k1), c)
    ensures FatBytes(v, SetCopies(v, img, c, n, k), k1) ==
            if k1 < k then WithEntry(FatBytes(v, img, k1), c, n) else FatBytes(v, img, k1)
  {
    hide SetEntry;
    if k > 0 {
      var img1, _ := SetCopiesStep(v, img, c, n, k);
      SetCopiesBytes(v, img, c, n, k - 1, k1);
      GoodSameKeys(v, img, img1);
      SetEntryBytes(v, img1, k - 1, c, n, k1);
    }
  }

  lemma {:induction false} SetEntryOutside(v: Vol, img: Image, k: nat, c: nat, n: nat, a: Addr)
    requires GoodVol(v, img) && k < v.fatCount && c < v.nclus && a in img && OutsideFat(v, a)
    ensures SetEntry(v, img, k, c, n)[a] == img[a]
  {
    EntryInFat(v, img, k, c);
  }

  lemma {:induction false} SetCopiesOutside(v: Vol, img: Image, c: nat, n: nat, k: nat, a: Addr)
    requires GoodVol(v, img) && c < v.nclus && k <= v.fatCount && a in img && OutsideFat(v, a)
    ensures SetCopies(v, img, c, n, k)[a] == img[a]
  {
    hide SetEntry;
    if k > 0 {
      var img1, _ := SetCopiesStep(v, img, c, n, k);
      SetCopiesOutside(v, img, c, n, k - 1, a);
      GoodSameKeys(v, img, img1);
      SetEntryOutside(v, img1, k - 1, c, n, a);
    }
  }

  /** `clus_set_next` on the whole volume. */
  function SetNext(v: Vol, img: Image, c: nat, n: nat): (r: Image)
    ensures r.Keys == img.Keys
  {
    SetCopies(v, img, c, n, v.fatCount)
  }

  // ----- the table as a sequence

  /** The entries as the code reads them, from the first copy. */
  ghost function FatView(v: Vol, img: Image): (fat: seq<nat>)
    requires GoodVol(v, img)
    ensures |fat| == v.nclus
    ensures forall c :: 0 <= c < |fat| ==> fat[c] < 0x1000
  {
    seq(v.nclus, c requires 0 <= c < v.nclus => TableEntry(v, img, c))
  }

  ghost function TableEntry(v: Vol, img: Image, c: nat): (n: nat)
    requires GoodVol(v, img) && c < v.nclus
    ensures n < 0x1000
  {
    EntryInFat(v, img, 0, c);
    Entry(FatBytes(v, img, 0), c)
  }

  /** All copies hold the same bytes. */
  ghost predicate Mirrored(v: Vol, img: Image) {
    forall k :: 0 <= k < v.fatCount ==> FatBytes(v, img, k) == FatBytes(v, img, 0)
  }

  /** Setting the entry of a cluster changes exactly that entry of the table,
      keeps the copies alike, and touches nothing outside the FAT. */
  lemma {:induction false} SetNextView(v: Vol, img: Image, c: nat, n: nat)
    requires GoodVol(v, img) && c < v.nclus && n < 0x1000
    ensures GoodVol(v, SetNext(v, img, c, n))
    ensures FatView(v, SetNext(v, img, c, n)) == FatView(v, img)[c := n]
    ensures forall a :: a in img && OutsideFat(v, a) ==> SetNext(v, img, c, n)[a] == img[a]
    ensures Mirrored(v, img) ==> Mirrored(v, SetNext(v, img, c, n))
  {
    var r := SetNext(v, img, c, n);
    GoodSameKeys(v, img, r);
    forall c1 | 0 <= c1 < v.nclus ensures TableEntry(v, r, c1) == FatView(v, img)[c := n][c1] {
      SetNextEntry(v, img, c, n, c1);
    }
    forall a | a in img && OutsideFat(v, a) ensures r[a] == img[a] {
      SetCopiesOutside(v, img, c, n, v.fatCount, a);
    }
    if Mirrored(v, img) {
      forall k | 0 <= k < v.fatCount ensures FatBytes(v, r, k) == FatBytes(v, r, 0) {
        EntryInFat(v, img, k, c);
        SetCopiesBytes(v, img, c, n, v.fatCount, k);
        SetCopiesBytes(v, img, c, n, v.fatCount, 0);
      }
    }
  }

  lemma {:induction false} SetNextEntry(v: Vol, img: Image, c: nat, n: nat, c1: nat)
    requires GoodVol(v, img) && c < v.nclus && n < 0x1000 && c1 < v.nclus && GoodVol(v, SetNext(v, img, c, n))
    ensures TableEntry(v, SetNext(v, img, c, n), c1) == if c1 == c then n else TableEntry(v, img, c1)
  {
    EntryInFat(v, img, 0, c);
    SetCopiesBytes(v, img, c, n, v.fatCount, 0);
    EntryInFat(v, img, 0, c1);
    WithEntryGets(FatBytes(v, img, 0), c, n, c1);
  }

  /** Changing sectors outside the FAT leaves the table alone. */
  lemma {:induction false} ViewOutside(v: Vol, img: Image, r: Image)
    requires GoodVol(v, img) && r.Keys == img.Keys
    requires forall a :: a in img && !OutsideFat(v, a) ==> r[a] == img[a]
    ensures GoodVol(v, r) && FatView(v, r) == FatView(v, img)
    ensures Mirrored(v, img) ==> Mirrored(v, r)
  {
    GoodSameKeys(v, img, r);
    forall k | 0 <= k < v.fatCount ensures FatBytes(v, r, k) == FatBytes(v, img, k) {
      forall o | 0 <= o < FatSize(v) ensures FatBytes(v, r, k)[o] == FatBytes(v, img, k)[o] {
        FatExists(v, img, k, o);
      }
    }
    assert FatBytes(v, r, 0) == FatBytes(v, img, 0);
    assert forall c :: 0 <= c < v.nclus ==> TableEntry(v, r, c) == TableEntry(v, img, c);
  }

  // ----- the index in the block

  /** Where `clus_set_next` looks for byte o of a FAT copy in its block. */
  function StoreIndex(v: Vol, o: nat): nat {
    if v.wrapIndex then o % BLKSIZE else o
  }

  /** `clus_set_next` stores through an index inside its block. */
  predicate Stores(v: Vol, c: nat) {
    StoreIndex(v, Offs(c)) < BLKSIZE && StoreIndex(v, Offs(c) + 1) < BLKSIZE
  }

  /** As written, the index that clus_set_next stores through lies in its block
      for both bytes of an entry exactly for the clusters whose entries lie in
      the first sector of the FAT, and then it is the right one. */
  lemma {:induction false} StoreIndexInBlock(v: Vol, c: nat)
    ensures Stores(v, c) <==> v.wrapIndex || c <= 340
    ensures Stores(v, c) ==> StoreIndex(v, Offs(c)) == Offs(c) % BLKSIZE
    ensures Stores(v, c) ==> StoreIndex(v, Offs(c) + 1) == (Offs(c) + 1) % BLKSIZE
  {
  }

  /** Cluster 341, whose entry straddles two sectors, is the first that misses. */
  lemma {:induction false} StoreIndexMisses(v: Vol)
    requires !v.wrapIndex
    ensures StoreIndex(v, Offs(341)) == 511 && StoreIndex(v, Offs(341) + 1) == 512 == BLKSIZE
  {
  }
}

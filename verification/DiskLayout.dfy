/** Where things stand on a FAT12 disk, in sectors and bytes: the laws that tie the
    functions of the other modules to the format itself. */
module DiskLayout {
  import opened Arith
  import opened Bytes
  import opened CacheSpec
  import opened Fat12
  import opened FatChains
  import opened FatFiles
  import opened Dirents
  import opened KernelRead
  import opened Paths
  import opened Directory
  import opened PathWalk

  // ----- the table

  /** Two entries share three bytes: read as one little-endian number they are the
      even entry in the lower and the odd one in the higher twelve bits. */
  lemma {:induction false} EntryPair(bytes: seq<Byte>, h: nat)
    requires 3 * h + 2 < |bytes|
    ensures HasEntry(bytes, 2 * h) && HasEntry(bytes, 2 * h + 1)
    ensures Entry(bytes, 2 * h) + 0x1000 * Entry(bytes, 2 * h + 1) ==
            bytes[3 * h] as nat + 0x100 * (bytes[3 * h + 1] as nat) + 0x1_0000 * (bytes[3 * h + 2] as nat)
  {
    OffsPair(h);
    Thirds(bytes[3 * h], bytes[3 * h + 1], bytes[3 * h + 2]);
    assert (2 * h) % 2 == 0 && (2 * h + 1) % 2 == 1;
    hide Offs;
  }

  lemma {:induction false} Thirds(a: nat, b: nat, c: nat)
    ensures b % 16 * 256 + a + 0x1000 * (b / 16 + c * 16) == a + 0x100 * b + 0x1_0000 * c
  {
    assert b == b / 16 * 16 + b % 16;
  }

  /** Setting an entry sets just its twelve bits of the three bytes, and no other byte. */
  lemma {:induction false} SetPair(bytes: seq<Byte>, h: nat, n: nat, odd: bool)
    requires 3 * h + 2 < |bytes| && n < 0x1000
    ensures HasEntry(bytes, 2 * h) && HasEntry(bytes, 2 * h + 1)
    ensures var r := WithEntry(bytes, if odd then 2 * h + 1 else 2 * h, n);
      && |r| == |bytes| && (forall o :: 0 <= o < |bytes| && !(3 * h <= o <= 3 * h + 2) ==> r[o] == bytes[o])
      && r[3 * h] as nat + 0x100 * (r[3 * h + 1] as nat) + 0x1_0000 * (r[3 * h + 2] as nat) ==
         if odd then Entry(bytes, 2 * h) + 0x1000 * n else n + 0x1000 * Entry(bytes, 2 * h + 1)
  {
    hide Entry, EncodeLow, EncodeHigh, Offs;
    OffsPair(h);
    var c := if odd then 2 * h + 1 else 2 * h;
    var r := WithEntry(bytes, c, n);
    EntryPair(r, h);
    WithEntryGets(bytes, c, n, 2 * h);
    WithEntryGets(bytes, c, n, 2 * h + 1);
  }

  /** Byte o of copy k of the table is byte o % 512 of the sector that is o / 512 behind
      the first of that copy; the copies follow one another. */
  lemma {:induction false} FatByteIs(v: Vol, img: Image, k: nat, o: nat, a: Addr)
    requires GoodVol(v, img) && k < v.fatCount && o < v.spf * 512
    requires a.unit == v.unit && a.blkno == v.fat0sec + k * v.spf + o / 512
    ensures |FatBytes(v, img, k)| == v.spf * 512 && a in img && FatBytes(v, img, k)[o] == img[a][o % 512]
  {
    FatStartIs(v, k);
    FatExists(v, img, k, o);
  }

  /** Entries from 0xff0 on end a chain; no other entry does, and clusters count from 2. */
  lemma {:induction false} EndMark(fat: Fat, cs: seq<nat>, c: nat)
    requires Linked(fat, cs + [c])
    ensures 2 <= c < |fat| && (IsChain(fat, cs + [c]) <==> fat[c] >= 0xff0)
  {
    assert (cs + [c])[|cs|] == c;
  }

  // ----- the data area

  /** Byte j of cluster i of a file is its byte 512 spc i + j.  The clusters are runs of
      spc sectors, and cluster 2 is the first of the data area. */
  lemma {:induction false} FileByteIs(v: Vol, img: Image, cs: seq<nat>, i: nat, j: nat, a: Addr)
    requires GoodVol(v, img) && InTable(FatView(v, img), cs) && i < |cs| && j < 512 * v.spc
    requires a.unit == v.unit && a.blkno == v.datasec + (cs[i] - 2) * v.spc + j / 512
    ensures i * (512 * v.spc) + j >= 0 && a in img
    ensures FileByte(v, img, cs, i * (512 * v.spc) + j) == img[a][j % 512]
  {
    hide GoodVol, InTable, FatView, SecOf;
    TableCluster(FatView(v, img), cs, i);
    var o := InFile(v.spc, i, j);
    HasSectors(v, img);
    SecExists(v, img, cs, o / BLKSIZE);
    SectorIs(v, cs, o / BLKSIZE);
  }

  lemma {:induction false} HasSectors(v: Vol, img: Image)
    requires GoodVol(v, img)
    ensures 1 <= v.spc
  {
  }

  lemma {:induction false} SectorIs(v: Vol, cs: seq<nat>, q: nat)
    requires 1 <= v.spc && q / v.spc < |cs| && 2 <= cs[q / v.spc]
    ensures SecOf(v, cs, q).unit == v.unit && SecOf(v, cs, q).blkno == v.datasec + (cs[q / v.spc] - 2) * v.spc + q % v.spc
  {
  }

  lemma {:induction false} InFile(spc: nat, i: nat, j: nat) returns (o: nat)
    requires j < 512 * spc
    ensures o == i * (512 * spc) + j && o % 512 == j % 512
    ensures o / 512 / spc == i && o / 512 % spc == j / 512
  {
    Product(i, 512 * spc);
    o := i * (512 * spc) + j;
    CellDiv(o, 512 * spc, i, j);
    DivDiv(o, spc);
    assert o == 512 * (i * spc) + j;
  }

  lemma {:induction false} TableCluster(fat: Fat, cs: seq<nat>, i: nat)
    requires InTable(fat, cs) && i < |cs|
    ensures 2 <= cs[i]
  {
  }

  // ----- directory entries

  /** The first cluster is the little-endian word at offset 26, the size the
      little-endian long word at offset 28. */
  lemma {:induction false} DirentIs(s: Sector, offs: nat)
    requires offs + 32 <= 512
    ensures DirCluster0(s, offs) == s[offs + 26] as nat + 0x100 * (s[offs + 27] as nat)
    ensures DirSize(s, offs) ==
            s[offs + 28] as nat + 0x100 * (s[offs + 29] as nat) +
            0x1_0000 * (s[offs + 30] as nat) + 0x100_0000 * (s[offs + 31] as nat)
  {
    var d := s[offs..];
    NumberTwo(d, 26);
    NumberTwo(d, 30);
    assert Number(d, 28, 4) == d[28] as nat + 256 * (d[29] as nat + 256 * Number(d, 30, 2));
  }

  lemma {:induction false} NumberTwo(d: seq<Byte>, i: nat)
    requires i + 2 <= |d|
    ensures Number(d, i, 2) == d[i] as nat + 0x100 * (d[i + 1] as nat)
  {
    assert Number(d, i + 1, 1) == d[i + 1] as nat + 256 * Number(d, i + 2, 0);
  }

  /** Entry i of the root directory: the 32 bytes at 32 (i % 16) of the sector i / 16
      behind the first of its region.  The first 11 are the name, and the inode number
      has the entry's number in the sector in its lower four bits, the sector above. */
  lemma {:induction false} RootEntryIs(v: Vol, img: Image, n: nat, i: nat)
    requires GoodDir(v, img, Root(n)) && i < n && v.rootdirsec + n < 0x1000_0000
    ensures var a, info := Addr(v.unit, v.rootdirsec + i / 16), InfoAt(v, img, Root(n), i);
      && a in img && info.dir == img[a][i % 16 * 32..i % 16 * 32 + 32] && NameAt(v, img, Root(n), i) == info.dir[..11]
      && info.ino == 16 * (v.rootdirsec + i / 16) + i % 16
  {
    RootSector(v, img, n, i);
    InoIs(v.rootdirsec + i / 16, i % 16 * 32);
    hide Ino, GoodDir;
  }

  lemma {:induction false} InoIs(sec: nat, offs: nat)
    requires sec < 0x1000_0000 && offs < 512
    ensures Ino(sec, offs) == 16 * sec + offs / 32
  {
  }

  /** Byte k of entry i of a subdirectory is byte 32 i + k of its clusters. */
  lemma {:induction false} ChainEntryIs(v: Vol, img: Image, cs: seq<nat>, i: nat, k: nat)
    requires GoodDir(v, img, Chain(cs)) && i < 16 * v.spc * |cs| && k < 32
    ensures InfoAt(v, img, Chain(cs), i).dir[k] == FileByte(v, img, cs, 32 * i + k)
    ensures k < 11 ==> NameAt(v, img, Chain(cs), i)[k] == FileByte(v, img, cs, 32 * i + k)
  {
    InCluster16(v.spc, |cs|, i);
    HasSectors(v, img);
    hide GoodVol, FatView, SecOf;
    ChainTable(v, img, cs);
    SecExists(v, img, cs, i / 16);
    assert (32 * i + k) / 512 == i / 16 && (32 * i + k) % 512 == i % 16 * 32 + k;
  }

  lemma {:induction false} ChainTable(v: Vol, img: Image, cs: seq<nat>)
    requires GoodVol(v, img) && IsChain(FatView(v, img), cs)
    ensures InTable(FatView(v, img), cs)
  {
  }

  lemma {:induction false} InCluster16(spc: nat, n: nat, i: nat)
    requires i < 16 * spc * n
    ensures 1 <= spc && i / 16 / spc < n
  {
    Product(16 * spc, n);
    assert i / 16 < spc * n;
    DivBelow(i / 16, n, spc);
  }

  /** The attribute byte at offset 11 has bit 4 set for a directory. */
  lemma {:induction false} DirectoryBit(info: Info)
    ensures IsDir(info) <==> (info.dir[11] as bv8) & 0x10 == 0x10
  {
    BitFour(info.dir[11] as bv8);
  }

  lemma {:induction false} BitFour(b: bv8)
    ensures b & 0x10 == 0x10 <==> (b as nat) / 16 % 2 == 1
  {
    assert b & 0x10 == 0x10 <==> b / 16 % 2 == 1;
    assert (b / 16) as nat == (b as nat) / 16;
    assert (b / 16 % 2) as nat == (b / 16) as nat % 2;
  }

  /** The first cluster that a stored entry is given is the one a path goes on to; the
      name and the attributes stay. */
  lemma {:induction false} StoredIsFollowed(img: Image, a: Addr, offs: nat, cluster0: nat, size: nat, ino: nat)
    requires a in img && offs + 32 <= 512 && cluster0 < 0x1_0000 && size < 0x1_0000_0000
    ensures var img1 := img[a := PutDirent(img[a], offs, cluster0, size)];
      && Cluster0(Info(ino, EntryAt(img1, a, offs))) == cluster0
      && EntryAt(img1, a, offs)[..26] == EntryAt(img, a, offs)[..26]
      && (IsDir(Info(ino, EntryAt(img1, a, offs))) <==> IsDir(Info(ino, EntryAt(img, a, offs))))
  {
    var s := PutDirent(img[a], offs, cluster0, size);
    PutDirentGets(img[a], offs, cluster0, size);
    DirentIs(s, offs);
    hide PutDirent;
    var d := EntryAt(img[a := s], a, offs);
    NumberTwo(d, 26);
    assert d[26] == s[offs + 26] && d[27] == s[offs + 27];
    assert d[..26] == EntryAt(img, a, offs)[..26];
    assert d[11] == d[..26][11] && EntryAt(img, a, offs)[11] == EntryAt(img, a, offs)[..26][11];
  }

  /** A name is found exactly when an entry has it and no entry up to there begins with
      a zero; a slot exactly when an entry begins with a zero or 0xe5. */
  lemma {:induction false} FoundByName(v: Vol, img: Image, d: Dir, x: Name)
    ensures Search(v, img, d, Named(x), 0).Hit? <==>
            exists j :: 0 <= j < Count(v, d) && NameAt(v, img, d, j) == x &&
                        forall z :: 0 <= z <= j ==> NameAt(v, img, d, z)[0] != 0
    ensures Search(v, img, d, Unused, 0).Hit? <==>
            exists j :: 0 <= j < Count(v, d) && (NameAt(v, img, d, j)[0] == 0 || NameAt(v, img, d, j)[0] == 0xe5)
  {
    FoundExactly(v, img, d, Named(x));
    FoundExactly(v, img, d, Unused);
    hide NameAt, Search;
  }
}

/** Searching a directory (kernel/fat/dir.c:dir_find_ent). */
module Directory {
  import opened Bytes
  import opened CacheSpec
  import opened Fat12
  import opened FatChains
  import opened FatFiles
  import opened Dirents
  import opened KernelRead
  import opened KernelWalk
  import opened Paths
  import Arith

  const ENTRIES: nat := 16  // directory entries per sector
  const DELETED: Byte := 0xe5

  /** A directory: the root region with a number of entries, or the clusters of a
      chain. */
  datatype Dir = Root(entries: nat) | Chain(cs: seq<nat>)

  /** How many entries there is room for. */
  function Count(v: Vol, d: Dir): nat {
    match d
    case Root(n) => n
    case Chain(cs) => |cs| * v.spc * ENTRIES
  }

  /** The sector with entry i. */
  function EntrySector(v: Vol, d: Dir, i: nat): Addr {
    match d
    case Root(n) => Addr(v.unit, v.rootdirsec + i / ENTRIES)
    case Chain(cs) => SecOf(v, cs, i / ENTRIES)
  }

  function EntryOffs(i: nat): nat { i % ENTRIES * DIRENT_SIZE }

  /** The name in entry i. */
  function NameAt(v: Vol, img: Image, d: Dir, i: nat): Name {
    NameIn(img, EntrySector(v, d, i), EntryOffs(i))
  }

  function NameIn(img: Image, a: Addr, offs: nat): Name {
    if a in img && offs + 11 <= BLKSIZE then img[a][offs..offs + 11] else seq(11, i => 0)
  }

  type Dirent = s: seq<Byte> | |s| == DIRENT_SIZE witness seq(DIRENT_SIZE, i => 0)

  /** `fileinfo_t`: the inode number and a copy of the directory entry. */
  datatype Info = Info(ino: nat, dir: Dirent)

  const NO_INFO: Info := Info(0, seq(DIRENT_SIZE, i => 0))

  /** The entry at an offset of a sector. */
  function EntryAt(img: Image, a: Addr, offs: nat): Dirent {
    if a in img && offs + DIRENT_SIZE <= BLKSIZE then img[a][offs..offs + DIRENT_SIZE] else seq(DIRENT_SIZE, i => 0)
  }

  /** Entry i of a directory and the inode number that names it. */
  function InfoAt(v: Vol, img: Image, d: Dir, i: nat): Info {
    var a := EntrySector(v, d, i);
    Info(Ino(a.blkno, EntryOffs(i)), EntryAt(img, a, EntryOffs(i)))
  }

  /** What is looked for: a name, or any unused entry. */
  datatype Wanted = Named(name: Name) | Unused

  predicate Matches(w: Wanted, n: Name) {
    match w
    case Named(x) => n == x
    case Unused => n[0] == 0 || n[0] == DELETED
  }

  /** The search ends at an entry marked zero, unless an unused one is wanted. */
  predicate Ends(w: Wanted, n: Name) { w.Named? && n[0] == 0 }

  datatype Found = Missing | Hit(i: nat)

  /** The search from entry i on. */
  function Search(v: Vol, img: Image, d: Dir, w: Wanted, i: nat): Found
    requires i <= Count(v, d)
    decreases Count(v, d) - i
  {
    if i == Count(v, d) then Missing
    else if Ends(w, NameAt(v, img, d, i)) then Missing
    else if Matches(w, NameAt(v, img, d, i)) then Hit(i)
    else Search(v, img, d, w, i + 1)
  }

  ghost predicate Passed(v: Vol, img: Image, d: Dir, w: Wanted, i: nat) {
    !Ends(w, NameAt(v, img, d, i)) && !Matches(w, NameAt(v, img, d, i))
  }

  /** The search finds the first match, and it finds one exactly when there is a
      match before which no entry is marked zero. */
  lemma {:induction false} SearchFinds(v: Vol, img: Image, d: Dir, w: Wanted, i: nat)
    requires i <= Count(v, d)
    ensures var r := Search(v, img, d, w, i);
      && (r.Hit? ==> i <= r.i < Count(v, d) && Matches(w, NameAt(v, img, d, r.i)) && !Ends(w, NameAt(v, img, d, r.i)))
      && (r.Hit? ==> forall j :: i <= j < r.i ==> Passed(v, img, d, w, j))
      && (r.Missing? ==> forall j :: i <= j < Count(v, d) && Matches(w, NameAt(v, img, d, j)) ==>
            exists z :: i <= z <= j && Ends(w, NameAt(v, img, d, z)))
    decreases Count(v, d) - i
  {
    if i < Count(v, d) && Passed(v, img, d, w, i) {
      SearchFinds(v, img, d, w, i + 1);
    }
  }

  lemma {:induction false} FoundExactly(v: Vol, img: Image, d: Dir, w: Wanted)
    ensures Search(v, img, d, w, 0).Hit? <==>
            exists j :: 0 <= j < Count(v, d) && Matches(w, NameAt(v, img, d, j)) &&
                        forall z :: 0 <= z <= j ==> !Ends(w, NameAt(v, img, d, z))
  {
    SearchFinds(v, img, d, w, 0);
    var r := Search(v, img, d, w, 0);
    if r.Hit? {
      forall z | 0 <= z <= r.i ensures !Ends(w, NameAt(v, img, d, z)) {
        assert z < r.i ==> Passed(v, img, d, w, z);
      }
    }
  }

  // ----- walking through the entries

  /** The directory's sectors exist; a subdirectory's clusters form a chain. */
  ghost predicate GoodDir(v: Vol, img: Image, d: Dir) {
    && GoodVol(v, img)
    && match d
       case Root(n) => 0 < n && v.rootdirsec + (n - 1) / ENTRIES < v.datasec
       case Chain(cs) => IsChain(FatView(v, img), cs) && cs != []
  }

  /** The variables of the loop at entry i. */
  ghost predicate AtEntry(v: Vol, d: Dir, i: nat, cluster: nat, sec: nat, offs: nat, entleft: nat) {
    && i < Count(v, d) && offs == EntryOffs(i) && EntrySector(v, d, i) == Addr(v.unit, sec)
    && match d
       case Root(n) => cluster == 0 && entleft == n - i
       case Chain(cs) =>
         var left := v.spc - i / ENTRIES % v.spc;
         1 <= v.spc && cluster >= 2 && Standing(v, cs, i / ENTRIES, cluster, sec, left) &&
         entleft == left * ENTRIES - i % ENTRIES
  }

  /** The sector of an entry. */
  lemma {:induction false} EntryExists(v: Vol, img: Image, d: Dir, i: nat, cluster: nat, sec: nat, offs: nat, entleft: nat)
    requires GoodDir(v, img, d) && AtEntry(v, d, i, cluster, sec, offs, entleft)
    ensures Addr(v.unit, sec) in img && offs + DIRENT_SIZE <= BLKSIZE && 1 <= entleft && cluster < v.nclus
    ensures NameAt(v, img, d, i) == img[Addr(v.unit, sec)][offs..offs + 11]
    ensures InfoAt(v, img, d, i) == Info(Ino(sec, offs), img[Addr(v.unit, sec)][offs..offs + DIRENT_SIZE])
  {
    match d
    case Root(n) =>
      RootSector(v, img, n, i);
    case Chain(cs) =>
      StandExists(v, img, cs, i / ENTRIES, cluster, sec, v.spc - i / ENTRIES % v.spc);
  }

  lemma {:induction false} RootSector(v: Vol, img: Image, n: nat, i: nat)
    requires GoodDir(v, img, Root(n)) && i < n
    ensures Addr(v.unit, v.rootdirsec + i / ENTRIES) in img
  {
    FatStartUp(v);
    assert i / ENTRIES <= (n - 1) / ENTRIES;
  }

  /** The next entry in the same run of sectors. */
  lemma {:induction false} NextEntry(v: Vol, img: Image, d: Dir, i: nat, cluster: nat, sec: nat, offs: nat, entleft: nat)
    requires GoodDir(v, img, d) && AtEntry(v, d, i, cluster, sec, offs, entleft) && entleft > 1
    ensures if offs + DIRENT_SIZE == BLKSIZE then AtEntry(v, d, i + 1, cluster, sec + 1, 0, entleft - 1)
            else AtEntry(v, d, i + 1, cluster, sec, offs + DIRENT_SIZE, entleft - 1)
  {
    EntryStep(i);
    match d
    case Root(n) =>
    case Chain(cs) =>
      InChain(v.spc, |cs|, i, entleft);
      NextInChain(v, img, cs, i, cluster, sec, entleft);
  }

  lemma {:induction false} EntryStep(i: nat)
    ensures i % ENTRIES == ENTRIES - 1 ==> EntryOffs(i) + DIRENT_SIZE == BLKSIZE
    ensures i % ENTRIES == ENTRIES - 1 ==> (i + 1) / ENTRIES == i / ENTRIES + 1 && (i + 1) % ENTRIES == 0
    ensures i % ENTRIES < ENTRIES - 1 ==> EntryOffs(i) + DIRENT_SIZE < BLKSIZE
    ensures i % ENTRIES < ENTRIES - 1 ==> (i + 1) / ENTRIES == i / ENTRIES && (i + 1) % ENTRIES == i % ENTRIES + 1
  {
  }

  lemma {:induction false} NextInChain(v: Vol, img: Image, cs: seq<nat>, i: nat, cluster: nat, sec: nat, entleft: nat)
    requires GoodDir(v, img, Chain(cs)) && entleft > 1
    requires AtEntry(v, Chain(cs), i, cluster, sec, EntryOffs(i), entleft) && i + 1 < Count(v, Chain(cs))
    ensures if i % ENTRIES == ENTRIES - 1 then AtEntry(v, Chain(cs), i + 1, cluster, sec + 1, 0, entleft - 1)
            else AtEntry(v, Chain(cs), i + 1, cluster, sec, EntryOffs(i) + DIRENT_SIZE, entleft - 1)
  {
    var q := i / ENTRIES;
    EntryStep(i);
    if i % ENTRIES == ENTRIES - 1 {
      StandsNext(v, img, cs, q, cluster, sec, v.spc - q % v.spc);
      NextInCluster(q, v.spc);
      hide GoodVol, FatView, Linked, IsChain, Standing, Count;
    }
  }

  lemma {:induction false} InChain(spc: nat, n: nat, i: nat, entleft: nat)
    requires 1 <= spc && i / ENTRIES / spc < n
    requires entleft == (spc - i / ENTRIES % spc) * ENTRIES - i % ENTRIES && entleft > 1
    ensures i + 1 < n * spc * ENTRIES
  {
    var q := i / ENTRIES;
    var k, r := q / spc, q % spc;
    assert q == k * spc + r;
    Arith.RowFits(k, n, spc);
  }

  /** Behind the last entry of a cluster comes the first one of the next cluster,
      or the end of the directory. */
  lemma {:induction false} NextCluster(v: Vol, img: Image, cs: seq<nat>, i: nat, cluster: nat, sec: nat, offs: nat)
    requires GoodDir(v, img, Chain(cs)) && AtEntry(v, Chain(cs), i, cluster, sec, offs, 1)
    ensures cluster < v.nclus
    ensures var next := FatView(v, img)[cluster];
      if next >= FAT_EOC then i + 1 == Count(v, Chain(cs))
      else 2 <= next && AtEntry(v, Chain(cs), i + 1, next, ClusSec(v, next), 0, v.spc * ENTRIES)
  {
    hide GoodVol, FatView, IsChain, SecOf, ClusSec;
    var q := i / ENTRIES;
    EntryStep(i);
    LinkEntry(v, img, cs, q / v.spc);
    LastEntry(v.spc, |cs|, i);
    StepCluster(v, img, cs, q, cluster, sec);
  }

  /** The entry of a cluster of the directory's chain. */
  lemma {:induction false} LinkEntry(v: Vol, img: Image, cs: seq<nat>, k: nat)
    requires GoodVol(v, img) && IsChain(FatView(v, img), cs) && k < |cs|
    ensures 2 <= cs[k] < v.nclus
    ensures var next := FatView(v, img)[cs[k]];
      if k + 1 == |cs| then next >= FAT_EOC else next == cs[k+1] && 2 <= next < FAT_EOC
  {
    assert |FatView(v, img)| == v.nclus <= FAT_EOC;
    hide GoodVol, FatView;
    ChainNext(FatView(v, img), cs, k);
  }

  /** The last sector of a cluster is followed by the first one of the next. */
  lemma {:induction false} StepCluster(v: Vol, img: Image, cs: seq<nat>, q: nat, ci: nat, sec: nat)
    requires GoodVol(v, img) && IsChain(FatView(v, img), cs) && Standing(v, cs, q, ci, sec, 1)
    ensures (q + 1) / v.spc < |cs| ==>
      && ci < v.nclus && 2 <= FatView(v, img)[ci]
      && Standing(v, cs, q + 1, FatView(v, img)[ci], ClusSec(v, FatView(v, img)[ci]), v.spc)
    ensures (q + 1) % v.spc == 0
  {
    hide GoodVol, FatView, Linked;
    StandsNext(v, img, cs, q, ci, sec, 1);
    NextInCluster(q, v.spc);
  }

  lemma {:induction false} LastEntry(spc: nat, n: nat, i: nat)
    requires 1 <= spc && i / ENTRIES / spc < n && i % ENTRIES == ENTRIES - 1 && i / ENTRIES % spc == spc - 1
    ensures if i / ENTRIES / spc + 1 == n then i + 1 == n * spc * ENTRIES else i + 1 < n * spc * ENTRIES
    ensures i / ENTRIES / spc + 1 < n ==> (i + 1) / ENTRIES / spc == i / ENTRIES / spc + 1
  {
    var q := i / ENTRIES;
    var k := q / spc;
    assert q + 1 == (k + 1) * spc && i + 1 == (q + 1) * ENTRIES;
    NextInCluster(q, spc);
    EntryStep(i);
    if k + 1 < n {
      Arith.RowFits(k + 1, n, spc);
    }
  }

  lemma {:induction false} ChainNext(fat: Fat, cs: seq<nat>, k: nat)
    requires IsChain(fat, cs) && k < |cs| && |fat| <= FAT_EOC
    ensures 2 <= cs[k] < |fat|
    ensures if k + 1 == |cs| then fat[cs[k]] >= FAT_EOC else fat[cs[k]] == cs[k+1] && 2 <= cs[k+1] < FAT_EOC
  {
    assert k + 1 < |cs| ==> fat[cs[k]] == cs[k+1];
  }

  /** Where the search begins. */
  lemma {:induction false} FirstEntry(v: Vol, img: Image, d: Dir)
    requires GoodDir(v, img, d)
    ensures match d
      case Root(n) => AtEntry(v, d, 0, 0, v.rootdirsec, 0, n)
      case Chain(cs) => 2 <= cs[0] && AtEntry(v, d, 0, cs[0], ClusSec(v, cs[0]), 0, v.spc * ENTRIES)
  {
    match d
    case Root(n) =>
    case Chain(cs) =>
      Arith.RowFits(0, |cs|, v.spc);
      assert 0 / v.spc == 0 && 0 % v.spc == 0;
  }

  // ----- dir_find_ent

  class Searcher {
    const rd: Reader
    const rootEntries: nat

    constructor (rd: Reader, rootEntries: nat)
      ensures this.rd == rd && this.rootEntries == rootEntries
    {
      this.rd, this.rootEntries := rd, rootEntries;
    }

    /** The directory that begins at a cluster; 0 is the root. */
    ghost predicate Names(cluster: nat, d: Dir) {
      && GoodDir(rd.v, rd.img, d)
      && match d
         case Root(n) => cluster == 0 && n == rootEntries
         case Chain(cs) => cluster == cs[0]
    }

    /** The loop at entry i. */
    ghost predicate Midway(d: Dir, w: Wanted, i: nat, cluster: nat, sec: nat, offs: nat, entleft: nat, data: Sector) {
      && GoodDir(rd.v, rd.img, d) && AtEntry(rd.v, d, i, cluster, sec, offs, entleft) && (cluster == 0 <==> d.Root?)
      && Addr(rd.v.unit, sec) in rd.img && data == rd.img[Addr(rd.v.unit, sec)]
      && Search(rd.v, rd.img, d, w, i) == Search(rd.v, rd.img, d, w, 0)
    }

    /** `dir_find_ent` after the name is parsed. */
    method FindWanted(w: Wanted, cluster0: nat, ghost d: Dir) returns (rc: Rc, info: Info)
      requires Names(cluster0, d)
      ensures Done(d, w, rc, info)
    {
      info := NO_INFO;
      FirstEntry(rd.v, rd.img, d);
      var v, cluster, offs := rd.v, cluster0, 0;
      var sec := if cluster == 0 then v.rootdirsec else ClusSec(v, cluster);
      var entleft := if cluster == 0 then rootEntries else BLKSIZE * v.spc / DIRENT_SIZE;
      EntriesPerCluster(v.spc);
      EntryExists(v, rd.img, d, 0, cluster, sec, offs, entleft);
      var data;
      rc, data := rd.ReadSector(sec);
      if rc != Ok {
        return;
      }
      rc, info := Loop(w, cluster, sec, offs, entleft, data, d);
    }

    method Loop(w: Wanted, cluster0: nat, sec0: nat, offs0: nat, entleft0: nat, data0: Sector, ghost d: Dir)
      returns (rc: Rc, info: Info)
      requires Midway(d, w, 0, cluster0, sec0, offs0, entleft0, data0)
      ensures Done(d, w, rc, info)
    {
      var cluster, sec, offs, entleft, data := cluster0, sec0, offs0, entleft0, data0;
      ghost var i: nat := 0;
      hide *;
      var done := false;
      rc, info := Ok, NO_INFO;
      while !done
        invariant if done then Done(d, w, rc, info) else Midway(d, w, i, cluster, sec, offs, entleft, data)
        invariant i <= Count(rd.v, d)
        decreases Count(rd.v, d) - i, if done then 0 else 1
      {
        InRange(d, w, i, cluster, sec, offs, entleft, data);
        done, rc, info := Test(d, w, i, cluster, sec, offs, entleft, data);
        if !done {
          rc, cluster, sec, offs, entleft, data := Move(d, w, i, cluster, sec, offs, entleft, data);
          done := rc != Ok;
        }
        i := i + 1;
      }
    }

    lemma {:induction false} InRange(d: Dir, w: Wanted, i: nat, cluster: nat, sec: nat, offs: nat, entleft: nat, data: Sector)
      requires Midway(d, w, i, cluster, sec, offs, entleft, data)
      ensures i < Count(rd.v, d)
    {
    }

    /** How the search ends. */
    ghost predicate Done(d: Dir, w: Wanted, rc: Rc, info: Info) {
      match rc
      case Ok => FoundAt(d, w, info)
      case NoEnt => Search(rd.v, rd.img, d, w, 0) == Missing
      case Io => true
      case NoMem => true
      case _ => false
    }

    /** The entry is not the one, and the search goes on behind it. */
    ghost predicate GoesOn(d: Dir, w: Wanted, i: nat) {
      i < Count(rd.v, d) && Search(rd.v, rd.img, d, w, i + 1) == Search(rd.v, rd.img, d, w, 0)
    }

    /** The first half of a turn: the entry is looked at. */
    method Test(ghost d: Dir, w: Wanted, ghost i: nat, cluster: nat, sec: nat, offs: nat, entleft: nat, data: Sector)
      returns (done: bool, rc: Rc, info: Info)
      requires Midway(d, w, i, cluster, sec, offs, entleft, data)
      ensures if done then Done(d, w, rc, info) else GoesOn(d, w, i)
    {
      EntryExists(rd.v, rd.img, d, i, cluster, sec, offs, entleft);
      hide GoodDir, Standing, NameAt, InfoAt;
      var name := data[offs..offs + 11];
      rc, info, done := Ok, NO_INFO, true;
      if w.Named? && name[0] == 0 {
        rc := NoEnt;
      } else if Matches(w, name) {
        info := Info(Ino(sec, offs), data[offs..offs + DIRENT_SIZE]);
      } else {
        done := false;
      }
    }

    /** The second half: on to the next entry, if there is one. */
    method Move(ghost d: Dir, w: Wanted, ghost i: nat, cluster0: nat, sec0: nat, offs0: nat, entleft0: nat, data0: Sector)
      returns (rc: Rc, cluster: nat, sec: nat, offs: nat, entleft: nat, data: Sector)
      requires Midway(d, w, i, cluster0, sec0, offs0, entleft0, data0) && GoesOn(d, w, i)
      ensures if rc == Ok then Midway(d, w, i + 1, cluster, sec, offs, entleft, data) else Done(d, w, rc, NO_INFO)
    {
      cluster, sec, offs, entleft, data := cluster0, sec0, offs0, entleft0, data0;
      rc := Ok;
      EntryExists(rd.v, rd.img, d, i, cluster, sec, offs, entleft);
      if entleft - 1 == 0 {
        if cluster == 0 {
          rc := NoEnt;
        } else {
          rc, cluster, sec, offs, entleft, data := MoveCluster(d, w, i, cluster, sec, offs, data);
        }
      } else {
        NextEntry(rd.v, rd.img, d, i, cluster, sec, offs, entleft);
        entleft := entleft - 1;
        offs := offs + DIRENT_SIZE;
        if offs == BLKSIZE {
          offs, sec := 0, sec + 1;
          EntryExists(rd.v, rd.img, d, i + 1, cluster, sec, offs, entleft);
          rc, data := rd.ReadSector(sec);
        }
      }
    }

    method MoveCluster(ghost d: Dir, w: Wanted, ghost i: nat, cluster0: nat, sec0: nat, offs0: nat, data0: Sector)
      returns (rc: Rc, cluster: nat, sec: nat, offs: nat, entleft: nat, data: Sector)
      requires Midway(d, w, i, cluster0, sec0, offs0, 1, data0) && GoesOn(d, w, i) && d.Chain?
      ensures if rc == Ok then Midway(d, w, i + 1, cluster, sec, offs, entleft, data) else Done(d, w, rc, NO_INFO)
    {
      cluster, sec, offs, entleft, data := cluster0, sec0, offs0, 1, data0;
      NextCluster(rd.v, rd.img, d.cs, i, cluster, sec, offs);
      EntriesPerCluster(rd.v.spc);
      EntryView(rd.v, rd.img, cluster);
      hide Readable, EntryOf;
      rc, cluster := rd.ClusGetNext(cluster);
      if rc != Ok {
        return;
      }
      if cluster >= 0xff0 {
        rc := NoEnt;
        return;
      }
      sec := ClusSec(rd.v, cluster);
      entleft, offs := BLKSIZE * rd.v.spc / DIRENT_SIZE, 0;
      EntryExists(rd.v, rd.img, d, i + 1, cluster, sec, offs, entleft);
      rc, data := rd.ReadSector(sec);
    }

    /** It is the first match that was found. */
    ghost predicate FoundAt(d: Dir, w: Wanted, info: Info) {
      var r := Search(rd.v, rd.img, d, w, 0);
      r.Hit? && info == InfoAt(rd.v, rd.img, d, r.i)
    }

    lemma {:induction false} EntriesPerCluster(spc: nat)
      ensures BLKSIZE * spc / DIRENT_SIZE == spc * ENTRIES
    {
    }

    /** `dir_find_ent`: by a name, or with none for any unused entry. */
    method DirFindEnt(path: seq<Byte>, len: nat, unused: bool, cluster: nat, ghost d: Dir) returns (rc: Rc, info: Info)
      requires Names(cluster, d) && At(path, len) != DOT
      ensures !unused && Parse(path, len) == Bad ==> rc == NoEnt
      ensures unused ==> Done(d, Unused, rc, info)
      ensures !unused && Parse(path, len).Good? ==> Done(d, Named(Parse(path, len).name), rc, info)
    {
      if unused {
        rc, info := FindWanted(Unused, cluster, d);
        return;
      }
      var ele := new Byte[NAME_LEN](i => 0);
      rc := PathParseFn(ele, path, len);
      if rc != Ok {
        return NoEnt, NO_INFO;
      }
      rc, info := FindWanted(Named(ele[..]), cluster, d);
    }
  }
}

/** Reading a file in the kernel: `fat_read` (kernel/fat/fileops.c) and the lookup of
    one sector, `fobj_get_sec_at_offs` (kernel/fat/fileobj.c).

    A sector that does not exist cannot be read.  On a disk that works one that
    exists can; on another any access may fail. */
module KernelRead {
  import opened Bytes
  import opened CacheSpec
  import opened Fat12
  import opened FatChains
  import opened FatFiles
  import opened FatSpots
  import opened FatVolume
  import opened Dirents
  import opened KernelWalk

  // ----- inode numbers

  /** `FAT_INO`: the sector and the entry's offset in it, in 32 bits. */
  function Ino(sec: nat, offs: nat): nat { (sec * 16 + offs / 32 % 16) % 0x1_0000_0000 }

  function InoSec(ino: nat): nat { ino / 16 % 0x1000_0000 }

  function InoOffs(ino: nat): nat { ino % 16 * 32 }

  /** Unpacking gives the place back exactly for entries on a 32-byte boundary of
      their sector and sectors below 2^28. */
  lemma {:induction false} InoUnpacks(sec: nat, offs: nat)
    requires sec < 0x1_0000_0000 && offs < BLKSIZE
    ensures InoSec(Ino(sec, offs)) == sec && InoOffs(Ino(sec, offs)) == offs <==> sec < 0x1000_0000 && offs % 32 == 0
  {
    var e := offs / 32 % 16;
    assert Ino(sec, offs) % 16 == e && Ino(sec, offs) / 16 == sec % 0x1000_0000 by {
      InoParts(sec, e);
    }
  }

  lemma {:induction false} InoParts(sec: nat, e: nat)
    requires e < 16
    ensures (sec * 16 + e) % 0x1_0000_0000 % 16 == e && (sec * 16 + e) % 0x1_0000_0000 / 16 == sec % 0x1000_0000
  {
    assert (sec * 16 + e) % 0x1_0000_0000 == sec % 0x1000_0000 * 16 + e by {
      var k := sec / 0x1000_0000;
      assert sec * 16 + e == k * 0x1_0000_0000 + (sec % 0x1000_0000 * 16 + e);
    }
  }

  // ----- the reader

  /** Where a read began: the buffer, the sectors read before, and what the loop
      copies in all. */
  datatype Reading = Reading(was: seq<Byte>, seen: seq<Addr>, all: Copied)

  class Reader {
    const v: Vol
    const img: Image        // what the disk holds
    const works: bool       // no access fails
    var visited: seq<Addr>  // the data sectors read so far

    constructor (v: Vol, img: Image, works: bool)
      ensures this.v == v && this.img == img && this.works == works && visited == []
    {
      this.v, this.img, this.works, visited := v, img, works, [];
    }

    /** `bc_get` for reading. */
    method ReadSector(sec: nat) returns (rc: Rc, data: Sector)
      ensures rc == Ok || rc == Io || rc == NoMem
      ensures rc == Ok ==> Addr(v.unit, sec) in img && data == img[Addr(v.unit, sec)]
      ensures works ==> (rc == Ok <==> Addr(v.unit, sec) in img)
    {
      var fails: bool, nomem: bool := *, *;
      if Addr(v.unit, sec) !in img {
        return Io, seq(BLKSIZE, i => 0);
      }
      return if works || !fails then Ok else if nomem then NoMem else Io, img[Addr(v.unit, sec)];
    }

    /** `clus_get_next`, for any cluster number. */
    method ClusGetNext(cluster: nat) returns (rc: Rc, next: nat)
      ensures rc == Ok || rc == Io || rc == NoMem
      ensures rc == Ok ==> Readable(v, img, cluster) && next == EntryOf(v, img, cluster)
      ensures works ==> (rc == Ok <==> Readable(v, img, cluster))
    {
      next := 0;
      var offs := Offs(cluster);
      var sec0 := v.fat0sec + offs / BLKSIZE;
      var sec1 := v.fat0sec + (offs + 1) / BLKSIZE;
      FatSecStep(v, 0, offs);
      FatSecStep(v, 0, offs + 1);
      var data;
      rc, data := ReadSector(sec0);
      if rc != Ok {
        return;
      }
      var low := data[offs % BLKSIZE];
      if sec1 != sec0 {
        rc, data := ReadSector(sec1);
        if rc != Ok {
          return;
        }
      }
      next := Decode(cluster, low, data[(offs + 1) % BLKSIZE]);
    }

    /** n steps along the chain, as both functions take them. */
    method Follow(cluster0: nat, n: nat, ghost cs: seq<nat>) returns (rc: Rc, ci: nat)
      requires GoodVol(v, img) && Linked(FatView(v, img), cs) && cluster0 == Head(cs)
      requires n < |Walked(cs)| || Ends(FatView(v, img), cs)
      ensures rc == Ok || rc == Io || rc == NoMem
      ensures rc == Ok ==> n < |Walked(cs)| && ci == Walked(cs)[n]
      ensures works ==> (rc == Ok <==> n < |Walked(cs)|)
    {
      rc, ci := Ok, cluster0;
      var k := 0;
      hide GoodVol, FatView, Linked, Ends, Readable, EntryOf;
      while k < n
        invariant k <= n && rc == Ok && k < |Walked(cs)| && ci == Walked(cs)[k]
      {
        FollowNext(cs, k, n);
        rc, ci := ClusGetNext(ci);
        if rc != Ok {
          return;
        }
        if ci >= 0xff0 {
          return Io, ci;
        }
        k := k + 1;
      }
    }

    lemma {:induction false} FollowNext(cs: seq<nat>, k: nat, n: nat)
      requires GoodVol(v, img) && Linked(FatView(v, img), cs) && k < |Walked(cs)| && k < n
      requires n < |Walked(cs)| || Ends(FatView(v, img), cs)
      ensures var c := Walked(cs)[k];
        && Readable(v, img, c)
        && (if EntryOf(v, img, c) >= FAT_EOC then n >= |Walked(cs)|
            else k + 1 < |Walked(cs)| && EntryOf(v, img, c) == Walked(cs)[k + 1])
    {
      EntryNames(v, img, cs, k);
      assert |FatView(v, img)| <= FAT_EOC;
      hide GoodVol, FatView, Readable, EntryOf;
      if cs != [] {
        FollowStep(FatView(v, img), cs, k);
      }
    }

    /** `fobj_get_sec_at_offs`: the sector with file offset offs. */
    method GetSecAtOffs(cluster0: nat, offs: nat, ghost cs: seq<nat>) returns (rc: Rc, sec: nat)
      requires GoodVol(v, img) && Linked(FatView(v, img), cs) && cs != [] && cluster0 == Head(cs)
      requires HasByte(v, cs, offs) || IsChain(FatView(v, img), cs)
      ensures rc == Ok || rc == Io || rc == NoMem
      ensures rc == Ok ==> HasByte(v, cs, offs) && Addr(v.unit, sec) == SecOf(v, cs, offs / BLKSIZE)
    {
      PlaceIs(v, cs, offs);
      sec := 0;
      var ci;
      rc, ci := Follow(cluster0, ClusterAt(v, offs), cs);
      if rc == Ok {
        sec := ClusSec(v, ci) + SectorAt(v, offs);
      }
    }

    // ----- fat_read

    /** The first `got` bytes of what is copied are in the buffer. */
    ghost predicate Holds(buf: array<Byte>, r: Reading, got: nat)
      reads buf
    {
      got <= |r.all.bytes| <= |r.was| == buf.Length && buf[..] == r.all.bytes[..got] + r.was[got..]
    }

    /** What is left of it is what the loop does from the cursor on. */
    ghost predicate Coming(r: Reading, got: nat, off: nat, left: nat, p: Cursor, visited: seq<Addr>) {
      var rest := Runs(v, img, off, left, p);
      && 1 <= v.spc && 1 <= p.left && got <= |r.all.bytes| && r.all.bytes[got..] == rest.bytes && r.all.ok == rest.ok
      && visited + rest.secs == r.seen + r.all.secs
    }

    /** Everything is copied that is going to be, and the read fails. */
    ghost predicate Broken(r: Reading, got: nat) {
      got == |r.all.bytes| && !r.all.ok
    }

    /** One turn of the loop: the part of one sector, and on to the next sector. */
    method Turn(ghost r: Reading, buf: array<Byte>, off: nat, got: nat, left: nat, p: Cursor)
      returns (rc: Rc, n: nat, q: Cursor)
      requires Holds(buf, r, got) && Coming(r, got, off, left, p, visited) && left > 0
      modifies this`visited, buf
      ensures rc == Ok || rc == Io || rc == NoMem
      ensures n <= left && Holds(buf, r, got + n)
      ensures rc == Ok ==> 0 < n && Coming(r, got + n, off + n, left - n, q, visited)
      ensures rc != Ok && works ==> Broken(r, got + n)
    {
      hide *;
      ghost var was := visited;
      n, q := 0, p;
      var data;
      rc, data := ReadSector(p.sec);
      if rc != Ok {
        NotThere(r, got, off, left, p, was);
        return;
      }
      n := Chunk(off, left);
      PartComes(r, buf, got, off, left, p, was);
      visited := visited + [Addr(v.unit, p.sec)];
      ghost var before := buf[..];
      Copy(buf, got, Part(data, off, n));
      PartCopied(r, buf, got, off, left, p, was, before);
      rc, q := Advance(p);
      if rc == Ok {
        MovesOn(r, got, off, left, p, q, was);
      } else if works {
        GetsStuck(r, got, off, left, p, was);
      }
    }

    /** On to the next sector of the cluster, or to the next cluster. */
    method Advance(p: Cursor) returns (rc: Rc, q: Cursor)
      ensures rc == Ok || rc == Io || rc == NoMem
      ensures rc == Ok ==> Step(v, img, p) == To(q)
      ensures works ==> (rc == Ok <==> Step(v, img, p).To?)
    {
      rc, q := Ok, p;
      if p.left > 1 {
        q := Cursor(p.ci, Unsigned(p.sec + 1), p.left - 1);
      } else {
        var next;
        rc, next := ClusGetNext(p.ci);
        q := Cursor(next, FirstSec(v, next), v.spc);
      }
    }

    lemma {:induction false} NotThere(r: Reading, got: nat, off: nat, left: nat, p: Cursor, seen: seq<Addr>)
      requires Coming(r, got, off, left, p, seen) && left > 0
      ensures Addr(v.unit, p.sec) !in img ==> Broken(r, got)
    {
      hide Step;
      assert |r.all.bytes[got..]| == |r.all.bytes| - got;
    }

    /** The first turn of what is coming. */
    lemma {:induction false} FirstOf(r: Reading, got: nat, off: nat, left: nat, p: Cursor, seen: seq<Addr>)
      requires Coming(r, got, off, left, p, seen) && left > 0 && Addr(v.unit, p.sec) in img
      ensures var m := Chunk(off, left);
        && 0 < m <= left && InSector(off, m) && got + m <= |r.all.bytes|
        && r.all.bytes[got..got + m] == Part(img[Addr(v.unit, p.sec)], off, m)
        && (Step(v, img, p).Stuck? ==> Broken(r, got + m))
        && (Step(v, img, p).To? ==>
              Coming(r, got + m, off + m, left - m, Step(v, img, p).p, seen + [Addr(v.unit, p.sec)]))
    {
      var m, all := Chunk(off, left), r.all.bytes;
      var rest := Runs(v, img, off, left, p);
      hide Step, Part, InSector;
      assert all[got..][..m] == all[got..got + m] && all[got..][m..] == all[got + m..];
      assert |all[got..]| == |all| - got;
      if Step(v, img, p).To? {
        var next := Runs(v, img, off + m, left - m, Step(v, img, p).p);
        assert rest == Before(Part(img[Addr(v.unit, p.sec)], off, m), Addr(v.unit, p.sec), next);
        assert seen + rest.secs == seen + [Addr(v.unit, p.sec)] + next.secs;
      }
    }

    lemma {:induction false} PartComes(r: Reading, buf: array<Byte>, got: nat, off: nat, left: nat, p: Cursor, seen: seq<Addr>)
      requires Holds(buf, r, got) && Coming(r, got, off, left, p, seen) && left > 0 && Addr(v.unit, p.sec) in img
      ensures var m := Chunk(off, left);
        && 0 < m <= left && InSector(off, m) && got + m <= buf.Length
        && |Part(img[Addr(v.unit, p.sec)], off, m)| == m
      ensures got <= |r.all.bytes| <= |r.was| == buf.Length && buf[..] == r.all.bytes[..got] + r.was[got..]
    {
      FirstOf(r, got, off, left, p, seen);
      hide Coming, Step;
    }

    lemma {:induction false} PartCopied(r: Reading, buf: array<Byte>, got: nat, off: nat, left: nat, p: Cursor, seen: seq<Addr>,
                                        before: seq<Byte>)
      requires Coming(r, got, off, left, p, seen) && left > 0 && Addr(v.unit, p.sec) in img
      requires got <= |r.all.bytes| <= |r.was| == buf.Length && before == r.all.bytes[..got] + r.was[got..]
      requires var m := Chunk(off, left);
        && InSector(off, m) && got + m <= |before|
        && buf[..] == before[..got] + Part(img[Addr(v.unit, p.sec)], off, m) + before[got + m..]
      ensures Holds(buf, r, got + Chunk(off, left))
    {
      FirstOf(r, got, off, left, p, seen);
      hide Coming, Step, Part, InSector, Chunk;
      var m, all := Chunk(off, left), r.all.bytes;
      assert before[..got] == all[..got] && before[got + m..] == r.was[got + m..];
      assert all[..got + m] == all[..got] + all[got..got + m];
    }

    lemma {:induction false} MovesOn(r: Reading, got: nat, off: nat, left: nat, p: Cursor, q: Cursor, seen: seq<Addr>)
      requires Coming(r, got, off, left, p, seen) && left > 0 && Addr(v.unit, p.sec) in img && Step(v, img, p) == To(q)
      ensures Chunk(off, left) <= left
      ensures Coming(r, got + Chunk(off, left), off + Chunk(off, left), left - Chunk(off, left), q,
                     seen + [Addr(v.unit, p.sec)])
    {
      FirstOf(r, got, off, left, p, seen);
      hide Coming, Step;
    }

    lemma {:induction false} GetsStuck(r: Reading, got: nat, off: nat, left: nat, p: Cursor, seen: seq<Addr>)
      requires Coming(r, got, off, left, p, seen) && left > 0 && Addr(v.unit, p.sec) in img && Step(v, img, p).Stuck?
      ensures Broken(r, got + Chunk(off, left))
    {
      FirstOf(r, got, off, left, p, seen);
      hide Coming, Step;
    }

    /** The loop. */
    method Loop(ghost r: Reading, buf: array<Byte>, off0: nat, size: nat, p0: Cursor)
      returns (rc: Rc, got: nat, ghost copied: nat)
      requires Holds(buf, r, 0) && Coming(r, 0, off0, size, p0, visited)
      modifies this`visited, buf
      ensures rc == Ok || rc == Io || rc == NoMem
      ensures Holds(buf, r, copied) && (rc != Ok && works ==> Broken(r, copied))
      ensures rc == Ok ==> got == size == copied == |r.all.bytes| && r.all.ok && visited == r.seen + r.all.secs
    {
      hide *;
      var off, left, p := off0, size, p0;
      rc, got, copied := Ok, 0, 0;
      while left > 0
        invariant got + left == size && rc == Ok && copied == got
        invariant Holds(buf, r, got) && Coming(r, got, off, left, p, visited)
      {
        var n;
        rc, n, p := Turn(r, buf, off, got, left, p);
        if rc != Ok {
          copied := got + n;
          return;
        }
        left, got, off := left - n, got + n, off + n;
        copied := got;
      }
      NoneLeft(r, got, off, p, visited);
    }

    lemma {:induction false} NoneLeft(r: Reading, got: nat, off: nat, p: Cursor, seen: seq<Addr>)
      requires Coming(r, got, off, 0, p, seen)
      ensures got == |r.all.bytes| && r.all.ok && seen == r.seen + r.all.secs
    {
      assert |r.all.bytes[got..]| == |r.all.bytes| - got;
    }

    /** The file whose directory entry the inode number names has clusters cs. */
    ghost predicate FileOf(ino: nat, cs: seq<nat>) {
      var a := Addr(v.unit, InoSec(ino));
      && GoodVol(v, img) && 1 <= v.spc <= MAX_SPC && a in img && Linked(FatView(v, img), cs)
      && DirCluster0(img[a], InoOffs(ino)) == Head(cs) && Backed(v, cs, DirSize(img[a], InoOffs(ino)))
    }

    function SizeOf(ino: nat): nat
      requires Addr(v.unit, InoSec(ino)) in img
    {
      DirSize(img[Addr(v.unit, InoSec(ino))], InoOffs(ino))
    }

    /** What a read of `size` bytes at offset off copies. */
    ghost function Fetched(ino: nat, cs: seq<nat>, off: nat, size: nat): Copied
      requires FileOf(ino, cs)
    {
      FatFetched(v, img, cs, off, ReadLen(off, size, SizeOf(ino), ULONG, SIZE_T))
    }

    /** `fat_read` of a file other than the root directory, with the memory from the
        buffer on: the first `size` bytes of it are the caller's.  Offsets are signed
        32-bit numbers, not negative here, and sizes unsigned 16-bit ones.

        What is copied is what `Fetched` says, or, where an access fails, a first
        part of it; on a disk that works the read succeeds exactly when that comes
        to its end.  At an offset within the file it is the file's bytes, and the
        read succeeds exactly when the file has a cluster for the offset or none at
        all. */
    method FatRead(ino: nat, buf: array<Byte>, off: nat, size: nat, ghost cs: seq<nat>)
      returns (rc: Rc, got: nat, ghost copied: nat)
      requires ino != 0 && size <= buf.Length && size < SIZE_T && off < 0x8000_0000 && FileOf(ino, cs)
      requires ClusterAt(v, off) < |Walked(cs)| || Ends(FatView(v, img), cs)
      requires |Fetched(ino, cs, off, size).bytes| <= buf.Length
      modifies this`visited, buf
      ensures rc == Inval <==> off + size >= 0x8000_0000
      ensures var all := Fetched(ino, cs, off, size).bytes;
        copied <= |all| <= buf.Length && buf[..] == all[..copied] + old(buf[..])[copied..]
      ensures rc == Inval ==> copied == 0
      ensures rc == Ok ==>
        var c := Fetched(ino, cs, off, size);
        c.ok && got == copied == |c.bytes| && visited == old(visited) + c.secs
      ensures works && rc != Inval ==>
        var c := Fetched(ino, cs, off, size); (rc == Ok <==> c.ok) && copied == |c.bytes|
      ensures off <= SizeOf(ino) && rc == Ok ==>
        && got == Clamp(off, size, SizeOf(ino)) <= buf.Length
        && buf[..] == FileBytes(v, img, cs, off, got) + old(buf[..])[got..]
        && visited == old(visited) + SectorsFrom(v, cs, off / BLKSIZE, SectorCount(off, got))
      ensures off <= SizeOf(ino) && works && rc != Inval ==> (rc == Ok <==> cs == [] || HasByte(v, cs, off))
    {
      assert BLKSIZE > 0;
      hide *;
      ghost var r := Reading(buf[..], visited, Fetched(ino, cs, off, size));
      FileFacts(ino, cs);
      InFile(ino, cs, off, size);
      got, copied := 0, 0;
      NoneYet(buf, r);
      if off + size >= 0x8000_0000 {
        Held(buf, r, 0);
        rc := Inval;
        return;
      }
      var dir;
      rc, dir := ReadSector(InoSec(ino));
      if rc != Ok {
        Held(buf, r, 0);
        return;
      }
      var n := ReadLen(off, size, DirSize(dir, InoOffs(ino)), ULONG, SIZE_T);
      var ci;
      rc, ci := Follow(DirCluster0(dir, InoOffs(ino)), ClusterAt(v, off), cs);
      if rc != Ok {
        NotReached(ino, cs, off, size);
        Held(buf, r, 0);
        return;
      }
      Begin(ino, cs, off, size, r);
      rc, got, copied := Loop(r, buf, off % Bpc(v), n, StartAt(v, ci, off));
      Held(buf, r, copied);
    }

    lemma {:induction false} FileFacts(ino: nat, cs: seq<nat>)
      requires FileOf(ino, cs)
      ensures GoodVol(v, img) && 1 <= v.spc && Bpc(v) > 0 && Linked(FatView(v, img), cs)
      ensures Addr(v.unit, InoSec(ino)) in img
      ensures DirCluster0(img[Addr(v.unit, InoSec(ino))], InoOffs(ino)) == Head(cs)
      ensures DirSize(img[Addr(v.unit, InoSec(ino))], InoOffs(ino)) == SizeOf(ino)
    {
    }

    /** What is copied from within the file. */
    lemma {:induction false} InFile(ino: nat, cs: seq<nat>, off: nat, size: nat)
      requires FileOf(ino, cs) && size < SIZE_T && off < 0x8000_0000
      ensures off <= SizeOf(ino) ==>
        var n, c := Clamp(off, size, SizeOf(ino)), Fetched(ino, cs, off, size);
        && (c.ok <==> cs == [] || HasByte(v, cs, off))
        && (c.ok ==>
              c.bytes == FileBytes(v, img, cs, off, n) && |c.bytes| == n &&
              c.secs == SectorsFrom(v, cs, off / BLKSIZE, SectorCount(off, n)))
    {
      if off <= SizeOf(ino) {
        PlaceIs(v, cs, off);
        ReadLenInside(off, size, SizeOf(ino), ULONG, SIZE_T);
        if cs == [] || HasByte(v, cs, off) {
          FetchedInside(v, img, cs, off, Clamp(off, size, SizeOf(ino)));
        }
        hide GoodVol, FatView, Linked, FileBytes, SectorsFrom, SectorCount, ReadLen, Runs, CursorFor;
      }
    }

    lemma {:induction false} NoneYet(buf: array<Byte>, r: Reading)
      requires r.was == buf[..] && |r.all.bytes| <= buf.Length
      ensures Holds(buf, r, 0)
    {
      assert r.all.bytes[..0] + r.was[0..] == r.was;
    }

    lemma {:induction false} Held(buf: array<Byte>, r: Reading, got: nat)
      requires Holds(buf, r, got)
      ensures got <= |r.all.bytes| <= |r.was| == buf.Length && buf[..] == r.all.bytes[..got] + r.was[got..]
      ensures got == |r.all.bytes| ==> r.all.bytes[..got] == r.all.bytes
      ensures works && Broken(r, got) ==> got == |r.all.bytes| && !r.all.ok
    {
    }

    lemma {:induction false} NotReached(ino: nat, cs: seq<nat>, off: nat, size: nat)
      requires FileOf(ino, cs)
      ensures ClusterAt(v, off) >= |Walked(cs)| ==>
        |Fetched(ino, cs, off, size).bytes| == 0 && !Fetched(ino, cs, off, size).ok
    {
    }

    lemma {:induction false} Begin(ino: nat, cs: seq<nat>, off: nat, size: nat, r: Reading)
      requires FileOf(ino, cs) && ClusterAt(v, off) < |Walked(cs)| && r.all == Fetched(ino, cs, off, size)
      ensures Coming(r, 0, off % Bpc(v), ReadLen(off, size, SizeOf(ino), ULONG, SIZE_T),
                     StartAt(v, Walked(cs)[ClusterAt(v, off)], off), r.seen)
    {
      CursorWalks(v, cs, off);
      hide GoodVol, FatView, Linked, ReadLen, Runs, StartAt, ClusterAt, Walked, Walking;
      assert r.all.bytes[0..] == r.all.bytes;
    }
  }
}

/** Reading and writing open files (hosted/fat/fileops.c). */
module FatOps {
  import opened Bytes
  import opened CacheSpec
  import opened BlkCache
  import opened Fat12
  import opened FatChains
  import opened FatFiles
  import opened FatSpots
  import opened FatVolume
  import opened Dirents
  import Arith

  const MAX_OPENFILES: nat := 8

  datatype Whence = SeekSet | SeekCur | SeekEnd

  class OpenFile {
    var open: bool
    const info: FileInfo
    var offset: nat

    constructor (info: FileInfo)
      ensures this.info == info && open && offset == 0
    {
      this.info, open, offset := info, true, 0;
    }
  }

  /** Where a read began: the disk, the table, the file's clusters, the offset,
      the buffer, whether a block was to be had, and what arrives in all. */
  datatype Reading = Reading(img: Image, fat: Fat, cs: seq<nat>, off: nat, was: seq<Byte>, roomy: bool, all: seq<Byte>)

  /** Where a write began. */
  datatype Writing = Writing(img: Image, fat: Fat, cs: seq<nat>, off: nat, data: seq<Byte>, roomy: bool)

  /** The first `wrote` bytes are written: what is left leads to the same disk. */
  ghost predicate WrittenSo(v: Vol, w: Writing, wrote: nat, img1: Image) {
    && wrote <= |w.data|
    && Written(v, img1, w.cs, w.off + wrote, w.data[wrote..]) == Written(v, w.img, w.cs, w.off, w.data)
  }

  lemma {:induction false} WrittenOn(v: Vol, w: Writing, wrote: nat, img0: Image)
    requires WrittenSo(v, w, wrote, img0) && wrote < |w.data|
    ensures var n := Chunk(w.off + wrote, |w.data| - wrote);
      && wrote + n <= |w.data| && InSector(w.off + wrote, n)
      && WrittenSo(v, w, wrote + n, Put(v, img0, w.cs, w.off + wrote, w.data[wrote..wrote + n]))
  {
    hide Written, Put;
    WrittenStep(v, img0, w.cs, w.off + wrote, w.data, wrote);
  }

  /** The clusters for a length that can be counted back the file. */
  lemma {:induction false} TargetBacks(v: Vol, img: Image, fat: Fat, cs: seq<nat>, length: nat)
    requires Has(v, img, fat) && IsChain(fat, cs) && length + Bpc(v) <= 0x1_0000_0000
    ensures 1 <= v.spc && 2 <= |fat| && InTable(fat, cs) && length < 0x1_0000_0000
    ensures var t := Trunc(fat, cs, Target(v, length));
      Linked(t.fat, t.cs) && (t.rc == Ok ==> Backed(v, t.cs, length))
  {
    hide Trunc, Target, FatView;
    assert Bpc(v) >= 1;
    TargetExact(v, length);
    TruncLinks(fat, cs, Target(v, length));
  }

  /** The outcome of fobj_trunc as a change of the table and the clusters. */
  lemma {:induction false} ChangeOf(v: Vol, fat: Fat, cs: seq<nat>, length: nat, rc: Rc, fat1: Fat, cluster0: nat)
    returns (t: Change)
    requires 1 <= v.spc && (rc != NoMem ==> Resized(fat, cs, Target(v, length), rc, fat1, cluster0))
    ensures t.fat == fat1
    ensures rc != NoMem ==> 2 <= |fat| && InTable(fat, cs) && t == Trunc(fat, cs, Target(v, length)) && t.rc == rc
    ensures rc != NoMem ==> cluster0 == Head(t.cs)
  {
    t := if rc == NoMem then Change(NoMem, fat1, cs) else Trunc(fat, cs, Target(v, length));
  }

  class FileTable {
    const fv: FatVol
    const openfiles: seq<OpenFile>
    const sizet: Width  // how many values a size_t has

    constructor (fv: FatVol, openfiles: seq<OpenFile>, sizet: Width)
      ensures this.fv == fv && this.openfiles == openfiles && this.sizet == sizet
    {
      this.fv, this.openfiles, this.sizet := fv, openfiles, sizet;
    }

    /** The descriptor names an open file. */
    predicate Open(fd: int)
      reads openfiles
    {
      0 <= fd < |openfiles| && fd < MAX_OPENFILES && openfiles[fd].open
    }

    /** `openfile_by_fd`. */
    method OpenfileByFd(fd: int) returns (of: OpenFile?)
      ensures of != null <==> Open(fd)
      ensures of != null ==> of == openfiles[fd]
    {
      if fd < 0 || fd >= MAX_OPENFILES || fd >= |openfiles| {
        return null;
      }
      of := openfiles[fd];
      if !of.open {
        return null;
      }
    }

    /** The file's clusters are cs, on a disk img with table fat, and they back
        the file's size; a cluster's bytes can be counted in an int. */
    ghost predicate FileAt(of: OpenFile, img: Image, fat: Fat, cs: seq<nat>)
      reads of.info, fv.cache, fv.cache.ring, fv.cache.disk
    {
      && fv.At(img) && Has(fv.v, img, fat) && Linked(fat, cs) && of.info.cluster0 == Head(cs)
      && Backed(fv.v, cs, of.info.size) && fv.v.spc <= MAX_SPC
    }

    // ----- f_read

    /** The first `got` bytes of what arrives are in the buffer. */
    ghost predicate Holds(buffer: array<Byte>, r: Reading, got: nat)
      reads buffer
    {
      got <= |r.all| <= |r.was| == buffer.Length && buffer[..] == r.all[..got] + r.was[got..]
    }

    /** The rest of it is what the loop reads from offset off on. */
    ghost predicate Coming(r: Reading, got: nat, left: nat, off: nat) {
      && 1 <= fv.v.spc && got <= |r.all| && r.all[got..] == Arrived(fv.v, r.img, r.cs, off, left)
      && Sound(fv.v, r.img, r.fat, r.cs, off, left)
    }

    /** The loop of `f_read` with `got` bytes read and `left` to come. */
    ghost predicate Midway(of: OpenFile, buffer: array<Byte>, r: Reading, got: nat, left: nat)
      reads of, of.info, buffer, fv.cache, fv.cache.ring, fv.cache.disk
    {
      && FileAt(of, r.img, r.fat, r.cs) && of.offset == Unsigned(r.off + got)
      && Holds(buffer, r, got) && Coming(r, got, left, of.offset)
      && (if got > 0 then fv.Roomy() else fv.Roomy() == r.roomy)
    }

    /** No block was to be had, and nothing was read. */
    ghost predicate Unread(of: OpenFile, buffer: array<Byte>, r: Reading)
      reads of, of.info, buffer, fv.cache, fv.cache.ring, fv.cache.disk
    {
      FileAt(of, r.img, r.fat, r.cs) && of.offset == Unsigned(r.off) && Holds(buffer, r, 0) && !r.roomy
    }

    /** All that arrives has been read. */
    ghost predicate AllRead(of: OpenFile, buffer: array<Byte>, r: Reading, got: nat)
      reads of, of.info, buffer, fv.cache, fv.cache.ring, fv.cache.disk
    {
      && FileAt(of, r.img, r.fat, r.cs) && of.offset == Unsigned(r.off + got)
      && got == |r.all| && Holds(buffer, r, got)
    }

    /** One turn of the loop of `f_read`: the part of one sector. */
    method ReadTurn(of: OpenFile, buffer: array<Byte>, got: nat, left: nat, ghost r: Reading) returns (rc: Rc, n: nat)
      requires Midway(of, buffer, r, got, left) && left > 0
      modifies of`offset, buffer, fv.cache, fv.cache.ring, fv.cache.disk
      ensures fv.cache.ring == old(fv.cache.ring)
      ensures rc == Ok || rc == NoMem || rc == Io
      ensures rc == Ok ==> 0 < n <= left && Midway(of, buffer, r, got + n, left - n)
      ensures rc == NoMem ==> Unread(of, buffer, r)
      ensures rc == Io ==> AllRead(of, buffer, r, got)
    {
      TurnFacts(of, buffer, r, got, left);
      hide *;
      rc, n := ReadPart(of, buffer, got, left, r);
      if rc == Ok {
        MoveOn(of, buffer, got, left, n, r);
      } else if rc == NoMem {
        TurnStops(of, buffer, r, got);
      } else {
        TurnEnds(of, buffer, r, got, left);
      }
    }

    /** The sector is looked up and its part copied. */
    method ReadPart(of: OpenFile, buffer: array<Byte>, got: nat, left: nat, ghost r: Reading) returns (rc: Rc, n: nat)
      requires FileAt(of, r.img, r.fat, r.cs) && Coming(r, got, left, of.offset) && Holds(buffer, r, got) && left > 0
      modifies buffer, fv.cache, fv.cache.ring, fv.cache.disk
      ensures fv.cache.ring == old(fv.cache.ring) && FileAt(of, r.img, r.fat, r.cs)
      ensures rc == Ok || rc == NoMem || rc == Io
      ensures rc == Ok ==> fv.Roomy() && 0 < n <= left && Holds(buffer, r, got + n)
      ensures rc == Ok ==> Coming(r, got + n, left - n, Unsigned(of.offset + n))
      ensures rc != Ok ==> Holds(buffer, r, got)
      ensures rc == NoMem ==> !old(fv.Roomy())
      ensures rc == Io ==> got == |r.all|
    {
      hide *;
      n := 0;
      var blk, part;
      ghost var i;
      rc, blk, i, part := Fetch(of, got, left, r);
      if rc == Ok {
        n := |part|;
        PartFits(buffer, r, got, left, part, of.offset);
        ghost var before := buffer[..];
        Copy(buffer, got, part);
        PartCopied(buffer, r, got, left, part, of.offset, before);
        rc := PutBack(of, blk, i, of.offset, r);
      }
    }

    /** Gets the sector with the offset, and its part from there on. */
    method Fetch(of: OpenFile, ghost got: nat, left: nat, ghost r: Reading)
      returns (rc: Rc, blk: Block?, ghost i: nat, part: seq<Byte>)
      requires FileAt(of, r.img, r.fat, r.cs) && Coming(r, got, left, of.offset) && left > 0
      modifies fv.cache, fv.cache.ring, fv.cache.disk
      ensures fv.cache.ring == old(fv.cache.ring)
      ensures rc == Ok || rc == NoMem || rc == Io
      ensures rc == Ok ==> blk != null && blk in fv.cache.ring && Fetched(of, blk, i, of.offset, r)
      ensures rc == Ok ==> Arriving(r, got, left, part, of.offset)
      ensures rc != Ok ==> FileAt(of, r.img, r.fat, r.cs)
      ensures rc == NoMem ==> !old(fv.Roomy())
      ensures rc == Io ==> got == |r.all|
    {
      SpotFacts(of, r, got, left);
      hide *;
      part := [];
      rc, blk, i := fv.FobjGetSecAtOffs(of.info.cluster0, of.offset, false, r.img, r.fat, r.cs);
      if rc == Ok {
        IsFetched(of, blk, i, of.offset, r);
        PartArrives(r, got, left, of.offset, blk.data);
        part := Part(blk.data, of.offset, Chunk(of.offset, left));
      } else {
        StillFile(of, r, got, left, rc);
      }
    }

    ghost predicate Fetched(of: OpenFile, b: Block, i: nat, off: nat, r: Reading)
      reads of.info, fv.cache, fv.cache.ring, fv.cache.disk, b
    {
      && 1 <= fv.v.spc && Found(fv.v, r.img, r.cs, off) && fv.Filled(b, i, SpotAt(fv.v, r.cs, off).a, r.img)
      && Filed(of, r)
    }

    /** What of the file does not depend on the cache. */
    ghost predicate Filed(of: OpenFile, r: Reading)
      reads of.info
    {
      && Has(fv.v, r.img, r.fat) && Linked(r.fat, r.cs) && of.info.cluster0 == Head(r.cs)
      && Backed(fv.v, r.cs, of.info.size) && fv.v.spc <= MAX_SPC
    }

    /** The next bytes to arrive, and what is left behind them. */
    ghost predicate Arriving(r: Reading, got: nat, left: nat, part: seq<Byte>, off: nat) {
      && 0 < |part| <= left && got + |part| <= |r.all| && part == r.all[got..got + |part|]
      && Coming(r, got + |part|, left - |part|, Unsigned(off + |part|))
    }

    lemma {:induction false} SpotFacts(of: OpenFile, r: Reading, got: nat, left: nat)
      requires FileAt(of, r.img, r.fat, r.cs) && Coming(r, got, left, of.offset) && left > 0
      ensures fv.At(r.img) && Has(fv.v, r.img, r.fat) && Linked(r.fat, r.cs) && of.info.cluster0 == Head(r.cs)
      ensures 1 <= fv.v.spc && Filed(of, r)
      ensures match SpotAt(fv.v, r.cs, of.offset) case Ended => Ends(r.fat, r.cs) case Spot(a) => a.blkno != INVALID_BLOCK
    {
      hide FatVol.At, Has, Linked, SpotAt, Arrived;
    }

    lemma {:induction false} StillFile(of: OpenFile, r: Reading, got: nat, left: nat, rc: Rc)
      requires fv.At(r.img) && Filed(of, r) && Coming(r, got, left, of.offset)
      requires rc == Io ==> 1 <= fv.v.spc && !Found(fv.v, r.img, r.cs, of.offset)
      ensures FileAt(of, r.img, r.fat, r.cs)
      ensures rc == Io ==> got == |r.all|
    {
      if rc == Io {
        NotFound(fv.v, r.img, r.cs, of.offset, left);
      }
      hide FatVol.At, Has, Linked, Found, Arrived, Sound;
      assert Coming(r, got, left, of.offset) ==> |r.all[got..]| == |r.all| - got;
    }

    lemma {:induction false} TurnFacts(of: OpenFile, buffer: array<Byte>, r: Reading, got: nat, left: nat)
      requires Midway(of, buffer, r, got, left) && left > 0
      ensures FileAt(of, r.img, r.fat, r.cs) && of.offset == Unsigned(r.off + got)
      ensures Holds(buffer, r, got) && Coming(r, got, left, of.offset)
      ensures if got > 0 then fv.Roomy() else fv.Roomy() == r.roomy
    {
      hide FileAt, FatVol.Roomy, Coming, Unsigned;
    }

    lemma {:induction false} IsFetched(of: OpenFile, b: Block, i: nat, off: nat, r: Reading)
      requires Filed(of, r) && 1 <= fv.v.spc && Found(fv.v, r.img, r.cs, off)
      requires fv.Filled(b, i, SpotAt(fv.v, r.cs, off).a, r.img)
      ensures Fetched(of, b, i, off, r) && b in fv.cache.ring && b.data == r.img[SpotAt(fv.v, r.cs, off).a]
    {
      hide Filed, SpotAt;
    }

    /** The part of the sector is what arrives next. */
    lemma {:induction false} PartArrives(r: Reading, got: nat, left: nat, off: nat, data: Sector)
      requires Coming(r, got, left, off) && left > 0 && 1 <= fv.v.spc && Found(fv.v, r.img, r.cs, off)
      requires data == r.img[SpotAt(fv.v, r.cs, off).a]
      ensures InSector(off, Chunk(off, left)) && Arriving(r, got, left, Part(data, off, Chunk(off, left)), off)
    {
      ArrivedStep(fv.v, r.img, r.fat, r.cs, off, left);
      hide SpotAt, Arrived, Chunk, Sound, Part, Unsigned, InSector;
      var n := Chunk(off, left);
      assert r.all[got..][..n] == r.all[got..got + n] && r.all[got..][n..] == r.all[got + n..];
    }

    lemma {:induction false} PartFits(buffer: array<Byte>, r: Reading, got: nat, left: nat, part: seq<Byte>, off: nat)
      requires Holds(buffer, r, got) && Arriving(r, got, left, part, off)
      ensures got + |part| <= buffer.Length && got <= |r.all| <= |r.was| == buffer.Length
      ensures buffer[..] == r.all[..got] + r.was[got..]
    {
      hide Coming;
    }

    lemma {:induction false} PartCopied(buffer: array<Byte>, r: Reading, got: nat, left: nat, part: seq<Byte>, off: nat,
                                        before: seq<Byte>)
      requires got <= |r.all| <= |r.was| == buffer.Length && before == r.all[..got] + r.was[got..]
      requires Arriving(r, got, left, part, off) && got + |part| <= |before|
      requires buffer[..] == before[..got] + part + before[got + |part|..]
      ensures 0 < |part| <= left && Holds(buffer, r, got + |part|)
      ensures Coming(r, got + |part|, left - |part|, Unsigned(off + |part|))
    {
      hide Coming, Unsigned;
      assert before[..got] == r.all[..got] && before[got + |part|..] == r.was[got + |part|..];
      assert r.all[..got + |part|] == r.all[..got] + part;
    }

    method PutBack(of: OpenFile, b: Block, ghost i: nat, ghost off: nat, ghost r: Reading) returns (rc: Rc)
      requires Fetched(of, b, i, off, r)
      modifies b`inuse
      ensures fv.cache.ring == old(fv.cache.ring) && rc == Ok && FileAt(of, r.img, r.fat, r.cs) && fv.Roomy()
    {
      hide FatVol.At, FatVol.Roomy, FatVol.Filled, Has, Linked, SpotAt;
      rc := fv.Put(b, i, SpotAt(fv.v, r.cs, off).a, r.img);
    }

    method MoveOn(of: OpenFile, ghost buffer: array<Byte>, ghost got: nat, ghost left: nat, n: nat, ghost r: Reading)
      requires FileAt(of, r.img, r.fat, r.cs) && fv.Roomy() && 0 < n <= left && Holds(buffer, r, got + n)
      requires of.offset == Unsigned(r.off + got) && Coming(r, got + n, left - n, Unsigned(of.offset + n))
      modifies of`offset
      ensures Midway(of, buffer, r, got + n, left - n)
    {
      WrapOn(r.off, got, n);
      hide FileAt, Coming, Holds, FatVol.Roomy, Unsigned;
      of.offset := Unsigned(of.offset + n);
    }

    static lemma {:induction false} WrapOn(off: nat, got: nat, n: nat)
      ensures Unsigned(Unsigned(off + got) + n) == Unsigned(off + (got + n))
    {
    }

    lemma {:induction false} TurnStops(of: OpenFile, buffer: array<Byte>, r: Reading, got: nat)
      requires FileAt(of, r.img, r.fat, r.cs) && of.offset == Unsigned(r.off + got) && Holds(buffer, r, got)
      requires got == 0 && !r.roomy
      ensures Unread(of, buffer, r)
    {
    }

    lemma {:induction false} TurnEnds(of: OpenFile, buffer: array<Byte>, r: Reading, got: nat, left: nat)
      requires FileAt(of, r.img, r.fat, r.cs) && of.offset == Unsigned(r.off + got) && Holds(buffer, r, got)
      requires got == |r.all|
      ensures AllRead(of, buffer, r, got)
    {
    }

    /** The loop of `f_read`. */
    method ReadLoop(of: OpenFile, buffer: array<Byte>, size: nat, ghost r: Reading) returns (rc: Rc, got: nat)
      requires Midway(of, buffer, r, 0, size)
      modifies of`offset, buffer, fv.cache, fv.cache.ring, fv.cache.disk
      ensures fv.cache.ring == old(fv.cache.ring)
      ensures rc == Ok || rc == NoMem || rc == Io
      ensures rc == Ok ==> got == size
      ensures rc == NoMem ==> Unread(of, buffer, r)
      ensures rc == Io ==> got < size
      ensures rc != NoMem ==> AllRead(of, buffer, r, got)
    {
      hide *;
      var left := size;
      rc, got := Ok, 0;
      while left > 0
        invariant fv.cache.ring == old(fv.cache.ring) && rc == Ok && got + left == size
        invariant Midway(of, buffer, r, got, left)
      {
        var n;
        rc, n := ReadTurn(of, buffer, got, left, r);
        if rc != Ok {
          return;
        }
        left, got := left - n, got + n;
      }
      LoopDone(of, buffer, r, got);
    }

    lemma {:induction false} LoopDone(of: OpenFile, buffer: array<Byte>, r: Reading, got: nat)
      requires Midway(of, buffer, r, got, 0)
      ensures AllRead(of, buffer, r, got)
    {
      hide FileAt, FatVol.Roomy, Sound;
      assert |r.all[got..]| == |r.all| - got;
    }

    /** `f_read`, with the memory from the buffer on: the first `size` bytes of it
        are the caller's.  What `Arrived` says is copied, for any offset: in the
        file it is the file's bytes. */
    method FRead(fd: int, buffer: array<Byte>, size: nat, ghost img: Image, ghost fat: Fat, ghost cs: seq<nat>)
      returns (rc: Rc, got: nat)
      requires size <= buffer.Length && size < sizet && fv.At(img)
      requires Open(fd) ==> FileAt(openfiles[fd], img, fat, cs) && ReadsFrom(openfiles[fd], size, buffer, img, fat, cs)
      modifies openfiles`offset, buffer, fv.cache, fv.cache.ring, fv.cache.disk
      ensures fv.cache.ring == old(fv.cache.ring) && fv.At(img) && 1 <= fv.v.spc
      ensures rc == Inval <==> !Open(fd) || old(openfiles[fd].offset) + size >= ULONG
      ensures rc == Ok || rc == Inval || rc == NoMem || rc == Io
      ensures rc == NoMem ==> !old(fv.Roomy())
      ensures Open(fd) ==> FileAt(openfiles[fd], img, fat, cs)
      ensures rc == Ok || rc == Io ==>
        var off := old(openfiles[fd].offset); var n := ReadLen(off, size, openfiles[fd].info.size, ULONG, sizet);
        && got == |Arrived(fv.v, img, cs, off, n)| <= buffer.Length && (rc == Ok <==> got == n)
        && openfiles[fd].offset == Unsigned(off + got)
        && buffer[..] == Arrived(fv.v, img, cs, off, n) + old(buffer[..])[got..]
      ensures (rc == Ok || rc == Io) && old(openfiles[fd].offset) <= openfiles[fd].info.size ==>
        var off := old(openfiles[fd].offset); var n := Clamp(off, size, openfiles[fd].info.size);
        && rc == Ok && got == n && openfiles[fd].offset == off + n
        && buffer[..] == FileBytes(fv.v, img, cs, off, n) + old(buffer[..])[n..]
      ensures rc == Inval || rc == NoMem ==>
        buffer[..] == old(buffer[..]) && (Open(fd) ==> openfiles[fd].offset == old(openfiles[fd].offset))
    {
      hide FatVol.At, FatVol.Roomy, FileAt, ReadsFrom, ReadLen, Arrived, FileBytes, Clamp, Midway, Unread, AllRead, Sound;
      VolSizes(img);
      got := 0;
      var of := OpenfileByFd(fd);
      if of == null || of.offset + size >= ULONG {
        return Inval, 0;
      }
      var left := ReadLen(of.offset, size, of.info.size, ULONG, sizet);
      ghost var r := Reading(img, fat, cs, of.offset, buffer[..], fv.Roomy(), Arrived(fv.v, img, cs, of.offset, left));
      ReadStarts(of, buffer, size, r);
      rc, got := ReadLoop(of, buffer, left, r);
      ReadEnds(of, buffer, r, rc, got);
    }

    lemma {:induction false} VolSizes(img: Image)
      requires fv.At(img)
      ensures 1 <= fv.v.spc
    {
    }

    /** What a read needs: behind the end of the file, end marks where the walk
        looks for them, and memory for all that is copied. */
    ghost predicate ReadsFrom(of: OpenFile, size: nat, buffer: array<Byte>, img: Image, fat: Fat, cs: seq<nat>)
      reads of, of.info
    {
      var n := ReadLen(of.offset, size, of.info.size, ULONG, sizet);
      of.offset > of.info.size ==>
        && 1 <= fv.v.spc && Sound(fv.v, img, fat, cs, of.offset, n)
        && |Arrived(fv.v, img, cs, of.offset, n)| <= buffer.Length
    }

    lemma {:induction false} ReadStarts(of: OpenFile, buffer: array<Byte>, size: nat, r: Reading)
      requires FileAt(of, r.img, r.fat, r.cs) && ReadsFrom(of, size, buffer, r.img, r.fat, r.cs) && size < sizet && size <= buffer.Length
      requires of.offset + size < ULONG && r.off == of.offset && r.was == buffer[..] && r.roomy == fv.Roomy()
      requires 1 <= fv.v.spc
      requires r.all == Arrived(fv.v, r.img, r.cs, of.offset, ReadLen(of.offset, size, of.info.size, ULONG, sizet))
      ensures Midway(of, buffer, r, 0, ReadLen(of.offset, size, of.info.size, ULONG, sizet)) && Unsigned(r.off) == r.off
      ensures of.offset <= of.info.size ==>
        var n := Clamp(of.offset, size, of.info.size);
        && ReadLen(of.offset, size, of.info.size, ULONG, sizet) == n == |r.all| && of.offset + n < ULONG
        && r.all == FileBytes(fv.v, r.img, r.cs, of.offset, n)
    {
      if of.offset <= of.info.size {
        ReadInside(of, size, r);
      }
      InRange(of.offset);
      hide FatVol.At, FatVol.Roomy, FileBytes, Linked, ReadLen, Arrived, Sound, FatView;
      assert r.all[..0] + r.was[0..] == r.was && r.all[0..] == r.all;
    }

    lemma {:induction false} ReadInside(of: OpenFile, size: nat, r: Reading)
      requires FileAt(of, r.img, r.fat, r.cs) && size < sizet && of.offset <= of.info.size
      requires of.offset + size < ULONG && 1 <= fv.v.spc
      ensures var n := Clamp(of.offset, size, of.info.size);
        && ReadLen(of.offset, size, of.info.size, ULONG, sizet) == n && of.offset + n < ULONG
        && Arrived(fv.v, r.img, r.cs, of.offset, n) == FileBytes(fv.v, r.img, r.cs, of.offset, n)
        && Sound(fv.v, r.img, r.fat, r.cs, of.offset, n)
    {
      ReadLenInside(of.offset, size, of.info.size, ULONG, sizet);
      ArrivedInside(fv.v, r.img, r.cs, of.offset, Clamp(of.offset, size, of.info.size));
      hide FatVol.At, FileBytes, Arrived, Sound, FatView;
    }

    lemma {:induction false} ReadEnds(of: OpenFile, buffer: array<Byte>, r: Reading, rc: Rc, got: nat)
      requires rc == NoMem ==> Unread(of, buffer, r)
      requires rc != NoMem ==> AllRead(of, buffer, r, got)
      ensures FileAt(of, r.img, r.fat, r.cs) && fv.At(r.img)
      ensures rc != NoMem ==>
        && got == |r.all| <= |r.was| == buffer.Length && of.offset == Unsigned(r.off + got)
        && buffer[..] == r.all + r.was[got..]
      ensures rc == NoMem ==> !r.roomy && buffer[..] == r.was && of.offset == Unsigned(r.off)
    {
      hide FatVol.At, Has, Linked;
    }

    lemma {:induction false} FileRoom(of: OpenFile, img: Image, fat: Fat, cs: seq<nat>, off: nat)
      requires FileAt(of, img, fat, cs) && off < of.info.size
      ensures 1 <= fv.v.spc && cs != [] && HasByte(fv.v, cs, off) && SecOf(fv.v, cs, off / BLKSIZE) in img
      ensures SpotAt(fv.v, cs, off) == Spot(SecOf(fv.v, cs, off / BLKSIZE))
      ensures SecOf(fv.v, cs, off / BLKSIZE).blkno != INVALID_BLOCK
    {
      BackedByte(fv.v, cs, of.info.size, off);
      SpotInside(fv.v, img, cs, off);
      hide FatView, SecOf, SpotAt;
    }

    // ----- f_write

    /** The part of a turn of the loop of `f_write` that deals with the sector,
        which is not read first when all of it is written. */
    method WriteSector(of: OpenFile, off: nat, part: seq<Byte>, ghost img: Image, ghost fat: Fat, ghost cs: seq<nat>)
      returns (rc: Rc)
      requires FileAt(of, img, fat, cs) && off < of.info.size && InSector(off, |part|)
      modifies fv.cache, fv.cache.ring, fv.cache.disk
      ensures fv.cache.ring == old(fv.cache.ring)
      ensures rc == Ok || rc == NoMem
      ensures rc == Ok ==> FileAt(of, FatFiles.Put(fv.v, img, cs, off, part), fat, cs) && fv.Roomy()
      ensures rc != Ok ==> FileAt(of, img, fat, cs) && !old(fv.Roomy())
    {
      FileRoom(of, img, fat, cs, off);
      PutKeepsFile(of, img, fat, cs, off, part);
      hide *;
      var blk;
      ghost var i;
      rc, blk, i := GetFor(of, off, WholeSector(off, |part|), img, fat, cs);
      if rc == Ok {
        rc := SpliceIn(of, blk, i, off, part, img, fat, cs);
      }
    }

    /** The loop of `f_write` with `wrote` bytes written and the disk at img1. */
    ghost predicate WriteMidway(of: OpenFile, w: Writing, wrote: nat, img1: Image)
      reads of, of.info, fv.cache, fv.cache.ring, fv.cache.disk
    {
      && FileAt(of, img1, w.fat, w.cs) && of.offset == w.off + wrote
      && w.off + |w.data| <= of.info.size && WrittenSo(fv.v, w, wrote, img1)
      && (if wrote > 0 then fv.Roomy() else img1 == w.img && fv.Roomy() == w.roomy)
    }

    ghost predicate Unwritten(of: OpenFile, w: Writing)
      reads of, of.info, fv.cache, fv.cache.ring, fv.cache.disk
    {
      FileAt(of, w.img, w.fat, w.cs) && of.offset == w.off && !w.roomy
    }

    method WriteTurn(of: OpenFile, data: seq<Byte>, wrote: nat, ghost w: Writing, ghost img0: Image)
      returns (rc: Rc, n: nat, ghost img1: Image)
      requires WriteMidway(of, w, wrote, img0) && wrote < |data| && data == w.data
      modifies of`offset, fv.cache, fv.cache.ring, fv.cache.disk
      ensures fv.cache.ring == old(fv.cache.ring)
      ensures rc == Ok ==> 0 < n && wrote + n <= |data| && WriteMidway(of, w, wrote + n, img1)
      ensures rc != Ok ==> rc == NoMem && Unwritten(of, w)
    {
      hide *;
      WroteSome(of, w, wrote, img0);
      WrittenOn(fv.v, w, wrote, img0);
      n := Chunk(of.offset, |data| - wrote);
      var part := data[wrote..wrote + n];
      img1 := FatFiles.Put(fv.v, img0, w.cs, of.offset, part);
      rc := WriteSector(of, of.offset, part, img0, w.fat, w.cs);
      if rc == Ok {
        of.offset := of.offset + n;
        WritesOn(of, w, wrote + n, img1);
      } else {
        WritesNot(of, w);
      }
    }

    lemma {:induction false} WroteSome(of: OpenFile, w: Writing, wrote: nat, img: Image)
      requires WriteMidway(of, w, wrote, img) && wrote < |w.data|
      ensures FileAt(of, img, w.fat, w.cs) && of.offset == w.off + wrote && w.off + |w.data| <= of.info.size
      ensures WrittenSo(fv.v, w, wrote, img) && (if wrote > 0 then fv.Roomy() else img == w.img && fv.Roomy() == w.roomy)
    {
    }

    lemma {:induction false} WritesOn(of: OpenFile, w: Writing, wrote: nat, img1: Image)
      requires FileAt(of, img1, w.fat, w.cs) && of.offset == w.off + wrote && w.off + |w.data| <= of.info.size
      requires wrote > 0 && WrittenSo(fv.v, w, wrote, img1) && fv.Roomy()
      ensures WriteMidway(of, w, wrote, img1)
    {
    }

    lemma {:induction false} WritesNot(of: OpenFile, w: Writing)
      requires FileAt(of, w.img, w.fat, w.cs) && of.offset == w.off && !w.roomy
      ensures Unwritten(of, w)
    {
    }

    /** The loop of `f_write`. */
    method WriteLoop(of: OpenFile, data: seq<Byte>, ghost w: Writing) returns (rc: Rc, wrote: nat, ghost img1: Image)
      requires WriteMidway(of, w, 0, w.img) && data == w.data
      modifies of`offset, fv.cache, fv.cache.ring, fv.cache.disk
      ensures fv.cache.ring == old(fv.cache.ring)
      ensures rc == Ok ==> wrote == |data| && WriteMidway(of, w, wrote, img1)
      ensures rc != Ok ==> rc == NoMem && Unwritten(of, w)
    {
      hide *;
      rc, wrote, img1 := Ok, 0, w.img;
      while wrote < |data|
        invariant fv.cache.ring == old(fv.cache.ring) && rc == Ok && wrote <= |data|
        invariant WriteMidway(of, w, wrote, img1)
      {
        var n;
        rc, n, img1 := WriteTurn(of, data, wrote, w, img1);
        if rc != Ok {
          return;
        }
        wrote := wrote + n;
      }
    }

    lemma {:induction false} PutKeepsFile(of: OpenFile, img: Image, fat: Fat, cs: seq<nat>, off: nat, part: seq<Byte>)
      requires FileAt(of, img, fat, cs) && off < of.info.size && InSector(off, |part|)
      ensures Has(fv.v, FatFiles.Put(fv.v, img, cs, off, part), fat)
    {
      PutRange(fv.v, img, cs, off, part, of.info.size);
    }

    /** The block with file offset off is held, and filled unless all of it is
        going to be written. */
    ghost predicate Ready(of: OpenFile, b: Block, i: nat, off: nat, overw: bool, img: Image, fat: Fat, cs: seq<nat>)
      reads of.info, fv.cache, fv.cache.ring, fv.cache.disk, b
    {
      && Has(fv.v, img, fat) && Linked(fat, cs) && of.info.cluster0 == Head(cs) && Backed(fv.v, cs, of.info.size)
      && fv.v.spc <= MAX_SPC && fv.Held(b, i, SecOf(fv.v, cs, off / BLKSIZE), img) && b in fv.cache.ring
      && (!overw ==> fv.Filled(b, i, SecOf(fv.v, cs, off / BLKSIZE), img))
    }

    method GetFor(of: OpenFile, off: nat, overw: bool, ghost img: Image, ghost fat: Fat, ghost cs: seq<nat>)
      returns (rc: Rc, blk: Block?, ghost i: nat)
      requires FileAt(of, img, fat, cs) && off < of.info.size
      modifies fv.cache, fv.cache.ring, fv.cache.disk
      ensures fv.cache.ring == old(fv.cache.ring)
      ensures rc == Ok || rc == NoMem
      ensures rc == Ok ==> blk != null && blk in fv.cache.ring && Ready(of, blk, i, off, overw, img, fat, cs)
      ensures rc != Ok ==> FileAt(of, img, fat, cs) && !old(fv.Roomy())
    {
      hide FatVol.At, FatVol.Roomy, FatVol.Filled, FatVol.Held, Has, Linked, HasByte, Backed, SpotAt, SecOf;
      FileRoom(of, img, fat, cs, off);
      rc, blk, i := fv.FobjGetSecAtOffs(of.info.cluster0, off, overw, img, fat, cs);
      if rc == Ok {
        HeldInRing(blk, i, SecOf(fv.v, cs, off / BLKSIZE), img);
      }
    }

    lemma {:induction false} HeldInRing(b: Block, i: nat, a: Addr, img: Image)
      requires fv.Held(b, i, a, img)
      ensures b in fv.cache.ring
    {
    }

    method SpliceIn(of: OpenFile, b: Block, ghost i: nat, off: nat, part: seq<Byte>,
                    ghost img: Image, ghost fat: Fat, ghost cs: seq<nat>) returns (rc: Rc)
      requires Ready(of, b, i, off, WholeSector(off, |part|), img, fat, cs)
      requires InSector(off, |part|) && SecOf(fv.v, cs, off / BLKSIZE) in img
      requires Has(fv.v, FatFiles.Put(fv.v, img, cs, off, part), fat)
      modifies b`data, b`dirty, b`stale, b`inuse
      ensures fv.cache.ring == old(fv.cache.ring) && rc == Ok && fv.Roomy()
      ensures FileAt(of, FatFiles.Put(fv.v, img, cs, off, part), fat, cs)
    {
      ghost var a := SecOf(fv.v, cs, off / BLKSIZE);
      assert !(WholeSector(off, |part|)) ==> b.data == img[a];
      SpliceWhole(b.data, img[a], off % BLKSIZE, part);
      hide FatVol.At, FatVol.Roomy, FatVol.Filled, FatVol.Held, Has, Linked, Splice;
      fv.Set(b, i, a, img, Splice(b.data, off % BLKSIZE, part));
      rc := fv.Put(b, i, a, img[a := Splice(img[a], off % BLKSIZE, part)]);
    }

    /** When a whole sector is written, what it held before does not matter. */
    static lemma {:induction false} SpliceWhole(s: Sector, t: Sector, at: nat, part: seq<Byte>)
      requires at + |part| <= BLKSIZE && ((at == 0 && |part| == BLKSIZE) || s == t)
      ensures Splice(s, at, part) == Splice(t, at, part)
    {
    }

    /** What `f_write` asks of an open file: its clusters form a chain, and its
        directory entry lies outside the FAT, its clusters and the free ones.
        Up to 32 bits, the length can be counted in clusters. */
    ghost predicate Writable(of: OpenFile, size: nat, img: Image, fat: Fat, cs: seq<nat>)
      reads of, of.info, fv.cache, fv.cache.ring, fv.cache.disk
    {
      && FileAt(of, img, fat, cs) && IsChain(fat, cs)
      && fv.EntryFits(of.info, img) && EntryApart(fv.v, fat, cs, fv.EntryAddr(of.info))
      && (of.offset + size < ULONG ==> of.offset + size + Bpc(fv.v) <= 0x1_0000_0000)
    }

    /** The clusters are got: by fobj_trunc when the file has to grow.  t gives the
        error number, the table and the file's clusters, img0 the disk. */
    ghost predicate Prepared(of: OpenFile, w: Writing, filesize: nat, rc: Rc, t: Change, img0: Image)
      reads of, of.info, fv.cache, fv.cache.ring, fv.cache.disk
    {
      var length := w.off + |w.data|;
      && of.offset == w.off && fv.At(img0) && Has(fv.v, img0, t.fat)
      && (rc == Ok || rc == NoSpc ==> FileAt(of, img0, t.fat, t.cs))
      && (rc == Ok ==> fv.Roomy() || (img0 == w.img && !w.roomy))
      && of.info.size == (if rc == Ok && length > filesize then length else filesize)
      && Got(of.info, w, filesize, rc, t, img0)
    }

    ghost predicate Got(info: FileInfo, w: Writing, filesize: nat, rc: Rc, t: Change, img0: Image) {
      if w.off + |w.data| > filesize then GrownBy(info, w, w.off + |w.data|, rc, t, img0)
      else rc == Ok && t == Change(Ok, w.fat, w.cs) && img0 == w.img
    }

    ghost predicate GrownBy(info: FileInfo, w: Writing, length: nat, rc: Rc, t: Change, img0: Image) {
      && 2 <= |w.fat| && InTable(w.fat, w.cs) && 1 <= fv.v.spc
      && t == Trunc(w.fat, w.cs, Target(fv.v, length)) && rc == t.rc && (rc == Ok || rc == NoSpc)
      && (if rc == Ok then fv.OnlyEntry(info, w.img, img0, Head(t.cs), length) else OnlyFat(fv.v, w.img, img0))
    }

    /** Getting the clusters first when the file has to grow. */
    method Prepare(of: OpenFile, length: nat, ghost w: Writing) returns (rc: Rc, ghost t: Change, ghost img0: Image)
      requires Writable(of, |w.data|, w.img, w.fat, w.cs) && SetterFits(fv.v) && length == w.off + |w.data| < ULONG
      requires of.offset == w.off && w.roomy == fv.Roomy()
      modifies of.info, fv.cache, fv.cache.ring, fv.cache.disk
      ensures fv.cache.ring == old(fv.cache.ring)
      ensures rc != NoMem ==> Prepared(of, w, old(of.info.size), rc, t, img0)
      ensures rc == NoMem ==> fv.At(w.img) && !w.roomy && of.offset == w.off
    {
      hide *;
      if length > of.info.size {
        rc, t, img0 := PrepareGrown(of, length, w);
      } else {
        rc, t, img0 := Ok, Change(Ok, w.fat, w.cs), w.img;
        PreparedSame(of, w);
      }
    }

    method PrepareGrown(of: OpenFile, length: nat, ghost w: Writing) returns (rc: Rc, ghost t: Change, ghost img0: Image)
      requires Writable(of, |w.data|, w.img, w.fat, w.cs) && SetterFits(fv.v) && length == w.off + |w.data| < ULONG
      requires of.offset == w.off && w.roomy == fv.Roomy() && length > of.info.size
      modifies of.info, fv.cache, fv.cache.ring, fv.cache.disk
      ensures fv.cache.ring == old(fv.cache.ring)
      ensures rc != NoMem ==> Prepared(of, w, old(of.info.size), rc, t, img0)
      ensures rc == NoMem ==> fv.At(w.img) && !w.roomy && of.offset == w.off
    {
      hide *;
      WritableFacts(of, w);
      ghost var fat1;
      rc, img0, fat1 := fv.FobjTrunc(of.info, length, w.img, w.fat, w.cs);
      t := Change(rc, fat1, w.cs);
      if rc != NoMem {
        t := GrowResult(of, w, old(of.info.size), rc, img0, fat1);
      }
    }

    lemma {:induction false} WritableFacts(of: OpenFile, w: Writing)
      requires Writable(of, |w.data|, w.img, w.fat, w.cs) && of.offset == w.off && w.off + |w.data| < ULONG
      ensures IsChain(w.fat, w.cs) && fv.At(w.img) && Has(fv.v, w.img, w.fat) && of.info.cluster0 == Head(w.cs)
      ensures fv.EntryFits(of.info, w.img) && w.off + |w.data| + Bpc(fv.v) <= 0x1_0000_0000 && 1 <= fv.v.spc
      ensures w.off + |w.data| < 0x1_0000_0000 && fv.v.spc <= MAX_SPC && Backed(fv.v, w.cs, of.info.size)
    {
    }

    /** What fobj_trunc says, put together. */
    lemma {:induction false} GrowResult(of: OpenFile, w: Writing, filesize: nat, rc: Rc, img0: Image, fat1: Fat)
      returns (t: Change)
      requires Has(fv.v, w.img, w.fat) && IsChain(w.fat, w.cs) && w.off + |w.data| + Bpc(fv.v) <= 0x1_0000_0000
      requires of.offset == w.off && w.off + |w.data| > filesize && 1 <= fv.v.spc && (rc == Ok || rc == NoSpc)
      requires fv.At(img0) && Has(fv.v, img0, fat1) && fv.v.spc <= MAX_SPC && Backed(fv.v, w.cs, filesize)
      requires Resized(w.fat, w.cs, Target(fv.v, w.off + |w.data|), rc, fat1, of.info.cluster0)
      requires rc == Ok ==> fv.Roomy() && of.info.size == w.off + |w.data|
      requires rc == Ok ==> fv.OnlyEntry(of.info, w.img, img0, of.info.cluster0, w.off + |w.data|)
      requires rc == NoSpc ==> OnlyFat(fv.v, w.img, img0) && of.info.size == filesize
      ensures Prepared(of, w, filesize, rc, t, img0)
    {
      hide *;
      TargetBacks(fv.v, w.img, w.fat, w.cs, w.off + |w.data|);
      t := ChangeOf(fv.v, w.fat, w.cs, w.off + |w.data|, rc, fat1, of.info.cluster0);
      if rc == NoSpc {
        StillBacked(w, filesize, t, Target(fv.v, w.off + |w.data|));
      }
      GrownFile(of, img0, t, if rc == Ok then w.off + |w.data| else filesize);
      IsGrownBy(of.info, w, w.off + |w.data|, rc, t, img0);
      PreparedGrown(of, w, filesize, rc, t, img0);
    }

    /** When there are too few free clusters the file has all it had. */
    lemma {:induction false} StillBacked(w: Writing, filesize: nat, t: Change, target: nat)
      requires 2 <= |w.fat| && IsChain(w.fat, w.cs) && t == Trunc(w.fat, w.cs, target) && t.rc == NoSpc
      requires Backed(fv.v, w.cs, filesize)
      ensures Backed(fv.v, t.cs, filesize) && w.cs <= t.cs
    {
      TruncGrows(w.fat, w.cs, target);
      hide Trunc, IsChain;
      BacksMore(w.cs, t.cs, filesize);
    }

    lemma {:induction false} BacksMore(cs: seq<nat>, ds: seq<nat>, n: nat)
      requires Backed(fv.v, cs, n) && |cs| <= |ds|
      ensures Backed(fv.v, ds, n)
    {
      Below(|cs|, |ds|, Bpc(fv.v), Bpc(fv.v));
    }

    lemma {:induction false} GrownFile(of: OpenFile, img0: Image, t: Change, length: nat)
      requires fv.At(img0) && Has(fv.v, img0, t.fat) && Linked(t.fat, t.cs) && of.info.cluster0 == Head(t.cs)
      requires of.info.size == length && Backed(fv.v, t.cs, length) && fv.v.spc <= MAX_SPC
      ensures FileAt(of, img0, t.fat, t.cs)
    {
    }

    lemma {:induction false} IsGrownBy(info: FileInfo, w: Writing, length: nat, rc: Rc, t: Change, img0: Image)
      requires 2 <= |w.fat| && InTable(w.fat, w.cs) && 1 <= fv.v.spc && (rc == Ok || rc == NoSpc)
      requires t == Trunc(w.fat, w.cs, Target(fv.v, length)) && rc == t.rc
      requires rc == Ok ==> fv.OnlyEntry(info, w.img, img0, Head(t.cs), length)
      requires rc == NoSpc ==> OnlyFat(fv.v, w.img, img0)
      ensures GrownBy(info, w, length, rc, t, img0)
    {
    }

    lemma {:induction false} PreparedGrown(of: OpenFile, w: Writing, filesize: nat, rc: Rc, t: Change, img0: Image)
      requires of.offset == w.off && w.off + |w.data| > filesize && fv.At(img0) && Has(fv.v, img0, t.fat)
      requires FileAt(of, img0, t.fat, t.cs) && (rc == Ok ==> fv.Roomy() && of.info.size == w.off + |w.data|)
      requires rc != Ok ==> of.info.size == filesize
      requires GrownBy(of.info, w, w.off + |w.data|, rc, t, img0)
      ensures Prepared(of, w, filesize, rc, t, img0)
    {
    }

    lemma {:induction false} PreparedSame(of: OpenFile, w: Writing)
      requires Writable(of, |w.data|, w.img, w.fat, w.cs) && of.offset == w.off && w.off + |w.data| <= of.info.size
      requires fv.Roomy() == w.roomy
      ensures Prepared(of, w, of.info.size, Ok, Change(Ok, w.fat, w.cs), w.img)
    {
    }

    /** The end of a successful write. */
    ghost predicate Wrote(of: OpenFile, w: Writing, filesize: nat, t: Change, img0: Image, img1: Image)
      reads of, of.info, fv.cache, fv.cache.ring, fv.cache.disk
    {
      var length := w.off + |w.data|;
      && Got(of.info, w, filesize, Ok, t, img0) && Has(fv.v, img0, t.fat)
      && img1 == Written(fv.v, img0, t.cs, w.off, w.data) && FileAt(of, img1, t.fat, t.cs)
      && of.offset == length && of.info.size == (if length > filesize then length else filesize)
      && (w.roomy ==> fv.Roomy())
    }

    /** How a write to an open file ends: everything is written, or there were too
        few free clusters, or every block of the cache was in use. */
    ghost predicate Outcome(of: OpenFile, w: Writing, filesize: nat, rc: Rc, t: Change, img0: Image, img1: Image)
      reads of, of.info, fv.cache, fv.cache.ring, fv.cache.disk
    {
      match rc
      case Ok => Wrote(of, w, filesize, t, img0, img1)
      case NoSpc =>
        && Got(of.info, w, filesize, NoSpc, t, img0) && FileAt(of, img0, t.fat, t.cs)
        && of.info.size == filesize && of.offset == w.off
      case NoMem => fv.At(w.img) && !w.roomy && of.offset == w.off
      case _ => false
    }

    /** `f_write`. */
    method FWrite(fd: int, data: seq<Byte>, ghost img: Image, ghost fat: Fat, ghost cs: seq<nat>)
      returns (rc: Rc, wrote: nat, ghost t: Change, ghost img0: Image, ghost img1: Image)
      requires fv.At(img) && SetterFits(fv.v)
      requires Open(fd) ==> Writable(openfiles[fd], |data|, img, fat, cs)
      modifies openfiles`offset, (set of | of in openfiles :: of.info), fv.cache, fv.cache.ring, fv.cache.disk
      ensures fv.cache.ring == old(fv.cache.ring)
      ensures rc == Inval <==> !Open(fd) || old(openfiles[fd].offset) + |data| >= ULONG
      ensures rc == Inval ==> fv.At(img)
      ensures rc == Ok ==> wrote == |data|
      ensures rc != Inval ==>
        Outcome(openfiles[fd], Writing(img, fat, cs, old(openfiles[fd].offset), data, old(fv.Roomy())),
                old(openfiles[fd].info.size), rc, t, img0, img1)
    {
      hide Writable, Outcome, FatVol.At, FatVol.Roomy, SetterFits;
      rc, wrote, t, img0, img1 := Inval, 0, Change(Ok, fat, cs), img, img;
      var of := OpenfileByFd(fd);
      if of != null {
        if of.offset + |data| < ULONG {
          rc, wrote, t, img0, img1 := WriteFile(of, data, Writing(img, fat, cs, of.offset, data, fv.Roomy()));
          OutcomeCode(of, Writing(img, fat, cs, old(of.offset), data, old(fv.Roomy())), old(of.info.size), rc, t, img0, img1);
        }
      }
    }

    lemma {:induction false} OutcomeCode(of: OpenFile, w: Writing, filesize: nat, rc: Rc, t: Change, img0: Image, img1: Image)
      requires Outcome(of, w, filesize, rc, t, img0, img1)
      ensures rc != Inval
    {
    }

    method WriteFile(of: OpenFile, data: seq<Byte>, ghost w: Writing)
      returns (rc: Rc, wrote: nat, ghost t: Change, ghost img0: Image, ghost img1: Image)
      requires Writable(of, |w.data|, w.img, w.fat, w.cs) && SetterFits(fv.v) && w.off + |w.data| < ULONG
      requires of.offset == w.off && w.roomy == fv.Roomy() && data == w.data
      modifies of`offset, of.info, fv.cache, fv.cache.ring, fv.cache.disk
      ensures fv.cache.ring == old(fv.cache.ring) && (rc == Ok ==> wrote == |data|)
      ensures Outcome(of, w, old(of.info.size), rc, t, img0, img1)
    {
      hide *;
      wrote := 0;
      rc, t, img0 := Prepare(of, of.offset + |data|, w);
      img1 := img0;
      if rc == Ok {
        rc, wrote, img1 := WriteAll(of, data, w, old(of.info.size), t, img0);
      } else {
        StuckFile(of, w, old(of.info.size), rc, t, img0);
      }
    }

    lemma {:induction false} StuckFile(of: OpenFile, w: Writing, filesize: nat, rc: Rc, t: Change, img0: Image)
      requires rc != Ok && (rc != NoMem ==> Prepared(of, w, filesize, rc, t, img0))
      requires rc == NoMem ==> fv.At(w.img) && !w.roomy && of.offset == w.off
      ensures Outcome(of, w, filesize, rc, t, img0, img0)
    {
    }

    method WriteAll(of: OpenFile, data: seq<Byte>, ghost w: Writing, ghost filesize: nat, ghost t: Change, ghost img0: Image)
      returns (rc: Rc, wrote: nat, ghost img1: Image)
      requires Prepared(of, w, filesize, Ok, t, img0) && data == w.data
      modifies of`offset, fv.cache, fv.cache.ring, fv.cache.disk
      ensures fv.cache.ring == old(fv.cache.ring) && (rc == Ok ==> wrote == |data|)
      ensures Outcome(of, w, filesize, rc, t, img0, img1)
    {
      LoopStarts(of, w, filesize, t, img0);
      hide *;
      ghost var w0 := Writing(img0, t.fat, t.cs, w.off, w.data, fv.Roomy());
      rc, wrote, img1 := WriteLoop(of, data, w0);
      if rc == Ok {
        LoopEnds(of, w, filesize, t, img0, img1, w0);
      } else {
        LoopFails(of, w, filesize, t, img0, img1, w0);
      }
    }

    lemma {:induction false} LoopStarts(of: OpenFile, w: Writing, filesize: nat, t: Change, img0: Image)
      requires Prepared(of, w, filesize, Ok, t, img0)
      ensures WriteMidway(of, Writing(img0, t.fat, t.cs, w.off, w.data, fv.Roomy()), 0, img0)
      ensures fv.Roomy() || (img0 == w.img && !w.roomy)
      ensures Got(of.info, w, filesize, Ok, t, img0) && Has(fv.v, img0, t.fat)
      ensures of.info.size == if w.off + |w.data| > filesize then w.off + |w.data| else filesize
    {
      assert w.data[0..] == w.data;
    }

    lemma {:induction false} LoopEnds(of: OpenFile, w: Writing, filesize: nat, t: Change, img0: Image, img1: Image, w0: Writing)
      requires w0.img == img0 && w0.fat == t.fat && w0.cs == t.cs && w0.off == w.off && w0.data == w.data
      requires WriteMidway(of, w0, |w.data|, img1)
      requires Got(of.info, w, filesize, Ok, t, img0) && Has(fv.v, img0, t.fat)
      requires of.info.size == if w.off + |w.data| > filesize then w.off + |w.data| else filesize
      requires w.roomy ==> w0.roomy
      ensures Outcome(of, w, filesize, Ok, t, img0, img1)
    {
      assert w.data[|w.data|..] == [];
    }

    lemma {:induction false} LoopFails(of: OpenFile, w: Writing, filesize: nat, t: Change, img0: Image, img1: Image, w0: Writing)
      requires w0.img == img0 && w0.off == w.off && Unwritten(of, w0)
      requires w0.roomy || (img0 == w.img && !w.roomy)
      ensures Outcome(of, w, filesize, NoMem, t, img0, img1)
    {
    }

    // ----- f_lseek

    /** `f_lseek`: from the beginning, from the offset, or from the end. */
    method FLseek(fd: int, offset: int, whence: Whence) returns (rc: Rc, at: nat)
      modifies openfiles`offset
      ensures rc == if Open(fd) then Ok else Inval
      ensures rc == Ok ==> at == openfiles[fd].offset
      ensures rc == Ok ==> at == Unsigned(offset +
        match whence case SeekSet => 0 case SeekCur => old(openfiles[fd].offset) case SeekEnd => openfiles[fd].info.size)
      ensures forall i :: 0 <= i < |openfiles| && (Open(fd) ==> openfiles[i] != openfiles[fd]) ==>
        openfiles[i].offset == old(openfiles[i].offset)
    {
      at := 0;
      var of := OpenfileByFd(fd);
      if of == null {
        return Inval, 0;
      }
      match whence {
        case SeekSet => of.offset := Unsigned(offset);
        case SeekCur => of.offset := Unsigned(of.offset + offset);
        case SeekEnd => of.offset := Unsigned(of.info.size + offset);
      }
      return Ok, of.offset;
    }

    // ----- writing and reading back

    /** The write has what it needs: a block, an offset that does not overflow, and
        as many free clusters as the file has to grow by. */
    ghost predicate CanWrite(of: OpenFile, size: nat, fat: Fat, cs: seq<nat>)
      reads of, of.info, fv.cache, fv.cache.ring, fv.cache.disk
    {
      && fv.Roomy() && of.offset + size < ULONG && 1 <= fv.v.spc && 2 <= |fat|
      && (of.offset + size > of.info.size ==> Target(fv.v, of.offset + size) <= |cs| + FreeCount(fat))
    }

    /** Then it succeeds. */
    lemma {:induction false} WriteSucceeds(of: OpenFile, w: Writing, filesize: nat, rc: Rc, t: Change, img0: Image, img1: Image)
      requires Outcome(of, w, filesize, rc, t, img0, img1) && w.roomy && IsChain(w.fat, w.cs) && 2 <= |w.fat|
      requires 1 <= fv.v.spc
      requires w.off + |w.data| > filesize ==> Target(fv.v, w.off + |w.data|) <= |w.cs| + FreeCount(w.fat)
      ensures rc == Ok
    {
      hide Target, Trunc, FreeCount;
      if rc == NoSpc {
        TruncLinks(w.fat, w.cs, Target(fv.v, w.off + |w.data|));
      }
    }

    /** Writing, seeking back and reading gives the bytes that were written. */
    method WriteAndReadBack(fd: int, data: seq<Byte>, buffer: array<Byte>, ghost img: Image, ghost fat: Fat, ghost cs: seq<nat>)
      returns (ok: bool)
      requires Open(fd) && fv.At(img) && SetterFits(fv.v) && Writable(openfiles[fd], |data|, img, fat, cs)
      requires |data| == buffer.Length < sizet && |openfiles| <= MAX_OPENFILES
      modifies openfiles`offset, (set of | of in openfiles :: of.info), buffer, fv.cache, fv.cache.ring, fv.cache.disk
      ensures old(CanWrite(openfiles[fd], |data|, fat, cs)) ==> ok
      ensures ok ==> buffer[..] == data
    {
      hide CanWrite, Writable, FatVol.At, FatVol.Roomy, Outcome, FileAt, SetterFits, FileBytes, Target, FreeCount, IsChain;
      var of := openfiles[fd];
      var off := of.offset;
      ghost var can := CanWrite(of, |data|, fat, cs);
      ghost var w, size := Writing(img, fat, cs, off, data, fv.Roomy()), of.info.size;
      CanFacts(of, w);
      var rc, wrote;
      ghost var t, img0, img1;
      rc, wrote, t, img0, img1 := FWrite(fd, data, img, fat, cs);
      if can {
        WriteSucceeds(of, w, size, rc, t, img0, img1);
      }
      if rc != Ok {
        return false;
      }
      ReadsBack(of, w, size, t, img0, img1);
      ok := SeekAndRead(fd, off, data, buffer, img1, t.fat, t.cs);
    }

    lemma {:induction false} CanFacts(of: OpenFile, w: Writing)
      requires Writable(of, |w.data|, w.img, w.fat, w.cs) && of.offset == w.off && w.roomy == fv.Roomy()
      ensures IsChain(w.fat, w.cs) && 2 <= |w.fat|
      ensures 1 <= fv.v.spc
      ensures CanWrite(of, |w.data|, w.fat, w.cs) ==> w.roomy && w.off + |w.data| < ULONG
      ensures CanWrite(of, |w.data|, w.fat, w.cs) && w.off + |w.data| > of.info.size ==>
        Target(fv.v, w.off + |w.data|) <= |w.cs| + FreeCount(w.fat)
    {
      hide Target, FreeCount, EntryApart, FatVol.EntryFits, FatVol.At, FatVol.Roomy, IsChain, Linked, Backed, Mirrored;
      AtSizes(w.img, w.fat);
    }

    lemma {:induction false} AtSizes(img: Image, fat: Fat)
      requires Has(fv.v, img, fat)
      ensures 1 <= fv.v.spc && 2 <= |fat|
    {
    }

    method SeekAndRead(fd: int, off: nat, data: seq<Byte>, buffer: array<Byte>, ghost img: Image, ghost fat: Fat,
                       ghost cs: seq<nat>) returns (ok: bool)
      requires Open(fd) && fv.At(img) && FileAt(openfiles[fd], img, fat, cs) && off + |data| <= openfiles[fd].info.size
      requires |data| == buffer.Length < sizet && off + |data| < ULONG && FileBytes(fv.v, img, cs, off, |data|) == data
      modifies openfiles`offset, buffer, fv.cache, fv.cache.ring, fv.cache.disk
      ensures old(fv.Roomy()) ==> ok
      ensures ok ==> buffer[..] == data
    {
      hide FatVol.At, FileAt, FileBytes, FatVol.Roomy;
      var _, at := FLseek(fd, off, SeekSet);
      assert at == off;
      ok := ReadAll(fd, data, buffer, img, fat, cs);
    }

    method ReadAll(fd: int, ghost data: seq<Byte>, buffer: array<Byte>, ghost img: Image, ghost fat: Fat, ghost cs: seq<nat>)
      returns (ok: bool)
      requires Open(fd) && fv.At(img) && FileAt(openfiles[fd], img, fat, cs)
      requires openfiles[fd].offset + |data| <= openfiles[fd].info.size && openfiles[fd].offset + |data| < ULONG
      requires |data| == buffer.Length < sizet && FileBytes(fv.v, img, cs, openfiles[fd].offset, |data|) == data
      modifies openfiles`offset, buffer, fv.cache, fv.cache.ring, fv.cache.disk
      ensures old(fv.Roomy()) ==> ok
      ensures ok ==> buffer[..] == data
    {
      hide FatVol.At, FileAt, FileBytes, FatVol.Roomy;
      ghost var was := buffer[..];
      var rc, got := FRead(fd, buffer, buffer.Length, img, fat, cs);
      ok := rc == Ok;
      assert ok ==> buffer[..] == data + was[|data|..] == data;
    }

    lemma {:induction false} ReadsBack(of: OpenFile, w: Writing, filesize: nat, t: Change, img0: Image, img1: Image)
      requires Outcome(of, w, filesize, Ok, t, img0, img1)
      ensures FileBytes(fv.v, img1, t.cs, w.off, |w.data|) == w.data
      ensures FileAt(of, img1, t.fat, t.cs) && of.info.size >= w.off + |w.data| && fv.At(img1)
      ensures w.roomy ==> fv.Roomy()
    {
      ReadBack(fv.v, img0, t.cs, w.off, w.data, of.info.size);
    }

    // ----- what a write does to the volume

    /** A write from a well-formed start that succeeded: img0 is the disk after
        the clusters were got, img1 the disk at the end. */
    ghost predicate Effect(info: FileInfo, w: Writing, filesize: nat, t: Change, img0: Image, img1: Image) {
      var a := fv.EntryAddr(info);
      && Has(fv.v, w.img, w.fat) && IsChain(w.fat, w.cs) && Backed(fv.v, w.cs, filesize)
      && fv.EntryFits(info, w.img) && EntryApart(fv.v, w.fat, w.cs, a)
      && Got(info, w, filesize, Ok, t, img0) && Has(fv.v, img0, t.fat)
      && Linked(t.fat, t.cs) && Backed(fv.v, t.cs, filesize) && Backed(fv.v, t.cs, w.off + |w.data|)
      && img1 == Written(fv.v, img0, t.cs, w.off, w.data)
    }

    lemma {:induction false} EffectOf(of: OpenFile, w: Writing, filesize: nat, t: Change, img0: Image, img1: Image)
      requires Outcome(of, w, filesize, Ok, t, img0, img1)
      requires Has(fv.v, w.img, w.fat) && IsChain(w.fat, w.cs) && Backed(fv.v, w.cs, filesize)
      requires fv.EntryFits(of.info, w.img) && EntryApart(fv.v, w.fat, w.cs, fv.EntryAddr(of.info))
      ensures Effect(of.info, w, filesize, t, img0, img1)
    {
      hide Written, EntryApart, FatView, Got, FatVol.At, FatVol.EntryFits;
    }

    /** Getting the clusters changes nothing outside the FAT but the directory
        entry, and keeps other chains. */
    lemma {:induction false} GotKeeps(info: FileInfo, w: Writing, filesize: nat, t: Change, img0: Image)
      requires Got(info, w, filesize, Ok, t, img0) && Has(fv.v, w.img, w.fat) && IsChain(w.fat, w.cs)
      requires EntryApart(fv.v, w.fat, w.cs, fv.EntryAddr(info))
      ensures img0.Keys == w.img.Keys
      ensures forall x :: x in w.img && OutsideFat(fv.v, x) && x != fv.EntryAddr(info) ==> img0[x] == w.img[x]
      ensures w.cs <= t.cs || t.cs <= w.cs
      ensures Foreign(fv.v, w.cs, fv.EntryAddr(info)) && Foreign(fv.v, t.cs, fv.EntryAddr(info))
      ensures Mirrored(fv.v, w.img) ==> Mirrored(fv.v, img0)
    {
      hide Trunc, Target, EntryApart, Foreign;
      var target := if w.off + |w.data| > filesize then Target(fv.v, w.off + |w.data|) else 0;
      EntryForeign(fv.v, w.fat, w.cs, target, fv.EntryAddr(info));
      TruncLinks(w.fat, w.cs, target);
    }

    /** Every byte of the file outside the range that was written stays. */
    lemma {:induction false} RestOfFile(info: FileInfo, w: Writing, filesize: nat, t: Change, img0: Image, img1: Image, o: nat)
      requires Effect(info, w, filesize, t, img0, img1) && o < filesize && !(w.off <= o < w.off + |w.data|)
      ensures FileByte(fv.v, img1, t.cs, o) == FileByte(fv.v, w.img, w.cs, o)
    {
      hide Written, FileByte, Got, Foreign, EntryApart;
      GotKeeps(info, w, filesize, t, img0);
      var n := if filesize > w.off + |w.data| then filesize else w.off + |w.data|;
      WrittenByte(fv.v, img0, t.cs, w.off, w.data, n, o);
      SameBytes(fv.v, w.img, img0, w.fat, w.cs, t.cs, filesize, fv.EntryAddr(info), o);
    }

    /** Every other file keeps its chain, apart from this file's, and all its bytes. */
    lemma {:induction false} OtherFile(info: FileInfo, w: Writing, filesize: nat, t: Change, img0: Image, img1: Image,
                                       ds: seq<nat>, m: nat, o: nat)
      requires Effect(info, w, filesize, t, img0, img1)
      requires IsChain(w.fat, ds) && Disjoint(w.cs, ds) && Backed(fv.v, ds, m) && Foreign(fv.v, ds, fv.EntryAddr(info)) && o < m
      ensures IsChain(t.fat, ds) && Disjoint(t.cs, ds)
      ensures FileByte(fv.v, img1, ds, o) == FileByte(fv.v, w.img, ds, o)
    {
      OtherChainKept(info, w, filesize, t, img0, ds);
      hide Written, FileByte, Got, Foreign, EntryApart;
      GotKeeps(info, w, filesize, t, img0);
      SameBytes(fv.v, w.img, img0, w.fat, ds, ds, m, fv.EntryAddr(info), o);
      WrittenOther(fv.v, img0, t.cs, w.off, w.data, w.off + |w.data|, ds, m, o);
    }

    lemma {:induction false} OtherChainKept(info: FileInfo, w: Writing, filesize: nat, t: Change, img0: Image, ds: seq<nat>)
      requires Got(info, w, filesize, Ok, t, img0) && Has(fv.v, w.img, w.fat) && IsChain(w.fat, w.cs)
      requires IsChain(w.fat, ds) && Disjoint(w.cs, ds)
      ensures IsChain(t.fat, ds) && Disjoint(t.cs, ds)
    {
      hide Trunc, Target, IsChain, Disjoint, OnlyFat, FatVol.OnlyEntry;
      HasSizes(w.img, w.fat);
      if w.off + |w.data| > filesize {
        OtherChain(w.fat, w.cs, ds, Target(fv.v, w.off + |w.data|));
      }
      hide Has;
    }

    lemma {:induction false} HasSizes(img: Image, fat: Fat)
      requires Has(fv.v, img, fat)
      ensures 2 <= |fat| <= FAT_EOC
    {
    }

    /** Too few free clusters: the file has got all there were, and keeps its bytes,
        as every other file its chain and its bytes. */
    lemma {:induction false} NoSpaceKeeps(info: FileInfo, w: Writing, filesize: nat, t: Change, img0: Image,
                                          ds: seq<nat>, m: nat, o: nat)
      requires Got(info, w, filesize, NoSpc, t, img0) && Has(fv.v, w.img, w.fat) && IsChain(w.fat, w.cs)
      requires EntryApart(fv.v, w.fat, w.cs, fv.EntryAddr(info)) && Backed(fv.v, w.cs, filesize)
      requires IsChain(w.fat, ds) && Disjoint(w.cs, ds) && Backed(fv.v, ds, m) && Foreign(fv.v, ds, fv.EntryAddr(info))
      ensures w.cs <= t.cs && IsChain(t.fat, t.cs) && |t.cs| == |w.cs| + FreeCount(w.fat)
      ensures IsChain(t.fat, ds) && Disjoint(t.cs, ds)
      ensures o < filesize ==> FileByte(fv.v, img0, t.cs, o) == FileByte(fv.v, w.img, w.cs, o)
      ensures o < m ==> FileByte(fv.v, img0, ds, o) == FileByte(fv.v, w.img, ds, o)
    {
      hide *;
      ChangedFat(info, w, filesize, t, img0);
      var target := Target(fv.v, w.off + |w.data|);
      TruncGrows(w.fat, w.cs, target);
      TruncTakes(w.fat, w.cs, target);
      OtherChain(w.fat, w.cs, ds, target);
      InTheTable(w.fat, ds);
      EntryForeign(fv.v, w.fat, w.cs, target, fv.EntryAddr(info));
      if o < filesize {
        SameBytes(fv.v, w.img, img0, w.fat, w.cs, t.cs, filesize, fv.EntryAddr(info), o);
      }
      if o < m {
        SameBytes(fv.v, w.img, img0, w.fat, ds, ds, m, fv.EntryAddr(info), o);
      }
    }

    static lemma {:induction false} InTheTable(fat: Fat, cs: seq<nat>)
      requires IsChain(fat, cs)
      ensures InTable(fat, cs)
    {
    }

    lemma {:induction false} ChangedFat(info: FileInfo, w: Writing, filesize: nat, t: Change, img0: Image)
      requires Got(info, w, filesize, NoSpc, t, img0) && Has(fv.v, w.img, w.fat)
      ensures GoodVol(fv.v, w.img) && FatView(fv.v, w.img) == w.fat && img0.Keys == w.img.Keys
      ensures forall x :: x in w.img && OutsideFat(fv.v, x) ==> img0[x] == w.img[x]
      ensures 1 <= fv.v.spc && 2 <= |w.fat| <= FAT_EOC && InTable(w.fat, w.cs)
      ensures t == Trunc(w.fat, w.cs, Target(fv.v, w.off + |w.data|)) && t.rc == NoSpc
    {
      hide Trunc, Target;
    }

    /** A file whose clusters are ds, with m bytes, beside the one that is written. */
    ghost predicate Beside(of: OpenFile, img: Image, fat: Fat, cs: seq<nat>, ds: seq<nat>, m: nat)
      reads of.info
    {
      && IsChain(fat, ds) && Disjoint(cs, ds) && Backed(fv.v, ds, m) && Foreign(fv.v, ds, fv.EntryAddr(of.info))
      && GoodVol(fv.v, img) && FatView(fv.v, img) == fat
    }

    /** The bytes of a file are the same on both disks, apart from a range. */
    ghost predicate SameFile(img: Image, cs: seq<nat>, img1: Image, cs1: seq<nat>, n: nat, from: nat, to: nat) {
      forall o :: 0 <= o < n && !(from <= o < to) ==> FileByte(fv.v, img1, cs1, o) == FileByte(fv.v, img, cs, o)
    }

    /** A write through the cache, and what it leaves alone: the rest of the file and
        any other file, whether it succeeds or the volume is full. */
    method WriteBeside(fd: int, data: seq<Byte>, ghost img: Image, ghost fat: Fat, ghost cs: seq<nat>,
                       ghost ds: seq<nat>, ghost m: nat)
      returns (rc: Rc, ghost t: Change, ghost img1: Image)
      requires Open(fd) && fv.At(img) && SetterFits(fv.v) && Writable(openfiles[fd], |data|, img, fat, cs)
      requires Beside(openfiles[fd], img, fat, cs, ds, m)
      modifies openfiles`offset, (set of | of in openfiles :: of.info), fv.cache, fv.cache.ring, fv.cache.disk
      ensures rc == Ok || rc == NoSpc ==>
        && FileAt(openfiles[fd], img1, t.fat, t.cs) && IsChain(t.fat, ds) && Disjoint(t.cs, ds)
        && SameFile(img, ds, img1, ds, m, 0, 0)
      ensures rc == Ok || rc == NoSpc ==>
        var off := old(openfiles[fd].offset);
        SameFile(img, cs, img1, t.cs, old(openfiles[fd].info.size), off, if rc == Ok then off + |data| else off)
    {
      var of := openfiles[fd];
      ghost var w, size := Writing(img, fat, cs, of.offset, data, fv.Roomy()), of.info.size;
      WritesBeside(of, w, ds, m);
      hide *;
      var wrote;
      ghost var img0;
      rc, wrote, t, img0, img1 := FWrite(fd, data, img, fat, cs);
      if rc == Ok {
        WroteBeside(of, w, size, t, img0, img1, ds, m);
      } else if rc == NoSpc {
        img1 := img0;
        StuckBeside(of, w, size, t, img0, ds, m);
      }
    }

    /** What a write starts from, put so that it outlasts the write. */
    ghost predicate Starting(info: FileInfo, w: Writing, filesize: nat, ds: seq<nat>, m: nat) {
      && Has(fv.v, w.img, w.fat) && IsChain(w.fat, w.cs) && Backed(fv.v, w.cs, filesize)
      && EntryApart(fv.v, w.fat, w.cs, fv.EntryAddr(info)) && fv.EntryFits(info, w.img)
      && IsChain(w.fat, ds) && Disjoint(w.cs, ds) && Backed(fv.v, ds, m) && Foreign(fv.v, ds, fv.EntryAddr(info))
    }

    lemma {:induction false} WritesBeside(of: OpenFile, w: Writing, ds: seq<nat>, m: nat)
      requires Writable(of, |w.data|, w.img, w.fat, w.cs) && Beside(of, w.img, w.fat, w.cs, ds, m)
      ensures Starting(of.info, w, of.info.size, ds, m)
    {
    }

    lemma {:induction false} WroteBeside(of: OpenFile, w: Writing, filesize: nat, t: Change, img0: Image, img1: Image,
                                         ds: seq<nat>, m: nat)
      requires Starting(of.info, w, filesize, ds, m) && Outcome(of, w, filesize, Ok, t, img0, img1)
      ensures FileAt(of, img1, t.fat, t.cs) && IsChain(t.fat, ds) && Disjoint(t.cs, ds)
      ensures SameFile(w.img, ds, img1, ds, m, 0, 0)
      ensures SameFile(w.img, w.cs, img1, t.cs, filesize, w.off, w.off + |w.data|)
    {
      hide FatVol.At, FatVol.Roomy, Has, IsChain, EntryApart, Foreign, Effect, Got, Written, FileByte, FatVol.EntryFits,
           FatVol.EntryAddr, Disjoint, Backed;
      EffectOf(of, w, filesize, t, img0, img1);
      OtherChainKept(of.info, w, filesize, t, img0, ds);
      forall o | 0 <= o < m ensures FileByte(fv.v, img1, ds, o) == FileByte(fv.v, w.img, ds, o) {
        OtherFile(of.info, w, filesize, t, img0, img1, ds, m, o);
      }
      forall o | 0 <= o < filesize && !(w.off <= o < w.off + |w.data|)
        ensures FileByte(fv.v, img1, t.cs, o) == FileByte(fv.v, w.img, w.cs, o)
      {
        RestOfFile(of.info, w, filesize, t, img0, img1, o);
      }
    }

    lemma {:induction false} StuckBeside(of: OpenFile, w: Writing, filesize: nat, t: Change, img0: Image, ds: seq<nat>, m: nat)
      requires Starting(of.info, w, filesize, ds, m) && Outcome(of, w, filesize, NoSpc, t, img0, img0)
      ensures FileAt(of, img0, t.fat, t.cs) && IsChain(t.fat, ds) && Disjoint(t.cs, ds)
      ensures SameFile(w.img, ds, img0, ds, m, 0, 0) && SameFile(w.img, w.cs, img0, t.cs, filesize, w.off, w.off)
    {
      hide FatVol.At, FatVol.Roomy, Has, IsChain, EntryApart, Foreign, Got, FileByte, FatVol.EntryFits, FatVol.EntryAddr,
           Disjoint, Backed;
      NoSpaceKeeps(of.info, w, filesize, t, img0, ds, m, 0);
      forall o | 0 <= o < m ensures FileByte(fv.v, img0, ds, o) == FileByte(fv.v, w.img, ds, o) {
        NoSpaceKeeps(of.info, w, filesize, t, img0, ds, m, o);
      }
      forall o | 0 <= o < filesize ensures FileByte(fv.v, img0, t.cs, o) == FileByte(fv.v, w.img, w.cs, o) {
        NoSpaceKeeps(of.info, w, filesize, t, img0, ds, m, o);
      }
    }

    /** The directory entry on disk agrees with the file's new first cluster and
        size when the file grew, and is untouched when it did not. */
    lemma {:induction false} EntryAgrees(info: FileInfo, w: Writing, filesize: nat, t: Change, img0: Image, img1: Image)
      requires Effect(info, w, filesize, t, img0, img1) && w.off + |w.data| < 0x1_0000_0000
      ensures var a := fv.EntryAddr(info);
        && a in img1 && a in w.img && info.secoffs + 32 <= BLKSIZE
        && (if w.off + |w.data| > filesize
            then DirCluster0(img1[a], info.secoffs) == Head(t.cs) && DirSize(img1[a], info.secoffs) == w.off + |w.data|
            else img1[a] == w.img[a])
    {
      var a := fv.EntryAddr(info);
      EntryKept(info, w, filesize, t, img0, img1);
      EntryPut(info, w, filesize, t, img0);
      hide Effect, Got, FatVol.EntryAddr, PutDirent, DirCluster0, DirSize;
      if w.off + |w.data| > filesize {
        PutDirentGets(w.img[a], info.secoffs, Head(t.cs), w.off + |w.data|);
      }
    }

    lemma {:induction false} EntryPut(info: FileInfo, w: Writing, filesize: nat, t: Change, img0: Image)
      requires Got(info, w, filesize, Ok, t, img0) && fv.EntryFits(info, w.img) && Has(fv.v, img0, t.fat)
      requires Linked(t.fat, t.cs)
      ensures var a := fv.EntryAddr(info);
        && a in img0 && a in w.img && info.secoffs + 32 <= BLKSIZE && Head(t.cs) < 0x10000
        && img0[a] == (if w.off + |w.data| > filesize
                       then PutDirent(w.img[a], info.secoffs, Head(t.cs), w.off + |w.data|) else w.img[a])
    {
      hide PutDirent, Trunc, Target;
    }

    lemma {:induction false} EntryKept(info: FileInfo, w: Writing, filesize: nat, t: Change, img0: Image, img1: Image)
      requires Effect(info, w, filesize, t, img0, img1)
      ensures var a := fv.EntryAddr(info); a in img0 && a in img1 && img1[a] == img0[a]
    {
      hide Written, Got, Foreign, EntryApart, Mirrored;
      GotKeeps(info, w, filesize, t, img0);
      WrittenForeign(fv.v, img0, t.cs, w.off, w.data, w.off + |w.data|, fv.EntryAddr(info));
    }

    /** Sectors of nobody's concern stay, and the copies of the FAT stay alike. */
    lemma {:induction false} OtherSectors(info: FileInfo, w: Writing, filesize: nat, t: Change, img0: Image, img1: Image, x: Addr)
      requires Effect(info, w, filesize, t, img0, img1) && x in w.img
      requires OutsideFat(fv.v, x) && x != fv.EntryAddr(info) && Foreign(fv.v, t.cs, x)
      ensures x in img1 && img1[x] == w.img[x]
      ensures Mirrored(fv.v, w.img) ==> Mirrored(fv.v, img1)
    {
      hide Written, Got, Foreign, EntryApart, Mirrored;
      GotKeeps(info, w, filesize, t, img0);
      WrittenForeign(fv.v, img0, t.cs, w.off, w.data, w.off + |w.data|, x);
      WrittenRange(fv.v, img0, t.cs, w.off, w.data, w.off + |w.data|);
    }

    /** The file's clusters still form a chain exactly when the write stayed within
        the file's size or took it into at least one new cluster. */
    lemma {:induction false} ChainKept(info: FileInfo, w: Writing, filesize: nat, t: Change, img0: Image, img1: Image)
      requires Effect(info, w, filesize, t, img0, img1) && w.off + |w.data| + Bpc(fv.v) <= 0x1_0000_0000
      ensures IsChain(t.fat, t.cs) <==> w.off + |w.data| <= filesize || !Backed(fv.v, w.cs, w.off + |w.data|)
    {
      hide *;
      EffectChain(info, w, filesize, t, img0, img1);
      if w.off + |w.data| > filesize {
        ChainCut(w, t, w.off + |w.data|);
      }
    }

    lemma {:induction false} ChainCut(w: Writing, t: Change, length: nat)
      requires 2 <= |w.fat| <= FAT_EOC && IsChain(w.fat, w.cs) && 1 <= fv.v.spc && InTable(w.fat, w.cs)
      requires 0 < length && length + Bpc(fv.v) <= 0x1_0000_0000 && t == Trunc(w.fat, w.cs, Target(fv.v, length))
      ensures IsChain(t.fat, t.cs) <==> !Backed(fv.v, w.cs, length)
    {
      TargetEnough(length, w.cs);
      TruncStays(w.fat, w.cs, Target(fv.v, length));
      hide *;
    }

    lemma {:induction false} EffectChain(info: FileInfo, w: Writing, filesize: nat, t: Change, img0: Image, img1: Image)
      requires Effect(info, w, filesize, t, img0, img1)
      ensures 2 <= |w.fat| <= FAT_EOC && IsChain(w.fat, w.cs) && 1 <= fv.v.spc && InTable(w.fat, w.cs)
      ensures w.off + |w.data| > filesize ==> w.off + |w.data| > 0
      ensures if w.off + |w.data| > filesize then t == Trunc(w.fat, w.cs, Target(fv.v, w.off + |w.data|))
              else t == Change(Ok, w.fat, w.cs)
    {
      hide Written, Foreign, EntryApart, Mirrored, Trunc, Target;
    }

    lemma {:induction false} TargetEnough(length: nat, cs: seq<nat>)
      requires 1 <= fv.v.spc && 0 < length && length + Bpc(fv.v) <= 0x1_0000_0000
      ensures Target(fv.v, length) > 0 && (Target(fv.v, length) > |cs| <==> !Backed(fv.v, cs, length))
    {
      TargetExact(fv.v, length);
      Enough(length, Target(fv.v, length), |cs|, Bpc(fv.v));
    }

    /** Just enough clusters for a length are more than m exactly when m are too few. */
    static lemma {:induction false} Enough(length: nat, n: nat, m: nat, b: nat)
      requires 0 < b && 0 < length && length <= n * b < length + b
      ensures n > m <==> length > m * b
      ensures n > 0
    {
      if n > m {
        assert m * b <= (n - 1) * b;
      } else {
        assert n * b <= m * b;
      }
    }
  }
}

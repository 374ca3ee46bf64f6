/** The hosted block cache over whole runs: to its users it is a plain disk. */
module CacheRuns {
  import opened Bytes
  import opened Rings
  import opened CacheSpec

  /** A block got, filled with new contents and marked, or given back; and a sync. */
  datatype Event =
    | Fetch(a: Addr, overw: bool)
    | Fill(i: nat, data: Sector)
    | Give(i: nat)
    | Sync

  /** What users of the cache respect: a block is filled while it is held, and one
      that was got to be overwritten is filled before it is given back. */
  predicate Enabled(s: State, e: Event) {
    match e
    case Fetch(a, _) => a.blkno != INVALID_BLOCK
    case Fill(i, _) => i < |s.slots| && s.slots[i].inuse
    case Give(i) => i < |s.slots| && s.slots[i].inuse && !s.slots[i].stale
    case Sync => true
  }

  function Step(s: State, e: Event): State
    requires s.head < |s.slots| && Enabled(s, e)
  {
    match e
    case Fetch(a, overw) => Get(s, a, overw).2
    case Fill(i, data) => Stored(s, i, data)
    case Give(i) => Released(s, i)
    case Sync => SyncedFrom(s, 0)
  }

  /** The same on a disk without a cache. */
  function OnDisk(s: State, img: map<Addr, Sector>, e: Event): map<Addr, Sector>
    requires Enabled(s, e)
  {
    match e
    case Fill(i, data) => if s.slots[i].Key() in img then img[s.slots[i].Key() := data] else img
    case _ => img
  }

  /** The sector is cached in a block that was got to be overwritten and is not
      filled yet. */
  predicate Waiting(s: State, x: Addr) {
    var i := Find(s.slots, x);
    i < |s.slots| && s.slots[i].stale
  }

  /** Every sector reads as on img, apart from those that wait to be overwritten. */
  ghost predicate Agrees(s: State, img: map<Addr, Sector>) {
    Inv(s) && img.Keys == s.dev.Keys && forall x :: x in img ==> Waiting(s, x) || Contents(s, x) == img[x]
  }

  lemma {:induction false} WaitingSame(s: State, r: State, x: Addr)
    requires |r.slots| == |s.slots|
    requires forall j :: 0 <= j < |s.slots| ==>
      r.slots[j].unit == s.slots[j].unit && r.slots[j].blkno == s.slots[j].blkno && r.slots[j].stale == s.slots[j].stale
    ensures Waiting(r, x) == Waiting(s, x)
  {
    FindSameKeys(s.slots, r.slots, x);
  }

  /** A sector that waits goes on waiting, and one that is got to be overwritten
      waits from then on, if it is not cached. */
  lemma {:induction false} FetchWaiting(s: State, a: Addr, overw: bool, x: Addr)
    requires Inv(s) && a.blkno != INVALID_BLOCK
    ensures var (rc, i, r) := Get(s, a, overw);
      && (Waiting(s, x) ==> Waiting(r, x))
      && (rc == Ok && overw && Find(s.slots, a) == |s.slots| ==> Waiting(r, a))
  {
    var (rc, i, r) := Get(s, a, overw);
    GetKeeps(s, a, overw);
    if Waiting(s, x) {
      var j := Find(s.slots, x);
      assert SlotOk(s.slots[j], s.dev);
      assert r.slots[j].Holds(x) && r.slots[j].stale;
      FindIs(r.slots, x, j);
    }
    if rc == Ok && overw && Find(s.slots, a) == |s.slots| {
      FindIs(r.slots, a, i);
    }
  }

  lemma {:induction false} FetchAgrees(s: State, img: map<Addr, Sector>, a: Addr, overw: bool)
    requires Agrees(s, img) && a.blkno != INVALID_BLOCK
    ensures Agrees(Get(s, a, overw).2, img)
  {
    var (rc, i, r) := Get(s, a, overw);
    GetKeeps(s, a, overw);
    GetElsewhere(s, a, overw);
    forall x | x in img ensures Waiting(r, x) || Contents(r, x) == img[x] {
      FetchWaiting(s, a, overw, x);
      if x == a && !Waiting(s, a) {
        FetchSame(s, a, overw);
      } else if x != a {
        assert Contents(r, x) == Logical(s)[x] == Contents(s, x);
      }
    }
  }

  /** Getting a sector to overwrite it changes nothing, or takes the block that has
      it, or leaves it waiting. */
  lemma {:induction false} FetchOver(s: State, a: Addr)
    requires Inv(s) && a.blkno != INVALID_BLOCK
    ensures var r, hit := Get(s, a, true).2, Find(s.slots, a);
      r == s || (hit < |s.slots| && r == Pinned(s, hit)) || Waiting(r, a)
  {
    FetchWaiting(s, a, true, a);
    hide Inv, Waiting, Loaded;
  }

  lemma {:induction false} FetchSame(s: State, a: Addr, overw: bool)
    requires Inv(s) && a.blkno != INVALID_BLOCK && a in s.dev
    ensures var r := Get(s, a, overw).2; a in r.dev && (Waiting(r, a) || Contents(r, a) == Contents(s, a))
  {
    var r, hit := Get(s, a, overw).2, Find(s.slots, a);
    if !overw {
      GetKeeps(s, a, false);
      ReadsSame(s, r, a);
    } else {
      FetchOver(s, a);
      if hit < |s.slots| && r == Pinned(s, hit) {
        PinnedKeeps(s, hit);
        ReadsSame(s, r, a);
      }
      hide *;
      GetElsewhere(s, a, true);
    }
  }

  lemma {:induction false} ReadsSame(s: State, r: State, a: Addr)
    requires a in s.dev && Logical(r).Keys == Logical(s).Keys && Logical(r)[a] == Logical(s)[a]
    ensures a in r.dev && Contents(r, a) == Contents(s, a)
  {
  }

  lemma {:induction false} FillByte(s: State, i: nat, data: Sector, x: Addr)
    requires Unique(s.slots) && i < |s.slots| && s.slots[i].Cached() && x in s.dev
    ensures var r := Stored(s, i, data);
      if x == s.slots[i].Key() then Contents(r, x) == data
      else Contents(r, x) == Contents(s, x) && Waiting(r, x) == Waiting(s, x)
  {
    StoredContents(s, i, data);
    FindSameKeys(s.slots, Stored(s, i, data).slots, x);
    hide Contents;
  }

  lemma {:induction false} FillAgrees(s: State, img: map<Addr, Sector>, i: nat, data: Sector)
    requires Agrees(s, img) && i < |s.slots| && s.slots[i].inuse
    ensures Agrees(Stored(s, i, data), OnDisk(s, img, Fill(i, data)))
  {
    var r, now := Stored(s, i, data), OnDisk(s, img, Fill(i, data));
    StoredInv(s, i, data);
    forall x | x in now ensures Waiting(r, x) || Contents(r, x) == now[x] {
      FillByte(s, i, data, x);
    }
    hide Inv, Waiting, Contents;
  }

  lemma {:induction false} GiveAgrees(s: State, img: map<Addr, Sector>, i: nat)
    requires Agrees(s, img) && i < |s.slots| && !s.slots[i].stale
    ensures Agrees(Released(s, i), img)
  {
    var r := Released(s, i);
    ReleasedKeeps(s, i);
    forall x | x in img ensures Waiting(r, x) || Contents(r, x) == img[x] {
      WaitingSame(s, r, x);
      assert Logical(r)[x] == Logical(s)[x];
    }
  }

  lemma {:induction false} SyncAgrees(s: State, img: map<Addr, Sector>)
    requires Agrees(s, img)
    ensures Agrees(SyncedFrom(s, 0), img)
  {
    var r := SyncedFrom(s, 0);
    SyncedKeeps(s, 0);
    SyncedSlots(s, 0);
    assert Logical(r).Keys == r.dev.Keys && Logical(s).Keys == s.dev.Keys;
    forall x | x in img ensures Waiting(r, x) || Contents(r, x) == img[x] {
      WaitingSame(s, r, x);
      assert Logical(r)[x] == Logical(s)[x];
    }
  }

  /** Every step on the cache is that step on the disk. */
  lemma {:induction false} StepAgrees(s: State, img: map<Addr, Sector>, e: Event)
    requires Agrees(s, img) && Enabled(s, e)
    ensures Agrees(Step(s, e), OnDisk(s, img, e))
  {
    match e
    case Fetch(a, overw) => FetchAgrees(s, img, a, overw);
    case Fill(i, data) => FillAgrees(s, img, i, data);
    case Give(i) => GiveAgrees(s, img, i);
    case Sync => SyncAgrees(s, img);
  }

  ghost predicate Runs(s: State, img: map<Addr, Sector>, es: seq<Event>)
    requires Agrees(s, img)
    decreases |es|
  {
    es == [] ||
    (Enabled(s, es[0]) && (StepAgrees(s, img, es[0]); Runs(Step(s, es[0]), OnDisk(s, img, es[0]), es[1..])))
  }

  /** The cache and the disk after a run. */
  ghost function After(s: State, img: map<Addr, Sector>, es: seq<Event>): (r: (State, map<Addr, Sector>))
    requires Agrees(s, img) && Runs(s, img, es)
    ensures Agrees(r.0, r.1)
    decreases |es|
  {
    if es == [] then (s, img)
    else StepAgrees(s, img, es[0]); After(Step(s, es[0]), OnDisk(s, img, es[0]), es[1..])
  }

  /** A cache that was just set up stands for the disk behind it. */
  lemma {:induction false} BeginsAgreeing(s: State)
    requires Inv(s)
    ensures Agrees(s, Logical(s))
  {
  }

  /** A block that is got for reading holds what the disk holds. */
  lemma {:induction false} ReadsDisk(s: State, img: map<Addr, Sector>, a: Addr)
    requires Agrees(s, img) && a.blkno != INVALID_BLOCK && a in img && !Waiting(s, a)
    ensures var (rc, i, r) := Get(s, a, false); rc == Ok ==> i < |r.slots| && r.slots[i].data == img[a]
  {
    GetResult(s, a, false);
    hide Get, Inv, Waiting;
  }

  /** When nothing waits to be filled, a sync makes the devices the disk. */
  lemma {:induction false} SyncStores(s: State, img: map<Addr, Sector>)
    requires Agrees(s, img) && Quiet(s)
    ensures SyncedFrom(s, 0).dev == img
  {
    forall x | x in img ensures !Waiting(s, x) && Contents(s, x) == img[x] {
      assert !Waiting(s, x);
    }
    hide Waiting, Contents;
    SyncedDevice(s);
    assert Logical(s) == img;
  }

  /** After any run of gets, evictions, writes and syncs a block that is got for
      reading holds what the plain disk would, and a sync leaves that disk on the
      devices. */
  lemma {:induction false} RunRefines(s: State, img: map<Addr, Sector>, es: seq<Event>, a: Addr)
    requires Agrees(s, img) && Runs(s, img, es) && a.blkno != INVALID_BLOCK
    ensures var (r, now) := After(s, img, es); var (rc, i, r1) := Get(r, a, false);
      && (rc == Ok && a in now && !Waiting(r, a) ==> i < |r1.slots| && r1.slots[i].data == now[a])
      && (Quiet(r) ==> SyncedFrom(r, 0).dev == now)
  {
    var (r, now) := After(s, img, es);
    if a in now && !Waiting(r, a) {
      ReadsDisk(r, now, a);
    }
    if Quiet(r) {
      SyncStores(r, now);
    }
  }

  /** The same from a cache that was just set up for a disk. */
  lemma {:induction false} RunFromStart(s: State, disk: map<Addr, Sector>, es: seq<Event>, a: Addr)
    requires Inv(s) && Logical(s) == disk && (BeginsAgreeing(s); Runs(s, disk, es)) && a.blkno != INVALID_BLOCK
    ensures (BeginsAgreeing(s);
      var (r, now) := After(s, disk, es); var (rc, i, r1) := Get(r, a, false);
      && (rc == Ok && a in now && !Waiting(r, a) ==> i < |r1.slots| && r1.slots[i].data == now[a])
      && (Quiet(r) ==> SyncedFrom(r, 0).dev == now))
  {
    BeginsAgreeing(s);
    RunRefines(s, disk, es, a);
  }

  // ----- which block is taken

  /** A floppy's units are below 128, a hard disk's from there to 255, those of mounted
      images from 256 on; a unit exists if its driver has as many. */
  lemma {:induction false} UnitExists(units: map<DevKind, nat>, unit: nat)
    ensures HasUnit(units, unit) <==>
            || (unit < 128 && Fdd in units && unit < units[Fdd])
            || (128 <= unit < 256 && Hdd in units && unit < 128 + units[Hdd])
            || (256 <= unit && Loop in units && unit < 256 + units[Loop])
  {
  }

  /** A get of a sector that is not cached takes the first block that is not in use from
      the head on, around the ring, and the head moves behind it; a sector that is cached
      keeps its block. */
  lemma {:induction false} TakesFirstFree(s: State, a: Addr, overw: bool) returns (k: nat)
    requires Inv(s) && a.blkno != INVALID_BLOCK && Get(s, a, overw).0 == Ok
    ensures var (_, i, r) := Get(s, a, overw);
      && i < |s.slots| == |r.slots| && (forall j :: 0 <= j < |s.slots| && j != i ==> r.slots[j] == s.slots[j])
      && (if s.slots[i].Holds(a) then r.head == s.head && r.slots[i] == s.slots[i].(inuse := true)
          else
            && (forall j :: 0 <= j < |s.slots| ==> !s.slots[j].Holds(a))
            && k < |s.slots| && i == Wrap(s.head + k, |s.slots|) && !s.slots[i].inuse
            && (forall j :: 0 <= j < k ==> BusyAt(s.slots, s.head, j)) && r.head == if i + 1 == |s.slots| then 0 else i + 1)
  {
    k := 0;
    var i := Find(s.slots, a);
    if i == |s.slots| {
      i := NextFree(s.slots, s.head, 0);
      k := FirstFree(s.slots, s.head, 0);
      LoadedIs(s, i, a, overw);
    }
    hide Inv, Find, NextFree, BusyAt, Loaded, Unloaded, Flushed;
  }

  lemma {:induction false} FirstFree(slots: seq<Slot>, head: nat, from: nat) returns (k: nat)
    requires head < |slots| && from <= |slots| && NextFree(slots, head, from) < |slots|
    ensures from <= k < |slots| && NextFree(slots, head, from) == Wrap(head + k, |slots|)
    ensures forall j :: from <= j < k ==> BusyAt(slots, head, j)
    decreases |slots| - from
  {
    k := from;
    if BusyAt(slots, head, from) {
      k := FirstFree(slots, head, from + 1);
    }
  }

  lemma {:induction false} LoadedIs(s: State, i: nat, a: Addr, overw: bool)
    requires i < |s.slots|
    ensures overw || a in Flushed(s, i).dev ==>
      var r := Loaded(s, i, a, overw);
      && |r.slots| == |s.slots| && (forall j :: 0 <= j < |s.slots| && j != i ==> r.slots[j] == s.slots[j])
      && r.head == if i + 1 == |s.slots| then 0 else i + 1
  {
  }
}

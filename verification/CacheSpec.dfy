/** The write-back block cache of the hosted tools as a function of its blocks
    and the device (hosted/blkcache/blkcache.c).

    `Logical` is the disk that users of the cache see: the device, with the
    contents of cached blocks in place of what the device holds for them. */
module CacheSpec {
  import opened Bytes
  import opened Rings

  const INVALID_BLOCK: nat := 0xFFFF_FFFF
  const LOOP_UNIT: nat := 0x100

  datatype Addr = Addr(unit: nat, blkno: nat)

  datatype DevKind = Fdd | Hdd | Loop

  /** `get_device`: which driver serves a unit, and under which number. */
  function DeviceOf(unit: nat): (DevKind, nat) {
    if unit >= LOOP_UNIT then (Loop, unit - LOOP_UNIT)
    else if unit >= 0x80 then (Hdd, unit - 0x80)
    else (Fdd, unit)
  }

  /** One block: the sector it caches, its flags, and whether it was handed out
      to be overwritten and has not been filled yet. */
  datatype Slot = Slot(unit: nat, blkno: nat, inuse: bool, dirty: bool, stale: bool, data: Sector)
  {
    function Key(): Addr { Addr(unit, blkno) }

    predicate Cached() { blkno != INVALID_BLOCK }

    predicate Holds(a: Addr) { Cached() && Key() == a }
  }

  /** The blocks in ring order, where the head pointer stands, the sectors that
      exist on the devices, and how many units each driver has. */
  datatype State = State(slots: seq<Slot>, head: nat, dev: map<Addr, Sector>, units: map<DevKind, nat>)

  predicate HasUnit(units: map<DevKind, nat>, unit: nat) {
    DeviceOf(unit).0 in units && DeviceOf(unit).1 < units[DeviceOf(unit).0]
  }

  // ----- the invariant and the logical disk

  /** At most one block per sector. */
  ghost predicate Unique(slots: seq<Slot>) {
    forall i, j :: 0 <= i < j < |slots| && slots[i].Cached() && slots[j].Cached() ==> slots[i].Key() != slots[j].Key()
  }

  /** A clean block holds what the device holds; a block without a sector is
      clean and free; a block still to be filled is in use and clean. */
  ghost predicate SlotOk(b: Slot, dev: map<Addr, Sector>) {
    && (b.Cached() && !b.dirty && !b.stale && b.Key() in dev ==> b.data == dev[b.Key()])
    && (!b.Cached() ==> !b.inuse && !b.dirty)
    && (b.stale ==> b.inuse && !b.dirty)
  }

  ghost predicate Inv(s: State) {
    && s.head < |s.slots|
    && Unique(s.slots)
    && (forall i :: 0 <= i < |s.slots| ==> SlotOk(s.slots[i], s.dev))
    && (forall a :: a in s.dev ==> HasUnit(s.units, a.unit))
  }

  /** The block that caches sector a; |slots| when there is none. */
  function Find(slots: seq<Slot>, a: Addr): (i: nat)
    ensures i <= |slots|
    ensures i < |slots| ==> slots[i].Holds(a)
    ensures forall j :: 0 <= j < i ==> !slots[j].Holds(a)
  {
    if slots == [] then 0
    else if slots[0].Holds(a) then 0
    else 1 + Find(slots[1..], a)
  }

  lemma {:induction false} FindIs(slots: seq<Slot>, a: Addr, i: nat)
    requires Unique(slots) && i < |slots| && slots[i].Holds(a)
    ensures Find(slots, a) == i
  {
    assert slots[Find(slots, a)].Key() == slots[i].Key();
  }

  /** What a reader of sector a gets. */
  function Contents(s: State, a: Addr): Sector
    requires a in s.dev
  {
    var i := Find(s.slots, a);
    if i < |s.slots| then s.slots[i].data else s.dev[a]
  }

  function Logical(s: State): map<Addr, Sector> {
    map a | a in s.dev :: Contents(s, a)
  }

  lemma {:induction false} LogicalEq(s: State, r: State)
    requires r.dev.Keys == s.dev.Keys && forall a :: a in s.dev ==> Contents(r, a) == Contents(s, a)
    ensures Logical(r) == Logical(s)
  {
  }

  // ----- writing back

  function Flushed(s: State, i: nat): State
    requires i < |s.slots|
  {
    var b := s.slots[i];
    if !b.dirty then s
    else s.(slots := s.slots[i := b.(dirty := false)],
            dev := if b.Key() in s.dev && HasUnit(s.units, b.unit) then s.dev[b.Key() := b.data] else s.dev)
  }

  /** Changing flags and data of one block but not its sector. */
  lemma {:induction false} FindSameKeys(slots: seq<Slot>, now: seq<Slot>, a: Addr)
    requires |now| == |slots|
    requires forall j :: 0 <= j < |slots| ==> now[j].unit == slots[j].unit && now[j].blkno == slots[j].blkno
    ensures Find(now, a) == Find(slots, a)
  {
    assert forall j :: 0 <= j < |slots| ==> (now[j].Holds(a) <==> slots[j].Holds(a));
  }

  lemma {:induction false} FlushedInv(s: State, i: nat)
    requires Inv(s) && i < |s.slots|
    ensures Inv(Flushed(s, i)) && !Flushed(s, i).slots[i].dirty
  {
    var f := Flushed(s, i);
    forall j | 0 <= j < |f.slots| ensures SlotOk(f.slots[j], f.dev) {
      assert SlotOk(s.slots[j], s.dev);
    }
  }

  /** Writing a block back leaves the logical disk alone. */
  lemma {:induction false} FlushedKeeps(s: State, i: nat)
    requires Inv(s) && i < |s.slots|
    ensures Inv(Flushed(s, i)) && Logical(Flushed(s, i)) == Logical(s)
    ensures !Flushed(s, i).slots[i].dirty
  {
    FlushedInv(s, i);
    var f, b := Flushed(s, i), s.slots[i];
    forall a | a in s.dev ensures a in f.dev && Contents(f, a) == Contents(s, a) {
      FindSameKeys(s.slots, f.slots, a);
      if b.dirty && b.Key() == a {
        FindIs(s.slots, a, i);
      }
    }
    LogicalEq(s, f);
  }

  // ----- getting a block

  /** The first block not in use, from the k-th after the head on, in ring
      order; |slots| when there is none. */
  function NextFree(slots: seq<Slot>, head: nat, k: nat): (i: nat)
    requires head < |slots| && k <= |slots|
    ensures i <= |slots|
    ensures i < |slots| ==> !slots[i].inuse
    decreases |slots| - k
  {
    if k == |slots| then |slots|
    else if !slots[Wrap(head + k, |slots|)].inuse then Wrap(head + k, |slots|)
    else NextFree(slots, head, k + 1)
  }

  predicate BusyAt(slots: seq<Slot>, head: nat, j: nat)
    requires head < |slots| && j < |slots|
  {
    slots[Wrap(head + j, |slots|)].inuse
  }

  lemma {:induction false} NoneFree(slots: seq<Slot>, head: nat, k: nat)
    requires head < |slots| && k <= |slots|
    ensures NextFree(slots, head, k) == |slots| <==> forall j :: k <= j < |slots| ==> BusyAt(slots, head, j)
    decreases |slots| - k
  {
    if k < |slots| {
      NoneFree(slots, head, k + 1);
      assert BusyAt(slots, head, k) <==> slots[Wrap(head + k, |slots|)].inuse;
    }
  }

  lemma {:induction false} NextFreeIs(slots: seq<Slot>, head: nat, k: nat, f: nat)
    requires head < |slots| && k <= f < |slots| && !BusyAt(slots, head, f)
    requires forall j :: k <= j < f ==> BusyAt(slots, head, j)
    ensures NextFree(slots, head, k) == Wrap(head + f, |slots|)
    decreases f - k
  {
    if k < f {
      assert BusyAt(slots, head, k);
      NextFreeIs(slots, head, k + 1, f);
    }
  }

  /** Only when every block is in use is none found. */
  lemma {:induction false} AllInUse(slots: seq<Slot>, head: nat)
    requires head < |slots|
    ensures NextFree(slots, head, 0) == |slots| <==> forall i :: 0 <= i < |slots| ==> slots[i].inuse
  {
    NoneFree(slots, head, 0);
    if NextFree(slots, head, 0) == |slots| {
      forall i | 0 <= i < |slots| ensures slots[i].inuse {
        assert BusyAt(slots, head, Behind(head, i, |slots|));
      }
    }
  }

  function Pinned(s: State, i: nat): State
    requires i < |s.slots|
  {
    s.(slots := s.slots[i := s.slots[i].(inuse := true)])
  }

  /** Block i written back and loaded with sector a, or handed out unfilled. */
  function Loaded(s: State, i: nat, a: Addr, overw: bool): State
    requires i < |s.slots| && (!overw ==> a in Flushed(s, i).dev)
  {
    var f := Flushed(s, i);
    f.(slots := f.slots[i := Slot(a.unit, a.blkno, true, false, overw, if overw then s.slots[i].data else f.dev[a])],
       head := Wrap(i + 1, |s.slots|))
  }

  /** Block i written back and then not loaded, because the read failed. */
  function Unloaded(s: State, i: nat, a: Addr): State
    requires i < |s.slots|
  {
    var f := Flushed(s, i);
    f.(slots := f.slots[i := Slot(a.unit, INVALID_BLOCK, false, false, false, s.slots[i].data)],
       head := Wrap(i + 1, |s.slots|))
  }

  /** `bc_get`: the error number, the block handed out, and the new state. */
  function Get(s: State, a: Addr, overw: bool): (Rc, nat, State)
    requires s.head < |s.slots|
  {
    if !HasUnit(s.units, a.unit) then (NoDev, 0, s)
    else
      var hit := Find(s.slots, a);
      if hit < |s.slots| then (Ok, hit, Pinned(s, hit))
      else
        var i := NextFree(s.slots, s.head, 0);
        if i == |s.slots| then (NoMem, 0, s)
        else if overw || a in Flushed(s, i).dev then (Ok, i, Loaded(s, i, a, overw))
        else (Io, 0, Unloaded(s, i, a))
  }

  lemma {:induction false} PinnedKeeps(s: State, i: nat)
    requires Inv(s) && i < |s.slots| && s.slots[i].Cached()
    ensures Inv(Pinned(s, i)) && Logical(Pinned(s, i)) == Logical(s)
  {
    var r := Pinned(s, i);
    assert SlotOk(s.slots[i], s.dev);
    forall a | a in s.dev ensures Contents(r, a) == Contents(s, a) {
      FindSameKeys(s.slots, r.slots, a);
    }
    LogicalEq(s, r);
  }

  /** Replacing block i, clean and holding nothing that is asked for. */
  lemma {:induction false} FindReplaced(slots: seq<Slot>, i: nat, b: Slot, a: Addr)
    requires Unique(slots) && i < |slots| && !b.Holds(a)
    ensures Find(slots[i := b], a) ==
            if Find(slots, a) == i then |slots| else Find(slots, a)
  {
    var j := Find(slots, a);
    assert forall k :: 0 <= k < |slots| && k != i ==> slots[i := b][k] == slots[k];
    assert forall k :: 0 <= k < |slots| && slots[k].Holds(a) ==> k == j by {
      forall k | 0 <= k < |slots| && slots[k].Holds(a) ensures k == j {
        FindIs(slots, a, k);
      }
    }
  }

  /** Loading a sector that is not cached into a free block changes at most what
      is read for that sector, and that only when it is to be overwritten. */
  lemma {:induction false} LoadedKeeps(s: State, i: nat, a: Addr, overw: bool)
    requires Inv(s) && i < |s.slots| && !s.slots[i].inuse && Find(s.slots, a) == |s.slots|
    requires a.blkno != INVALID_BLOCK && HasUnit(s.units, a.unit) && (!overw ==> a in Flushed(s, i).dev)
    ensures var r := Loaded(s, i, a, overw);
      && Inv(r) && Logical(r).Keys == Logical(s).Keys
      && forall x :: x in s.dev && (x != a || !overw) ==> x in r.dev && Contents(r, x) == Contents(s, x)
  {
    FlushedKeeps(s, i);
    var f, r := Flushed(s, i), Loaded(s, i, a, overw);
    FindSameKeys(s.slots, f.slots, a);
    FlushedFree(s, i);
    assert Logical(f).Keys == f.dev.Keys && Logical(s).Keys == s.dev.Keys && Logical(r).Keys == r.dev.Keys;
    FilledInv(f, i, r.slots[i], r.head);
    forall x | x in s.dev && (x != a || !overw) ensures x in r.dev && Contents(r, x) == Contents(s, x) {
      assert Logical(f)[x] == Logical(s)[x];
      FilledContents(f, i, r.slots[i], r.head, x);
    }
    hide Inv, Contents, Flushed;
  }

  lemma {:induction false} FlushedFree(s: State, i: nat)
    requires Inv(s) && i < |s.slots| && !s.slots[i].inuse
    ensures var f := Flushed(s, i);
      && |f.slots| == |s.slots| && !f.slots[i].stale && !f.slots[i].dirty && f.slots[i].data == s.slots[i].data
      && f.units == s.units && f.head == s.head
  {
    assert SlotOk(s.slots[i], s.dev);
  }

  /** A block given to a sector that no block has. */
  lemma {:induction false} FilledInv(f: State, i: nat, b: Slot, head: nat)
    requires Inv(f) && i < |f.slots| && Find(f.slots, b.Key()) == |f.slots| && SlotOk(b, f.dev) && head < |f.slots|
    ensures Inv(f.(slots := f.slots[i := b], head := head))
  {
    LoadedUnique(f.slots, i, b);
    var r := f.slots[i := b];
    forall j | 0 <= j < |r| ensures SlotOk(r[j], f.dev) {
      assert j != i ==> SlotOk(f.slots[j], f.dev);
    }
  }

  lemma {:induction false} FilledContents(f: State, i: nat, b: Slot, head: nat, x: Addr)
    requires Inv(f) && i < |f.slots| && Find(f.slots, b.Key()) == |f.slots| && b.Cached() && x in f.dev
    requires !f.slots[i].stale && !f.slots[i].dirty && (x == b.Key() ==> b.data == f.dev[x])
    ensures Contents(f.(slots := f.slots[i := b], head := head), x) == Contents(f, x)
  {
    if x == b.Key() {
      LoadedUnique(f.slots, i, b);
      FindIs(f.slots[i := b], x, i);
    } else {
      FindReplaced(f.slots, i, b, x);
      assert SlotOk(f.slots[i], f.dev);
    }
  }

  lemma {:induction false} LoadedUnique(slots: seq<Slot>, i: nat, b: Slot)
    requires Unique(slots) && i < |slots| && Find(slots, b.Key()) == |slots|
    ensures Unique(slots[i := b])
  {
    if b.Cached() {
      assert forall k :: 0 <= k < |slots| ==> !slots[k].Holds(b.Key());
    }
  }

  // ----- filling, releasing, synchronizing

  /** The block's contents replaced and marked for writing back. */
  function Stored(s: State, i: nat, data: Sector): State
    requires i < |s.slots|
  {
    s.(slots := s.slots[i := s.slots[i].(data := data, dirty := true, stale := false)])
  }

  lemma {:induction false} StoredInv(s: State, i: nat, data: Sector)
    requires Inv(s) && i < |s.slots| && s.slots[i].inuse
    ensures Inv(Stored(s, i, data)) && s.slots[i].Cached()
  {
    var r := Stored(s, i, data);
    assert SlotOk(s.slots[i], s.dev);
    forall j | 0 <= j < |r.slots| ensures SlotOk(r.slots[j], r.dev) {
      assert SlotOk(s.slots[j], s.dev);
    }
  }

  lemma {:induction false} StoredKeeps(s: State, i: nat, data: Sector)
    requires Inv(s) && i < |s.slots| && s.slots[i].inuse
    ensures var r, a := Stored(s, i, data), s.slots[i].Key();
      && Inv(r)
      && Logical(r) == (if a in s.dev then Logical(s)[a := data] else Logical(s))
  {
    var r, a := Stored(s, i, data), s.slots[i].Key();
    StoredInv(s, i, data);
    StoredContents(s, i, data);
    StoredLogical(s, r, a, data);
  }

  lemma {:induction false} StoredLogical(s: State, r: State, a: Addr, data: Sector)
    requires r.dev == s.dev && forall x :: x in s.dev ==> Contents(r, x) == if x == a then data else Contents(s, x)
    ensures Logical(r) == (if a in s.dev then Logical(s)[a := data] else Logical(s))
  {
  }

  lemma {:induction false} StoredContents(s: State, i: nat, data: Sector)
    requires Unique(s.slots) && i < |s.slots| && s.slots[i].Cached()
    ensures var r, a := Stored(s, i, data), s.slots[i].Key();
      forall x :: x in s.dev ==> Contents(r, x) == if x == a then data else Contents(s, x)
  {
    var r, a := Stored(s, i, data), s.slots[i].Key();
    FindIs(s.slots, a, i);
    forall x | x in s.dev ensures Contents(r, x) == if x == a then data else Contents(s, x) {
      FindSameKeys(s.slots, r.slots, x);
    }
  }

  function Released(s: State, i: nat): State
    requires i < |s.slots|
  {
    s.(slots := s.slots[i := s.slots[i].(inuse := false)])
  }

  lemma {:induction false} ReleasedKeeps(s: State, i: nat)
    requires Inv(s) && i < |s.slots| && !s.slots[i].stale
    ensures Inv(Released(s, i)) && Logical(Released(s, i)) == Logical(s)
  {
    var r := Released(s, i);
    forall j | 0 <= j < |r.slots| ensures SlotOk(r.slots[j], r.dev) {
      assert SlotOk(s.slots[j], s.dev);
    }
    forall a | a in s.dev ensures Contents(r, a) == Contents(s, a) {
      FindSameKeys(s.slots, r.slots, a);
    }
    LogicalEq(s, r);
  }

  /** The blocks from the k-th after the head on, written back in ring order. */
  function SyncedFrom(s: State, k: nat): State
    requires s.head < |s.slots| && k <= |s.slots|
    decreases |s.slots| - k
  {
    if k == |s.slots| then s else SyncedFrom(Flushed(s, Wrap(s.head + k, |s.slots|)), k + 1)
  }

  lemma {:induction false} SyncedStep(s: State, k: nat)
    requires s.head < |s.slots| && k < |s.slots|
    ensures SyncedFrom(s, k) == SyncedFrom(Flushed(s, Wrap(s.head + k, |s.slots|)), k + 1)
  {
  }

  lemma {:induction false} SyncedEnd(s: State)
    requires s.head < |s.slots|
    ensures SyncedFrom(s, |s.slots|) == s
  {
  }

  lemma {:induction false} FlushedSlots(s: State, i: nat)
    requires i < |s.slots|
    ensures Flushed(s, i).slots == s.slots[i := s.slots[i].(dirty := false)] && Flushed(s, i).head == s.head
  {
    assert !s.slots[i].dirty ==> s.slots[i := s.slots[i].(dirty := false)] == s.slots;
  }

  lemma {:induction false} SyncedSlots(s: State, k: nat)
    requires s.head < |s.slots| && k <= |s.slots|
    ensures var r := SyncedFrom(s, k);
      && |r.slots| == |s.slots|
      && (forall i :: 0 <= i < |s.slots| ==> r.slots[i] == s.slots[i].(dirty := r.slots[i].dirty))
      && (forall i :: 0 <= i < |s.slots| && !s.slots[i].dirty ==> !r.slots[i].dirty)
      && (forall j :: k <= j < |s.slots| ==> CleanAt(r.slots, s.head, j))
    decreases |s.slots| - k
  {
    hide Flushed;
    if k < |s.slots| {
      var i := Wrap(s.head + k, |s.slots|);
      FlushedSlots(s, i);
      SyncedSlots(Flushed(s, i), k + 1);
      assert CleanAt(SyncedFrom(s, k).slots, s.head, k);
    }
  }

  lemma {:induction false} SyncedKeeps(s: State, k: nat)
    requires Inv(s) && k <= |s.slots|
    ensures Inv(SyncedFrom(s, k)) && Logical(SyncedFrom(s, k)) == Logical(s)
    decreases |s.slots| - k
  {
    assert s.head < |s.slots|;
    hide Inv, Logical, Flushed;
    if k < |s.slots| {
      FlushedSlots(s, Wrap(s.head + k, |s.slots|));
      FlushedKeeps(s, Wrap(s.head + k, |s.slots|));
      SyncedKeeps(Flushed(s, Wrap(s.head + k, |s.slots|)), k + 1);
    }
  }

  predicate CleanAt(slots: seq<Slot>, head: nat, j: nat)
    requires head < |slots| && j < |slots|
  {
    !slots[Wrap(head + j, |slots|)].dirty
  }

  /** After bc_sync the device holds the logical disk, which has not changed. */
  lemma {:induction false} SyncedDevice(s: State)
    requires Inv(s) && forall i :: 0 <= i < |s.slots| ==> !s.slots[i].stale
    ensures Logical(SyncedFrom(s, 0)) == Logical(s) == SyncedFrom(s, 0).dev
  {
    var r := SyncedFrom(s, 0);
    SyncedKeeps(s, 0);
    SyncedSlots(s, 0);
    forall i | 0 <= i < |r.slots| ensures !r.slots[i].dirty && !r.slots[i].stale {
      assert CleanAt(r.slots, s.head, Behind(s.head, i, |s.slots|));
    }
    CleanIsDevice(r);
  }

  lemma {:induction false} CleanIsDevice(r: State)
    requires Inv(r) && forall i :: 0 <= i < |r.slots| ==> !r.slots[i].dirty && !r.slots[i].stale
    ensures Logical(r) == r.dev
  {
    forall a | a in r.dev ensures Contents(r, a) == r.dev[a] {
      var i := Find(r.slots, a);
      if i < |r.slots| {
        assert SlotOk(r.slots[i], r.dev);
      }
    }
    assert Logical(r) == r.dev;
  }

  /** bc_get keeps the invariant, does not touch a block in use, and without
      F_BCGET_OVERW keeps the logical disk, whatever it has to evict. */
  lemma {:induction false} GetKeeps(s: State, a: Addr, overw: bool)
    requires Inv(s) && a.blkno != INVALID_BLOCK
    ensures var (rc, i, r) := Get(s, a, overw);
      && Inv(r) && |r.slots| == |s.slots| && Logical(r).Keys == Logical(s).Keys
      && (forall j :: 0 <= j < |s.slots| && s.slots[j].inuse && !(rc == Ok && j == i) ==> r.slots[j] == s.slots[j])
      && (forall j :: 0 <= j < |s.slots| && !(rc == Ok && j == i) ==> r.slots[j].inuse == s.slots[j].inuse)
      && (forall x :: x in s.dev && (x != a || !overw) ==> Logical(r)[x] == Logical(s)[x])
  {
    assert Logical(s).Keys == s.dev.Keys;
    assert s.head < |s.slots|;
    hide Inv, Logical, SlotOk;
    if HasUnit(s.units, a.unit) {
      var hit := Find(s.slots, a);
      if hit < |s.slots| {
        PinnedKeeps(s, hit);
      } else {
        var i := NextFree(s.slots, s.head, 0);
        if i < |s.slots| {
          FlushedKeeps(s, i);
          MissSlots(s, i, a, overw);
          hide Flushed, Loaded, Unloaded, Contents;
          if overw || a in Flushed(s, i).dev {
            LoadedKeeps(s, i, a, overw);
            LogicalAt(s, Loaded(s, i, a, overw), a, overw);
          } else {
            UnloadedKeeps(s, i, a);
          }
        }
      }
    }
  }

  lemma {:induction false} MissSlots(s: State, i: nat, a: Addr, overw: bool)
    requires i < |s.slots|
    ensures |Unloaded(s, i, a).slots| == |s.slots| && !Unloaded(s, i, a).slots[i].inuse
    ensures forall j :: 0 <= j < |s.slots| && j != i ==> Unloaded(s, i, a).slots[j] == s.slots[j]
    ensures overw || a in Flushed(s, i).dev ==> var r := Loaded(s, i, a, overw);
      |r.slots| == |s.slots| && forall j :: 0 <= j < |s.slots| && j != i ==> r.slots[j] == s.slots[j]
  {
  }

  lemma {:induction false} LogicalAt(s: State, r: State, a: Addr, overw: bool)
    requires forall x :: x in s.dev && (x != a || !overw) ==> x in r.dev && Contents(r, x) == Contents(s, x)
    ensures forall x :: x in s.dev && (x != a || !overw) ==> x in Logical(r) && Logical(r)[x] == Logical(s)[x]
  {
  }

  /** When bc_get fails, and what it hands out when it does not. */
  lemma {:induction false} GetResult(s: State, a: Addr, overw: bool)
    requires Inv(s) && a.blkno != INVALID_BLOCK
    ensures var (rc, i, r) := Get(s, a, overw); var cached := exists j :: 0 <= j < |s.slots| && s.slots[j].Holds(a);
      && (rc == NoDev <==> !HasUnit(s.units, a.unit))
      && (rc == NoMem <==> HasUnit(s.units, a.unit) && !cached && forall j :: 0 <= j < |s.slots| ==> s.slots[j].inuse)
      && (rc == Io ==> a !in s.dev && !overw)
      && rc in {Ok, NoDev, NoMem, Io}
      && (rc == Ok ==> i < |r.slots| && r.slots[i].Holds(a) && r.slots[i].inuse)
      && (rc == Ok ==> (r.slots[i].stale <==> if cached then s.slots[i].stale else overw))
      && (rc == Ok && a in s.dev && (!overw || cached) ==> r.slots[i].data == Logical(s)[a])
  {
    AllInUse(s.slots, s.head);
    var hit := Find(s.slots, a);
    var i := NextFree(s.slots, s.head, 0);
    if HasUnit(s.units, a.unit) && hit == |s.slots| && i < |s.slots| {
      FlushedKeeps(s, i);
      if overw || a in Flushed(s, i).dev {
        LoadedReads(s, i, a, overw);
      }
    }
  }

  lemma {:induction false} LoadedReads(s: State, i: nat, a: Addr, overw: bool)
    requires Inv(s) && i < |s.slots| && !s.slots[i].inuse && Find(s.slots, a) == |s.slots|
    requires a.blkno != INVALID_BLOCK && (!overw ==> a in Flushed(s, i).dev)
    ensures !overw && a in s.dev ==> Loaded(s, i, a, overw).slots[i].data == Logical(s)[a]
  {
    FlushedKeeps(s, i);
    FindSameKeys(s.slots, Flushed(s, i).slots, a);
    if !overw && a in s.dev {
      assert Logical(Flushed(s, i))[a] == Flushed(s, i).dev[a];
    }
  }

  lemma {:induction false} UnloadedInv(s: State, i: nat, a: Addr)
    requires Inv(s) && i < |s.slots|
    ensures Inv(Unloaded(s, i, a))
  {
    FlushedInv(s, i);
    var f, r := Flushed(s, i), Unloaded(s, i, a);
    forall j | 0 <= j < |r.slots| ensures SlotOk(r.slots[j], r.dev) {
      assert j != i ==> SlotOk(f.slots[j], f.dev);
    }
  }

  lemma {:induction false} UnloadedKeeps(s: State, i: nat, a: Addr)
    requires Inv(s) && i < |s.slots| && !s.slots[i].inuse
    ensures Inv(Unloaded(s, i, a)) && Logical(Unloaded(s, i, a)) == Logical(s)
  {
    UnloadedInv(s, i, a);
    FlushedKeeps(s, i);
    var f, r := Flushed(s, i), Unloaded(s, i, a);
    assert SlotOk(f.slots[i], f.dev) && SlotOk(s.slots[i], s.dev);
    forall x | x in f.dev ensures Contents(r, x) == Contents(f, x) {
      FindReplaced(f.slots, i, r.slots[i], x);
    }
    LogicalEq(f, r);
  }

  predicate MissAt(slots: seq<Slot>, head: nat, j: nat, a: Addr)
    requires head < |slots| && j < |slots|
  {
    !slots[Wrap(head + j, |slots|)].Holds(a)
  }

  /** A search once around the ring that meets no block with sector a. */
  lemma {:induction false} MissAll(slots: seq<Slot>, head: nat, a: Addr)
    requires head < |slots| && forall j :: 0 <= j < |slots| ==> MissAt(slots, head, j, a)
    ensures Find(slots, a) == |slots|
  {
    forall i | 0 <= i < |slots| ensures !slots[i].Holds(a) {
      assert MissAt(slots, head, Behind(head, i, |slots|), a);
    }
  }

  // ----- a user of the cache

  /** No block waits to be filled. */
  ghost predicate Quiet(s: State) {
    forall j :: 0 <= j < |s.slots| ==> !s.slots[j].stale
  }

  ghost predicate AnyFree(s: State) {
    exists j :: 0 <= j < |s.slots| && !s.slots[j].inuse
  }

  /** Every block with a sector has one that exists. */
  ghost predicate Real(s: State) {
    forall j :: 0 <= j < |s.slots| && s.slots[j].Cached() ==> s.slots[j].Key() in s.dev
  }

  /** The user holds block i with sector a, of a disk that looks like img apart
      from that sector. */
  ghost predicate Holding(s: State, i: nat, a: Addr, img: map<Addr, Sector>) {
    && Inv(s) && i < |s.slots| && s.slots[i].Holds(a) && s.slots[i].inuse
    && a in img && s.dev.Keys == img.Keys
    && (forall x :: x in img && x != a ==> Contents(s, x) == img[x])
    && (forall j :: 0 <= j < |s.slots| && j != i ==> !s.slots[j].stale)
    && Real(s)
  }

  /** The same when the block is filled. */
  ghost predicate HoldingFilled(s: State, i: nat, a: Addr, img: map<Addr, Sector>) {
    Holding(s, i, a, img) && !s.slots[i].stale && s.slots[i].data == img[a]
  }

  lemma {:induction false} FilledLogical(s: State, i: nat, a: Addr, img: map<Addr, Sector>)
    requires HoldingFilled(s, i, a, img)
    ensures Logical(s) == img && Quiet(s)
  {
    FindIs(s.slots, a, i);
    assert Contents(s, a) == img[a];
  }

  lemma {:induction false} GetFails(s: State, a: Addr, overw: bool)
    requires s.head < |s.slots|
    ensures Get(s, a, overw).0 == NoMem ==> Get(s, a, overw).2 == s
  {
  }

  /** Only the block handed out can be waiting to be filled. */
  lemma {:induction false} GetQuiet(s: State, a: Addr, overw: bool)
    requires Inv(s) && Quiet(s) && a.blkno != INVALID_BLOCK
    ensures var (rc, i, r) := Get(s, a, overw);
      forall j :: 0 <= j < |r.slots| && (rc == Ok ==> j != i) ==> !r.slots[j].stale
  {
  }

  lemma {:induction false} GetElsewhere(s: State, a: Addr, overw: bool)
    requires Inv(s) && a.blkno != INVALID_BLOCK
    ensures var r := Get(s, a, overw).2;
      && r.dev.Keys == s.dev.Keys
      && forall x :: x in s.dev && x != a ==> Contents(r, x) == Logical(s)[x]
  {
    var r := Get(s, a, overw).2;
    hide Get, Inv;
    GetKeeps(s, a, overw);
    assert Logical(r).Keys == r.dev.Keys && Logical(s).Keys == s.dev.Keys;
    forall x | x in s.dev && x != a ensures Contents(r, x) == Logical(s)[x] {
      assert Logical(r)[x] == Logical(s)[x];
    }
  }

  lemma {:induction false} GetHandsOut(s: State, a: Addr, overw: bool)
    requires Inv(s) && Quiet(s) && a in s.dev && a.blkno != INVALID_BLOCK
    ensures var (rc, i, r) := Get(s, a, overw);
      && Inv(r) && |r.slots| == |s.slots|
      && (rc == Ok || rc == NoMem) && (rc != Ok ==> !AnyFree(s))
      && (rc == Ok ==> i < |r.slots| && r.slots[i].Holds(a) && r.slots[i].inuse)
      && (rc == Ok && !overw ==> !r.slots[i].stale && r.slots[i].data == Logical(s)[a])
  {
    assert HasUnit(s.units, a.unit);
    hide Get, Inv, Logical;
    GetResult(s, a, overw);
    GetKeeps(s, a, overw);
  }

  /** A block keeps its sector, or gets the one that is asked for. */
  lemma {:induction false} GetKeys(s: State, a: Addr, overw: bool, j: nat)
    requires s.head < |s.slots| && (overw ==> a in s.dev)
    ensures var r := Get(s, a, overw).2;
      && |r.slots| == |s.slots|
      && (j < |s.slots| && r.slots[j].Cached() ==>
            (s.slots[j].Cached() && s.slots[j].Key() == r.slots[j].Key()) || (r.slots[j].Key() == a && a in r.dev))
  {
  }

  /** Only a sector that exists gets a block. */
  lemma {:induction false} GetReal(s: State, a: Addr, overw: bool)
    requires Inv(s) && Real(s) && a.blkno != INVALID_BLOCK && (overw ==> a in s.dev)
    ensures Real(Get(s, a, overw).2)
  {
    hide Get, Contents, Logical;
    var r := Get(s, a, overw).2;
    GetElsewhere(s, a, overw);
    hide Inv;
    forall j | 0 <= j < |r.slots| && r.slots[j].Cached() ensures r.slots[j].Key() in r.dev {
      GetKeys(s, a, overw, j);
    }
  }

  /** A sector that does not exist is not to be had, and nobody sees the attempt. */
  lemma {:induction false} GetMisses(s: State, a: Addr)
    requires Inv(s) && Quiet(s) && Real(s) && a !in s.dev && a.blkno != INVALID_BLOCK && HasUnit(s.units, a.unit)
    ensures var (rc, i, r) := Get(s, a, false);
      && (rc == Io || rc == NoMem)
      && Inv(r) && Quiet(r) && Real(r) && Logical(r) == Logical(s)
      && (rc == NoMem ==> r == s && !AnyFree(s))
  {
    assert Find(s.slots, a) == |s.slots|;
    GetReal(s, a, false);
    GetQuiet(s, a, false);
    AllInUse(s.slots, s.head);
    var i := NextFree(s.slots, s.head, 0);
    if i < |s.slots| {
      FlushedKeeps(s, i);
      UnloadedKeeps(s, i, a);
    }
  }

  /** While no block waits to be filled, a sector that exists can be had unless
      every block is in use. */
  lemma {:induction false} GetHolds(s: State, a: Addr, overw: bool)
    requires Inv(s) && Quiet(s) && Real(s) && a in s.dev && a.blkno != INVALID_BLOCK
    ensures var (rc, i, r) := Get(s, a, overw);
      && (rc == Ok || rc == NoMem)
      && (rc != Ok ==> r == s && !AnyFree(s))
      && (rc == Ok ==> Holding(r, i, a, Logical(s)))
      && (rc == Ok && !overw ==> HoldingFilled(r, i, a, Logical(s)))
  {
    GetHandsOut(s, a, overw);
    GetElsewhere(s, a, overw);
    GetFails(s, a, overw);
    GetQuiet(s, a, overw);
    GetReal(s, a, overw);
    hide Get, Inv, Contents, HasUnit, Real;
  }

  /** Filling the block that is held sets its sector. */
  lemma {:induction false} StoreHolds(s: State, i: nat, a: Addr, img: map<Addr, Sector>, data: Sector)
    requires Holding(s, i, a, img)
    ensures HoldingFilled(Stored(s, i, data), i, a, img[a := data])
  {
    var r := Stored(s, i, data);
    StoredInv(s, i, data);
    assert Unique(s.slots);
    hide Inv;
    forall x | x in img && x != a ensures Contents(r, x) == img[x] {
      StoredContents(s, i, data);
    }
    hide Contents;
  }

  /** Giving the block back leaves the disk as it is and a block to be had. */
  lemma {:induction false} ReleaseHolds(s: State, i: nat, a: Addr, img: map<Addr, Sector>)
    requires HoldingFilled(s, i, a, img)
    ensures var r := Released(s, i); Inv(r) && Quiet(r) && Real(r) && AnyFree(r) && Logical(r) == img
  {
    FilledLogical(s, i, a, img);
    ReleasedKeeps(s, i);
    assert !Released(s, i).slots[i].inuse;
  }
}

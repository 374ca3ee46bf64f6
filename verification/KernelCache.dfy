/** The block cache of the kernel: blocks are held by counted references, and the
    last holder's bc_put writes a changed block (kernel/blkcache.c). */
module KernelCache {
  import opened Bytes
  import opened Rings
  import opened CacheSpec

  datatype Key = NoKey | Key(a: Addr)

  /** One block: the sector it holds, how often it is held, and its contents. */
  datatype KSlot = KSlot(key: Key, inuse: nat, dirty: bool, data: Sector)

  /** How a driver's write ends: it returns 0, or, as the floppy driver does
      (kernel/fdd/FDD.C:1148), the number of bytes written; or nothing is written
      and it returns an error number. */
  datatype Write = Zero | Bytes | Failed

  /** How a driver's read ends: with all the bytes, with an answer of 0 that
      `bc_get` passes on as success, or with any other number. */
  datatype Answer = All | Nothing | Error

  datatype KState = KState(slots: seq<KSlot>, head: nat, dev: map<Addr, Sector>)

  // ----- the invariant and the disk that users see

  ghost predicate OneEach(slots: seq<KSlot>) {
    forall i, j :: 0 <= i < j < |slots| && slots[i].key != NoKey ==> slots[i].key != slots[j].key
  }

  /** A block that is held has a sector that exists, and one that is not held or
      not marked as changed is as on disk. */
  ghost predicate KSlotOk(b: KSlot, dev: map<Addr, Sector>) {
    && (b.inuse > 0 ==> b.key.Key? && b.key.a in dev)
    && (b.key.Key? && (b.inuse == 0 || !b.dirty) && b.key.a in dev ==> b.data == dev[b.key.a])
  }

  ghost predicate KInv(s: KState) {
    s.head < |s.slots| && OneEach(s.slots) && forall i :: 0 <= i < |s.slots| ==> KSlotOk(s.slots[i], s.dev)
  }

  /** The block with sector a; |slots| when there is none. */
  function Lookup(slots: seq<KSlot>, a: Addr): (i: nat)
    ensures i <= |slots|
    ensures i < |slots| ==> slots[i].key == Key(a)
    ensures forall j :: 0 <= j < i ==> slots[j].key != Key(a)
  {
    if slots == [] then 0
    else if slots[0].key == Key(a) then 0
    else 1 + Lookup(slots[1..], a)
  }

  lemma {:induction false} LookupIs(slots: seq<KSlot>, a: Addr, i: nat)
    requires OneEach(slots) && i < |slots| && slots[i].key == Key(a)
    ensures Lookup(slots, a) == i
  {
    assert slots[Lookup(slots, a)].key == slots[i].key;
  }

  function Seen(s: KState, a: Addr): Sector
    requires a in s.dev
  {
    var i := Lookup(s.slots, a);
    if i < |s.slots| then s.slots[i].data else s.dev[a]
  }

  // ----- the operations

  /** The first block from the k-th after the head on that nobody holds. */
  function Idle(slots: seq<KSlot>, head: nat, k: nat): (i: nat)
    requires head < |slots| && k <= |slots|
    ensures i <= |slots| && (i < |slots| ==> slots[i].inuse == 0)
    decreases |slots| - k
  {
    if k == |slots| then |slots|
    else if slots[Wrap(head + k, |slots|)].inuse == 0 then Wrap(head + k, |slots|)
    else Idle(slots, head, k + 1)
  }

  /** One more reference to block i. */
  function Taken(s: KState, i: nat): KState
    requires i < |s.slots|
  {
    s.(slots := s.slots[i := s.slots[i].(inuse := s.slots[i].inuse + 1)])
  }

  /** Block i given to sector a; `data` is what the buffer holds after the read. */
  function Claimed(s: KState, i: nat, a: Addr, data: Sector, ok: bool): KState
    requires i < |s.slots|
  {
    s.(slots := s.slots[i := KSlot(Key(a), if ok then 1 else 0, s.slots[i].dirty, data)], head := Wrap(i + 1, |s.slots|))
  }

  /** `bc_put` of block i.  Only a write that returns 0 takes the mark off. */
  function Given(s: KState, i: nat, w: Write): KState
    requires i < |s.slots| && s.slots[i].inuse > 0 && s.slots[i].key.Key?
  {
    var b := s.slots[i].(inuse := s.slots[i].inuse - 1);
    if b.inuse > 0 || !b.dirty then s.(slots := s.slots[i := b])
    else s.(slots := s.slots[i := b.(dirty := w != Zero)], dev := if w == Failed then s.dev else s.dev[b.key.a := b.data])
  }

  // ----- what they keep

  lemma {:induction false} LookupOther(slots: seq<KSlot>, i: nat, b: KSlot, x: Addr)
    requires OneEach(slots) && i < |slots| && b.key != Key(x)
    ensures Lookup(slots[i := b], x) == if Lookup(slots, x) == i then |slots| else Lookup(slots, x)
  {
    var j := Lookup(slots, x);
    assert forall k :: 0 <= k < |slots| && k != i ==> slots[i := b][k] == slots[k];
    forall k | 0 <= k < |slots| && slots[k].key == Key(x) ensures k == j {
      LookupIs(slots, x, k);
    }
    assert forall k :: 0 <= k < |slots| && slots[k].key == Key(x) ==> k == j;
  }

  lemma {:induction false} LookupSame(slots: seq<KSlot>, now: seq<KSlot>, x: Addr)
    requires |now| == |slots| && forall j :: 0 <= j < |slots| ==> now[j].key == slots[j].key
    ensures Lookup(now, x) == Lookup(slots, x)
  {
  }

  /** Another reference changes nothing else. */
  lemma {:induction false} TakenKeeps(s: KState, i: nat)
    requires KInv(s) && i < |s.slots| && s.slots[i].key.Key? && s.slots[i].key.a in s.dev
    ensures KInv(Taken(s, i)) && forall x :: x in s.dev ==> Seen(Taken(s, i), x) == Seen(s, x)
  {
    forall j | 0 <= j < |s.slots| ensures KSlotOk(Taken(s, i).slots[j], s.dev) {
      assert KSlotOk(s.slots[j], s.dev);
    }
    forall x | x in s.dev ensures Seen(Taken(s, i), x) == Seen(s, x) {
      LookupSame(s.slots, Taken(s, i).slots, x);
    }
  }

  /** Claiming a block nobody holds for a sector that no block has keeps the
      invariant exactly when the buffer holds the sector then: after a failed read
      it usually does not, and the block answers for the sector all the same. */
  lemma {:induction false} ClaimedKeeps(s: KState, i: nat, a: Addr, data: Sector, ok: bool)
    requires KInv(s) && i < |s.slots| && s.slots[i].inuse == 0 && Lookup(s.slots, a) == |s.slots| && a in s.dev
    requires ok ==> data == s.dev[a]
    ensures KInv(Claimed(s, i, a, data, ok)) <==> data == s.dev[a]
    ensures forall x :: x in s.dev && x != a ==> Seen(Claimed(s, i, a, data, ok), x) == Seen(s, x)
    ensures Seen(Claimed(s, i, a, data, ok), a) == data && Seen(s, a) == s.dev[a]
  {
    var r := Claimed(s, i, a, data, ok);
    assert KSlotOk(s.slots[i], s.dev);
    ClaimedOneEach(s.slots, i, r.slots[i], a);
    LookupIs(r.slots, a, i);
    forall x | x in s.dev && x != a ensures Seen(r, x) == Seen(s, x) {
      LookupOther(s.slots, i, r.slots[i], x);
    }
    if data == s.dev[a] {
      forall j | 0 <= j < |r.slots| ensures KSlotOk(r.slots[j], r.dev) {
        assert j != i ==> KSlotOk(s.slots[j], s.dev);
      }
    } else {
      assert !KSlotOk(r.slots[i], r.dev);
    }
  }

  lemma {:induction false} ClaimedOneEach(slots: seq<KSlot>, i: nat, b: KSlot, a: Addr)
    requires OneEach(slots) && i < |slots| && Lookup(slots, a) == |slots| && b.key == Key(a)
    ensures OneEach(slots[i := b])
  {
  }

  /** Giving a block back when what has to be written is written keeps the
      invariant; the last holder of a block leaves it on the device.  With a driver
      that returns the number of bytes the block stays marked, which does no harm. */
  lemma {:induction false} GivenKeeps(s: KState, i: nat, w: Write)
    requires KInv(s) && i < |s.slots| && s.slots[i].inuse > 0 && w != Failed
    ensures KSlotOk(s.slots[i], s.dev)
    ensures var r := Given(s, i, w);
      && KInv(r) && r.dev.Keys == s.dev.Keys && r.slots[i].inuse == s.slots[i].inuse - 1
      && (r.slots[i].inuse == 0 ==> r.dev[s.slots[i].key.a] == s.slots[i].data)
      && (r.slots[i].inuse == 0 && s.slots[i].dirty ==> (r.slots[i].dirty <==> w == Bytes))
  {
    var r := Given(s, i, w);
    assert KSlotOk(s.slots[i], s.dev);
    forall j | 0 <= j < |s.slots| ensures KSlotOk(r.slots[j], r.dev) {
      assert KSlotOk(s.slots[j], s.dev);
      assert j != i ==> s.slots[j].key != s.slots[i].key;
    }
  }

  /** It leaves the disk that users see alone. */
  lemma {:induction false} GivenSeen(s: KState, i: nat, w: Write, x: Addr)
    requires KInv(s) && i < |s.slots| && s.slots[i].inuse > 0 && w != Failed && x in s.dev
    ensures KSlotOk(s.slots[i], s.dev)
    ensures x in Given(s, i, w).dev && Seen(Given(s, i, w), x) == Seen(s, x)
  {
    LookupSame(s.slots, Given(s, i, w).slots, x);
    if x == s.slots[i].key.a {
      LookupIs(s.slots, x, i);
    }
  }

  /** A write that fails in the last bc_put breaks the invariant exactly when there
      was something new to be written: the block may be claimed for another sector
      then, and the change is gone. */
  lemma {:induction false} GivenFails(s: KState, i: nat)
    requires KInv(s) && i < |s.slots| && s.slots[i].inuse > 0
    ensures KSlotOk(s.slots[i], s.dev)
    ensures KInv(Given(s, i, Failed)) <==> s.slots[i].inuse > 1 || s.slots[i].data == s.dev[s.slots[i].key.a]
  {
    var r := Given(s, i, Failed);
    assert KSlotOk(s.slots[i], s.dev);
    if s.slots[i].inuse > 1 || s.slots[i].data == s.dev[s.slots[i].key.a] {
      forall j | 0 <= j < |s.slots| ensures KSlotOk(r.slots[j], r.dev) {
        assert KSlotOk(s.slots[j], s.dev);
      }
    } else {
      assert !KSlotOk(r.slots[i], r.dev);
    }
  }

  /** When nobody holds a block the device has everything. */
  lemma {:induction false} NothingHeld(s: KState)
    requires KInv(s) && forall i :: 0 <= i < |s.slots| ==> s.slots[i].inuse == 0
    ensures forall x :: x in s.dev ==> Seen(s, x) == s.dev[x]
  {
    forall x | x in s.dev ensures Seen(s, x) == s.dev[x] {
      var i := Lookup(s.slots, x);
      if i < |s.slots| {
        assert KSlotOk(s.slots[i], s.dev);
      }
    }
  }

  /** A holder puts new contents into its block and marks it. */
  function Changed(s: KState, i: nat, data: Sector): KState
    requires i < |s.slots|
  {
    s.(slots := s.slots[i := s.slots[i].(data := data, dirty := true)])
  }

  lemma {:induction false} ChangedKeeps(s: KState, i: nat, data: Sector)
    requires KInv(s) && i < |s.slots| && s.slots[i].inuse > 0
    ensures KSlotOk(s.slots[i], s.dev) && KInv(Changed(s, i, data))
    ensures forall x :: x in s.dev ==> Seen(Changed(s, i, data), x) == if x == s.slots[i].key.a then data else Seen(s, x)
  {
    var r := Changed(s, i, data);
    assert KSlotOk(s.slots[i], s.dev);
    forall j | 0 <= j < |s.slots| ensures KSlotOk(r.slots[j], r.dev) {
      assert KSlotOk(s.slots[j], s.dev);
    }
    LookupIs(s.slots, s.slots[i].key.a, i);
    forall x | x in s.dev ensures Seen(r, x) == if x == s.slots[i].key.a then data else Seen(s, x) {
      LookupSame(s.slots, r.slots, x);
    }
  }

  // ----- runs

  datatype Event = Fetch(a: Addr) | Change(i: nat, data: Sector) | Give(i: nat, w: Write)

  /** What happens while every access to the disk succeeds: some block can be had
      for a sector that exists, and blocks are changed and given back by those who
      hold them. */
  ghost predicate Enabled(s: KState, e: Event) {
    match e
    case Fetch(a) => a in s.dev && s.head < |s.slots| && (Lookup(s.slots, a) < |s.slots| || Idle(s.slots, s.head, 0) < |s.slots|)
    case Change(i, _) => i < |s.slots| && s.slots[i].inuse > 0
    case Give(i, w) => i < |s.slots| && s.slots[i].inuse > 0 && w != Failed
  }

  function Fetched(s: KState, a: Addr): KState
    requires s.head < |s.slots| && a in s.dev
  {
    var hit, idle := Lookup(s.slots, a), Idle(s.slots, s.head, 0);
    if hit < |s.slots| then Taken(s, hit) else if idle == |s.slots| then s else Claimed(s, idle, a, s.dev[a], true)
  }

  ghost function Step(s: KState, e: Event): KState
    requires KInv(s) && Enabled(s, e)
  {
    match e
    case Fetch(a) => Fetched(s, a)
    case Change(i, data) => Changed(s, i, data)
    case Give(i, w) => assert KSlotOk(s.slots[i], s.dev); Given(s, i, w)
  }

  /** The same on a disk without a cache. */
  ghost function OnDisk(s: KState, img: map<Addr, Sector>, e: Event): map<Addr, Sector>
    requires KInv(s) && Enabled(s, e)
  {
    match e
    case Change(i, data) => assert KSlotOk(s.slots[i], s.dev); img[s.slots[i].key.a := data]
    case _ => img
  }

  ghost predicate Agrees(s: KState, img: map<Addr, Sector>) {
    KInv(s) && img.Keys == s.dev.Keys && forall x :: x in img ==> Seen(s, x) == img[x]
  }

  /** Every step on the cache is that step on the disk. */
  lemma {:induction false} StepAgrees(s: KState, img: map<Addr, Sector>, e: Event)
    requires Agrees(s, img) && Enabled(s, e)
    ensures Agrees(Step(s, e), OnDisk(s, img, e))
  {
    match e
    case Fetch(a) => FetchAgrees(s, img, a);
    case Change(i, data) => ChangeAgrees(s, img, i, data);
    case Give(i, w) => GiveAgrees(s, img, i, w);
  }

  lemma {:induction false} FetchAgrees(s: KState, img: map<Addr, Sector>, a: Addr)
    requires Agrees(s, img) && Enabled(s, Fetch(a))
    ensures Agrees(Fetched(s, a), img)
  {
    var hit, idle := Lookup(s.slots, a), Idle(s.slots, s.head, 0);
    if hit < |s.slots| {
      TakenKeeps(s, hit);
    } else {
      ClaimedKeeps(s, idle, a, s.dev[a], true);
    }
    hide KInv, Seen, Idle;
  }

  lemma {:induction false} ChangeAgrees(s: KState, img: map<Addr, Sector>, i: nat, data: Sector)
    requires Agrees(s, img) && Enabled(s, Change(i, data))
    ensures Agrees(Changed(s, i, data), OnDisk(s, img, Change(i, data)))
  {
    ChangedKeeps(s, i, data);
    hide KInv, Seen;
  }

  lemma {:induction false} GiveAgrees(s: KState, img: map<Addr, Sector>, i: nat, w: Write)
    requires Agrees(s, img) && Enabled(s, Give(i, w))
    ensures KSlotOk(s.slots[i], s.dev) && Agrees(Given(s, i, w), img)
  {
    GivenKeeps(s, i, w);
    forall x | x in img ensures x in Given(s, i, w).dev && Seen(Given(s, i, w), x) == img[x] {
      GivenSeen(s, i, w, x);
    }
    hide KInv, Seen;
  }

  ghost predicate Runs(s: KState, img: map<Addr, Sector>, es: seq<Event>)
    requires Agrees(s, img)
    decreases |es|
  {
    es == [] ||
    (Enabled(s, es[0]) && (StepAgrees(s, img, es[0]); Runs(Step(s, es[0]), OnDisk(s, img, es[0]), es[1..])))
  }

  ghost function After(s: KState, img: map<Addr, Sector>, es: seq<Event>): (r: (KState, map<Addr, Sector>))
    requires Agrees(s, img) && Runs(s, img, es)
    ensures Agrees(r.0, r.1)
    decreases |es|
  {
    if es == [] then (s, img)
    else StepAgrees(s, img, es[0]); After(Step(s, es[0]), OnDisk(s, img, es[0]), es[1..])
  }

  /** After any run the sectors read as on the plain disk, and once nobody holds a
      block that disk is on the devices, without a sync. */
  lemma {:induction false} RunRefines(s: KState, img: map<Addr, Sector>, es: seq<Event>)
    requires Agrees(s, img) && Runs(s, img, es)
    ensures var (r, now) := After(s, img, es);
      && (forall x :: x in now ==> x in r.dev && Seen(r, x) == now[x])
      && ((forall i :: 0 <= i < |r.slots| ==> r.slots[i].inuse == 0) ==> r.dev == now)
  {
    var (r, now) := After(s, img, es);
    if forall i :: 0 <= i < |r.slots| ==> r.slots[i].inuse == 0 {
      NothingHeld(r);
      assert forall x :: x in now ==> r.dev[x] == now[x];
    }
  }

  /** A cache of one block: its sector is fetched and changed, the write in the put
      fails, and fetching another sector takes the block: the change is gone, and the
      first sector reads as it did before. */
  lemma {:induction false} WriteLost(a: Addr, b: Addr, d0: Sector, d1: Sector, data: Sector)
    returns (s0: KState, s2: KState, s3: KState, s4: KState)
    requires a != b && data != d0
    ensures s0 == KState([KSlot(NoKey, 0, false, d1)], 0, map[a := d0, b := d1]) && Agrees(s0, s0.dev)
    ensures Enabled(s0, Fetch(a)) && |Fetched(s0, a).slots| == 1 && s2 == Changed(Fetched(s0, a), 0, data)
    ensures |s2.slots| == 1 && s2.slots[0].inuse == 1 && s2.slots[0].key == Key(a) && a in s2.dev && Seen(s2, a) == data
    ensures s3 == Given(s2, 0, Failed) && s3.head < |s3.slots| && b in s3.dev && s4 == Fetched(s3, b)
    ensures a in s4.dev && Seen(s4, a) == d0 && |s4.slots| == 1 && s4.slots[0].key == Key(b)
  {
    s0 := KState([KSlot(NoKey, 0, false, d1)], 0, map[a := d0, b := d1]);
    assert Lookup(s0.slots, a) == 1 && Idle(s0.slots, 0, 0) == 0;
    var s1 := Fetched(s0, a);
    assert s1 == KState([KSlot(Key(a), 1, false, d0)], 0, s0.dev);
    s2 := Changed(s1, 0, data);
    assert s2 == KState([KSlot(Key(a), 1, true, data)], 0, s0.dev);
    assert Lookup(s2.slots, a) == 0;
    s3 := Given(s2, 0, Failed);
    assert s3 == KState([KSlot(Key(a), 0, true, data)], 0, s0.dev);
    assert Lookup(s3.slots, b) == 1 && Idle(s3.slots, 0, 0) == 0;
    s4 := Fetched(s3, b);
    assert s4 == KState([KSlot(Key(b), 1, true, d1)], 0, s0.dev);
    assert Lookup(s4.slots, a) == 1;
  }

  // ----- the search around the ring

  ghost predicate HeldAt(slots: seq<KSlot>, head: nat, j: nat)
    requires head < |slots| && j < |slots|
  {
    slots[Wrap(head + j, |slots|)].inuse > 0
  }

  ghost predicate OtherAt(slots: seq<KSlot>, head: nat, j: nat, a: Addr)
    requires head < |slots| && j < |slots|
  {
    slots[Wrap(head + j, |slots|)].key != Key(a)
  }

  lemma {:induction false} OtherAll(slots: seq<KSlot>, head: nat, a: Addr)
    requires head < |slots| && forall j :: 0 <= j < |slots| ==> OtherAt(slots, head, j, a)
    ensures Lookup(slots, a) == |slots|
  {
    forall i | 0 <= i < |slots| ensures slots[i].key != Key(a) {
      assert OtherAt(slots, head, Behind(head, i, |slots|), a);
    }
  }

  lemma {:induction false} IdleIs(slots: seq<KSlot>, head: nat, k: nat, f: nat)
    requires head < |slots| && k <= f <= |slots| && (f < |slots| ==> !HeldAt(slots, head, f))
    requires forall j :: k <= j < f ==> HeldAt(slots, head, j)
    ensures Idle(slots, head, k) == if f < |slots| then Wrap(head + f, |slots|) else |slots|
    decreases f - k
  {
    if k < f {
      assert HeldAt(slots, head, k);
      IdleIs(slots, head, k + 1, f);
    }
  }

  // ----- the ring in memory

  class KBlock {
    var next: KBlock?
    var key: Key
    var inuse: nat
    var dirty: bool
    var data: Sector
    ghost var pos: nat

    constructor (data: Sector)
      ensures key == NoKey && inuse == 0 && !dirty && this.data == data
    {
      next, key, inuse, dirty, this.data := null, NoKey, 0, false, data;
    }
  }

  ghost function SlotOf(b: KBlock): KSlot
    reads b
  {
    KSlot(b.key, b.inuse, b.dirty, b.data)
  }

  class KCache {
    var blocklist: KBlock?
    var dev: map<Addr, Sector>  // what the devices hold
    ghost var ring: seq<KBlock>
    ghost var at: nat

    ghost predicate Wired()
      reads this, ring
    {
      && at < |ring| && blocklist == ring[at]
      && (forall i {:trigger ring[i]} :: 0 <= i < |ring| ==> ring[i].pos == i)
      && (forall i {:trigger ring[i].next} :: 0 <= i < |ring| ==> ring[i].next == ring[Wrap(i + 1, |ring|)])
    }

    ghost function View(): KState
      reads this, ring
    {
      KState(seq(|ring|, i requires 0 <= i < |ring| reads this, ring => SlotOf(ring[i])), at, dev)
    }

    ghost predicate IsAt(b: KBlock, i: nat)
      reads this
    {
      i < |ring| && ring[i] == b
    }

    lemma {:induction false} Around(j: nat)
      requires Wired() && j < |ring|
      ensures var b := ring[Wrap(at + j, |ring|)];
        b.next == (if j + 1 == |ring| then blocklist else ring[Wrap(at + j + 1, |ring|)])
      ensures j + 1 < |ring| ==> ring[Wrap(at + j + 1, |ring|)] != blocklist
    {
      NextPlace(at, j, |ring|);
      assert ring[Wrap(at + j, |ring|)].next == ring[Wrap(Wrap(at + j, |ring|) + 1, |ring|)];
    }

    /** What the search has met of the first j blocks. */
    ghost predicate Met(s: KState, a: Addr, j: nat, free: KBlock?, f: nat)
      requires at == s.head < |s.slots| == |ring| && j <= |s.slots|
      reads this
    {
      && f <= j
      && (forall k :: 0 <= k < j ==> OtherAt(s.slots, s.head, k, a))
      && (forall k :: 0 <= k < f ==> HeldAt(s.slots, s.head, k))
      && (if free == null then f == j
          else f < j && !HeldAt(s.slots, s.head, f) && free == ring[Wrap(at + f, |ring|)])
    }

    /** The search of `bc_get`: the block with the sector, or else the first one from
        the head on that nobody holds. */
    method Search(a: Addr, ghost s: KState) returns (hit: KBlock?, free: KBlock?, ghost i: nat)
      requires Wired() && View() == s
      ensures hit != null ==> IsAt(hit, i) && s.slots[i].key == Key(a)
      ensures hit == null ==> Met(s, a, |ring|, free, i)
    {
      free := null;
      var b := blocklist;
      ghost var j, n, f := 0, |ring|, 0;
      assert 0 < n && at < n && b == ring[Wrap(at, n)] && at == s.head && n == |s.slots|;
      hide Wired, View, Met, OtherAt, HeldAt;
      MetNone(s, a);
      while true
        invariant 0 <= j < n && b == ring[Wrap(at + j, n)] && Met(s, a, j, free, f)
        decreases n - j
      {
        BlockAt(s, a, j);
        if b.key == Key(a) {
          hit := b;
          i := Wrap(at + j, n);
          return;
        }
        MetNext(s, a, j, free, f);
        if free == null {
          if b.inuse == 0 {
            free := b;
          } else {
            f := f + 1;
          }
        }
        Around(j);
        b := b.next;
        if b == blocklist {
          break;
        }
        j := j + 1;
      }
      hit := null;
      i := f;
    }

    lemma {:induction false} BlockAt(s: KState, a: Addr, j: nat)
      requires Wired() && View() == s && j < |ring|
      ensures var b := ring[Wrap(at + j, |ring|)];
        && (s.slots[Wrap(at + j, |ring|)].key == b.key)
        && (OtherAt(s.slots, s.head, j, a) <==> b.key != Key(a)) && (HeldAt(s.slots, s.head, j) <==> b.inuse > 0)
    {
      assert s.slots[Wrap(at + j, |ring|)] == SlotOf(ring[Wrap(at + j, |ring|)]);
    }

    lemma {:induction false} MetNone(s: KState, a: Addr)
      requires at == s.head < |s.slots| == |ring|
      ensures Met(s, a, 0, null, 0)
    {
    }

    lemma {:induction false} MetNext(s: KState, a: Addr, j: nat, free: KBlock?, f: nat)
      requires at == s.head < |s.slots| == |ring| && j < |ring| && Met(s, a, j, free, f) && OtherAt(s.slots, s.head, j, a)
      ensures free != null ==> Met(s, a, j + 1, free, f)
      ensures free == null && HeldAt(s.slots, s.head, j) ==> Met(s, a, j + 1, null, f + 1)
      ensures free == null && !HeldAt(s.slots, s.head, j) ==> Met(s, a, j + 1, ring[Wrap(at + j, |ring|)], f)
    {
    }

    /** What the search found, as the specification says it. */
    lemma {:induction false} SearchIs(s: KState, a: Addr, hit: KBlock?, free: KBlock?, i: nat)
      requires at == s.head < |s.slots| == |ring| && OneEach(s.slots)
      requires hit != null ==> IsAt(hit, i) && s.slots[i].key == Key(a)
      requires hit == null ==> Met(s, a, |ring|, free, i)
      ensures hit != null ==> Lookup(s.slots, a) == i
      ensures hit == null ==> Lookup(s.slots, a) == |s.slots|
      ensures hit == null ==> (free == null <==> Idle(s.slots, s.head, 0) == |s.slots|)
      ensures hit == null && free != null ==> IsAt(free, Idle(s.slots, s.head, 0))
    {
      if hit != null {
        LookupIs(s.slots, a, i);
      } else {
        OtherAll(s.slots, s.head, a);
        IdleIs(s.slots, s.head, 0, i);
      }
    }

    /** `bc_get`; `junk` is what a read that fails leaves in the buffer.  Finding
        every block held is a panic.  When the driver answers 0 it returns success
        although nobody holds the block then. */
    method BcGet(a: Addr, answer: Answer, junk: Sector) returns (panic: bool, rc: Rc, block: KBlock?, ghost i: nat)
      requires Wired() && KInv(View())
      modifies this`blocklist, this`at, ring
      ensures ring == old(ring) && Wired() && dev == old(dev)
      ensures var s := old(View()); var hit, idle := Lookup(s.slots, a), Idle(s.slots, s.head, 0);
        var read := answer == All && a in s.dev;
        if hit < |s.slots| then !panic && rc == Ok && i == hit && View() == Taken(s, hit)
        else if idle == |s.slots| then panic && View() == s
        else !panic && rc == (if read || answer == Nothing then Ok else Io) && i == idle &&
             View() == Claimed(s, idle, a, if read then s.dev[a] else junk, read)
      ensures !panic ==> block != null && IsAt(block, i)
    {
      ghost var s := View();
      var hit, free;
      hit, free, i := Search(a, s);
      SearchIs(s, a, hit, free, i);
      hide Lookup, Idle, KInv;
      panic, rc, block := false, Ok, hit;
      if hit != null {
        Count(hit, i);
        return;
      }
      i := Idle(s.slots, s.head, 0);
      block := free;
      if free == null {
        panic := true;
        return;
      }
      assert s.slots[i] == SlotOf(free);
      rc := Claim(free, i, a, answer, junk);
    }

    method Count(b: KBlock, ghost i: nat)
      requires Wired() && IsAt(b, i)
      modifies b`inuse
      ensures Wired() && View() == Taken(old(View()), i)
    {
      ghost var s := View();
      b.inuse := b.inuse + 1;
      assert View().slots == Taken(s, i).slots;
    }

    method Claim(b: KBlock, ghost i: nat, a: Addr, answer: Answer, junk: Sector) returns (rc: Rc)
      requires Wired() && IsAt(b, i) && b.inuse == 0
      modifies this`blocklist, this`at, b
      ensures ring == old(ring) && Wired() && dev == old(dev)
      ensures rc == if (answer == All && a in dev) || answer == Nothing then Ok else Io
      ensures var read := answer == All && a in old(dev);
        View() == Claimed(old(View()), i, a, if read then old(dev)[a] else junk, read)
    {
      var read := answer == All && a in dev;
      SetHead(b, i);
      SetBlock(b, i, a, if read then 1 else 0, if read then dev[a] else junk);
      rc := if read || answer == Nothing then Ok else Io;
    }

    /** The head of the ring moves on behind the block. */
    method SetHead(b: KBlock, ghost i: nat)
      requires Wired() && IsAt(b, i)
      modifies this`blocklist, this`at
      ensures Wired() && View() == old(View()).(head := Wrap(i + 1, |ring|))
    {
      ghost var s := View();
      blocklist := b.next;
      at := Wrap(i + 1, |ring|);
      assert View().slots == s.slots;
    }

    method SetBlock(b: KBlock, ghost i: nat, a: Addr, inuse: nat, data: Sector)
      requires Wired() && IsAt(b, i)
      modifies b`key, b`inuse, b`data
      ensures Wired()
      ensures View() == old(View()).(slots := old(View()).slots[i := KSlot(Key(a), inuse, b.dirty, data)])
    {
      ghost var s := View();
      assert forall j {:trigger ring[j]} :: 0 <= j < |ring| && j != i ==> ring[j] != b;
      b.key, b.inuse, b.data := Key(a), inuse, data;
      assert View().slots == s.slots[i := KSlot(Key(a), inuse, b.dirty, data)];
    }

    /** `bc_put`; a block that is not in the ring or not held is a panic.  Whatever
        the driver returns other than 0 is returned; here that is Io. */
    method BcPut(block: KBlock, w: Write) returns (panic: bool, rc: Rc)
      requires Wired() && KInv(View())
      modifies block, this`dev
      ensures ring == old(ring) && Wired()
      ensures panic <==> block !in ring || old(block.inuse) == 0
      ensures panic ==> View() == old(View())
      ensures !panic ==> forall i: nat :: IsAt(block, i) ==>
        old(View()).slots[i].inuse > 0 && old(View()).slots[i].key.Key? && View() == Given(old(View()), i, w)
      ensures !panic ==> rc == if old(block.inuse) == 1 && old(block.dirty) && w != Zero then Io else Ok
    {
      ghost var s := View();
      rc := Ok;
      var found := InRing(block, s);
      panic := !found || block.inuse == 0;
      if panic {
        return;
      }
      ghost var i: nat :| i < |ring| && ring[i] == block;
      assert s.slots[i] == SlotOf(block) && KSlotOk(s.slots[i], s.dev);
      assert forall k: nat :: IsAt(block, k) ==> k == i;
      rc := Release(block, i, w);
    }

    method Release(b: KBlock, ghost i: nat, w: Write) returns (rc: Rc)
      requires Wired() && IsAt(b, i) && b.inuse > 0 && b.key.Key? && View().slots[i] == SlotOf(b)
      modifies b, this`dev
      ensures ring == old(ring) && Wired() && View() == Given(old(View()), i, w)
      ensures rc == if old(b.inuse) == 1 && old(b.dirty) && w != Zero then Io else Ok
    {
      ghost var s := View();
      hide KSlotOk, KInv;
      assert forall j {:trigger ring[j]} :: 0 <= j < |ring| && j != i ==> ring[j] != b;
      rc := Ok;
      b.inuse := b.inuse - 1;
      if b.inuse == 0 && b.dirty {
        if w != Failed {
          dev := dev[b.key.a := b.data];
        }
        if w == Zero {
          b.dirty := false;
        } else {
          rc := Io;
        }
      }
      assert View().slots == Given(s, i, w).slots;
    }

    ghost predicate NotAt(b: KBlock, j: nat)
      requires at < |ring| && j < |ring|
      reads this
    {
      ring[Wrap(at + j, |ring|)] != b
    }

    method InRing(block: KBlock, ghost s: KState) returns (found: bool)
      requires Wired() && View() == s
      ensures Wired() && View() == s && (found <==> block in ring)
    {
      var b := blocklist;
      ghost var j, n := 0, |ring|;
      while b != block
        invariant 0 <= j < n && b == ring[Wrap(at + j, n)] && forall k :: 0 <= k < j ==> NotAt(block, k)
        decreases n - j
      {
        Around(j);
        assert NotAt(block, j);
        b := b.next;
        if b == blocklist {
          forall i | 0 <= i < n ensures ring[i] != block {
            assert NotAt(block, Behind(at, i, n));
          }
          return false;
        }
        j := j + 1;
      }
      return true;
    }
  }
}

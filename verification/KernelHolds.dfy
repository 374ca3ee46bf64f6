/** Who holds the blocks of the kernel's cache, counted by the gets and the puts. */
module KernelHolds {
  import opened Bytes
  import opened Rings
  import opened CacheSpec
  import opened KernelCache

  /** A get that is met adds one holder to the block with the sector.  If no block has it,
      that is the first one from the head on, around the ring, that nobody holds, and the
      head moves behind it.  No other block is touched. */
  lemma {:induction false} FetchIs(s: KState, a: Addr) returns (i: nat, k: nat)
    requires KInv(s) && KernelCache.Enabled(s, KernelCache.Fetch(a))
    ensures var r := Fetched(s, a);
      && i < |s.slots| == |r.slots| && r.dev == s.dev
      && r.slots[i].key == Key(a) && r.slots[i].inuse == s.slots[i].inuse + 1 && r.slots[i].data == Seen(s, a)
      && (forall j :: 0 <= j < |s.slots| && j != i ==> r.slots[j] == s.slots[j])
      && (if s.slots[i].key == Key(a) then r.head == s.head
          else
            && (forall j :: 0 <= j < |s.slots| ==> s.slots[j].key != Key(a))
            && k < |s.slots| && i == Wrap(s.head + k, |s.slots|) && s.slots[i].inuse == 0
            && (forall j :: 0 <= j < k ==> HeldAt(s.slots, s.head, j)) && r.head == if i + 1 == |s.slots| then 0 else i + 1)
  {
    i, k := Lookup(s.slots, a), 0;
    if i == |s.slots| {
      i := Idle(s.slots, s.head, 0);
      k := FirstIdle(s.slots, s.head, 0);
      MissIs(s, a, i);
    } else {
      HitIs(s, a, i);
    }
    hide KInv, Fetched, Lookup, Idle, Seen, HeldAt;
  }

  lemma {:induction false} HitIs(s: KState, a: Addr, i: nat)
    requires s.head < |s.slots| && a in s.dev && i == Lookup(s.slots, a) < |s.slots|
    ensures Fetched(s, a) == s.(slots := s.slots[i := s.slots[i].(inuse := s.slots[i].inuse + 1)])
    ensures Seen(s, a) == s.slots[i].data
  {
    hide Idle;
  }

  lemma {:induction false} MissIs(s: KState, a: Addr, i: nat)
    requires s.head < |s.slots| && a in s.dev && Lookup(s.slots, a) == |s.slots| && i == Idle(s.slots, s.head, 0) < |s.slots|
    ensures Seen(s, a) == s.dev[a] && s.slots[i].inuse == 0
    ensures var r := Fetched(s, a);
      && |r.slots| == |s.slots| && r.slots[i].key == Key(a) && r.slots[i].inuse == 1 && r.slots[i].data == s.dev[a]
      && (forall j :: 0 <= j < |s.slots| && j != i ==> r.slots[j] == s.slots[j])
      && r.dev == s.dev && r.head == if i + 1 == |s.slots| then 0 else i + 1
  {
    hide Idle, Lookup;
  }

  lemma {:induction false} FirstIdle(slots: seq<KSlot>, head: nat, from: nat) returns (k: nat)
    requires head < |slots| && from <= |slots| && Idle(slots, head, from) < |slots|
    ensures from <= k < |slots| && Idle(slots, head, from) == Wrap(head + k, |slots|)
    ensures forall j :: from <= j < k ==> HeldAt(slots, head, j)
    decreases |slots| - from
  {
    k := from;
    if HeldAt(slots, head, from) {
      k := FirstIdle(slots, head, from + 1);
    }
  }

  /** How often sector a is got in a run, and how often block i is given back. */
  function Gets(es: seq<KernelCache.Event>, a: Addr): nat {
    if es == [] then 0 else (if es[0] == KernelCache.Fetch(a) then 1 else 0) + Gets(es[1..], a)
  }

  function Puts(es: seq<KernelCache.Event>, i: nat): nat {
    if es == [] then 0 else (if es[0].Give? && es[0].i == i then 1 else 0) + Puts(es[1..], i)
  }

  /** One step for a block that is held: only a get of its sector and a put of it change
      the number of holders, and only a put by the last one may take its sector away. */
  lemma {:induction false} HeldStep(s: KState, e: KernelCache.Event, i: nat, a: Addr)
    requires KInv(s) && KernelCache.Enabled(s, e) && i < |s.slots| && s.slots[i].key == Key(a) && s.slots[i].inuse > 0
    ensures var r := KernelCache.Step(s, e);
      && |r.slots| == |s.slots| && r.slots[i].key == Key(a)
      && r.slots[i].inuse == s.slots[i].inuse + (if e == KernelCache.Fetch(a) then 1 else 0)
                             - (if e.Give? && e.i == i then 1 else 0)
  {
    match e
    case Fetch(b) =>
      var j, k := FetchIs(s, b);
      if b == a {
        LookupIs(s.slots, a, i);
      }
    case Change(_, _) =>
    case Give(_, _) =>
  }

  /** While a block has been given back less often than it was held, it keeps its sector,
      however many other blocks are got in the meantime, and holds what the plain disk
      would; the gets and puts of it add up. */
  lemma {:induction false} HeldStays(s: KState, img: map<Addr, Sector>, es: seq<KernelCache.Event>, i: nat, a: Addr)
    requires KernelCache.Agrees(s, img) && KernelCache.Runs(s, img, es)
    requires i < |s.slots| && s.slots[i].key == Key(a) && Puts(es, i) < s.slots[i].inuse
    ensures var (r, now) := KernelCache.After(s, img, es);
      && i < |r.slots| && r.slots[i].key == Key(a) && a in now && r.slots[i].data == now[a]
      && r.slots[i].inuse + Puts(es, i) == s.slots[i].inuse + Gets(es, a)
    decreases |es|
  {
    if es == [] {
      HolderSees(s, img, i, a);
    } else {
      KernelCache.StepAgrees(s, img, es[0]);
      HeldStep(s, es[0], i, a);
      hide KInv, KernelCache.Step, KernelCache.Enabled, KernelCache.Agrees;
      HeldStays(KernelCache.Step(s, es[0]), KernelCache.OnDisk(s, img, es[0]), es[1..], i, a);
    }
  }

  lemma {:induction false} HolderSees(s: KState, img: map<Addr, Sector>, i: nat, a: Addr)
    requires KernelCache.Agrees(s, img) && i < |s.slots| && s.slots[i].key == Key(a) && s.slots[i].inuse > 0
    ensures a in img && s.slots[i].data == img[a]
  {
    assert KSlotOk(s.slots[i], s.dev);
    LookupIs(s.slots, a, i);
    assert Seen(s, a) == img[a];
  }
}

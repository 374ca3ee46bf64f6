/** Planning of floppy transfers and the loop over them (kernel/fdd/FDD.C:fdd_op,
    kernel/blkcache.c:bc_device_read). */
module Floppy {

  const SECTOR: nat := 512
  const PAGE: nat := 0x10000  // a transfer must not cross a physical page
  const RETRY: nat := 3

  // ----- where a block is on the disk

  /** Cylinder, head and sector; sectors count from 1, and there are two heads. */
  datatype Chs = Chs(cyl: nat, head: nat, sec: nat)

  /** The cylinder is kept in 16 bits. */
  function Split(blk: nat, spt: nat): Chs
    requires 0 < spt
  {
    Chs(blk / spt / 2 % 0x10000, blk / spt % 2, 1 + blk % spt)
  }

  function Lba(c: Chs, spt: nat): int { (c.cyl * 2 + c.head) * spt + c.sec - 1 }

  /** The split is undone by the usual formula exactly for the blocks whose
      cylinder fits; head and sector are always in range. */
  lemma {:induction false} SplitUndone(blk: nat, spt: nat)
    requires 0 < spt
    ensures var c := Split(blk, spt);
      && ((c.cyl * 2 + c.head) * spt + c.sec - 1 == blk <==> blk / spt / 2 < 0x10000)
      && c.head < 2 && 1 <= c.sec <= spt && Lba(c, spt) == (c.cyl * 2 + c.head) * spt + c.sec - 1
  {
    var t, c := blk / spt, blk / spt / 2;
    assert blk == t * spt + blk % spt;
    if c < 0x10000 {
      assert c * 2 + t % 2 == t;
    } else {
      assert (c % 0x10000) * 2 + t % 2 < t;
      Smaller((c % 0x10000) * 2 + t % 2, t, spt);
    }
  }

  lemma {:induction false} Smaller(a: nat, b: nat, m: nat)
    requires a < b && 0 < m
    ensures a * m < b * m
  {
  }

  // ----- one transfer

  /** Sectors per track of the four drive types of the CMOS; 0 for others. */
  function PerTrack(kind: nat): nat {
    match kind
    case 1 => 9
    case 2 => 15
    case 3 => 9
    case 4 => 18
    case _ => 0
  }

  /** With 40 cylinders on the first kind of drive and 80 on the others they make 360K,
      1.2M, 720K and 1.44M. */
  lemma {:induction false} Capacities()
    ensures 40 * 2 * PerTrack(1) * 512 == 360 * 1024 && 80 * 2 * PerTrack(2) * 512 == 1200 * 1024
    ensures 80 * 2 * PerTrack(3) * 512 == 720 * 1024 && 80 * 2 * PerTrack(4) * 512 == 1440 * 1024
    ensures forall kind :: PerTrack(kind) > 0 ==> 1 <= kind <= 4
  {
  }

  function Min(a: nat, b: nat): nat { if a > b then b else a }

  /** How many whole sectors fit before the next physical page. */
  function BeforePage(lin: nat): nat { ((lin / PAGE + 1) * PAGE - lin) / SECTOR }

  /** What `fdd_op` decides to transfer: where from, how many sectors, and whether
      through the one-sector bounce buffer. */
  datatype Plan = Plan(chs: Chs, secs: nat, bounce: bool)

  function PlanOf(blk: nat, size: nat, lin: nat, spt: nat): Plan
    requires 0 < spt
  {
    var chs := Split(blk, spt);
    var secs := Min(size / SECTOR, spt - chs.sec + 1);
    if BeforePage(lin) == 0 then Plan(chs, secs, true) else Plan(chs, Min(secs, BeforePage(lin)), false)
  }

  /** A transfer stays on its track, and, when it does not use the bounce buffer,
      in one physical page; something is transferred, and no more than asked for.  It is
      as much as it can be: less only where the track or the page ends. */
  lemma {:induction false} PlanStays(blk: nat, size: nat, lin: nat, spt: nat)
    requires 0 < spt && SECTOR <= size
    ensures var p := PlanOf(blk, size, lin, spt);
      && 1 <= p.secs <= size / SECTOR && p.chs.sec - 1 + p.secs <= spt
      && (!p.bounce ==> lin / 0x10000 == (lin + p.secs * 512 - 1) / 0x10000)
      && (p.secs == size / 512 || p.chs.sec - 1 + p.secs == spt ||
          (!p.bounce && lin / 0x10000 < (lin + (p.secs + 1) * 512 - 1) / 0x10000))
  {
    var n := PlanOf(blk, size, lin, spt).secs;
    SplitUndone(blk, spt);
    PageRoom(lin);
    PageMost(lin, n);
    InPage(lin, n * SECTOR);
    InPage(lin, (n + 1) * SECTOR);
  }

  lemma {:induction false} PageMost(lin: nat, n: nat)
    ensures n == BeforePage(lin) ==> (n + 1) * SECTOR > PAGE - lin % PAGE
    ensures (lin + (n + 1) * SECTOR - 1) / PAGE >= lin / PAGE
  {
    assert (lin / PAGE + 1) * PAGE - lin == PAGE - lin % PAGE;
  }

  lemma {:induction false} InPage(lin: nat, n: nat)
    requires 0 < n
    ensures n <= PAGE - lin % PAGE <==> (lin + n - 1) / PAGE == lin / PAGE
  {
  }

  lemma {:induction false} PageRoom(lin: nat)
    ensures BeforePage(lin) * SECTOR <= PAGE - lin % PAGE
    ensures BeforePage(lin) == 0 <==> PAGE - lin % PAGE < SECTOR
  {
    assert (lin / PAGE + 1) * PAGE - lin == PAGE - lin % PAGE;
  }

  /** The bounce buffer is used exactly when not even one sector fits before the
      page ends, so never for a buffer at a multiple of 512. */
  lemma {:induction false} BounceWhen(blk: nat, size: nat, lin: nat, spt: nat)
    requires 0 < spt
    ensures PlanOf(blk, size, lin, spt).bounce <==> PAGE - lin % PAGE < SECTOR
    ensures lin % SECTOR == 0 ==> !PlanOf(blk, size, lin, spt).bounce
  {
    PageRoom(lin);
  }

  /** The size set for the bounce buffer is overwritten afterwards: the transfer
      fits into the one sector it has exactly when only one sector was asked for
      or left on the track. */
  lemma {:induction false} BounceFits(blk: nat, size: nat, lin: nat, spt: nat)
    requires 0 < spt && SECTOR <= size && PlanOf(blk, size, lin, spt).bounce
    ensures PlanOf(blk, size, lin, spt).secs * SECTOR <= SECTOR <==> size / SECTOR == 1 || blk % spt == spt - 1
  {
    SplitUndone(blk, spt);
  }

  /** Two sectors into a buffer 256 bytes before a page overflow it. */
  lemma {:induction false} BounceOverflows()
    ensures var p := PlanOf(0, 1024, 0x1ff00, 18); p.bounce && p.secs == 2
  {
  }

  // ----- the transfers

  /** A finished transfer: where on the disk, how many sectors, and the caller's
      memory; straight to or from there, or between the disk and the work buffer,
      of which one sector is copied. */
  datatype Move =
    | Straight(chs: Chs, secs: nat, lin: nat)
    | Bounced(chs: Chs, secs: nat, work: nat, lin: nat)

  function MoveOf(p: Plan, lin: nat, work: nat): Move {
    if p.bounce then Bounced(p.chs, p.secs, work, lin) else Straight(p.chs, p.secs, lin)
  }

  /** Sector i of a transfer and the caller's memory that it went to or came from. */
  datatype Place = Place(blk: int, lin: nat)

  /** The sectors that are in the caller's memory in the end, or came from there. */
  function Places(m: Move, spt: nat): seq<Place> {
    match m
    case Straight(chs, secs, lin) => seq(secs, i requires 0 <= i => Place(Lba(chs, spt) + i, lin + SECTOR * i))
    case Bounced(chs, _, _, lin) => [Place(Lba(chs, spt), lin)]
  }

  /** The memory that the transfer itself touches. */
  function Touched(m: Move): (nat, nat) {
    match m
    case Straight(_, secs, lin) => (lin, secs * SECTOR)
    case Bounced(_, secs, work, _) => (work, secs * SECTOR)
  }

  /** The sectors that `fdd_op` reports are those of the caller exactly when no
      bounce buffer is used, or only one sector was asked for or left on the track;
      in those cases too the transfer touches one sector of the work buffer only. */
  lemma {:induction false} ReportIsTrue(blk: nat, size: nat, lin: nat, spt: nat, work: nat)
    requires 0 < spt && SECTOR <= size
    ensures var p := PlanOf(blk, size, lin, spt); var m := MoveOf(p, lin, work);
      && (|Places(m, spt)| == p.secs <==> PAGE - lin % PAGE >= SECTOR || size / SECTOR == 1 || blk % spt == spt - 1)
      && (m.Bounced? ==> (Touched(m) == (work, SECTOR) <==> |Places(m, spt)| == p.secs))
  {
    SplitUndone(blk, spt);
    PageRoom(lin);
  }

  function AllPlaces(log: seq<Move>, spt: nat): seq<Place> {
    if log == [] then [] else AllPlaces(log[..|log|-1], spt) + Places(log[|log|-1], spt)
  }

  /** n sectors from block `start` on, to consecutive places from lin on. */
  function Wanted(start: nat, lin: nat, n: nat): seq<Place> {
    seq(n, i requires 0 <= i => Place(start + i, lin + SECTOR * i))
  }

  lemma {:induction false} WantedAre(was: seq<Place>, now: seq<Place>, start: nat, lin: nat, n: nat)
    requires now == was + Wanted(start, lin, n)
    ensures |now| == |was| + n && now[..|was|] == was
    ensures forall i :: 0 <= i < n ==> now[|was| + i] == Place(start + i, lin + 512 * i)
  {
  }

  lemma {:induction false} WantedJoin(start: nat, lin: nat, n: nat, m: nat)
    ensures Wanted(start, lin, n) + Wanted(start + n, lin + SECTOR * n, m) == Wanted(start, lin, n + m)
  {
  }

  /** What a 16-bit integer makes of n. */
  function ToInt16(n: nat): int {
    if n % 0x10000 < 0x8000 then n % 0x10000 else n % 0x10000 - 0x10000
  }

  const EINVAL: int := -22
  const EIO: int := -5

  class Drive {
    const kind: nat
    const work: nat  // where the work buffer is
    var log: seq<Move>
    var commands: nat

    constructor (kind: nat, work: nat)
      ensures this.kind == kind && this.work == work && log == [] && commands == 0
    {
      this.kind, this.work, log, commands := kind, work, [], 0;
    }

    /** `fdd_op`: up to three seeks with up to three tries each.  What the hardware
        answers is arbitrary: `working` says that every step succeeds. */
    method Op(lin: nat, blk: nat, size: int, working: bool) returns (r: int)
      modifies this
      ensures (size < 0 || size % 512 != 0) ==> r == EINVAL
      ensures r <= 0 ==> log == old(log)
      ensures r > 0 ==> PerTrack(kind) > 0 && SECTOR <= size && var p := PlanOf(blk, size, lin, PerTrack(kind));
        r == p.secs * SECTOR && log == old(log) + [MoveOf(p, lin, work)]
      ensures size == 0 ==> r == 0
      ensures working && size > 0 && size % 512 == 0 && PerTrack(kind) > 0 ==> r > 0
      ensures commands <= old(commands) + RETRY * RETRY
    {
      if size < 0 || size % 512 != 0 {
        return EINVAL;
      }
      if size == 0 {
        return 0;
      }
      var spt := PerTrack(kind);
      if spt == 0 {
        return EIO;
      }
      var p := PlanOf(blk, size, lin, spt);
      PlanStays(blk, size, lin, spt);
      var rc := Try(working);
      if rc < 0 {
        return rc;
      }
      log := log + [MoveOf(p, lin, work)];
      return p.secs * SECTOR;
    }

    method Try(working: bool) returns (rc: int)
      modifies this`commands
      ensures rc == 0 || rc == -1
      ensures working ==> rc == 0
      ensures commands <= old(commands) + RETRY * RETRY
    {
      rc := -1;
      var seeks := 0;
      while seeks < RETRY && rc != 0
        invariant seeks <= RETRY && (rc == 0 || rc == -1) && commands <= old(commands) + seeks * RETRY
        invariant working && seeks > 0 ==> rc == 0
      {
        seeks := seeks + 1;
        var there: bool := *;
        if working || there {
          var tries := 0;
          var aligned := true;
          while tries < RETRY && rc != 0 && aligned
            invariant tries <= RETRY && (rc == 0 || rc == -1) && commands <= old(commands) + (seeks - 1) * RETRY + tries
            invariant working ==> aligned && (tries > 0 ==> rc == 0)
          {
            tries := tries + 1;
            commands := commands + 1;
            var done: bool := *;
            if working || done {
              rc := 0;
            } else {
              aligned := *;
            }
          }
        }
      }
    }

    /** `bc_device_read`. */
    method DeviceRead(start: nat, blks: nat, lin: nat, working: bool) returns (rc: int)
      requires blks < 0x8000 && PerTrack(kind) > 0 && lin % SECTOR == 0
      requires start + blks <= PerTrack(kind) * 0x20000
      modifies this
      ensures rc <= 0
      ensures rc == 0 ==> var was, now := AllPlaces(old(log), PerTrack(kind)), AllPlaces(log, PerTrack(kind));
        && |now| == |was| + blks && now[..|was|] == was
        && forall i :: 0 <= i < blks ==> now[|was| + i] == Place(start + i, lin + 512 * i)
      ensures working ==> (rc == 0 <==> blks <= 63)
      ensures Grew(old(log), log, PerTrack(kind))
    {
      hide StaysPut, Wanted, AllPlaces, PerTrack, Places, Grew, Progress;
      var blk, left, at := start, blks, lin;
      var spt := PerTrack(kind);
      ghost var was := log;
      NoProgress(was, spt, start, lin);
      rc := 0;
      while left > 0
        invariant 0 <= left <= blks && blk == start + (blks - left) && at == lin + SECTOR * (blks - left)
        invariant rc == 0 && (blks >= 64 ==> left >= 64)
        invariant Progress(was, log, spt, start, lin, blks - left)
      {
        var n;
        ghost var mid := log;
        TurnFits(blk, at, start, blks, left, lin, spt);
        rc, n := Turn(blk, left, at, working);
        ProgressOn(was, mid, log, spt, start, lin, blks - left, n, rc);
        if rc < 0 {
          return;
        }
        at, left, blk := at + n * SECTOR, left - n, blk + n;
      }
      Progressed(was, log, spt, start, lin, blks);
      WantedAre(AllPlaces(was, spt), AllPlaces(log, spt), start, lin, blks);
    }

    /** One turn of its loop: n sectors more, or an error. */
    method Turn(blk: nat, left: nat, at: nat, working: bool) returns (rc: int, n: nat)
      requires 0 < left < 0x8000 && PerTrack(kind) > 0 && at % SECTOR == 0 && blk < PerTrack(kind) * 0x20000
      modifies this
      ensures rc < 0 ==> log == old(log)
      ensures rc >= 0 ==> rc == 0 && 0 < n <= left && (left >= 64 ==> left - n >= 64)
      ensures rc == 0 ==> |log| == |old(log)| + 1 && log[..|old(log)|] == old(log) && StaysPut(log[|old(log)|], PerTrack(kind))
      ensures rc == 0 ==> AllPlaces(log, PerTrack(kind)) == AllPlaces(old(log), PerTrack(kind)) + Wanted(blk, at, n)
      ensures working && left <= 63 ==> rc == 0
    {
      hide PlanOf, MoveOf, StaysPut, Places, Wanted, PerTrack, ToInt16;
      var size := ToInt16(left * SECTOR);
      BlocksLeft(left);
      var bytes := Op(at, blk, size, working);
      n := 0;
      if bytes < 0 {
        return bytes, 0;
      }
      if bytes == 0 {
        return EIO, 0;
      }
      n := bytes / SECTOR;
      rc := 0;
      Moved(blk, size, at, PerTrack(kind), work);
      assert log[..|log|-1] == old(log);
    }
  }

  /** Transfers were added, each straight to the caller on one track and in one page. */
  ghost predicate Grew(was: seq<Move>, now: seq<Move>, spt: nat) {
    was <= now && forall i :: |was| <= i < |now| ==> StaysPut(now[i], spt)
  }

  lemma {:induction false} GrewStep(was: seq<Move>, mid: seq<Move>, now: seq<Move>, spt: nat)
    requires Grew(was, mid, spt) && |now| == |mid| + 1 && now[..|mid|] == mid && StaysPut(now[|mid|], spt)
    ensures Grew(was, now, spt)
  {
    hide StaysPut;
    forall i | |was| <= i < |now| ensures StaysPut(now[i], spt) {
      if i < |mid| {
        assert now[i] == mid[i];
      }
    }
  }

  /** n sectors of what is wanted have been moved. */
  ghost predicate Progress(was: seq<Move>, now: seq<Move>, spt: nat, start: nat, lin: nat, n: nat) {
    Grew(was, now, spt) && AllPlaces(now, spt) == AllPlaces(was, spt) + Wanted(start, lin, n)
  }

  lemma {:induction false} NoProgress(was: seq<Move>, spt: nat, start: nat, lin: nat)
    ensures Progress(was, was, spt, start, lin, 0)
  {
    assert Wanted(start, lin, 0) == [];
  }

  lemma {:induction false} Progressed(was: seq<Move>, now: seq<Move>, spt: nat, start: nat, lin: nat, n: nat)
    requires Progress(was, now, spt, start, lin, n)
    ensures Grew(was, now, spt) && AllPlaces(now, spt) == AllPlaces(was, spt) + Wanted(start, lin, n)
  {
  }

  lemma {:induction false} ProgressOn(was: seq<Move>, mid: seq<Move>, now: seq<Move>, spt: nat, start: nat, lin: nat,
                                      k: nat, n: nat, rc: int)
    requires Progress(was, mid, spt, start, lin, k)
    requires if rc < 0 then now == mid else
      && |now| == |mid| + 1 && now[..|mid|] == mid && StaysPut(now[|mid|], spt)
      && AllPlaces(now, spt) == AllPlaces(mid, spt) + Wanted(start + k, lin + SECTOR * k, n)
    ensures if rc < 0 then Grew(was, now, spt) else Progress(was, now, spt, start, lin, k + n)
  {
    if rc >= 0 {
      hide StaysPut, AllPlaces, Wanted, Grew;
      GrewStep(was, mid, now, spt);
      WantedJoin(start, lin, k, n);
      JoinedAll(AllPlaces(was, spt), Wanted(start, lin, k), Wanted(start + k, lin + SECTOR * k, n));
    }
  }

  lemma {:induction false} TurnFits(blk: nat, at: nat, start: nat, blks: nat, left: nat, lin: nat, spt: nat)
    requires 0 < left <= blks < 0x8000 && blk == start + (blks - left) && at == lin + SECTOR * (blks - left)
    requires lin % SECTOR == 0 && start + blks <= spt * 0x20000
    ensures at % SECTOR == 0 && blk < spt * 0x20000
  {
  }

  /** What the 16-bit size says about the number of blocks. */
  lemma {:induction false} BlocksLeft(left: nat)
    requires left < 0x8000
    ensures var size := ToInt16(left * SECTOR);
      size > 0 ==> size == left % 128 * SECTOR && left % 128 < 64 && (left >= 64 ==> left - left % 128 >= 128)
    ensures left <= 63 ==> ToInt16(left * SECTOR) == left * SECTOR
  {
    assert left * SECTOR % 0x10000 == left % 128 * SECTOR;
  }

  lemma {:induction false} Moved(blk: nat, size: nat, lin: nat, spt: nat, work: nat)
    requires 0 < spt && SECTOR <= size && blk < spt * 0x20000 && lin % SECTOR == 0
    ensures var p := PlanOf(blk, size, lin, spt);
      && Places(MoveOf(p, lin, work), spt) == Wanted(blk, lin, p.secs) && StaysPut(MoveOf(p, lin, work), spt)
      && p.secs <= size / SECTOR
  {
    PlanStays(blk, size, lin, spt);
    BounceWhen(blk, size, lin, spt);
    SplitUndone(blk, spt);
    CylFits(blk, spt);
  }

  lemma {:induction false} CylFits(blk: nat, spt: nat)
    requires 0 < spt && blk < spt * 0x20000
    ensures blk / spt / 2 < 0x10000
  {
    var t := blk / spt;
    assert blk == t * spt + blk % spt;
    if 0x20000 < t {
      Smaller(0x20000, t, spt);
    }
    assert t < 0x20000;
  }

  lemma {:induction false} JoinedAll(a: seq<Place>, b: seq<Place>, c: seq<Place>)
    ensures (a + b) + c == a + (b + c)
  {
  }

  /** A transfer straight to the caller stays on its track and in its page. */
  ghost predicate StaysPut(m: Move, spt: nat) {
    && m.Straight? && 1 <= m.secs && 1 <= m.chs.sec && m.chs.sec - 1 + m.secs <= spt
    && m.lin / PAGE == (m.lin + m.secs * SECTOR - 1) / PAGE
  }
}

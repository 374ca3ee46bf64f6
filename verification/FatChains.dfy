/** Cluster chains in the file allocation table (hosted/fat/cluster.c:clus_alloc,
    hosted/fat/fileobj.c:fobj_trunc), on the table as a sequence of entries.

    A file is the list of its clusters in order, empty when its directory entry
    names cluster 0. */
module FatChains {
  import opened Bytes
  import opened Fat12

  type Fat = seq<nat>

  // ----- chains

  ghost predicate Distinct(cs: seq<nat>) {
    forall i, j :: 0 <= i < j < |cs| ==> cs[i] != cs[j]
  }

  ghost predicate InTable(fat: Fat, cs: seq<nat>) {
    forall i :: 0 <= i < |cs| ==> 2 <= cs[i] < |fat|
  }

  /** Every cluster but the last names the next one. */
  ghost predicate Linked(fat: Fat, cs: seq<nat>) {
    && InTable(fat, cs) && Distinct(cs)
    && forall i :: 0 <= i < |cs| - 1 ==> fat[cs[i]] == cs[i+1]
  }

  ghost predicate IsChain(fat: Fat, cs: seq<nat>) {
    Linked(fat, cs) && (cs != [] ==> fat[cs[|cs|-1]] >= FAT_EOC)
  }

  function Head(cs: seq<nat>): nat { if cs == [] then 0 else cs[0] }

  function Last(cs: seq<nat>): nat { if cs == [] then 0 else cs[|cs|-1] }

  /** Clusters linked up to an end mark cannot repeat: the chain has no cycle. */
  lemma {:induction false} ChainAcyclic(fat: Fat, cs: seq<nat>)
    requires cs != [] && |fat| <= FAT_EOC && InTable(fat, cs) && fat[cs[|cs|-1]] >= FAT_EOC
    requires forall i :: 0 <= i < |cs| - 1 ==> fat[cs[i]] == cs[i+1]
    ensures IsChain(fat, cs)
  {
    forall i, j | 0 <= i < j < |cs| ensures cs[i] != cs[j] {
      NoRepeat(fat, cs, i, j);
    }
  }

  lemma {:induction false} NoRepeat(fat: Fat, cs: seq<nat>, i: nat, j: nat)
    requires i < j < |cs| && |fat| <= FAT_EOC && InTable(fat, cs) && fat[cs[|cs|-1]] >= FAT_EOC
    requires forall i :: 0 <= i < |cs| - 1 ==> fat[cs[i]] == cs[i+1]
    ensures cs[i] != cs[j]
    decreases |cs| - j
  {
    assert fat[cs[i]] == cs[i+1];
    if j + 1 < |cs| {
      assert fat[cs[j]] == cs[j+1];
      NoRepeat(fat, cs, i + 1, j + 1);
    }
  }

  /** A chain is determined by where it begins. */
  lemma {:induction false} ChainUnique(fat: Fat, cs: seq<nat>, ds: seq<nat>, i: nat)
    requires |fat| <= FAT_EOC && Linked(fat, cs) && IsChain(fat, ds) && cs != [] && Head(cs) == Head(ds)
    requires i < |cs|
    ensures i < |ds| && cs[i] == ds[i]
  {
    assert ds != [] by {
      assert cs[0] >= 2;
    }
    if i > 0 {
      ChainUnique(fat, cs, ds, i - 1);
      assert fat[cs[i-1]] == cs[i];
      assert i < |ds| ==> fat[ds[i-1]] == ds[i];
    }
  }

  // ----- free clusters

  /** The lowest free cluster from c on; |fat| when there is none. */
  function LowestFree(fat: Fat, c: nat): (r: nat)
    requires c <= |fat|
    ensures c <= r <= |fat|
    ensures r < |fat| ==> fat[r] == 0
    ensures forall d :: c <= d < r ==> fat[d] != 0
    decreases |fat| - c
  {
    if c == |fat| || fat[c] == 0 then c else LowestFree(fat, c + 1)
  }

  /** How many clusters from c on are free. */
  function FreeFrom(fat: Fat, c: nat): nat
    requires c <= |fat|
    decreases |fat| - c
  {
    if c == |fat| then 0 else (if fat[c] == 0 then 1 else 0) + FreeFrom(fat, c + 1)
  }

  function FreeCount(fat: Fat): nat
    requires 2 <= |fat|
  {
    FreeFrom(fat, 2)
  }

  lemma {:induction false} LowestStep(fat: Fat, c: nat)
    requires c < |fat|
    ensures LowestFree(fat, c) == if fat[c] == 0 then c else LowestFree(fat, c + 1)
  {
  }

  lemma {:induction false} LowestEnd(fat: Fat)
    ensures LowestFree(fat, |fat|) == |fat|
  {
  }

  lemma {:induction false} FreeUpdate(fat: Fat, c: nat, d: nat, n: nat)
    requires c <= |fat| && d < |fat|
    ensures FreeFrom(fat[d := n], c) ==
            FreeFrom(fat, c) + (if c <= d && n == 0 then 1 else 0) - (if c <= d && fat[d] == 0 then 1 else 0)
    decreases |fat| - c
  {
    if c < |fat| {
      FreeUpdate(fat, c + 1, d, n);
    }
  }

  /** No cluster is free exactly when the count is zero. */
  lemma {:induction false} NoneFree(fat: Fat, c: nat)
    requires c <= |fat|
    ensures FreeFrom(fat, c) == 0 <==> LowestFree(fat, c) == |fat|
    decreases |fat| - c
  {
    if c < |fat| && fat[c] != 0 {
      NoneFree(fat, c + 1);
    }
  }

  // ----- growing

  datatype Change = Change(rc: Rc, fat: Fat, cs: seq<nat>)

  /** `clus_alloc`: the lowest free cluster becomes the end of a chain. */
  function Alloc(fat: Fat): (Rc, nat, Fat)
    requires 2 <= |fat|
  {
    var c := LowestFree(fat, 2);
    if c == |fat| then (NoSpc, 0, fat) else (Ok, c, fat[c := FAT_LAST])
  }

  /** One turn of the growing loop of `fobj_trunc`, behind cluster p. */
  function Append(fat: Fat, p: nat): (Rc, nat, Fat)
    requires 2 <= |fat| && p < |fat|
  {
    var (rc, c, fat1) := Alloc(fat);
    if rc != Ok then (rc, c, fat1) else (Ok, c, if p == 0 then fat1 else fat1[p := c])
  }

  /** The growing loop: n clusters more for the file cs. */
  function Grow(fat: Fat, cs: seq<nat>, n: nat): Change
    requires 2 <= |fat| && Last(cs) < |fat|
    decreases n
  {
    if n == 0 then Change(Ok, fat, cs)
    else
      var (rc, c, fat1) := Append(fat, Last(cs));
      if rc != Ok then Change(rc, fat1, cs) else Grow(fat1, cs + [c], n - 1)
  }

  lemma {:induction false} AppendKeeps(fat: Fat, cs: seq<nat>)
    requires 2 <= |fat| && IsChain(fat, cs)
    ensures Last(cs) < |fat|
    ensures var (rc, c, fat1) := Append(fat, Last(cs));
      && |fat1| == |fat|
      && (rc == Ok <==> FreeCount(fat) > 0)
      && (rc != Ok ==> rc == NoSpc && fat1 == fat)
      && (rc == Ok ==>
        && 2 <= c < |fat| && fat[c] == 0 && c !in cs && IsChain(fat1, cs + [c])
        && (forall d :: 2 <= d < c ==> fat[d] != 0)
        && (forall d :: 0 <= d < |fat| && d != c && (cs == [] || d != Last(cs)) ==> fat1[d] == fat[d])
        && FreeCount(fat1) == FreeCount(fat) - 1)
  {
    NoneFree(fat, 2);
    var (rc, c, fat1) := Append(fat, Last(cs));
    if rc == Ok {
      var fat0 := fat[c := FAT_LAST];
      FreeUpdate(fat, 2, c, FAT_LAST);
      FreeNotLinked(fat, cs, c);
      if cs != [] {
        FreeUpdate(fat0, 2, Last(cs), c);
      }
    }
  }

  lemma {:induction false} FreeNotLinked(fat: Fat, cs: seq<nat>, c: nat)
    requires IsChain(fat, cs) && c < |fat| && fat[c] == 0
    ensures c !in cs
  {
    forall i | 0 <= i < |cs| ensures cs[i] != c {
      assert i < |cs| - 1 ==> fat[cs[i]] == cs[i+1];
    }
  }

  /** From fat, cs growing by n clusters has given g: it succeeds exactly when n
      clusters are free.  The old chain is a prefix of the new one, as many clusters
      are added as could be, all of them free before; nothing else in the table
      changes. */
  ghost predicate GrewBy(fat: Fat, cs: seq<nat>, n: nat, g: Change)
    requires 2 <= |fat|
  {
    && |g.fat| == |fat| && IsChain(g.fat, g.cs) && cs <= g.cs
    && (g.rc == Ok <==> n <= FreeCount(fat)) && (g.rc != Ok ==> g.rc == NoSpc)
    && |g.cs| == |cs| + (if n <= FreeCount(fat) then n else FreeCount(fat))
    && (forall i :: |cs| <= i < |g.cs| ==> fat[g.cs[i]] == 0)
    && (forall d :: 0 <= d < |fat| && d !in g.cs ==> g.fat[d] == fat[d])
    && (forall d :: d in cs && d != Last(cs) ==> d < |fat| && g.fat[d] == fat[d])
    && FreeCount(g.fat) + |g.cs| == FreeCount(fat) + |cs|
  }

  lemma {:induction false} GrowKeeps(fat: Fat, cs: seq<nat>, n: nat)
    requires 2 <= |fat| && IsChain(fat, cs)
    ensures Last(cs) < |fat| && GrewBy(fat, cs, n, Grow(fat, cs, n))
    decreases n
  {
    hide Append, Grow, FreeCount, IsChain;
    AppendKeeps(fat, cs);
    GrowDef(fat, cs, n);
    ChainIn(fat, cs);
    if n > 0 {
      var (rc, c, fat1) := Append(fat, Last(cs));
      if rc == Ok {
        GrowKeeps(fat1, cs + [c], n - 1);
        hide GrewBy;
        GrowStep(fat, cs, n, c, fat1, Grow(fat1, cs + [c], n - 1));
      }
    }
  }

  lemma {:induction false} ChainIn(fat: Fat, cs: seq<nat>)
    requires IsChain(fat, cs)
    ensures InTable(fat, cs) && forall d :: d in cs ==> d < |fat|
  {
  }

  lemma {:induction false} GrowStep(fat: Fat, cs: seq<nat>, n: nat, c: nat, fat1: Fat, g: Change)
    requires 2 <= |fat| == |fat1| && InTable(fat, cs) && n > 0 && GrewBy(fat1, cs + [c], n - 1, g)
    requires 2 <= c < |fat| && fat[c] == 0 && FreeCount(fat1) == FreeCount(fat) - 1
    requires forall d :: 0 <= d < |fat| && d != c && (cs == [] || d != Last(cs)) ==> fat1[d] == fat[d]
    ensures GrewBy(fat, cs, n, g)
  {
    PrefixJoin(cs, c, g.cs);
    assert IsChain(g.fat, g.cs) && InTable(g.fat, g.cs) && Distinct(g.cs);
    hide IsChain, FreeCount, Distinct;
    GrowFrame(fat, cs, c, fat1, g);
  }

  lemma {:induction false} PrefixJoin(cs: seq<nat>, c: nat, ds: seq<nat>)
    requires cs + [c] <= ds
    ensures cs <= ds && ds[|cs|] == c && forall i :: 0 <= i < |cs| ==> ds[i] == cs[i]
  {
    assert forall i :: 0 <= i < |cs| ==> ds[i] == (cs + [c])[i] == cs[i];
    assert ds[|cs|] == (cs + [c])[|cs|];
  }

  /** What is outside the chain, or in it and not new, is as it was. */
  lemma {:induction false} GrowFrame(fat: Fat, cs: seq<nat>, c: nat, fat1: Fat, g: Change)
    requires |fat1| == |fat| == |g.fat| && InTable(g.fat, g.cs) && Distinct(g.cs) && InTable(fat, cs)
    requires cs + [c] <= g.cs && cs <= g.cs && g.cs[|cs|] == c < |fat| && fat[c] == 0
    requires forall i :: 0 <= i < |cs| ==> g.cs[i] == cs[i]
    requires forall d :: 0 <= d < |fat| && d != c && (cs == [] || d != Last(cs)) ==> fat1[d] == fat[d]
    requires forall i :: |cs| + 1 <= i < |g.cs| ==> fat1[g.cs[i]] == 0
    requires forall d :: 0 <= d < |fat| && d !in g.cs ==> g.fat[d] == fat1[d]
    requires forall d :: d in cs + [c] && d != c ==> d < |fat| && g.fat[d] == fat1[d]
    ensures forall i :: |cs| <= i < |g.cs| ==> fat[g.cs[i]] == 0
    ensures forall d :: 0 <= d < |fat| && d !in g.cs ==> g.fat[d] == fat[d]
    ensures forall d :: d in cs && d != Last(cs) ==> d < |fat| && g.fat[d] == fat[d]
  {
    forall i | |cs| <= i < |g.cs| ensures fat[g.cs[i]] == 0 {
      assert i > |cs| ==> g.cs[i] != g.cs[|cs|] && (cs != [] ==> g.cs[i] != g.cs[|cs|-1]);
    }
    forall d | 0 <= d < |fat| && d !in g.cs ensures g.fat[d] == fat[d] {
      assert d != g.cs[|cs|] && (cs != [] ==> d != g.cs[|cs|-1]);
    }
    forall d | d in cs && d != Last(cs) ensures d < |fat| && g.fat[d] == fat[d] {
      var i: nat :| i < |cs| && cs[i] == d;
      assert g.cs[i] == d && g.cs[i] != g.cs[|cs|] && d in cs + [c];
    }
  }

  // ----- growing step by step

  /** What the walk finds behind the first n clusters: the next one, or the entry
      that ends the chain. */
  ghost function After(fat: Fat, cs: seq<nat>, n: nat): nat
    requires n <= |cs| && InTable(fat, cs)
  {
    if n < |cs| then cs[n] else if n == 0 then 0 else fat[cs[n-1]]
  }

  lemma {:induction false} AfterStep(fat: Fat, cs: seq<nat>, n: nat)
    requires IsChain(fat, cs) && |fat| <= FAT_EOC && n <= |cs|
    ensures n == 0 ==> After(fat, cs, n) == Head(cs) && Last(cs[..n]) == 0
    ensures n < |cs| ==> 2 <= After(fat, cs, n) < |fat| && fat[After(fat, cs, n)] == After(fat, cs, n + 1)
    ensures n < |cs| ==> Last(cs[..n+1]) == After(fat, cs, n) == cs[n]
    ensures n == |cs| > 0 ==> After(fat, cs, n) >= FAT_EOC
  {
  }

  /** From cluster n on: the next one, or an end mark at the chain's end. */
  lemma {:induction false} FollowStep(fat: Fat, cs: seq<nat>, n: nat)
    requires Linked(fat, cs) && |fat| <= FAT_EOC && n < |cs| && (n + 1 < |cs| || IsChain(fat, cs))
    ensures cs[n] < |fat| && (fat[cs[n]] >= FAT_EOC <==> n + 1 == |cs|) && (n + 1 < |cs| ==> fat[cs[n]] == cs[n+1])
  {
    assert n + 1 < |cs| ==> fat[cs[n]] == cs[n+1];
  }

  lemma {:induction false} AllocFits(fat: Fat)
    requires 2 <= |fat|
    ensures Alloc(fat).0 == Ok ==> 2 <= Alloc(fat).1 < |fat|
  {
  }

  /** Growing fat, ds to `target` clusters is growing fat1, ds + [c] to it. */
  ghost predicate Grown(fat: Fat, ds: seq<nat>, target: nat, fat1: Fat, c: nat) {
    && 2 <= |fat| == |fat1| && Last(ds) < |fat| && 2 <= c < |fat1| && fat1[c] == FAT_LAST && |ds| < target
    && IsChain(fat1, ds + [c]) && Grow(fat, ds, target - |ds|) == Grow(fat1, ds + [c], target - |ds| - 1)
  }

  ghost predicate Stuck(fat: Fat, ds: seq<nat>, target: nat, rc: Rc, fat1: Fat) {
    2 <= |fat| && Last(ds) < |fat| && |ds| < target && Grow(fat, ds, target - |ds|) == Change(rc, fat1, ds)
  }

  lemma {:induction false} AppendGrown(fat: Fat, ds: seq<nat>, target: nat)
    requires 2 <= |fat| && IsChain(fat, ds) && |ds| < target
    ensures Last(ds) < |fat|
    ensures var (rc, c, fat1) := Append(fat, Last(ds));
      if rc == Ok then Grown(fat, ds, target, fat1, c) else Stuck(fat, ds, target, rc, fat1)
  {
    AppendKeeps(fat, ds);
    AppendLast(fat, ds);
    GrowDef(fat, ds, target - |ds|);
  }

  lemma {:induction false} GrowDef(fat: Fat, cs: seq<nat>, n: nat)
    requires 2 <= |fat| && Last(cs) < |fat|
    ensures n == 0 ==> Grow(fat, cs, n) == Change(Ok, fat, cs)
    ensures n > 0 ==> var (rc, c, fat1) := Append(fat, Last(cs));
      if rc != Ok then Grow(fat, cs, n) == Change(rc, fat1, cs)
      else Last(cs + [c]) < |fat1| && |fat1| == |fat| && Grow(fat, cs, n) == Grow(fat1, cs + [c], n - 1)
  {
  }

  lemma {:induction false} AppendLast(fat: Fat, cs: seq<nat>)
    requires 2 <= |fat| && IsChain(fat, cs)
    ensures Last(cs) < |fat| && (Last(cs) == 0 <==> cs == [])
    ensures var (rc, c, fat1) := Append(fat, Last(cs));
      rc == Ok ==> 2 <= c < |fat1| && fat1[c] == FAT_LAST && Head(cs + [c]) == (if cs == [] then c else Head(cs))
  {
    AppendKeeps(fat, cs);
    if LowestFree(fat, 2) < |fat| {
      FreeNotLinked(fat, cs, LowestFree(fat, 2));
    }
  }

  /** On the way from fat, cs to `target` clusters: now, ds. */
  ghost predicate Growing(fat: Fat, cs: seq<nat>, target: nat, now: Fat, ds: seq<nat>) {
    && 2 <= |fat| == |now| && IsChain(now, ds) && Last(cs) < |fat| && Last(ds) < |now| && |cs| <= |ds| <= target
    && Grow(now, ds, target - |ds|) == Grow(fat, cs, target - |cs|)
  }

  lemma {:induction false} GrowingStarts(fat: Fat, cs: seq<nat>, target: nat)
    requires 2 <= |fat| && IsChain(fat, cs) && |cs| <= target
    ensures Growing(fat, cs, target, fat, cs)
  {
  }

  lemma {:induction false} GrowingStep(fat: Fat, cs: seq<nat>, target: nat, now: Fat, ds: seq<nat>, fat1: Fat, c: nat)
    requires Growing(fat, cs, target, now, ds) && Grown(now, ds, target, fat1, c)
    ensures Growing(fat, cs, target, fat1, ds + [c]) && Last(ds + [c]) == c && EndsAt(fat1, c)
  {
    assert target - |ds + [c]| == target - |ds| - 1;
  }

  ghost predicate EndsAt(fat: Fat, p: nat) {
    p < |fat| && fat[p] == FAT_LAST
  }

  lemma {:induction false} GrowingEnds(fat: Fat, cs: seq<nat>, target: nat, now: Fat, ds: seq<nat>)
    requires Growing(fat, cs, target, now, ds) && |ds| == target
    ensures GrewTo(fat, cs, target, Ok, now, Head(ds))
  {
    GrowDef(now, ds, 0);
  }

  lemma {:induction false} GrowingSticks(fat: Fat, cs: seq<nat>, target: nat, now: Fat, ds: seq<nat>, rc: Rc, fat1: Fat)
    requires Growing(fat, cs, target, now, ds) && Stuck(now, ds, target, rc, fat1)
    ensures GrewTo(fat, cs, target, rc, fat1, Head(ds))
  {
  }

  /** What the table and the first cluster are after growing to `target`. */
  ghost predicate GrewTo(fat: Fat, cs: seq<nat>, target: nat, rc: Rc, fat1: Fat, cluster0: nat) {
    && 2 <= |fat| && Last(cs) < |fat| && |cs| <= target
    && var t := Grow(fat, cs, target - |cs|); rc == t.rc && fat1 == t.fat && cluster0 == Head(t.cs)
  }

  // ----- freeing

  /** The shortening loop: the entries of the clusters from position i on are
      zeroed in order. */
  function ZeroFrom(fat: Fat, cs: seq<nat>, i: nat): Fat
    requires i <= |cs| && forall j :: 0 <= j < |cs| ==> cs[j] < |fat|
    decreases |cs| - i
  {
    if i == |cs| then fat else ZeroFrom(fat[cs[i] := 0], cs, i + 1)
  }

  lemma {:induction false} ZeroEntries(fat: Fat, cs: seq<nat>, i: nat)
    requires i <= |cs| && forall j :: 0 <= j < |cs| ==> cs[j] < |fat|
    ensures |ZeroFrom(fat, cs, i)| == |fat|
    ensures forall d :: 0 <= d < |fat| ==> ZeroFrom(fat, cs, i)[d] == if d in cs[i..] then 0 else fat[d]
    decreases |cs| - i
  {
    if i < |cs| {
      ZeroEntries(fat[cs[i] := 0], cs, i + 1);
      assert cs[i..] == [cs[i]] + cs[i+1..];
    }
  }

  lemma {:induction false} ZeroCount(fat: Fat, cs: seq<nat>, i: nat)
    requires i <= |cs| && 2 <= |fat| && InTable(fat, cs) && Distinct(cs)
    requires forall j :: i <= j < |cs| ==> fat[cs[j]] != 0
    ensures |ZeroFrom(fat, cs, i)| == |fat|
    ensures FreeCount(ZeroFrom(fat, cs, i)) == FreeCount(fat) + |cs| - i
    decreases |cs| - i
  {
    if i < |cs| {
      FreeUpdate(fat, 2, cs[i], 0);
      ZeroCount(fat[cs[i] := 0], cs, i + 1);
    }
  }

  /** Shortening from position s on has come to position z. */
  ghost predicate Zeroing(fat: Fat, cs: seq<nat>, s: nat, z: nat, now: Fat) {
    && IsChain(fat, cs) && |now| == |fat| && s <= z <= |cs|
    && ZeroFrom(fat, cs, s) == ZeroFrom(now, cs, z)
    && forall j :: z <= j < |cs| ==> now[cs[j]] == fat[cs[j]]
  }

  lemma {:induction false} ZeroingStep(fat: Fat, cs: seq<nat>, s: nat, z: nat, now: Fat)
    requires Zeroing(fat, cs, s, z, now) && z < |cs|
    ensures 2 <= cs[z] < |now| && Zeroing(fat, cs, s, z + 1, now[cs[z] := 0])
  {
  }

  /** The next entry to be read is still what it was. */
  lemma {:induction false} ZeroingReads(fat: Fat, cs: seq<nat>, s: nat, z: nat, now: Fat)
    requires Zeroing(fat, cs, s, z, now) && z < |cs|
    ensures 2 <= cs[z] < |now| && now[cs[z]] == After(fat, cs, z + 1)
  {
  }

  lemma {:induction false} ZeroingEnds(fat: Fat, cs: seq<nat>, s: nat, now: Fat)
    requires Zeroing(fat, cs, s, |cs|, now)
    ensures now == ZeroFrom(fat, cs, s)
  {
  }

  // ----- fobj_trunc

  /** Where the entries begin that shortening to n clusters zeroes. */
  function CutFrom(n: nat): nat { if n == 0 then 0 else n - 1 }

  /** The table and the file's clusters after `fobj_trunc` to `target` clusters.
      Shortening to a number of clusters that is not zero begins with the last
      one that is kept. */
  function Trunc(fat: Fat, cs: seq<nat>, target: nat): Change
    requires 2 <= |fat| && forall j :: 0 <= j < |cs| ==> cs[j] < |fat|
  {
    if target > |cs| then Grow(fat, cs, target - |cs|)
    else Change(Ok, ZeroFrom(fat, cs, CutFrom(target)), cs[..target])
  }

  /** The shortening loop with k clusters reached: the entries before position
      k - 1 are zeroed, and with `done` also that one. */
  ghost predicate CutTo(fat: Fat, cs: seq<nat>, target: nat, k: nat, done: bool, now: Fat) {
    && target <= k <= |cs| && cs != [] && |fat| <= FAT_EOC
    && Zeroing(fat, cs, CutFrom(target), if done then k else CutFrom(k), now)
  }

  /** Its variables: the last cluster reached and what comes behind it. */
  ghost predicate CutVars(fat: Fat, cs: seq<nat>, k: nat, p: nat, c: nat) {
    k <= |cs| && InTable(fat, cs) && p == Last(cs[..k]) && c == After(fat, cs, k)
  }

  lemma {:induction false} CutStarts(fat: Fat, cs: seq<nat>, target: nat)
    requires IsChain(fat, cs) && target <= |cs| && cs != [] && |fat| <= FAT_EOC
    ensures CutTo(fat, cs, target, target, false, fat)
  {
  }

  lemma {:induction false} CutStores(fat: Fat, cs: seq<nat>, target: nat, k: nat, p: nat, c: nat, now: Fat)
    requires CutTo(fat, cs, target, k, false, now) && CutVars(fat, cs, k, p, c)
    ensures if k == 0 then p == 0 && CutTo(fat, cs, target, k, true, now)
            else 2 <= p < |now| && CutTo(fat, cs, target, k, true, now[p := 0])
  {
    if k > 0 {
      ZeroingStep(fat, cs, CutFrom(target), k - 1, now);
      assert p == cs[k-1];
    }
  }

  lemma {:induction false} CutEnds(fat: Fat, cs: seq<nat>, target: nat, k: nat, p: nat, c: nat, now: Fat)
    requires CutTo(fat, cs, target, k, false, now) && CutVars(fat, cs, k, p, c)
    ensures c >= FAT_EOC <==> k == |cs|
    ensures k < |cs| ==> c == cs[k]
  {
    AfterStep(fat, cs, k);
  }

  lemma {:induction false} CutMoves(fat: Fat, cs: seq<nat>, target: nat, k: nat, now: Fat)
    requires CutTo(fat, cs, target, k, true, now) && k < |cs|
    ensures CutTo(fat, cs, target, k + 1, false, now)
    ensures 2 <= cs[k] < |now| && CutVars(fat, cs, k + 1, cs[k], now[cs[k]])
  {
    ZeroingReads(fat, cs, CutFrom(target), k, now);
  }

  lemma {:induction false} CutDone(fat: Fat, cs: seq<nat>, target: nat, now: Fat)
    requires CutTo(fat, cs, target, |cs|, true, now) && 2 <= |fat|
    ensures Trunc(fat, cs, target) == Change(Ok, now, cs[..target])
  {
    ZeroingEnds(fat, cs, CutFrom(target), now);
  }

  /** The outcome of the loops of `fobj_trunc`: the error number, the table, and
      the file's first cluster. */
  ghost predicate Resized(fat: Fat, cs: seq<nat>, target: nat, rc: Rc, fat1: Fat, cluster0: nat) {
    && 2 <= |fat| && InTable(fat, cs)
    && var t := Trunc(fat, cs, target); rc == t.rc && fat1 == t.fat && cluster0 == Head(t.cs)
  }

  lemma {:induction false} GrewResized(fat: Fat, cs: seq<nat>, target: nat, rc: Rc, fat1: Fat, cluster0: nat)
    requires IsChain(fat, cs) && |cs| < target && GrewTo(fat, cs, target, rc, fat1, cluster0)
    ensures Resized(fat, cs, target, rc, fat1, cluster0)
  {
  }

  lemma {:induction false} CutResized(fat: Fat, cs: seq<nat>, target: nat, now: Fat)
    requires CutTo(fat, cs, target, |cs|, true, now) && 2 <= |fat|
    ensures Resized(fat, cs, target, Ok, now, if target == 0 then 0 else Head(cs))
  {
    CutDone(fat, cs, target, now);
  }

  lemma {:induction false} EmptyResized(fat: Fat)
    requires 2 <= |fat|
    ensures Resized(fat, [], 0, Ok, fat, 0)
  {
  }

  /** The file's clusters in the new table are linked in the same order, as far
      as both lists go, and only the file's own and free entries change. */
  ghost predicate OnlyFile(fat: Fat, cs: seq<nat>, t: Change) {
    && |t.fat| == |fat| && Linked(t.fat, t.cs)
    && (cs <= t.cs || t.cs <= cs)
    && (forall c :: c in t.cs && c !in cs ==> c < |fat| && fat[c] == 0)
    && (forall d :: 0 <= d < |fat| && d !in cs && d !in t.cs ==> t.fat[d] == fat[d])
  }

  lemma {:induction false} GrowOnly(fat: Fat, cs: seq<nat>, n: nat)
    requires 2 <= |fat| && IsChain(fat, cs)
    ensures Last(cs) < |fat| && OnlyFile(fat, cs, Grow(fat, cs, n))
  {
    hide Grow;
    GrowKeeps(fat, cs, n);
    var t := Grow(fat, cs, n);
    forall c | c in t.cs && c !in cs ensures c < |fat| && fat[c] == 0 {
      var i: nat :| i < |t.cs| && t.cs[i] == c;
      assert t.cs[..|cs|] == cs;
      assert i >= |cs|;
    }
  }

  lemma {:induction false} ZeroOnly(fat: Fat, cs: seq<nat>, target: nat)
    requires 2 <= |fat| && IsChain(fat, cs) && target <= |cs|
    ensures OnlyFile(fat, cs, Change(Ok, ZeroFrom(fat, cs, CutFrom(target)), cs[..target]))
  {
    hide ZeroFrom;
    var i := CutFrom(target);
    ZeroEntries(fat, cs, i);
    assert forall d :: d in cs[i..] ==> d in cs;
    if target > 0 {
      ZeroLinks(fat, cs, target);
    }
  }

  /** Whatever the target: the file's clusters are still linked in the same
      order, only the file's entries and free ones change, and it fails only for
      want of free clusters. */
  lemma {:induction false} TruncLinks(fat: Fat, cs: seq<nat>, target: nat)
    requires 2 <= |fat| && IsChain(fat, cs)
    ensures var t := Trunc(fat, cs, target);
      && OnlyFile(fat, cs, t)
      && (t.rc == Ok <==> target <= |cs| + FreeCount(fat)) && (t.rc == Ok || t.rc == NoSpc)
      && (t.rc == Ok ==> |t.cs| == target)
  {
    hide Grow, ZeroFrom;
    if target > |cs| {
      GrowKeeps(fat, cs, target - |cs|);
      GrowOnly(fat, cs, target - |cs|);
    } else {
      ZeroOnly(fat, cs, target);
    }
  }

  /** Shortening to a number of clusters that is not zero frees the last one that is kept
      and all behind it, and changes no other entry. */
  lemma {:induction false} TruncFrees(fat: Fat, cs: seq<nat>, target: nat)
    requires 2 <= |fat| && IsChain(fat, cs) && 0 < target <= |cs|
    ensures var t := Trunc(fat, cs, target);
      && t.cs == cs[..target] && |t.fat| == |fat|
      && (forall d :: 0 <= d < |fat| ==> t.fat[d] == if d in cs[target - 1..] then 0 else fat[d])
      && FreeCount(t.fat) == FreeCount(fat) + |cs| - target + 1
  {
    ZeroEntries(fat, cs, target - 1);
    forall j | 0 <= j < |cs| ensures fat[cs[j]] != 0 {
      assert j < |cs| - 1 ==> fat[cs[j]] == cs[j+1] >= 2;
    }
    ZeroCount(fat, cs, target - 1);
    hide ZeroFrom, FreeCount;
  }

  /** No cluster below c is free. */
  ghost predicate NoneBelow(fat: Fat, c: nat) {
    forall d :: 2 <= d < c && d < |fat| ==> fat[d] != 0
  }

  /** The clusters from position k on were free in `fat`, are the lowest that were, and
      ascend; the last of them carries the end mark 0xfff, and no cluster is freed. */
  ghost predicate LowestTaken(fat: Fat, k: nat, t: Change) {
    && |t.fat| == |fat| && k <= |t.cs|
    && (forall i :: k <= i < |t.cs| ==> 2 <= t.cs[i] < |fat| && fat[t.cs[i]] == 0 && NoneBelow(t.fat, t.cs[i]))
    && (forall i, j :: k <= i < j < |t.cs| ==> t.cs[i] < t.cs[j])
    && (forall d :: 0 <= d < |fat| && fat[d] != 0 ==> t.fat[d] != 0)
    && (if k == |t.cs| then t.fat == fat else t.fat[t.cs[|t.cs|-1]] == 0xfff)
  }

  /** Growing takes the lowest free clusters. */
  lemma {:induction false} GrowsLowest(fat: Fat, cs: seq<nat>, n: nat)
    requires 2 <= |fat| && IsChain(fat, cs)
    ensures Last(cs) < |fat| && LowestTaken(fat, |cs|, Grow(fat, cs, n))
    decreases n
  {
    hide Append, Grow, FreeCount, IsChain, GrewBy;
    AppendKeeps(fat, cs);
    GrowDef(fat, cs, n);
    ChainIn(fat, cs);
    if n > 0 {
      var (rc, c, fat1) := Append(fat, Last(cs));
      if rc == Ok {
        AppendMarks(fat, cs);
        GrowsLowest(fat1, cs + [c], n - 1);
        GrowPrefix(fat1, cs + [c], n - 1);
        TakenFirst(fat, cs, c, fat1, Grow(fat1, cs + [c], n - 1));
      }
    }
  }

  lemma {:induction false} GrowPrefix(fat: Fat, cs: seq<nat>, n: nat)
    requires 2 <= |fat| && IsChain(fat, cs)
    ensures Last(cs) < |fat| && cs <= Grow(fat, cs, n).cs
  {
    GrowKeeps(fat, cs, n);
    hide Grow;
  }

  /** The cluster that one turn takes. */
  lemma {:induction false} AppendMarks(fat: Fat, cs: seq<nat>)
    requires 2 <= |fat| && Last(cs) < |fat| && Append(fat, Last(cs)).0 == Ok && Append(fat, Last(cs)).1 !in cs
    ensures var (_, c, fat1) := Append(fat, Last(cs));
      && 2 <= c < |fat| == |fat1| && fat[c] == 0 && fat1[c] == 0xfff && NoneBelow(fat, c)
      && forall d :: 0 <= d < |fat| && d != c ==> fat1[d] == fat[d] || fat1[d] != 0
  {
  }

  /** What the first turn has taken stays the lowest. */
  lemma {:induction false} TakenFirst(fat: Fat, cs: seq<nat>, c: nat, fat1: Fat, t: Change)
    requires |fat| == |fat1| && LowestTaken(fat1, |cs| + 1, t) && cs + [c] <= t.cs
    requires 2 <= c < |fat| && fat[c] == 0 && fat1[c] == 0xfff && NoneBelow(fat, c)
    requires forall d :: 0 <= d < |fat| && d != c ==> fat1[d] == fat[d] || fat1[d] != 0
    ensures LowestTaken(fat, |cs|, t)
  {
    PrefixJoin(cs, c, t.cs);
    forall i | |cs| <= i < |t.cs| ensures fat[t.cs[i]] == 0 && NoneBelow(t.fat, t.cs[i]) && (i > |cs| ==> c < t.cs[i]) {
      if i > |cs| {
        assert fat1[t.cs[i]] == 0;
      }
    }
  }

  /** With too few free clusters the file still has all its own. */
  lemma {:induction false} TruncGrows(fat: Fat, cs: seq<nat>, target: nat)
    requires 2 <= |fat| && IsChain(fat, cs)
    ensures var t := Trunc(fat, cs, target); t.rc == NoSpc ==> cs <= t.cs && IsChain(t.fat, t.cs) && target > |cs|
  {
    if target > |cs| {
      GrowKeeps(fat, cs, target - |cs|);
      hide Grow, IsChain;
    }
  }

  lemma {:induction false} TruncTakes(fat: Fat, cs: seq<nat>, target: nat)
    requires 2 <= |fat| && IsChain(fat, cs)
    ensures var t := Trunc(fat, cs, target); t.rc == NoSpc ==> |t.cs| == |cs| + FreeCount(fat)
  {
    ChainIn(fat, cs);
    hide Grow, IsChain, FreeCount;
    if target > |cs| {
      GrowKeeps(fat, cs, target - |cs|);
    }
  }

  lemma {:induction false} ZeroLinks(fat: Fat, cs: seq<nat>, target: nat)
    requires 2 <= |fat| && IsChain(fat, cs) && 0 < target <= |cs|
    ensures |ZeroFrom(fat, cs, target - 1)| == |fat| && Linked(ZeroFrom(fat, cs, target - 1), cs[..target])
  {
    ZeroEntries(fat, cs, target - 1);
    forall i | 0 <= i < target - 1 ensures ZeroFrom(fat, cs, target - 1)[cs[i]] == cs[i+1] {
      assert cs[i] !in cs[target-1..] by {
        assert forall j :: target - 1 <= j < |cs| ==> cs[j] != cs[i];
      }
    }
  }

  /** Clusters that lead to a free one belong to no chain. */
  lemma {:induction false} FreeEnd(fat: Fat, cs: seq<nat>)
    requires |fat| <= FAT_EOC && Linked(fat, cs) && cs != [] && fat[Last(cs)] == 0
    ensures forall ds :: IsChain(fat, ds) ==> Head(ds) != Head(cs)
  {
    forall ds | IsChain(fat, ds) && Head(ds) == Head(cs) ensures false {
      ChainUnique(fat, cs, ds, |cs| - 1);
      FreeNotLinked(fat, ds, ds[|cs|-1]);
    }
  }

  /** The chain survives exactly when the file grows by a cluster or is emptied:
      otherwise the last cluster that is kept is marked free, and no chain begins
      at the file's first cluster any more. */
  lemma {:induction false} TruncChain(fat: Fat, cs: seq<nat>, target: nat)
    requires 2 <= |fat| <= FAT_EOC && IsChain(fat, cs)
    ensures var t := Trunc(fat, cs, target);
      && |t.fat| == |fat|
      && (IsChain(t.fat, t.cs) <==> target == 0 || target > |cs|)
      && ((exists ds :: IsChain(t.fat, ds) && Head(ds) == Head(t.cs)) <==> target == 0 || target > |cs|)
  {
    hide Grow, ZeroFrom;
    var t := Trunc(fat, cs, target);
    TruncLinks(fat, cs, target);
    if target > |cs| {
      GrowKeeps(fat, cs, target - |cs|);
    } else if target > 0 {
      ZeroEntries(fat, cs, target - 1);
      assert cs[target-1] in cs[target-1..];
      FreeEnd(t.fat, t.cs);
    } else {
      assert IsChain(t.fat, []);
    }
  }

  lemma {:induction false} TruncStays(fat: Fat, cs: seq<nat>, target: nat)
    requires 2 <= |fat| <= FAT_EOC && IsChain(fat, cs)
    ensures var t := Trunc(fat, cs, target); IsChain(t.fat, t.cs) <==> target == 0 || target > |cs|
  {
    TruncChain(fat, cs, target);
  }

  /** Writing 10 bytes more to a file of 10 bytes marks its only cluster free. */
  lemma {:induction false} TruncBreaks()
    ensures IsChain([0xff0, 0xfff, 0xfff, 0], [2])
    ensures Trunc([0xff0, 0xfff, 0xfff, 0], [2], 1) == Change(Ok, [0xff0, 0xfff, 0, 0], [2])
    ensures LowestFree([0xff0, 0xfff, 0, 0], 2) == 2
  {
    var fat := [0xff0, 0xfff, 0xfff, 0];
    assert ZeroFrom(fat, [2], 0) == ZeroFrom(fat[2 := 0], [2], 1) == fat[2 := 0];
    assert [2][..1] == [2];
  }

  // ----- all files of a volume

  ghost predicate Disjoint(cs: seq<nat>, ds: seq<nat>) {
    forall c :: c in cs ==> c !in ds
  }

  /** The files have chains, and no two share a cluster. */
  ghost predicate WellFormed(fat: Fat, files: seq<seq<nat>>) {
    && 2 <= |fat| <= FAT_EOC
    && (forall f :: 0 <= f < |files| ==> IsChain(fat, files[f]))
    && (forall f, g :: 0 <= f < |files| && 0 <= g < |files| && f != g ==> Disjoint(files[f], files[g]))
  }

  function Clusters(files: seq<seq<nat>>): nat {
    if files == [] then 0 else |files[0]| + Clusters(files[1..])
  }

  lemma {:induction false} ClustersUpdate(files: seq<seq<nat>>, f: nat, cs: seq<nat>)
    requires f < |files|
    ensures Clusters(files[f := cs]) == Clusters(files) + |cs| - |files[f]|
  {
    if f > 0 {
      ClustersUpdate(files[1..], f - 1, cs);
      assert files[f := cs][1..] == files[1..][f - 1 := cs];
    } else {
      assert files[f := cs][1..] == files[1..];
    }
  }

  /** Growing or emptying one file leaves every other chain as it is and shares
      no cluster with it. */
  lemma {:induction false} OtherChain(fat: Fat, cs: seq<nat>, ds: seq<nat>, target: nat)
    requires 2 <= |fat| <= FAT_EOC && IsChain(fat, cs) && IsChain(fat, ds) && Disjoint(cs, ds)
    ensures var t := Trunc(fat, cs, target);
      && |t.fat| == |fat| && IsChain(t.fat, ds) && Disjoint(t.cs, ds) && Disjoint(ds, t.cs)
      && forall c :: c in ds ==> t.fat[c] == fat[c]
  {
    hide Trunc;
    var t := Trunc(fat, cs, target);
    TruncLinks(fat, cs, target);
    forall c | c in ds ensures c < |fat| && fat[c] != 0 {
      var i: nat :| i < |ds| && ds[i] == c;
      assert i < |ds| - 1 ==> fat[ds[i]] == ds[i+1] >= 2;
    }
  }

  /** The free clusters and the clusters of the file together stay as many. */
  lemma {:induction false} TruncConserves(fat: Fat, cs: seq<nat>, target: nat)
    requires 2 <= |fat| && IsChain(fat, cs) && (target == 0 || target > |cs|)
    ensures var t := Trunc(fat, cs, target); |t.fat| == |fat| && FreeCount(t.fat) + |t.cs| == FreeCount(fat) + |cs|
  {
    if target > |cs| {
      GrowKeeps(fat, cs, target - |cs|);
    } else {
      forall j | 0 <= j < |cs| ensures fat[cs[j]] != 0 {
        assert j < |cs| - 1 ==> fat[cs[j]] == cs[j+1] >= 2;
      }
      ZeroCount(fat, cs, 0);
    }
  }

  /** One call of `fobj_trunc` on file f. */
  datatype Call = Call(f: nat, target: nat)

  ghost predicate Allowed(files: seq<seq<nat>>, call: Call) {
    call.f < |files| && (call.target == 0 || call.target > |files[call.f]|)
  }

  lemma {:induction false} CallKeeps(fat: Fat, files: seq<seq<nat>>, call: Call)
    requires WellFormed(fat, files) && Allowed(files, call)
    ensures var t := Trunc(fat, files[call.f], call.target); var now := files[call.f := t.cs];
      WellFormed(t.fat, now) && FreeCount(t.fat) + Clusters(now) == FreeCount(fat) + Clusters(files)
  {
    hide Trunc;
    var t := Trunc(fat, files[call.f], call.target);
    TruncChain(fat, files[call.f], call.target);
    TruncConserves(fat, files[call.f], call.target);
    ClustersUpdate(files, call.f, t.cs);
    forall g | 0 <= g < |files| && g != call.f
      ensures IsChain(t.fat, files[g]) && Disjoint(t.cs, files[g]) && Disjoint(files[g], t.cs)
    {
      OtherChain(fat, files[call.f], files[g], call.target);
    }
  }

  /** The table and the files after a run of calls that grow and empty files. */
  ghost function Run(fat: Fat, files: seq<seq<nat>>, calls: seq<Call>): (r: (Fat, seq<seq<nat>>))
    requires WellFormed(fat, files) && forall i :: 0 <= i < |calls| ==> calls[i].f < |files|
    decreases |calls|
  {
    if calls == [] || !Allowed(files, calls[0]) then (fat, files)
    else
      var t := Trunc(fat, files[calls[0].f], calls[0].target);
      CallKeeps(fat, files, calls[0]);
      Run(t.fat, files[calls[0].f := t.cs], calls[1..])
  }

  /** Over every run the files keep disjoint chains that end, and the number of
      free clusters plus the lengths of all chains never changes. */
  lemma {:induction false} RunConserves(fat: Fat, files: seq<seq<nat>>, calls: seq<Call>)
    requires WellFormed(fat, files) && forall i :: 0 <= i < |calls| ==> calls[i].f < |files|
    ensures var (fat1, files1) := Run(fat, files, calls);
      WellFormed(fat1, files1) && FreeCount(fat1) + Clusters(files1) == FreeCount(fat) + Clusters(files)
    decreases |calls|
  {
    if calls != [] && Allowed(files, calls[0]) {
      var t := Trunc(fat, files[calls[0].f], calls[0].target);
      CallKeeps(fat, files, calls[0]);
      RunConserves(t.fat, files[calls[0].f := t.cs], calls[1..]);
    }
  }
}

/** Finding a file by its path (kernel/fat/dir.c:dir_find_path).

    A path is a list of names with slashes between them; each name is looked up in
    the directory that the names before it lead to. */
module PathWalk {
  import opened Bytes
  import opened CacheSpec
  import opened Fat12
  import opened Dirents
  import opened Paths
  import opened Directory

  const FA_DIR: Byte := 16

  predicate IsDir(info: Info) { info.dir[11] / FA_DIR % 2 == 1 }

  function Cluster0(info: Info): nat { Number(info.dir, 26, 2) }

  /** What stands for the root directory, which has no entry of its own. */
  const ROOT: Info := Info(0, [32, 32, 32, 32, 32, 32, 32, 32, 32, 32, 32, FA_DIR] +
                              [0, 0, 0, 0, 0, 0, 0, 0, 0, 0, 0, 0, 0, 0, 0, 0, 0, 0, 0, 0])

  lemma {:induction false} RootIsDir()
    ensures IsDir(ROOT) && Cluster0(ROOT) == 0
  {
    assert ROOT.dir[26] == 0 && ROOT.dir[27] == 0;
    assert Number(ROOT.dir, 28, 0) == 0;
    assert Number(ROOT.dir, 27, 1) == 0;
  }

  // ----- the names in a path

  /** Where the run of bytes without a slash ends. */
  function RunEnd(fn: seq<Byte>): (e: nat)
    ensures e <= |fn| && (e < |fn| ==> fn[e] == SLASH) && (fn != [] && fn[0] != SLASH ==> e > 0)
    ensures forall i :: 0 <= i < e ==> fn[i] != SLASH
  {
    if fn == [] || fn[0] == SLASH then 0 else 1 + RunEnd(fn[1..])
  }

  lemma {:induction false} RunEndIs(fn: seq<Byte>, e: nat)
    requires e <= |fn| && (e < |fn| ==> fn[e] == SLASH) && forall i :: 0 <= i < e ==> fn[i] != SLASH
    ensures RunEnd(fn) == e
  {
  }

  function Elements(fn: seq<Byte>): seq<seq<Byte>>
    decreases |fn|
  {
    if fn == [] then []
    else if fn[0] == SLASH then Elements(fn[1..])
    else [fn[..RunEnd(fn)]] + Elements(fn[RunEnd(fn)..])
  }

  /** Slashes before a path do not matter. */
  lemma {:induction false} SkipSlashes(fn: seq<Byte>, n: nat)
    requires n <= |fn| && forall i :: 0 <= i < n ==> fn[i] == SLASH
    ensures Elements(fn) == Elements(fn[n..])
    decreases n
  {
    if n > 0 {
      SkipSlashes(fn[1..], n - 1);
      assert fn[1..][n - 1..] == fn[n..];
    }
  }

  /** Two paths with a slash between them have the names of both: it does not
      matter how many slashes there are, nor where they are beside the names. */
  lemma {:induction false} ElementsJoin(a: seq<Byte>, b: seq<Byte>)
    ensures Elements(a + [SLASH] + b) == Elements(a) + Elements(b)
    decreases |a|
  {
    var fn := a + [SLASH] + b;
    if a == [] {
      assert fn[1..] == b;
    } else if a[0] == SLASH {
      ElementsJoin(a[1..], b);
      assert fn[1..] == a[1..] + [SLASH] + b;
    } else {
      var e := RunEnd(a);
      RunEndIs(fn, e);
      ElementsJoin(a[e..], b);
      assert fn[..e] == a[..e] && fn[e..] == a[e..] + [SLASH] + b;
    }
  }

  /** A path without a slash, 47, is one name, or none if it is empty. */
  lemma {:induction false} ElementsOne(fn: seq<Byte>)
    requires 47 !in fn
    ensures Elements(fn) == if fn == [] then [] else [fn]
  {
    if fn != [] {
      assert fn[0] in fn;
      RunEndIs(fn, |fn|);
      assert fn[..|fn|] == fn && fn[|fn|..] == [];
    }
  }

  // ----- the tree of directories

  /** The directories of a volume by their first clusters. */
  type Tree = map<nat, Dir>

  /** 0 is the root, and whatever a search for a name can find that is marked a
      directory is one. */
  ghost predicate GoodTree(s: Searcher, tree: Tree) {
    && 0 in tree && (forall c :: c in tree ==> s.Names(c, tree[c]))
    && forall c, n :: c in tree ==> LeadsOn(s, tree, tree[c], n)
  }

  ghost predicate LeadsOn(s: Searcher, tree: Tree, d: Dir, n: Name) {
    match Search(s.rd.v, s.rd.img, d, Named(n), 0)
    case Missing => true
    case Hit(i) => IsDir(InfoAt(s.rd.v, s.rd.img, d, i)) ==> Cluster0(InfoAt(s.rd.v, s.rd.img, d, i)) in tree
  }

  datatype Resolved = Nowhere | There(info: Info)

  /** The name looked up in what `info` names, if that is a directory. */
  ghost function Lookup(s: Searcher, tree: Tree, info: Info, name: seq<Byte>): Resolved {
    if !IsDir(info) || Cluster0(info) !in tree || Parse(name, |name|) == Bad then Nowhere
    else
      var d := tree[Cluster0(info)];
      match Search(s.rd.v, s.rd.img, d, Named(Parse(name, |name|).name), 0)
      case Missing => Nowhere
      case Hit(i) => There(InfoAt(s.rd.v, s.rd.img, d, i))
  }

  /** Names looked up one after the other, from `info` on. */
  ghost function Resolve(s: Searcher, tree: Tree, info: Info, names: seq<seq<Byte>>): Resolved
    decreases |names|
  {
    if names == [] then There(info)
    else
      match Lookup(s, tree, info, names[0])
      case Nowhere => Nowhere
      case There(x) => Resolve(s, tree, x, names[1..])
  }

  /** From a directory a name that parses leads to the first of its entries with the
      parsed name, if no entry up to there begins with a zero, and nowhere otherwise. */
  lemma {:induction false} LookupIs(s: Searcher, tree: Tree, info: Info, name: seq<Byte>, n: Name)
    requires IsDir(info) && Cluster0(info) in tree && At(name, |name|) != DOT && Parse(name, |name|) == Good(n)
    ensures var v, img, d := s.rd.v, s.rd.img, tree[Cluster0(info)];
      match Lookup(s, tree, info, name)
      case Nowhere => forall i :: 0 <= i < Count(v, d) && NameAt(v, img, d, i) == n ==>
        exists z :: 0 <= z <= i && NameAt(v, img, d, z)[0] == 0
      case There(x) => exists i ::
        && 0 <= i < Count(v, d) && NameAt(v, img, d, i) == n && x == InfoAt(v, img, d, i)
        && forall z :: 0 <= z < i ==> NameAt(v, img, d, z) != n && NameAt(v, img, d, z)[0] != 0
  {
    var v, img, d := s.rd.v, s.rd.img, tree[Cluster0(info)];
    SearchFinds(v, img, d, Named(n), 0);
    hide Search, NameAt, InfoAt, Parse, IsDir;
    match Search(v, img, d, Named(n), 0)
    case Missing =>
    case Hit(i) =>
      forall z | 0 <= z < i ensures NameAt(v, img, d, z) != n && NameAt(v, img, d, z)[0] != 0 {
        assert Passed(v, img, d, Named(n), z);
      }
  }

  /** Resolving a path in two parts is resolving the second from where the first
      leads. */
  lemma {:induction false} ResolveJoin(s: Searcher, tree: Tree, info: Info, a: seq<seq<Byte>>, b: seq<seq<Byte>>)
    ensures Resolve(s, tree, info, a + b) ==
            match Resolve(s, tree, info, a)
            case Nowhere => Nowhere
            case There(x) => Resolve(s, tree, x, b)
    decreases |a|
  {
    if a == [] {
      assert a + b == b;
    } else {
      assert (a + b)[0] == a[0] && (a + b)[1..] == a[1..] + b;
      match Lookup(s, tree, info, a[0])
      case Nowhere =>
      case There(x) => ResolveJoin(s, tree, x, a[1..], b);
    }
  }

  /** A path leads somewhere only when every part before its last name leads to a
      directory. */
  lemma {:induction false} ThroughDirectories(s: Searcher, tree: Tree, info: Info, a: seq<seq<Byte>>, b: seq<seq<Byte>>)
    requires b != [] && Resolve(s, tree, info, a + b).There?
    ensures Resolve(s, tree, info, a).There? && IsDir(Resolve(s, tree, info, a).info)
    ensures Cluster0(Resolve(s, tree, info, a).info) in tree
  {
    ResolveJoin(s, tree, info, a, b);
  }

  /** The names are the same but for upper and lower case. */
  ghost predicate SameNames(a: seq<seq<Byte>>, b: seq<seq<Byte>>) {
    |a| == |b| && forall i :: 0 <= i < |a| ==> |a[i]| == |b[i]| && SameLetters(a[i], b[i], |a[i]|)
  }

  lemma {:induction false} SameRuns(p: seq<Byte>, q: seq<Byte>)
    requires |p| == |q| && SameLetters(p, q, |p|)
    ensures RunEnd(p) == RunEnd(q) && SameNames(Elements(p), Elements(q))
    decreases |p|
  {
    SameSlashes(p, q);
    var e := RunEnd(p);
    RunEndIs(q, e);
    if p == [] {
    } else if p[0] == SLASH {
      SameTail(p, q, 1);
      SameRuns(p[1..], q[1..]);
    } else {
      SameTail(p, q, e);
      SameRuns(p[e..], q[e..]);
      assert SameLetters(p[..e], q[..e], e) by {
        forall i | 0 <= i < e ensures Upper(At(p[..e], i)) == Upper(At(q[..e], i)) {
          assert Upper(At(p, i)) == Upper(At(q, i));
        }
      }
    }
  }

  lemma {:induction false} SameTail(p: seq<Byte>, q: seq<Byte>, n: nat)
    requires n <= |p| == |q| && SameLetters(p, q, |p|)
    ensures SameLetters(p[n..], q[n..], |p| - n)
  {
    forall i | 0 <= i < |p| - n ensures Upper(At(p[n..], i)) == Upper(At(q[n..], i)) {
      assert Upper(At(p, n + i)) == Upper(At(q, n + i));
    }
  }

  lemma {:induction false} SameSlashes(p: seq<Byte>, q: seq<Byte>)
    requires |p| == |q| && SameLetters(p, q, |p|)
    ensures forall i :: 0 <= i < |p| ==> (p[i] == SLASH <==> q[i] == SLASH)
  {
    forall i | 0 <= i < |p| ensures p[i] == SLASH <==> q[i] == SLASH {
      assert Upper(At(p, i)) == Upper(At(q, i));
    }
  }

  lemma {:induction false} SameResolved(s: Searcher, tree: Tree, info: Info, a: seq<seq<Byte>>, b: seq<seq<Byte>>)
    requires SameNames(a, b)
    ensures Resolve(s, tree, info, a) == Resolve(s, tree, info, b)
    decreases |a|
  {
    if a != [] {
      CaseBlind(a[0], b[0], |a[0]|);
      match Lookup(s, tree, info, a[0])
      case Nowhere =>
      case There(x) => SameResolved(s, tree, x, a[1..], b[1..]);
    }
  }

  /** Whether letters of a path are in upper or lower case does not matter. */
  lemma {:induction false} PathCaseBlind(s: Searcher, tree: Tree, p: seq<Byte>, q: seq<Byte>)
    requires |p| == |q| && SameLetters(p, q, |p|)
    ensures Resolve(s, tree, ROOT, Elements(p)) == Resolve(s, tree, ROOT, Elements(q))
  {
    SameRuns(p, q);
    SameResolved(s, tree, ROOT, Elements(p), Elements(q));
  }

  // ----- dir_find_path

  /** The first name of a path that begins with it. */
  lemma {:induction false} FirstElement(g: seq<Byte>, len: nat)
    requires 0 < len <= |g| && (len < |g| ==> g[len] == SLASH) && forall i :: 0 <= i < len ==> g[i] != SLASH
    ensures Elements(g) == [g[..len]] + Elements(g[len..])
  {
    RunEndIs(g, len);
  }

  /** The next name of a path, and the path behind it. */
  function NamesFrom(fn: seq<Byte>, start: nat, len: nat): seq<seq<Byte>>
    requires start + len <= |fn|
  {
    if len == 0 then [] else [fn[start..start + len]] + Elements(fn[start + len..])
  }

  lemma {:induction false} NoElements()
    ensures Elements([]) == []
  {
  }

  lemma {:induction false} Dropped(fn: seq<Byte>, i: nat, j: nat)
    requires i <= j <= |fn|
    ensures |fn[i..]| == |fn| - i && fn[i..][j - i..] == fn[j..] && fn[i..][..j - i] == fn[i..j]
    ensures forall k :: 0 <= k < |fn| - i ==> fn[i..][k] == fn[i + k]
  {
  }

  lemma {:induction false} NextElement(fn: seq<Byte>, at: nat, start: nat, len: nat)
    requires at <= start && start + len <= |fn|
    requires forall i :: at <= i < start ==> fn[i] == SLASH
    requires forall i :: start <= i < start + len ==> fn[i] != SLASH
    requires start + len < |fn| ==> fn[start + len] == SLASH
    requires len == 0 ==> start == |fn|
    ensures Elements(fn[at..]) == NamesFrom(fn, start, len)
  {
    hide Elements;
    Dropped(fn, at, start);
    SkipSlashes(fn[at..], start - at);
    if len > 0 {
      Dropped(fn, start, start + len);
      FirstElement(fn[start..], len);
    } else {
      assert fn[start..] == [];
      NoElements();
    }
  }

  /** The walk has come to `info`, and the names are still to be looked up. */
  ghost predicate Midway(s: Searcher, fn: seq<Byte>, tree: Tree, info: Info, names: seq<seq<Byte>>) {
    && Resolve(s, tree, ROOT, Elements(fn)) == Resolve(s, tree, info, names)
    && (IsDir(info) ==> Cluster0(info) in tree)
  }

  /** One turn of the loop: the first len bytes of the path are looked up. */
  method FindNext(s: Searcher, path: seq<Byte>, len: nat, cluster: nat, ghost tree: Tree, ghost info: Info)
    returns (rc: Rc, x: Info)
    requires GoodTree(s, tree) && IsDir(info) && cluster == Cluster0(info) && cluster in tree
    requires 0 < len <= |path| && At(path, len) != DOT
    ensures rc == Ok || rc == NoEnt || rc == Io || rc == NoMem
    ensures rc == Ok ==> Lookup(s, tree, info, path[..len]) == There(x) && (IsDir(x) ==> Cluster0(x) in tree)
    ensures rc == NoEnt ==> Lookup(s, tree, info, path[..len]) == Nowhere
  {
    rc, x := s.DirFindEnt(path, len, false, cluster, tree[cluster]);
    CaseBlind(path, path[..len], len);
    if Parse(path, len).Good? {
      assert LeadsOn(s, tree, tree[cluster], Parse(path, len).name);
    }
  }

  lemma {:induction false} MovesOn(s: Searcher, fn: seq<Byte>, tree: Tree, info: Info, name: seq<Byte>,
                                   names: seq<seq<Byte>>, x: Info)
    requires Midway(s, fn, tree, info, [name] + names)
    ensures Lookup(s, tree, info, name) == Nowhere ==> Resolve(s, tree, ROOT, Elements(fn)) == Nowhere
    ensures Lookup(s, tree, info, name) == There(x) && (IsDir(x) ==> Cluster0(x) in tree) ==>
      Midway(s, fn, tree, x, names)
  {
    assert ([name] + names)[1..] == names;
  }

  /** What is not a directory leads no further. */
  lemma {:induction false} EndsHere(s: Searcher, fn: seq<Byte>, tree: Tree, info: Info, names: seq<seq<Byte>>)
    requires Midway(s, fn, tree, info, names)
    ensures names == [] ==> Resolve(s, tree, ROOT, Elements(fn)) == There(info)
    ensures names != [] && !IsDir(info) ==> Resolve(s, tree, ROOT, Elements(fn)) == Nowhere
  {
  }

  /** The loop with the next name at `start`, len bytes long. */
  ghost predicate Looking(s: Searcher, fn: seq<Byte>, tree: Tree, info: Info, cluster: nat, start: nat, len: nat) {
    && start + len <= |fn| && (start + len < |fn| ==> fn[start + len] == SLASH)
    && Midway(s, fn, tree, info, NamesFrom(fn, start, len))
    && (len > 0 ==> IsDir(info) && cluster == Cluster0(info))
  }

  /** One turn of the loop. */
  method Turn(s: Searcher, fn: seq<Byte>, cluster0: nat, start0: nat, len0: nat, ghost tree: Tree, ghost was: Info)
    returns (rc: Rc, info: Info, cluster: nat, start: nat, len: nat)
    requires GoodTree(s, tree) && Looking(s, fn, tree, was, cluster0, start0, len0) && len0 > 0 && 0 !in fn
    ensures rc == Ok || rc == NoEnt || rc == Io || rc == NoMem
    ensures rc == Ok ==> Looking(s, fn, tree, info, cluster, start, len) && start >= start0 + len0
    ensures rc == NoEnt ==> Resolve(s, tree, ROOT, Elements(fn)) == Nowhere
  {
    hide IsDir, Cluster0, Resolve, Elements, GoodTree, Lookup;
    ghost var name := fn[start0..start0 + len0];
    assert fn[start0..][..len0] == name;
    assert At(fn[start0..], len0) != DOT;
    rc, info := FindNext(s, fn[start0..], len0, cluster0, tree, was);
    MovesOn(s, fn, tree, was, name, Elements(fn[start0 + len0..]), info);
    cluster, start, len := cluster0, start0, len0;
    if rc != Ok {
      return;
    }
    cluster := Cluster0(info);
    start, len := NextEle(fn, start0 + len0);
    NextElement(fn, start0 + len0, start, len);
    if len > 0 && !IsDir(info) {
      EndsHere(s, fn, tree, info, NamesFrom(fn, start, len));
      rc := NoEnt;
    }
  }

  /** `dir_find_path`.  An empty path names nothing, one of slashes the root. */
  method DirFindPath(s: Searcher, fn: seq<Byte>, ghost tree: Tree) returns (rc: Rc, info: Info)
    requires 0 !in fn && GoodTree(s, tree)
    ensures rc == Ok || rc == NoEnt || rc == Io || rc == NoMem
    ensures rc == Ok ==> fn != [] && Resolve(s, tree, ROOT, Elements(fn)) == There(info)
    ensures rc == NoEnt ==> fn == [] || Resolve(s, tree, ROOT, Elements(fn)) == Nowhere
  {
    RootIsDir();
    var start: nat, len: nat := NextEle(fn, 0);
    assert fn[0..] == fn;
    NextElement(fn, 0, start, len);
    if len == 0 && At(fn, 0) != SLASH {
      return NoEnt, NO_INFO;
    }
    rc, info := Ok, ROOT;
    var cluster := 0;
    hide IsDir, Cluster0, Resolve, Elements, GoodTree, Lookup, Midway;
    while len > 0
      invariant rc == Ok && Looking(s, fn, tree, info, cluster, start, len)
      decreases |fn| - start, len
    {
      rc, info, cluster, start, len := Turn(s, fn, cluster, start, len, tree, info);
      if rc != Ok {
        return;
      }
    }
    EndsHere(s, fn, tree, info, []);
  }
}

/** 8.3 names: parsing them (kernel/fat/path.c) and printing them as `ls` does
    (native/shell/MAIN.C). */
module Paths {
  import opened Bytes

  const SPACE: Byte := 32
  const DOT: Byte := 46
  const SLASH: Byte := 47
  const NAME_LEN: nat := 11

  type Name = s: seq<Byte> | |s| == 11 witness seq(11, i => 32)

  function Upper(c: Byte): (u: Byte)
    ensures u == DOT <==> c == DOT
    ensures !(97 <= u <= 122)
  {
    if 97 <= c <= 122 then c - 32 else c
  }

  /** Byte i of a C string: behind its end lies a zero. */
  function At(s: seq<Byte>, i: nat): Byte { if i < |s| then s[i] else 0 }

  // ----- parsing

  datatype Parsed = Bad | Good(name: Name)

  /** The names of the directory itself and of its parent are stored as they are. */
  predicate Dots(s: seq<Byte>, len: nat) {
    At(s, 0) == DOT && (len == 1 || At(s, 1) == DOT || len == 2)
  }

  /** Where the base of the name ends: at a dot, at the end, or after 8 bytes. */
  function BaseEnd(s: seq<Byte>, len: nat, d: nat): (e: nat)
    requires d <= 8 && d <= len
    ensures d <= e <= 8 && e <= len
    ensures forall i :: d <= i < e ==> At(s, i) != DOT
    ensures e < 8 && e < len ==> At(s, e) == DOT
    decreases 8 - d
  {
    if d == 8 || d == len || At(s, d) == DOT then d else BaseEnd(s, len, d + 1)
  }

  function FieldByte(s: seq<Byte>, i: nat, j: nat): Byte { if i < j then Upper(At(s, i)) else SPACE }

  /** The bytes of s from i up to j in upper case, filled up with spaces to n. */
  function Field(s: seq<Byte>, i: nat, j: nat, n: nat): (f: seq<Byte>)
    requires i <= j <= i + n
    ensures |f| == n
  {
    seq<Byte>(n, k requires 0 <= k => FieldByte(s, i + k, j))
  }

  lemma {:induction false} FieldAt(s: seq<Byte>, i: nat, j: nat, n: nat, k: nat)
    requires i <= j <= i + n && k < n
    ensures Field(s, i, j, n)[k] == FieldByte(s, i + k, j)
  {
  }

  /** `path_parse_fn` of the first len bytes of a string, which ends there or goes
      on with a slash. */
  function Parse(s: seq<Byte>, len: nat): Parsed
    requires At(s, len) != DOT
  {
    if Dots(s, len) then
      Good([DOT, if At(s, 1) == DOT then DOT else 0, 0, 0, 0, 0, 0, 0, 0, 0, 0])
    else
      var e := BaseEnd(s, len, 0);
      if e < len && At(s, e) != DOT then Bad
      else if e == len then Good(Field(s, 0, e, 8) + Field(s, e, e, 3))
      else if len - (e + 1) > 3 then Bad
      else Good(Field(s, 0, e, 8) + Field(s, e + 1, len, 3))
  }

  lemma {:induction false} BaseIs(s: seq<Byte>, len: nat, k: nat, d: nat)
    requires d <= k <= 8 && k <= len && forall i :: d <= i < k ==> At(s, i) != DOT
    requires k == 8 || k == len || At(s, k) == DOT
    ensures BaseEnd(s, len, d) == k
    decreases k - d
  {
    if d < k {
      BaseIs(s, len, k, d + 1);
    }
  }

  /** The strings that are no names: those with neither a dot nor an end in the first
      nine bytes, and those with more than three bytes behind the first dot.  What begins
      with a dot and has one or two bytes, or begins with two dots, is always a name. */
  lemma {:induction false} BadExactly(s: seq<Byte>, len: nat)
    requires At(s, len) != DOT
    ensures Parse(s, len) == Bad <==>
            && !(At(s, 0) == 46 && (len == 1 || len == 2 || At(s, 1) == 46))
            && exists e :: 0 <= e <= 8 && NoDots(s, e) && e < len &&
                 (if At(s, e) == 46 then len > e + 4 else e == 8)
  {
    var e := BaseEnd(s, len, 0);
    hide Field;
    if !Dots(s, len) {
      assert NoDots(s, e);
      forall e1 | 0 <= e1 <= 8 && NoDots(s, e1) && e1 < len && (if At(s, e1) == 46 then len > e1 + 4 else e1 == 8)
        ensures e1 == e
      {
      }
    }
  }

  /** There is no dot, 46, among the first n bytes. */
  ghost predicate NoDots(s: seq<Byte>, n: nat) {
    forall i :: 0 <= i < n ==> At(s, i) != 46
  }

  /** Byte i of a field: upper case, and spaces, 32, behind the end. */
  function Stored(s: seq<Byte>, i: nat): Byte {
    if i >= |s| then 32 else if 97 <= s[i] <= 122 then s[i] - 32 else s[i]
  }

  /** A base of up to eight bytes without a dot is stored in the first eight bytes of the
      name, upper case and filled up with spaces. */
  lemma {:induction false} ParsesBase(base: seq<Byte>, i: nat)
    requires 1 <= |base| <= 8 && 46 !in base && i < 11
    ensures var p := Parse(base, |base|); p.Good? && p.name[i] == if i < 8 then Stored(base, i) else 32
  {
    assert base[0] in base && forall k :: 0 <= k < |base| ==> base[k] in base && At(base, k) == base[k] != DOT;
    BaseIs(base, |base|, |base|, 0);
    if i < 8 {
      FieldAt(base, 0, |base|, 8, i);
    } else {
      FieldAt(base, |base|, |base|, 3, i - 8);
    }
    hide Field, BaseEnd;
  }

  /** With a dot and an extension of up to three bytes behind it the extension is stored in
      the last three. */
  lemma {:induction false} ParsesAs(base: seq<Byte>, ext: seq<Byte>, i: nat)
    requires 1 <= |base| <= 8 && |ext| <= 3 && 46 !in base && i < 11
    ensures var s := base + [46] + ext;
      At(s, |s|) != DOT && Parse(s, |s|).Good? && Parse(s, |s|).name[i] == if i < 8 then Stored(base, i) else Stored(ext, i - 8)
  {
    var s := base + [46] + ext;
    assert base[0] in base && forall k :: 0 <= k < |base| ==> base[k] in base && At(s, k) == base[k] != DOT;
    assert At(s, |base|) == DOT && At(s, |s|) == 0;
    BaseIs(s, |s|, |base|, 0);
    if i < 8 {
      FieldAt(s, 0, |base|, 8, i);
    } else {
      FieldAt(s, |base| + 1, |s|, 3, i - 8);
      assert i - 8 < |ext| ==> At(s, |base| + 1 + (i - 8)) == ext[i - 8];
    }
    hide Field, BaseEnd;
  }

  /** The directory itself and its parent: one or two dots and zeros behind them. */
  lemma {:induction false} ParsesDots(i: nat)
    requires i < 11
    ensures Parse([46], 1).Good? && Parse([46], 1).name[i] == if i == 0 then 46 else 0
    ensures Parse([46, 46], 2).Good? && Parse([46, 46], 2).name[i] == if i < 2 then 46 else 0
  {
    assert Dots([46], 1) && Dots([46, 46], 2);
  }

  /** The first len bytes differ only in case. */
  ghost predicate SameLetters(s: seq<Byte>, t: seq<Byte>, len: nat) {
    forall i :: 0 <= i < len ==> Upper(At(s, i)) == Upper(At(t, i))
  }

  lemma {:induction false} BaseSame(s: seq<Byte>, t: seq<Byte>, len: nat, d: nat)
    requires SameLetters(s, t, len) && d <= 8 && d <= len
    ensures BaseEnd(s, len, d) == BaseEnd(t, len, d)
    decreases 8 - d
  {
    assert d < len ==> Upper(At(s, d)) == Upper(At(t, d));
    if d < 8 && d < len {
      BaseSame(s, t, len, d + 1);
    }
  }

  lemma {:induction false} FieldSame(s: seq<Byte>, t: seq<Byte>, len: nat, i: nat, j: nat, n: nat)
    requires SameLetters(s, t, len) && i <= j <= i + n && j <= len
    ensures Field(s, i, j, n) == Field(t, i, j, n)
  {
    forall k | 0 <= k < n ensures Field(s, i, j, n)[k] == Field(t, i, j, n)[k] {
      FieldAt(s, i, j, n, k);
      FieldAt(t, i, j, n, k);
      assert i + k < j ==> Upper(At(s, i + k)) == Upper(At(t, i + k));
    }
  }

  /** Parsing does not depend on upper or lower case, nor on what comes behind
      the name. */
  lemma {:induction false} CaseBlind(s: seq<Byte>, t: seq<Byte>, len: nat)
    requires SameLetters(s, t, len) && At(s, len) != DOT && At(t, len) != DOT
    ensures Parse(s, len) == Parse(t, len)
  {
    assert forall i :: 0 <= i < len ==> Upper(At(s, i)) == Upper(At(t, i));
    assert len > 0 ==> Upper(At(s, 0)) == Upper(At(t, 0));
    assert len > 1 ==> Upper(At(s, 1)) == Upper(At(t, 1));
    if !Dots(s, len) {
      var e := BaseEnd(s, len, 0);
      BaseSame(s, t, len, 0);
      assert e < len ==> Upper(At(s, e)) == Upper(At(t, e));
      FieldSame(s, t, len, 0, e, 8);
      if e == len {
        FieldSame(s, t, len, e, e, 3);
      } else if At(s, e) == DOT && len - (e + 1) <= 3 {
        FieldSame(s, t, len, e + 1, len, 3);
      }
    }
  }

  // ----- printing

  /** The first n bytes without the spaces at their end. */
  function Trimmed(c: seq<Byte>, n: nat): (k: nat)
    requires n <= |c|
    ensures k <= n && (k > 0 ==> c[k-1] != SPACE) && forall i :: k <= i < n ==> c[i] == SPACE
  {
    if n == 0 || c[n-1] != SPACE then n else Trimmed(c, n - 1)
  }

  /** How many bytes from i on come before a space or position n. */
  function Word(c: seq<Byte>, i: nat, n: nat): (k: nat)
    requires i <= n <= |c|
    ensures i <= k <= n && (k < n ==> c[k] == SPACE) && forall j :: i <= j < k ==> c[j] != SPACE
    decreases n - i
  {
    if i == n || c[i] == SPACE then i else Word(c, i + 1, n)
  }

  /** A directory name as `ls` prints it. */
  function Print(c: Name): (s: seq<Byte>)
    ensures |s| <= 12
  {
    c[..Trimmed(c, 8)] + if c[8] == SPACE then [] else [DOT] + c[8..Word(c, 8, 11)]
  }

  /** A name made of a base that does not end in a space and an extension without spaces
      is printed as they are, with a dot, 46, between them if there is an extension. */
  lemma {:induction false} PrintsAs(c: Name, base: seq<Byte>, ext: seq<Byte>)
    requires |base| <= 8 && |ext| <= 3 && 32 !in ext && (base != [] ==> base[|base| - 1] != 32)
    requires c == base + seq(8 - |base|, i => 32) + ext + seq(3 - |ext|, i => 32)
    ensures Print(c) == if ext == [] then base else base + [46] + ext
  {
    TrimmedIs(c, 8, |base|);
    assert forall i :: 0 <= i < |ext| ==> c[8 + i] == ext[i] && ext[i] in ext;
    WordIs(c, 8, 11, 8 + |ext|);
    assert c[..|base|] == base && c[8..8 + |ext|] == ext;
    hide Trimmed, Word;
  }

  lemma {:induction false} TrimmedIs(c: seq<Byte>, n: nat, k: nat)
    requires k <= n <= |c| && (k > 0 ==> c[k - 1] != SPACE) && forall i :: k <= i < n ==> c[i] == SPACE
    ensures Trimmed(c, n) == k
  {
    if k < n {
      TrimmedIs(c, n - 1, k);
    }
  }

  lemma {:induction false} WordIs(c: seq<Byte>, i: nat, n: nat, k: nat)
    requires i <= k <= n <= |c| && (k < n ==> c[k] == SPACE) && forall j :: i <= j < k ==> c[j] != SPACE
    ensures Word(c, i, n) == k
    decreases k - i
  {
    if i < k {
      WordIs(c, i + 1, n, k);
    }
  }

  /** A name as names are stored: a base that is not blank and has no dot, nothing
      in lower case, and an extension filled up with spaces at its end. */
  ghost predicate Canonical(c: Name) {
    && Trimmed(c, 8) > 0
    && (forall i :: 0 <= i < 8 ==> c[i] != DOT)
    && (forall i :: 0 <= i < 11 ==> Upper(c[i]) == c[i])
    && (forall i :: Word(c, 8, 11) <= i < 11 ==> c[i] == SPACE)
  }

  /** The bytes that are printed. */
  lemma {:induction false} PrintAt(c: Name, i: nat)
    ensures var s, k, w := Print(c), Trimmed(c, 8), Word(c, 8, 11);
      && |s| == (if c[8] == SPACE then k else k + 1 + (w - 8))
      && At(s, |s|) == 0
      && (i < k ==> At(s, i) == c[i])
      && (c[8] != SPACE ==> At(s, k) == DOT && (k < i < |s| ==> At(s, i) == c[8 + (i - k - 1)]))
  {
  }

  /** Printing without a dot in the base: it ends where the trimmed base ends. */
  lemma {:induction false} PrintBase(c: Name)
    requires Trimmed(c, 8) > 0 && forall i :: 0 <= i < 8 ==> c[i] != DOT
    ensures var s := Print(c); At(s, |s|) != DOT && !Dots(s, |s|) && BaseEnd(s, |s|, 0) == Trimmed(c, 8)
  {
    var s, k := Print(c), Trimmed(c, 8);
    PrintAt(c, 0);
    forall i | 0 <= i < k ensures At(s, i) != DOT {
      PrintAt(c, i);
    }
    hide Print;
    BaseIs(s, |s|, k, 0);
  }

  lemma {:induction false} BaseField(c: Name)
    requires forall i :: 0 <= i < 11 ==> Upper(c[i]) == c[i]
    ensures Field(Print(c), 0, Trimmed(c, 8), 8) == c[..8]
  {
    forall i | 0 <= i < 8 ensures Field(Print(c), 0, Trimmed(c, 8), 8)[i] == c[i] {
      PrintAt(c, i);
    }
  }

  lemma {:induction false} ExtField(c: Name)
    requires forall i :: 0 <= i < 11 ==> Upper(c[i]) == c[i]
    requires forall i :: Word(c, 8, 11) <= i < 11 ==> c[i] == SPACE
    ensures var s, k := Print(c), Trimmed(c, 8);
      if c[8] == SPACE then |s| == k && Field(s, k, k, 3) == c[8..]
      else k < |s| <= k + 4 && At(s, k) == DOT && Field(s, k + 1, |s|, 3) == c[8..]
  {
    var s, k := Print(c), Trimmed(c, 8);
    PrintAt(c, 0);
    forall i | 0 <= i < 3
      ensures (if c[8] == SPACE then Field(s, k, k, 3) else Field(s, k + 1, |s|, 3))[i] == c[8..][i]
    {
      PrintAt(c, k + 1 + i);
      if c[8] == SPACE {
        FieldAt(s, k, k, 3, i);
      } else {
        FieldAt(s, k + 1, |s|, 3, i);
      }
      assert c[8..][i] == c[8 + i];
    }
  }

  /** Parsing what `ls` prints gives the stored name back. */
  lemma {:induction false} PrintParsed(c: Name)
    requires Canonical(c)
    ensures At(Print(c), |Print(c)|) != DOT && Parse(Print(c), |Print(c)|) == Good(c)
  {
    PrintBase(c);
    BaseField(c);
    ExtField(c);
    hide Print, Field, Trimmed, Word, Dots, BaseEnd;
    assert c == c[..8] + c[8..];
  }

  /** The name of the parent directory as it is parsed and stored. */
  const PARENT: Name := [46, 46, 0, 0, 0, 0, 0, 0, 0, 0, 0]

  /** A name with a blank base that is stored as such: no extension either, or one
      of two or three bytes that does not begin with a dot. */
  ghost predicate BlankStored(c: Name) {
    && Trimmed(c, 8) == 0
    && (forall i :: 0 <= i < 11 ==> Upper(c[i]) == c[i])
    && (forall i :: Word(c, 8, 11) <= i < 11 ==> c[i] == SPACE)
    && (c[8] == SPACE || (Word(c, 8, 11) >= 10 && c[8] != DOT))
  }

  /** What `ls` prints for a name is parsed as that name exactly when the name is
      canonical, or is the parent's, or has a blank base and an extension that is
      printed as neither one byte nor with a dot in front. */
  lemma {:induction false} ComesBack(c: Name)
    ensures At(Print(c), |Print(c)|) != DOT
    ensures Parse(Print(c), |Print(c)|) == Good(c) <==> Canonical(c) || c == PARENT || BlankStored(c)
  {
    PrintAt(c, 0);
    if Trimmed(c, 8) == 0 {
      BlankComesBack(c);
    } else if c[0] == DOT {
      DotComesBack(c);
    } else {
      assert PARENT[0] == DOT;
      OnlyCanonical(c);
    }
  }

  /** The condition for names with something in the base that does not begin with a
      dot. */
  lemma {:induction false} OnlyCanonical(c: Name)
    requires Trimmed(c, 8) > 0 && c[0] != DOT
    ensures At(Print(c), |Print(c)|) != DOT
    ensures Parse(Print(c), |Print(c)|) == Good(c) <==> Canonical(c)
  {
    if Parse(Print(c), |Print(c)|) == Good(c) {
      ParsedCanonical(c);
    }
    if Canonical(c) {
      PrintParsed(c);
    }
  }

  /** What a blank base is printed and parsed as. */
  lemma {:induction false} BlankParsed(c: Name)
    requires Trimmed(c, 8) == 0
    ensures var s := Print(c);
      && At(s, |s|) != DOT && (Dots(s, |s|) <==> c[8] != SPACE && (c[8] == DOT || Word(c, 8, 11) == 9))
      && (Dots(s, |s|) ==> Parse(s, |s|).Good? && Parse(s, |s|).name[0] == DOT)
      && (!Dots(s, |s|) ==>
            (c[8] == SPACE <==> |s| == 0) &&
            Parse(s, |s|) == Good(Field(s, 0, 0, 8) + if |s| == 0 then Field(s, 0, 0, 3) else Field(s, 1, |s|, 3)))
  {
    var s := Print(c);
    PrintAt(c, 0);
    PrintAt(c, 1);
    hide Field;
    assert BaseEnd(s, |s|, 0) == 0;
  }

  lemma {:induction false} BlankComesBack(c: Name)
    requires Trimmed(c, 8) == 0
    ensures At(Print(c), |Print(c)|) != DOT
    ensures Parse(Print(c), |Print(c)|) == Good(c) <==> BlankStored(c)
  {
    var s := Print(c);
    BlankParsed(c);
    hide Print, Field, Dots, BaseEnd, Parse;
    if !Dots(s, |s|) {
      var ext := if |s| == 0 then Field(s, 0, 0, 3) else Field(s, 1, |s|, 3);
      BlankField(s);
      ExtBytes(c, ext);
      assert c == c[..8] + c[8..];
      if Field(s, 0, 0, 8) + ext == c {
        assert ext == c[8..];
      }
    }
  }

  lemma {:induction false} BlankField(s: seq<Byte>)
    ensures forall i :: 0 <= i < 8 ==> Field(s, 0, 0, 8)[i] == SPACE
  {
  }

  /** The parsed extension is the stored one in upper case, with spaces behind the
      first space. */
  lemma {:induction false} ExtBytes(c: Name, ext: seq<Byte>)
    requires Trimmed(c, 8) == 0
    requires ext == if c[8] == SPACE then Field(Print(c), 0, 0, 3) else Field(Print(c), 1, |Print(c)|, 3)
    ensures |ext| == 3 && forall i :: 0 <= i < 3 ==> ext[i] == if 8 + i < Word(c, 8, 11) then Upper(c[8 + i]) else SPACE
    ensures ext == c[8..] <==>
      (forall i :: 8 <= i < 11 ==> Upper(c[i]) == c[i]) && (forall i :: Word(c, 8, 11) <= i < 11 ==> c[i] == SPACE)
  {
    var s := Print(c);
    forall i | 0 <= i < 3 ensures ext[i] == if 8 + i < Word(c, 8, 11) then Upper(c[8 + i]) else SPACE {
      PrintAt(c, 1 + i);
      if c[8] == SPACE {
        FieldAt(s, 0, 0, 3, i);
      } else {
        FieldAt(s, 1, |s|, 3, i);
      }
    }
    assert forall i :: 0 <= i < 3 ==> c[8..][i] == c[8 + i];
    if ext == c[8..] {
      forall i | 8 <= i < 11 ensures Upper(c[i]) == c[i] && (Word(c, 8, 11) <= i ==> c[i] == SPACE) {
        assert ext[i - 8] == c[8..][i - 8];
      }
    }
  }

  lemma {:induction false} DotComesBack(c: Name)
    requires Trimmed(c, 8) > 0 && c[0] == DOT
    ensures At(Print(c), |Print(c)|) != DOT && !Canonical(c)
    ensures Parse(Print(c), |Print(c)|) == Good(c) <==> c == PARENT
  {
    var s := Print(c);
    PrintAt(c, 0);
    PrintAt(c, 1);
    if c == PARENT {
      assert Trimmed(c, 8) == 8 && c[8] != SPACE;
      assert Dots(s, |s|);
    } else if Dots(s, |s|) {
      assert Parse(s, |s|).name[0] == DOT;
    } else {
      assert BaseEnd(s, |s|, 0) == 0;
      BlankField(s);
    }
  }

  lemma {:induction false} ParsedCanonical(c: Name)
    requires Trimmed(c, 8) > 0 && c[0] != DOT && At(Print(c), |Print(c)|) != DOT
    requires Parse(Print(c), |Print(c)|) == Good(c)
    ensures Canonical(c)
  {
    var s := Print(c);
    PrintAt(c, 0);
    ParsedBytes(s, |s|);
    PrintBase(c);
    if c[8] != SPACE {
      forall i | Word(c, 8, 11) <= i < 11 ensures c[i] == SPACE {
        ParsedExt(s, |s|, i);
      }
    } else {
      forall i | 8 <= i < 11 ensures c[i] == SPACE {
        ParsedExt(s, |s|, i);
      }
    }
  }

  /** What is parsed is in upper case and has no dot in its base. */
  lemma {:induction false} ParsedBytes(s: seq<Byte>, len: nat)
    requires At(s, len) != DOT && !Dots(s, len) && Parse(s, len).Good?
    ensures var c := Parse(s, len).name;
      (forall i :: 0 <= i < 11 ==> Upper(c[i]) == c[i]) && forall i :: 0 <= i < 8 ==> c[i] != DOT
  {
    var c, e := Parse(s, len).name, BaseEnd(s, len, 0);
    forall i | 0 <= i < 11 ensures Upper(c[i]) == c[i] && (i < 8 ==> c[i] != DOT) {
      assert i < 8 ==> c[i] == FieldByte(s, i, e);
      assert i >= 8 ==> c[i] == if e == len then FieldByte(s, e + (i - 8), e) else FieldByte(s, e + 1 + (i - 8), len);
    }
  }

  lemma {:induction false} ParsedExt(s: seq<Byte>, len: nat, i: nat)
    requires At(s, len) != DOT && !Dots(s, len) && Parse(s, len).Good? && 8 <= i < 11
    ensures var e := BaseEnd(s, len, 0);
      e + 1 + (i - 8) >= len ==> Parse(s, len).name[i] == SPACE
  {
    var c, e := Parse(s, len).name, BaseEnd(s, len, 0);
    assert c[i] == if e == len then FieldByte(s, e + (i - 8), e) else FieldByte(s, e + 1 + (i - 8), len);
  }

  /** A blank base with a one-letter extension prints as the name of a hidden file
      would, and does not come back. */
  lemma {:induction false} BlankBase()
    ensures var c: Name := [32, 32, 32, 32, 32, 32, 32, 32, 65, 32, 32];
      && Print(c) == [DOT, 65] && At(Print(c), 2) != DOT && Parse(Print(c), 2) != Good(c)
  {
    var c: Name := [32, 32, 32, 32, 32, 32, 32, 32, 65, 32, 32];
    assert Trimmed(c, 8) == 0;
    assert Word(c, 8, 11) == 9;
    assert Print(c) == [DOT, 65];
    assert Dots([DOT, 65], 2);
  }

  /** Neither does a base that begins with a dot. */
  lemma {:induction false} DotFirst()
    ensures var c: Name := [46, 65, 32, 32, 32, 32, 32, 32, 32, 32, 32];
      && Print(c) == [DOT, 65] && At(Print(c), 2) != DOT && Parse(Print(c), 2) != Good(c)
  {
    var c: Name := [46, 65, 32, 32, 32, 32, 32, 32, 32, 32, 32];
    assert Trimmed(c, 8) == 2;
    assert Print(c) == [DOT, 65];
    assert Dots([DOT, 65], 2);
  }

  // ----- the methods

  /** `path_parse_fn`: -EINVAL, or the name in dst. */
  method PathParseFn(dst: array<Byte>, src: seq<Byte>, len: nat) returns (rc: Rc)
    requires dst.Length == NAME_LEN && At(src, len) != DOT
    modifies dst
    ensures rc == if Parse(src, len) == Bad then Inval else Ok
    ensures rc == Ok ==> dst[..] == Parse(src, len).name
  {
    var d: nat := 0;
    if Dots(src, len) {
      dst[0] := DOT;
      d := 1;
      if At(src, 1) == DOT {
        dst[1] := DOT;
        d := 2;
      }
      FillUp(dst, d, NAME_LEN, 0);
      return Ok;
    }
    d := ParseBase(dst, src, len);
    var s := d;
    if s < len && At(src, s) != DOT {
      return Inval;
    }
    FillUp(dst, d, 8, SPACE);
    assert dst[..8] == Field(src, 0, d, 8);
    rc := ParseExt(dst, src, len, s);
    assert dst[..] == dst[..8] + dst[8..];
  }

  /** The base of the name, up to 8 bytes. */
  method ParseBase(dst: array<Byte>, src: seq<Byte>, len: nat) returns (d: nat)
    requires dst.Length == NAME_LEN
    modifies dst
    ensures d == BaseEnd(src, len, 0) && forall i :: 0 <= i < d ==> dst[i] == Upper(At(src, i))
  {
    d := 0;
    while d < 8 && d < len && At(src, d) != DOT
      invariant d <= 8 && d <= len && BaseEnd(src, len, 0) == BaseEnd(src, len, d)
      invariant forall i :: 0 <= i < d ==> dst[i] == Upper(At(src, i))
    {
      dst[d] := Upper(At(src, d));
      d := d + 1;
    }
  }

  /** The extension behind the base, which ends at position e. */
  method ParseExt(dst: array<Byte>, src: seq<Byte>, len: nat, e: nat) returns (rc: Rc)
    requires dst.Length == NAME_LEN && e <= len && (e == len || At(src, e) == DOT) && At(src, len) != DOT
    modifies dst
    ensures dst[..8] == old(dst[..8])
    ensures rc == if e < len && len - (e + 1) > 3 then Inval else Ok
    ensures rc == Ok ==> dst[8..] == if e == len then Field(src, e, e, 3) else Field(src, e + 1, len, 3)
  {
    var s, d := e, 8;
    ghost var base := dst[..8];
    if At(src, s) == DOT {
      s := s + 1;
      while d < NAME_LEN && s < len
        invariant 8 <= d <= NAME_LEN && s == e + 1 + (d - 8) <= len
        invariant dst[..8] == base
        invariant forall i :: 8 <= i < d ==> dst[i] == FieldByte(src, e + 1 + (i - 8), len)
      {
        dst[d] := Upper(At(src, s));
        d, s := d + 1, s + 1;
        assert dst[..8] == base;
      }
      if d == NAME_LEN && s < len {
        return Inval;
      }
    }
    FillUp(dst, d, NAME_LEN, SPACE);
    assert dst[..8] == base;
    ghost var ext := if e == len then Field(src, e, e, 3) else Field(src, e + 1, len, 3);
    forall i | 0 <= i < 3 ensures dst[8 + i] == ext[i] {
      if e == len {
        FieldAt(src, e, e, 3, i);
      } else {
        FieldAt(src, e + 1, len, 3, i);
      }
    }
    assert dst[8..] == ext;
    rc := Ok;
  }

  method FillUp(dst: array<Byte>, from: nat, to: nat, c: Byte)
    requires from <= to <= dst.Length
    modifies dst
    ensures forall i :: 0 <= i < dst.Length ==> dst[i] == if from <= i < to then c else old(dst[i])
  {
    var d := from;
    while d < to
      invariant from <= d <= to
      invariant forall i :: 0 <= i < dst.Length ==> dst[i] == if from <= i < d then c else old(dst[i])
    {
      dst[d] := c;
      d := d + 1;
    }
  }

  /** What `ls` puts out for a name. */
  method PrintName(c: Name) returns (out: seq<Byte>)
    ensures out == Print(c)
  {
    var i: int := 7;
    while i >= 0 && c[i] == SPACE
      invariant -1 <= i <= 7 && Trimmed(c, 8) == Trimmed(c, i + 1)
    {
      i := i - 1;
    }
    i := i + 1;
    out := [];
    var j := 0;
    while j < i
      invariant 0 <= j <= i <= 8 && out == c[..j]
    {
      out := out + [c[j]];
      j := j + 1;
    }
    if c[8] != SPACE {
      out := out + [DOT];
      j := 8;
      while j < 11 && c[j] != SPACE
        invariant 8 <= j <= 11 && Word(c, 8, 11) == Word(c, j, 11)
        invariant out == c[..i] + ([DOT] + c[8..j])
      {
        out := out + [c[j]];
        j := j + 1;
      }
    }
  }

  /** `path_next_dir_ele`: the next run of bytes without a slash. */
  method NextEle(fn: seq<Byte>, at: nat) returns (start: nat, len: nat)
    requires at <= |fn| && 0 !in fn
    ensures at <= start && start + len <= |fn|
    ensures forall i :: at <= i < start ==> fn[i] == SLASH
    ensures forall i :: start <= i < start + len ==> fn[i] != SLASH
    ensures start + len < |fn| ==> fn[start + len] == SLASH
    ensures len == 0 <==> start == |fn|
  {
    start := at;
    while At(fn, start) == SLASH
      invariant at <= start <= |fn| && forall i :: at <= i < start ==> fn[i] == SLASH
      decreases |fn| - start
    {
      start := start + 1;
    }
    var end := start;
    while At(fn, end) != 0 && At(fn, end) != SLASH
      invariant start <= end <= |fn| && forall i :: start <= i < end ==> fn[i] != SLASH
      decreases |fn| - end
    {
      end := end + 1;
    }
    len := end - start;
  }
}

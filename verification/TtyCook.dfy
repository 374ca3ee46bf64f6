/** The tty line discipline: a ring of typed characters with erase, and output
    with a CR before every LF (kernel/ttycook/TTYCOOK.C). */
module TtyCook {
  import opened Bytes

  const LINE_SIZE: nat := 128
  const BS: Byte := 8
  const LF: Byte := 10
  const CR: Byte := 13
  const DEL: Byte := 127

  /** The input ring: where its head stands, the characters from there on, and
      the count of complete lines that the code keeps. */
  datatype Line = Line(head: nat, queue: seq<Byte>, crs: nat)

  function Wrap(i: nat): nat { i % LINE_SIZE }

  /** The place in the ring of the i-th character from the head on. */
  function Place(head: nat, i: nat): nat { Wrap(head + i) }

  // ----- typing

  predicate Erases(ch: Byte) { ch == BS || ch == DEL }

  function Stored(ch: Byte): Byte { if ch == CR then LF else ch }

  /** The room that `ttyc_putc` counts: one too many when the characters run
      around the end of the ring. */
  function Left(l: Line): int {
    if l.head + |l.queue| < LINE_SIZE then LINE_SIZE - |l.queue| - 1 else LINE_SIZE - |l.queue|
  }

  /** The room that there is: one slot of the ring stays empty. */
  function Room(l: Line): int { LINE_SIZE - 1 - |l.queue| }

  predicate Accepts(l: Line, ch: Byte) {
    if Erases(ch) then l.queue != []
    else Left(l) > 2 || (Left(l) > 1 && (ch == CR || ch == LF))
  }

  /** `ttyc_putc`. */
  function Typed(l: Line, ch: Byte): Line {
    if !Accepts(l, ch) then l
    else if Erases(ch) then l.(queue := l.queue[..|l.queue|-1])
    else l.(queue := l.queue + [Stored(ch)], crs := l.crs + if Stored(ch) == LF then 1 else 0)
  }

  ghost predicate Fits(l: Line) {
    l.head < LINE_SIZE && |l.queue| < LINE_SIZE
  }

  /** The ring never overruns, although the wrapped case counts one slot too many:
      a character is taken only when a slot is left.  With two left a line end is
      taken, with three anything. */
  lemma {:induction false} NeverOverruns(l: Line, ch: Byte)
    requires Fits(l)
    ensures Fits(Typed(l, ch))
    ensures !Erases(ch) && Accepts(l, ch) ==> Room(l) >= 1
    ensures !Erases(ch) && (Room(l) >= 3 || (Room(l) >= 2 && Stored(ch) == LF)) ==> Accepts(l, ch)
    ensures Left(l) == Room(l) + (if l.head + |l.queue| < LINE_SIZE then 0 else 1)
  {
  }

  // ----- reading

  /** The length of the first line with its end, or of everything when no line
      is complete. */
  function LineLen(q: seq<Byte>): (n: nat)
    ensures n <= |q| && (q != [] ==> n > 0)
    ensures forall i :: 0 <= i < n - 1 ==> q[i] != LF
    ensures n < |q| ==> q[n-1] == LF
  {
    if q == [] then 0 else if q[0] == LF then 1 else 1 + LineLen(q[1..])
  }

  /** How many characters `ttyc_read` gives. */
  function ReadLen(l: Line, size: nat): (n: nat)
    ensures n <= size && n <= |l.queue|
  {
    if l.crs == 0 || l.queue == [] then 0
    else if size < LineLen(l.queue) then size else LineLen(l.queue)
  }

  /** `ttyc_read`. */
  function Read(l: Line, size: nat): Line {
    var n := ReadLen(l, size);
    Line(Wrap(l.head + n), l.queue[n..], if n > 0 && l.queue[n-1] == LF then l.crs - 1 else l.crs)
  }

  // ----- runs

  function Newlines(q: seq<Byte>): nat {
    if q == [] then 0 else (if q[0] == LF then 1 else 0) + Newlines(q[1..])
  }

  lemma {:induction false} NewlinesSplit(q: seq<Byte>, r: seq<Byte>)
    ensures Newlines(q + r) == Newlines(q) + Newlines(r)
  {
    if q == [] {
      assert q + r == r;
    } else {
      NewlinesSplit(q[1..], r);
      assert (q + r)[1..] == q[1..] + r;
    }
  }

  /** Backspace editing of the characters typed so far. */
  function Edit(keys: seq<Byte>): seq<Byte> {
    if keys == [] then []
    else
      var before, last := Edit(keys[..|keys|-1]), keys[|keys|-1];
      if !Erases(last) then before + [Stored(last)]
      else if before == [] then [] else before[..|before|-1]
  }

  datatype Event = Key(ch: Byte) | Reading(size: nat)

  /** The ring with what has happened to it: the keys that were accepted, what was
      read, and how many line ends were erased again. */
  datatype History = History(line: Line, keys: seq<Byte>, read: seq<Byte>, lost: nat)

  function Do(h: History, e: Event): History {
    match e
    case Key(ch) =>
      if !Accepts(h.line, ch) then h
      else
        var q := h.line.queue;
        h.(line := Typed(h.line, ch), keys := h.keys + [ch],
           lost := h.lost + if Erases(ch) && q[|q|-1] == LF then 1 else 0)
    case Reading(size) =>
      h.(line := Read(h.line, size), read := h.read + h.line.queue[..ReadLen(h.line, size)])
  }

  function Run(h: History, events: seq<Event>): History
    decreases |events|
  {
    if events == [] then h else Run(Do(h, events[0]), events[1..])
  }

  const EMPTY: History := History(Line(0, [], 0), [], [], 0)

  /** What was read and what is in the ring is the input after editing, and the
      count exceeds the complete lines by the line ends that were erased. */
  ghost predicate Inv(h: History) {
    && Fits(h.line)
    && h.line.crs == Newlines(h.line.queue) + h.lost
    && h.read + h.line.queue == Edit(h.keys)
  }

  lemma {:induction false} DoKeeps(h: History, e: Event)
    requires Inv(h)
    ensures Inv(Do(h, e))
  {
    match e
    case Key(ch) =>
      if Accepts(h.line, ch) {
        KeyKeeps(h, ch);
      }
    case Reading(size) => ReadKeeps(h, size);
  }

  lemma {:induction false} KeyKeeps(h: History, ch: Byte)
    requires Inv(h) && Accepts(h.line, ch)
    ensures Inv(Do(h, Key(ch)))
  {
    var q, all := h.line.queue, h.read + h.line.queue;
    NeverOverruns(h.line, ch);
    assert (h.keys + [ch])[..|h.keys|] == h.keys;
    if Erases(ch) {
      assert q == q[..|q|-1] + [q[|q|-1]];
      NewlinesSplit(q[..|q|-1], [q[|q|-1]]);
      assert all[..|all|-1] == h.read + q[..|q|-1];
    } else {
      NewlinesSplit(q, [Stored(ch)]);
      assert h.read + (q + [Stored(ch)]) == all + [Stored(ch)];
    }
  }

  lemma {:induction false} ReadKeeps(h: History, size: nat)
    requires Inv(h)
    ensures Inv(Do(h, Reading(size)))
  {
    var q, n := h.line.queue, ReadLen(h.line, size);
    assert q == q[..n] + q[n..];
    NewlinesSplit(q[..n], q[n..]);
    OneLine(q[..n]);
    assert (h.read + q[..n]) + q[n..] == h.read + q;
  }

  /** Characters of which only the last can be a line end. */
  lemma {:induction false} OneLine(q: seq<Byte>)
    requires forall i :: 0 <= i < |q| - 1 ==> q[i] != LF
    ensures Newlines(q) == if q != [] && q[|q|-1] == LF then 1 else 0
  {
    if |q| > 1 {
      OneLine(q[1..]);
    }
  }

  /** Over every interleaving of typing and reading: the ring never overruns, the
      count is never below the complete lines in the ring and exact just when no
      erase removed a line end, and what was read is a prefix of the edited input
      with the rest still in the ring. */
  lemma {:induction false} RunKeeps(h: History, events: seq<Event>)
    requires Inv(h)
    ensures var r := Run(h, events);
      && Inv(r) && |r.line.queue| < LINE_SIZE && r.line.crs >= Newlines(r.line.queue)
      && (r.line.crs == Newlines(r.line.queue) <==> r.lost == 0)
      && r.read <= Edit(r.keys)
    decreases |events|
  {
    if events == [] {
      assert h.read == Edit(h.keys)[..|h.read|];
    } else {
      DoKeeps(h, events[0]);
      RunKeeps(Do(h, events[0]), events[1..]);
    }
  }

  /** When a read gives characters and where it ends: at the first line end, at its
      size, or, where there is no line end, at the last character. */
  lemma {:induction false} ReadsALine(h: History, size: nat)
    requires Inv(h)
    ensures var q, n := h.line.queue, ReadLen(h.line, size);
      && (n > 0 <==> size > 0 && q != [] && (LF in q || h.line.crs > Newlines(q)))
      && (n > 0 ==> if LF in q then n == size || q[n-1] == LF else n == size || n == |q|)
      && (forall i :: 0 <= i < n - 1 ==> q[i] != LF)
  {
    HasNewline(h.line.queue);
    WholeLine(h.line.queue);
  }

  /** A read gives characters of a line that is not complete exactly when the count
      is above the complete lines of a queue that has none, that is, when a line end
      was erased. */
  lemma {:induction false} ReadsPart(h: History, size: nat)
    requires Inv(h)
    ensures ReadLen(h.line, size) > 0 && LF !in h.line.queue <==>
            size > 0 && h.line.queue != [] && LF !in h.line.queue && h.line.crs > Newlines(h.line.queue)
    ensures h.line.crs > Newlines(h.line.queue) <==> h.lost > 0
  {
    ReadsALine(h, size);
  }

  lemma {:induction false} WholeLine(q: seq<Byte>)
    ensures LF !in q ==> LineLen(q) == |q|
  {
    if q != [] && LF !in q {
      WholeLine(q[1..]);
    }
  }

  lemma {:induction false} HasNewline(q: seq<Byte>)
    ensures Newlines(q) > 0 <==> LF in q
    ensures LF in q ==> LineLen(q) > 0 && q[LineLen(q)-1] == LF
  {
    if q != [] && q[0] != LF {
      HasNewline(q[1..]);
      assert LF in q <==> LF in q[1..];
    }
  }

  lemma {:induction false} RunStep(h: History, e: Event, events: seq<Event>)
    ensures Run(h, [e] + events) == Run(Do(h, e), events)
  {
    assert ([e] + events)[1..] == events;
  }

  lemma {:induction false} TypesEnd()
    ensures Inv(EMPTY) && Do(EMPTY, Key(LF)) == History(Line(0, [LF], 1), [LF], [], 0)
  {
  }

  lemma {:induction false} ErasesEnd()
    ensures Do(History(Line(0, [LF], 1), [LF], [], 0), Key(BS)) == History(Line(0, [], 1), [LF, BS], [], 1)
  {
    var l := Line(0, [LF], 1);
    assert Typed(l, BS) == Line(0, [], 1);
    assert [LF] + [BS] == [LF, BS];
  }

  lemma {:induction false} TypesLetter()
    ensures Do(History(Line(0, [], 1), [LF, BS], [], 1), Key(65)) == History(Line(0, [65], 1), [LF, BS, 65], [], 1)
  {
    assert [LF, BS] + [65] == [LF, BS, 65];
  }

  lemma {:induction false} PartRead(h3: History)
    requires h3 == History(Line(0, [65], 1), [LF, BS, 65], [], 1)
    ensures var h4 := Do(h3, Reading(9)); h4.read == [65] && h4.lost == 1 && h4.line.crs == 1
  {
    assert LineLen([65]) == 1;
  }

  /** An erased line end leaves the count too high: the next read does not wait for
      a complete line. */
  lemma {:induction false} ErasedLineEnd()
    ensures var h := Run(EMPTY, [Key(LF)] + ([Key(BS)] + ([Key(65)] + ([Reading(9)] + []))));
      Inv(EMPTY) && h.read == [65] && h.lost == 1 && h.line.crs == 1
  {
    assert LF == 10 && BS == 8;
    hide Do, Run, Inv, EMPTY;
    var h1 := History(Line(0, [LF], 1), [LF], [], 0);
    var h2 := History(Line(0, [], 1), [LF, BS], [], 1);
    var h3 := History(Line(0, [65], 1), [LF, BS, 65], [], 1);
    var h4 := Do(h3, Reading(9));
    TypesEnd();
    ErasesEnd();
    TypesLetter();
    PartRead(h3);
    RunStep(EMPTY, Key(LF), [Key(BS)] + ([Key(65)] + ([Reading(9)] + [])));
    RunStep(h1, Key(BS), [Key(65)] + ([Reading(9)] + []));
    RunStep(h2, Key(65), [Reading(9)] + []);
    RunStep(h3, Reading(9), []);
    RunNone(h4);
  }

  lemma {:induction false} RunNone(h: History)
    ensures Run(h, []) == h
  {
  }

  // ----- a line that is typed and read

  function Keys(text: seq<Byte>): seq<Event> {
    if text == [] then [] else [Key(text[0])] + Keys(text[1..])
  }

  /** What editing does, key by key: 8 and 127 take the last character away, 13 becomes
      10, and any other key is added as it is. */
  lemma {:induction false} EditIs(keys: seq<Byte>, ch: Byte)
    ensures Edit([]) == []
    ensures Edit(keys + [ch]) ==
            if ch == 8 || ch == 127 then (if Edit(keys) == [] then [] else Edit(keys)[..|Edit(keys)| - 1])
            else Edit(keys) + [if ch == 13 then 10 else ch]
  {
    assert (keys + [ch])[..|keys|] == keys;
  }

  lemma {:induction false} EditLength(keys: seq<Byte>)
    ensures |Edit(keys)| <= |keys|
  {
    if keys != [] {
      EditLength(keys[..|keys| - 1]);
    }
  }

  /** Without 8, 13 and 127 editing changes nothing. */
  lemma {:induction false} EditPlain(text: seq<Byte>)
    requires forall i :: 0 <= i < |text| ==> text[i] != 8 && text[i] != 13 && text[i] != 127
    ensures Edit(text) == text
  {
    if text != [] {
      EditPlain(text[..|text| - 1]);
      EditIs(text[..|text| - 1], text[|text| - 1]);
      assert text == text[..|text| - 1] + [text[|text| - 1]];
    }
  }

  /** One key typed where there is room: the ring holds what editing makes of the keys. */
  lemma {:induction false} KeyTyped(h: History, keys: seq<Byte>, ch: Byte)
    requires Fits(h.line) && h.line.queue == Edit(keys) && |keys| < 125 && ch != 10 && ch != 13
    ensures var r := Do(h, Key(ch));
      && Fits(r.line) && r.line.queue == Edit(keys + [ch]) && r.read == h.read
      && r.line.head == h.line.head && r.line.crs == h.line.crs
  {
    EditIs(keys, ch);
    EditLength(keys);
    NeverOverruns(h.line, ch);
  }

  lemma {:induction false} KeysTyped(h: History, done: seq<Byte>, keys: seq<Byte>)
    requires Fits(h.line) && h.line.queue == Edit(done) && |done| + |keys| <= 125
    requires 10 !in keys && 13 !in keys
    ensures var r := Run(h, Keys(keys));
      && Fits(r.line) && r.line.queue == Edit(done + keys) && r.read == h.read && r.line.crs == h.line.crs
    decreases |keys|
  {
    if keys == [] {
      assert done + keys == done;
    } else {
      KeyTyped(h, done, keys[0]);
      KeysTyped(Do(h, Key(keys[0])), done + [keys[0]], keys[1..]);
      assert done + [keys[0]] + keys[1..] == done + keys;
      RunStep(h, Key(keys[0]), Keys(keys[1..]));
    }
  }

  lemma {:induction false} RunJoin(h: History, a: seq<Event>, b: seq<Event>)
    ensures Run(h, a + b) == Run(Run(h, a), b)
    decreases |a|
  {
    if a == [] {
      assert a + b == b;
    } else {
      assert (a + b)[1..] == a[1..] + b;
      RunJoin(Do(h, a[0]), a[1..], b);
    }
  }

  /** Return ends the line: the reader gets it with a line feed behind it. */
  lemma {:induction false} ReturnThenRead(h: History, size: nat)
    requires Fits(h.line) && |h.line.queue| <= 125 && 10 !in h.line.queue && h.line.crs == 0 && size > |h.line.queue|
    ensures var r := Run(h, [Key(13), Reading(size)]);
      r.read == h.read + h.line.queue + [10] && r.line.queue == [] && r.line.crs == 0
  {
    var q := h.line.queue;
    NeverOverruns(h.line, 13);
    var h1 := Do(h, Key(13));
    assert h1.line.queue == q + [10] && h1.line.crs == 1 && h1.read == h.read;
    LineUpTo(q);
    var h2 := Do(h1, Reading(size));
    assert h2.line.queue == [] && h2.read == h.read + (q + [10]);
    assert [Key(13), Reading(size)] == [Key(13)] + [Reading(size)] && [Reading(size)] + [] == [Reading(size)];
    RunStep(h, Key(13), [Reading(size)]);
    RunStep(h1, Reading(size), []);
    RunNone(h2);
    assert h.read + (q + [10]) == h.read + q + [10];
  }

  lemma {:induction false} LineUpTo(q: seq<Byte>)
    requires 10 !in q
    ensures LineLen(q + [10]) == |q| + 1
  {
    if q != [] {
      LineUpTo(q[1..]);
      assert (q + [10])[1..] == q[1..] + [10];
    }
  }

  lemma {:induction false} EditNoEnds(keys: seq<Byte>)
    requires 10 !in keys && 13 !in keys
    ensures 10 !in Edit(keys)
  {
    if keys != [] {
      assert keys[|keys| - 1] in keys;
      EditNoEnds(keys[..|keys| - 1]);
      EditIs(keys[..|keys| - 1], keys[|keys| - 1]);
      assert keys == keys[..|keys| - 1] + [keys[|keys| - 1]];
    }
  }

  /** Up to 125 keys without line ends, typed into an empty ring wherever its head stands,
      then Return, and a read that is large enough: the reader gets what editing leaves of
      the keys, with a line feed behind it. */
  lemma {:induction false} LineArrives(head: nat, keys: seq<Byte>, size: nat)
    requires head < 128 && |keys| <= 125 && 10 !in keys && 13 !in keys && size > |keys|
    ensures var r := Run(History(Line(head, [], 0), [], [], 0), Keys(keys) + [Key(13), Reading(size)]);
      r.read == Edit(keys) + [10] && r.line.queue == [] && r.line.crs == 0
  {
    var h := History(Line(head, [], 0), [], [], 0);
    EditIs(keys, 0);
    KeysTyped(h, [], keys);
    assert [] + keys == keys;
    EditLength(keys);
    EditNoEnds(keys);
    RunJoin(h, Keys(keys), [Key(13), Reading(size)]);
    ReturnThenRead(Run(h, Keys(keys)), size);
  }

  /** So a text without 8, 10, 13 and 127 comes back as it is, with 10 for the 13. */
  lemma {:induction false} TextArrives(head: nat, text: seq<Byte>, size: nat)
    requires head < 128 && |text| <= 125 && size > |text|
    requires forall i :: 0 <= i < |text| ==> text[i] != 8 && text[i] != 10 && text[i] != 13 && text[i] != 127
    ensures Run(History(Line(head, [], 0), [], [], 0), Keys(text) + [Key(13), Reading(size)]).read == text + [10]
  {
    EditPlain(text);
    LineArrives(head, text, size);
  }

  // ----- the ring in memory

  class Cooker {
    var buf: array<Byte>
    var head: nat
    var tail: nat
    var crs: nat
    ghost var queue: seq<Byte>

    /** The characters lie in the ring from the head on up to the tail. */
    ghost predicate Valid()
      reads this, buf
    {
      && buf.Length == LINE_SIZE && head < LINE_SIZE && |queue| < LINE_SIZE
      && tail == Place(head, |queue|)
      && forall i :: 0 <= i < |queue| ==> queue[i] == buf[Place(head, i)]
    }

    ghost function View(): Line
      reads this
    {
      Line(head, queue, crs)
    }

    /** `ttyc_init`. */
    constructor ()
      ensures Valid() && View() == EMPTY.line && fresh(buf)
    {
      buf := new Byte[LINE_SIZE](i => 0);
      head, tail, crs, queue := 0, 0, 0, [];
    }

    /** `ttyc_putc`; what it echoes is not part of this model. */
    method Putc(ch: Byte)
      requires Valid()
      modifies this, buf
      ensures Valid() && buf == old(buf) && View() == Typed(old(View()), ch)
    {
      RingPlaces(head, |queue|, tail);
      if ch == BS || ch == DEL {
        if head == tail {
          return;
        }
        tail := Wrap(tail + LINE_SIZE - 1);
        queue := queue[..|queue|-1];
        return;
      }
      var left: int;
      if head <= tail {
        left := LINE_SIZE - tail + head - 1;
      } else {
        left := head - tail;
      }
      assert left == Left(View());
      if left <= 1 || (left <= 2 && ch != CR && ch != LF) {
        return;
      }
      Append(Stored(ch));
    }

    method Append(c: Byte)
      requires Valid() && |queue| < LINE_SIZE - 1
      modifies this, buf
      ensures Valid() && buf == old(buf)
      ensures View() == old(View()).(queue := old(queue) + [c], crs := old(crs) + if c == LF then 1 else 0)
    {
      RingApart(head, |queue|);
      hide Place, Wrap;
      buf[tail] := c;
      tail := Wrap(tail + 1);
      queue := queue + [c];
      if c == LF {
        crs := crs + 1;
      }
    }

    /** Takes the character at the head, which is there. */
    method Pop() returns (ch: Byte)
      requires Valid() && queue != []
      modifies this`head, this`queue
      ensures Valid() && ch == old(queue)[0] && queue == old(queue)[1..] && head == Wrap(old(head) + 1)
    {
      ghost var h, q := head, queue;
      RingStep(h, |q| - 1);
      assert q[0] == buf[Place(h, 0)];
      forall i | 0 <= i < |q| - 1 ensures q[1..][i] == buf[Place(Wrap(h + 1), i)] {
        RingStep(h, i);
        assert q[i+1] == buf[Place(h, i + 1)];
      }
      ch := buf[head];
      head := Wrap(head + 1);
      queue := queue[1..];
    }

    /** The loop of `ttyc_read` with `got` characters read, none of them a line end;
        l is the ring at its start and `was` the buffer. */
    ghost predicate Midway(into: array<Byte>, l: Line, was: seq<Byte>, got: nat)
      reads this, buf, into
    {
      && Valid() && into != buf && crs == l.crs && got <= |l.queue| && got <= |was| == into.Length
      && queue == l.queue[got..] && head == Place(l.head, got)
      && (forall i :: 0 <= i < got ==> l.queue[i] != LF)
      && into[..] == l.queue[..got] + was[got..]
    }

    /** One character of the loop. */
    method ReadOne(into: array<Byte>, ghost l: Line, ghost was: seq<Byte>, got: nat) returns (ch: Byte)
      requires Midway(into, l, was, got) && got < |l.queue| && got < into.Length
      modifies this`head, this`queue, into
      ensures Valid() && ch == l.queue[got] && head == Place(l.head, got + 1) && queue == l.queue[got + 1..]
      ensures into[..] == l.queue[..got + 1] + was[got + 1..]
    {
      RingNext(l.head, got);
      hide Place, Wrap;
      ch := Pop();
      into[got] := ch;
      assert into[..] == l.queue[..got + 1] + was[got + 1..];
    }

    /** `ttyc_read`. */
    method ReadLine(into: array<Byte>, size: nat) returns (got: nat)
      requires Valid() && size <= into.Length && into != buf
      modifies this, into
      ensures Valid() && buf == old(buf) && View() == Read(old(View()), size)
      ensures got == ReadLen(old(View()), size)
      ensures into[..] == old(queue)[..got] + old(into[..])[got..]
    {
      got := 0;
      RingPlaces(head, |queue|, tail);
      if crs == 0 || head == tail {
        return;
      }
      ghost var l, was := View(), into[..];
      assert Place(head, 0) == head;
      hide *;
      while crs > 0 && got < size
        invariant buf == old(buf) && Midway(into, l, was, got) && got < |l.queue| && got <= size
        decreases size - got
      {
        var done := Turn(into, l, was, size, got);
        got := got + 1;
        if done {
          return;
        }
      }
      Full(into, l, was, size, got);
    }

    /** The state when the loop has ended. */
    ghost predicate Ended(into: array<Byte>, l: Line, was: seq<Byte>, size: nat, got: nat)
      reads this, buf, into
    {
      && Valid() && View() == Read(l, size) && got == ReadLen(l, size) && got <= |was|
      && into[..] == l.queue[..got] + was[got..]
    }

    lemma {:induction false} Full(into: array<Byte>, l: Line, was: seq<Byte>, size: nat, got: nat)
      requires Midway(into, l, was, got) && got <= size && got < |l.queue| && 0 < l.crs && (crs == 0 || got >= size)
      ensures Ended(into, l, was, size, got)
    {
      ReadEnds(l, size, got);
    }

    method Turn(into: array<Byte>, ghost l: Line, ghost was: seq<Byte>, size: nat, got: nat) returns (done: bool)
      requires Midway(into, l, was, got) && got < |l.queue| && got < size && got < into.Length && 0 < l.crs
      modifies this`head, this`queue, this`crs, into
      ensures if done then Ended(into, l, was, size, got + 1) else Midway(into, l, was, got + 1) && got + 1 < |l.queue|
    {
      var ch := ReadOne(into, l, was, got);
      RingPlaces(head, |queue|, tail);
      hide Place, Wrap, LineLen;
      done := ch == LF || head == tail;
      if done {
        ReadEnds(l, size, got + 1);
      }
      if ch == LF {
        crs := crs - 1;
      }
    }
  }

  /** When the reading loop ends, it has read what it should. */
  lemma {:induction false} ReadEnds(l: Line, size: nat, got: nat)
    requires 0 < l.crs && l.queue != [] && got <= size && got <= |l.queue|
    requires forall i :: 0 <= i < got - 1 ==> l.queue[i] != LF
    requires got == size || got == |l.queue| || (got > 0 && l.queue[got-1] == LF)
    ensures got == ReadLen(l, size)
  {
    var n := LineLen(l.queue);
    assert n > got > 0 ==> l.queue[got-1] != LF;
  }

  /** Where the tail stands relative to the head. */
  lemma {:induction false} RingPlaces(head: nat, n: nat, tail: nat)
    requires head < LINE_SIZE && n < LINE_SIZE && tail == Place(head, n)
    ensures tail == if head + n < LINE_SIZE then head + n else head + n - LINE_SIZE
    ensures head == tail <==> n == 0
    ensures n > 0 ==> Wrap(tail + LINE_SIZE - 1) == Place(head, n - 1)
  {
  }

  /** Places of different characters are different. */
  lemma {:induction false} RingApart(head: nat, n: nat)
    requires head < LINE_SIZE && n < LINE_SIZE
    ensures forall i :: 0 <= i < n ==> Place(head, i) != Place(head, n)
    ensures Wrap(Place(head, n) + 1) == Place(head, n + 1)
  {
    forall i | 0 <= i < n ensures Place(head, i) != Place(head, n) {
      RingPlaces(head, i, Place(head, i));
      RingPlaces(head, n, Place(head, n));
    }
  }

  /** The places seen from the next head. */
  lemma {:induction false} RingStep(head: nat, i: nat)
    requires head < LINE_SIZE && i < LINE_SIZE
    ensures Place(Wrap(head + 1), i) == Place(head, i + 1) && Place(head, 0) == head
  {
  }

  lemma {:induction false} RingNext(head: nat, i: nat)
    ensures Wrap(Place(head, i) + 1) == Place(head, i + 1)
  {
  }
}

/** Cooked output and the transmit queue of a serial port
    (kernel/ttycook/TTYCOOK.C:ttyc_cook_output, kernel/tty/TTY.C). */
module TtyOut {
  import opened Bytes
  import opened TtyCook

  // ----- cooking

  /** A CR before every LF. */
  function Cook(s: seq<Byte>): seq<Byte> {
    if s == [] then [] else (if s[0] == LF then [CR, LF] else [s[0]]) + Cook(s[1..])
  }

  /** One CR taken out before every LF. */
  function Uncook(t: seq<Byte>): seq<Byte>
    decreases |t|
  {
    if t == [] then []
    else if |t| > 1 && t[0] == CR && t[1] == LF then [LF] + Uncook(t[2..])
    else [t[0]] + Uncook(t[1..])
  }

  /** Cooking makes the text as much longer as it has LFs, and taking one CR out
      before each LF gives the text back. */
  lemma {:induction false} CookUndone(s: seq<Byte>)
    ensures |Cook(s)| == |s| + Newlines(s)
    ensures Uncook(Cook(s)) == s
    ensures Cook(s) != [] ==> Cook(s)[0] != LF
  {
    if s != [] {
      CookUndone(s[1..]);
      var rest := Cook(s[1..]);
      if s[0] == LF {
        assert Cook(s)[2..] == rest;
      } else {
        assert Cook(s)[1..] == rest;
      }
    }
  }

  /** In cooked text every line feed, 10, has a carriage return, 13, before it. */
  lemma {:induction false} CookReturns(s: seq<Byte>, i: nat)
    requires i < |Cook(s)| && Cook(s)[i] == 10
    ensures i > 0 && Cook(s)[i - 1] == 13
  {
    if s[0] == LF {
      if i > 1 {
        CookReturns(s[1..], i - 2);
      }
    } else if i > 0 {
      CookReturns(s[1..], i - 1);
    }
  }

  lemma {:induction false} CookJoin(s: seq<Byte>, c: Byte)
    ensures Cook(s + [c]) == Cook(s) + (if c == LF then [CR, LF] else [c])
    ensures Newlines(s + [c]) == Newlines(s) + if c == LF then 1 else 0
  {
    if s == [] {
      assert s + [c] == [c];
    } else {
      CookJoin(s[1..], c);
      assert (s + [c])[1..] == s[1..] + [c];
    }
  }

  /** An output buffer.  A port numbers the buffers to be sent from the head on,
      and the finished ones from the end of their list. */
  class Iob {
    const data: seq<Byte>  // written while cooking, never afterwards
    var ptr: nat
    var next: Iob?
    ghost var finished: bool
    ghost var number: nat

    constructor (data: seq<Byte>)
      ensures this.data == data && ptr == 0 && next == null && !finished
    {
      this.data := data;
      ptr, next, finished, number := 0, null, false, 0;
    }
  }

  /** How long the cooked text is. */
  method CookedLen(buf: seq<Byte>) returns (len: nat)
    ensures len == |Cook(buf)|
  {
    len := |buf|;
    var i := 0;
    while i < |buf|
      invariant i <= |buf| && len == |buf| + Newlines(buf[..i])
    {
      CookJoin(buf[..i], buf[i]);
      assert buf[..i] + [buf[i]] == buf[..i+1];
      if buf[i] == LF {
        len := len + 1;
      }
      i := i + 1;
    }
    assert buf[..i] == buf;
    CookUndone(buf);
  }

  /** `ttyc_cook_output`; `fits` tells whether there is memory for it.  A length
      that overflows the 16-bit integer asks for more than there is. */
  method CookOutput(buf: seq<Byte>, fits: bool) returns (iob: Iob?)
    ensures iob == null <==> !fits || |Cook(buf)| >= 0x8000
    ensures iob != null ==> fresh(iob) && iob.data == Cook(buf)
    ensures iob != null ==> iob.ptr == 0 && iob.next == null && !iob.finished
  {
    var len := CookedLen(buf);
    if !fits || len >= 0x8000 {
      return null;
    }
    var data := new Byte[len](i => 0);
    var i, o := 0, 0;
    while i < |buf|
      invariant i <= |buf| && fresh(data) && o == |Cook(buf[..i])| <= data.Length == |Cook(buf)|
      invariant data[..o] == Cook(buf[..i])
    {
      CookJoin(buf[..i], buf[i]);
      CookPrefix(buf, i + 1);
      assert buf[..i] + [buf[i]] == buf[..i+1];
      if buf[i] == LF {
        data[o] := CR;
        o := o + 1;
      }
      data[o] := buf[i];
      o := o + 1;
      i := i + 1;
    }
    assert buf[..i] == buf && data[..] == data[..o];
    iob := new Iob(data[..]);
  }

  lemma {:induction false} CookPrefix(s: seq<Byte>, n: nat)
    requires n <= |s|
    ensures |Cook(s[..n])| <= |Cook(s)|
    decreases |s| - n
  {
    if n < |s| {
      CookJoin(s[..n], s[n]);
      assert s[..n] + [s[n]] == s[..n+1];
      CookPrefix(s, n + 1);
    } else {
      assert s[..n] == s;
    }
  }

  // ----- sending

  const FIFO_SIZE: nat := 16

  /** A buffer of which the first ptr bytes are sent. */
  datatype Out = Out(data: seq<Byte>, ptr: nat)

  /** What is queued and what went over the wire. */
  datatype Wire = Wire(queue: seq<Out>, sent: seq<Byte>)

  ghost predicate Started(q: seq<Out>) {
    forall i :: 0 <= i < |q| ==> q[i].ptr <= |q[i].data|
  }

  /** The bytes still to be sent. */
  function Pending(q: seq<Out>): seq<Byte>
    requires Started(q)
  {
    if q == [] then [] else q[0].data[q[0].ptr..] + Pending(q[1..])
  }

  /** Finished buffers at the front are dropped. */
  function Trim(q: seq<Out>): seq<Out> {
    if q != [] && q[0].ptr == |q[0].data| then Trim(q[1..]) else q
  }

  lemma {:induction false} TrimKeeps(q: seq<Out>)
    requires Started(q)
    ensures Started(Trim(q)) && Pending(Trim(q)) == Pending(q)
    ensures Trim(q) != [] ==> Trim(q)[0].ptr < |Trim(q)[0].data|
  {
    if q != [] && q[0].ptr == |q[0].data| {
      TrimKeeps(q[1..]);
    }
  }

  /** The loop of `tty_xmit_intr`: up to n bytes into the FIFO. */
  function Fill(w: Wire, n: nat): Wire
    decreases n
  {
    if n == 0 then w
    else
      var q := Trim(w.queue);
      if q == [] || q[0].ptr >= |q[0].data| then Wire(q, w.sent)
      else Fill(Wire([q[0].(ptr := q[0].ptr + 1)] + q[1..], w.sent + [q[0].data[q[0].ptr]]), n - 1)
  }

  /** Nothing is lost, repeated or reordered, and as many bytes are sent as fit. */
  lemma {:induction false} FillKeeps(w: Wire, n: nat)
    requires Started(w.queue)
    ensures var r := Fill(w, n);
      && Started(r.queue) && r.sent + Pending(r.queue) == w.sent + Pending(w.queue)
      && |r.sent| == |w.sent| + (if n < |Pending(w.queue)| then n else |Pending(w.queue)|)
    decreases n
  {
    if n > 0 {
      TrimKeeps(w.queue);
      var q := Trim(w.queue);
      if q != [] {
        SendKeeps(w.sent, q);
        FillKeeps(Wire([q[0].(ptr := q[0].ptr + 1)] + q[1..], w.sent + [q[0].data[q[0].ptr]]), n - 1);
      }
    }
  }

  lemma {:induction false} SendKeeps(sent: seq<Byte>, q: seq<Out>)
    requires Started(q) && q != [] && q[0].ptr < |q[0].data|
    ensures var q1 := [q[0].(ptr := q[0].ptr + 1)] + q[1..];
      && Started(q1) && |Pending(q)| == |Pending(q1)| + 1
      && (sent + [q[0].data[q[0].ptr]]) + Pending(q1) == sent + Pending(q)
  {
    var q1 := [q[0].(ptr := q[0].ptr + 1)] + q[1..];
    assert q1[1..] == q[1..];
    assert Pending(q) == q[0].data[q[0].ptr..] + Pending(q[1..]);
    assert Pending(q1) == q[0].data[q[0].ptr + 1..] + Pending(q[1..]);
    hide Pending;
    assert q[0].data[q[0].ptr..] == [q[0].data[q[0].ptr]] + q[0].data[q[0].ptr + 1..];
  }

  lemma {:induction false} PendingJoin(q: seq<Out>, o: Out)
    requires Started(q) && o.ptr <= |o.data|
    ensures Started(q + [o]) && Pending(q + [o]) == Pending(q) + o.data[o.ptr..]
  {
    if q == [] {
      assert q + [o] == [o];
      assert Pending([o]) == o.data[o.ptr..] + Pending([o][1..]);
    } else {
      PendingJoin(q[1..], o);
      var r := q + [o];
      assert r[1..] == q[1..] + [o] && r[0] == q[0];
      assert Pending(r) == q[0].data[q[0].ptr..] + Pending(r[1..]);
      assert Pending(q) == q[0].data[q[0].ptr..] + Pending(q[1..]);
      hide Pending;
      assert q[0].data[q[0].ptr..] + (Pending(q[1..]) + o.data[o.ptr..]) == Pending(q) + o.data[o.ptr..];
    }
  }

  /** `tty_xmit_intr`, when the port is ready for more or not. */
  function Interrupt(w: Wire, ready: bool): Wire {
    if w.queue == [] || !ready then w else Fill(w, FIFO_SIZE)
  }

  lemma {:induction false} NothingPending(w: Wire)
    requires Started(w.queue)
    ensures w.queue == [] ==> Pending(w.queue) == []
  {
  }

  /** `tty_write` of a cooked text. */
  function Wrote(w: Wire, text: seq<Byte>, ready: bool): Wire {
    var w1 := w.(queue := w.queue + [Out(text, 0)]);
    if w.queue == [] then Interrupt(w1, ready) else w1
  }

  /** A write to an idle port sends up to 16 bytes at once if the port is ready, so that
      the interrupts for the rest will come; any other write only queues. */
  lemma {:induction false} WriteStarts(w: Wire, text: seq<Byte>, ready: bool)
    requires Started(w.queue)
    ensures var r, n := Wrote(w, text, ready), if |text| < 16 then |text| else 16;
      && Started(r.queue) && r.sent + Pending(r.queue) == w.sent + Pending(w.queue) + text
      && r.sent == if w.queue == [] && ready then w.sent + text[..n] else w.sent
  {
    WroteKeeps(w, text, ready);
    hide Pending, Fill;
    if w.queue == [] && ready {
      IdleStarts(w, text);
    }
  }

  lemma {:induction false} WroteKeeps(w: Wire, text: seq<Byte>, ready: bool)
    requires Started(w.queue)
    ensures var r := Wrote(w, text, ready);
      Started(r.queue) && r.sent + Pending(r.queue) == w.sent + Pending(w.queue) + text
  {
    var o := Out(text, 0);
    hide Fill, Pending;
    assert o.data[o.ptr..] == text;
    PendingJoin(w.queue, o);
    FillKeeps(w.(queue := w.queue + [o]), FIFO_SIZE);
    assert w.sent + (Pending(w.queue) + text) == w.sent + Pending(w.queue) + text;
  }

  lemma {:induction false} IdleStarts(w: Wire, text: seq<Byte>)
    requires w.queue == []
    ensures Fill(w.(queue := w.queue + [Out(text, 0)]), 16).sent == w.sent + text[..if |text| < 16 then |text| else 16]
  {
    var o := Out(text, 0);
    NothingPending(w);
    PendingJoin(w.queue, o);
    var w1 := w.(queue := w.queue + [o]);
    FillKeeps(w1, 16);
    hide Fill, Pending, Started;
    assert o.data[o.ptr..] == text && [] + text == text;
    Begins(Fill(w1, 16).sent, Pending(Fill(w1, 16).queue), w.sent, text);
  }

  lemma {:induction false} Begins(a: seq<Byte>, b: seq<Byte>, c: seq<Byte>, d: seq<Byte>)
    requires a + b == c + d && |c| <= |a|
    ensures |a| - |c| <= |d| && a == c + d[..|a| - |c|]
  {
    assert |a + b| == |c + d|;
    assert a == (a + b)[..|a|];
  }

  datatype Op = Write(buf: seq<Byte>, ready: bool) | Intr(ready: bool)

  function After(w: Wire, e: Op): Wire {
    match e
    case Write(buf, ready) => Wrote(w, Cook(buf), ready)
    case Intr(ready) => Interrupt(w, ready)
  }

  function AfterAll(w: Wire, events: seq<Op>): Wire
    decreases |events|
  {
    if events == [] then w else AfterAll(After(w, events[0]), events[1..])
  }

  /** All that was written, cooked. */
  function AllCooked(events: seq<Op>): seq<Byte> {
    if events == [] then []
    else (if events[0].Write? then Cook(events[0].buf) else []) + AllCooked(events[1..])
  }

  lemma {:induction false} AfterKeeps(w: Wire, e: Op)
    requires Started(w.queue)
    ensures Started(After(w, e).queue)
    ensures After(w, e).sent + Pending(After(w, e).queue) ==
            w.sent + Pending(w.queue) + if e.Write? then Cook(e.buf) else []
  {
    hide Fill, Pending, Cook;
    match e
    case Write(buf, ready) => WroteKeeps(w, Cook(buf), ready);
    case Intr(ready) => FillKeeps(w, FIFO_SIZE);
  }

  /** Over every run of writes and interrupts the bytes sent followed by the bytes
      still queued are all cooked writes in order. */
  lemma {:induction false} SentInOrder(w: Wire, events: seq<Op>)
    requires Started(w.queue)
    ensures Started(AfterAll(w, events).queue)
    ensures AfterAll(w, events).sent + Pending(AfterAll(w, events).queue) == w.sent + Pending(w.queue) + AllCooked(events)
    decreases |events|
  {
    if events != [] {
      AfterKeeps(w, events[0]);
      SentInOrder(After(w, events[0]), events[1..]);
    }
  }

  function Interrupts(k: nat): seq<Op> {
    if k == 0 then [] else [Intr(true)] + Interrupts(k - 1)
  }

  lemma {:induction false} Joined(a: seq<Byte>, b: seq<Byte>, c: seq<Byte>, d: seq<Byte>)
    requires a + b == c + d
    ensures |a| + |b| == |c| + |d|
  {
    assert |a + b| == |c + d|;
  }

  /** The queue drains: k interrupts send 16 k bytes or all that is queued. */
  lemma {:induction false} Drains(w: Wire, k: nat)
    requires Started(w.queue)
    ensures var r, n := AfterAll(w, Interrupts(k)), |Pending(w.queue)|;
      && Started(r.queue) && |Pending(r.queue)| == if 16 * k < n then n - 16 * k else 0
    decreases k
  {
    hide Fill;
    if k > 0 {
      NothingPending(w);
      FillKeeps(w, FIFO_SIZE);
      Joined(w.sent, Pending(w.queue), Fill(w, FIFO_SIZE).sent, Pending(Fill(w, FIFO_SIZE).queue));
      hide Pending;
      Drains(Interrupt(w, true), k - 1);
      assert Interrupts(k)[1..] == Interrupts(k - 1);
    }
  }

  // ----- the lists in memory

  ghost predicate IsSuffix(s: seq<Iob>, t: seq<Iob>) {
    |s| <= |t| && s == t[|t|-|s|..]
  }

  class Port {
    var txhead: Iob?
    var txtail: Iob?
    var freeiob: Iob?
    var sent: seq<Byte>       // what the transmitter was given
    ghost var tx: seq<Iob>    // the transmit list
    ghost var done: seq<Iob>  // the free list
    ghost var base: nat       // the number of the first buffer to be sent

    ghost predicate TxAt(i: nat)
      requires i < |tx|
      reads this, tx
    {
      && tx[i].next == (if i + 1 < |tx| then tx[i+1] else null)
      && !tx[i].finished && tx[i].number == base + i && tx[i].ptr <= |tx[i].data|
    }

    ghost predicate DoneAt(i: nat)
      requires i < |done|
      reads this, done
    {
      && done[i].next == (if i + 1 < |done| then done[i+1] else null)
      && done[i].finished && done[i].number == |done| - 1 - i
    }

    /** Each list is linked up in order, and no buffer is twice on the lists. */
    ghost predicate Valid()
      reads this, tx, done
    {
      && (forall i :: 0 <= i < |tx| ==> TxAt(i))
      && (forall i :: 0 <= i < |done| ==> DoneAt(i))
      && txhead == (if tx == [] then null else tx[0]) && txtail == (if tx == [] then null else tx[|tx|-1])
      && freeiob == (if done == [] then null else done[0])
    }

    ghost function View(): Wire
      reads this, tx
    {
      Wire(seq(|tx|, i requires 0 <= i < |tx| reads this, tx => Out(tx[i].data, tx[i].ptr)), sent)
    }

    constructor ()
      ensures Valid() && View() == Wire([], []) && done == []
    {
      txhead, txtail, freeiob, sent := null, null, null, [];
      tx, done, base := [], [], 0;
    }

    /** No buffer is in two places. */
    lemma {:induction false} OnOneList()
      requires Valid()
      ensures forall i, j :: 0 <= i < j < |tx| ==> tx[i] != tx[j]
      ensures forall i, j :: 0 <= i < j < |done| ==> done[i] != done[j]
      ensures forall i, j :: 0 <= i < |tx| && 0 <= j < |done| ==> tx[i] != done[j]
    {
      forall i, j | 0 <= i < j < |tx| ensures tx[i] != tx[j] {
        assert TxAt(i) && TxAt(j);
      }
      forall i, j | 0 <= i < j < |done| ensures done[i] != done[j] {
        assert DoneAt(i) && DoneAt(j);
      }
      forall i, j | 0 <= i < |tx| && 0 <= j < |done| ensures tx[i] != done[j] {
        assert TxAt(i) && DoneAt(j);
      }
    }

    /** The first buffer is finished: it goes to the free list. */
    method Finish()
      requires Valid() && tx != []
      modifies this, tx[0]
      ensures Valid() && tx == old(tx)[1..] && done == [old(tx)[0]] + old(done)
      ensures View() == old(View()).(queue := old(View()).queue[1..])
    {
      ghost var was, free, w := tx, done, View();
      OnOneList();
      assert TxAt(0);
      var old0 := txhead;
      txhead := txhead.next;
      old0.next := freeiob;
      freeiob := old0;
      old0.finished, old0.number := true, |done|;
      tx, done, base := was[1..], [old0] + free, base + 1;
      if txhead == null {
        txtail := null;
      }
      forall i | 0 <= i < |tx| ensures TxAt(i) {
        assert old(TxAt(i + 1));
      }
      forall i | 0 <= i < |done| ensures DoneAt(i) {
        assert i > 0 ==> old(DoneAt(i - 1));
      }
      assert View().queue == w.queue[1..];
    }

    /** Every buffer in the set of those on the lists stays on one of them. */
    ghost function Buffers(): set<Iob>
      reads this
    {
      (set b | b in tx) + (set b | b in done)
    }

    /** The inner loop: finished buffers leave the front. */
    method DropFinished()
      requires Valid()
      modifies this, tx
      ensures Valid() && View() == old(View()).(queue := Trim(old(View()).queue))
      ensures Buffers() == old(Buffers()) && IsSuffix(tx, old(tx))
      ensures txhead != null ==> txhead.ptr < |txhead.data|
    {
      ghost var q := View().queue;
      hide Trim;
      while txhead != null && txhead.ptr == |txhead.data|
        invariant Valid() && IsSuffix(tx, old(tx))
        invariant Trim(View().queue) == Trim(q) && sent == old(sent) && Buffers() == old(Buffers())
        decreases |tx|
      {
        assert TxAt(0);
        TrimStep(View().queue);
        ghost var was, free := tx, done;
        Finish();
        assert was == [was[0]] + tx;
      }
      TrimStep(View().queue);
      if txhead != null {
        assert TxAt(0);
      }
    }

    static lemma {:induction false} TrimStep(q: seq<Out>)
      ensures Trim(q) == if q != [] && q[0].ptr == |q[0].data| then Trim(q[1..]) else q
    {
    }

    /** One byte of the first buffer goes to the transmitter. */
    method SendByte()
      requires Valid() && txhead != null && txhead.ptr < |txhead.data|
      modifies this, tx
      ensures Valid() && tx == old(tx) && done == old(done)
      ensures var q := old(View()).queue;
        View() == Wire([q[0].(ptr := q[0].ptr + 1)] + q[1..], old(sent) + [q[0].data[q[0].ptr]])
    {
      ghost var w := View();
      OnOneList();
      assert TxAt(0);
      sent := sent + [txhead.data[txhead.ptr]];
      txhead.ptr := txhead.ptr + 1;
      forall i | 0 <= i < |tx| ensures TxAt(i) {
        assert old(TxAt(i));
      }
      forall i | 0 <= i < |done| ensures DoneAt(i) {
        assert old(DoneAt(i));
      }
      assert View().queue == [w.queue[0].(ptr := w.queue[0].ptr + 1)] + w.queue[1..];
    }

    /** `tty_xmit_intr`. */
    method XmitIntr(ready: bool)
      requires Valid()
      modifies this, tx
      ensures Valid() && View() == Interrupt(old(View()), ready) && Buffers() == old(Buffers())
    {
      if txhead == null || !ready {
        return;
      }
      FillFifo();
    }

    method FillFifo()
      requires Valid()
      modifies this, tx
      ensures Valid() && View() == Fill(old(View()), FIFO_SIZE) && Buffers() == old(Buffers())
    {
      ghost var w := View();
      hide Fill, Trim;
      var i := 0;
      while i < FIFO_SIZE
        invariant i <= FIFO_SIZE && Valid() && IsSuffix(tx, old(tx))
        invariant Fill(View(), FIFO_SIZE - i) == Fill(w, FIFO_SIZE) && Buffers() == old(Buffers())
      {
        FillStep(View(), FIFO_SIZE - i);
        DropFinished();
        if txhead == null {
          return;
        }
        SendByte();
        i := i + 1;
      }
      FillStep(View(), 0);
    }

    static lemma {:induction false} FillStep(w: Wire, n: nat)
      ensures n == 0 ==> Fill(w, n) == w
      ensures n > 0 ==> var q := Trim(w.queue);
        Fill(w, n) == if q == [] || q[0].ptr >= |q[0].data| then Wire(q, w.sent)
                      else Fill(Wire([q[0].(ptr := q[0].ptr + 1)] + q[1..], w.sent + [q[0].data[q[0].ptr]]), n - 1)
    {
    }

    /** A new buffer goes to the end of the transmit list. */
    method Append(iob: Iob)
      requires Valid() && iob !in Buffers() && !iob.finished && iob.next == null && iob.ptr <= |iob.data|
      modifies this, tx, iob
      ensures Valid() && tx == old(tx) + [iob] && done == old(done)
      ensures View() == old(View()).(queue := old(View()).queue + [Out(iob.data, old(iob.ptr))])
    {
      ghost var w, was := View(), tx;
      OnOneList();
      assert tx != [] ==> TxAt(|tx| - 1);
      if txhead != null {
        txtail.next := iob;
        txtail := iob;
      } else {
        txhead := iob;
        txtail := iob;
      }
      iob.number := base + |tx|;
      tx := tx + [iob];
      forall i | 0 <= i < |tx| ensures TxAt(i) {
        assert i < |was| ==> old(TxAt(i)) && was[i] in was;
      }
      forall i | 0 <= i < |done| ensures DoneAt(i) {
        assert old(DoneAt(i)) && done[i] in done;
      }
      assert View().queue == w.queue + [Out(iob.data, iob.ptr)];
    }

    /** `tty_write` of some bytes; `fits` tells whether there is memory for them. */
    method Write(buf: seq<Byte>, fits: bool, ready: bool) returns (rc: Rc, wrote: nat)
      requires Valid()
      modifies this, tx, done
      ensures Valid() && (rc == Ok || rc == NoMem) && (rc == Ok ==> wrote == |buf|)
      ensures rc == NoMem <==> |buf| > 0 && (!fits || |Cook(buf)| >= 0x8000)
      ensures View() == if rc == Ok && |buf| > 0 then After(old(View()), Op.Write(buf, ready)) else old(View())
    {
      FreeIobs();
      if |buf| == 0 {
        return Ok, 0;
      }
      var iob := CookOutput(buf, fits);
      if iob == null {
        return NoMem, 0;
      }
      var idle := txhead == null;
      Append(iob);
      if idle {
        XmitIntr(ready);
      }
      return Ok, |buf|;
    }

    /** `tty_freeiob` for this port: the free list is emptied. */
    method FreeIobs()
      requires Valid()
      modifies this`freeiob, this`done
      ensures Valid() && done == [] && View() == old(View()) && tx == old(tx)
    {
      while freeiob != null
        invariant Valid() && View() == old(View()) && tx == old(tx)
        decreases |done|
      {
        assert DoneAt(0);
        label Before:
        freeiob := freeiob.next;
        done := done[1..];
        forall i | 0 <= i < |done| ensures DoneAt(i) {
          assert old@Before(DoneAt(i + 1));
        }
        forall i | 0 <= i < |tx| ensures TxAt(i) {
          assert old@Before(TxAt(i));
        }
      }
    }
  }
}

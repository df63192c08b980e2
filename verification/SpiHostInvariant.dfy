/** What every cycle keeps while a burst runs, and what a flag then proves. */
module SpiHostInvariant {
  import opened Basics
  import opened SpiHostSilicon

  /** Between transactions: nothing under way, nothing unread. */
  ghost predicate Idle(h: Host) {
    && h.period >= 16 && h.shifter.None? && h.buffer.None? && h.landing.None? && h.drying == 0
    && h.fifo == [] && h.held.None?
  }

  function Inbox(h: Host): seq<byte> {
    h.fifo + Opt(h.held) + Opt(h.landing)
  }

  function Outbox(h: Host): seq<byte> {
    Opt(h.shifter) + Opt(h.buffer)
  }

  ghost predicate Shape(h: Host) {
    && h.period >= 16 && |h.fifo| <= 2 && h.drying <= 2
    && (h.buffer.Some? ==> h.shifter.Some?)
    && (h.shifter.Some? ==> 1 <= h.left <= h.period)
    && (h.held.Some? ==> |h.fifo| == 2 && h.shifter.None? && h.landing.None?)
    && (h.drying == 2 ==> h.landing.Some?)
    && (h.shifter.None? && h.landing.Some? ==> h.drying == 2)
  }

  /** Nothing has gone wrong since `s`. */
  ghost predicate Clean(s: Host, h: Host) {
    h.lost == s.lost && h.dropped == s.dropped && h.risked == s.risked && h.period == s.period
  }

  /** `written` is on the wire in order, but for the two bytes at most under way, and
      every byte sent has brought one. */
  ghost predicate Sent(s: Host, h: Host, written: seq<byte>) {
    && h.wire + Outbox(h) == s.wire + written
    && |h.got| == |s.got| + |written| - |Outbox(h)|
  }

  /** The receiver holds exactly the bytes received after the `read` first. */
  ghost predicate Received(s: Host, h: Host, read: nat) {
    s.got <= h.got && |s.got| + read <= |h.got| && h.got[|s.got| + read..] == Inbox(h)
  }

  /** Since `s`, which was idle; three bytes outstanding at most. */
  ghost predicate Inv(s: Host, h: Host, written: seq<byte>, read: nat) {
    && Shape(h) && Clean(s, h) && Sent(s, h, written) && Received(s, h, read)
    && |written| <= read + 3
  }

  /** The cycles of shifting still to come, and a measure every cycle lowers. */
  function Work(h: Host): nat {
    (if h.shifter.Some? then h.left else 0) + (if h.buffer.Some? then h.period else 0)
  }

  function Busy(h: Host): nat {
    3 * Work(h) + h.drying
  }

  /** TXCIF cleared behind the last write: it stands exactly when everything is in. */
  ghost predicate Pending(h: Host) {
    if h.txcif then h.shifter.None? && h.buffer.None? && h.landing.None? && h.drying == 0
    else Work(h) > 0 || h.drying > 0
  }

  /** Three outstanding, one of them shifting, are at most two in the receiver: the
      byte that lands finds room, or an idle shifter to wait in. */
  lemma RoomToLand(s: Host, h: Host, written: seq<byte>, read: nat)
    requires Inv(s, h, written, read)
    ensures |Inbox(h)| + |Outbox(h)| <= 3
  {
    assert |h.got[|s.got| + read..]| == |h.got| - |s.got| - read;
  }

  lemma LandKeeps(h: Host)
    requires Shape(h) && |Inbox(h)| + |Outbox(h)| <= 3
    ensures var l := Land(ShowEmpty(h));
      && Shape(l) && Inbox(l) == Inbox(h) && l.landing.None? && Outbox(l) == Outbox(h)
      && l.wire == h.wire && l.got == h.got && Clean(h, l) && l.left == h.left
  {
    var s := ShowEmpty(h);
    assert s == h.(drying := s.drying, txcif := s.txcif) && s.drying == if h.drying > 0 then h.drying - 1 else 0;
    hide ShowEmpty;
    assert Inbox(s) == Inbox(h) && Outbox(s) == Outbox(h);
    match s.landing
    case None =>
    case Some(b) =>
      LandsIn(s, b);
  }

  /** The byte that lands finds room in the FIFO, or the shifter idle. */
  lemma LandsIn(s: Host, b: byte)
    requires s.landing == Some(b) && s.held.None? && |s.fifo| <= 2 && |Inbox(s)| + |Outbox(s)| <= 3
    ensures Land(s) == if |s.fifo| < 2 then s.(landing := None, fifo := s.fifo + [b], rxcif := true)
                       else s.(landing := None, held := Some(b))
    ensures |s.fifo| == 2 ==> s.shifter.None?
    ensures Inbox(Land(s)) == Inbox(s)
  {
  }

  /** A transfer ends: its byte is on the wire, the buffer's next, and what it brought
      about to land. */
  lemma EndKeeps(h: Host, b: byte)
    requires Shape(h) && h.landing.None? && h.shifter.Some? && h.left == 1
    ensures var t := Shift(h, b);
      && Shape(t) && t.wire + Outbox(t) == h.wire + Outbox(h) && Clean(h, t)
      && t.got == h.got + [b] && Inbox(t) == Inbox(h) + [b] && |Outbox(t)| == |Outbox(h)| - 1
  {
    var v := h.shifter.value;
    var e := h.(wire := h.wire + [v], got := h.got + [b], landing := Some(b), shifter := h.buffer, buffer := None);
    ShiftIs(h, b, e);
    EndedBoxes(h, e, v, b);
    hide Shift;
  }

  lemma ShiftIs(h: Host, b: byte, e: Host)
    requires Shape(h) && h.landing.None? && h.shifter.Some? && h.left == 1
    requires e == h.(wire := h.wire + [h.shifter.value], got := h.got + [b], landing := Some(b), shifter := h.buffer,
                     buffer := None)
    ensures h.held.None?
    ensures Shift(h, b) == if h.buffer.Some? then e.(left := h.period) else e.(left := 0, drying := 2)
    ensures Inbox(Shift(h, b)) == Inbox(e) && Outbox(Shift(h, b)) == Outbox(e)
  {
  }

  lemma EndedBoxes(h: Host, e: Host, v: byte, b: byte)
    requires h.shifter == Some(v) && h.landing.None? && h.held.None?
    requires e.wire == h.wire + [v] && e.shifter == h.buffer && e.buffer.None?
    requires e.fifo == h.fifo && e.held.None? && e.landing == Some(b)
    ensures e.wire + Outbox(e) == h.wire + Outbox(h)
    ensures Inbox(e) == Inbox(h) + [b] && |Outbox(e)| == |Outbox(h)| - 1
  {
    assert Outbox(h) == [v] + Outbox(e);
  }

  lemma ShiftKeeps(h: Host, b: byte)
    requires Shape(h) && h.landing.None?
    ensures var t := Shift(h, b);
      && Shape(t) && t.wire + Outbox(t) == h.wire + Outbox(h) && Clean(h, t)
      && ((t.got == h.got && Inbox(t) == Inbox(h) && |Outbox(t)| == |Outbox(h)|)
          || (t.got == h.got + [b] && Inbox(t) == Inbox(h) + [b] && |Outbox(t)| == |Outbox(h)| - 1))
  {
    if h.shifter.Some? && h.left == 1 {
      EndKeeps(h, b);
    } else {
      assert Shift(h, b) == if h.shifter.Some? then h.(left := h.left - 1) else h;
    }
  }

  lemma TickKeeps(s: Host, h: Host, b: byte, written: seq<byte>, read: nat)
    requires Inv(s, h, written, read)
    ensures Inv(s, Tick(h, b), written, read) && h.got <= Tick(h, b).got
  {
    hide *;
    RoomToLand(s, h, written, read);
    ShapeOf(s, h, written, read);
    TickMoves(h, b);
    Moved(s, h, Tick(h, b), b, written, read);
  }

  lemma ShapeOf(s: Host, h: Host, written: seq<byte>, read: nat)
    requires Inv(s, h, written, read)
    ensures Shape(h)
  {
    hide Shape;
  }

  lemma Moved(s: Host, h: Host, t: Host, b: byte, written: seq<byte>, read: nat)
    requires Inv(s, h, written, read) && Shape(t) && t.wire + Outbox(t) == h.wire + Outbox(h) && Clean(h, t)
    requires (t.got == h.got && Inbox(t) == Inbox(h) && |Outbox(t)| == |Outbox(h)|)
          || (t.got == h.got + [b] && Inbox(t) == Inbox(h) + [b] && |Outbox(t)| == |Outbox(h)| - 1)
    ensures Inv(s, t, written, read) && h.got <= t.got
  {
    hide Inbox, Outbox, Shape;
    if t.got == h.got + [b] {
      assert t.got[|s.got| + read..] == h.got[|s.got| + read..] + [b];
    }
  }

  /** What a cycle moves: nothing, or a byte out and a byte in. */
  lemma TickMoves(h: Host, b: byte)
    requires Shape(h) && |Inbox(h)| + |Outbox(h)| <= 3
    ensures var t := Tick(h, b);
      && Shape(t) && t.wire + Outbox(t) == h.wire + Outbox(h) && Clean(h, t)
      && ((t.got == h.got && Inbox(t) == Inbox(h) && |Outbox(t)| == |Outbox(h)|)
          || (t.got == h.got + [b] && Inbox(t) == Inbox(h) + [b] && |Outbox(t)| == |Outbox(h)| - 1))
  {
    LandKeeps(h);
    var l := Land(ShowEmpty(h));
    ShiftKeeps(l, b);
    assert Tick(h, b) == Shift(l, b);
    hide Land, ShowEmpty, Shift, Inbox, Outbox, Tick, Shape;
  }

  // ---- any number of cycles ----------------------------------------------------

  /** Before the shifter's cycle: the transmitter untouched, the FIFO settled. */
  function Settle(h: Host): Host {
    Land(ShowEmpty(h))
  }

  lemma SettleFields(h: Host)
    ensures var l := Settle(h);
      && l.shifter == h.shifter && l.buffer == h.buffer && l.left == h.left && l.period == h.period
      && l.drying == (if h.drying > 0 then h.drying - 1 else 0) && l.landing.None?
      && l.txcif == (h.txcif || (h.drying == 1 && h.shifter.None? && h.buffer.None?))
  {
  }

  lemma ShiftRests(l: Host, b: byte)
    requires l.shifter.Some? ==> l.left > 1
    ensures Shift(l, b) == if l.shifter.None? then l else l.(left := l.left - 1)
  {
  }

  lemma ShiftEnds(l: Host, b: byte)
    requires l.shifter.Some? && l.left <= 1 && l.held.None?
    ensures var t := Shift(l, b);
      && t.buffer.None? && t.landing == Some(b) && t.shifter == l.buffer
      && t.fifo == l.fifo && t.txcif == l.txcif && t.period == l.period
      && (if l.buffer.None? then t.drying == 2 else t.left == l.period && t.drying == l.drying)
  {
    if l.buffer.None? {
      assert Shift(l, b).drying == 2;
    }
  }

  /** The transmitter over one cycle. */
  lemma TickTransmits(h: Host, b: byte)
    requires Shape(h) && Shape(Settle(h))
    ensures var t := Tick(h, b);
      && (h.buffer.None? ==> t.buffer.None?) && (h.shifter.None? ==> t.shifter.None?)
      && t.period == h.period && |Outbox(t)| <= |Outbox(h)|
      && (if h.shifter.Some? && h.left == 1 && h.buffer.None? then t.drying == 2 && t.shifter.None?
          else t.drying == if h.drying > 0 then h.drying - 1 else 0)
      && Work(t) == (if Work(h) > 0 then Work(h) - 1 else 0)
      && t.txcif == (h.txcif || (h.drying == 1 && h.shifter.None? && h.buffer.None?))
      && (h.shifter.None? ==> t.landing.None?)
  {
    SettleFields(h);
    var l := Settle(h);
    if l.shifter.Some? && l.left <= 1 {
      ShiftEnds(l, b);
    } else {
      ShiftRests(l, b);
    }
    assert Tick(h, b) == Shift(l, b);
    hide Shift, Land, ShowEmpty, Settle, Tick;
  }

  lemma TickWorks(s: Host, h: Host, b: byte, written: seq<byte>, read: nat)
    requires Inv(s, h, written, read)
    ensures var t := Tick(h, b);
      && Work(t) == (if Work(h) > 0 then Work(h) - 1 else 0)
      && (if Busy(h) > 0 then Busy(t) < Busy(h) else Busy(t) == 0)
      && (h.buffer.None? ==> t.buffer.None?) && (h.shifter.None? ==> t.shifter.None?)
      && |Outbox(t)| <= |Outbox(h)|
      && (Pending(h) ==> Pending(t)) && (h.txcif ==> t.txcif)
  {
    RoomToLand(s, h, written, read);
    LandKeeps(h);
    TickTransmits(h, b);
    hide Tick, Inv, Land, ShowEmpty, Outbox, Inbox;
  }

  lemma TickLands(s: Host, h: Host, b: byte, written: seq<byte>, read: nat)
    requires Inv(s, h, written, read)
    ensures |Tick(h, b).fifo| >= if |Inbox(h)| >= 2 then 2 else |Inbox(h)|
  {
    hide *;
    RoomToLand(s, h, written, read);
    ShapeOf(s, h, written, read);
    LandKeeps(h);
    LandedFifo(Land(ShowEmpty(h)));
    TickFifo(h, b);
  }

  lemma LandedFifo(l: Host)
    requires Shape(l) && l.landing.None?
    ensures |l.fifo| >= if |Inbox(l)| >= 2 then 2 else |Inbox(l)|
  {
  }

  lemma TickFifo(h: Host, b: byte)
    ensures Tick(h, b).fifo == Land(ShowEmpty(h)).fifo
  {
    hide Land, ShowEmpty;
  }

  /** What some run of two cycles or more makes of `h`. */
  ghost predicate Later(h: Host, t: Host) {
    exists bs: seq<byte> :: |bs| >= 2 && t == Run(h, bs)
  }

  /** What every stretch of cycles keeps, from `h` to `t`. */
  ghost predicate Onward(h: Host, t: Host, cycles: nat) {
    && Busy(t) <= Busy(h) && (cycles > 0 && Busy(h) > 0 ==> Busy(t) < Busy(h))
    && (h.buffer.None? ==> t.buffer.None?) && (h.shifter.None? ==> t.shifter.None?)
    && (Pending(h) ==> Pending(t)) && Work(t) >= Work(h) - cycles && |Inbox(t)| >= |Inbox(h)|
    && (cycles > 0 ==> |t.fifo| >= (if |Inbox(h)| >= 2 then 2 else |Inbox(h)|))
    && (h.txcif ==> t.txcif) && h.got <= t.got
  }

  /** The same for a stretch of unknown length, a cycle at least. */
  ghost predicate Passed(h: Host, t: Host) {
    && (Busy(h) > 0 ==> Busy(t) < Busy(h))
    && (h.buffer.None? ==> t.buffer.None?) && (h.shifter.None? ==> t.shifter.None?)
    && (Pending(h) ==> Pending(t)) && |Inbox(t)| >= |Inbox(h)|
    && |t.fifo| >= (if |Inbox(h)| >= 2 then 2 else |Inbox(h)|)
    && (h.txcif ==> t.txcif) && h.got <= t.got
  }

  lemma InboxSize(s: Host, h: Host, written: seq<byte>, read: nat)
    requires Inv(s, h, written, read)
    ensures |Inbox(h)| == |written| - read - |Outbox(h)|
  {
    assert |h.got[|s.got| + read..]| == |Inbox(h)|;
  }

  lemma TickOnward(s: Host, h: Host, b: byte, written: seq<byte>, read: nat)
    requires Inv(s, h, written, read)
    ensures Inv(s, Tick(h, b), written, read) && Onward(h, Tick(h, b), 1)
  {
    var t := Tick(h, b);
    TickKeeps(s, h, b, written, read);
    TickWorks(s, h, b, written, read);
    TickLands(s, h, b, written, read);
    InboxSize(s, h, written, read);
    InboxSize(s, t, written, read);
    hide Inv, Tick, Pending, Busy, Work, Inbox, Outbox;
    WorkBusy(h, t);
  }

  lemma WorkBusy(h: Host, t: Host)
    requires if Busy(h) > 0 then Busy(t) < Busy(h) else Busy(t) == 0
    ensures Busy(t) <= Busy(h) && (Busy(h) > 0 ==> Busy(t) < Busy(h))
  {
  }

  lemma OnwardTrans(h: Host, m: Host, t: Host, cycles: nat)
    requires Onward(h, m, 1) && Onward(m, t, cycles) && (cycles == 0 ==> t == m)
    ensures Onward(h, t, cycles + 1)
  {
    hide Pending, Work, Busy, Inbox;
  }

  lemma {:induction false} RunKeeps(s: Host, h: Host, bs: seq<byte>, written: seq<byte>, read: nat)
    requires Inv(s, h, written, read)
    ensures Inv(s, Run(h, bs), written, read) && Onward(h, Run(h, bs), |bs|)
    decreases |bs|
  {
    if bs != [] {
      var t := Tick(h, bs[0]);
      TickOnward(s, h, bs[0], written, read);
      RunKeeps(s, t, bs[1..], written, read);
      OnwardTrans(h, t, Run(t, bs[1..]), |bs| - 1);
      hide Inv, Tick, Onward;
    }
  }

  // ---- the accesses ---------------------------------------------------------------

  /** The transmitter takes one more byte; the receiver does not move. */
  lemma TakeKeeps(s: Host, h: Host, t: Host, v: byte, written: seq<byte>, read: nat)
    requires Inv(s, h, written, read) && |written| < read + 3
    requires Shape(t) && Clean(h, t) && t.got == h.got && t.wire == h.wire
    requires Outbox(t) == Outbox(h) + [v] && Inbox(t) == Inbox(h)
    ensures Inv(s, t, written + [v], read)
  {
    hide Shape, Outbox, Inbox;
    assert t.wire + Outbox(t) == (h.wire + Outbox(h)) + [v];
  }

  lemma WriteIdle(h: Host, v: byte)
    requires Shape(h) && h.shifter.None? && h.held.None?
    ensures var t := AfterWrite(h, v);
      && t == h.(shifter := Some(v), left := h.period) && Shape(t) && Clean(h, t)
      && Outbox(t) == Outbox(h) + [v] && Inbox(t) == Inbox(h)
  {
  }

  lemma WriteBuffer(h: Host, v: byte)
    requires Shape(h) && h.shifter.Some? && h.buffer.None?
    ensures var t := AfterWrite(h, v);
      && t == h.(buffer := Some(v)) && Shape(t) && Clean(h, t)
      && Outbox(t) == Outbox(h) + [v] && Inbox(t) == Inbox(h)
  {
  }

  /** A write on DREIF with room for a third byte outstanding: nothing waits in the
      shift register for it to overwrite. */
  lemma WriteKeeps(s: Host, h: Host, v: byte, written: seq<byte>, read: nat)
    requires Inv(s, h, written, read) && Dre(h) && |written| < read + 3
    ensures Inv(s, AfterWrite(h, v), written + [v], read) && Work(AfterWrite(h, v)) >= h.period
    ensures h.shifter.None? ==> AfterWrite(h, v).buffer.None?
    ensures AfterWrite(h, v).period == h.period && AfterWrite(h, v).shifter.Some?
  {
    InboxSize(s, h, written, read);
    if h.shifter.None? {
      WriteIdle(h, v);
    } else {
      WriteBuffer(h, v);
    }
    TakeKeeps(s, h, AfterWrite(h, v), v, written, read);
    hide Inv, Shape, Inbox, Outbox;
  }

  /** A read that leaves a byte behind, or meets nothing under way. */
  lemma ReadKeeps(s: Host, h: Host, written: seq<byte>, read: nat)
    requires Inv(s, h, written, read) && h.fifo != []
    requires |h.fifo| == 2 || (h.shifter.None? && h.landing.None?)
    ensures |s.got| + read < |h.got| && Head(h) == h.got[|s.got| + read]
    ensures Inv(s, AfterRead(h), written, read + 1)
  {
    var g, t := |s.got| + read, AfterRead(h);
    assert h.got[g..][0] == Inbox(h)[0];
    assert Inbox(t) == Inbox(h)[1..] && Outbox(t) == Outbox(h) && t.got == h.got && t.wire == h.wire;
    hide AfterRead, Outbox, Inbox;
    assert h.got[g..][1..] == h.got[g + 1..];
  }

  lemma ReadMoves(h: Host)
    ensures var t := AfterRead(h);
      && t.txcif == h.txcif && t.buffer == h.buffer && t.shifter == h.shifter && t.got == h.got
      && t.drying == h.drying && t.left == h.left && t.period == h.period
      && (h.landing.None? ==> t.landing.None?) && |Inbox(t)| >= |Inbox(h)| - 1
  {
    hide Inbox;
    ReadTakes(h);
    var t := AfterRead(h);
    var n := h.(risked := t.risked, fifo := t.fifo, held := t.held, rxcif := t.rxcif, last := t.last,
                bufovf := t.bufovf);
    if |h.fifo| == 1 && h.landing.Some? {
      assert t == n.(landing := None);
    } else {
      assert t == n;
    }
  }

  lemma ReadTakes(h: Host)
    ensures |Inbox(AfterRead(h))| >= |Inbox(h)| - 1
  {
    ReadFields(h);
    hide AfterRead;
  }

  lemma ReadFields(h: Host)
    ensures var t := AfterRead(h);
      if h.fifo == [] then t.fifo == h.fifo && t.held == h.held && t.landing == h.landing
      else if |h.fifo| == 1 && h.landing.Some? then |t.fifo| == 2 && t.held == h.held && t.landing.None?
      else t.fifo == h.fifo[1..] + Opt(h.held) && t.held.None? && t.landing == h.landing
  {
  }

  /** The clear, with a cycle of the last byte still to come. */
  lemma ClearKeeps(s: Host, h: Host, written: seq<byte>, read: nat)
    requires Inv(s, h, written, read) && Busy(h) > 0
    ensures Inv(s, h.(txcif := false), written, read) && Pending(h.(txcif := false))
  {
    var t := h.(txcif := false);
    assert Inbox(t) == Inbox(h) && Outbox(t) == Outbox(h) && Shape(t) && Clean(s, t);
  }

  lemma IdleStarts(h: Host)
    requires Idle(h)
    ensures Inv(h, h, [], 0) && Dre(h) && h.shifter.None?
  {
    assert Inbox(h) == [] && Outbox(h) == [];
  }

  /** Everything written, everything in, everything read: idle again. */
  lemma Finished(s: Host, h: Host, written: seq<byte>, read: nat)
    requires Inv(s, h, written, read) && Pending(h) && h.txcif && read == |written|
    ensures Idle(h) && Clean(s, h) && s.got <= h.got
    ensures h.wire == s.wire + written && |h.got| == |s.got| + |written|
  {
    InboxSize(s, h, written, read);
  }
}

/**
 Runs whose last byte counted is another transfer's, each from a waiting select to its
 ending, access by access, any number of cycles apart. They take an interrupt two
 transfers long between a turn's flags and its read.

 Cut: the one more byte is counted on a DREIF that stands beside TXCIF, the answer gone
 on and the host's close behind it between the last poll and the select's test.

 Complete: under BUFWR, in a run of three, on a host that clocks past it.

 With a host that clocks four or more they are there for every run of three or more, with
 BUFWR and without; ServeBuffered's contract says that for no other they are.
*/
module SpiClientGap {
  import opened Basics
  import opened SpiClientSilicon
  import opened SpiClientInvariant

  lemma {:induction false} LaterRun(h: Client, acts: seq<Act>, t: Client)
    requires |acts| >= 2 && t == Run(h, acts)
    ensures Later(h, t)
  {
  }

  lemma RunTwo(h: Client, a: Act, b: Act)
    ensures Run(h, [a, b]) == Tick(Tick(h, a), b)
  {
    assert [a, b][1..] == [b] && [b][1..] == [];
    assert Run(Tick(h, a), [b]) == Run(Tick(Tick(h, a), b), []);
  }

  lemma RunFour(h: Client, a: Act, b: Act, c: Act, d: Act)
    ensures Run(h, [a, b, c, d]) == Tick(Tick(Tick(Tick(h, a), b), c), d)
  {
    RunTwo(h, a, b);
    RunSnoc(h, [a, b], c);
    RunSnoc(h, [a, b, c], d);
    assert [a, b] + [c] == [a, b, c] && [a, b, c] + [d] == [a, b, c, d];
  }

  /** Nothing happens. */
  lemma Still(h: Client)
    requires h.landing.None? && h.drying == 0 && (h.bufwr && h.pad == Waiting ==> h.loaded.Some? || h.buffer.None?)
    ensures Later(h, h) && Settle(h) == h
  {
    RunTwo(h, Quiet, Quiet);
    LaterRun(h, [Quiet, Quiet], h);
  }

  /** The host takes the select low. */
  lemma Opens(h: Client, t: Client)
    requires h.landing.None? && h.drying == 0 && h.pad == Waiting && t == h.(pad := Open)
    requires h.bufwr ==> h.loaded.Some?
    ensures Later(h, t)
  {
    RunTwo(h, Fall, Quiet);
    LaterRun(h, [Fall, Quiet], t);
  }

  /** A transfer with an answer buffered behind it. */
  lemma Answered(h: Client, v: byte, t: Client)
    requires h.landing.None? && h.drying == 0 && h.pad == Open && !h.shifting && h.begun < h.quota && h.held.None?
    requires h.buffer.Some? && |h.fifo| < 2
    requires var a := Arrival(v, |h.clocked|);
      t == h.(begun := h.begun + 1, clocked := h.clocked + [a], loaded := h.buffer, buffer := None,
              sent := h.sent + [h.buffer.value], fifo := h.fifo + [a], rxcif := true)
    ensures Later(h, t)
  {
    var b := h.(begun := h.begun + 1, shifting := true);
    var a := Arrival(v, |h.clocked|);
    var e := b.(shifting := false, landing := Some(a), clocked := h.clocked + [a], loaded := h.buffer,
                buffer := None, sent := h.sent + [h.buffer.value]);
    assert Tick(h, Begin(false)) == b && Tick(b, End(v)) == e;
    assert Tick(e, Quiet) == t && Tick(t, Quiet) == t;
    RunFour(h, Begin(false), End(v), Quiet, Quiet);
    LaterRun(h, [Begin(false), End(v), Quiet, Quiet], t);
  }

  /** A transfer that ends dry behind a full FIFO, over the byte held there, if any. */
  lemma Unanswered(h: Client, v: byte, t: Client)
    requires h.landing.None? && h.drying == 0 && h.pad == Open && !h.shifting && h.begun < h.quota
    requires h.buffer.None? && |h.fifo| == 2
    requires var a := Arrival(v, |h.clocked|);
      t == h.(begun := h.begun + 1, clocked := h.clocked + [a], loaded := None, held := Some(a), txcif := true,
              dryAt := if h.dryAt.None? then Some(|h.clocked|) else h.dryAt,
              over := if h.held.Some? && h.over.None? then Some(h.held.value.transfer) else h.over)
    ensures Later(h, t)
  {
    var b := h.(begun := h.begun + 1, shifting := true, held := None, over := t.over);
    var a := Arrival(v, |h.clocked|);
    var e := b.(shifting := false, landing := Some(a), clocked := h.clocked + [a], loaded := None,
                drying := 2, dryAt := t.dryAt);
    assert Tick(h, Begin(false)) == b;
    EndsDry(b, v, e);
    DryShows(e, t);
    RunFour(h, Begin(false), End(v), Quiet, Quiet);
    hide Tick;
    LaterRun(h, [Begin(false), End(v), Quiet, Quiet], t);
  }

  lemma EndsDry(b: Client, v: byte, e: Client)
    requires b.landing.None? && b.drying == 0 && b.pad == Open && b.shifting && b.buffer.None?
    requires var a := Arrival(v, |b.clocked|);
      e == b.(shifting := false, landing := Some(a), clocked := b.clocked + [a], loaded := None, drying := 2,
              dryAt := if b.dryAt.None? then Some(|b.clocked|) else b.dryAt)
    ensures Tick(b, End(v)) == e
  {
  }

  lemma DryShows(e: Client, t: Client)
    requires e.landing.Some? && e.drying == 2 && |e.fifo| == 2 && e.pad == Open
    requires t == e.(landing := None, held := e.landing, drying := 0, txcif := true)
    ensures Tick(Tick(e, Quiet), Quiet) == t
  {
    var l := e.(landing := None, held := e.landing, drying := 1);
    assert Tick(e, Quiet) == l;
  }

  /** Transfer `i`'s byte. */
  function Byte(i: nat): (a: Arrival)
    requires i < 10
    ensures a.transfer == i
  {
    Arrival((10 + i) as byte, i)
  }

  lemma LaterTrans(h: Client, m: Client, t: Client)
    requires Later(h, m) && Later(m, t)
    ensures Later(h, t)
  {
    var a: seq<Act> :| |a| >= 2 && m == Run(h, a);
    var b: seq<Act> :| |b| >= 2 && t == Run(m, b);
    RunOn(h, a, b);
    LaterRun(h, a + b, t);
  }

  lemma {:induction false} RunOn(h: Client, a: seq<Act>, b: seq<Act>)
    ensures Run(h, a + b) == Run(Run(h, a), b)
    decreases |b|
  {
    hide Tick;
    if b == [] {
      assert a + b == a;
    } else {
      RunSnoc(h, a, b[0]);
      assert a + b == (a + [b[0]]) + b[1..];
      RunOn(h, a + [b[0]], b[1..]);
    }
  }

  // ---- the interrupt, and the two ways on from it ------------------------------------------

  /** A turn's flags seen: two transfers in, both bytes unread, no answer buffered. */
  ghost predicate AtTurn(h: Client) {
    && h.pad == Open && !h.shifting && h.loaded.Some? && h.buffer.None? && h.landing.None? && h.drying == 0
    && h.fifo == [Byte(0), Byte(1)] && h.held.None? && h.rxcif && !h.txcif && !h.bufovf
    && h.begun == 2 && h.clocked == [Byte(0), Byte(1)] && h.dryAt.None? && h.over.None? && h.quota >= 4
  }

  /** Under the interrupt transfer 2 ends dry, and transfer 3 starts over its byte. */
  function Dry(t: Client): Client {
    t.(begun := 3, clocked := t.clocked + [Byte(2)], loaded := None, held := Some(Byte(2)), txcif := true, dryAt := Some(2))
  }

  function Held(t: Client): Client {
    var d := Dry(t);
    d.(begun := 4, clocked := d.clocked + [Byte(3)], held := Some(Byte(3)), over := Some(2))
  }

  /** The turn's read. */
  function Read(t: Client): Client {
    Held(t).(fifo := [Byte(1), Byte(3)], held := None, last := Byte(0))
  }

  lemma Interrupt(t: Client)
    requires AtTurn(t)
    ensures Later(t, Held(t)) && Head(Held(t)) == Byte(0) && AfterRead(Held(t)) == Read(t) && Later(Read(t), Read(t))
  {
    hide *;
    Dries(t);
    Holds(t);
    LaterTrans(t, Dry(t), Held(t));
    ReadsHeld(t);
    ReadStill(t);
  }

  lemma Dries(t: Client)
    requires AtTurn(t)
    ensures Later(t, Dry(t))
  {
    Unanswered(t, 12, Dry(t));
    hide Later;
  }

  lemma Holds(t: Client)
    requires AtTurn(t)
    ensures Later(Dry(t), Held(t))
  {
    Unanswered(Dry(t), 13, Held(t));
    hide Later;
  }

  lemma ReadsHeld(t: Client)
    requires AtTurn(t)
    ensures Head(Held(t)) == Byte(0) && AfterRead(Held(t)) == Read(t)
  {
  }

  lemma ReadStill(t: Client)
    requires AtTurn(t)
    ensures Later(Read(t), Read(t))
  {
    Still(Read(t));
    hide Later;
  }

  /** Its write, and behind the last poll the answer's move into the dry transmitter and
      the host's close. */
  function Polled(t: Client, v: byte): Client { Read(t).(buffer := Some(v)) }

  function Shut(t: Client, v: byte): Client {
    Polled(t, v).(loaded := Some(v), buffer := None, sent := t.sent + [v], pad := Closed)
  }

  function Last(t: Client, v: byte): Client { Shut(t, v).(fifo := [Byte(3)], last := Byte(1)) }

  /** The polls see no room, the select's test the close, and the cut's load DREIF beside
      TXCIF; the tail's two reads are of transfers 1 and 3. */
  ghost predicate CutWrong(t: Client, v: byte) {
    && AfterWrite(Read(t), v) == Polled(t, v)
    && Later(Polled(t, v), Polled(t, v)) && !FlagsOf(Polled(t, v)).dre && Polled(t, v).pad == Open
    && Later(Polled(t, v), Shut(t, v)) && Shut(t, v).pad == Closed
    && Later(Shut(t, v), Shut(t, v)) && FlagsOf(Shut(t, v)).dre && FlagsOf(Shut(t, v)).txc
    && Head(Shut(t, v)) == Byte(1) && AfterRead(Shut(t, v)) == Last(t, v)
    && Later(Last(t, v), Last(t, v)) && Head(Last(t, v)) == Byte(3) && Last(t, v).over == Some(2)
  }

  lemma CutsWrong(t: Client, v: byte)
    requires AtTurn(t)
    ensures CutWrong(t, v)
  {
    Shuts(t, v);
    Still(Polled(t, v));
    Still(Shut(t, v));
    Still(Last(t, v));
    hide Later;
  }

  lemma Shuts(t: Client, v: byte)
    requires AtTurn(t)
    ensures Later(Polled(t, v), Shut(t, v))
  {
    var p, m := Polled(t, v), Polled(t, v).(loaded := Some(v), buffer := None, sent := t.sent + [v]);
    assert Tick(p, Copy) == m && Tick(m, Rise) == Shut(t, v);
    RunTwo(p, Copy, Rise);
    LaterRun(p, [Copy, Rise], Shut(t, v));
  }

  // ---- without BUFWR ---------------------------------------------------------------------------

  /** The select high, nothing in the block, and a host that will clock so many. */
  function Idle(bufwr: bool, quota: nat): Client {
    Client(bufwr, quota, Waiting, false, None, None, None, 0, [], None, Byte(0), false, false, false,
           0, [], [], None, None)
  }

  function Loaded(quota: nat, a: byte): Client { Idle(false, quota).(buffer := Some(a)) }

  function Opened(quota: nat, a: byte): Client { Loaded(quota, a).(pad := Open) }

  function Event0(quota: nat, a: byte): Client {
    Opened(quota, a).(begun := 1, clocked := [Byte(0)], loaded := Some(a), buffer := None, sent := [a],
                      fifo := [Byte(0)], rxcif := true)
  }

  function Second(quota: nat, a: byte, b: byte): Client { Event0(quota, a).(buffer := Some(b)) }

  function Turn(quota: nat, a: byte, b: byte): Client {
    Second(quota, a, b).(begun := 2, clocked := [Byte(0), Byte(1)], loaded := Some(b), buffer := None,
                         sent := [a, b], fifo := [Byte(0), Byte(1)])
  }

  lemma Accesses(quota: nat, a: byte, b: byte)
    ensures AfterRead(Idle(false, quota)) == Idle(false, quota) && AfterWrite(Idle(false, quota), a) == Loaded(quota, a)
    ensures AfterWrite(Event0(quota, a), b) == Second(quota, a, b) && Ready(Idle(false, quota))
  {
  }

  /**
   A run that closes with transfer 3's byte where transfer 2's was due, for every host that
   clocks four or more - within the run's length of four or more, or past one of three:
   the flush, the flags, the preload and the select; event 0 and its write; the turn's
   flags, its read and its write; the polls, the select, the cut's load and the tail.
  */
  lemma GapAtTheCut(quota: nat, a: byte, b: byte, c: byte)
    requires quota >= 4
    ensures var h := Idle(false, quota);
      Ready(h) && Settle(h) == h == AfterRead(h) && h.buffer.None? && AfterWrite(h, a) == Loaded(quota, a)
    ensures Settle(Loaded(quota, a)) == Loaded(quota, a) && !Loaded(quota, a).txcif
    ensures Later(Loaded(quota, a), Opened(quota, a)) && Opened(quota, a).pad == Open
    ensures Later(Opened(quota, a), Event0(quota, a)) && FlagsOf(Event0(quota, a)) == Flags(true, false, false, true)
    ensures Later(Event0(quota, a), Event0(quota, a)) && AfterWrite(Event0(quota, a), b) == Second(quota, a, b)
    ensures Later(Second(quota, a, b), Turn(quota, a, b)) && FlagsOf(Turn(quota, a, b)) == Flags(true, false, false, true)
    ensures var t := Turn(quota, a, b);
      && Later(t, Held(t)) && Head(Held(t)) == Byte(0) && AfterRead(Held(t)) == Read(t) && Later(Read(t), Read(t))
      && CutWrong(t, c)
  {
    hide *;
    Prepared(quota, a);
    FirstEvent(quota, a, b);
    SecondEvent(quota, a, b);
    Interrupt(Turn(quota, a, b));
    CutsWrong(Turn(quota, a, b), c);
  }

  lemma Prepared(quota: nat, a: byte)
    ensures var h := Idle(false, quota);
      Ready(h) && Settle(h) == h == AfterRead(h) && h.buffer.None? && AfterWrite(h, a) == Loaded(quota, a)
    ensures Settle(Loaded(quota, a)) == Loaded(quota, a) && !Loaded(quota, a).txcif
    ensures Later(Loaded(quota, a), Opened(quota, a)) && Opened(quota, a).pad == Open
  {
    Accesses(quota, a, a);
    Opens(Loaded(quota, a), Opened(quota, a));
    Still(Idle(false, quota));
    Still(Loaded(quota, a));
    hide Later, AfterRead, AfterWrite, Settle, Ready;
  }

  lemma FirstEvent(quota: nat, a: byte, b: byte)
    requires quota >= 4
    ensures Later(Opened(quota, a), Event0(quota, a)) && FlagsOf(Event0(quota, a)) == Flags(true, false, false, true)
    ensures Later(Event0(quota, a), Event0(quota, a)) && AfterWrite(Event0(quota, a), b) == Second(quota, a, b)
  {
    Answered(Opened(quota, a), 10, Event0(quota, a));
    Still(Event0(quota, a));
    hide Later;
  }

  lemma SecondEvent(quota: nat, a: byte, b: byte)
    requires quota >= 4
    ensures Later(Second(quota, a, b), Turn(quota, a, b)) && FlagsOf(Turn(quota, a, b)) == Flags(true, false, false, true)
    ensures AtTurn(Turn(quota, a, b))
  {
    Answered(Second(quota, a, b), 11, Turn(quota, a, b));
    hide Later;
  }

  // ---- under BUFWR ---------------------------------------------------------------------------

  function FirstW(quota: nat, a: byte): Client { Idle(true, quota).(buffer := Some(a)) }

  function StraightW(quota: nat, a: byte): Client { Idle(true, quota).(loaded := Some(a), sent := [a]) }

  function LoadedW(quota: nat, a: byte, b: byte): Client { StraightW(quota, a).(buffer := Some(b)) }

  function OpenedW(quota: nat, a: byte, b: byte): Client { LoadedW(quota, a, b).(pad := Open) }

  function Event0W(quota: nat, a: byte, b: byte): Client {
    OpenedW(quota, a, b).(begun := 1, clocked := [Byte(0)], loaded := Some(b), buffer := None, sent := [a, b],
                          fifo := [Byte(0)], rxcif := true)
  }

  function ThirdW(quota: nat, a: byte, b: byte, c: byte): Client { Event0W(quota, a, b).(buffer := Some(c)) }

  function TurnW(quota: nat, a: byte, b: byte, c: byte): Client {
    ThirdW(quota, a, b, c).(begun := 2, clocked := [Byte(0), Byte(1)], loaded := Some(c), buffer := None,
                            sent := [a, b, c], fifo := [Byte(0), Byte(1)])
  }

  lemma AccessesW(quota: nat, a: byte, b: byte, c: byte)
    ensures AfterRead(Idle(true, quota)) == Idle(true, quota) && AfterWrite(Idle(true, quota), a) == FirstW(quota, a)
    ensures AfterWrite(StraightW(quota, a), b) == LoadedW(quota, a, b) && Settle(FirstW(quota, a)) == StraightW(quota, a)
    ensures AfterWrite(Event0W(quota, a, b), c) == ThirdW(quota, a, b, c) && Ready(Idle(true, quota))
  {
  }

  /** What the tail of a complete BUFWR run of three reads behind the interrupt. */
  ghost predicate PastWrong(t: Client) {
    && FlagsOf(Read(t)).txc && Head(Read(t)) == Byte(1)
    && AfterRead(Read(t)) == Read(t).(fifo := [Byte(3)], last := Byte(1))
    && (var l := Read(t).(fifo := [Byte(3)], last := Byte(1)); Later(l, l) && Head(l) == Byte(3) && l.over == Some(2))
  }

  lemma PastsWrong(t: Client)
    requires AtTurn(t)
    ensures PastWrong(t)
  {
    Still(Read(t).(fifo := [Byte(3)], last := Byte(1)));
    hide Later;
  }

  /**
   The same under BUFWR, up to the turn; from there a run of three, whose last DREIF this
   is, completes on TXCIF with transfer 3's byte for its last, and a longer one writes its
   fourth answer and is cut.
  */
  lemma GapUnderBufwr(quota: nat, a: byte, b: byte, c: byte, d: byte)
    requires quota >= 4
    ensures var h := Idle(true, quota);
      Ready(h) && Settle(h) == h == AfterRead(h) && h.buffer.None? && AfterWrite(h, a) == FirstW(quota, a)
    ensures Settle(FirstW(quota, a)) == StraightW(quota, a) == Settle(StraightW(quota, a))
      && FlagsOf(StraightW(quota, a)).dre
    ensures AfterWrite(StraightW(quota, a), b) == LoadedW(quota, a, b) == Settle(LoadedW(quota, a, b))
    ensures !LoadedW(quota, a, b).txcif && Later(LoadedW(quota, a, b), OpenedW(quota, a, b))
      && OpenedW(quota, a, b).pad == Open
    ensures Later(OpenedW(quota, a, b), Event0W(quota, a, b))
      && FlagsOf(Event0W(quota, a, b)) == Flags(true, false, false, true)
    ensures Later(Event0W(quota, a, b), Event0W(quota, a, b))
      && AfterWrite(Event0W(quota, a, b), c) == ThirdW(quota, a, b, c)
    ensures Later(ThirdW(quota, a, b, c), TurnW(quota, a, b, c))
      && FlagsOf(TurnW(quota, a, b, c)) == Flags(true, false, false, true)
    ensures var t := TurnW(quota, a, b, c);
      && Later(t, Held(t)) && Head(Held(t)) == Byte(0) && AfterRead(Held(t)) == Read(t) && Later(Read(t), Read(t))
      && PastWrong(t) && CutWrong(t, d)
  {
    hide *;
    PreparedW(quota, a, b);
    FirstEventW(quota, a, b, c);
    SecondEventW(quota, a, b, c);
    Interrupt(TurnW(quota, a, b, c));
    PastsWrong(TurnW(quota, a, b, c));
    CutsWrong(TurnW(quota, a, b, c), d);
  }

  lemma PreparedW(quota: nat, a: byte, b: byte)
    ensures var h := Idle(true, quota);
      Ready(h) && Settle(h) == h == AfterRead(h) && h.buffer.None? && AfterWrite(h, a) == FirstW(quota, a)
    ensures Settle(FirstW(quota, a)) == StraightW(quota, a) == Settle(StraightW(quota, a))
      && FlagsOf(StraightW(quota, a)).dre
    ensures AfterWrite(StraightW(quota, a), b) == LoadedW(quota, a, b) == Settle(LoadedW(quota, a, b))
    ensures !LoadedW(quota, a, b).txcif && Later(LoadedW(quota, a, b), OpenedW(quota, a, b))
      && OpenedW(quota, a, b).pad == Open
  {
    AccessesW(quota, a, b, b);
    Opens(LoadedW(quota, a, b), OpenedW(quota, a, b));
    Still(Idle(true, quota));
    Still(StraightW(quota, a));
    Still(LoadedW(quota, a, b));
    hide Later, AfterRead, AfterWrite, Settle, Ready;
  }

  lemma FirstEventW(quota: nat, a: byte, b: byte, c: byte)
    requires quota >= 4
    ensures Later(OpenedW(quota, a, b), Event0W(quota, a, b))
      && FlagsOf(Event0W(quota, a, b)) == Flags(true, false, false, true)
    ensures Later(Event0W(quota, a, b), Event0W(quota, a, b))
      && AfterWrite(Event0W(quota, a, b), c) == ThirdW(quota, a, b, c)
  {
    Answered(OpenedW(quota, a, b), 10, Event0W(quota, a, b));
    Still(Event0W(quota, a, b));
    hide Later;
  }

  lemma SecondEventW(quota: nat, a: byte, b: byte, c: byte)
    requires quota >= 4
    ensures Later(ThirdW(quota, a, b, c), TurnW(quota, a, b, c))
      && FlagsOf(TurnW(quota, a, b, c)) == Flags(true, false, false, true)
    ensures AtTurn(TurnW(quota, a, b, c))
  {
    Answered(ThirdW(quota, a, b, c), 11, TurnW(quota, a, b, c));
    hide Later;
  }
}

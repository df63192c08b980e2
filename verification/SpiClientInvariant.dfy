/**
 What every cycle of the client's silicon keeps while a run is served, and what
 a register access then proves: the counting argument of the buffer-mode runs.
*/
module SpiClientInvariant {
  import opened Basics
  import opened SpiClientSilicon

  /** The window as the run finds it: the select high, the transmitter empty (or,
      without BUFWR's straight path, full), the receiver in any state at all. */
  ghost predicate Ready(h: Client) {
    && h.pad == Waiting && !h.shifting && h.landing.None? && h.drying == 0
    && h.begun == 0 && h.clocked == [] && h.sent == [] && h.dryAt.None? && h.over.None?
    && (h.bufwr ==> (h.loaded.Some? <==> h.buffer.Some?))
    && |h.fifo| <= 2 && (h.held.Some? ==> |h.fifo| == 2)
  }

  /** The transfer an answer written straight into the shifter is ahead by. */
  function Ahead(h: Client): nat { if h.bufwr then 1 else 0 }

  ghost predicate Shape(h: Client) {
    && |h.fifo| <= 2
    && (h.held.Some? ==> |h.fifo| == 2 && h.landing.None? && !h.shifting)
    && (h.landing.Some? ==> !h.shifting)
    && h.drying <= 2
    && (h.drying > 0 ==> !h.shifting && h.loaded.None? && h.dryAt.Some?)
    && (h.drying > 0 && !h.txcif ==> h.dryAt == Some(|h.clocked| - 1))
    && |h.clocked| <= h.begun <= h.quota
    && (h.shifting ==> |h.clocked| < h.begun)
    && (h.dryAt.Some? ==> h.dryAt.value < |h.clocked| && (h.txcif || h.drying > 0))
    && (h.dryAt.None? ==> !h.txcif && h.drying == 0)
    && (h.pad == Waiting ==> h.clocked == [] && h.begun == 0 && h.landing.None? && !h.rxcif)
    && (h.pad == Waiting && h.bufwr ==> h.loaded.Some?)
    && (h.bufovf ==> h.over.Some?)
  }

  /** The answers written have gone into the shifter in order, but for the one in
      the buffer; and the transfers ended are as many as the answers moved, until
      one ended dry - never fewer. */
  ghost predicate Answers(h: Client, written: seq<byte>) {
    && written == h.sent + Opt(h.buffer)
    && (h.dryAt.None? ==> |h.sent| == |h.clocked| + Ahead(h))
    && (h.dryAt.Some? ==> |h.sent| + (if h.loaded.None? then 1 else 0) <= |h.clocked| + Ahead(h))
    && (h.dryAt.Some? ==> |h.sent| >= h.dryAt.value + Ahead(h))
  }

  /** The FIFO's first `n` bytes are the transfers' `from`, `from + 1`, ... */
  ghost predicate Fronted(h: Client, from: nat, n: nat) {
    n <= |h.fifo| && from + n <= |h.clocked| && h.fifo[..n] == h.clocked[from..from + n]
  }

  /** What the receiver holds, oldest first. */
  function Inbox(h: Client): seq<Arrival> {
    h.fifo + Opt(h.held) + Opt(h.landing)
  }

  /** With `read` bytes read: nothing lost and the receiver holds exactly what came
      after them; or a byte lost, TXCIF up to say so, and the FIFO's first `sure`
      bytes still the next ones. */
  ghost predicate Stream(h: Client, read: nat, sure: nat) {
    && sure <= 2 && read <= |h.clocked|
    && (h.over.None? ==> h.clocked[read..] == Inbox(h))
    && (h.over.Some? ==> h.txcif && Fronted(h, read, sure) && h.begun >= read + 2 + sure)
  }

  /** What became of the byte first overwritten: never one of the `read` read; before
      its place the receiver holds the transfers' bytes one by one, and from its place
      on later ones. */
  ghost predicate Passed(h: Client, read: nat) {
    && (forall i :: 0 <= i < |h.clocked| ==> h.clocked[i].transfer == i)
    && (h.over.Some? ==>
          && read <= h.over.value <= read + 2 && 2 <= h.over.value < |h.clocked| && h.begun >= h.over.value + 2
          && |h.fifo| + read >= h.over.value
          && forall k :: 0 <= k < |Inbox(h)| ==> InPlace(h, Inbox(h)[k], read + k, h.over.value))
  }

  /** The byte where transfer `i`'s is due: its own before `over`, a later one behind. */
  ghost predicate InPlace(h: Client, a: Arrival, i: nat, over: nat) {
    && a.transfer < |h.clocked| && a == h.clocked[a.transfer]
    && (if i < over then a.transfer == i else a.transfer > over)
  }

  /** No byte before the `n`th transfer's was overwritten. */
  predicate Whole(h: Client, n: nat) {
    h.over.Some? ==> h.over.value >= n
  }

  ghost predicate Inv(h: Client, written: seq<byte>, read: nat, sure: nat) {
    && Shape(h) && Answers(h, written) && Stream(h, read, sure) && Passed(h, read)
    && |written| <= read + 2 + Ahead(h)
  }

  /** No transfer before `f` ended dry - nor ever will. */
  ghost predicate NotDryBefore(h: Client, f: nat) {
    if h.dryAt.None? then |h.clocked| >= f else h.dryAt.value >= f
  }

  lemma SettleKeepsShape(h: Client, written: seq<byte>)
    requires Shape(h) && Answers(h, written)
    ensures var s := Settle(h); Shape(s) && Answers(s, written) && s.landing.None? && Ahead(s) == Ahead(h)
  {
  }

  /** Bytes only move along: the same inbox, the same bytes at its front. */
  ghost predicate Shifted(h: Client, s: Client) {
    && Inbox(s) == Inbox(h) && h.fifo <= s.fifo
    && s.clocked == h.clocked && s.over == h.over && s.begun == h.begun && (h.txcif ==> s.txcif)
  }

  lemma SettleShifts(h: Client)
    requires Shape(h)
    ensures Shifted(h, Settle(h))
  {
  }

  lemma ShiftedKeepsStream(h: Client, s: Client, read: nat, sure: nat)
    requires Stream(h, read, sure) && Shifted(h, s)
    ensures Stream(s, read, sure)
  {
    if h.over.Some? {
      assert s.fifo[..sure] == h.fifo[..sure];
    }
  }

  lemma SettleKeepsStream(h: Client, read: nat, sure: nat)
    requires Shape(h) && Stream(h, read, sure)
    ensures Stream(Settle(h), read, sure)
  {
    SettleShifts(h);
    ShiftedKeepsStream(h, Settle(h), read, sure);
  }

  lemma SettleKeepsPassed(h: Client, read: nat)
    requires Shape(h) && Passed(h, read)
    ensures Passed(Settle(h), read)
  {
    SettleShifts(h);
    hide Settle, Shape;
  }

  /** What a transfer's end leaves as it was, and what it brings. */
  lemma EndFields(h: Client, b: byte)
    requires Shape(h) && Possible(h, End(b))
    ensures var d, a := Do(h, End(b)), Arrival(b, |h.clocked|);
      && d.clocked == h.clocked + [a] && d.over == h.over && d.begun == h.begun && d.txcif == h.txcif
      && d.fifo == h.fifo && d.held == h.held && d.landing == Some(a) && Inbox(d) == Inbox(h) + [a]
  {
    var d, a := Do(h, End(b)), Arrival(b, |h.clocked|);
    assert d.fifo == h.fifo && d.held == h.held && d.landing == Some(a) && h.landing.None?;
    hide Do, Shape, Possible;
  }

  lemma EndKeepsPassed(h: Client, b: byte, read: nat)
    requires Shape(h) && Passed(h, read) && Possible(h, End(b))
    ensures Passed(Do(h, End(b)), read)
  {
    var d, a := Do(h, End(b)), Arrival(b, |h.clocked|);
    EndFields(h, b);
    hide Do, Shape, Inbox, Possible;
    if d.over.Some? {
      forall k | 0 <= k < |Inbox(d)| ensures InPlace(d, Inbox(d)[k], read + k, d.over.value) {
        if k < |Inbox(h)| {
          assert InPlace(h, Inbox(h)[k], read + k, h.over.value);
        }
      }
    }
  }

  lemma BeginKeepsPassed(h: Client, flagged: bool, read: nat, sure: nat)
    requires Shape(h) && Stream(h, read, sure) && Passed(h, read) && Possible(h, Begin(flagged))
    ensures Passed(Do(h, Begin(flagged)), read)
  {
    var d := Do(h, Begin(flagged));
    assert d.clocked == h.clocked && d.begun == h.begun + 1 && d.fifo == h.fifo && d.landing.None?;
    if h.held.None? {
      assert Inbox(d) == Inbox(h) && d.over == h.over;
      hide Do, Shape, Inbox, Stream;
    } else {
      assert Inbox(h) == h.fifo + [h.held.value] && Inbox(d) == h.fifo && |h.fifo| == 2;
      assert d.over == if h.over.None? then Some(h.held.value.transfer) else h.over;
      if h.over.None? {
        assert h.clocked[read..] == Inbox(h) && |h.clocked| <= h.begun;
        hide Do, Shape, Inbox, Stream;
        FirstOver(h, d, read);
      } else {
        hide Do, Shape, Inbox, Stream;
        assert forall k :: 0 <= k < 2 ==> h.fifo[k] == Inbox(h)[k];
      }
    }
  }

  /** The first byte overwritten is the third behind those read. */
  lemma FirstOver(h: Client, d: Client, read: nat)
    requires Passed(h, read) && h.held.Some? && |h.fifo| == 2 && read <= |h.clocked| <= h.begun
    requires h.clocked[read..] == h.fifo + [h.held.value]
    requires d.clocked == h.clocked && d.begun == h.begun + 1 && d.fifo == h.fifo && Inbox(d) == h.fifo
    requires d.over == Some(h.held.value.transfer)
    ensures Passed(d, read)
  {
    hide Inbox;
    assert h.held.value == h.clocked[read..][2] == h.clocked[read + 2];
    forall k | 0 <= k < 2 ensures InPlace(d, h.fifo[k], read + k, read + 2) {
      assert h.fifo[k] == h.clocked[read..][k] == h.clocked[read + k];
    }
  }

  lemma DoKeepsPassed(h: Client, a: Act, read: nat, sure: nat)
    requires Shape(h) && Stream(h, read, sure) && Passed(h, read) && Possible(h, a)
    ensures Passed(Do(h, a), read)
  {
    match a
    case End(b) => EndKeepsPassed(h, b, read);
    case Begin(flagged) => BeginKeepsPassed(h, flagged, read, sure);
    case _ =>
      OtherFields(h, a);
      hide Do, Shape, Stream, Inbox, Possible;
  }

  lemma OtherFields(h: Client, a: Act)
    requires Possible(h, a) && !a.End? && !a.Begin?
    ensures var d := Do(h, a);
      d.clocked == h.clocked && d.over == h.over && d.begun == h.begun && d.fifo == h.fifo && Inbox(d) == Inbox(h)
  {
  }

  lemma DoKeepsShape(h: Client, a: Act, written: seq<byte>)
    requires Shape(h) && Answers(h, written) && Possible(h, a)
    ensures Shape(Do(h, a)) && Answers(Do(h, a), written) && Ahead(Do(h, a)) == Ahead(h)
  {
    if a.End? {
      EndKeepsShape(h, a.value, written);
    }
  }

  lemma EndKeepsShape(h: Client, b: byte, written: seq<byte>)
    requires Shape(h) && Answers(h, written) && Possible(h, End(b))
    ensures Shape(Do(h, End(b))) && Answers(Do(h, End(b)), written) && Ahead(Do(h, End(b))) == Ahead(h)
  {
  }

  /** The third unread byte is overwritten: the transfers ended are one more than
      the answers account for, so one ended dry, and TXCIF is up. */
  lemma LossIsFlagged(h: Client, flagged: bool, written: seq<byte>, read: nat, sure: nat)
    requires Inv(h, written, read, sure) && h.over.None? && h.held.Some? && Possible(h, Begin(flagged))
    ensures Stream(Do(h, Begin(flagged)), read, sure)
  {
    assert |h.clocked[read..]| == |Inbox(h)| == 3;
    assert h.dryAt.Some?;
    var d := Do(h, Begin(flagged));
    assert d.fifo == Inbox(h)[..2] == h.clocked[read..][..2] == h.clocked[read..read + 2];
    assert d.fifo[..sure] == h.clocked[read..read + sure];
  }

  lemma EndKeepsStream(h: Client, b: byte, read: nat, sure: nat)
    requires Shape(h) && Stream(h, read, sure) && Possible(h, End(b))
    ensures Stream(Do(h, End(b)), read, sure)
  {
    var d := Do(h, End(b));
    var a := Arrival(b, |h.clocked|);
    EndFields(h, b);
    hide Do, Shape, Inbox;
    if h.over.Some? {
      assert d.clocked[read..read + sure] == h.clocked[read..read + sure];
    } else {
      assert d.clocked[read..] == h.clocked[read..] + [a];
    }
  }

  lemma DoKeepsStream(h: Client, a: Act, written: seq<byte>, read: nat, sure: nat)
    requires Inv(h, written, read, sure) && Possible(h, a)
    ensures Stream(Do(h, a), read, sure)
  {
    match a
    case End(b) => EndKeepsStream(h, b, read, sure);
    case Begin(flagged) =>
      if h.over.None? && h.held.Some? {
        LossIsFlagged(h, flagged, written, read, sure);
      }
    case _ =>
  }

  lemma TickKeeps(h: Client, a: Act, written: seq<byte>, read: nat, sure: nat)
    requires Inv(h, written, read, sure)
    ensures Inv(Tick(h, a), written, read, sure)
  {
    hide Settle, Shape, Answers, Stream, Passed, Do;
    var s := Settle(h);
    SettleKeepsShape(h, written);
    SettleKeepsStream(h, read, sure);
    SettleKeepsPassed(h, read);
    if Possible(s, a) {
      DoKeepsShape(s, a, written);
      DoKeepsStream(s, a, written, read, sure);
      DoKeepsPassed(s, a, read, sure);
    }
  }

  // ---- any number of cycles ----------------------------------------------------

  /** `later` is what some run of two cycles or more makes of `h`. */
  ghost predicate Later(h: Client, later: Client) {
    exists acts: seq<Act> :: |acts| >= 2 && later == Run(h, acts)
  }

  lemma {:induction false} RunSnoc(h: Client, acts: seq<Act>, a: Act)
    ensures Run(h, acts + [a]) == Tick(Run(h, acts), a)
    decreases |acts|
  {
    if acts == [] {
      assert Run(Tick(h, a), []) == Tick(h, a);
      assert ([a])[1..] == [];
    } else {
      assert (acts + [a])[1..] == acts[1..] + [a];
      RunSnoc(Tick(h, acts[0]), acts[1..], a);
    }
  }

  /** What only grows, and what never moves. */
  ghost predicate Onward(h: Client, t: Client) {
    && t.bufwr == h.bufwr && t.quota == h.quota
    && h.clocked <= t.clocked
    && (h.dryAt.Some? ==> t.dryAt == h.dryAt)
    && (h.dryAt.None? && t.dryAt.Some? ==> t.dryAt.value >= |h.clocked|)
    && (h.buffer.None? ==> t.buffer.None?)
    && (h.txcif ==> t.txcif) && (h.over.Some? ==> t.over == h.over)
    && (h.pad == Closed ==> t.pad == Closed && t.clocked == h.clocked && t.over == h.over)
    && (h.pad != Waiting ==> t.pad != Waiting)
  }

  lemma SettleOnward(h: Client)
    ensures var s := Settle(h); Onward(h, s) && s.clocked == h.clocked
  {
    var l := Land(ShowDry(h));
    LandOnward(h);
    StraightOnward(l);
    hide Land, ShowDry, Straight;
    OnwardTrans(h, l, Straight(l));
  }

  lemma LandOnward(h: Client)
    ensures var l := Land(ShowDry(h)); Onward(h, l) && l.clocked == h.clocked
  {
    var s := ShowDry(h);
    assert s == h.(txcif := s.txcif, drying := s.drying) && (h.txcif ==> s.txcif);
    hide ShowDry;
  }

  lemma StraightOnward(l: Client)
    ensures Onward(l, Straight(l)) && Straight(l).clocked == l.clocked
  {
  }

  lemma DoOnward(h: Client, a: Act)
    requires Possible(h, a)
    ensures Onward(h, Do(h, a)) && Do(h, a).fifo == h.fifo
  {
    match a
    case End(b) => EndOnward(h, b);
    case Begin(f) => BeginOnward(h, f);
    case _ =>
  }

  lemma EndOnward(h: Client, b: byte)
    requires Possible(h, End(b))
    ensures Onward(h, Do(h, End(b))) && Do(h, End(b)).fifo == h.fifo
  {
  }

  lemma BeginOnward(h: Client, flagged: bool)
    requires Possible(h, Begin(flagged))
    ensures Onward(h, Do(h, Begin(flagged))) && Do(h, Begin(flagged)).fifo == h.fifo
  {
  }

  lemma OnwardTrans(h: Client, m: Client, t: Client)
    requires Onward(h, m) && Onward(m, t)
    ensures Onward(h, t)
  {
  }

  lemma TickOnward(h: Client, a: Act)
    ensures Onward(h, Tick(h, a))
  {
    SettleOnward(h);
    if Possible(Settle(h), a) {
      DoOnward(Settle(h), a);
    }
  }

  /** A byte whose transfer has ended is in the FIFO a cycle later, as far as there
      is room for it. */
  lemma SettleLands(h: Client, read: nat, sure: nat, n: nat)
    requires Shape(h) && Stream(h, read, sure) && n <= 2 && |h.clocked| >= read + n
    ensures var s := Settle(h); s.over.None? ==> |s.fifo| >= n
  {
    SettleShifts(h);
    if h.over.None? {
      assert |h.clocked[read..]| == |Inbox(h)|;
    }
  }

  lemma TickLands(h: Client, a: Act, written: seq<byte>, read: nat, sure: nat, n: nat)
    requires Inv(h, written, read, sure) && n <= 2 && |h.clocked| >= read + n
    ensures var t := Tick(h, a); t.over.None? ==> |t.fifo| >= n
  {
    SettleLands(h, read, sure, n);
    if Possible(Settle(h), a) {
      DoOnward(Settle(h), a);
    }
  }

  lemma {:induction false} RunKeeps(h: Client, acts: seq<Act>, written: seq<byte>, read: nat, sure: nat, n: nat)
    requires Inv(h, written, read, sure) && n <= 2 && |h.clocked| >= read + n
    ensures var t := Run(h, acts);
      && Inv(t, written, read, sure) && Onward(h, t)
      && (acts != [] && t.over.None? ==> |t.fifo| >= n)
    decreases |acts|
  {
    if acts != [] {
      var t := Tick(h, acts[0]);
      TickKeeps(h, acts[0], written, read, sure);
      TickOnward(h, acts[0]);
      TickLands(h, acts[0], written, read, sure, n);
      RunKeeps(t, acts[1..], written, read, sure, n);
      OnwardTrans(h, t, Run(t, acts[1..]));
      if acts[1..] == [] {
        assert Run(h, acts) == t;
      }
    }
  }

  lemma LaterKeeps(h: Client, t: Client, written: seq<byte>, read: nat, sure: nat, n: nat)
    requires Inv(h, written, read, sure) && Later(h, t) && n <= 2 && |h.clocked| >= read + n
    ensures Inv(t, written, read, sure) && Onward(h, t) && (t.over.None? ==> |t.fifo| >= n)
  {
    var acts: seq<Act> :| |acts| >= 2 && t == Run(h, acts);
    RunKeeps(h, acts, written, read, sure, n);
  }

  // ---- what an access proves, and what it changes ---------------------------------

  /** DREIF up and TXCIF down: every answer written has moved, each on a transfer's
      end of its own, and no byte is lost. */
  lemma OnDre(h: Client, written: seq<byte>, read: nat, sure: nat)
    requires Inv(h, written, read, sure) && h.buffer.None? && !h.txcif
    requires |written| >= Ahead(h)
    ensures h.over.None? && |h.clocked| >= |written| - Ahead(h)
    ensures NotDryBefore(h, |written| - Ahead(h))
  {
  }

  /** The FIFO's head is the next byte of the stream. */
  lemma HeadIsNext(h: Client, read: nat, sure: nat)
    requires Stream(h, read, sure) && h.fifo != [] && (h.over.Some? ==> sure >= 1)
    ensures read < |h.clocked| && Head(h) == h.clocked[read]
  {
    if h.over.Some? {
      assert h.fifo[0] == h.fifo[..sure][0] == h.clocked[read..read + sure][0];
    } else {
      assert h.fifo[0] == Inbox(h)[0] == h.clocked[read..][0];
    }
  }

  /** A read that leaves a byte behind, or meets no arrival, is taken. */
  lemma ReadKeepsStream(h: Client, read: nat, sure: nat, next: nat)
    requires Shape(h) && Stream(h, read, sure) && h.fifo != []
    requires !(|h.fifo| == 1 && h.landing.Some?)
    requires next <= 2 && (h.over.Some? ==> next < sure)
    ensures Stream(AfterRead(h), read + 1, next)
  {
    var r := AfterRead(h);
    assert r.clocked == h.clocked && r.over == h.over && r.begun == h.begun && r.txcif == h.txcif;
    assert r.fifo == h.fifo[1..] + Opt(h.held) && r.held.None? && r.landing == h.landing;
    if h.over.Some? {
      assert h.fifo[..sure][1..][..next] == h.clocked[read..read + sure][1..][..next];
      assert r.fifo[..next] == h.fifo[..sure][1..][..next];
      assert r.clocked[read + 1..read + 1 + next] == h.clocked[read..read + sure][1..][..next];
    } else {
      assert Inbox(r) == Inbox(h)[1..];
      assert h.clocked[read..][1..] == h.clocked[read + 1..];
    }
  }

  lemma ReadKeepsPassed(h: Client, read: nat, sure: nat)
    requires Shape(h) && Stream(h, read, sure) && Passed(h, read) && h.fifo != []
    requires !(|h.fifo| == 1 && h.landing.Some?) && (h.over.Some? ==> sure >= 1)
    ensures Passed(AfterRead(h), read + 1) && Whole(h, read + 1)
  {
    var r := AfterRead(h);
    HeadIsNext(h, read, sure);
    assert Head(h) == Inbox(h)[0];
    assert r.clocked == h.clocked && r.over == h.over && r.begun == h.begun;
    assert r.fifo == h.fifo[1..] + Opt(h.held) && r.held.None? && r.landing == h.landing;
    assert Inbox(r) == Inbox(h)[1..];
    hide AfterRead, Shape, Inbox, Stream, Head;
    if h.over.Some? {
      assert InPlace(h, Inbox(h)[0], read + 0, h.over.value);
      forall k | 0 <= k < |Inbox(r)| ensures InPlace(r, Inbox(r)[k], read + 1 + k, h.over.value) {
        assert InPlace(h, Inbox(h)[k + 1], read + (k + 1), h.over.value);
      }
    }
  }

  lemma ReadNext(h: Client, written: seq<byte>, read: nat, sure: nat, next: nat)
    requires Inv(h, written, read, sure) && h.fifo != []
    requires !(|h.fifo| == 1 && h.landing.Some?)
    requires next <= 2 && (h.over.Some? ==> next < sure)
    ensures read < |h.clocked| && Head(h) == h.clocked[read]
    ensures Inv(AfterRead(h), written, read + 1, next)
  {
    HeadIsNext(h, read, sure);
    ReadKeepsStream(h, read, sure, next);
    ReadKeepsPassed(h, read, sure);
    hide Passed, Stream;
  }

  lemma WriteNext(h: Client, v: byte, written: seq<byte>, read: nat, sure: nat)
    requires Inv(h, written, read, sure) && h.buffer.None? && |written| < read + 2 + Ahead(h)
    ensures Inv(AfterWrite(h, v), written + [v], read, sure)
  {
    var w := AfterWrite(h, v);
    assert w == h.(buffer := Some(v));
    assert Inbox(w) == Inbox(h);
    WriteKeepsAnswers(h, v, written);
    hide AfterWrite, Answers, Inbox, InPlace;
  }

  lemma WriteKeepsAnswers(h: Client, v: byte, written: seq<byte>)
    requires Answers(h, written) && h.buffer.None?
    ensures Answers(AfterWrite(h, v), written + [v])
  {
  }

  /** Fewer bytes vouched for is the weaker statement; and while nothing is lost the
      number is free. */
  lemma Resure(h: Client, written: seq<byte>, read: nat, sure: nat, next: nat)
    requires Inv(h, written, read, sure) && next <= 2 && (h.over.Some? ==> next <= sure)
    ensures Inv(h, written, read, next)
  {
    hide Shape, Answers, Passed, Inbox;
    if h.over.Some? {
      assert h.fifo[..next] == h.fifo[..sure][..next] == h.clocked[read..read + sure][..next];
      assert h.clocked[read..read + sure][..next] == h.clocked[read..read + next];
    }
  }

  /** Where a run stands between two waits: `read` bytes read and known good, the
      transfers up to `seen` ended, and none of those dry. */
  ghost predicate Standing(h: Client, line: seq<byte>, w: nat, read: nat, sure: nat, seen: nat) {
    && w <= |line| && Inv(h, line[..w], read, sure) && h.pad != Waiting
    && |h.clocked| >= seen && NotDryBefore(h, seen)
  }

  lemma StandingOn(h: Client, t: Client, line: seq<byte>, w: nat, read: nat, sure: nat, seen: nat)
    requires Standing(h, line, w, read, sure, seen) && Onward(h, t) && Inv(t, line[..w], read, sure)
    ensures Standing(t, line, w, read, sure, seen)
  {
  }

  /** A wait's DREIF without the late flags: the count has moved on by one. */
  lemma StandingCounts(h: Client, line: seq<byte>, w: nat, read: nat, sure: nat, seen: nat)
    requires Standing(h, line, w, read, sure, seen) && h.buffer.None? && !h.txcif && w >= Ahead(h)
    ensures Standing(h, line, w, read, 2, w - Ahead(h)) && h.over.None?
  {
    OnDre(h, line[..w], read, sure);
    Resure(h, line[..w], read, sure, 2);
  }

  /** The read of a turn: two bytes unread, so one stays. */
  lemma StandingReads(h: Client, at: Client, line: seq<byte>, w: nat, read: nat)
    requires Standing(h, line, w, read, 2, read + 2) && Later(h, at)
    ensures Onward(h, at) && |at.fifo| == 2
    ensures read < |at.clocked| && Head(at) == at.clocked[read] && AfterRead(at).clocked == at.clocked
    ensures Onward(at, AfterRead(at)) && Standing(AfterRead(at), line, w, read + 1, 1, read + 2)
  {
    LaterKeeps(h, at, line[..w], read, 2, 2);
    ReadNext(at, line[..w], read, 2, 1);
  }

  lemma StandingWrites(h: Client, at: Client, v: byte, line: seq<byte>, w: nat, read: nat, seen: nat)
    requires Standing(h, line, w, read, 1, seen) && h.buffer.None? && Later(h, at)
    requires w < |line| && v == line[w] && w < read + 2 + Ahead(h)
    ensures Onward(h, at) && AfterWrite(at, v).clocked == at.clocked
    ensures AfterWrite(at, v).bufwr == h.bufwr && AfterWrite(at, v).quota == h.quota
    ensures Standing(AfterWrite(at, v), line, w + 1, read, 1, seen)
  {
    hide *;
    StandingIs(h, line, w, read, 1, seen);
    LaterKeeps(h, at, line[..w], read, 1, 0);
    StandingOn(h, at, line, w, read, 1, seen);
    BufferStill(h, at);
    WriteNext(at, v, line[..w], read, 1);
    assert line[..w + 1] == line[..w] + [v];
    WriteStands(at, v, line, w, read, 1, seen);
  }

  lemma StandingIs(h: Client, line: seq<byte>, w: nat, read: nat, sure: nat, seen: nat)
    requires Standing(h, line, w, read, sure, seen)
    ensures w <= |line| && Inv(h, line[..w], read, sure) && read <= |h.clocked|
  {
    hide Shape, Answers, Passed;
  }

  lemma BufferStill(h: Client, t: Client)
    requires Onward(h, t) && h.buffer.None?
    ensures t.buffer.None? && t.bufwr == h.bufwr && t.quota == h.quota && Ahead(t) == Ahead(h)
  {
  }

  lemma WriteStands(h: Client, v: byte, line: seq<byte>, w: nat, read: nat, sure: nat, seen: nat)
    requires Standing(h, line, w, read, sure, seen) && h.buffer.None? && w < |line|
    requires Inv(AfterWrite(h, v), line[..w + 1], read, sure)
    ensures Standing(AfterWrite(h, v), line, w + 1, read, sure, seen)
    ensures AfterWrite(h, v).clocked == h.clocked && AfterWrite(h, v).bufwr == h.bufwr && AfterWrite(h, v).quota == h.quota
  {
    hide Inv;
  }

  /** The answers written, wherever each of them is. */
  function Written(h: Client): seq<byte> {
    h.sent + Opt(h.buffer)
  }

  lemma SettleWritten(h: Client)
    ensures Written(Settle(h)) == Written(h)
  {
    var l := Land(ShowDry(h));
    assert l.sent == h.sent && l.buffer == h.buffer;
    assert Written(Straight(l)) == Written(l);
  }

  lemma DoWritten(h: Client, a: Act)
    requires Possible(h, a)
    ensures Written(Do(h, a)) == Written(h)
  {
  }

  lemma TickWritten(h: Client, a: Act)
    ensures Written(Tick(h, a)) == Written(h)
  {
    SettleWritten(h);
    if Possible(Settle(h), a) {
      DoWritten(Settle(h), a);
    }
  }

  lemma {:induction false} RunOnward(h: Client, acts: seq<Act>)
    ensures Onward(h, Run(h, acts)) && Written(Run(h, acts)) == Written(h)
    decreases |acts|
  {
    if acts != [] {
      var t := Tick(h, acts[0]);
      TickOnward(h, acts[0]);
      TickWritten(h, acts[0]);
      RunOnward(t, acts[1..]);
      OnwardTrans(h, t, Run(t, acts[1..]));
    }
  }

  lemma ReadOnward(h: Client)
    ensures var r := AfterRead(h);
      Onward(h, r) && Written(r) == Written(h) && r.clocked == h.clocked && r.over == h.over
  {
    if h.fifo == [] {
    } else if |h.fifo| == 1 && h.landing.Some? {
    } else {
    }
  }

  lemma LaterOnward(h: Client, t: Client)
    requires Later(h, t)
    ensures Onward(h, t) && Written(t) == Written(h)
  {
    var acts: seq<Act> :| |acts| >= 2 && t == Run(h, acts);
    RunOnward(h, acts);
  }

  /** What a byte stored for transfer `read` is: that transfer's own, exactly when
      nothing before the next one's was overwritten - which takes a third byte and another
      transfer. */
  ghost predicate Right(h: Client, a: Arrival, read: nat) {
    && read < |h.clocked| && (a == h.clocked[read] <==> Whole(h, read + 1))
    && (Whole(h, read + 1) || 2 <= read <= h.quota - 2)
  }

  lemma HeadRight(h: Client, read: nat, sure: nat)
    requires Shape(h) && Stream(h, read, sure) && Passed(h, read) && h.fifo != [] && read < |h.clocked|
    ensures Right(h, Head(h), read) && (h.over.None? || sure >= 1 ==> Whole(h, read + 1))
  {
    assert Head(h) == Inbox(h)[0];
    if h.over.None? || sure >= 1 {
      HeadIsNext(h, read, sure);
    }
    hide Inbox, Head, Stream, Shape;
    if h.over.Some? {
      assert InPlace(h, Inbox(h)[0], read + 0, h.over.value);
    }
  }

  /** Transfer `i`'s byte was overwritten, and is nothing a read can return. */
  ghost predicate Never(h: Client, i: nat) {
    && h.over == Some(i) && 2 <= i < |h.clocked| && i + 2 <= h.quota && h.last.transfer != i
    && (forall k :: 0 <= k < |h.fifo| ==> h.fifo[k].transfer != i)
    && (h.held.Some? ==> h.held.value.transfer != i) && (h.landing.Some? ==> h.landing.value.transfer != i)
  }

  lemma SettleKeepsNever(h: Client, i: nat)
    requires Never(h, i)
    ensures Never(Settle(h), i)
  {
    LandKeepsNever(h, i);
    hide Land, ShowDry, Never;
    StraightKeepsNever(Land(ShowDry(h)), i);
  }

  lemma LandKeepsNever(h: Client, i: nat)
    requires Never(h, i)
    ensures Never(Land(ShowDry(h)), i)
  {
    var s := ShowDry(h);
    assert s == h.(txcif := s.txcif, drying := s.drying);
    hide ShowDry;
    match s.landing
    case None =>
    case Some(b) =>
      var l := Land(s);
      assert if |s.fifo| < 2 then l.fifo == s.fifo + [b] && l.held == s.held else l.fifo == s.fifo && l.held == Some(b);
      assert l.landing.None? && l.over == s.over && l.clocked == s.clocked && l.last == s.last;
      hide Land;
  }

  lemma StraightKeepsNever(h: Client, i: nat)
    requires Never(h, i)
    ensures Never(Straight(h), i)
  {
  }

  lemma DoKeepsNever(h: Client, a: Act, i: nat)
    requires Never(h, i) && Possible(h, a)
    ensures Never(Do(h, a), i)
  {
  }

  lemma TickKeepsNever(h: Client, a: Act, i: nat)
    requires Never(h, i)
    ensures Never(Tick(h, a), i)
  {
    SettleKeepsNever(h, i);
    if Possible(Settle(h), a) {
      DoKeepsNever(Settle(h), a, i);
    }
    hide Never, Settle, Do;
  }

  lemma {:induction false} RunKeepsNever(h: Client, acts: seq<Act>, i: nat)
    requires Never(h, i)
    ensures Never(Run(h, acts), i)
    decreases |acts|
  {
    if acts != [] {
      TickKeepsNever(h, acts[0], i);
      RunKeepsNever(Tick(h, acts[0]), acts[1..], i);
    }
  }

  lemma NeverRight(h: Client, i: nat)
    requires Never(h, i) && h.clocked[i].transfer == i
    ensures Right(h, Head(h), i)
  {
  }

  /** With one byte of the tail still to come: it is the receiver's next, or it is gone. */
  ghost predicate Second(h: Client, written: seq<byte>, read: nat) {
    if h.over == Some(read) then Never(h, read) && h.clocked[read].transfer == read
    else Inv(h, written, read, if h.over.None? then 1 else 0)
  }

  /** The tail's first read of two. */
  lemma FirstOfTwo(h: Client, at: Client, written: seq<byte>, read: nat, sure: nat)
    requires Inv(h, written, read, sure) && Later(h, at) && 1 <= sure && |h.clocked| >= read + 2
    ensures Right(at, Head(at), read) && Whole(at, read + 1)
    ensures Second(AfterRead(at), written, read + 1) && (sure == 2 ==> at.over != Some(read + 1))
  {
    LaterKeeps(h, at, written, read, sure, 2);
    FirstFifo(at, read, sure);
    HeadRight(at, read, sure);
    hide AfterRead, Stream, Passed, Shape, Answers, Head, Right, Never;
    if at.over == Some(read + 1) {
      FirstThenNever(at, read, sure);
    } else {
      ReadNext(at, written, read, sure, if at.over.None? then 1 else 0);
    }
  }

  /** A read with two bytes due finds one, and leaves one unless the second is gone. */
  lemma FirstFifo(at: Client, read: nat, sure: nat)
    requires Stream(at, read, sure) && Passed(at, read) && 1 <= sure && (at.over.None? ==> |at.fifo| >= 2)
    ensures at.fifo != [] && read < |at.clocked| && (at.over != Some(read + 1) ==> |at.fifo| >= 2)
    ensures at.over.None? || at.over.value > read
  {
    if at.over.Some? {
      assert at.fifo[0] == at.fifo[..sure][0] == at.clocked[read..read + sure][0];
      assert Inbox(at)[0] == at.fifo[0] && InPlace(at, Inbox(at)[0], read + 0, at.over.value);
    }
  }

  lemma FrontedSecond(h: Client, read: nat)
    requires Fronted(h, read, 2) && Passed(h, read)
    ensures h.over != Some(read + 1)
  {
    assert h.fifo[..2][1] == h.clocked[read..read + 2][1];
    assert Inbox(h)[1] == h.fifo[1] == h.clocked[read + 1];
    hide Inbox;
    if h.over.Some? {
      assert InPlace(h, Inbox(h)[1], read + 1, h.over.value);
    }
  }

  lemma FirstThenNever(at: Client, read: nat, sure: nat)
    requires Shape(at) && Stream(at, read, sure) && Passed(at, read) && at.fifo != []
    requires at.over == Some(read + 1) && 1 <= sure
    ensures Never(AfterRead(at), read + 1) && at.clocked[read + 1].transfer == read + 1 && sure != 2
  {
    forall k | 0 <= k < |Inbox(at)| ensures Inbox(at)[k].transfer != read + 1 {
      assert InPlace(at, Inbox(at)[k], read + k, read + 1);
    }
    InboxNever(at, read + 1);
    if sure == 2 {
      FrontedSecond(at, read);
    }
    hide Inbox, Passed;
  }

  lemma InboxNever(h: Client, i: nat)
    requires forall k :: 0 <= k < |Inbox(h)| ==> Inbox(h)[k].transfer != i
    ensures forall k :: 0 <= k < |h.fifo| ==> h.fifo[k].transfer != i
    ensures (h.held.Some? ==> h.held.value.transfer != i) && (h.landing.Some? ==> h.landing.value.transfer != i)
  {
    var n := |h.fifo|;
    assert forall k :: 0 <= k < n ==> Inbox(h)[k] == h.fifo[k];
    assert h.held.Some? ==> Inbox(h)[n] == h.held.value;
    assert h.landing.Some? ==> Inbox(h)[|Inbox(h)| - 1] == h.landing.value;
  }

  /** The last read of all. */
  lemma LastRead(h: Client, at: Client, written: seq<byte>, read: nat, sure: nat)
    requires Inv(h, written, read, sure) && Later(h, at) && 1 <= sure && |h.clocked| > read
    ensures Right(at, Head(at), read) && Whole(at, read + 1)
  {
    LaterKeeps(h, at, written, read, sure, 1);
    HeadRight(at, read, sure);
  }

  lemma SecondOfTwo(h: Client, at: Client, written: seq<byte>, read: nat)
    requires Second(h, written, read) && Later(h, at) && |h.clocked| > read
    ensures Right(at, Head(at), read) && Whole(at, read)
    ensures h.over != Some(read) ==> Whole(at, read + 1)
  {
    if h.over == Some(read) {
      var acts: seq<Act> :| |acts| >= 2 && at == Run(h, acts);
      RunKeepsNever(h, acts, read);
      LaterOnward(h, at);
      NeverRight(at, read);
    } else {
      var sure := if h.over.None? then 1 else 0;
      LaterKeeps(h, at, written, read, sure, 1);
      HeadRight(at, read, sure);
    }
  }

  /** Where the tail stands with `q` bytes in `got`: the bytes before its own good, its
      first good, its second good exactly when it was not overwritten - which `sure` of
      two rules out. */
  ghost predicate TailAt(start: Client, h: Client, got: seq<Arrival>, q0: nat, q: nat, known: nat,
                         written: seq<byte>, sure: nat)
  {
    && q0 <= q <= known <= q0 + 2 && known <= |start.clocked| && known <= |got| && 1 <= sure
    && Onward(start, h) && Written(h) == written && got[..q0] == start.clocked[..q0]
    && (q == q0 ==> Inv(h, written, q, sure))
    && (q > q0 ==> got[q0] == h.clocked[q0] && Whole(h, q0 + 1))
    && (q == q0 + 1 < known ==> Second(h, written, q) && (sure == 2 ==> h.over != Some(q)))
    && (q > q0 + 1 ==> Right(h, got[q0 + 1], q0 + 1) && (sure == 2 ==> Whole(h, q0 + 2)))
  }

  lemma TailFirst(start: Client, h: Client, at: Client, got: seq<Arrival>, q: nat, known: nat, written: seq<byte>, sure: nat)
    requires TailAt(start, h, got, q, q, known, written, sure) && q < known && Later(h, at)
    ensures TailAt(start, AfterRead(at), got[q := Head(at)], q, q + 1, known, written, sure)
  {
    if known - q == 2 {
      FirstOfTwo(h, at, written, q, sure);
    } else {
      LastRead(h, at, written, q, sure);
    }
    LaterOnward(h, at);
    ReadOnward(at);
    OnwardTrans(start, h, at);
    OnwardTrans(start, at, AfterRead(at));
    hide AfterRead, Later, Head, Written, Onward, Inv, Second;
    assert got[q := Head(at)][..q] == got[..q];
  }

  lemma TailSecond(start: Client, h: Client, at: Client, got: seq<Arrival>, q0: nat, known: nat, written: seq<byte>, sure: nat)
    requires TailAt(start, h, got, q0, q0 + 1, known, written, sure) && q0 + 1 < known && Later(h, at)
    ensures TailAt(start, AfterRead(at), got[q0 + 1 := Head(at)], q0, q0 + 2, known, written, sure)
  {
    LaterOnward(h, at);
    ReadOnward(at);
    OnwardTrans(start, h, at);
    OnwardTrans(start, at, AfterRead(at));
    assert start.clocked <= h.clocked <= at.clocked;
    SecondOfTwo(h, at, written, q0 + 1);
    hide AfterRead, Later, Head, Written, Onward, Inv, Second;
    assert got[q0 + 1 := Head(at)][..q0] == got[..q0];
  }

  /** What a finished tail says of the whole buffer: it is the first transfers' bytes
      exactly when none of those was overwritten - and all but its last always are. */
  lemma TailDone(start: Client, h: Client, got: seq<Arrival>, q0: nat, known: nat, written: seq<byte>, sure: nat)
    requires TailAt(start, h, got, q0, known, known, written, sure)
    ensures Onward(start, h) && h.sent <= written && known <= |h.clocked|
    ensures h.bufwr == start.bufwr && h.quota == start.quota
    ensures known > 0 ==> got[..known - 1] == h.clocked[..known - 1] && Whole(h, known - 1)
    ensures got[..known] == h.clocked[..known] <==> Whole(h, known)
    ensures Whole(h, known) || 3 <= known < h.quota
    ensures sure == 2 || known <= q0 + 1 ==> Whole(h, known)
  {
    assert forall i :: 0 <= i < q0 ==> got[i] == got[..q0][i] == start.clocked[i] == h.clocked[i];
    if known == q0 + 2 {
      assert got[..known][q0 + 1] == got[q0 + 1] && h.clocked[..known][q0 + 1] == h.clocked[q0 + 1];
    }
  }
}

/**
 An SpiHost's transactions on the wire (brio/avrxt/spi.hpp:1192-1414). SCK's level
 while the peripheral is enabled is a latch that follows CPOL at an enable and at a
 transfer, never on a CTRLB write; disabled, it is the port's. What a burst moves is
 SpiHostBurst's.
*/
module SpiTransaction {
  import opened Basics
  import opened SpiSettings

  /** One phase on the wire: under which settings, D/C and select, and what went each way. */
  datatype Phase = Phase(rate: Rate, mode: bv8, dc: bool, selected: bool, sent: seq<byte>, received: seq<byte>)

  datatype Wire = Wire(
    ctrla: bv8,
    ctrlb: bv8,
    port: bool,              // SCK's PORT.OUT
    latch: bool,             // SCK as the peripheral drives it
    selected: bool,
    dc: bool,
    fifo: seq<byte>,         // the receive FIFO, as a former user left it
    edges: nat,              // SCK edges outside transfers
    stray: nat,              // of those, inside a select window
    phases: seq<Phase>
  )

  predicate Cpol(ctrlb: bv8) { ctrlb & CPOL != 0 }

  predicate Enabled(ctrla: bv8) { ctrla & ENABLE != 0 }

  function Line(w: Wire): bool { if Enabled(w.ctrla) then w.latch else w.port }

  /** Any edge the step from `w` has made, counted. */
  function Counted(w: Wire, t: Wire): Wire {
    if Line(t) == Line(w) then t
    else t.(edges := t.edges + 1, stray := t.stray + if w.selected then 1 else 0)
  }

  function PutCtrla(w: Wire, v: bv8): Wire {
    Counted(w, w.(ctrla := v, latch := if !Enabled(w.ctrla) && Enabled(v) then Cpol(w.ctrlb) else w.latch))
  }

  function PutCtrlb(w: Wire, v: bv8): Wire { w.(ctrlb := v) }

  function PutPort(w: Wire, level: bool): Wire { Counted(w, w.(port := level)) }

  /** A burst: what it sends and what it stores are SpiHostBurst's. */
  function Transfer(w: Wire, sent: seq<byte>, received: seq<byte>): Wire {
    w.(latch := Cpol(w.ctrlb),
       phases := w.phases + [Phase(RateOf(w.ctrla), w.ctrlb & 3, w.dc, w.selected, sent, received)])
  }

  datatype Request = Request(
    dma: bool,
    cs: bool,                // a select pin of the request's own
    cmd: seq<byte>,
    tx: Option<seq<byte>>,   // none: 0xFF dummies
    rx: bool,                // the data phase's bytes are wanted
    len: nat,
    rate: Rate,
    mode: bv8
  )

  ghost predicate Sane(r: Request) {
    r.mode < 4 && |r.cmd| < 256 && r.len < 65536 && (r.tx.Some? ==> |r.tx.value| >= r.len)
  }

  /** The bytes of the data phase. */
  function Data(r: Request): seq<byte>
    requires r.tx.Some? ==> |r.tx.value| >= r.len
  {
    match r.tx case Some(t) => t[..r.len] case None => seq(r.len, _ => 0xFF)
  }

  /** What came back: in the command phase, and in the data phase. */
  datatype Got = Got(cmd: seq<byte>, data: seq<byte>)

  function CmdPhase(r: Request, rate: Rate, mode: bv8, selected: bool, g: Got): seq<Phase> {
    if r.cmd == [] then [] else [Phase(rate, mode, false, selected, r.cmd, g.cmd)]
  }

  function DataPhase(r: Request, rate: Rate, mode: bv8, selected: bool, g: Got): seq<Phase>
    requires r.tx.Some? ==> |r.tx.value| >= r.len
  {
    if r.len == 0 then [] else [Phase(rate, mode, true, selected, Data(r), g.data)]
  }

  /** What a transaction is to put on the wire. */
  function Phases(r: Request, rate: Rate, mode: bv8, selected: bool, g: Got): seq<Phase>
    requires r.tx.Some? ==> |r.tx.value| >= r.len
  {
    CmdPhase(r, rate, mode, selected, g) + DataPhase(r, rate, mode, selected, g)
  }

  /** What a request has put on the wire behind what was there: the command, when there is
      one, in a phase with D/C low that sends exactly it; the data, when there are any, in
      the phase behind it with D/C high - the caller's bytes, or as many of 0xFF - and handed
      back if they are wanted; no other phase; and all under the one select and mode. */
  ghost predicate Carried(r: Request, selected: bool, was: seq<Phase>, now: seq<Phase>, rx: Option<seq<byte>>)
    requires r.tx.Some? ==> |r.tx.value| >= r.len
  {
    && was <= now && |now| == |was| + (if r.cmd == [] then 0 else 1) + (if r.len == 0 then 0 else 1)
    && (r.cmd != [] ==>
          var p := now[|was|]; !p.dc && p.sent == r.cmd && |p.received| == |r.cmd|)
    && (r.len > 0 ==>
          var p := now[|now| - 1];
          && p.dc && |p.sent| == r.len == |p.received|
          && (forall i :: 0 <= i < r.len ==> p.sent[i] == if r.tx.Some? then r.tx.value[i] else 0xFF)
          && rx == if r.rx then Some(p.received) else None)
    && (r.len == 0 ==> rx == None)
    && forall k :: |was| <= k < |now| ==> now[k].selected == selected && now[k].mode == r.mode
  }

  lemma PhasesCarry(r: Request, rate: Rate, selected: bool, g: Got, was: seq<Phase>, rx: Option<seq<byte>>)
    requires (r.tx.Some? ==> |r.tx.value| >= r.len) && |g.cmd| == |r.cmd| && |g.data| == r.len
    requires rx == if r.rx && r.len > 0 then Some(g.data) else None
    ensures var now := was + Phases(r, rate, r.mode, selected, g);
      Carried(r, selected, was, now, rx) && forall k :: |was| <= k < |now| ==> now[k].rate == rate
  {
  }

  /** cycles_per_us: the cycles of a microsecond, rounded up, in a byte. */
  function CyclesPerUs(hz: nat): nat { (hz + 999_999) / 1_000_000 % 0x100 }

  datatype Status = Ok | Rejected

  class Host {
    var w: Wire
    var ctrla: bv8
    var ctrlb: bv8
    var clkPer: nat
    var cyclesPerUs: nat     // the select's setup time is counted in these
    var ceilingHz: nat
    var ceiling: Option<Rate>
    var status: Status

    /** The kept pair is the registers', they hold a fold, and SCK is at its idle level. */
    ghost predicate Valid()
      reads this
    {
      && w.ctrla == ctrla && w.ctrlb == ctrlb && Folded(ctrla, ctrlb) && w.latch == Cpol(ctrlb)
      && w.fifo == [] && cyclesPerUs == CyclesPerUs(clkPer)
      && (if ceilingHz == 0 then ceiling == None else Fastest(clkPer, ceilingHz, ceiling))
    }

    /** rebase: the setup time's base, and the ceiling's division, at the new rate. */
    method Rebase(hz: nat)
      modifies this`clkPer, this`cyclesPerUs, this`ceiling
      ensures clkPer == hz && cyclesPerUs == CyclesPerUs(hz)
      ensures hz <= 255_000_000 ==> cyclesPerUs * 1_000_000 >= hz && (hz > 0 ==> (cyclesPerUs - 1) * 1_000_000 < hz)
      ensures if ceilingHz == 0 then ceiling == None else Fastest(hz, ceilingHz, ceiling)
    {
      clkPer, cyclesPerUs := hz, CyclesPerUs(hz);
      if ceilingHz != 0 {
        ceiling := ClockFor(hz, ceilingHz);
      } else {
        ceiling := None;
      }
    }

    /** init, where the package bonds the route: false, no register written, when no
        division keeps to the ceiling or the resource refuses the configuration; else the
        receiver is empty, whatever a former user left in it. */
    method Init(hz: nat, max: nat, refused: bool) returns (ok: bool)
      modifies this
      ensures ok ==> Valid() && clkPer == hz && ceilingHz == max && status == Ok
      ensures ok ==> (max > 0 ==> ceiling == Some(RateOf(w.ctrla))) && (max == 0 ==> Division(RateOf(w.ctrla)) == 16)
      ensures ok ==> w.ctrlb & 3 == 0
      ensures !ok ==> w == old(w)
      ensures ok <==> (max == 0 || SckHz(hz, 6) <= max) && !refused
    {
      ceilingHz := max;
      Rebase(hz);
      if max != 0 {
        NoneIff(hz, max, ceiling);
      }
      if max != 0 && ceiling.None? {
        return false;
      }
      if refused {
        return false;
      }
      var rate: Rate := if ceiling.Some? then ceiling.value else 3;
      w := PutCtrla(PutCtrlb(PutCtrla(w, 0), CtrlbOf(0)), CtrlaOf(rate));
      Folds(rate, 0);
      ctrla, ctrlb := w.ctrla, w.ctrlb;
      Flush();
      status := Ok;
      return true;
    }

    /** flush: a DATA read, and more while RXCIF stands. */
    method Flush()
      modifies this`w
      ensures w == old(w).(fifo := [])
    {
      ghost var was := w;
      w := w.(fifo := if w.fifo == [] then [] else w.fifo[1..]);
      while w.fifo != []
        invariant w == was.(fifo := w.fifo)
        decreases |w.fifo|
      {
        w := w.(fifo := w.fifo[1..]);
      }
    }

    /** reprogram: a CPOL change with the peripheral off, the port preset. */
    method Reprogram(a: bv8, b: bv8)
      requires Valid() && Folded(a, b)
      modifies this`w, this`ctrla, this`ctrlb
      ensures Valid() && ctrla == a && ctrlb == b
      ensures Turned(old(w), w, b) && w.phases == old(w).phases && w.selected == old(w).selected && w.dc == old(w).dc
    {
      TurnsOnce(w, a, b);
      if Cpol(b) != Cpol(ctrlb) {
        w := PutPort(w, Cpol(b));
        w := PutCtrla(w, a & !ENABLE);
      }
      w := PutCtrlb(w, b);
      w := PutCtrla(w, a);
      ctrla, ctrlb := a, b;
    }

    /** apply: nothing written when the pair is the one kept. */
    method Apply(mode: bv8, rate: Rate)
      requires Valid() && mode < 4
      modifies this`w, this`ctrla, this`ctrlb
      ensures Valid() && ctrla == CtrlaOf(rate) && ctrlb == CtrlbOf(mode)
      ensures Turned(old(w), w, CtrlbOf(mode))
      ensures w.phases == old(w).phases && w.selected == old(w).selected && w.dc == old(w).dc
      ensures old(ctrla) == CtrlaOf(rate) && old(ctrlb) == CtrlbOf(mode) ==> w == old(w)
    {
      Folds(rate, mode);
      var a, b := CtrlaOf(rate), CtrlbOf(mode);
      if a != ctrla || b != ctrlb {
        Reprogram(a, b);
      }
    }

    /** prime: for a caller that drives the select itself. */
    method Prime(mode: bv8, rate: Rate)
      requires Valid() && mode < 4
      modifies this`w, this`ctrla, this`ctrlb
      ensures Valid() && ctrla == CtrlaOf(Clamp(ceiling, rate)) && ctrlb == CtrlbOf(mode)
      ensures Turned(old(w), w, CtrlbOf(mode))
      ensures w.phases == old(w).phases && w.selected == old(w).selected && w.dc == old(w).dc
    {
      Apply(mode, Clamp(ceiling, rate));
    }

    /**
     start: the whole transaction, its settings applied before its own select falls. No
     SCK edge falls inside the window but the transfers' own; the one a CPOL change makes
     falls before it. Under a ceiling in force every phase keeps to it, at a rate no
     faster than asked for, and no admitted one in between is passed over.
    */
    method Start(r: Request) returns (rx: Option<seq<byte>>)
      requires Valid() && Sane(r)
      modifies this`w, this`ctrla, this`ctrlb, this`status
      ensures Valid() && status == (if r.dma then Rejected else Ok)
      ensures r.dma || (r.cmd == [] && r.len == 0) ==> w == old(w) && rx == None
      ensures !r.dma && (r.cmd != [] || r.len > 0) ==>
        Turned(old(w), w, CtrlbOf(r.mode)) && w.selected == (!r.cs && old(w).selected) && w.dc
      ensures !r.dma ==> Carried(r, r.cs || old(w).selected, old(w).phases, w.phases, rx)
      ensures !r.dma && ceiling.None? ==> forall k :: |old(w).phases| <= k < |w.phases| ==> w.phases[k].rate == r.rate
      ensures ceiling.Some? ==> forall k :: |old(w).phases| <= k < |w.phases| ==>
        KeepsTo(clkPer, ceilingHz, r.rate, w.phases[k].rate)
      ensures old(ctrla) == CtrlaOf(Clamp(ceiling, r.rate)) && old(ctrlb) == CtrlbOf(r.mode) ==>
        w.edges == old(w).edges
    {
      hide *;
      SaneMode(r);
      SettledLatch();
      rx := None;
      if r.dma {
        status := Rejected;
        ValidStill(w);
        return;
      }
      status := Ok;
      if |r.cmd| == 0 && r.len == 0 {
        NothingCarried(r, r.cs || w.selected, w.phases);
        ValidStill(w);
        return;
      }
      ValidStill(w);
      ghost var was := w;
      var rate := Clamp(ceiling, r.rate);
      ghost var g;
      rx, g := Transact(r, rate);
      PhasesCarry(r, rate, r.cs || was.selected, g, was.phases, rx);
      if ceiling.Some? {
        ClampKeeps(clkPer, ceilingHz, ceiling, r.rate);
      } else {
        NoClamp(ceiling, r.rate);
      }
    }

    /** The settings, and then the select's window. */
    method Transact(r: Request, rate: Rate) returns (rx: Option<seq<byte>>, ghost g: Got)
      requires Valid() && Sane(r) && r.mode < 4
      modifies this`w, this`ctrla, this`ctrlb
      ensures Valid() && w.phases == old(w).phases + Phases(r, rate, r.mode, r.cs || old(w).selected, g)
      ensures Turned(old(w), w, CtrlbOf(r.mode)) && w.selected == (!r.cs && old(w).selected) && w.dc
      ensures |g.cmd| == |r.cmd| && |g.data| == r.len && rx == if r.rx && r.len > 0 then Some(g.data) else None
      ensures old(ctrla) == CtrlaOf(rate) && old(ctrlb) == CtrlbOf(r.mode) ==> w.edges == old(w).edges
    {
      hide *;
      ghost var was := w;
      Apply(r.mode, rate);
      Folds(rate, r.mode);
      ghost var settled := w;
      SettledLatch();
      rx, g := Frame(r);
      FramesAll(settled, r, g);
      TurnedStill(was, settled, w, CtrlbOf(r.mode));
      ValidStill(settled);
    }

    lemma SettledLatch()
      requires Valid()
      ensures w.latch == Cpol(w.ctrlb) && w.ctrla == ctrla && w.ctrlb == ctrlb && Folded(ctrla, ctrlb)
      ensures if ceilingHz == 0 then ceiling == None else Fastest(clkPer, ceilingHz, ceiling)
      ensures w.fifo == [] && cyclesPerUs == CyclesPerUs(clkPer) && (ceiling.Some? ==> ceilingHz != 0)
    {
    }

    lemma ValidStill(m: Wire)
      requires Folded(ctrla, ctrlb) && w.ctrla == m.ctrla == ctrla && w.ctrlb == m.ctrlb == ctrlb
      requires w.latch == m.latch == Cpol(ctrlb) && w.fifo == m.fifo == [] && cyclesPerUs == CyclesPerUs(clkPer)
      requires if ceilingHz == 0 then ceiling == None else Fastest(clkPer, ceilingHz, ceiling)
      ensures Valid()
    {
    }

    /** A burst of these bytes, against any bytes coming back. */
    method Burst(sent: seq<byte>) returns (received: seq<byte>)
      modifies this`w
      ensures |received| == |sent| && w == Transfer(old(w), sent, received)
    {
      assert |seq(|sent|, _ => 0 as byte)| == |sent|;
      received :| |received| == |sent|;
      w := Transfer(w, sent, received);
    }

    /** The select, the phases and D/C, under settings already applied. */
    method Frame(r: Request) returns (rx: Option<seq<byte>>, ghost g: Got)
      requires Sane(r)
      modifies this`w
      ensures w == Framed(old(w), r, g) && |g.cmd| == |r.cmd| && |g.data| == r.len
      ensures rx == if r.rx && r.len > 0 then Some(g.data) else None
    {
      rx, g := None, Got([], []);
      w := w.(dc := |r.cmd| == 0);
      if r.cs {
        w := w.(selected := true);
      }
      if |r.cmd| != 0 {
        var got := Burst(r.cmd);
        g := g.(cmd := got);
        w := w.(dc := true);
      }
      if r.len != 0 {
        var got := Burst(Data(r));
        g := g.(data := got);
        if r.rx {
          rx := Some(got);
        }
      }
      if r.cs {
        w := w.(selected := false);
      }
    }

    /** recover: a host the hardware dropped is re-armed, the pair kept holds again, and
        the receiver is empty. */
    method Recover()
      requires Folded(ctrla, ctrlb) && w.ctrlb == ctrlb && w.latch == Cpol(ctrlb)
      requires w.ctrla == ctrla || w.ctrla == ctrla & !MASTER
      requires cyclesPerUs == CyclesPerUs(clkPer)
      requires if ceilingHz == 0 then ceiling == None else Fastest(clkPer, ceilingHz, ceiling)
      modifies this`w
      ensures Valid() && w == old(w).(ctrla := ctrla, fifo := [])
    {
      FoldedBits(ctrla, ctrlb);
      Rearms(ctrla);
      if w.ctrla & MASTER == 0 {
        w := PutCtrla(w, w.ctrla | MASTER);
      }
      Flush();
    }
  }

  lemma Rearms(a: bv8)
    requires Enabled(a) && a & MASTER != 0
    ensures (a & !MASTER) | MASTER == a && (a & !MASTER) & MASTER == 0 && Enabled(a & !MASTER)
  {
  }

  /** A phase's rate: within the limit, as its division is rounded, and the fastest of all
      that are and pass no request. */
  ghost predicate KeepsTo(hz: nat, max: nat, asked: Rate, used: Rate) {
    && SckHz(hz, used) <= max && used >= asked
    && forall k: Rate :: asked <= k < used ==> SckHz(hz, k) > max
  }

  lemma NoClamp(ceiling: Option<Rate>, c: Rate)
    requires ceiling.None?
    ensures Clamp(ceiling, c) == c
  {
  }

  lemma NothingCarried(r: Request, selected: bool, phases: seq<Phase>)
    requires r.cmd == [] && r.len == 0
    ensures Carried(r, selected, phases, phases, None)
  {
  }

  lemma ClampKeeps(hz: nat, max: nat, ceiling: Option<Rate>, c: Rate)
    requires Fastest(hz, max, ceiling) && ceiling.Some?
    ensures KeepsTo(hz, max, c, Clamp(ceiling, c))
  {
    CeilingHolds(hz, max, ceiling, c);
    hide SckHz, Clamp, Fastest;
  }

  /** A transaction's phases, under settled settings. */
  function SentCmd(w: Wire, r: Request, g: Got): Wire {
    var open := w.(dc := |r.cmd| == 0, selected := r.cs || w.selected);
    if |r.cmd| == 0 then open else Transfer(open, r.cmd, g.cmd).(dc := true)
  }

  function SentData(w: Wire, r: Request, g: Got): Wire
    requires r.tx.Some? ==> |r.tx.value| >= r.len
  {
    if r.len == 0 then w else Transfer(w, Data(r), g.data)
  }

  function Framed(w: Wire, r: Request, g: Got): Wire
    requires r.tx.Some? ==> |r.tx.value| >= r.len
  {
    SentData(SentCmd(w, r, g), r, g).(selected := !r.cs && w.selected)
  }

  lemma CmdSent(w: Wire, r: Request, g: Got)
    requires w.latch == Cpol(w.ctrlb)
    ensures SentCmd(w, r, g) == w.(dc := true, selected := r.cs || w.selected,
      phases := w.phases + CmdPhase(r, RateOf(w.ctrla), w.ctrlb & 3, r.cs || w.selected, g))
  {
    hide RateOf, Cpol;
  }

  lemma DataSent(w: Wire, r: Request, g: Got)
    requires Sane(r) && w.latch == Cpol(w.ctrlb) && w.dc
    ensures SentData(w, r, g) == w.(phases := w.phases + DataPhase(r, RateOf(w.ctrla), w.ctrlb & 3, w.selected, g))
  {
    hide RateOf, Cpol, Data;
  }

  lemma FramesAll(w: Wire, r: Request, g: Got)
    requires Sane(r) && w.latch == Cpol(w.ctrlb)
    ensures Framed(w, r, g) == w.(dc := true, selected := !r.cs && w.selected,
      phases := w.phases + Phases(r, RateOf(w.ctrla), w.ctrlb & 3, r.cs || w.selected, g))
  {
    CmdSent(w, r, g);
    DataSent(SentCmd(w, r, g), r, g);
    hide SentCmd, SentData, RateOf, Cpol, CmdPhase, DataPhase;
  }

  lemma SaneMode(r: Request)
    requires Sane(r)
    ensures r.mode < 4 && (r.tx.Some? ==> |r.tx.value| >= r.len)
  {
  }

  lemma TurnedStill(was: Wire, m: Wire, t: Wire, ctrlb: bv8)
    requires Turned(was, m, ctrlb) && t.edges == m.edges && t.stray == m.stray
    ensures Turned(was, t, ctrlb)
  {
    hide Cpol;
  }

  /** Two bytes some rate and mode fold into. */
  ghost predicate Folded(a: bv8, b: bv8) {
    exists rate: Rate, mode: bv8 :: mode < 4 && a == CtrlaOf(rate) && b == CtrlbOf(mode)
  }

  lemma Folds(rate: Rate, mode: bv8)
    requires mode < 4
    ensures Folded(CtrlaOf(rate), CtrlbOf(mode)) && Enabled(CtrlaOf(rate))
    ensures RateOf(CtrlaOf(rate)) == rate && CtrlbOf(mode) & 3 == mode
    ensures Cpol(CtrlbOf(mode)) == (mode == 2 || mode == 3)
  {
    FoldRoundTrip(rate);
    assert mode == 0 || mode == 1 || mode == 2 || mode == 3;
  }

  lemma FoldedBits(a: bv8, b: bv8)
    requires Folded(a, b)
    ensures Enabled(a) && a & MASTER != 0 && b & SSD != 0 && !Enabled(a & !ENABLE)
  {
    var rate: Rate, mode: bv8 :| mode < 4 && a == CtrlaOf(rate) && b == CtrlbOf(mode);
    FoldRoundTrip(rate);
    assert mode == 0 || mode == 1 || mode == 2 || mode == 3;
  }

  /** From one CPOL to the next: one SCK edge when they differ and none when they do not,
      stray only for a window that was already open. */
  ghost predicate Turned(was: Wire, now: Wire, ctrlb: bv8) {
    var e := if Cpol(was.ctrlb) != Cpol(ctrlb) then 1 else 0;
    now.edges == was.edges + e && now.stray == was.stray + if was.selected then e else 0
  }

  lemma TurnsOnce(w: Wire, a: bv8, b: bv8)
    requires Folded(w.ctrla, w.ctrlb) && Folded(a, b) && w.latch == Cpol(w.ctrlb)
    ensures Enabled(a) && !Enabled(a & !ENABLE) && Enabled(w.ctrla)
    ensures Cpol(b) == Cpol(w.ctrlb) ==> Turned(w, PutCtrla(PutCtrlb(w, b), a), b)
    ensures Cpol(b) != Cpol(w.ctrlb) ==>
      Turned(w, PutCtrla(PutCtrlb(PutCtrla(PutPort(w, Cpol(b)), a & !ENABLE), b), a), b)
  {
    FoldedBits(a, b);
    FoldedBits(w.ctrla, w.ctrlb);
    hide Folded;
  }
}

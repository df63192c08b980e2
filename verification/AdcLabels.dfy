/**
 A select under the event pace (route, brio/avrxt/adc.hpp:1387-1420): a result is
 never read under another input's label, and what the select costs. No other handler
 delays the RESRDY body: one that ran through the whole wait would undo it as surely as
 masked interrupts do (MaskedLies).
*/
module AdcLabels {
  import opened Basics
  import opened AdcClock
  import opened AdcSilicon

  /** A result is its label's, whole. */
  predicate Whole(s: Sampled, tag: Input) { s == Sampled(tag, false) }

  /** Whatever converts, lands or waits is the input the mux stands on, and every result
      read was its label's. */
  ghost predicate Labelled(h: Adc) {
    && (h.converting.Some? ==> Whole(h.converting.value.of, h.regs))
    && (h.landing.Some? ==> Whole(h.landing.value.of, h.regs))
    && (h.ready.Some? ==> Whole(h.ready.value, h.regs))
    && forall r :: r in h.log ==> Whole(r.of, r.tag)
  }

  /** The conversion that runs is no younger than the last trigger, nor longer than the
      longest; a result is on the way no longer than it may be. */
  ghost predicate Timed(p: Pace, h: Adc) {
    && (h.converting.Some? ==> h.since <= h.converting.value.age < p.longest)
    && (h.landing.Some? ==> 1 <= h.landing.value.left <= p.late)
    && (h.landing.Some? && h.converting.Some? ==> h.converting.value.age + h.landing.value.left <= p.late)
    && (!h.armed ==> h.converting.None?)
  }

  /** Every conversion begun has ended, was aborted or still runs; and what each that ended
      sampled has been read, in order, or waits to be, or is on its way. */
  ghost predicate Accounted(h: Adc) {
    && |h.ended| + h.aborted + |Opt(h.converting)| == h.begun
    && |h.log| + |Opt(h.ready)| + |Opt(h.landing)| == |h.ended|
    && (forall i :: 0 <= i < |h.log| ==> h.log[i].of == h.ended[i])
    && (h.ready.Some? ==> h.ended[|h.log|] == h.ready.value)
    && (h.landing.Some? ==> h.ended[|h.ended| - 1] == h.landing.value.of)
  }

  lemma ServeAccounts(h: Adc)
    requires Accounted(h)
    ensures Accounted(Serve(h)) && Serve(h).ready.None?
  {
  }

  lemma LandAccounts(h: Adc)
    requires Accounted(h) && h.ready.None?
    ensures Accounted(Land(h))
  {
  }

  lemma ConvertAccounts(p: Pace, h: Adc, a: Act)
    requires Accounted(h)
    ensures Accounted(Convert(p, h, a))
  {
    var t := Convert(p, h, a);
    if h.converting.Some? && t.ended != h.ended {
      assert t.ended == h.ended + [h.converting.value.of] && t.log == h.log && t.ready == h.ready;
      assert forall i :: 0 <= i < |h.ended| ==> t.ended[i] == h.ended[i];
    }
  }

  lemma TriggerAccounts(p: Pace, h: Adc, a: Act)
    requires Accounted(h)
    ensures Accounted(Trigger(p, h, a))
  {
  }

  lemma TickAccounts(p: Pace, h: Adc, a: Act)
    requires Accounted(h)
    ensures Accounted(Tick(p, h, a))
  {
    hide Accounted, Serve, Land, Convert, Trigger;
    ServeAccounts(h);
    LandAccounts(Serve(h));
    ConvertAccounts(p, Land(Serve(h)), a);
    TriggerAccounts(p, Convert(p, Land(Serve(h)), a), a);
  }

  lemma {:induction false} RunAccounts(p: Pace, h: Adc, acts: seq<Act>)
    requires Accounted(h)
    ensures Accounted(Run(p, h, acts))
    decreases |acts|
  {
    hide Tick, Accounted;
    if acts != [] {
      TickAccounts(p, h, acts[0]);
      RunAccounts(p, Tick(p, h, acts[0]), acts[1..]);
    }
  }

  /** A store to the mux or to COMMAND loses no account of any of them. */
  lemma StoresAccount(h: Adc, pos: nat, neg: nat, armed: bool, diff: bool)
    requires Accounted(h)
    ensures Accounted(SetCommand(h, armed, diff)) && Accounted(SetPos(h, pos)) && Accounted(SetNeg(h, neg))
  {
    CommandAccounts(h, armed, diff);
    MixAccounts(h, h.regs.(pos := pos));
    MixAccounts(h, h.regs.(neg := neg));
    hide Accounted, SetCommand;
  }

  lemma CommandAccounts(h: Adc, armed: bool, diff: bool)
    requires Accounted(h)
    ensures Accounted(SetCommand(h, armed, diff))
  {
  }

  lemma MixAccounts(h: Adc, regs: Input)
    requires Accounted(h)
    ensures Accounted(h.(regs := regs, converting := Mix(h.converting)))
  {
  }

  /** With nothing landing or waiting all that ended has been read. */
  lemma AllRead(h: Adc)
    requires Accounted(h) && h.landing.None? && h.ready.None?
    ensures |h.log| == |h.ended| && forall i :: 0 <= i < |h.log| ==> h.log[i].of == h.ended[i]
  {
  }

  lemma LandKeeps(p: Pace, h: Adc)
    requires Labelled(h) && Timed(p, h)
    ensures var t := Land(Serve(h));
      && Labelled(t) && Timed(p, t) && t.regs == h.regs && t.armed == h.armed && t.aborted == h.aborted
      && t.lost == h.lost
      && (t.landing.Some? && t.converting.Some? ==> t.converting.value.age + t.landing.value.left + 1 <= p.late)
  {
    var s := Serve(h);
    assert Labelled(s) && Timed(p, s);
  }

  lemma ConvertKeeps(p: Pace, h: Adc, a: Act)
    requires Labelled(h) && Timed(p, h) && p.longest > p.late >= 1
    requires h.landing.Some? && h.converting.Some? ==> h.converting.value.age + h.landing.value.left + 1 <= p.late
    ensures var t := Convert(p, h, a);
      && Labelled(t) && t.regs == h.regs && t.armed == h.armed && t.aborted == h.aborted && t.lost == h.lost
      && t.since == h.since && (!t.armed ==> t.converting.None?)
      && (t.landing.Some? ==> 1 <= t.landing.value.left <= p.late)
      && (t.converting.Some? ==> t.since + 1 <= t.converting.value.age < p.longest)
      && (t.landing.Some? && t.converting.Some? ==> t.converting.value.age + t.landing.value.left <= p.late)
  {
  }

  lemma TickKeeps(p: Pace, h: Adc, a: Act)
    requires Labelled(h) && Timed(p, h) && p.longest > p.late >= 1
    ensures var t := Tick(p, h, a);
      && Labelled(t) && Timed(p, t) && t.regs == h.regs && t.armed == h.armed && t.aborted == h.aborted
      && (h.armed ==> t.lost == h.lost)
  {
    LandKeeps(p, h);
    ConvertKeeps(p, Land(Serve(h)), a);
    hide Land, Serve, Convert;
  }

  /** How many cycles behind a STOP all is landed and read. */
  function Due(h: Adc): nat {
    if h.landing.Some? then h.landing.value.left + 1 else if h.ready.Some? then 1 else 0
  }

  lemma TickDue(p: Pace, h: Adc, a: Act)
    requires Timed(p, h) && !h.armed
    ensures Due(Tick(p, h, a)) == (if Due(h) > 0 then Due(h) - 1 else 0)
  {
  }

  lemma {:induction false} RunStopped(p: Pace, h: Adc, acts: seq<Act>)
    requires Labelled(h) && Timed(p, h) && !h.armed && p.longest > p.late >= 1
    ensures Labelled(Run(p, h, acts)) && Timed(p, Run(p, h, acts)) && Run(p, h, acts).regs == h.regs
    ensures !Run(p, h, acts).armed && Run(p, h, acts).aborted == h.aborted
    decreases |acts|
  {
    if acts != [] {
      TickKeeps(p, h, acts[0]);
      RunStopped(p, Tick(p, h, acts[0]), acts[1..]);
      hide Tick, Labelled, Timed;
    }
  }

  lemma {:induction false} RunClears(p: Pace, h: Adc, acts: seq<Act>)
    requires Labelled(h) && Timed(p, h) && !h.armed && p.longest > p.late >= 1
    ensures Due(Run(p, h, acts)) == if |acts| < Due(h) then Due(h) - |acts| else 0
    decreases |acts|
  {
    if acts != [] {
      TickKeeps(p, h, acts[0]);
      TickDue(p, h, acts[0]);
      hide Tick, Labelled, Timed;
      RunClears(p, Tick(p, h, acts[0]), acts[1..]);
    }
  }

  /** Of the triggers that come in `n` cycles behind a STOP, one a period is lost. */
  ghost predicate Losing(p: Pace, h: Adc, t: Adc, n: nat) {
    var k := t.lost - h.lost;
    && k >= 0 && t.since + p.period * k <= h.since + n
    && (k > 0 ==> t.since + p.period * (k - 1) < n)
  }

  lemma LosingTrans(p: Pace, h: Adc, m: Adc, t: Adc, a: nat, b: nat)
    requires Losing(p, h, m, a) && Losing(p, m, t, b)
    ensures Losing(p, h, t, a + b)
  {
    var i, j := m.lost - h.lost, t.lost - m.lost;
    assert p.period * (i + j) == p.period * i + p.period * j;
    assert p.period * (i + j - 1) == p.period * (i - 1) + p.period * j == p.period * i + p.period * (j - 1);
  }

  lemma {:induction false} RunLoses(p: Pace, h: Adc, acts: seq<Act>)
    requires Labelled(h) && Timed(p, h) && !h.armed && p.longest > p.late >= 1
    ensures Losing(p, h, Run(p, h, acts), |acts|)
    decreases |acts|
  {
    if acts != [] {
      var m := Tick(p, h, acts[0]);
      TickKeeps(p, h, acts[0]);
      TickLoses(p, h, acts[0]);
      hide Tick, Labelled, Timed;
      RunLoses(p, m, acts[1..]);
      LosingTrans(p, h, m, Run(p, m, acts[1..]), 1, |acts| - 1);
    }
  }

  lemma TickLoses(p: Pace, h: Adc, a: Act)
    requires Timed(p, h) && !h.armed
    ensures Losing(p, h, Tick(p, h, a), 1)
  {
    var m := Tick(p, h, a);
    assert (m.lost == h.lost && m.since == h.since + 1)
        || (m.lost == h.lost + 1 && m.since == 0 && h.since + 1 >= p.period);
    hide Tick, Timed;
  }

  lemma {:induction false} RunKeeps(p: Pace, h: Adc, acts: seq<Act>)
    requires Labelled(h) && Timed(p, h) && p.longest > p.late >= 1
    ensures var t := Run(p, h, acts);
      Labelled(t) && Timed(p, t) && t.regs == h.regs && t.armed == h.armed && t.aborted == h.aborted
      && (h.armed ==> t.lost == h.lost)
    decreases |acts|
  {
    if acts != [] {
      TickKeeps(p, h, acts[0]);
      RunKeeps(p, Tick(p, h, acts[0]), acts[1..]);
      hide Tick, Labelled, Timed;
    }
  }

  // ---- the wait ---------------------------------------------------------------------------

  /** latency_loops: three cycles each. */
  function LatencyLoops(divisor: nat): nat { (divisor / 2 + 2 + 2) / 3 }

  /** Half a CLK_ADC and a CLK_MAIN. */
  function Late(divisor: nat): nat { divisor / 2 + 1 }

  /** For every prescaler the wait covers the latency and the cycle the RESRDY body is
      taken in, one loop less would not, and the count is a byte that is not zero. */
  lemma LoopsCover(i: nat)
    requires i < 16
    ensures var n := LatencyLoops(EA[i]);
      1 <= n <= 12 && 3 * (n - 1) < Late(EA[i]) + 1 <= 3 * n
  {
  }

  class AdcMux {
    const pace: Pace
    const divisor: nat          // of the prescaler in effect
    var hw: Adc
    var diff: bool              // cmd_'s DIFF

    ghost predicate Valid()
      reads this
    {
      && divisor in EA && pace.late == Late(divisor) && pace.longest > pace.late
      && Labelled(hw) && Timed(pace, hw) && Accounted(hw) && hw.regs.diff == diff
    }

    /** `n` cycles pass, each of them with the RESRDY body served if it is due. */
    method Elapse(n: nat)
      requires Labelled(hw) && Timed(pace, hw) && Accounted(hw) && pace.longest > pace.late >= 1
      modifies this`hw
      ensures Labelled(hw) && Timed(pace, hw) && Accounted(hw) && hw.regs == old(hw).regs
      ensures hw.armed == old(hw).armed && hw.aborted == old(hw).aborted
      ensures hw.armed ==> hw.lost == old(hw).lost
      ensures !hw.armed ==> Losing(pace, old(hw), hw, n)
      ensures !hw.armed ==> Due(hw) == if n < Due(old(hw)) then Due(old(hw)) - n else 0
    {
      assert |seq(n, _ => Act(false, false, 0))| == n;
      var acts: seq<Act> :| |acts| == n;
      var was := hw;
      hw := Run(pace, was, acts);
      RunKeeps(pace, was, acts);
      RunAccounts(pace, was, acts);
      if !was.armed {
        RunLoses(pace, was, acts);
        RunClears(pace, was, acts);
      }
      hide Labelled, Timed, Run, Accounted;
    }

    /** STOP, and the wait: what is past its end lands and is read - all of it. */
    method Halt(was: bool, gap0: nat, gap1: nat) returns (ghost before: Adc, ghost stopped: Adc, ghost w: nat)
      requires Labelled(hw) && Timed(pace, hw) && Accounted(hw) && hw.regs.diff == was && hw.armed
      requires divisor in EA && pace.late == Late(divisor) && pace.longest > pace.late
      modifies this`hw
      ensures Labelled(hw) && Timed(pace, hw) && !hw.armed && Due(hw) == 0 && hw.regs == old(hw).regs
      ensures Accounted(hw) && |hw.log| == |hw.ended|
      ensures before.aborted == old(hw.aborted) && before.lost == old(hw.lost)
      ensures stopped.aborted == hw.aborted && stopped.lost == before.lost && stopped.since == before.since
      ensures stopped.aborted <= before.aborted + 1
      ensures stopped.aborted == before.aborted + 1 ==> before.since < pace.longest
      ensures w == gap1 + 3 * LatencyLoops(divisor) && Losing(pace, stopped, hw, w)
    {
      hide Labelled, Timed, Losing, Due, SetCommand, Accounted;
      Covers(divisor);
      Elapse(gap0);
      before := hw;
      hw := SetCommand(hw, false, was);
      StopKeeps(pace, before, was);
      StoresAccount(before, 0, 0, false, was);
      stopped := hw;
      Elapse(gap1);
      var n := LatencyLoops(divisor);
      w := gap1;
      while n > 0
        invariant Labelled(hw) && Timed(pace, hw) && !hw.armed && hw.regs == stopped.regs && hw.aborted == stopped.aborted
        invariant Losing(pace, stopped, hw, w) && w == gap1 + 3 * (LatencyLoops(divisor) - n)
        invariant n <= LatencyLoops(divisor) && Due(hw) <= 3 * n && Accounted(hw)
      {
        ghost var from := hw;
        Elapse(3);
        LosingTrans(pace, stopped, from, hw, w, 3);
        n, w := n - 1, w + 3;
      }
      NothingLeft(pace, hw);
      AllRead(hw);
    }

    /** A store to MUXNEG, `gap` cycles on, with the pace stopped and all read. */
    method StoreNeg(neg: nat, gap: nat, ghost stopped: Adc, ghost w0: nat) returns (ghost w: nat)
      requires Labelled(hw) && Timed(pace, hw) && Accounted(hw) && !hw.armed && Due(hw) == 0
      requires pace.longest > pace.late >= 1 && Losing(pace, stopped, hw, w0)
      modifies this`hw
      ensures Labelled(hw) && Timed(pace, hw) && Accounted(hw) && !hw.armed && Due(hw) == 0
      ensures hw.regs == old(hw).regs.(neg := neg) && hw.aborted == old(hw).aborted
      ensures w == w0 + gap && Losing(pace, stopped, hw, w)
    {
      hide Labelled, Timed, Losing, Due, Accounted;
      ghost var from := hw;
      Elapse(gap);
      LosingTrans(pace, stopped, from, hw, w0, gap);
      w := w0 + gap;
      Moves(pace, hw, 0, neg, false);
      LosingSame(pace, stopped, hw, SetNeg(hw, neg), w);
      StoresAccount(hw, 0, neg, true, false);
      hw := SetNeg(hw, neg);
    }

    /** The same to MUXPOS. */
    method StorePos(pos: nat, gap: nat, ghost stopped: Adc, ghost w0: nat) returns (ghost w: nat)
      requires Labelled(hw) && Timed(pace, hw) && Accounted(hw) && !hw.armed && Due(hw) == 0
      requires pace.longest > pace.late >= 1 && Losing(pace, stopped, hw, w0)
      modifies this`hw
      ensures Labelled(hw) && Timed(pace, hw) && Accounted(hw) && !hw.armed && Due(hw) == 0
      ensures hw.regs == old(hw).regs.(pos := pos) && hw.aborted == old(hw).aborted
      ensures w == w0 + gap && Losing(pace, stopped, hw, w)
    {
      hide Labelled, Timed, Losing, Due, Accounted;
      ghost var from := hw;
      Elapse(gap);
      LosingTrans(pace, stopped, from, hw, w0, gap);
      w := w0 + gap;
      Moves(pace, hw, pos, 0, false);
      LosingSame(pace, stopped, hw, SetPos(hw, pos), w);
      StoresAccount(hw, pos, 0, true, false);
      hw := SetPos(hw, pos);
    }

    /** route under the event pace. `gaps` are the cycles before each access, interrupts
        served in them and all. */
    method Select(pos: nat, neg: nat, pair: bool, gaps: seq<nat>)
      requires Valid() && hw.armed && |gaps| == 5
      modifies this
      ensures Valid() && hw.armed && hw.regs == Input(pos, if pair then neg else old(hw).regs.neg, pair)
      ensures hw.aborted <= old(hw.aborted) + 1
      ensures var w := Stopped(divisor, pair, gaps);
        && (w <= pace.period ==> hw.lost <= old(hw.lost) + 1)
        && (pace.longest + w <= pace.period ==> hw.aborted + hw.lost <= old(hw.aborted) + old(hw.lost) + 1)
    {
      hide Labelled, Timed, Losing, Due, SetCommand, SetNeg, SetPos, Accounted;
      var was := diff;
      diff := pair;
      ghost var before, stopped, w;
      before, stopped, w := Halt(was, gaps[0], gaps[1]);
      if pair {
        w := StoreNeg(neg, gaps[2], stopped, w);
      }
      w := StorePos(pos, gaps[3], stopped, w);
      ghost var from := hw;
      Elapse(gaps[4]);
      LosingTrans(pace, stopped, from, hw, w, gaps[4]);
      w := w + gaps[4];
      AtMostOne(pace, before, stopped, hw, w);
      Moves(pace, hw, pos, neg, pair);
      StoresAccount(hw, pos, neg, true, pair);
      hw := SetCommand(hw, true, pair);
    }
  }

  /** Cycles a select keeps the STOP. */
  function Stopped(divisor: nat, pair: bool, gaps: seq<nat>): nat
    requires |gaps| == 5
  {
    gaps[1] + 3 * LatencyLoops(divisor) + (if pair then gaps[2] else 0) + gaps[3] + gaps[4]
  }

  lemma NothingLeft(p: Pace, h: Adc)
    requires Timed(p, h) && Due(h) == 0
    ensures h.landing.None? && h.ready.None?
  {
  }

  lemma Covers(divisor: nat)
    requires divisor in EA
    ensures Late(divisor) + 1 <= 3 * LatencyLoops(divisor) && LatencyLoops(divisor) >= 1
  {
  }

  lemma StopKeeps(p: Pace, h: Adc, diff: bool)
    requires Labelled(h) && Timed(p, h) && h.regs.diff == diff
    ensures var t := SetCommand(h, false, diff);
      && Labelled(t) && Timed(p, t) && !t.armed && t.regs == h.regs && Due(t) <= p.late + 1
      && t.aborted <= h.aborted + 1 && t.lost == h.lost && t.since == h.since
      && (t.aborted == h.aborted + 1 ==> h.since < p.longest)
  {
  }

  /** With nothing converting, landing or waiting the mux moves and no label lies. */
  lemma Moves(p: Pace, h: Adc, pos: nat, neg: nat, diff: bool)
    requires Labelled(h) && Timed(p, h) && !h.armed && Due(h) == 0
    ensures var t := SetNeg(h, neg);
      && Labelled(t) && Timed(p, t) && Due(t) == 0 && t == h.(regs := h.regs.(neg := neg))
    ensures var t := SetPos(h, pos);
      && Labelled(t) && Timed(p, t) && Due(t) == 0 && t == h.(regs := h.regs.(pos := pos))
    ensures var t := SetCommand(h, true, diff);
      && Labelled(t) && Timed(p, t) && t == h.(regs := h.regs.(diff := diff), armed := true)
  {
  }

  lemma LosingSame(p: Pace, h: Adc, m: Adc, t: Adc, n: nat)
    requires Losing(p, h, m, n) && t.lost == m.lost && t.since == m.since
    ensures Losing(p, h, t, n)
  {
  }

  lemma AtMostOne(p: Pace, before: Adc, stopped: Adc, h: Adc, w: nat)
    requires Losing(p, stopped, h, w) && stopped.lost == before.lost && stopped.since == before.since
    requires stopped.aborted <= before.aborted + 1 && h.aborted == stopped.aborted
    requires stopped.aborted == before.aborted + 1 ==> before.since < p.longest
    ensures w <= p.period ==> h.lost <= before.lost + 1
    ensures p.longest + w <= p.period ==> h.aborted + h.lost <= before.aborted + before.lost + 1
  {
    hide Losing;
    LosingGrows(p, stopped, h, w);
    if h.lost >= stopped.lost + 2 {
      AtLeastTwo(p, stopped, h, w);
    } else if h.lost > stopped.lost && before.since < p.longest {
      AtLeastOne(p, stopped, h, w);
    }
  }

  lemma LosingGrows(p: Pace, h: Adc, t: Adc, n: nat)
    requires Losing(p, h, t, n)
    ensures t.lost >= h.lost
  {
  }

  // ---- what each part of it is for ------------------------------------------------------------

  /** One loop less, and for every prescaler a result past its end at the STOP is still
      on its way when the mux moves. */
  lemma ShortWaitLies(i: nat, p: Pace, h: Adc, acts: seq<Act>, pos: nat)
    requires i < 16 && p.late == Late(EA[i]) && p.longest > p.late
    requires Labelled(h) && Timed(p, h) && !h.armed && pos != h.regs.pos
    requires h.landing == Some(Landing(Sampled(h.regs, false), p.late))
    requires |acts| == 3 * (LatencyLoops(EA[i]) - 1)
    ensures !Labelled(SetPos(Run(p, h, acts), pos))
  {
    LoopsCover(i);
    RunKeeps(p, h, acts);
    RunClears(p, h, acts);
    hide Run;
    var t := Run(p, h, acts);
    assert t.landing.Some? || t.ready.Some?;
  }

  /** With interrupts off the wait is for nothing: the result lands, is not read, and is
      read under the next input's label. */
  lemma MaskedLies(p: Pace, h: Adc, a: Act, pos: nat)
    requires Labelled(h) && !h.armed && h.converting.None? && pos != h.regs.pos
    requires h.landing.Some? && h.landing.value.left == 1
    ensures var t := Serve(SetPos(Masked(p, h, a), pos));
      t.log != [] && !Whole(t.log[|t.log| - 1].of, t.log[|t.log| - 1].tag)
  {
  }

  // ---- what a select costs at most, exactly ---------------------------------------------------

  /** What `w` cycles behind a STOP cost: one conversion or none, and `lost` triggers. */
  ghost predicate Costs(p: Pace, h: Adc, acts: seq<Act>, aborted: bool, lost: nat) {
    && Labelled(h) && Timed(p, h) && Accounted(h) && h.armed
    && var t := Run(p, SetCommand(h, false, h.regs.diff), acts);
      t.aborted == h.aborted + (if aborted then 1 else 0) && t.lost >= h.lost + lost
  }

  /** Triggers as often as the pace lets them come. */
  function Triggers(w: nat): (acts: seq<Act>)
    ensures |acts| == w
  {
    if w == 0 then [] else [Act(true, false, 1)] + Triggers(w - 1)
  }

  /** How many of them that is, in `w` cycles. */
  function Losses(period: nat, since: nat, w: nat): nat
    decreases w
  {
    if w == 0 then 0
    else if since + 1 < period then Losses(period, since + 1, w - 1)
    else 1 + Losses(period, 0, w - 1)
  }

  lemma {:induction false} TriggersLose(p: Pace, h: Adc, w: nat)
    requires Labelled(h) && Timed(p, h) && !h.armed && p.longest > p.late >= 1
    ensures Run(p, h, Triggers(w)).lost == h.lost + Losses(p.period, h.since, w)
    ensures Run(p, h, Triggers(w)).aborted == h.aborted
    decreases w
  {
    if w > 0 {
      var a, t := Act(true, false, 1), Tick(p, h, Act(true, false, 1));
      TickKeeps(p, h, a);
      TickCounts(p, h);
      assert Triggers(w)[0] == a && Triggers(w)[1..] == Triggers(w - 1);
      hide Tick, Labelled, Timed;
      TriggersLose(p, t, w - 1);
    }
  }

  lemma TickCounts(p: Pace, h: Adc)
    requires Timed(p, h) && !h.armed
    ensures var t := Tick(p, h, Act(true, false, 1));
      if h.since + 1 < p.period then t.since == h.since + 1 && t.lost == h.lost
      else t.since == 0 && t.lost == h.lost + 1
  {
  }

  lemma {:induction false} SomeLost(period: nat, since: nat, w: nat)
    requires w >= 1 && since + w >= period
    ensures Losses(period, since, w) >= 1
    decreases w
  {
    if since + 1 < period {
      SomeLost(period, since + 1, w - 1);
    }
  }

  /** A conversion in its last cycle, as far behind its trigger as it can be. */
  function LastCycle(p: Pace, i: Input): Adc
    requires p.longest >= 1
  {
    Adc(i, true, Some(Conversion(Sampled(i, false), p.longest - 1)), None, None, p.longest - 1, 0, 0, [], 1, [])
  }

  /**
   A select costs a conversion or a trigger, and not both, exactly when the triggers come
   no faster than the longest conversion and the cycles of the STOP together.
  */
  lemma BothIff(p: Pace, w: nat)
    requires p.longest > p.late >= 1 && w >= 1
    ensures (exists h, acts :: |acts| == w && Costs(p, h, acts, true, 1)) <==> p.period < p.longest + w
  {
    if h, acts :| |acts| == w && Costs(p, h, acts, true, 1) {
      StopKeeps(p, h, h.regs.diff);
      var s := SetCommand(h, false, h.regs.diff);
      RunStopped(p, s, acts);
      RunLoses(p, s, acts);
      hide Labelled, Timed, Run;
      AtLeastOne(p, s, Run(p, s, acts), w);
    }
    if p.period < p.longest + w {
      var h := LastCycle(p, Input(0, 0, false));
      var s := SetCommand(h, false, false);
      StopKeeps(p, h, false);
      TriggersLose(p, s, w);
      SomeLost(p.period, s.since, w);
      hide Run, Labelled;
      assert Costs(p, h, Triggers(w), true, 1);
    }
  }

  lemma AtLeastOne(p: Pace, s: Adc, t: Adc, w: nat)
    requires Losing(p, s, t, w) && t.lost > s.lost && s.since < p.longest
    ensures p.period < p.longest + w
  {
    var k := t.lost - s.lost;
    assert t.since + p.period * k <= s.since + w;
    hide Losing;
    Times(1, k, p.period);
  }

  /** It costs two triggers at some moment exactly when the STOP outlasts a period. */
  lemma TwoLostIff(p: Pace, w: nat)
    requires p.longest > p.late >= 1 && p.period >= 1
    ensures (exists h, acts :: |acts| == w && Costs(p, h, acts, false, 2)) <==> p.period < w
  {
    if h, acts :| |acts| == w && Costs(p, h, acts, false, 2) {
      StopKeeps(p, h, h.regs.diff);
      var s := SetCommand(h, false, h.regs.diff);
      RunLoses(p, s, acts);
      hide Labelled, Timed, Run;
      AtLeastTwo(p, s, Run(p, s, acts), w);
    }
    if p.period < w {
      var h := Adc(Input(0, 0, false), true, None, None, None, p.period - 1, 0, 0, [], 0, []);
      var s := SetCommand(h, false, false);
      StopKeeps(p, h, false);
      TriggersLose(p, s, w);
      SomeLost(p.period, 0, w - 1);
      hide Run, Labelled;
      assert Losses(p.period, p.period - 1, w) == 1 + Losses(p.period, 0, w - 1);
      assert Costs(p, h, Triggers(w), false, 2);
    }
  }

  lemma AtLeastTwo(p: Pace, s: Adc, t: Adc, w: nat)
    requires Losing(p, s, t, w) && t.lost >= s.lost + 2
    ensures p.period < w
  {
    var k := t.lost - s.lost - 1;
    assert t.since + p.period * k < w;
    hide Losing;
    Times(1, k, p.period);
  }
}

/**
 The AVR EA's converter under an event pace, a cycle of CLK_PER at a time: an
 unbuffered mux, a STOP that aborts what converts but not a result past its
 conversion's end, and a RESRDY body that labels what it reads with the mux as it
 stands (brio/avrxt/adc.hpp:1166-1168, 1374-1420).
*/
module AdcSilicon {
  import opened Basics

  /** MUXPOS, MUXNEG and COMMAND's DIFF. */
  datatype Input = Input(pos: nat, neg: nat, diff: bool)

  /** What a conversion sampled; `mixed` when the mux moved under it. */
  datatype Sampled = Sampled(input: Input, mixed: bool)

  datatype Conversion = Conversion(of: Sampled, age: nat)

  datatype Landing = Landing(of: Sampled, left: nat)

  datatype Read = Read(of: Sampled, tag: Input)

  datatype Adc = Adc(
    regs: Input,
    armed: bool,                    // START = EVENT_TRIGGER
    converting: Option<Conversion>,
    landing: Option<Landing>,       // past its end, its result on the way
    ready: Option<Sampled>,         // RESRDY
    since: nat,                     // cycles since the last trigger
    aborted: nat,                   // conversions a STOP aborted
    lost: nat,                      // triggers that met a STOP
    log: seq<Read>,
    begun: nat,                     // conversions started
    ended: seq<Sampled>             // what those that ended sampled, in order
  )

  /** Cycles between triggers, of the longest conversion, and from an end to its result:
      half a CLK_ADC and a CLK_MAIN. */
  datatype Pace = Pace(period: nat, longest: nat, late: nat)

  /** What may happen in a cycle: a trigger, an end, and how late its result is. */
  datatype Act = Act(trigger: bool, ends: bool, late: nat)

  /** The RESRDY body, taken the cycle after the flag rose. */
  function Serve(h: Adc): Adc {
    match h.ready
    case None => h
    case Some(s) => h.(ready := None, log := h.log + [Read(s, h.regs)])
  }

  function Land(h: Adc): Adc {
    match h.landing
    case None => h
    case Some(l) =>
      if l.left > 1 then h.(landing := Some(Landing(l.of, l.left - 1)))
      else h.(landing := None, ready := Some(l.of))
  }

  function Convert(p: Pace, h: Adc, a: Act): Adc {
    match h.converting
    case None => h
    case Some(c) =>
      if h.landing.None? && (a.ends || c.age + 1 >= p.longest)
      then h.(converting := None, landing := Some(Landing(c.of, if 1 <= a.late <= p.late then a.late else 1)),
                  ended := h.ended + [c.of])
      else h.(converting := Some(Conversion(c.of, c.age + 1)))
  }

  /** An event starts a conversion, meets one that runs (TRIGOVR), or meets the STOP. */
  function Trigger(p: Pace, h: Adc, a: Act): Adc {
    if !a.trigger || h.since + 1 < p.period then h.(since := h.since + 1)
    else
      var t := h.(since := 0);
      if !h.armed then t.(lost := h.lost + 1)
      else if h.converting.None? then t.(converting := Some(Conversion(Sampled(h.regs, false), 0)), begun := h.begun + 1)
      else t
  }

  function Tick(p: Pace, h: Adc, a: Act): Adc {
    Trigger(p, Convert(p, Land(Serve(h)), a), a)
  }

  function Run(p: Pace, h: Adc, acts: seq<Act>): Adc
    decreases |acts|
  {
    if acts == [] then h else Run(p, Tick(p, h, acts[0]), acts[1..])
  }

  /** The same cycle with interrupts off. */
  function Masked(p: Pace, h: Adc, a: Act): Adc {
    Trigger(p, Convert(p, Land(h), a), a)
  }

  // ---- the registers -------------------------------------------------------------------

  function SetCommand(h: Adc, armed: bool, diff: bool): Adc {
    var t := h.(regs := h.regs.(diff := diff), armed := armed);
    if armed || h.converting.None? then t else t.(converting := None, aborted := h.aborted + 1)
  }

  /** The mux is not buffered: a store under a conversion mixes two inputs. */
  function Mix(c: Option<Conversion>): Option<Conversion> {
    match c case None => None case Some(v) => Some(Conversion(Sampled(v.of.input, true), v.age))
  }

  function SetPos(h: Adc, pos: nat): Adc {
    h.(regs := h.regs.(pos := pos), converting := Mix(h.converting))
  }

  function SetNeg(h: Adc, neg: nat): Adc {
    h.(regs := h.regs.(neg := neg), converting := Mix(h.converting))
  }
}

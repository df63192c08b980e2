/**
 The SPI block as a host in buffer mode: a transition per CLK_PER cycle
 (DS40002247B section 28.3.2.1.2, and the rules the driver's header measures).

 A transfer takes `period` cycles and waits for nobody. A byte written starts one, or
 is buffered behind the one under way. What a transfer brought - any byte at all - is
 in the FIFO of two a cycle after its end; with the FIFO full it is held in the shift
 register, where the next transfer to start overwrites it. A transfer that ends with
 nothing buffered raises TXCIF, a little later.
*/
module SpiHostSilicon {
  import opened Basics

  datatype Host = Host(
    period: nat,               // CLK_PER cycles of one transfer
    shifter: Option<byte>,     // the byte being shifted out
    left: nat,                 // cycles its transfer still takes
    buffer: Option<byte>,
    landing: Option<byte>,     // the byte entering the FIFO in the next cycle
    drying: nat,               // cycles before an empty transmitter shows as TXCIF
    fifo: seq<byte>,
    held: Option<byte>,
    last: byte,
    rxcif: bool,
    txcif: bool,
    bufovf: bool,
    // What has happened.
    wire: seq<byte>,           // the bytes sent, in order
    got: seq<byte>,            // the bytes received, in order
    lost: bool,                // a received byte was overwritten
    dropped: bool,             // a DATA write found the buffer full
    risked: bool               // a read emptied the FIFO with a byte under way
  )

  /** A transfer starts: what waits in the shift register is gone. */
  function Start(h: Host, b: byte): Host {
    var s := h.(shifter := Some(b), left := h.period);
    if h.held.Some? then s.(held := None, lost := true, bufovf := true) else s
  }

  /** Emptiness shows only while it lasts. */
  function ShowEmpty(h: Host): Host {
    h.(drying := if h.drying > 0 then h.drying - 1 else 0,
       txcif := h.txcif || (h.drying == 1 && h.shifter.None? && h.buffer.None?))
  }

  function Land(h: Host): Host {
    match h.landing
    case None => h
    case Some(b) =>
      if |h.fifo| < 2 then h.(landing := None, fifo := h.fifo + [b], rxcif := true)
      else if h.shifter.None? then h.(landing := None, held := Some(b))
      else h.(landing := None, lost := true, bufovf := true)
  }

  /** The shifter's cycle; the transfer it ends has brought `b`. */
  function Shift(h: Host, b: byte): Host {
    if h.shifter.None? then h
    else if h.left > 1 then h.(left := h.left - 1)
    else
      var e := h.(wire := h.wire + [h.shifter.value], got := h.got + [b], landing := Some(b),
                  shifter := None, left := 0);
      if h.buffer.Some? then Start(e.(buffer := None), h.buffer.value) else e.(drying := 2)
  }

  function Tick(h: Host, b: byte): Host {
    Shift(Land(ShowEmpty(h)), b)
  }

  /** The cycles in which the wire brings `bs`. */
  function Run(h: Host, bs: seq<byte>): Host
    decreases |bs|
  {
    if bs == [] then h else Run(Tick(h, bs[0]), bs[1..])
  }

  // ---- the registers ---------------------------------------------------------

  /** DREIF. */
  predicate Dre(h: Host) { h.buffer.None? }

  function Head(h: Host): byte {
    if h.fifo == [] then h.last else h.fifo[0]
  }

  /** A DATA read; of an only byte, with another landing, it removes nothing. */
  function AfterRead(h: Host): Host {
    var n := h.(risked := h.risked || (|h.fifo| <= 1 && (h.shifter.Some? || h.landing.Some?)));
    if h.fifo == [] then n.(rxcif := false)
    else if |h.fifo| == 1 && h.landing.Some? then
      n.(fifo := h.fifo + [h.landing.value], landing := None, rxcif := false, last := h.fifo[0])
    else
      var rest := h.fifo[1..] + Opt(h.held);
      n.(fifo := rest, held := None, rxcif := rest != [], last := h.fifo[0], bufovf := false)
  }

  /** A DATA write: the idle shifter, else the buffer; over a full buffer it is lost. */
  function AfterWrite(h: Host, v: byte): Host {
    if h.shifter.None? then Start(h, v)
    else if h.buffer.None? then h.(buffer := Some(v))
    else h.(dropped := true)
  }
}

/**
 The SPI block of the AVR DA/DB/EA as a client in buffer mode, seen from its
 registers: a transition per CLK_PER cycle, with the host on the other side of
 the wire free to do anything it can do (DS40002247B section 28.3.2.2.2, and the
 rules the driver's header states for it).

 - Answers: one being shifted, one buffered; DREIF means room for another. Where a
   transfer ends and none is buffered, TXCIF rises two cycles later.
 - Bytes: two in a FIFO, each entering it the cycle after its transfer; a third is
   held in the shift register, and the next transfer's start overwrites it, with
   BUFOVF or without.
 - A read of the FIFO's only byte while another is landing gives that byte and does
   not remove it.
*/
module SpiClientSilicon {
  import opened Basics

  /** The select pad over one window: not yet low, low, high again. */
  datatype Pad = Waiting | Open | Closed

  /** A received byte and the number of the transfer that brought it. The run copies
      it whole and looks at neither half: what the number is for is telling apart two
      transfers that brought the same value. */
  datatype Arrival = Arrival(value: byte, transfer: nat)

  datatype Client = Client(
    bufwr: bool,               // CTRLB.BUFWR
    quota: nat,                // how many transfers the host will start in this window
    pad: Pad,
    shifting: bool,            // the host is clocking a transfer
    loaded: Option<byte>,      // the answer the shift register holds
    buffer: Option<byte>,      // the transmit buffer
    landing: Option<Arrival>,  // the byte entering the FIFO in the next cycle
    drying: nat,               // cycles before a dry end shows as TXCIF (0: none pending)
    fifo: seq<Arrival>,
    held: Option<Arrival>,     // a received byte waiting in the shift register
    last: Arrival,             // the byte read last
    rxcif: bool,
    txcif: bool,
    bufovf: bool,
    // What has happened in this window.
    begun: nat,                // transfers started
    clocked: seq<Arrival>,     // what the ended transfers brought, in order
    sent: seq<byte>,           // the answers moved into the shift register, in order
    dryAt: Option<nat>,        // the first transfer that ended with no answer buffered
    over: Option<nat>          // the first transfer whose byte was overwritten in the shift register
  )

  /** What the host, or the silicon's own latitude, does in one cycle. */
  datatype Act =
    | Quiet
    | Fall
    | Rise
    | Begin(flagged: bool)     // a transfer starts; BUFOVF is raised for a lost byte, or is not
    | End(value: byte)         // a transfer ends, having brought `value`
    | Copy                     // an answer written to a transmitter run dry moves into the shifter

  /** A dry end shows as TXCIF, two cycles after it. */
  function ShowDry(h: Client): Client {
    h.(txcif := h.txcif || h.drying == 1, drying := if h.drying > 0 then h.drying - 1 else 0)
  }

  /** The byte of the transfer just ended enters the FIFO, or waits behind it. */
  function Land(h: Client): Client {
    match h.landing
    case None => h
    case Some(b) =>
      if |h.fifo| < 2 then h.(landing := None, fifo := h.fifo + [b], rxcif := true)
      else h.(landing := None, held := Some(b))
  }

  /** Under BUFWR, with the select high, a write goes straight on into the shifter. */
  function Straight(h: Client): Client {
    if h.bufwr && h.pad == Waiting && h.loaded.None? && h.buffer.Some? then MoveAnswer(h) else h
  }

  /** What a cycle completes by itself, before anything new happens in it. */
  function Settle(h: Client): Client {
    Straight(Land(ShowDry(h)))
  }

  function MoveAnswer(h: Client): Client
    requires h.buffer.Some?
  {
    h.(loaded := h.buffer, buffer := None, sent := h.sent + [h.buffer.value])
  }

  /** Can this happen now? Nothing moves once the select is high again, but an
      answer written to a dry transmitter. */
  predicate Possible(h: Client, a: Act) {
    match a
    case Quiet => true
    case Fall => h.pad == Waiting
    case Rise => h.pad == Open
    case Begin(_) => h.pad == Open && !h.shifting && h.landing.None? && h.drying == 0 && h.begun < h.quota
    case End(_) => h.pad == Open && h.shifting && h.landing.None? && h.drying == 0
    case Copy => h.buffer.Some? && h.loaded.None? && !h.shifting && h.dryAt.Some? && h.drying == 0
  }

  function Do(h: Client, a: Act): Client
    requires Possible(h, a)
  {
    match a
    case Quiet => h
    case Fall => h.(pad := Open)
    case Rise => h.(pad := Closed, shifting := false)
    case Begin(flagged) =>
      if h.held.None? then h.(shifting := true, begun := h.begun + 1)
      else h.(shifting := true, begun := h.begun + 1, held := None,
              over := if h.over.None? then Some(h.held.value.transfer) else h.over,
              bufovf := h.bufovf || flagged)
    case End(b) =>
      var a := Arrival(b, |h.clocked|);
      var e := h.(shifting := false, landing := Some(a), clocked := h.clocked + [a]);
      if h.buffer.Some? then MoveAnswer(e)
      else e.(loaded := None, drying := 2,
              dryAt := if h.dryAt.None? then Some(|h.clocked|) else h.dryAt)
    case Copy => MoveAnswer(h)
  }

  /** One cycle of CLK_PER; an act that cannot happen is a quiet cycle. */
  function Tick(h: Client, a: Act): Client {
    var s := Settle(h);
    if Possible(s, a) then Do(s, a) else s
  }

  function Run(h: Client, acts: seq<Act>): Client
    decreases |acts|
  {
    if acts == [] then h else Run(Tick(h, acts[0]), acts[1..])
  }

  // ---- the registers ---------------------------------------------------------

  datatype Flags = Flags(dre: bool, txc: bool, ovf: bool, rxc: bool)

  function FlagsOf(h: Client): Flags {
    Flags(h.buffer.None?, h.txcif, h.bufovf, h.rxcif)
  }

  /** What a DATA read returns. */
  function Head(h: Client): Arrival {
    if h.fifo == [] then h.last else h.fifo[0]
  }

  /** A DATA read takes the head, and makes room for the byte held - unless another is
      landing behind an only one. */
  function AfterRead(h: Client): Client {
    if h.fifo == [] then h.(rxcif := false)
    else if |h.fifo| == 1 && h.landing.Some? then
      h.(fifo := h.fifo + [h.landing.value], landing := None, rxcif := false, last := h.fifo[0])
    else
      var rest := h.fifo[1..] + Opt(h.held);
      h.(fifo := rest, held := None, rxcif := rest != [], last := h.fifo[0], bufovf := false)
  }

  /** A DATA write: into the buffer; a write over a full buffer is dropped. */
  function AfterWrite(h: Client, v: byte): Client {
    if h.buffer.None? then h.(buffer := Some(v)) else h
  }
}

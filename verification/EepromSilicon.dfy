/**
 The EEPROM of the AVR EA, NVM version 3 (DS40002443A chapter 11, as the driver's
 header measures it): a page buffer indexed by three address bits, which a load ANDs
 into and a command written to CTRLA starts on.
*/
module EepromSilicon {
  import opened Basics

  const SIZE: nat := 512
  const PAGE: nat := 8

  datatype Op = Write | Erase | EraseWrite

  datatype Command = NoCmd | BufferClear | PageOp(op: Op)

  /** The bytes loaded, by their offset in the page. */
  type Buffer = map<nat, bv8>

  datatype Running = Running(op: Op, page: nat, loaded: Buffer)

  datatype Nvm = Nvm(
    cells: seq<bv8>,
    cycles: seq<nat>,          // operations each byte has been through
    buffer: Buffer,
    page: nat,                 // of the last load
    running: Option<Running>,
    started: seq<nat>,         // the page of every operation started, in order
    collided: bool,            // CTRLA was written while one ran
    protected: bool,           // EEWP
    command: Command
  )

  ghost predicate Shaped(h: Nvm) {
    && |h.cells| == SIZE && |h.cycles| == SIZE && h.page < SIZE / PAGE
    && (forall k :: k in h.buffer ==> k < PAGE)
    && (h.running.Some? ==> h.running.value.page < SIZE / PAGE
                            && forall k :: k in h.running.value.loaded ==> k < PAGE)
  }

  /** What an operation leaves in a byte that was loaded. */
  function Result(op: Op, was: bv8, loaded: bv8): bv8 {
    match op
    case Write => was & loaded
    case Erase => 0xFF
    case EraseWrite => loaded
  }

  predicate Reaches(r: Running, i: nat) { i / PAGE == r.page && i % PAGE in r.loaded }

  function Applied(cells: seq<bv8>, r: Running): (c: seq<bv8>)
    ensures |c| == |cells|
    ensures forall i :: 0 <= i < |c| ==>
      c[i] == if Reaches(r, i) then Result(r.op, cells[i], r.loaded[i % PAGE]) else cells[i]
  {
    seq(|cells|, i requires 0 <= i < |cells| =>
      if Reaches(r, i) then Result(r.op, cells[i], r.loaded[i % PAGE]) else cells[i])
  }

  function Worn(cycles: seq<nat>, r: Running): (c: seq<nat>)
    ensures |c| == |cycles|
    ensures forall i :: 0 <= i < |c| ==> c[i] == cycles[i] + if Reaches(r, i) then 1 else 0
  {
    seq(|cycles|, i requires 0 <= i < |cycles| => cycles[i] + if Reaches(r, i) then 1 else 0)
  }

  /** The running operation ends; the buffer clears with it. */
  function Finish(h: Nvm): Nvm {
    match h.running
    case None => h
    case Some(r) => h.(cells := Applied(h.cells, r), cycles := Worn(h.cycles, r), buffer := map[], running := None)
  }

  /** What time may do: an operation ends, or does not yet. */
  ghost predicate Elapsed(h: Nvm, t: Nvm) { t == h || t == Finish(h) }

  /** A load: into the buffer, over whatever is there, bit by bit. Any bus access waits
      until no operation runs. */
  function AfterLoad(h: Nvm, offset: nat, v: bv8): Nvm {
    var d, k := Finish(h), offset % PAGE;
    d.(buffer := d.buffer[k := if k in d.buffer then d.buffer[k] & v else v], page := offset / PAGE)
  }

  /** CTRLA: refused while an operation runs; a page command starts one on what is
      loaded, if anything is and EEWP allows. */
  function AfterCommand(h: Nvm, c: Command): Nvm {
    if h.running.Some? then h.(collided := true)
    else
      match c
      case NoCmd => h.(command := c)
      case BufferClear => h.(command := c, buffer := map[])
      case PageOp(op) =>
        if h.buffer == map[] || h.protected then h.(command := c)
        else h.(command := c, running := Some(Running(op, h.page, h.buffer)), started := h.started + [h.page])
  }

  // ---- what the driver promises about it ------------------------------------------------

  /** `src` in place. */
  function Placed(cells: seq<bv8>, offset: nat, src: seq<bv8>): (c: seq<bv8>)
    ensures |c| == |cells|
    ensures forall i :: 0 <= i < |c| ==>
      c[i] == if offset <= i < offset + |src| then src[i - offset] else cells[i]
  {
    seq(|cells|, i requires 0 <= i < |cells| =>
      if offset <= i < offset + |src| then src[i - offset] else cells[i])
  }

  /** Is the i-th byte one of those wanted from `offset` on? */
  predicate Wanted(offset: nat, want: seq<bool>, i: nat) {
    offset <= i < offset + |want| && want[i - offset]
  }

  /** An operation over the bytes wanted. */
  function Over(cells: seq<bv8>, op: Op, offset: nat, src: seq<bv8>, want: seq<bool>): (c: seq<bv8>)
    requires |want| <= |src|
    ensures |c| == |cells|
    ensures forall i :: 0 <= i < |c| ==>
      c[i] == if Wanted(offset, want, i) then Result(op, cells[i], src[i - offset]) else cells[i]
  {
    seq(|cells|, i requires 0 <= i < |cells| =>
      if Wanted(offset, want, i) then Result(op, cells[i], src[i - offset]) else cells[i])
  }

  function OneMore(cycles: seq<nat>, offset: nat, want: seq<bool>): (c: seq<nat>)
    ensures |c| == |cycles|
    ensures forall i :: 0 <= i < |c| ==> c[i] == cycles[i] + if Wanted(offset, want, i) then 1 else 0
  {
    seq(|cycles|, i requires 0 <= i < |cycles| => cycles[i] + if Wanted(offset, want, i) then 1 else 0)
  }

  predicate Differs(cells: seq<bv8>, offset: nat, src: seq<bv8>, i: nat) {
    offset <= i < offset + |src| && i < |cells| && cells[i] != src[i - offset]
  }

  /** One more cycle for every byte that changed. */
  function Cycled(cycles: seq<nat>, cells: seq<bv8>, offset: nat, src: seq<bv8>): (c: seq<nat>)
    ensures |c| == |cycles|
    ensures forall i :: 0 <= i < |c| ==> c[i] == cycles[i] + if Differs(cells, offset, src, i) then 1 else 0
  {
    seq(|cycles|, i requires 0 <= i < |cycles| => cycles[i] + if Differs(cells, offset, src, i) then 1 else 0)
  }

  predicate AnyDiffers(cells: seq<bv8>, offset: nat, src: seq<bv8>) {
    exists i :: 0 <= i < |cells| && Differs(cells, offset, src, i)
  }

  /** A run that stays in its page and in the array. */
  predicate IsRun(offset: nat, len: nat) {
    0 < len <= PAGE - offset % PAGE && offset < SIZE
  }

  // ---- the cheapest operation ---------------------------------------------------------------

  /** Half an erase-and-write each. */
  function Halves(op: Op): nat { if op == EraseWrite then 2 else 1 }

  /** The chapter's precondition of a write: the bytes read 0xFF (section 11.3.2.4.1). */
  ghost predicate Legal(cells: seq<bv8>, r: Running) {
    r.op == Write ==> forall i :: 0 <= i < |cells| && Reaches(r, i) ==> cells[i] == 0xFF
  }

  function Choice(cells: seq<bv8>, offset: nat, src: seq<bv8>): Op {
    if forall i :: 0 <= i < |cells| && Differs(cells, offset, src, i) ==> src[i - offset] == 0xFF then Erase
    else if forall i :: 0 <= i < |cells| && Differs(cells, offset, src, i) ==> cells[i] == 0xFF then Write
    else EraseWrite
  }

  /** No legal operation that leaves `src` in place, and nothing else changed, is cheaper
      than the one chosen - and none spares a byte that differs. */
  lemma CheapestChoice(cells: seq<bv8>, offset: nat, src: seq<bv8>, r: Running)
    requires Legal(cells, r) && Applied(cells, r) == Placed(cells, offset, src)
    ensures Halves(Choice(cells, offset, src)) <= Halves(r.op)
    ensures forall i :: 0 <= i < |cells| && Differs(cells, offset, src, i) ==> Reaches(r, i)
  {
    forall i | 0 <= i < |cells| && Differs(cells, offset, src, i)
      ensures Reaches(r, i) && (r.op == Erase ==> src[i - offset] == 0xFF) && (r.op == Write ==> cells[i] == 0xFF) {
      assert Applied(cells, r)[i] == Placed(cells, offset, src)[i];
    }
  }

  // ---- why a run stays in its page, and opens with EEPBCLR -----------------------------------

  /** Loads in two pages land in the last one's: the first byte stays as it was, and a
      byte nobody meant takes its value. */
  lemma LastPageWins(h: Nvm, a: nat, v: bv8, b: nat, w: bv8, op: Op)
    requires Shaped(h) && h.running.None? && h.buffer == map[] && !h.protected
    requires a < SIZE && b < SIZE && a / PAGE != b / PAGE && a % PAGE != b % PAGE
    ensures var t := Finish(AfterCommand(AfterLoad(AfterLoad(h, a, v), b, w), PageOp(op)));
      var stray := b / PAGE * PAGE + a % PAGE;
      t.cells[a] == h.cells[a] && t.cells[stray] == Result(op, h.cells[stray], v)
  {
    var l := AfterLoad(AfterLoad(h, a, v), b, w);
    var r := Running(op, b / PAGE, l.buffer);
    assert l.buffer == map[a % PAGE := v, b % PAGE := w];
    var stray := b / PAGE * PAGE + a % PAGE;
    assert stray / PAGE == b / PAGE && stray % PAGE == a % PAGE;
    assert Reaches(r, stray) && !Reaches(r, a);
  }

  /** A byte left in the buffer by someone else rides along, ANDed into what is stored
      over it. */
  lemma LeftoverRides(h: Nvm, a: nat, left: bv8, v: bv8)
    requires Shaped(h) && h.running.None? && h.buffer == map[a % PAGE := left] && !h.protected && a < SIZE
    ensures var t := Finish(AfterCommand(AfterLoad(h, a, v), PageOp(EraseWrite))); t.cells[a] == left & v
  {
    assert Reaches(Running(EraseWrite, a / PAGE, AfterLoad(h, a, v).buffer), a);
  }
}

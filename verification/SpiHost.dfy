/**
 SpiHost's polled burst (brio/avrxt/spi.hpp), which counts bytes and asks DREIF alone
 (DS40002247B section 28.3.2.1.2). Any number of cycles passes before every register
 access, so an interrupt of any length may fall anywhere - but for one place: the last
 write and the store that clears TXCIF have interrupts masked around them.
*/
module SpiHostBurst {
  import opened Basics
  import opened SpiHostSilicon
  import opened SpiHostInvariant

  lemma {:induction false} RunSnoc(h: Host, bs: seq<byte>, b: byte)
    ensures Run(h, bs + [b]) == Tick(Run(h, bs), b)
    decreases |bs|
  {
    if bs == [] {
      assert [b][1..] == [] && Run(Tick(h, b), []) == Tick(h, b);
    } else {
      assert (bs + [b])[1..] == bs[1..] + [b];
      RunSnoc(Tick(h, bs[0]), bs[1..], b);
    }
  }

  /** The cells stored so far hold the first bytes received since `g`; no other moved. */
  ghost predicate Stored(hasIn: bool, cells: seq<byte>, was: seq<byte>, got: seq<byte>, g: nat, q: nat) {
    && |cells| == |was| && g + q <= |got|
    && (hasIn ==> q <= |cells| && cells[..q] == got[g..g + q] && cells[q..] == was[q..])
    && (!hasIn ==> cells == was)
  }

  lemma StoredOn(hasIn: bool, cells: seq<byte>, was: seq<byte>, got: seq<byte>, more: seq<byte>, g: nat, q: nat)
    requires Stored(hasIn, cells, was, got, g, q) && got <= more
    ensures Stored(hasIn, cells, was, more, g, q)
  {
    assert more[g..g + q] == got[g..g + q];
  }

  lemma StoredNext(hasIn: bool, cells: seq<byte>, next: seq<byte>, was: seq<byte>, got: seq<byte>, g: nat, q: nat)
    requires Stored(hasIn, cells, was, got, g, q) && g + q < |got| && |next| == |cells|
    requires hasIn ==> q < |cells| && next == cells[q := got[g + q]]
    requires !hasIn ==> next == cells
    ensures Stored(hasIn, next, was, got, g, q + 1)
  {
    if hasIn {
      assert next[..q + 1] == cells[..q] + [got[g + q]];
      assert got[g..g + q + 1] == got[g..g + q] + [got[g + q]];
      assert next[q + 1..] == was[q + 1..];
    }
  }

  /** TXCIF written one: cleared. */
  function Cleared(h: Host): Host { h.(txcif := false) }

  class SpiHost {
    var hw: Host

    /** `atLeast` cycles pass, or up to `upTo` of them. */
    method Elapse(atLeast: nat, upTo: Option<nat>) returns (ghost bs: seq<byte>)
      requires upTo.Some? ==> atLeast <= upTo.value
      modifies this
      ensures |bs| >= atLeast && (upTo.Some? ==> |bs| <= upTo.value) && hw == Run(old(hw), bs)
    {
      var n :| atLeast <= n && (upTo.Some? ==> n <= upTo.value);
      var i := 0;
      bs := [];
      while i < n
        invariant 0 <= i <= n && |bs| == i && hw == Run(old(hw), bs)
      {
        var b: byte := *;
        RunSnoc(old(hw), bs, b);
        hw := Tick(hw, b);
        bs := bs + [b];
        i := i + 1;
      }
    }

    /** The cycles of one access and whatever interrupts it. */
    method Pass(ghost s: Host, ghost written: seq<byte>, ghost read: nat)
      requires Inv(s, hw, written, read)
      modifies this
      ensures Inv(s, hw, written, read) && Passed(old(hw), hw)
    {
      ghost var was := hw;
      ghost var bs := Elapse(2, None);
      RunKeeps(s, was, bs, written, read);
    }

    /** A DATA store on DREIF. */
    method Store(v: byte, ghost s: Host, ghost written: seq<byte>, ghost read: nat)
      requires Inv(s, hw, written, read) && Dre(hw) && |written| < read + 3
      modifies this
      ensures Inv(s, hw, written + [v], read) && hw.shifter.Some?
      ensures (old(hw).shifter.None? ==> Dre(hw)) && old(hw).got <= hw.got
    {
      Pass(s, written, read);
      WriteKeeps(s, hw, v, written, read);
      hide Inv;
      hw := AfterWrite(hw, v);
    }

    /** A DATA load with a byte to leave behind, or nothing under way; stored when the
        shape wants it. */
    method ReadIn(hasIn: bool, into: array<byte>, q: nat, ghost s: Host, ghost written: seq<byte>)
      requires Inv(s, hw, written, q) && (hasIn ==> q < into.Length)
      requires |Inbox(hw)| >= 1 && (|Inbox(hw)| >= 2 || (hw.txcif && Pending(hw)))
      modifies this, into
      ensures Inv(s, hw, written, q + 1) && (old(hw).txcif ==> hw.txcif)
      ensures |s.got| + q < |hw.got| && old(hw).got <= hw.got
      ensures Dre(old(hw)) ==> Dre(hw)
      ensures Pending(old(hw)) ==> Pending(hw)
      ensures into[..] == if hasIn then old(into[..])[q := hw.got[|s.got| + q]] else old(into[..])
      ensures |Inbox(hw)| >= |Inbox(old(hw))| - 1
    {
      Pass(s, written, q);
      ReadKeeps(s, hw, written, q);
      ReadMoves(hw);
      hide Inv, AfterRead, Passed;
      var v := Head(hw);
      hw := AfterRead(hw);
      if hasIn {
        into[q] := v;
      }
    }

    /** DREIF waited for: with a byte in the buffer one is in the shifter, and its
        cycles run out. */
    method WaitDre(ghost s: Host, ghost written: seq<byte>, ghost read: nat)
      requires Inv(s, hw, written, read)
      modifies this
      ensures Inv(s, hw, written, read) && Dre(hw) && old(hw).got <= hw.got
    {
      Pass(s, written, read);
      while !Dre(hw)
        invariant Inv(s, hw, written, read) && old(hw).got <= hw.got
        decreases Busy(hw)
      {
        Pass(s, written, read);
      }
    }

    /** The two stores nothing may come between: the last byte, and the one that clears
        TXCIF before that byte can be through. */
    method StoreLast(v: byte, ghost s: Host, ghost written: seq<byte>, ghost read: nat)
      requires Inv(s, hw, written, read) && Dre(hw) && |written| < read + 3
      modifies this
      ensures Inv(s, hw, written + [v], read) && Pending(hw) && old(hw).got <= hw.got
    {
      Pass(s, written, read);
      WriteKeeps(s, hw, v, written, read);
      hw := AfterWrite(hw, v);
      ghost var was := hw;
      ghost var bs := Elapse(1, Some(8));
      RunKeeps(s, was, bs, written + [v], read);
      assert Work(hw) > 0;
      hide Run, AfterWrite;
      ClearKeeps(s, hw, written + [v], read);
      hw := Cleared(hw);
    }

    /** TXCIF waited for: what it speaks of is under way, and ends. */
    method WaitTxc(ghost s: Host, ghost written: seq<byte>, ghost read: nat)
      requires Inv(s, hw, written, read) && Pending(hw)
      modifies this
      ensures Inv(s, hw, written, read) && Pending(hw) && hw.txcif && old(hw).got <= hw.got
    {
      Pass(s, written, read);
      while !hw.txcif
        invariant Inv(s, hw, written, read) && Pending(hw) && old(hw).got <= hw.got
        decreases Busy(hw)
      {
        Pass(s, written, read);
      }
    }

    /** A read whose byte the count has proved there, the cell behind the last one. */
    method StepIn(hasIn: bool, into: array<byte>, q: nat, ghost s: Host, ghost written: seq<byte>, ghost was: seq<byte>)
      requires Inv(s, hw, written, q) && (hasIn ==> q < into.Length) && Stored(hasIn, into[..], was, hw.got, |s.got|, q)
      requires (Dre(hw) && |written| == q + 3) || (hw.txcif && Pending(hw) && q < |written|)
      modifies this, into
      ensures Inv(s, hw, written, q + 1) && Stored(hasIn, into[..], was, hw.got, |s.got|, q + 1)
      ensures (Dre(old(hw)) ==> Dre(hw)) && (Pending(old(hw)) ==> Pending(hw)) && (old(hw).txcif ==> hw.txcif)
    {
      InboxSize(s, hw, written, q);
      hide Inv, Stored;
      ghost var got, cells := hw.got, into[..];
      ReadIn(hasIn, into, q, s, written);
      hide Pending, Dre, Inbox;
      StoredOn(hasIn, cells, was, got, hw.got, |s.got|, q);
      StoredNext(hasIn, cells, into[..], was, hw.got, |s.got|, q);
    }

    /** The next byte of the burst, on DREIF, with what was stored untouched. */
    method StoreNext(hasOut: bool, out: seq<byte>, count: nat, o: nat,
                     ghost s: Host, ghost q: nat, ghost hasIn: bool, ghost cells: seq<byte>, ghost was: seq<byte>)
      requires (hasOut ==> count <= |out|) && o < count && o < q + 3
      requires Inv(s, hw, Line(hasOut, out, 0xFF, count)[..o], q) && Dre(hw)
      requires Stored(hasIn, cells, was, hw.got, |s.got|, q)
      modifies this
      ensures Inv(s, hw, Line(hasOut, out, 0xFF, count)[..o + 1], q)
      ensures (old(hw).shifter.None? ==> Dre(hw)) && old(hw).got <= hw.got
      ensures Stored(hasIn, cells, was, hw.got, |s.got|, q)
    {
      hide Inv, Stored;
      ghost var line, got := Line(hasOut, out, 0xFF, count), hw.got;
      Store(if hasOut then out[o] else 0xFF, s, line[..o], q);
      assert line[..o + 1] == line[..o] + [line[o]];
      StoredOn(hasIn, cells, was, got, hw.got, |s.got|, q);
    }

    /** With two bytes unread: a wait for room, a read that leaves one of them, a write -
        for all but the last byte to send. */
    method Steady(hasOut: bool, out: seq<byte>, hasIn: bool, into: array<byte>, count: nat, ghost s: Host)
      returns (o: nat, q: nat)
      requires 3 < count <= 0xFFFF && (hasOut ==> count <= |out|) && (hasIn ==> count <= into.Length)
      requires Inv(s, hw, Line(hasOut, out, 0xFF, count)[..2], 0) && Dre(hw)
      requires Stored(hasIn, into[..], into[..], hw.got, |s.got|, 0)
      modifies this, into
      ensures o == count - 1 && q == count - 3
      ensures Inv(s, hw, Line(hasOut, out, 0xFF, count)[..o], q) && Dre(hw)
      ensures Stored(hasIn, into[..], old(into[..]), hw.got, |s.got|, q)
    {
      hide Inv, Stored, Dre, Line;
      ghost var line, was := Line(hasOut, out, 0xFF, count), into[..];
      StoreNext(hasOut, out, count, 2, s, 0, hasIn, into[..], was);
      o, q := 3, 0;
      var c := count - 3;
      while true
        invariant 1 <= c && o == count - c && o == q + 3
        invariant Inv(s, hw, line[..o], q) && Stored(hasIn, into[..], was, hw.got, |s.got|, q)
        decreases c
      {
        ghost var got := hw.got;
        WaitDre(s, line[..o], q);
        StoredOn(hasIn, into[..], was, got, hw.got, |s.got|, q);
        StepIn(hasIn, into, q, s, line[..o], was);
        q := q + 1;
        c := c - 1;
        if c == 0 {
          break;
        }
        StoreNext(hasOut, out, count, o, s, q, hasIn, into[..], was);
        o := o + 1;
      }
    }

    /** The last one, two or three bytes, with nothing left to arrive. */
    method Tail(hasIn: bool, into: array<byte>, tail0: nat, q0: nat, ghost s: Host, ghost line: seq<byte>, ghost was: seq<byte>)
      requires Inv(s, hw, line, q0) && Pending(hw) && hw.txcif && 1 <= tail0 == |line| - q0
      requires (hasIn ==> |line| <= into.Length) && Stored(hasIn, into[..], was, hw.got, |s.got|, q0)
      modifies this, into
      ensures Idle(hw) && Clean(s, hw) && hw.wire == s.wire + line && |hw.got| == |s.got| + |line| && s.got <= hw.got
      ensures Stored(hasIn, into[..], was, hw.got, |s.got|, |line|)
    {
      hide Stored, Pending, Dre, Inv;
      var tail, q := tail0, q0;
      while true
        invariant 1 <= tail == |line| - q && Inv(s, hw, line, q) && Pending(hw) && hw.txcif
        invariant Stored(hasIn, into[..], was, hw.got, |s.got|, q)
        decreases tail
      {
        StepIn(hasIn, into, q, s, line, was);
        q := q + 1;
        tail := tail - 1;
        if tail == 0 {
          break;
        }
      }
      Finished(s, hw, line, q);
    }

    /** All but the last byte to send: two that need no wait, and the others, each behind
        one. `tail` bytes stay to be read. */
    method Fill(hasOut: bool, out: seq<byte>, hasIn: bool, into: array<byte>, count: nat, ghost s: Host)
      returns (tail: nat, o: nat, q: nat)
      requires 1 <= count <= 0xFFFF && (hasOut ==> count <= |out|) && (hasIn ==> count <= into.Length)
      requires Inv(s, hw, [], 0) && Dre(hw) && hw.shifter.None?
      requires Stored(hasIn, into[..], into[..], hw.got, |s.got|, 0)
      modifies this, into
      ensures o == count - 1 && count == q + tail && 1 <= tail <= 3
      ensures Inv(s, hw, Line(hasOut, out, 0xFF, count)[..o], q) && Dre(hw)
      ensures Stored(hasIn, into[..], old(into[..]), hw.got, |s.got|, q)
    {
      ghost var line, was := Line(hasOut, out, 0xFF, count), into[..];
      assert line[..0] == [];
      hide Inv, Stored, Dre, Line;
      tail, o, q := 1, 0, 0;
      if count != 1 {
        tail := 2;
        StoreNext(hasOut, out, count, o, s, q, hasIn, into[..], was);
        o := o + 1;
        if count != 2 {
          tail := 3;
          StoreNext(hasOut, out, count, o, s, q, hasIn, into[..], was);
          o := o + 1;
          ghost var got := hw.got;
          WaitDre(s, line[..o], q);
          StoredOn(hasIn, into[..], was, got, hw.got, |s.got|, q);
          if count != 3 {
            o, q := Steady(hasOut, out, hasIn, into, count, s);
          }
        }
      }
    }

    /** One polled burst of `count` bytes: on the wire in order, what came back stored
        in order, and on the way no write over a full buffer, no byte overwritten, no
        read that emptied the FIFO with a byte under way. */
    method Burst(hasOut: bool, out: seq<byte>, hasIn: bool, into: array<byte>, count: nat)
      requires Idle(hw) && 1 <= count <= 0xFFFF
      requires (hasOut ==> count <= |out|) && (hasIn ==> count <= into.Length)
      modifies this, into
      ensures Idle(hw) && Clean(old(hw), hw)
      ensures |hw.wire| == |old(hw).wire| + count && old(hw).wire <= hw.wire
      ensures forall i :: 0 <= i < count ==> hw.wire[|old(hw).wire| + i] == if hasOut then out[i] else 0xFF
      ensures |hw.got| == |old(hw).got| + count && old(hw).got <= hw.got
      ensures hasIn ==> into[..count] == hw.got[|old(hw).got|..]
      ensures if hasIn then into[count..] == old(into[count..]) else into[..] == old(into[..])
    {
      ghost var s, line, was := hw, Line(hasOut, out, 0xFF, count), into[..];
      IdleStarts(hw);
      assert Stored(hasIn, into[..], was, hw.got, |s.got|, 0);
      hide Inv, Idle, Clean, Dre;
      var last: byte := 0xFF;
      if hasOut {
        last := out[count - 1];
      }
      assert line == line[..count - 1] + [last];
      var tail, o, q := Fill(hasOut, out, hasIn, into, count, s);
      ghost var got := hw.got;
      StoreLast(last, s, line[..o], q);
      WaitTxc(s, line, q);
      StoredOn(hasIn, into[..], was, got, hw.got, |s.got|, q);
      Tail(hasIn, into, tail, q, s, line, was);
      assert hw.got[|s.got|..] == hw.got[|s.got|..|s.got| + count];
    }
  }

  // ---- why the clear is masked ------------------------------------------------------

  lemma {:induction false} BusyRunsOut(h: Host, bs: seq<byte>)
    requires Busy(h) == 0 && Shape(h) && h.landing.None? && !h.txcif
    ensures !Run(h, bs).txcif
    decreases |bs|
  {
    if bs != [] {
      assert Tick(h, bs[0]) == h;
      BusyRunsOut(h, bs[1..]);
    }
  }

  lemma {:induction false} PendingShows(s: Host, h: Host, bs: seq<byte>, written: seq<byte>, read: nat)
    requires Inv(s, h, written, read) && Pending(h) && |bs| >= Busy(h)
    ensures Run(h, bs).txcif
    decreases |bs|
  {
    if h.txcif {
      RunKeeps(s, h, bs, written, read);
    } else {
      TickOnward(s, h, bs[0], written, read);
      hide Inv, Onward;
      assert Pending(Tick(h, bs[0])) && Busy(Tick(h, bs[0])) < Busy(h) by { TickOnward(s, h, bs[0], written, read); }
      PendingShows(s, Tick(h, bs[0]), bs[1..], written, read);
    }
  }

  /** Behind the last store, `between` cycles, then the clear. If a cycle of the byte
      is still to come, TXCIF rises whatever the wire does; if not, the clear has
      wiped the only edge and the tail waits for ever. */
  lemma ClearDecides(s: Host, h: Host, between: seq<byte>, after: seq<byte>, written: seq<byte>, read: nat)
    requires Inv(s, h, written, read)
    ensures var c := Cleared(Run(h, between));
      if Busy(c) == 0 then !Run(c, after).txcif
      else |after| >= Busy(c) ==> Run(c, after).txcif
  {
    var m := Run(h, between);
    RunKeeps(s, h, between, written, read);
    var c := Cleared(m);
    if Busy(c) > 0 {
      ClearKeeps(s, m, written, read);
      if |after| >= Busy(c) {
        PendingShows(s, c, after, written, read);
      }
    } else {
      assert c.shifter.None? && c.drying == 0 && Shape(c) && c.landing.None?;
      BusyRunsOut(c, after);
    }
  }

  /** And a handler three transfers long between the two does wipe it. */
  lemma UnmaskedCanHang(h: Host, v: byte, between: seq<byte>, after: seq<byte>)
    requires Idle(h) && |between| >= 3 * h.period
    ensures !Run(Cleared(Run(AfterWrite(h, v), between)), after).txcif
  {
    IdleStarts(h);
    WriteKeeps(h, h, v, [], 0);
    var w := AfterWrite(h, v);
    assert Busy(w) == 3 * h.period;
    assert [] + [v] == [v];
    Drains(h, w, between, [v], 0);
    ClearDecides(h, w, between, after, [v], 0);
  }

  lemma {:induction false} Drains(s: Host, h: Host, bs: seq<byte>, written: seq<byte>, read: nat)
    requires Inv(s, h, written, read) && |bs| >= Busy(h)
    ensures Busy(Run(h, bs)) == 0
    decreases |bs|
  {
    if bs != [] {
      TickKeeps(s, h, bs[0], written, read);
      TickWorks(s, h, bs[0], written, read);
      hide Inv;
      Drains(s, Tick(h, bs[0]), bs[1..], written, read);
    }
  }
}

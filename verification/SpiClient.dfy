/**
 SpiClient's buffer-mode run: exchange() and receive(), read by count
 (brio/avrxt/spi.hpp). Every register access is preceded by any number of cycles
 in which the host does anything it can: an interrupt of any length at any point
 of the run is one such stretch.
*/
module SpiClientRun {
  import opened Basics
  import opened SpiClientSilicon
  import opened SpiClientInvariant

  datatype RunEnd = Complete | Closed | Stalled | Late

  /** The flag a wait is for. */
  datatype Awaited = Dre | Txc

  predicate Stands(f: Flags, a: Awaited) {
    match a case Dre => f.dre case Txc => f.txc
  }

  predicate LateFlags(f: Flags) { f.txc || f.ovf }

  /** What the run asks while it waits, and the answer: a load of INTFLAGS, or a look at
      the select. */
  datatype Asked = Load(flags: Flags) | Select(high: bool)

  /** A counter of 32 bits taken down before it is tested: from zero it goes all the way
      round. */
  function Budget(spins: nat): nat {
    if spins == 0 then 0x1_0000_0000 else spins
  }

  /** What so many rounds, none of them the last, leave of it. */
  function Left(spins: nat, rounds: nat): nat
    requires rounds <= Budget(spins)
  {
    if rounds == 0 then spins else Budget(spins) - rounds
  }

  lemma LeftOn(spins: nat, a: nat, b: nat)
    requires a < Budget(spins) && b <= Budget(Left(spins, a))
    ensures a + b <= Budget(spins) && (a + b < Budget(spins) <==> b < Budget(Left(spins, a)))
    ensures Left(Left(spins, a), b) == Left(spins, a + b)
  {
  }

  /** `waits` waits for a flag asked `n` times: five times for each of the budget's counts
      they took, and for less than 256 counts more apiece. */
  predicate Charged(spins: nat, left: nat, n: int, waits: nat) {
    left <= spins && 5 * (spins - left) <= n <= 5 * (spins - left) + 1281 * waits
  }

  lemma ChargedNone(spins: nat)
    ensures Charged(spins, spins, 0, 0)
  {
  }

  lemma ChargedMore(spins: nat, left: nat, n: int, waits: nat, more: int, bound: nat)
    requires Charged(spins, left, n, waits) && waits <= bound
    requires n <= more <= n + 1 && (more == n || waits < bound)
    ensures Charged(spins, left, more, bound)
  {
  }

  lemma ChargedOn(spins: nat, mid: nat, left: nat, n: int, more: int, waits: nat, others: nat, bound: nat)
    requires Charged(spins, mid, n, waits) && Charged(mid, left, more, others) && waits + others <= bound
    ensures Charged(spins, left, n + more, waits + others) && Charged(spins, left, n + more, bound)
  {
  }

  /** A run is late on the flags it ended on and on no others: those of the turns before it
      are in time. */
  ghost predicate Judged(turns: seq<Flags>, how: RunEnd) {
    && (forall i :: 0 <= i < |turns| ==> (turns[i].txc || turns[i].ovf <==> how == Late && i == |turns| - 1))
    && (how == Late ==> turns != [])
  }

  lemma JudgedOn(turns: seq<Flags>, f: Flags, how: RunEnd)
    requires Judged(turns, Complete)
    ensures Judged(turns + [f], if f.txc || f.ovf then Late else Complete)
    ensures how != Late ==> Judged(turns, how)
  {
  }

  /** The flags the waits for DREIF ended on, and the count. */
  ghost predicate Tallied(turns: seq<Flags>, how: RunEnd, known: nat) {
    && Judged(turns, how)
    && (how == Late ==> known == if |turns| < 2 then 0 else |turns| - 2)
    && (how != Late ==> |turns| <= known <= |turns| + 1)
    && (how == Stalled ==> known == |turns|)
  }

  lemma LineAt(hasOut: bool, out: seq<byte>, fill: byte, len: nat, i: nat)
    requires (hasOut ==> len <= |out|) && i < len
    ensures (if hasOut then out[i] else fill) == Line(hasOut, out, fill, len)[i]
  {
  }

  lemma LineIs(hasOut: bool, out: seq<byte>, fill: byte, len: nat)
    requires hasOut ==> len <= |out|
    ensures var line := Line(hasOut, out, fill, len);
      |line| == len && forall i :: 0 <= i < len ==> line[i] == if hasOut then out[i] else fill
  {
  }

  /** A run cut short has asked once more for what it waited for - DREIF while so many are
      to come, TXCIF behind them - and counts a byte for it, whatever stands beside it. */
  ghost predicate CutAt(asked: seq<Asked>, turns: nat, known: nat, dreifs: int) {
    && asked != [] && asked[|asked| - 1].Load?
    && known == turns + if Stands(asked[|asked| - 1].flags, if turns < dreifs then Dre else Txc) then 1 else 0
  }

  /** The cycles that pass with the select held high and nothing in flight. */
  function Held(h: Client, n: nat): Client
    decreases n
  {
    if n == 0 then h else Held(Settle(h), n - 1)
  }

  lemma {:induction false} HeldSettles(h: Client, n: nat)
    requires h.landing.None? && h.drying == 0 && n > 0
    ensures Held(h, n) == Settle(h)
    decreases n
  {
    var s := Settle(h);
    assert Settle(s) == s;
    if n > 1 {
      HeldSettles(s, n - 1);
    } else {
      assert Held(s, 0) == s;
    }
  }

  /** The preload as it stands before TXCIF is cleared: the answers written are in
      the shifter and the buffer, or on their way there. */
  ghost predicate Preloaded(h: Client, written: seq<byte>) {
    && h.pad == Waiting && !h.shifting && h.landing.None? && h.drying == 0
    && h.begun == 0 && h.clocked == [] && h.dryAt.None? && h.over.None?
    && h.fifo == [] && h.held.None? && !h.rxcif && !h.bufovf
    && written == h.sent + Opt(h.buffer) && 1 <= |written| <= 1 + Ahead(h)
    && (if h.bufwr then (h.loaded.Some? <==> h.sent != []) && |h.sent| <= 1 else h.sent == [])
  }

  lemma FirstPreloads(h: Client, v: byte)
    requires Ready(h) && h.buffer.None? && h.fifo == [] && h.held.None? && !h.rxcif && !h.bufovf
    ensures var p := AfterWrite(Settle(h), v);
      Preloaded(p, [v]) && p.bufwr == h.bufwr && p.quota == h.quota && p.landing.None? && p.drying == 0
  {
  }

  /** Whether the transmitter is full the first load tells. */
  lemma FullStays(h: Client)
    requires Ready(h)
    ensures Settle(h).buffer == h.buffer && (FlagsOf(Settle(h)).dre <==> h.buffer.None?)
  {
  }

  lemma SettlePreloaded(h: Client, written: seq<byte>)
    requires Preloaded(h, written)
    ensures var s := Settle(h); Preloaded(s, written) && s.bufwr == h.bufwr && s.quota == h.quota
    ensures Settle(h).landing.None? && Settle(h).drying == 0 && Settle(h).sent <= written
    ensures h.buffer.None? ==> Settle(h).buffer.None?
  {
  }

  lemma SecondPreloads(h: Client, a: byte, v: byte)
    requires Preloaded(h, [a]) && h.bufwr && h.buffer.None?
    ensures var p := AfterWrite(h, v); Preloaded(p, [a, v]) && p.bufwr == h.bufwr && p.quota == h.quota
    ensures AfterWrite(h, v).sent <= [a, v]
  {
  }

  lemma NoTurns(t: seq<Flags>)
    requires t == []
    ensures Tallied(t, Complete, 0)
  {
  }

  /** What each ending says: a complete run - one the host closed behind the last
      byte included - saw no transfer before its last end dry, and a close with no
      transfer dry leaves nothing that arrived unread. */
  ghost predicate Ended(how: RunEnd, known: nat, len: nat, h: Client) {
    && (how == Complete ==> known == len)
    && (known == len && how != Late && how != Stalled ==> len > 0 && NotDryBefore(h, len - 1))
    && (how == RunEnd.Closed ==> h.pad == Pad.Closed && (h.dryAt.None? ==> known == |h.clocked|))
    && (how == Late ==> h.dryAt.Some?)
  }

  /** TXCIF stands, or BUFOVF, where a transfer ended dry and nowhere else. */
  lemma LateIsDry(h: Client, written: seq<byte>, read: nat, sure: nat)
    requires Inv(h, written, read, sure) && (h.txcif || h.bufovf)
    ensures h.dryAt.Some?
  {
  }

  /** A run of one answer under BUFWR: it is in the shifter, and nothing is owed to
      the buffer before the window opens. */
  lemma OneAnswer(h: Client, line: seq<byte>)
    requires |line| == 1 && Standing(h, line, 1, 0, 2, 0) && h.bufwr
    ensures h.buffer.None?
  {
    assert |h.sent| + |Opt(h.buffer)| == 1;
  }

  /** Every transfer the run has seen end did so with an answer behind it. */
  lemma StandingEnds(h: Client, line: seq<byte>, w: nat, q: nat, sure: nat, len: nat)
    requires Standing(h, line, w, q, sure, len) && len > 0
    ensures Ended(Complete, len, len, h)
  {
    hide Inv;
  }

  lemma StandingSizes(h: Client, line: seq<byte>, w: nat, q: nat, sure: nat, seen: nat)
    requires Standing(h, line, w, q, sure, seen)
    ensures w <= |line| && Inv(h, line[..w], q, sure) && seen <= |h.clocked|
  {
    hide Inv;
  }

  lemma PrefixOn(a: seq<byte>, line: seq<byte>, w: nat)
    requires w <= |line| && a <= line[..w]
    ensures a <= line
  {
  }

  lemma StillTail<T>(whole: seq<T>, mid: seq<T>, now: seq<T>, q: nat, known: nat)
    requires q <= known <= |whole| == |mid| == |now|
    requires mid[q..] == whole[q..] && now[known..] == mid[known..]
    ensures now[known..] == whole[known..]
  {
    assert mid[q..][known - q..] == mid[known..] && whole[q..][known - q..] == whole[known..];
  }

  /** Behind the close, room for an answer and a transfer that found none. */
  predicate Overtaken(h: Client) {
    h.pad == Pad.Closed && FlagsOf(h).dre && FlagsOf(h).txc
  }

  lemma OvertakenOn(h: Client, t: Client)
    requires Onward(h, t)
    ensures Overtaken(h) ==> Overtaken(t)
  {
  }

  /** A turn leaves what is behind its byte, and its byte too when it stored none. */
  lemma StillBehind<T>(whole: seq<T>, was: seq<T>, now: seq<T>, q: nat, none: bool)
    requires q < |was| == |now| == |whole| && was[q..] == whole[q..] && now[q + 1..] == was[q + 1..]
    requires none ==> now[q] == was[q]
    ensures now[q + 1..] == whole[q + 1..] && (none ==> now[q..] == whole[q..])
  {
    assert was[q..][1..] == was[q + 1..] && whole[q..][1..] == whole[q + 1..];
    if none {
      assert now[q..] == [now[q]] + now[q + 1..];
      assert was[q..] == [was[q]] + was[q + 1..];
    }
  }

  lemma EndedOn(how: RunEnd, known: nat, len: nat, h: Client, t: Client)
    requires Ended(how, known, len, h) && Onward(h, t)
    ensures Ended(how, known, len, t)
  {
  }

  lemma OnwardFields(h: Client, t: Client)
    requires Onward(h, t)
    ensures t.bufwr == h.bufwr && t.quota == h.quota && h.clocked <= t.clocked && (h.buffer.None? ==> t.buffer.None?)
    ensures h.pad == Pad.Closed ==> t.pad == Pad.Closed
  {
  }

  lemma StandingKnown(h: Client, line: seq<byte>, w: nat, q: nat, sure: nat, seen: nat)
    requires Standing(h, line, w, q, sure, seen)
    ensures seen <= |h.clocked| && NotDryBefore(h, seen) && w <= |line| && Inv(h, line[..w], q, sure)
  {
    hide Inv;
  }

  /** What a flag that stands behind the close tells of, and one that does not. */
  lemma CutCounts(h: Client, line: seq<byte>, w: nat, q: nat, sure: nat, known: nat, len: nat, mask: Awaited)
    requires Standing(h, line, w, q, sure, known) && known < len && q <= known <= q + 1 && 1 <= sure <= 2
    requires h.pad == Pad.Closed
    requires mask == Dre ==> w - Ahead(h) == known + 1
    requires mask == Txc ==> h.bufwr && w == len == known + 1 && h.buffer.None? && (sure < 2 ==> sure == 1 && q + 2 == len)
    ensures !Stands(FlagsOf(h), mask) && h.dryAt.None? ==> known == |h.clocked|
    ensures Stands(FlagsOf(h), mask) ==> known + 1 <= |h.clocked| && (h.dryAt.None? ==> known + 1 == |h.clocked|)
    ensures Stands(FlagsOf(h), mask) && h.over.Some? && known + 1 == q + 2 && sure < 2 ==>
      Overtaken(h) || (h.bufwr && h.quota > len == known + 1)
  {
  }

  /** TXCIF behind the last answer's move: the run's last transfer has ended, and none
      before it dry. */
  lemma LastIsIn(h: Client, line: seq<byte>, q: nat, sure: nat, seen: nat)
    requires Standing(h, line, seen + 1, q, sure, seen) && h.bufwr && h.buffer.None? && h.txcif
    ensures |h.clocked| >= seen + 1 && NotDryBefore(h, seen) && seen + 1 <= |line| && Inv(h, line[..seen + 1], q, sure)
    ensures h.over.Some? ==> h.quota >= q + 2 + sure
  {
  }

  lemma StandingOpen(h: Client, line: seq<byte>, w: nat, q: nat, sure: nat, seen: nat)
    requires Standing(h, line, w, q, sure, seen)
    ensures h.pad != Waiting
  {
    hide Inv;
  }

  lemma DreStands(f: Flags)
    requires Stands(f, Dre)
    ensures f.dre
  {
  }

  /** Where a window opens, or does not: the preload in place, nothing read, nothing seen. */
  lemma AtOpen(h: Client, line: seq<byte>, pre: nat)
    requires pre <= |line| && Inv(h, line[..pre], 0, 2)
    ensures h.sent <= line && (h.pad != Waiting ==> Standing(h, line, pre, 0, 2, 0))
  {
    hide Shape, Stream, Passed;
    PrefixOn(h.sent, line, pre);
  }

  lemma LeftFits(spins: nat, rounds: nat)
    requires spins < 0x1_0000_0000 && rounds < Budget(spins)
    ensures Left(spins, rounds) < 0x1_0000_0000
  {
  }

  lemma NotHigh(h: Client)
    requires h.pad == Open
    ensures h.pad != Waiting
  {
  }

  lemma RxcIs(h: Client)
    ensures FlagsOf(h).rxc == h.rxcif
  {
  }

  lemma AheadStays(h: Client, t: Client)
    requires t.bufwr == h.bufwr
    ensures Ahead(t) == Ahead(h)
  {
  }

  lemma OnwardSelf(h: Client)
    ensures Onward(h, h)
  {
  }

  lemma StillOpen(h: Client, t: Client)
    requires Onward(h, t)
    ensures h.pad != Waiting ==> t.pad != Waiting
  {
  }

  lemma RxcMeansOpened(h: Client, written: seq<byte>)
    requires Inv(h, written, 0, 2) && h.rxcif
    ensures h.pad != Waiting
  {
  }

  /** What a wait has asked, but for its last: rounds of four loads that did not find
      the flag and a look at the select that found it low. */
  predicate Idle(t: seq<Asked>, flag: Awaited) {
    forall i :: 0 <= i < |t| ==>
      if i % 5 == 4 then t[i] == Select(false) else t[i].Load? && !Stands(t[i].flags, flag)
  }

  lemma IdleNone(flag: Awaited)
    ensures Idle([], flag)
  {
  }

  lemma IdleOn(t: seq<Asked>, flag: Awaited, rounds: nat, polls: nat, x: Asked)
    requires Idle(t, flag) && |t| == 5 * rounds + polls && polls <= 4
    requires if polls == 4 then x == Select(false) else x.Load? && !Stands(x.flags, flag)
    ensures Idle(t + [x], flag)
  {
    assert |t| % 5 == polls;
  }

  lemma RoundOn(t: seq<Asked>, r: seq<Asked>, flag: Awaited, rounds: nat)
    requires Idle(t, flag) && |t| == 5 * rounds && 1 <= |r| <= 5 && Idle(r[..|r| - 1], flag)
    ensures Idle((t + r)[..|t + r| - 1], flag)
    ensures |r| == 5 && r[4] == Select(false) ==> Idle(t + r, flag)
  {
    var u := t + r;
    forall i | 0 <= i < |u| - 1
      ensures if i % 5 == 4 then u[i] == Select(false) else u[i].Load? && !Stands(u[i].flags, flag)
    {
      if i < |t| {
        assert u[i] == t[i];
      } else {
        assert u[i] == r[..|r| - 1][i - |t|] && i % 5 == (i - |t|) % 5;
      }
    }
  }

  /** Nothing told of the window: the select high at every look, no byte in. */
  predicate StillClosed(t: seq<Asked>) {
    forall i :: 0 <= i < |t| ==>
      if i % 2 == 0 then t[i] == Select(true) else t[i].Load? && !t[i].flags.rxc
  }

  lemma NothingAsked()
    ensures StillClosed([])
  {
  }

  lemma LookOn(t: seq<Asked>, r: seq<Asked>, rounds: nat)
    requires StillClosed(t) && |t| == 2 * rounds && 1 <= |r| <= 2 && (|r| == 2 ==> r[0] == Select(true))
    ensures StillClosed((t + r)[..|t + r| - 1]) && (|t + r| - 1) / 2 == rounds
    ensures |r| == 2 && r[1].Load? && !r[1].flags.rxc ==> StillClosed(t + r)
  {
  }

  class SpiClient {
    var hw: Client
    ghost var asked: seq<Asked>   // what this run has asked so far
    ghost var turns: seq<Flags>   // the flags its waits for DREIF ended on

    /** Cycles pass: two at least - a load or a store takes them - and as many more
        as an interrupt makes them. */
    method Elapse()
      modifies `hw
      ensures Later(old(hw), hw)
    {
      var more :| 0 <= more;
      var i := 0;
      ghost var acts: seq<Act> := [];
      while i < more + 2
        invariant 0 <= i <= more + 2 && |acts| == i && hw == Run(old(hw), acts)
      {
        var a: Act := *;
        RunSnoc(old(hw), acts, a);
        hw := Tick(hw, a);
        acts := acts + [a];
        i := i + 1;
      }
    }

    /** The same with the select still high: the caller's contract up to the preload. */
    method Hold()
      requires hw.landing.None? && hw.drying == 0
      modifies `hw
      ensures hw == Settle(old(hw))
    {
      var more :| 0 <= more;
      HeldSettles(hw, more + 2);
      var i := more + 2;
      while i > 0
        invariant i >= 0 && Held(hw, i) == Settle(old(hw))
      {
        hw := Settle(hw);
        i := i - 1;
      }
    }

    method LoadFlags() returns (f: Flags)
      modifies `hw, `asked
      ensures Later(old(hw), hw) && f == FlagsOf(hw) && asked == old(asked) + [Load(f)]
    {
      Elapse();
      f := FlagsOf(hw);
      asked := asked + [Load(f)];
    }

    /** The same with the select still high. */
    method LoadHeld() returns (f: Flags)
      requires hw.landing.None? && hw.drying == 0
      modifies `hw, `asked
      ensures hw == Settle(old(hw)) && f == FlagsOf(hw) && asked == old(asked) + [Load(f)]
    {
      Hold();
      f := FlagsOf(hw);
      asked := asked + [Load(f)];
    }

    method SsHigh() returns (high: bool)
      modifies `hw, `asked
      ensures Later(old(hw), hw) && high == (hw.pad != Open) && asked == old(asked) + [Select(high)]
    {
      Elapse();
      high := hw.pad != Open;
      asked := asked + [Select(high)];
    }

    method LoadData() returns (v: Arrival, ghost at: Client)
      modifies `hw
      ensures Later(old(hw), at) && v == Head(at) && hw == AfterRead(at)
    {
      Elapse();
      at := hw;
      v := Head(hw);
      hw := AfterRead(hw);
    }

    method StoreData(v: byte) returns (ghost at: Client)
      modifies `hw
      ensures Later(old(hw), at) && hw == AfterWrite(at, v)
    {
      Elapse();
      at := hw;
      hw := AfterWrite(hw, v);
    }

    /** A read without asking, and three more at most while RXCIF stands, leave nothing
        in the receiver. */
    method FlushReceive()
      requires Ready(hw)
      modifies `hw
      ensures Ready(hw) && hw.fifo == [] && hw.held.None? && !hw.rxcif && !hw.bufovf
      ensures hw.bufwr == old(hw.bufwr) && hw.quota == old(hw.quota)
      ensures hw.buffer == old(hw.buffer) && hw.loaded == old(hw.loaded) && hw.txcif == old(hw.txcif)
    {
      Hold();
      hw := AfterRead(hw);
      var i := 0;
      while i < 3 && hw.rxcif
        invariant i <= 3 && Ready(hw)
        invariant |hw.fifo| + |Opt(hw.held)| <= 2 - i || (hw.fifo == [] && hw.held.None?)
        invariant hw.rxcif <==> hw.fifo != []
        invariant hw.fifo == [] ==> hw.held.None?
        invariant hw.bufwr == old(hw.bufwr) && hw.quota == old(hw.quota)
        invariant hw.buffer == old(hw.buffer) && hw.loaded == old(hw.loaded) && hw.txcif == old(hw.txcif)
      {
        Hold();
        hw := AfterRead(hw);
        i := i + 1;
      }
      hw := hw.(bufovf := false);
    }

    /** A load of INTFLAGS while a run is served. */
    method Poll(ghost written: seq<byte>, ghost read: nat, ghost sure: nat) returns (f: Flags)
      requires Inv(hw, written, read, sure)
      modifies `hw, `asked
      ensures Inv(hw, written, read, sure) && Onward(old(hw), hw) && f == FlagsOf(hw)
      ensures asked == old(asked) + [Load(f)]
    {
      ghost var was := hw;
      f := LoadFlags();
      LaterKeeps(was, hw, written, read, sure, 0);
    }

    method AskSelect(ghost written: seq<byte>, ghost read: nat, ghost sure: nat) returns (high: bool)
      requires Inv(hw, written, read, sure)
      modifies `hw, `asked
      ensures Inv(hw, written, read, sure) && Onward(old(hw), hw)
      ensures (high <==> hw.pad != Open) && asked == old(asked) + [Select(high)]
    {
      ghost var was := hw;
      high := SsHigh();
      LaterKeeps(was, hw, written, read, sure, 0);
    }

    /** A round of a wait: four loads of INTFLAGS, the first that finds the flag ending it,
        and a look at the select behind them. */
    method Round(flag: Awaited, ghost written: seq<byte>, ghost read: nat, ghost sure: nat)
      returns (f: Option<Flags>, high: bool, ghost r: seq<Asked>)
      requires Inv(hw, written, read, sure)
      modifies `hw, `asked
      ensures Inv(hw, written, read, sure) && Onward(old(hw), hw)
      ensures asked == old(asked) + r && 1 <= |r| <= 5 && Idle(r[..|r| - 1], flag)
      ensures f.Some? ==> |r| <= 4 && r[|r| - 1] == Load(f.value) && f.value == FlagsOf(hw) && Stands(f.value, flag)
      ensures f.None? ==> |r| == 5 && r[4] == Select(high) && (high <==> hw.pad != Open)
    {
      hide *;
      r, high := [], false;
      IdleNone(flag);
      ghost var start := hw;
      OnwardSelf(hw);
      var poll := 0;
      while poll < 4
        invariant poll <= 4 && |r| == poll && Idle(r, flag) && asked == old(asked) + r
        invariant Inv(hw, written, read, sure) && Onward(start, hw)
      {
        ghost var was, r1 := hw, r;
        var flags := Poll(written, read, sure);
        OnwardTrans(start, was, hw);
        r := r1 + [Load(flags)];
        if Stands(flags, flag) {
          assert r[..|r| - 1] == r1;
          return Some(flags), false, r;
        }
        IdleOn(r1, flag, 0, poll, Load(flags));
        poll := poll + 1;
      }
      ghost var was, r1 := hw, r;
      high := AskSelect(written, read, sure);
      OnwardTrans(start, was, hw);
      r := r1 + [Select(high)];
      assert r[..|r| - 1] == r1;
      return None, high, r;
    }

    /** The wait for a flag. The rounds are counted in eight bits, and every 256th is taken
        off the budget. What was asked last ends it: a load that finds the flag, a select
        found high, or - the budget out - a select found low. */
    method Await(flag: Awaited, spins: nat, ghost written: seq<byte>, ghost read: nat, ghost sure: nat)
      returns (f: Option<Flags>, left: nat, how: RunEnd, ghost t: seq<Asked>)
      requires Inv(hw, written, read, sure) && hw.pad != Waiting
      modifies this
      ensures Inv(hw, written, read, sure) && Onward(old(hw), hw) && hw.pad != Waiting
      ensures asked == old(asked) + t && t != [] && Idle(t[..|t| - 1], flag)
      ensures f.Some? ==> f.value == FlagsOf(hw) && Stands(f.value, flag) && how == Complete && t[|t| - 1] == Load(f.value)
      ensures f.None? ==> how == RunEnd.Closed || how == Stalled
      ensures f.None? ==> |t| % 5 == 0 && t[|t| - 1] == Select(how == RunEnd.Closed)
      ensures how == RunEnd.Closed ==> hw.pad == Pad.Closed
      ensures how == Stalled ==> left == 0
      ensures Charged(spins, left, |t|, 1) && Charged(spins, left, |t| + 1, 1)
      ensures turns == if flag == Dre && f.Some? then old(turns) + [f.value] else old(turns)
    {
      hide Inv, Onward, Stands, FlagsOf, Idle;
      left, how, t := spins, Complete, [];
      var c := 0;
      ghost var start, rounds := hw, 0;
      OnwardSelf(hw);
      IdleNone(flag);
      while true
        invariant 0 <= c <= 255 && left <= spins && how == Complete
        invariant Inv(hw, written, read, sure) && Onward(start, hw) && hw.pad != Waiting && turns == old(turns)
        invariant asked == old(asked) + t && Idle(t, flag) && |t| == 5 * rounds
        invariant rounds == spins - left + if c == 0 then 0 else 256 - c
        decreases left, if c == 0 then 256 else c
      {
        ghost var was, t1, r := hw, t, [];
        var high;
        f, high, r := Round(flag, written, read, sure);
        OnwardTrans(start, was, hw);
        StillOpen(was, hw);
        RoundOn(t1, r, flag, rounds);
        t := t1 + r;
        if f.Some? {
          turns := if flag == Dre then turns + [f.value] else turns;
          return;
        }
        rounds := rounds + 1;
        if high {
          how := RunEnd.Closed;
          return;
        }
        c := if c == 0 then 255 else c - 1;
        if c == 0 {
          if left <= 256 {
            left, how := 0, Stalled;
            return;
          }
          left := left - 256;
        }
      }
    }

    /** One round of the select's wait: a look at it, and a load of RXCIF when it is high. */
    method Look(ghost written: seq<byte>) returns (open: bool, ghost r: seq<Asked>)
      requires Inv(hw, written, 0, 2)
      modifies `hw, `asked
      ensures Inv(hw, written, 0, 2) && Onward(old(hw), hw) && asked == old(asked) + r
      ensures open ==> hw.pad != Waiting && (r == [Select(false)] || (|r| == 2 && r[1].Load? && r[1].flags.rxc))
      ensures |r| == 2 ==> r[0] == Select(true)
      ensures !open ==> |r| == 2 && r[1].Load? && !r[1].flags.rxc
    {
      hide *;
      ghost var start := hw;
      var high := AskSelect(written, 0, 2);
      if !high {
        NotHigh(hw);
        return true, [Select(false)];
      }
      ghost var was := hw;
      var f := Poll(written, 0, 2);
      OnwardTrans(start, was, hw);
      r := [Select(true), Load(f)];
      RxcIs(hw);
      if f.rxc {
        RxcMeansOpened(hw, written);
      }
      open := f.rxc;
    }

    /** The wait for the select's fall, or for a transfer that tells of one already over:
        it ends on the look at the select, or the load of RXCIF, that tells of it, or where
        the budget has gone down to zero - a budget of zero being the longest. */
    method AwaitSelect(spins: nat, ghost written: seq<byte>) returns (open: bool, left: nat, ghost t: seq<Asked>)
      requires spins < 0x1_0000_0000 && Inv(hw, written, 0, 2)
      modifies `hw, `asked
      ensures Inv(hw, written, 0, 2) && Onward(old(hw), hw)
      ensures asked == old(asked) + t && t != [] && StillClosed(t[..|t| - 1])
      ensures open ==> hw.pad != Waiting && (t[|t| - 1] == Select(false) || (t[|t| - 1].Load? && t[|t| - 1].flags.rxc))
      ensures open ==> (|t| - 1) / 2 < Budget(spins) && left == Left(spins, (|t| - 1) / 2)
      ensures !open ==> StillClosed(t) && |t| == 2 * Budget(spins) && left == 0
    {
      hide Inv, Onward, StillClosed;
      left, t := spins, [];
      NothingAsked();
      ghost var start, rounds: nat := hw, 0;
      OnwardSelf(hw);
      while true
        invariant Inv(hw, written, 0, 2) && Onward(start, hw)
        invariant asked == old(asked) + t && StillClosed(t) && |t| == 2 * rounds
        invariant rounds < Budget(spins) && left == Left(spins, rounds)
        decreases Budget(spins) - rounds
      {
        ghost var was, t0, r := hw, t, [];
        open, r := Look(written);
        OnwardTrans(start, was, hw);
        t := t0 + r;
        LookOn(t0, r, rounds);
        if open {
          return true, left, t;
        }
        rounds := rounds + 1;
        left := if left == 0 then 0xFFFF_FFFF else left - 1;
        if left == 0 {
          return false, 0, t;
        }
      }
    }

    /** BUFWR's second write, once the first has gone on; false for a budget spent on
        loads that found no room. */
    method PreloadSecond(second: byte, spins: nat, ghost first: byte) returns (ok: bool, left: nat, ghost t: seq<Asked>)
      requires Preloaded(hw, [first]) && hw.bufwr && spins < 0x1_0000_0000
      modifies `hw, `asked
      ensures hw.bufwr && hw.quota == old(hw.quota) && hw.sent <= [first, second]
      ensures Preloaded(hw, if ok then [first, second] else [first])
      ensures asked == old(asked) + t && t != []
      ensures forall i :: 0 <= i < |t| ==> t[i].Load? && (t[i].flags.dre <==> ok && i == |t| - 1)
      ensures ok ==> |t| - 1 < Budget(spins) && left == Left(spins, |t| - 1)
      ensures !ok ==> |t| == Budget(spins) && left == 0
    {
      left := spins;
      SettlePreloaded(hw, [first]);
      var f := LoadHeld();
      t := [Load(f)];
      hide Settle, AfterWrite;
      while !f.dre
        invariant Preloaded(hw, [first]) && f == FlagsOf(hw)
        invariant hw.bufwr && hw.quota == old(hw.quota)
        invariant asked == old(asked) + t && t != [] && t[|t| - 1] == Load(f)
        invariant forall i :: 0 <= i < |t| - 1 ==> t[i].Load? && !t[i].flags.dre
        invariant |t| - 1 < Budget(spins) && left == Left(spins, |t| - 1)
        decreases Budget(spins) - |t|
      {
        left := if left == 0 then 0xFFFF_FFFF else left - 1;
        if left == 0 {
          return false, 0, t;
        }
        SettlePreloaded(hw, [first]);
        f := LoadHeld();
        t := t + [Load(f)];
      }
      SettlePreloaded(hw, [first]);
      Hold();
      SecondPreloads(hw, first, second);
      hw := AfterWrite(hw, second);
      return true, left, t;
    }

    /** What is written before the window: an answer, or two where there is room for two
        and so many to give; `pre` counts them, zero for a budget spent. */
    method Preload(hasOut: bool, out: seq<byte>, fill: byte, len: nat, spins: nat)
      returns (pre: nat, left: nat, ghost spent: nat)
      requires Ready(hw) && hw.buffer.None? && hw.fifo == [] && hw.held.None? && !hw.rxcif && !hw.bufovf
      requires len >= 1 && (hasOut ==> len <= |out|) && spins < 0x1_0000_0000
      modifies `hw, `asked
      ensures pre == 0 || pre == if hw.bufwr && len >= 2 then 2 else 1
      ensures hw.bufwr == old(hw.bufwr) && hw.quota == old(hw.quota)
      ensures spent <= |asked| - |old(asked)| <= spent + 1
      ensures pre == 0 ==> spent == Budget(spins) && hw.sent <= Line(hasOut, out, fill, len) && hw.clocked == []
      ensures pre != 0 ==> spent < Budget(spins) && left == Left(spins, spent)
      ensures pre != 0 ==> Preloaded(hw, Line(hasOut, out, fill, len)[..pre])
    {
      ghost var line := Line(hasOut, out, fill, len);
      var first := if hasOut then out[0] else fill;
      assert line[..1] == [first];
      FirstPreloads(hw, first);
      Hold();
      hw := AfterWrite(hw, first);
      hide Settle, AfterWrite, Ready;
      if !hw.bufwr || len < 2 {
        return 1, spins, 0;
      }
      var second := if hasOut then out[1] else fill;
      assert line[..2] == [first, second];
      var ok;
      ghost var t;
      ok, left, t := PreloadSecond(second, spins, first);
      return if ok then 2 else 0, left, if ok then |t| - 1 else |t|;
    }

    /** TXCIF cleared behind the preload: from here a dry transmitter alone raises it. */
    method ClearTxcif(ghost written: seq<byte>)
      requires Preloaded(hw, written)
      modifies `hw
      ensures Inv(hw, written, 0, 2) && hw.bufwr == old(hw.bufwr) && hw.quota == old(hw.quota)
      ensures hw.dryAt.None? && |hw.clocked| == 0
    {
      Hold();
      hw := hw.(txcif := false);
    }

    /** A turn's flag waited for, and the late flags looked at beside it. */
    method AwaitTurn(spins: nat, ghost line: seq<byte>, ghost w: nat, ghost q: nat, ghost sure: nat, ghost seen: nat)
      returns (left: nat, how: RunEnd)
      requires Standing(hw, line, w, q, sure, seen) && Judged(turns, Complete)
      modifies this
      ensures Standing(hw, line, w, q, sure, seen) && Onward(old(hw), hw)
      ensures hw.bufwr == old(hw.bufwr) && hw.quota == old(hw.quota) && old(hw.clocked) <= hw.clocked
      ensures how == Complete ==> hw.buffer.None? && !hw.txcif
      ensures how == Late ==> hw.dryAt.Some?
      ensures how == RunEnd.Closed ==> hw.pad == Pad.Closed
      ensures Judged(turns, how) && |turns| == |old(turns)| + if how == Complete || how == Late then 1 else 0
      ensures Charged(spins, left, |asked| - |old(asked)|, 1) && Charged(spins, left, |asked| - |old(asked)| + 1, 1)
      ensures how == Stalled ==> left == 0
    {
      hide Inv, Idle, Charged, Onward, Standing, Judged, Stands;
      StandingIs(hw, line, w, q, sure, seen);
      StandingOpen(hw, line, w, q, sure, seen);
      ghost var was := hw;
      var f;
      ghost var t;
      f, left, how, t := Await(Dre, spins, line[..w], q, sure);
      StandingOn(was, hw, line, w, q, sure, seen);
      OnwardFields(was, hw);
      if f.None? {
        JudgedOn(turns, Flags(false, false, false, false), how);
        return;
      }
      JudgedOn(old(turns), f.value, Complete);
      DreStands(f.value);
      if LateFlags(f.value) {
        LateIsDry(hw, line[..w], q, sure);
        how := Late;
      }
    }

    /** A turn in time: one of two bytes read, and an answer written behind the read. */
    method Turn(answer: byte, into: array<Arrival>, q: nat, ghost line: seq<byte>, ghost p: nat)
      requires Standing(hw, line, p, q, 1, q + 1) && hw.buffer.None? && !hw.txcif
      requires p == q + 2 + Ahead(hw) && p < |line| && answer == line[p]
      requires q < into.Length && into[..q] == hw.clocked[..q]
      modifies `hw, into
      ensures Standing(hw, line, p + 1, q + 1, 1, q + 2)
      ensures hw.bufwr == old(hw.bufwr) && hw.quota == old(hw.quota)
      ensures into[..q + 1] == hw.clocked[..q + 1] && into[q + 1..] == old(into[q + 1..])
    {
      hide Standing, AfterRead, AfterWrite, Later, Inv, Head;
      StandingCounts(hw, line, p, q, 1, q + 1);
      ghost var was := hw;
      var v, at := LoadData();
      StandingReads(was, at, line, p, q);
      into[q] := v;
      was := hw;
      at := StoreData(answer);
      StandingWrites(was, at, answer, line, p, q + 1, q + 2);
    }

    /** One steady turn: the wait, and then the read and the write - or its ending. */
    method SteadyTurn(answer: byte, into: array<Arrival>, q: nat, spins: nat, ghost line: seq<byte>, ghost p: nat)
      returns (left: nat, how: RunEnd)
      requires Standing(hw, line, p, q, 1, q + 1) && p == q + 2 + Ahead(hw)
      requires Tallied(turns, Complete, q + 1) && |turns| == q + 1
      requires p < |line| && answer == line[p] && q < into.Length && into[..q] == hw.clocked[..q]
      modifies this, into
      ensures hw.bufwr == old(hw.bufwr) && hw.quota == old(hw.quota)
      ensures how == Complete ==> Standing(hw, line, p + 1, q + 1, 1, q + 2) && into[..q + 1] == hw.clocked[..q + 1]
      ensures how != Complete ==> Standing(hw, line, p, q, 1, q + 1) && into[..q] == hw.clocked[..q]
      ensures into[q + 1..] == old(into[q + 1..]) && (how != Complete ==> into[q] == old(into[q]))
      ensures how == RunEnd.Closed ==> hw.pad == Pad.Closed
      ensures how == Late ==> hw.dryAt.Some?
      ensures Tallied(turns, how, q + if how == Complete then 2 else if how == Late then 0 else 1)
      ensures |turns| == q + if how == Complete || how == Late then 2 else 1
      ensures Charged(spins, left, |asked| - |old(asked)|, 1) && (how == Stalled ==> left == 0)
    {
      hide Inv, Later, Onward, Charged, Judged;
      ghost var was := hw;
      left, how := AwaitTurn(spins, line, p, q, 1, q + 1);
      OnwardFields(was, hw);
      if how != Complete {
        return;
      }
      Turn(answer, into, q, line, p);
    }

    /** The steady turns: `how` is Complete when all `k` ran. */
    method SteadyTurns(hasOut: bool, out: seq<byte>, fill: byte, len: nat, into: array<Arrival>,
                       p0: nat, q0: nat, k0: nat, spins: nat)
      returns (q: nat, left: nat, how: RunEnd, ghost p: nat)
      requires hasOut ==> len <= |out|
      requires p0 + k0 <= len && q0 + k0 <= into.Length && k0 > 0
      requires Standing(hw, Line(hasOut, out, fill, len), p0, q0, 1, q0 + 1)
      requires p0 == q0 + 2 + Ahead(hw) && into[..q0] == hw.clocked[..q0]
      requires Tallied(turns, Complete, q0 + 1) && |turns| == q0 + 1
      modifies this, into
      ensures hw.bufwr == old(hw.bufwr) && hw.quota == old(hw.quota)
      ensures q0 <= q <= q0 + k0 && p == p0 + (q - q0)
      ensures Standing(hw, Line(hasOut, out, fill, len), p, q, 1, q + 1)
      ensures into[..q] == hw.clocked[..q] && into[q..] == old(into[q..])
      ensures how == Complete ==> q == q0 + k0
      ensures how == RunEnd.Closed ==> hw.pad == Pad.Closed
      ensures how == Late ==> hw.dryAt.Some?
      ensures Tallied(turns, how, if how == Late then q else q + 1) && |turns| == q + if how == Late then 2 else 1
      ensures Charged(spins, left, |asked| - |old(asked)|, k0) && (how == Stalled ==> left == 0)
    {
      ghost var line := Line(hasOut, out, fill, len);
      hide *;
      ChargedNone(spins);
      var k, next := k0, p0;
      p, q, left, how := p0, q0, spins, Complete;
      ghost var whole := into[..];
      while k > 0
        invariant k <= k0 && q == q0 + (k0 - k) && next == p == p0 + (k0 - k) && how == Complete
        invariant hw.bufwr == old(hw.bufwr) && hw.quota == old(hw.quota)
        invariant p0 == q0 + 2 + Ahead(hw) && Standing(hw, line, p, q, 1, q + 1)
        invariant into[..q] == hw.clocked[..q] && into[q..] == whole[q..]
        invariant Tallied(turns, Complete, q + 1) && |turns| == q + 1
        invariant Charged(spins, left, |asked| - |old(asked)|, k0 - k)
        decreases k
      {
        var answer := if hasOut then out[next] else fill;
        LineAt(hasOut, out, fill, len, next);
        next := next + 1;
        ghost var was0 := hw;
        ghost var was, left0, n0 := into[..], left, |asked| - |old(asked)|;
        left, how := SteadyTurn(answer, into, q, left, line, p);
        ChargedOn(spins, left0, left, n0, |asked| - |old(asked)| - n0, k0 - k, 1, k0);
        StillBehind(whole, was, into[..], q, how != Complete);
        if how != Complete {
          break;
        }
        q := q + 1;
        p := p + 1;
        k := k - 1;
        AheadStays(was0, hw);
      }
    }

    /** A wait that did not end in its flag. Behind a close one more load of INTFLAGS
        counts one more byte, and looks at nothing but the flag waited for: TXCIF may
        stand beside it. */
    method Cut(mask: Awaited, how: RunEnd, q: nat, known0: nat, len: nat,
               ghost line: seq<byte>, ghost w: nat, ghost sure0: nat)
      returns (known: nat, ghost sure: nat)
      requires Standing(hw, line, w, q, sure0, known0) && known0 < len && q <= known0 <= q + 1
      requires 1 <= sure0 <= 2
      requires how == Stalled || (how == RunEnd.Closed && hw.pad == Pad.Closed)
      requires mask == Dre ==> w - Ahead(hw) == known0 + 1
      requires mask == Txc ==> hw.bufwr && w == len == known0 + 1 && hw.buffer.None?
                               && (sure0 < 2 ==> sure0 == 1 && q + 2 == len)
      modifies `hw, `asked
      ensures Onward(old(hw), hw) && Inv(hw, line[..w], q, sure)
      ensures known0 <= known <= known0 + 1 && known <= |hw.clocked| && NotDryBefore(hw, known0)
      ensures 1 <= sure <= 2
      ensures hw.over.Some? && known == q + 2 && sure < 2 ==>
        Overtaken(hw) || (hw.bufwr && hw.quota > len == known)
      ensures how == RunEnd.Closed && hw.dryAt.None? ==> known == |hw.clocked|
      ensures how == Stalled ==> known == known0
      ensures |asked| == |old(asked)| + if how == RunEnd.Closed then 1 else 0
      ensures how == RunEnd.Closed ==> asked != [] && asked[|asked| - 1].Load?
      ensures how == RunEnd.Closed ==> known == known0 + if Stands(asked[|asked| - 1].flags, mask) then 1 else 0
    {
      hide Inv, Onward, Standing, Stands, FlagsOf, Overtaken, NotDryBefore;
      known, sure := known0, sure0;
      StandingSizes(hw, line, w, q, sure0, known0);
      StandingKnown(hw, line, w, q, sure0, known0);
      OnwardSelf(hw);
      if how == RunEnd.Closed {
        ghost var was := hw;
        var f := Poll(line[..w], q, sure0);
        StandingOn(was, hw, line, w, q, sure0, known0);
        OnwardFields(was, hw);
        StandingKnown(hw, line, w, q, sure0, known0);
        CutCounts(hw, line, w, q, sure0, known0, len, mask);
        if Stands(f, mask) && known < len {
          known := known + 1;
          if hw.over.None? {
            Resure(hw, line[..w], q, sure0, 2);
            sure := 2;
          }
        }
      }
    }

    /** The last reads, two at most. Only the one behind which nothing is read may empty
        the FIFO, so a byte landing under it is no harm. */
    method Tail(into: array<Arrival>, q0: nat, known: nat, ghost written: seq<byte>, ghost sure: nat)
      requires Inv(hw, written, q0, sure) && q0 <= known <= q0 + 2 && known <= |hw.clocked| && sure >= 1
      requires known <= into.Length && into[..q0] == hw.clocked[..q0]
      modifies `hw, into
      ensures TailAt(old(hw), hw, into[..], q0, known, known, written, sure)
      ensures into[known..] == old(into[known..])
    {
      var q := q0;
      ghost var start := hw;
      assert TailAt(start, hw, into[..], q0, q, known, written, sure);
      hide TailAt, Inv, Later, AfterRead, Head, Onward;
      while q < known
        invariant q0 <= q <= known && TailAt(start, hw, into[..], q0, q, known, written, sure)
        invariant into[known..] == old(into[known..])
      {
        ghost var was, got := hw, into[..];
        var v, at := LoadData();
        into[q] := v;
        assert into[..] == got[q := v];
        assert into[known..] == got[known..];
        if q == q0 {
          TailFirst(start, was, at, got, q, known, written, sure);
        } else {
          TailSecond(start, was, at, got, q0, known, written, sure);
        }
        q := q + 1;
      }
    }

    /** What the tail is owed: the bytes to read are there, and good - all of them
        when nothing was lost, or when `sure` covers them. */
    ghost predicate Owed(line: seq<byte>, w: nat, len: nat, into: array<Arrival>, q: nat, known: nat, sure: nat)
      reads this, into
    {
      && w <= |line| && Inv(hw, line[..w], q, sure) && 1 <= sure <= 2
      && q <= known <= q + 2 && known <= len <= into.Length && known <= |hw.clocked|
      && into[..q] == hw.clocked[..q]
    }

    /** The wait behind the last answer. One more transfer is to come under BUFWR, so a
        byte is read here; none otherwise. */
    method LastDre(into: array<Arrival>, q0: nat, len: nat, spins: nat, ghost line: seq<byte>)
      returns (how: RunEnd, q: nat, known: nat, left: nat, ghost sure: nat)
      requires |line| == len <= into.Length && len == q0 + 2 + Ahead(hw)
      requires Standing(hw, line, len, q0, 1, q0 + 1) && into[..q0] == hw.clocked[..q0]
      requires Tallied(turns, Complete, q0 + 1) && |turns| == q0 + 1
      modifies this, into
      ensures hw.bufwr == old(hw.bufwr) && hw.quota == old(hw.quota) && q0 <= q <= q0 + 1
      ensures Owed(line, len, len, into, q, known, sure) && into[q..] == old(into[q..])
      ensures how == Complete ==> Standing(hw, line, len, q, sure, len - Ahead(hw)) && hw.buffer.None?
      ensures how == Complete ==> q == q0 + Ahead(hw) && known == q0 + 2 && (hw.over.Some? && !hw.bufwr ==> sure == 2)
      ensures how != Complete && hw.over.Some? && known == q + 2 && sure < 2 ==>
        Overtaken(hw) || (hw.bufwr && hw.quota > len == known)
      ensures (how != Complete ==> Ended(how, known, len, hw)) && (how == Stalled || how == Late ==> known <= q + 1)
      ensures Tallied(turns, how, known) && (how == Complete ==> |turns| == known)
      ensures how == RunEnd.Closed ==> CutAt(asked, |turns|, known, len - Ahead(hw))
      ensures Charged(spins, left, |asked| - |old(asked)|, 1) && (how == Stalled ==> left == 0)
    {
      hide Inv, Later, AfterRead, Head, Onward, Charged, Judged;
      ghost var was := hw;
      q, known, sure := q0, q0 + 1, 1;
      left, how := AwaitTurn(spins, line, len, q0, 1, q0 + 1);
      OnwardFields(was, hw);
      if how == Late {
        StandingSizes(hw, line, len, q0, 1, q0 + 1);
        known := q0;
        return;
      }
      if how != Complete {
        was := hw;
        known, sure := Cut(Dre, how, q0, q0 + 1, len, line, len, 1);
        OnwardFields(was, hw);
        return;
      }
      StandingCounts(hw, line, len, q0, 1, q0 + 1);
      known, sure := q0 + 2, 2;
      if hw.bufwr {
        was := hw;
        var v, at := LoadData();
        StandingReads(was, at, line, len, q0);
        into[q] := v;
        q, sure := q + 1, 1;
      }
    }

    /** The write of event 0: the answer behind the preload, when there is one. */
    method FirstWrite(answer: byte, ghost line: seq<byte>, ghost w: nat)
      requires Standing(hw, line, w, 0, 2, 1) && hw.buffer.None? && w < |line| && answer == line[w]
      requires w == 1 + Ahead(hw)
      modifies `hw
      ensures Standing(hw, line, w + 1, 0, 1, 1)
      ensures hw.bufwr == old(hw.bufwr) && hw.quota == old(hw.quota)
    {
      ghost var was := hw;
      Resure(hw, line[..w], 0, 2, 1);
      hide Inv, Later, AfterWrite;
      ghost var at := StoreData(answer);
      StandingWrites(was, at, answer, line, w, 0, 1);
    }

    /** Event 0, which reads nothing: the wait, and the write of the next answer. */
    method EventZero(hasOut: bool, out: seq<byte>, fill: byte, len: nat, pre: nat, spins: nat)
      returns (how: RunEnd, known: nat, left: nat, ghost w: nat, ghost sure: nat)
      requires (hasOut ==> len <= |out|) && 1 <= len
      requires pre == 1 + Ahead(hw) <= len
      requires Standing(hw, Line(hasOut, out, fill, len), pre, 0, 2, 0) && turns == []
      modifies this
      ensures hw.bufwr == old(hw.bufwr) && hw.quota == old(hw.quota)
      ensures w <= len && Inv(hw, Line(hasOut, out, fill, len)[..w], 0, sure) && 1 <= sure <= 2
      ensures known <= 1 && known <= |hw.clocked|
      ensures how == Complete ==> known == 1 && Standing(hw, Line(hasOut, out, fill, len), w, 0, sure, 1)
      ensures how == Complete ==> w == if pre == len then len else pre + 1
      ensures how == Complete ==> sure == (if pre == len then 2 else 1) && (pre == len ==> hw.buffer.None?)
      ensures how != Complete ==> Ended(how, known, len, hw)
      ensures Tallied(turns, how, known) && (how == Complete ==> |turns| == known)
      ensures how == RunEnd.Closed ==> CutAt(asked, |turns|, known, len - Ahead(hw))
      ensures Charged(spins, left, |asked| - |old(asked)|, 1) && (how == Stalled ==> left == 0)
    {
      hide Later, Line, Charged, Inv, Onward, Judged;
      ghost var line := Line(hasOut, out, fill, len);
      ghost var was := hw;
      known, w, sure := 0, pre, 2;
      NoTurns(turns);
      left, how := AwaitTurn(spins, line, w, 0, 2, 0);
      OnwardFields(was, hw);
      if how == Late {
        StandingSizes(hw, line, w, 0, 2, 0);
        return;
      }
      if how != Complete {
        was := hw;
        known, sure := Cut(Dre, how, 0, 0, len, line, w, 2);
        OnwardFields(was, hw);
        return;
      }
      StandingCounts(hw, line, w, 0, 2, 0);
      known := 1;
      if len - pre != 0 {
        LineAt(hasOut, out, fill, len, pre);
        FirstWrite(if hasOut then out[pre] else fill, line, w);
        w, sure := w + 1, 1;
      }
    }

    /** Event 0 and the steady turns behind it. Complete: every answer is written. */
    method Opening(hasOut: bool, out: seq<byte>, fill: byte, len: nat, into: array<Arrival>, pre: nat, spins: nat)
      returns (how: RunEnd, q: nat, known: nat, left: nat, ghost w: nat, ghost sure: nat)
      requires (hasOut ==> len <= |out|) && 1 <= len <= into.Length
      requires pre == 1 + Ahead(hw) <= len && turns == []
      requires Standing(hw, Line(hasOut, out, fill, len), pre, 0, 2, 0)
      modifies this, into
      ensures hw.bufwr == old(hw.bufwr) && hw.quota == old(hw.quota)
      ensures Owed(Line(hasOut, out, fill, len), w, len, into, q, known, sure)
      ensures into[q..] == old(into[q..])
      ensures how == Complete ==> w == len && known == q + 1 && Standing(hw, Line(hasOut, out, fill, len), w, q, sure, known)
      ensures how == Complete ==> q == if len > pre then len - pre - 1 else 0
      ensures how == Complete ==> sure == (if len > pre then 1 else 2) && (len == pre ==> hw.buffer.None?)
      ensures how != Complete ==> Ended(how, known, len, hw) && (how == Stalled || how == Late ==> known <= q + 1)
      ensures how != Complete && hw.over.Some? && known == q + 2 && sure < 2 ==>
        Overtaken(hw) || (hw.bufwr && hw.quota > len == known)
      ensures Tallied(turns, how, known) && (how == Complete ==> |turns| == known)
      ensures how == RunEnd.Closed ==> CutAt(asked, |turns|, known, len - Ahead(hw))
      ensures Charged(spins, left, |asked| - |old(asked)|, len) && (how == Stalled ==> left == 0)
    {
      hide Inv, Later, Charged;
      q := 0;
      how, known, left, w, sure := EventZero(hasOut, out, fill, len, pre, spins);
      ghost var left0, n0 := left, |asked| - |old(asked)|;
      ChargedMore(spins, left, n0, 1, n0, len);
      if how != Complete || len <= pre + 1 {
        return;
      }
      var steady := len - pre - 1;
      q, left, how, w := SteadyTurns(hasOut, out, fill, len, into, pre + 1, 0, steady, left);
      ghost var n1 := |asked| - |old(asked)|;
      ChargedOn(spins, left0, left, n0, n1 - n0, 1, steady, steady + 1);
      ChargedMore(spins, left, n1, steady + 1, n1, len);
      known := q + 1;
      if how == Late {
        known := q;
      } else if how != Complete {
        known, sure := Cut(Dre, how, q, known, len, Line(hasOut, out, fill, len), w, 1);
        ChargedMore(spins, left, n1, steady + 1, |asked| - |old(asked)|, len);
      }
    }

    /** Under BUFWR the last transfer's end is TXCIF: the wait for it, with every
        answer written and moved. */
    method LastTxc(into: array<Arrival>, q: nat, known0: nat, len: nat, spins: nat, ghost line: seq<byte>, ghost sure0: nat)
      returns (how: RunEnd, known: nat, left: nat, ghost sure: nat)
      requires |line| == len <= into.Length && hw.bufwr && len == known0 + 1 && hw.buffer.None?
      requires Standing(hw, line, len, q, sure0, known0) && q <= known0 <= q + 1 && 1 <= sure0 <= 2
      requires sure0 < 2 ==> q + 2 == len
      requires into[..q] == hw.clocked[..q]
      requires Tallied(turns, Complete, known0) && |turns| == known0
      modifies this
      ensures hw.bufwr == old(hw.bufwr) && hw.quota == old(hw.quota)
      ensures Owed(line, len, len, into, q, known, sure) && Ended(how, known, len, hw)
      ensures how == Stalled || how == Late ==> known <= q + 1
      ensures hw.over.Some? && known == q + 2 && sure < 2 ==>
        Overtaken(hw) || (hw.bufwr && hw.quota > len == known)
      ensures Tallied(turns, how, known)
      ensures how == RunEnd.Closed ==> CutAt(asked, |turns|, known, len - Ahead(hw))
      ensures Charged(spins, left, |asked| - |old(asked)|, 1) && (how == Stalled ==> left == 0)
    {
      hide Idle, Charged, Inv, Onward;
      ghost var was := hw;
      known, sure := known0, sure0;
      var f;
      ghost var t;
      f, left, how, t := Await(Txc, spins, line[..len], q, sure0);
      StandingOn(was, hw, line, len, q, sure0, known0);
      OnwardFields(was, hw);
      if f.None? {
        was := hw;
        known, sure := Cut(Txc, how, q, known0, len, line, len, sure0);
        OnwardFields(was, hw);
      } else {
        LastIsIn(hw, line, q, sure, known0);
        known := len;
      }
    }

    /** The window, from the select's fall to where the tail takes over. */
    method Window(hasOut: bool, out: seq<byte>, fill: byte, len: nat, into: array<Arrival>, pre: nat, spins: nat)
      returns (how: RunEnd, q: nat, known: nat, left: nat, ghost w: nat, ghost sure: nat)
      requires (hasOut ==> len <= |out|) && 1 <= len <= into.Length && turns == []
      requires pre == if hw.bufwr && len >= 2 then 2 else 1
      requires Standing(hw, Line(hasOut, out, fill, len), pre, 0, 2, 0)
      modifies this, into
      ensures hw.bufwr == old(hw.bufwr) && hw.quota == old(hw.quota)
      ensures Owed(Line(hasOut, out, fill, len), w, len, into, q, known, sure) && Ended(how, known, len, hw)
      ensures into[q..] == old(into[q..])
      ensures how == Stalled || how == Late ==> known <= q + 1
      ensures hw.over.Some? && known == q + 2 && sure < 2 ==>
        Overtaken(hw) || (hw.bufwr && hw.quota > len == known)
      ensures Tallied(turns, how, known)
      ensures how == RunEnd.Closed ==> CutAt(asked, |turns|, known, len - Ahead(hw))
      ensures Charged(spins, left, |asked| - |old(asked)|, len + 2) && (how == Stalled ==> left == 0)
    {
      hide Inv, Standing, Line, Ended, NotDryBefore, Onward, Later, Tallied, Charged;
      ghost var line := Line(hasOut, out, fill, len);
      left, q, known, w, sure := spins, 0, 0, pre, 2;
      ChargedNone(spins);
      ghost var waits := 0;
      if hw.bufwr && len == 1 {
        OneAnswer(hw, line);
        NoTurns(turns);
      } else {
        how, q, known, left, w, sure := Opening(hasOut, out, fill, len, into, pre, left);
        waits := len;
        ghost var n := |asked| - |old(asked)|;
        ChargedMore(spins, left, n, len, n, len + 2);
        if how != Complete {
          return;
        }
        if len > pre {
          ghost var opened0, q0, left0 := into[..], q, left;
          how, q, known, left, sure := LastDre(into, q, len, left, line);
          assert into[q..] == opened0[q..] == opened0[q0..][q - q0..];
          waits := len + 1;
          ChargedOn(spins, left0, left, n, |asked| - |old(asked)| - n, len, 1, len + 2);
          if how != Complete {
            return;
          }
        }
      }
      if hw.bufwr {
        ghost var n, left0 := |asked| - |old(asked)|, left;
        how, known, left, sure := LastTxc(into, q, known, len, left, line, sure);
        ChargedOn(spins, left0, left, n, |asked| - |old(asked)| - n, waits, 1, len + 2);
      } else {
        how := Complete;
        StandingEnds(hw, line, w, q, sure, len);
        StandingSizes(hw, line, w, q, sure, len);
      }
    }

    /** The receiver flushed, and the first load of INTFLAGS: is the transmitter empty? */
    method FlushAndLoad() returns (f: Flags)
      requires Ready(hw)
      modifies `hw, `asked
      ensures Ready(hw) && hw.fifo == [] && hw.held.None? && !hw.rxcif && !hw.bufovf && hw.sent == []
      ensures hw.bufwr == old(hw.bufwr) && hw.quota == old(hw.quota)
      ensures (f.dre <==> old(hw).buffer.None?) && (f.dre ==> hw.buffer.None?) && |asked| == |old(asked)| + 1
    {
      FlushReceive();
      FullStays(hw);
      f := LoadHeld();
    }

    /** From a waiting select to a window open with the preload in place; zero when
        the run stalled before it (the transmitter full, or the budget out). */
    method OpenWindow(hasOut: bool, out: seq<byte>, fill: byte, len: nat, spins: nat)
      returns (pre: nat, left: nat, ghost spent: nat)
      requires Ready(hw) && (hasOut ==> len <= |out|) && 1 <= len && spins < 0x1_0000_0000
      modifies `hw, `asked
      ensures hw.bufwr == old(hw.bufwr) && hw.quota == old(hw.quota)
      ensures pre == 0 || pre == if hw.bufwr && len >= 2 then 2 else 1
      ensures pre != 0 ==> Standing(hw, Line(hasOut, out, fill, len), pre, 0, 2, 0)
      ensures pre == 0 ==> hw.sent <= Line(hasOut, out, fill, len)
      ensures old(hw).buffer.Some? ==> pre == 0 && spent == 0
      ensures pre == 0 && old(hw).buffer.None? ==> spent == Budget(spins)
      ensures pre != 0 ==> spent < Budget(spins) && left == Left(spins, spent)
      ensures spent <= |asked| - |old(asked)| <= 2 * spent + 4
    {
      hide Ready, Settle, Preloaded, Inv, Budget, Left, Standing, Onward, Line;
      var f := FlushAndLoad();
      if !f.dre {
        return 0, spins, 0;
      }
      pre, left, spent := Preload(hasOut, out, fill, len, spins);
      if pre == 0 {
        return;
      }
      ghost var line := Line(hasOut, out, fill, len);
      LineIs(hasOut, out, fill, len);
      ClearTxcif(line[..pre]);
      LeftFits(spins, spent);
      ghost var was := hw;
      var open;
      ghost var t;
      open, left, t := AwaitSelect(left, line[..pre]);
      OnwardFields(was, hw);
      AtOpen(hw, line, pre);
      ghost var rounds := if open then (|t| - 1) / 2 else |t| / 2;
      LeftOn(spins, spent, rounds);
      spent := spent + rounds;
      if !open {
        pre := 0;
      }
    }

    /** The tail behind a window, and what it makes of the whole buffer. */
    method ReadTail(into: array<Arrival>, q: nat, known: nat, len: nat, ghost line: seq<byte>, ghost w: nat, ghost sure: nat)
      requires Owed(line, w, len, into, q, known, sure)
      modifies `hw, into
      ensures Onward(old(hw), hw) && hw.bufwr == old(hw.bufwr) && hw.quota == old(hw.quota)
      ensures hw.sent <= line && q <= known <= q + 2 && known <= |hw.clocked| && known <= len <= into.Length
      ensures into[known..] == old(into[known..])
      ensures known > 0 ==> into[..known - 1] == hw.clocked[..known - 1] && Whole(hw, known - 1)
      ensures into[..known] == hw.clocked[..known] <==> Whole(hw, known)
      ensures Whole(hw, known) || (3 <= known < hw.quota && known == q + 2 && old(hw).over.Some? && sure < 2)
    {
      hide Inv, Onward, TailAt, Written;
      ghost var vouched := sure;
      if hw.over.None? {
        Resure(hw, line[..w], q, sure, 2);
        vouched := 2;
      }
      ghost var was := hw;
      Tail(into, q, known, line[..w], vouched);
      TailDone(was, hw, into[..], q, known, line[..w], vouched);
      PrefixOn(hw.sent, line, w);
    }

    /**
     A buffer-mode exchange() or receive(), against any host and any delay.

     What is stored is the first transfers' bytes, in order, exactly when none of
     those was overwritten in the receiver. That leaves the last byte alone at stake,
     on a host that clocks more than was counted, and on one of two occasions: the
     cut took one more byte, and TXCIF stands beside DREIF behind the closed select for
     anyone to read; or the run is under BUFWR and its host clocks past it. A complete run
     counted all `len` and saw no transfer before its last find the transmitter dry; a late
     one saw one that did.
    */
    method ServeBuffered(hasOut: bool, out: seq<byte>, fill: byte, into: array<Arrival>, len: nat, spins: nat)
      returns (count: nat, end: RunEnd)
      requires Ready(hw)
      requires (hasOut ==> len <= |out|) && 1 <= len <= 0xFFFF && len <= into.Length && spins < 0x1_0000_0000
      modifies this, into
      ensures count <= len && count <= |hw.clocked| && into[count..] == old(into[count..])
      ensures into[..count] == hw.clocked[..count] <==> Whole(hw, count)
      ensures count > 0 ==> into[..count - 1] == hw.clocked[..count - 1] && Whole(hw, count - 1)
      ensures !Whole(hw, count) ==> 3 <= count < hw.quota && (Overtaken(hw) || (hw.bufwr && end == Complete))
      ensures !Whole(hw, count) ==> end == Complete || end == RunEnd.Closed
      ensures end == Complete && hw.quota <= len ==> into[..count] == hw.clocked[..count]
      ensures end == Complete <==> count == len && end != Late && end != Stalled
      ensures end == Complete ==> NotDryBefore(hw, len - 1)
      ensures end == RunEnd.Closed && hw.dryAt.None? ==> count == |hw.clocked|
      ensures |hw.sent| <= len && forall i :: 0 <= i < |hw.sent| ==> hw.sent[i] == if hasOut then out[i] else fill
      ensures hw.bufwr == old(hw.bufwr) && hw.quota == old(hw.quota)
      // Late: on the flags that said so, and on those alone.
      ensures forall i :: 0 <= i < |turns| ==> (turns[i].txc || turns[i].ovf <==> end == Late && i == |turns| - 1)
      ensures end == Late ==> hw.dryAt.Some? && turns != [] && count == if |turns| < 2 then 0 else |turns| - 2
      ensures end != Late ==> |turns| <= count <= |turns| + 1
      // Closed: a byte more for the flag waited for, asked for once more behind the close.
      ensures end == RunEnd.Closed ==> asked != [] && asked[|asked| - 1].Load?
      ensures end == RunEnd.Closed ==>
        var f := asked[|asked| - 1].flags;
        count == |turns| + if (if |turns| < (if hw.bufwr then len - 1 else len) then f.dre else f.txc) then 1 else 0
      // Stalled: the transmitter full, or the budget waited out - and no wait is longer.
      ensures old(hw).buffer.Some? ==> end == Stalled && count == 0 && |asked| <= 4
      ensures end == Stalled ==> count == |turns| && (old(hw).buffer.Some? || |asked| >= spins)
      ensures |asked| <= 5 * Budget(spins) + 1281 * (len + 3)
      // So a host that clocks the run against a client in time has it complete.
      ensures hw.dryAt.None? && |hw.clocked| >= len ==> end == Complete || end == Stalled
    {
      hide Inv, Onward, Standing, Ready, Owed, Line, Overtaken;
      LineIs(hasOut, out, fill, len);
      asked, turns := [], [];
      ghost var spent;
      var pre, left;
      pre, left, spent := OpenWindow(hasOut, out, fill, len, spins);
      if pre == 0 {
        return 0, Stalled;
      }
      ghost var line := Line(hasOut, out, fill, len);
      ghost var w, sure;
      var q, known;
      ghost var whole := into[..];
      end, q, known, left, w, sure := Window(hasOut, out, fill, len, into, pre, left);
      ghost var was, mid := hw, into[..];
      ReadTail(into, q, known, len, line, w, sure);
      StillTail(whole, mid, into[..], q, known);
      EndedOn(end, known, len, was, hw);
      OvertakenOn(was, hw);
      count := known;
      if end == RunEnd.Closed && count == len {
        end := Complete;
      }
    }
  }
}

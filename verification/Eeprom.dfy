/**
 The EEPROM verbs of the AVR EA's Nvm (brio/avrxt/nvm.hpp:1562-1735), each register
 access at any moment of a running operation. Nothing else writes the controller.
*/
module Eeprom {
  import opened Basics
  import opened EepromSilicon

  /** What an operation will leave, the one that runs included. */
  function Settled(h: Nvm): seq<bv8> { Finish(h).cells }

  function Wear(h: Nvm): seq<nat> { Finish(h).cycles }

  /** `src` is being left in place: the bytes that differ loaded, and nothing else. */
  ghost predicate Storing(h: Nvm, t: Nvm, offset: nat, src: seq<bv8>)
    requires Shaped(h)
  {
    && Shaped(t) && t.collided == h.collided && t.protected == h.protected
    && Settled(t) == Placed(Settled(h), offset, src)
    && Wear(t) == Cycled(Wear(h), Settled(h), offset, src)
    && (if AnyDiffers(Settled(h), offset, src)
        then t.started == h.started + [offset / PAGE] && t.running.Some?
             && t.running.value.op == Choice(Settled(h), offset, src) && Legal(Settled(h), t.running.value)
        else t.started == h.started && t.running.None?)
  }

  /** A wait was given up: so many polls since, and the last of them all busy. */
  ghost predicate GaveUp(was: seq<bool>, now: seq<bool>, limit: nat) {
    was <= now && |now| >= |was| + limit && forall i :: |now| - limit <= i < |now| ==> !now[i]
  }

  lemma StillGaveUp(was: seq<bool>, mid: seq<bool>, now: seq<bool>, limit: nat)
    requires was <= mid && GaveUp(mid, now, limit)
    ensures GaveUp(was, now, limit)
  {
  }

  class Nvm3 {
    var hw: Nvm
    ghost var polls: seq<bool>   // what every poll of the controller has found: idle, or not

    /** !busy(), at some later moment. */
    method Idle() returns (idle: bool)
      modifies this
      ensures Elapsed(old(hw), hw) && idle == hw.running.None? && polls == old(polls) + [idle]
    {
      if * {
        hw := Finish(hw);
      }
      polls := polls + [hw.running.None?];
      return hw.running.None?;
    }

    /** wait_idle, wait_eeprom: so many polls. */
    method WaitIdle(limit: nat) returns (ok: bool)
      modifies this
      ensures Elapsed(old(hw), hw) && ok == (limit > 0 && hw.running.None?)
      ensures old(polls) <= polls && (!ok ==> GaveUp(old(polls), polls, limit))
    {
      var i := 0;
      while i < limit
        invariant Elapsed(old(hw), hw) && (i > 0 ==> hw.running.Some?)
        invariant i <= limit && GaveUp(old(polls), polls, i)
      {
        var idle := Idle();
        if idle {
          return true;
        }
        i := i + 1;
      }
      return false;
    }

    /** busy() && !wait_idle(), the other way about. */
    method BecomesIdle(limit: nat) returns (ok: bool)
      modifies this
      ensures Elapsed(old(hw), hw) && (ok ==> hw.running.None?) && (!ok ==> hw.running.Some? || limit == 0)
      ensures old(polls) <= polls && (!ok ==> GaveUp(old(polls), polls, limit))
    {
      ok := Idle();
      if !ok {
        ok := WaitIdle(limit);
      }
    }

    method Command(c: Command)
      requires hw.running.None?
      modifies this`hw
      ensures hw == AfterCommand(old(hw), c)
    {
      hw := AfterCommand(hw, c);
    }

    method Load(offset: nat, v: bv8)
      requires hw.running.None?
      modifies this`hw
      ensures hw == AfterLoad(old(hw), offset, v)
    {
      hw := AfterLoad(hw, offset, v);
    }

    /** eeprom_open. */
    method Open(limit: nat) returns (ok: bool)
      modifies this
      ensures !ok ==> Elapsed(old(hw), hw) && (hw.protected || GaveUp(old(polls), polls, limit))
      ensures ok ==> hw == Finish(old(hw)).(buffer := map[], command := BufferClear) && !hw.protected
    {
      if hw.protected {
        return false;
      }
      ok := BecomesIdle(limit);
      if ok {
        Command(BufferClear);
      }
    }

    /** eeprom_run: one operation over a run inside one page. */
    method RunOp(offset: nat, src: seq<bv8>, op: Op, limit: nat) returns (ok: bool)
      requires Shaped(hw)
      modifies this
      ensures Shaped(hw)
      ensures !ok ==> Elapsed(old(hw), hw)
                      && (!IsRun(offset, |src|) || hw.protected || GaveUp(old(polls), polls, limit))
      ensures ok ==> IsRun(offset, |src|) && !hw.protected && hw.started == old(hw.started) + [offset / PAGE]
      ensures ok ==> hw.collided == old(hw.collided)
      ensures ok ==> Settled(hw) == Over(Settled(old(hw)), op, offset, src, All(|src|))
      ensures ok ==> Wear(hw) == OneMore(Wear(old(hw)), offset, All(|src|))
    {
      hide *;
      ghost var was := hw;
      if !IsRun(offset, |src|) {
        Stays(hw);
        return false;
      }
      ok := Open(limit);
      if !ok {
        ShapedStill(was, hw);
        return;
      }
      ghost var ready := hw;
      OpenedFacts(was, ready);
      LoadedNone(ready, offset, src);
      AllNone();
      var i := 0;
      while i < |src|
        invariant i <= |src| && Loaded(ready, hw, offset, src, All(i)) && hw.running.None?
      {
        LoadsMore(ready, hw, offset, src, All(i));
        AllMore(i);
        Load(offset + i, src[i]);
        i := i + 1;
        LoadedIdle(ready, hw, offset, src, All(i));
      }
      RunSome(offset, |src|);
      AllWanted(ready, hw, offset, src);
      Starts(ready, hw, offset, src, All(|src|), op);
      Command(PageOp(op));
    }

    /** Which bytes of a run differ, and whether they are all erased now or all ones then. */
    method Compare(offset: nat, src: seq<bv8>) returns (differ: seq<bool>, erased: bool, ones: bool)
      requires Shaped(hw) && hw.running.None? && IsRun(offset, |src|)
      ensures Differing(hw.cells, offset, src, differ) && |differ| == |src|
      ensures erased == forall i :: 0 <= i < |src| && differ[i] ==> hw.cells[offset + i] == 0xFF
      ensures ones == forall i :: 0 <= i < |src| && differ[i] ==> src[i] == 0xFF
    {
      differ, erased, ones := [], true, true;
      var i := 0;
      while i < |src|
        invariant i == |differ| <= |src| && Differing(hw.cells, offset, src, differ)
        invariant erased == forall k :: 0 <= k < i && differ[k] ==> hw.cells[offset + k] == 0xFF
        invariant ones == forall k :: 0 <= k < i && differ[k] ==> src[k] == 0xFF
      {
        var was := hw.cells[offset + i];
        differ := differ + [was != src[i]];
        if was != src[i] {
          erased := erased && was == 0xFF;
          ones := ones && src[i] == 0xFF;
        }
        i := i + 1;
      }
    }

    /** One load for each byte marked, in order. */
    method LoadThese(offset: nat, src: seq<bv8>, differ: seq<bool>)
      requires IsRun(offset, |src|) && |differ| == |src| && hw.running.None? && hw.buffer == map[]
      modifies this`hw
      ensures Loaded(old(hw), hw, offset, src, differ) && hw.running.None?
    {
      hide *;
      ghost var ready := hw;
      LoadedNone(ready, offset, src);
      var i := 0;
      while i < |src|
        invariant i <= |src| && Loaded(ready, hw, offset, src, differ[..i]) && hw.running.None?
      {
        assert differ[..i + 1] == differ[..i] + [differ[i]];
        if differ[i] {
          LoadsMore(ready, hw, offset, src, differ[..i]);
          Load(offset + i, src[i]);
        } else {
          SkipsMore(ready, hw, offset, src, differ[..i]);
        }
        i := i + 1;
        LoadedIdle(ready, hw, offset, src, differ[..i]);
      }
      assert differ[..|src|] == differ;
    }

    /** eeprom_store_run: the bytes that differ loaded, and the operation chosen for them. */
    method StoreRun(offset: nat, src: seq<bv8>, limit: nat) returns (ok: bool)
      requires Shaped(hw)
      modifies this
      ensures Shaped(hw)
      ensures !ok ==> Elapsed(old(hw), hw)
                      && (!IsRun(offset, |src|) || hw.protected || GaveUp(old(polls), polls, limit))
      ensures ok ==> IsRun(offset, |src|) && !hw.protected && Storing(old(hw), hw, offset, src)
      ensures old(polls) <= polls
    {
      hide *;
      if !IsRun(offset, |src|) {
        Stays(hw);
        return false;
      }
      if hw.protected {
        Stays(hw);
        return false;
      }
      ghost var was := hw;
      ok := BecomesIdle(limit);
      if !ok {
        ShapedStill(was, hw);
        return;
      }
      IdleIsFinish(was, hw);
      var differ, erased, ones := Compare(offset, src);
      ghost var idle := hw;
      if forall i :: 0 <= i < |differ| ==> !differ[i] {
        NothingDiffers(idle, offset, src, differ);
        NothingIsStoring(idle, offset, src);
        StoringSince(was, hw, offset, src);
        return true;
      }
      Command(BufferClear);
      Cleared(idle);
      ghost var ready := hw;
      LoadThese(offset, src, differ);
      var op := if ones then Erase else if erased then Write else EraseWrite;
      Chosen(idle, ready, hw, offset, src, differ, op);
      ghost var t := AfterCommand(hw, PageOp(op));
      StoringParts(idle, t, offset, src);
      StoringSince(was, t, offset, src);
      Command(PageOp(op));
      return true;
    }

    /** clear_command: NOCMD, whatever runs. */
    method ClearCommand()
      requires Shaped(hw)
      modifies this`hw
      ensures Shaped(hw) && Settled(hw) == Settled(old(hw)) && Wear(hw) == Wear(old(hw))
      ensures hw.started == old(hw.started) && hw.collided == (old(hw.collided) || hw.running.Some?)
      ensures old(hw.running).None? ==> hw == old(hw).(command := NoCmd)
    {
      if * {
        hw := Finish(hw);
      }
      hw := AfterCommand(hw, NoCmd);
    }

    /** eeprom_write_block: any length, a page run at a time, each waited for. */
    method WriteBlock(offset: nat, src: seq<bv8>, limit: nat) returns (ok: bool, ghost done: nat)
      requires Shaped(hw)
      modifies this
      ensures Shaped(hw) && done <= |src|
      ensures Stored(old(hw), hw, offset, src[..done])
      ensures ok ==> done == |src| && offset + |src| <= SIZE
      ensures ok && src != [] ==> hw.running.None? && hw.command == NoCmd
      ensures hw.collided == (old(hw.collided) || (ok && src == [] && hw.running.Some?))
      ensures !ok ==> offset + |src| > SIZE || hw.protected || GaveUp(old(polls), polls, limit)
    {
      hide *;
      done, ok := 0, false;
      ghost var was := hw;
      StoredNone(was, offset, src);
      if offset + |src| > SIZE {
        return;
      }
      var at := 0;
      while at < |src|
        invariant at == done <= |src| && Shaped(hw) && Stored(was, hw, offset, src[..at])
        invariant at > 0 ==> hw.running.None?
        invariant 0 < at < |src| ==> Aligned(offset + at)
        invariant hw.collided == was.collided && old(polls) <= polls
      {
        var n := Room(offset + at);
        n := if n > |src| - at then |src| - at else n;
        ghost var before, asked := hw, polls;
        RoomIsRun(offset + at, n);
        ok := StoreRun(offset + at, src[at..at + n], limit);
        if !ok {
          StoredStill(was, before, hw, offset, src[..at]);
          if !hw.protected {
            StillGaveUp(old(polls), asked, polls, limit);
          }
          return;
        }
        StoredMore(was, before, hw, offset, src, at, n);
        done := at + n;
        ghost var stored, begun := hw, polls;
        ok := WaitIdle(limit);
        StoredStill(was, stored, hw, offset, src[..done]);
        if !ok {
          StillGaveUp(old(polls), begun, polls, limit);
          return;
        }
        at := at + n;
      }
      ghost var idle := hw;
      ClearCommand();
      StoredAfter(was, idle, hw, offset, src[..done]);
      ok := true;
    }
  }

  /** eeprom_run_room. */
  function Room(offset: nat): (n: nat)
    ensures n > 0
  {
    PAGE - offset % PAGE
  }

  predicate Aligned(offset: nat) { offset % PAGE == 0 }

  /** The operations started since: each of a page of the stretch, and no page twice. */
  ghost predicate PageByPage(was: seq<nat>, now: seq<nat>, offset: nat, len: nat) {
    && was <= now && (len == 0 ==> now == was)
    && (forall k :: |was| <= k < |now| ==> offset / PAGE <= now[k] <= (offset + len - 1) / PAGE)
    && forall j, k :: |was| <= j < k < |now| ==> now[j] < now[k]
  }

  /** From `h` to `t`: `src` in place, cycling the bytes that differed and no other, with
      at most one operation for each page of it, in their order. */
  ghost predicate Stored(h: Nvm, t: Nvm, offset: nat, src: seq<bv8>) {
    && Settled(t) == Placed(Settled(h), offset, src)
    && Wear(t) == Cycled(Wear(h), Settled(h), offset, src)
    && PageByPage(h.started, t.started, offset, |src|)
  }

  lemma Stays(h: Nvm)
    ensures Elapsed(h, h)
  {
  }

  lemma ShapedStill(h: Nvm, t: Nvm)
    requires Shaped(h) && Elapsed(h, t)
    ensures Shaped(t) && t.protected == h.protected
  {
  }

  lemma LoadedNone(ready: Nvm, offset: nat, src: seq<bv8>)
    requires ready.buffer == map[]
    ensures Loaded(ready, ready, offset, src, [])
  {
  }

  lemma LoadedIdle(ready: Nvm, h: Nvm, offset: nat, src: seq<bv8>, want: seq<bool>)
    requires Loaded(ready, h, offset, src, want)
    ensures h.running == ready.running
  {
    hide Wanted, Holds;
  }

  lemma StoringParts(h: Nvm, t: Nvm, offset: nat, src: seq<bv8>)
    requires Shaped(h) && Storing(h, t, offset, src)
    ensures Shaped(t) && t.protected == h.protected && t.collided == h.collided
    ensures Settled(t) == Placed(Settled(h), offset, src) && Wear(t) == Cycled(Wear(h), Settled(h), offset, src)
    ensures t.started == h.started || t.started == h.started + [offset / PAGE]
  {
    hide Placed, Cycled, AnyDiffers, Choice, Legal, Shaped;
  }

  /** The bytes marked are those that differ. */
  ghost predicate Differing(cells: seq<bv8>, offset: nat, src: seq<bv8>, differ: seq<bool>) {
    && |differ| <= |src| && offset + |src| <= |cells|
    && forall i :: 0 <= i < |differ| ==> (differ[i] <==> cells[offset + i] != src[i])
  }

  lemma NothingDiffers(h: Nvm, offset: nat, src: seq<bv8>, differ: seq<bool>)
    requires Shaped(h) && h.running.None? && Differing(h.cells, offset, src, differ) && |differ| == |src|
    requires forall i :: 0 <= i < |differ| ==> !differ[i]
    ensures !AnyDiffers(h.cells, offset, src)
    ensures h.cells == Placed(h.cells, offset, src) && h.cycles == Cycled(h.cycles, h.cells, offset, src)
  {
    forall i | 0 <= i < |h.cells| ensures !Differs(h.cells, offset, src, i) {
      if offset <= i < offset + |src| {
        assert !differ[i - offset];
      }
    }
  }

  /** What the loads and the choice make of the run. */
  lemma Chosen(idle: Nvm, ready: Nvm, h: Nvm, offset: nat, src: seq<bv8>, differ: seq<bool>, op: Op)
    requires Shaped(idle) && idle.running.None? && !idle.protected && ready == AfterCommand(idle, BufferClear)
    requires IsRun(offset, |src|) && Loaded(ready, h, offset, src, differ) && |differ| == |src|
    requires Differing(idle.cells, offset, src, differ) && exists i :: 0 <= i < |differ| && differ[i]
    requires op == if forall i :: 0 <= i < |src| && differ[i] ==> src[i] == 0xFF then Erase
                   else if forall i :: 0 <= i < |src| && differ[i] ==> idle.cells[offset + i] == 0xFF then Write
                   else EraseWrite
    ensures Storing(idle, AfterCommand(h, PageOp(op)), offset, src)
  {
    hide *;
    SomeDiffers(ready, h, offset, src, differ, idle.cells);
    Cleared(idle);
    Starts(ready, h, offset, src, differ, op);
    SameChoice(idle.cells, offset, src, differ);
    OverIsPlaced(idle.cells, idle.cycles, offset, src, differ);
    var t := AfterCommand(h, PageOp(op));
    LoadedRest(ready, h, offset, src, differ, op);
    LegalChoice(idle, t, offset, src, differ, op);
    IsStoring(idle, t, offset, src);
  }

  lemma Cleared(h: Nvm)
    requires Shaped(h) && h.running.None?
    ensures var r := AfterCommand(h, BufferClear);
      && Shaped(r) && r == h.(command := BufferClear, buffer := map[]) && Settled(h) == h.cells && Wear(h) == h.cycles
  {
  }

  lemma LoadedRest(ready: Nvm, h: Nvm, offset: nat, src: seq<bv8>, want: seq<bool>, op: Op)
    requires Loaded(ready, h, offset, src, want) && ready.running.None?
    ensures AfterCommand(h, PageOp(op)).cells == ready.cells && AfterCommand(h, PageOp(op)).cycles == ready.cycles
    ensures AfterCommand(h, PageOp(op)).protected == ready.protected
  {
    hide Wanted, Holds;
  }

  lemma SomeDiffers(ready: Nvm, h: Nvm, offset: nat, src: seq<bv8>, differ: seq<bool>, cells: seq<bv8>)
    requires Loaded(ready, h, offset, src, differ) && |differ| == |src|
    requires Differing(cells, offset, src, differ) && exists i :: 0 <= i < |differ| && differ[i]
    ensures h.buffer != map[] && AnyDiffers(cells, offset, src)
  {
    var k :| 0 <= k < |differ| && differ[k];
    assert Wanted(offset % PAGE, differ, offset % PAGE + k) && Differs(cells, offset, src, offset + k);
  }

  lemma AndOnes(v: bv8)
    ensures 0xFF & v == v
  {
  }

  /** The operation chosen, over the bytes that differ, puts `src` in place. */
  lemma OverIsPlaced(cells: seq<bv8>, cycles: seq<nat>, offset: nat, src: seq<bv8>, differ: seq<bool>)
    requires Differing(cells, offset, src, differ) && |differ| == |src| && |cycles| == |cells|
    ensures Over(cells, Choice(cells, offset, src), offset, src, differ) == Placed(cells, offset, src)
    ensures OneMore(cycles, offset, differ) == Cycled(cycles, cells, offset, src)
  {
    var op := Choice(cells, offset, src);
    forall i | 0 <= i < |cells|
      ensures Wanted(offset, differ, i) <==> Differs(cells, offset, src, i)
      ensures Wanted(offset, differ, i) ==> Result(op, cells[i], src[i - offset]) == src[i - offset] {
      if Wanted(offset, differ, i) {
        AndOnes(src[i - offset]);
      }
    }
  }

  lemma IsStoring(h: Nvm, t: Nvm, offset: nat, src: seq<bv8>)
    requires Shaped(h) && Shaped(t) && h.running.None? && t.collided == h.collided && t.protected == h.protected
    requires Settled(t) == Placed(h.cells, offset, src) && Wear(t) == Cycled(h.cycles, h.cells, offset, src)
    requires AnyDiffers(h.cells, offset, src) && t.started == h.started + [offset / PAGE] && t.running.Some?
    requires t.running.value.op == Choice(h.cells, offset, src) && Legal(h.cells, t.running.value)
    ensures Storing(h, t, offset, src)
  {
    hide Placed, Cycled, AnyDiffers, Choice, Legal;
  }

  lemma IdleIsFinish(h: Nvm, t: Nvm)
    requires Shaped(h) && Elapsed(h, t) && t.running.None?
    ensures t == Finish(h) && Shaped(t) && t.protected == h.protected
  {
  }

  /** Storing from where the running operation left off is storing from before it. */
  lemma StoringSince(h: Nvm, t: Nvm, offset: nat, src: seq<bv8>)
    requires Shaped(h) && Shaped(Finish(h)) && Storing(Finish(h), t, offset, src)
    ensures Storing(h, t, offset, src)
  {
    assert Finish(Finish(h)) == Finish(h);
    hide Placed, Cycled, AnyDiffers, Choice, Legal, Shaped, Applied, Worn;
  }

  lemma NothingIsStoring(h: Nvm, offset: nat, src: seq<bv8>)
    requires Shaped(h) && h.running.None? && !AnyDiffers(h.cells, offset, src)
    requires h.cells == Placed(h.cells, offset, src) && h.cycles == Cycled(h.cycles, h.cells, offset, src)
    ensures Storing(h, h, offset, src)
  {
    hide Placed, Cycled, AnyDiffers, Choice, Legal;
  }

  lemma SameChoice(cells: seq<bv8>, offset: nat, src: seq<bv8>, differ: seq<bool>)
    requires Differing(cells, offset, src, differ) && |differ| == |src|
    ensures Choice(cells, offset, src) ==
            if forall i :: 0 <= i < |src| && differ[i] ==> src[i] == 0xFF then Erase
            else if forall i :: 0 <= i < |src| && differ[i] ==> cells[offset + i] == 0xFF then Write
            else EraseWrite
  {
    forall i | 0 <= i < |src| ensures differ[i] <==> Differs(cells, offset, src, offset + i) {
    }
    forall i | 0 <= i < |cells| && Differs(cells, offset, src, i) ensures differ[i - offset] {
    }
  }

  lemma LegalChoice(idle: Nvm, t: Nvm, offset: nat, src: seq<bv8>, differ: seq<bool>, op: Op)
    requires Shaped(idle) && Differing(idle.cells, offset, src, differ) && |differ| == |src|
    requires op == Choice(idle.cells, offset, src)
    requires t.running.Some? && t.running.value.op == op && t.cells == idle.cells
    requires Wear(t) == OneMore(idle.cycles, offset, differ) && t.cycles == idle.cycles
    ensures Legal(idle.cells, t.running.value)
  {
    var r := t.running.value;
    forall i | 0 <= i < SIZE && Reaches(r, i) ensures Differs(idle.cells, offset, src, i) {
      assert Worn(t.cycles, r)[i] == OneMore(idle.cycles, offset, differ)[i];
    }
  }

  function All(n: nat): (want: seq<bool>)
    ensures |want| == n && forall k :: 0 <= k < n ==> want[k]
  {
    seq(n, _ => true)
  }

  lemma AllNone()
    ensures All(0) == []
  {
  }

  lemma RunSome(offset: nat, len: nat)
    requires IsRun(offset, len)
    ensures len > 0
  {
  }

  lemma OpenedFacts(was: Nvm, ready: Nvm)
    requires Shaped(was) && ready == Finish(was).(buffer := map[], command := BufferClear)
    ensures Shaped(ready) && ready.running.None? && ready.buffer == map[]
    ensures Settled(was) == ready.cells && Wear(was) == ready.cycles
    ensures ready.started == was.started && ready.collided == was.collided
  {
  }

  lemma AllMore(n: nat)
    ensures All(n + 1) == All(n) + [true]
  {
  }

  /** The buffer holds the bytes wanted so far, and no other; the last load was in the
      run's page. */
  ghost predicate Loaded(ready: Nvm, h: Nvm, offset: nat, src: seq<bv8>, want: seq<bool>) {
    && |want| <= |src| && h == ready.(buffer := h.buffer, page := h.page)
    && (h.buffer != map[] ==> h.page == offset / PAGE)
    && (forall k :: k in h.buffer <==> Wanted(offset % PAGE, want, k))
    && (forall k :: k in h.buffer ==> Holds(h.buffer, offset % PAGE, src, k))
  }

  ghost predicate Holds(b: Buffer, at: nat, src: seq<bv8>, k: nat)
    requires k in b
  {
    at <= k < at + |src| && b[k] == src[k - at]
  }

  lemma SamePage(offset: nat, len: nat, i: nat)
    requires IsRun(offset, len)
    ensures offset <= i < offset + len <==> i / PAGE == offset / PAGE && offset % PAGE <= i % PAGE < offset % PAGE + len
    ensures offset <= i < offset + len ==> i % PAGE - offset % PAGE == i - offset
  {
  }

  /** The next byte loaded. */
  lemma LoadsMore(ready: Nvm, h: Nvm, offset: nat, src: seq<bv8>, want: seq<bool>)
    requires IsRun(offset, |src|) && |want| < |src| && Loaded(ready, h, offset, src, want) && ready.running.None?
    ensures Loaded(ready, AfterLoad(h, offset + |want|, src[|want|]), offset, src, want + [true])
  {
    SamePage(offset, |src|, offset + |want|);
    var t, at, i := AfterLoad(h, offset + |want|, src[|want|]), offset % PAGE, |want|;
    forall k: nat ensures Wanted(at, want + [true], k) <==> Wanted(at, want, k) || k == at + i {
    }
    assert t.buffer == h.buffer[at + i := src[i]];
  }

  /** The next byte passed over. */
  lemma SkipsMore(ready: Nvm, h: Nvm, offset: nat, src: seq<bv8>, want: seq<bool>)
    requires |want| < |src| && Loaded(ready, h, offset, src, want)
    ensures Loaded(ready, h, offset, src, want + [false])
  {
    forall k: nat ensures Wanted(offset % PAGE, want + [false], k) <==> Wanted(offset % PAGE, want, k) {
    }
  }

  lemma AllWanted(ready: Nvm, h: Nvm, offset: nat, src: seq<bv8>)
    requires Loaded(ready, h, offset, src, All(|src|)) && src != []
    ensures h.buffer != map[]
  {
    assert Wanted(offset % PAGE, All(|src|), offset % PAGE);
  }

  lemma Starts(ready: Nvm, h: Nvm, offset: nat, src: seq<bv8>, want: seq<bool>, op: Op)
    requires IsRun(offset, |src|) && Loaded(ready, h, offset, src, want) && |want| == |src|
    requires Shaped(ready) && ready.running.None? && !ready.protected && h.buffer != map[]
    ensures var t := AfterCommand(h, PageOp(op));
      && Shaped(t) && t.started == ready.started + [offset / PAGE] && t.collided == ready.collided && !t.protected
      && t.running == Some(Running(op, offset / PAGE, h.buffer))
      && Settled(t) == Over(ready.cells, op, offset, src, want) && Wear(t) == OneMore(ready.cycles, offset, want)
  {
    var r := Running(op, offset / PAGE, h.buffer);
    forall i: nat | i < SIZE
      ensures Reaches(r, i) <==> Wanted(offset, want, i)
      ensures Reaches(r, i) ==> r.loaded[i % PAGE] == src[i - offset] {
      SamePage(offset, |src|, i);
      assert i % PAGE in h.buffer <==> Wanted(offset % PAGE, want, i % PAGE);
      if i % PAGE in h.buffer {
        assert Holds(h.buffer, offset % PAGE, src, i % PAGE);
      }
    }
    forall k | k in h.buffer ensures k < PAGE {
      assert Wanted(offset % PAGE, want, k);
    }
  }

  lemma StoredNone(h: Nvm, offset: nat, src: seq<bv8>)
    ensures Stored(h, h, offset, src[..0])
  {
    assert Placed(Settled(h), offset, []) == Settled(h);
    assert Cycled(Wear(h), Settled(h), offset, []) == Wear(h);
  }

  lemma StoredStill(h: Nvm, m: Nvm, t: Nvm, offset: nat, src: seq<bv8>)
    requires Shaped(m) && Stored(h, m, offset, src) && Elapsed(m, t)
    ensures Shaped(t) && Stored(h, t, offset, src) && t.collided == m.collided && t.protected == m.protected
  {
    hide Placed, Cycled;
  }

  lemma StoredAfter(h: Nvm, m: Nvm, t: Nvm, offset: nat, src: seq<bv8>)
    requires Stored(h, m, offset, src) && Settled(t) == Settled(m) && Wear(t) == Wear(m) && t.started == m.started
    ensures Stored(h, t, offset, src)
  {
    hide Placed, Cycled, Settled, Wear;
  }

  lemma RoomIsRun(offset: nat, n: nat)
    requires 0 < n <= Room(offset) && offset + n <= SIZE
    ensures IsRun(offset, n)
  {
  }

  /** The next run's page is behind the last's. */
  lemma OnePageMore(offset: nat, at: nat, n: nat)
    requires 0 < n <= Room(offset + at) && (at > 0 ==> Aligned(offset + at))
    ensures (offset + at + n - 1) / PAGE == (offset + at) / PAGE
    ensures at > 0 ==> (offset + at - 1) / PAGE < (offset + at) / PAGE
    ensures n == Room(offset + at) ==> Aligned(offset + at + n)
  {
  }

  /** One operation more, of that page. */
  lemma NextPage(was: seq<nat>, now: seq<nat>, later: seq<nat>, offset: nat, at: nat, n: nat)
    requires PageByPage(was, now, offset, at) && 0 < n <= Room(offset + at) && (at > 0 ==> Aligned(offset + at))
    requires later == now || later == now + [(offset + at) / PAGE]
    ensures PageByPage(was, later, offset, at + n)
  {
    OnePageMore(offset, at, n);
    assert offset / PAGE <= (offset + at) / PAGE;
    hide Room, Aligned;
  }

  lemma PlacedTwice(cells: seq<bv8>, cycles: seq<nat>, offset: nat, a: seq<bv8>, b: seq<bv8>)
    requires |cycles| == |cells|
    ensures Placed(Placed(cells, offset, a), offset + |a|, b) == Placed(cells, offset, a + b)
    ensures Cycled(Cycled(cycles, cells, offset, a), Placed(cells, offset, a), offset + |a|, b)
            == Cycled(cycles, cells, offset, a + b)
  {
    var p := Placed(cells, offset, a);
    forall i | 0 <= i < |cells|
      ensures Differs(cells, offset, a + b, i) <==> Differs(cells, offset, a, i) || Differs(p, offset + |a|, b, i) {
    }
  }

  lemma StoredMore(h: Nvm, m: Nvm, t: Nvm, offset: nat, src: seq<bv8>, at: nat, n: nat)
    requires Shaped(h) && Shaped(m) && at + n <= |src|
    requires Stored(h, m, offset, src[..at]) && Storing(m, t, offset + at, src[at..at + n])
    requires 0 < n <= Room(offset + at) && (at > 0 ==> Aligned(offset + at))
    ensures Shaped(t) && Stored(h, t, offset, src[..at + n]) && t.collided == m.collided && t.protected == m.protected
    ensures at + n < |src| && n == Room(offset + at) ==> Aligned(offset + at + n)
  {
    hide *;
    var a, b := src[..at], src[at..at + n];
    assert a + b == src[..at + n];
    SettledSizes(h);
    OnePageMore(offset, at, n);
    PlacedTwice(Settled(h), Wear(h), offset, a, b);
    StoredParts(h, m, offset, a);
    StoringParts(m, t, offset + at, b);
    NextPage(h.started, m.started, t.started, offset, at, n);
    StoredWhole(h, t, offset, a + b);
  }

  lemma SettledSizes(h: Nvm)
    requires Shaped(h)
    ensures |Wear(h)| == |Settled(h)|
  {
  }

  lemma StoredParts(h: Nvm, t: Nvm, offset: nat, src: seq<bv8>)
    requires Stored(h, t, offset, src)
    ensures Settled(t) == Placed(Settled(h), offset, src) && Wear(t) == Cycled(Wear(h), Settled(h), offset, src)
    ensures PageByPage(h.started, t.started, offset, |src|)
  {
    hide Settled, Wear, Placed, Cycled, PageByPage;
  }

  lemma StoredWhole(h: Nvm, t: Nvm, offset: nat, src: seq<bv8>)
    requires Settled(t) == Placed(Settled(h), offset, src) && Wear(t) == Cycled(Wear(h), Settled(h), offset, src)
    requires PageByPage(h.started, t.started, offset, |src|)
    ensures Stored(h, t, offset, src)
  {
    hide Settled, Wear, Placed, Cycled, PageByPage;
  }
}

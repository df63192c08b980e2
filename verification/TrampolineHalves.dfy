/**
 What classify takes for a float trampoline (cli/vector_guard.py:323-383), said of its
 instructions' places and not of what a pass over them collects: which halves it takes,
 and which of those restore.
*/
module TrampolineHalves {
  import opened Basics
  import opened Listing
  import opened Trampoline

  predicate MovesSp(i: Insn) { i.Addi? && i.rd == "sp" && i.rs == "sp" }

  /** What the half before the call may hold, and the half behind it. */
  predicate InFirst(i: Insn) {
    MovesSp(i) || (i.Fsw? && i.base == "sp") || i.FcsrRead? || (i.Sw? && i.base == "sp")
  }

  predicate InSecond(i: Insn) {
    MovesSp(i) || (i.Flw? && i.base == "sp") || i.FcsrWrite? || (i.Lw? && i.base == "sp")
  }

  /** How far the stack pointer is moved. */
  function Moved(insns: seq<Insn>): int {
    if insns == [] then 0
    else
      var last := insns[|insns| - 1];
      Moved(insns[..|insns| - 1]) + if MovesSp(last) then last.imm else 0
  }

  /** The last store of an f-register is to this slot; the last load is from it. */
  ghost predicate StoredTo(insns: seq<Insn>, f: Reg, off: int) {
    exists i :: 0 <= i < |insns| && insns[i] == Fsw(f, off, "sp")
      && forall j :: i < j < |insns| && insns[j].Fsw? ==> insns[j].fs != f
  }

  ghost predicate LoadedFrom(insns: seq<Insn>, f: Reg, off: int) {
    exists i :: 0 <= i < |insns| && insns[i] == Flw(f, off, "sp")
      && forall j :: i < j < |insns| && insns[j].Flw? ==> insns[j].fd != f
  }

  /** The one read of fcsr, and the one store of an integer register, of what it read. */
  ghost predicate Saves(insns: seq<Insn>, r: nat, s: nat, off: int) {
    && r < s < |insns| && insns[r].FcsrRead? && insns[s] == Sw(insns[r].rd, off, "sp")
    && forall i :: 0 <= i < |insns| ==> (insns[i].FcsrRead? <==> i == r) && (insns[i].Sw? <==> i == s)
  }

  /** The one load of an integer register, and the one write of fcsr, of what it loaded. */
  ghost predicate Restores(insns: seq<Insn>, l: nat, w: nat, off: int) {
    && l < w < |insns| && insns[l].Lw? && insns[l].off == off && insns[l].base == "sp"
    && insns[w].FcsrWrite? && insns[w].rs == insns[l].rd
    && forall i :: 0 <= i < |insns| ==> (insns[i].Lw? <==> i == l) && (insns[i].FcsrWrite? <==> i == w)
  }

  /** The halves, fcsr's step in each whole or not there. */
  ghost predicate FirstHalf(insns: seq<Insn>) {
    && (forall i :: 0 <= i < |insns| ==> InFirst(insns[i]))
    && ((forall i :: 0 <= i < |insns| ==> !insns[i].FcsrRead? && !insns[i].Sw?)
        || exists r: nat, s: nat, off :: Saves(insns, r, s, off))
  }

  ghost predicate SecondHalf(insns: seq<Insn>) {
    && (forall i :: 0 <= i < |insns| ==> InSecond(insns[i]))
    && ((forall i :: 0 <= i < |insns| ==> !insns[i].Lw? && !insns[i].FcsrWrite?)
        || exists l: nat, w: nat, off :: Restores(insns, l, w, off))
  }

  ghost predicate SameSlots(before: seq<Insn>, after: seq<Insn>) {
    forall f, off :: StoredTo(before, f, off) <==> LoadedFrom(after, f, off)
  }

  ghost predicate StoresTwenty(before: seq<Insn>) {
    forall f :: f in CALLER_SAVED_F <==> exists off :: StoredTo(before, f, off)
  }

  ghost predicate OwnSlot(before: seq<Insn>, after: seq<Insn>) {
    exists off, r: nat, s: nat, l: nat, w: nat ::
      Saves(before, r, s, off) && Restores(after, l, w, off) && forall f :: !StoredTo(before, f, off)
  }

  /** Every one of the twenty from the slot it was stored in, and no other; fcsr from its
      own slot; the stack pointer back. */
  ghost predicate PutBack(before: seq<Insn>, after: seq<Insn>) {
    SameSlots(before, after) && StoresTwenty(before) && OwnSlot(before, after) && Moved(before) + Moved(after) == 0
  }

  // ---- the half before the call ------------------------------------------------------------

  /** Where fcsr's step stands behind these instructions. */
  ghost predicate Saving(insns: seq<Insn>, waits: Option<Reg>, saved: Option<int>) {
    match (waits, saved)
    case (None, None) => forall i :: 0 <= i < |insns| ==> !insns[i].FcsrRead? && !insns[i].Sw?
    case (Some(rd), None) =>
      exists r :: 0 <= r < |insns| && insns[r] == FcsrRead(rd)
        && forall i :: 0 <= i < |insns| ==> (insns[i].FcsrRead? <==> i == r) && !insns[i].Sw?
    case (None, Some(off)) => exists r: nat, s: nat :: Saves(insns, r, s, off)
    case (Some(_), Some(_)) => exists r, q :: 0 <= r < q < |insns| && insns[r].FcsrRead? && insns[q].FcsrRead?
  }

  ghost predicate Firsts(insns: seq<Insn>, m: Met) {
    && (forall i :: 0 <= i < |insns| ==> InFirst(insns[i])) && m.adjust == Moved(insns)
    && m.loaded == map[] && m.restored == None
    && (forall f, off :: StoredTo(insns, f, off) <==> f in m.stored && m.stored[f] == off)
    && Saving(insns, m.waits, m.saved)
  }

  lemma StoredNext(insns: seq<Insn>, i: Insn, f: Reg, off: int)
    requires InFirst(i)
    ensures StoredTo(insns + [i], f, off) <==> if i.Fsw? && i.fs == f then i.off == off else StoredTo(insns, f, off)
  {
    var all, n := insns + [i], |insns|;
    assert all[n] == i && forall j :: 0 <= j < n ==> all[j] == insns[j];
    if StoredTo(insns, f, off) && !(i.Fsw? && i.fs == f) {
      var k :| 0 <= k < n && insns[k] == Fsw(f, off, "sp")
        && forall j :: k < j < n && insns[j].Fsw? ==> insns[j].fs != f;
      assert all[k] == Fsw(f, off, "sp");
    }
  }

  lemma SavingNext(insns: seq<Insn>, i: Insn, m: Met)
    requires Saving(insns, m.waits, m.saved) && Before(m, i).Some?
    ensures Saving(insns + [i], Before(m, i).value.waits, Before(m, i).value.saved)
  {
    var all, n := insns + [i], |insns|;
    assert all[n] == i && forall j :: 0 <= j < n ==> all[j] == insns[j];
    if i.FcsrRead? {
      assert all[n] == FcsrRead(i.rd);
      if m.saved.Some? {
        var r: nat, s: nat :| Saves(insns, r, s, m.saved.value);
        assert all[r].FcsrRead?;
      }
    } else if i.Sw? {
      var r :| 0 <= r < n && insns[r] == FcsrRead(m.waits.value)
        && forall j :: 0 <= j < n ==> (insns[j].FcsrRead? <==> j == r) && !insns[j].Sw?;
      assert Saves(all, r, n, i.off);
    } else {
      SavingSame(insns, i, m.waits, m.saved);
    }
  }

  lemma SavingSame(insns: seq<Insn>, i: Insn, waits: Option<Reg>, saved: Option<int>)
    requires Saving(insns, waits, saved) && !i.FcsrRead? && !i.Sw?
    ensures Saving(insns + [i], waits, saved)
  {
    var all, n := insns + [i], |insns|;
    assert all[n] == i && forall j :: 0 <= j < n ==> all[j] == insns[j];
    match (waits, saved)
    case (None, None) =>
    case (Some(rd), None) =>
      var r :| 0 <= r < n && insns[r] == FcsrRead(rd)
        && forall j :: 0 <= j < n ==> (insns[j].FcsrRead? <==> j == r) && !insns[j].Sw?;
      assert all[r] == FcsrRead(rd);
    case (None, Some(off)) =>
      var r: nat, s: nat :| Saves(insns, r, s, off);
      assert Saves(all, r, s, off);
    case (Some(_), Some(_)) =>
      var r, q :| 0 <= r < q < n && insns[r].FcsrRead? && insns[q].FcsrRead?;
      assert all[r].FcsrRead? && all[q].FcsrRead?;
  }

  lemma FirstsNext(insns: seq<Insn>, i: Insn, m: Met)
    requires Firsts(insns, m) && Before(m, i).Some?
    ensures Firsts(insns + [i], Before(m, i).value)
  {
    var all, t := insns + [i], Before(m, i).value;
    assert InFirst(i) && all[..|all| - 1] == insns && all[|insns|] == i;
    SavingNext(insns, i, m);
    assert forall j :: 0 <= j < |insns| ==> all[j] == insns[j];
    assert t.adjust == m.adjust + (if MovesSp(i) then i.imm else 0) && t.loaded == m.loaded && t.restored == m.restored;
    assert t.stored == if i.Fsw? then m.stored[i.fs := i.off] else m.stored;
    hide Saving, Before, InFirst;
    forall f, off ensures StoredTo(all, f, off) <==> f in t.stored && t.stored[f] == off {
      StoredNext(insns, i, f, off);
      hide StoredTo;
    }
  }

  lemma {:induction false} FirstsHold(insns: seq<Insn>)
    requires Befores(insns).Some?
    ensures Firsts(insns, Befores(insns).value)
    decreases |insns|
  {
    if insns == [] {
    } else {
      var n := |insns| - 1;
      FirstsHold(insns[..n]);
      hide Firsts, Before;
      FirstsNext(insns[..n], insns[n], Befores(insns[..n]).value);
      assert insns[..n] + [insns[n]] == insns;
    }
  }

  /** A half as it should be is taken, instruction by instruction. */
  lemma {:induction false} FirstTaken(insns: seq<Insn>, n: nat)
    requires FirstHalf(insns) && n <= |insns|
    ensures Befores(insns[..n]).Some?
    decreases n
  {
    if n > 0 {
      FirstTaken(insns, n - 1);
      var front := insns[..n - 1];
      FirstsHold(front);
      assert insns[..n][..n - 1] == front;
      NextTaken(insns, n - 1, Befores(front).value);
      hide Before, Firsts, FirstHalf;
    }
  }

  lemma NextTaken(insns: seq<Insn>, n: nat, m: Met)
    requires FirstHalf(insns) && n < |insns| && Firsts(insns[..n], m)
    ensures Before(m, insns[n]).Some?
  {
    var front, i := insns[..n], insns[n];
    assert InFirst(i);
    if i.FcsrRead? || i.Sw? {
      var r: nat, s: nat, off :| Saves(insns, r, s, off);
      assert forall j :: 0 <= j < n ==> front[j] == insns[j];
      hide StoredTo;
      if i.Sw? {
        assert front[r] == insns[r];
      }
    }
  }

  lemma FirstIff(insns: seq<Insn>)
    ensures FirstHalf(insns) <==> Befores(insns).Some? && Befores(insns).value.waits.None?
  {
    assert insns[..|insns|] == insns;
    if FirstHalf(insns) {
      FirstTaken(insns, |insns|);
      FirstsHold(insns);
      hide Befores, StoredTo;
      NoneWait(insns, Befores(insns).value);
    } else if Befores(insns).Some? {
      FirstsHold(insns);
      hide Befores, StoredTo;
    }
  }

  lemma NoneWait(insns: seq<Insn>, m: Met)
    requires FirstHalf(insns) && Firsts(insns, m)
    ensures m.waits.None?
  {
    hide StoredTo, InFirst;
    if r: nat, s: nat, off :| Saves(insns, r, s, off) {
    }
  }

  // ---- the half behind it ------------------------------------------------------------------

  ghost predicate Restoring(insns: seq<Insn>, waits: Option<Reg>, slot: int, restored: Option<int>) {
    match (waits, restored)
    case (None, None) => forall i :: 0 <= i < |insns| ==> !insns[i].Lw? && !insns[i].FcsrWrite?
    case (Some(rd), None) =>
      exists l :: 0 <= l < |insns| && insns[l] == Lw(rd, slot, "sp")
        && forall i :: 0 <= i < |insns| ==> (insns[i].Lw? <==> i == l) && !insns[i].FcsrWrite?
    case (None, Some(off)) => exists l: nat, w: nat :: Restores(insns, l, w, off)
    case (Some(_), Some(_)) => false
  }

  ghost predicate Seconds(from: Met, insns: seq<Insn>, m: Met) {
    && (forall i :: 0 <= i < |insns| ==> InSecond(insns[i])) && m.adjust == from.adjust + Moved(insns)
    && m.stored == from.stored && m.saved == from.saved
    && (forall f, off :: LoadedFrom(insns, f, off) <==> f in m.loaded && m.loaded[f] == off)
    && Restoring(insns, m.waits, m.slot, m.restored)
  }

  lemma LoadedNext(insns: seq<Insn>, i: Insn, f: Reg, off: int)
    requires InSecond(i)
    ensures LoadedFrom(insns + [i], f, off) <==> if i.Flw? && i.fd == f then i.off == off else LoadedFrom(insns, f, off)
  {
    var all, n := insns + [i], |insns|;
    assert all[n] == i && forall j :: 0 <= j < n ==> all[j] == insns[j];
    if LoadedFrom(insns, f, off) && !(i.Flw? && i.fd == f) {
      var k :| 0 <= k < n && insns[k] == Flw(f, off, "sp")
        && forall j :: k < j < n && insns[j].Flw? ==> insns[j].fd != f;
      assert all[k] == Flw(f, off, "sp");
    }
  }

  lemma RestoringNext(insns: seq<Insn>, i: Insn, m: Met)
    requires Restoring(insns, m.waits, m.slot, m.restored) && After(m, i).Some?
    ensures var t := After(m, i).value; Restoring(insns + [i], t.waits, t.slot, t.restored)
  {
    var all, n := insns + [i], |insns|;
    assert all[n] == i && forall j :: 0 <= j < n ==> all[j] == insns[j];
    if i.Lw? {
      assert all[n] == Lw(i.rd, i.off, "sp");
    } else if i.FcsrWrite? {
      var l :| 0 <= l < n && insns[l] == Lw(m.waits.value, m.slot, "sp")
        && forall j :: 0 <= j < n ==> (insns[j].Lw? <==> j == l) && !insns[j].FcsrWrite?;
      assert Restores(all, l, n, m.slot);
    } else {
      RestoringSame(insns, i, m.waits, m.slot, m.restored);
    }
  }

  lemma RestoringSame(insns: seq<Insn>, i: Insn, waits: Option<Reg>, slot: int, restored: Option<int>)
    requires Restoring(insns, waits, slot, restored) && !i.Lw? && !i.FcsrWrite?
    ensures Restoring(insns + [i], waits, slot, restored)
  {
    var all, n := insns + [i], |insns|;
    assert all[n] == i && forall j :: 0 <= j < n ==> all[j] == insns[j];
    match (waits, restored)
    case (None, None) =>
    case (Some(rd), None) =>
      var l :| 0 <= l < n && insns[l] == Lw(rd, slot, "sp")
        && forall j :: 0 <= j < n ==> (insns[j].Lw? <==> j == l) && !insns[j].FcsrWrite?;
      assert all[l] == Lw(rd, slot, "sp");
    case (None, Some(off)) =>
      var l: nat, w: nat :| Restores(insns, l, w, off);
      assert Restores(all, l, w, off);
    case (Some(_), Some(_)) =>
  }

  lemma SecondsNext(from: Met, insns: seq<Insn>, i: Insn, m: Met)
    requires Seconds(from, insns, m) && After(m, i).Some?
    ensures Seconds(from, insns + [i], After(m, i).value)
  {
    var all, t := insns + [i], After(m, i).value;
    assert InSecond(i) && all[..|all| - 1] == insns && all[|insns|] == i;
    RestoringNext(insns, i, m);
    assert forall j :: 0 <= j < |insns| ==> all[j] == insns[j];
    assert t.adjust == m.adjust + (if MovesSp(i) then i.imm else 0) && t.stored == m.stored && t.saved == m.saved;
    assert t.loaded == if i.Flw? then m.loaded[i.fd := i.off] else m.loaded;
    hide Restoring, After, InSecond;
    forall f, off ensures LoadedFrom(all, f, off) <==> f in t.loaded && t.loaded[f] == off {
      LoadedNext(insns, i, f, off);
      hide LoadedFrom;
    }
  }

  /** What the first half leaves the second to begin with. */
  predicate Halfway(m: Met) { m.loaded == map[] && m.restored.None? && m.waits.None? }

  lemma {:induction false} SecondsHold(from: Met, insns: seq<Insn>)
    requires Halfway(from) && Afters(from, insns).Some?
    ensures Seconds(from, insns, Afters(from, insns).value)
    decreases |insns|
  {
    if insns == [] {
    } else {
      var n := |insns| - 1;
      SecondsHold(from, insns[..n]);
      hide Seconds, After;
      SecondsNext(from, insns[..n], insns[n], Afters(from, insns[..n]).value);
      assert insns[..n] + [insns[n]] == insns;
    }
  }

  lemma {:induction false} SecondTaken(from: Met, insns: seq<Insn>, n: nat)
    requires Halfway(from) && SecondHalf(insns) && n <= |insns|
    ensures Afters(from, insns[..n]).Some?
    decreases n
  {
    if n > 0 {
      SecondTaken(from, insns, n - 1);
      var front := insns[..n - 1];
      SecondsHold(from, front);
      assert insns[..n][..n - 1] == front;
      NextTakenToo(from, insns, n - 1, Afters(from, front).value);
      hide After, Seconds, SecondHalf;
    }
  }

  lemma NextTakenToo(from: Met, insns: seq<Insn>, n: nat, m: Met)
    requires SecondHalf(insns) && n < |insns| && Seconds(from, insns[..n], m)
    ensures After(m, insns[n]).Some?
  {
    var front, i := insns[..n], insns[n];
    assert InSecond(i);
    if i.Lw? || i.FcsrWrite? {
      var l: nat, w: nat, off :| Restores(insns, l, w, off);
      assert forall j :: 0 <= j < n ==> front[j] == insns[j];
      hide LoadedFrom;
      if i.FcsrWrite? {
        assert front[l] == insns[l];
      }
    }
  }

  lemma SecondIff(from: Met, insns: seq<Insn>)
    requires Halfway(from)
    ensures SecondHalf(insns) <==> Afters(from, insns).Some? && Afters(from, insns).value.waits.None?
  {
    assert insns[..|insns|] == insns;
    if SecondHalf(insns) {
      SecondTaken(from, insns, |insns|);
      SecondsHold(from, insns);
      hide Afters, LoadedFrom;
      NoneWaitsStill(from, insns, Afters(from, insns).value);
    } else if Afters(from, insns).Some? {
      SecondsHold(from, insns);
      hide Afters, LoadedFrom;
    }
  }

  lemma NoneWaitsStill(from: Met, insns: seq<Insn>, m: Met)
    requires SecondHalf(insns) && Seconds(from, insns, m)
    ensures m.waits.None?
  {
    hide LoadedFrom, InSecond;
    if l: nat, w: nat, off :| Restores(insns, l, w, off) {
    }
  }

  // ---- the verdict -------------------------------------------------------------------------

  /** The verdict, on what the two halves came to. */
  lemma VerdictIff(before: seq<Insn>, after: seq<Insn>, m: Met, n: Met, body: nat)
    requires Firsts(before, m) && Seconds(m, after, n) && m.waits.None? && n.waits.None?
    ensures Verdict(n, body) == Float(body) <==> PutBack(before, after)
    ensures Verdict(n, body) == Float(body) || Verdict(n, body).BadFloat?
  {
    hide *;
    FirstsAre(before, m);
    SecondsAre(m, after, n);
    KeysIff(before, n.stored);
    SlotsIff(before, after, n);
    StepIff(before, after, m, n);
    VerdictBy(before, after, n, body);
  }

  lemma FirstsAre(before: seq<Insn>, m: Met)
    requires Firsts(before, m)
    ensures m.adjust == Moved(before) && Saving(before, m.waits, m.saved)
    ensures forall f, off :: StoredTo(before, f, off) <==> f in m.stored && m.stored[f] == off
  {
    hide StoredTo, InFirst, Saving, Moved;
  }

  lemma SecondsAre(from: Met, after: seq<Insn>, n: Met)
    requires Seconds(from, after, n)
    ensures n.adjust == from.adjust + Moved(after) && n.stored == from.stored && n.saved == from.saved
    ensures forall f, off :: LoadedFrom(after, f, off) <==> f in n.loaded && n.loaded[f] == off
    ensures Restoring(after, n.waits, n.slot, n.restored)
  {
    hide LoadedFrom, InSecond, Restoring, Moved;
  }

  lemma VerdictBy(before: seq<Insn>, after: seq<Insn>, n: Met, body: nat)
    requires n.stored.Keys == CALLER_SAVED_F <==> StoresTwenty(before)
    requires n.stored == n.loaded <==> SameSlots(before, after)
    requires n.saved.Some? && n.saved == n.restored && n.saved.value !in n.stored.Values <==> OwnSlot(before, after)
    requires n.adjust == Moved(before) + Moved(after)
    ensures Verdict(n, body) == Float(body) <==> PutBack(before, after)
    ensures Verdict(n, body) == Float(body) || Verdict(n, body).BadFloat?
  {
    hide StoresTwenty, SameSlots, OwnSlot, Moved;
  }

  lemma KeysIff(before: seq<Insn>, stored: map<Reg, int>)
    requires forall f, off :: StoredTo(before, f, off) <==> f in stored && stored[f] == off
    ensures stored.Keys == CALLER_SAVED_F <==> StoresTwenty(before)
  {
    hide StoredTo;
    forall f: Reg ensures f in stored <==> exists off :: StoredTo(before, f, off) {
      if f in stored {
        assert StoredTo(before, f, stored[f]);
      }
    }
    if StoresTwenty(before) {
      assert forall f: Reg :: f in stored.Keys <==> f in CALLER_SAVED_F;
    }
  }

  lemma SlotsIff(before: seq<Insn>, after: seq<Insn>, n: Met)
    requires forall f, off :: StoredTo(before, f, off) <==> f in n.stored && n.stored[f] == off
    requires forall f, off :: LoadedFrom(after, f, off) <==> f in n.loaded && n.loaded[f] == off
    ensures n.stored == n.loaded <==> SameSlots(before, after)
  {
    hide StoredTo, LoadedFrom;
    if SameSlots(before, after) {
      forall f | f in n.stored ensures f in n.loaded && n.stored[f] == n.loaded[f] {
        assert StoredTo(before, f, n.stored[f]);
      }
      forall f | f in n.loaded ensures f in n.stored {
        assert LoadedFrom(after, f, n.loaded[f]);
      }
    }
  }

  lemma StepIff(before: seq<Insn>, after: seq<Insn>, m: Met, n: Met)
    requires Saving(before, m.waits, m.saved) && Restoring(after, n.waits, n.slot, n.restored)
    requires n.saved == m.saved && m.waits.None? && n.waits.None?
    requires forall f, off :: StoredTo(before, f, off) <==> f in n.stored && n.stored[f] == off
    ensures n.saved.Some? && n.saved == n.restored && n.saved.value !in n.stored.Values <==> OwnSlot(before, after)
  {
    SavedIs(before, m);
    RestoredIs(after, n);
    hide Saves, Restores, Saving, Restoring, StoredTo;
    forall off ensures off in n.stored.Values <==> exists f :: StoredTo(before, f, off) {
      if off in n.stored.Values {
        var f :| f in n.stored && n.stored[f] == off;
        assert StoredTo(before, f, off);
      }
    }
  }

  lemma SavedIs(before: seq<Insn>, m: Met)
    requires Saving(before, m.waits, m.saved) && m.waits.None?
    ensures forall off :: m.saved == Some(off) <==> exists r: nat, s: nat :: Saves(before, r, s, off)
  {
    if m.saved.Some? {
      var r: nat, s: nat :| Saves(before, r, s, m.saved.value);
    }
  }

  lemma RestoredIs(after: seq<Insn>, n: Met)
    requires Restoring(after, n.waits, n.slot, n.restored) && n.waits.None?
    ensures forall off :: n.restored == Some(off) <==> exists l: nat, w: nat :: Restores(after, l, w, off)
  {
    if n.restored.Some? {
      var l: nat, w: nat :| Restores(after, l, w, n.restored.value);
    }
  }

  /** The two halves' judgement: what they are when it is a float trampoline, when it is one
      that does not restore, and when it is none. */
  lemma HalvesIff(before: seq<Insn>, after: seq<Insn>, body: nat)
    ensures var v := Halves(before, after, body);
      && (v == Float(body) <==> FirstHalf(before) && SecondHalf(after) && PutBack(before, after))
      && (v.BadFloat? <==> FirstHalf(before) && SecondHalf(after) && !PutBack(before, after))
      && (v == NotOne <==> !FirstHalf(before) || !SecondHalf(after))
  {
    hide Before, After, FirstHalf, SecondHalf, PutBack, Verdict, Befores, Afters;
    FirstIff(before);
    if FirstHalf(before) {
      var m := Befores(before).value;
      FirstsHold(before);
      MetHalfway(before, m);
      SecondIff(m, after);
      if SecondHalf(after) {
        var n := Afters(m, after).value;
        SecondsHold(m, after);
        VerdictIff(before, after, m, n, body);
        hide Firsts, Seconds;
      }
    }
  }

  ghost predicate LoadsTwenty(after: seq<Insn>) {
    forall f :: f in CALLER_SAVED_F <==> exists off :: LoadedFrom(after, f, off)
  }

  /** Why two halves do not restore, the first reason that is true of them. */
  ghost predicate Lacks(before: seq<Insn>, after: seq<Insn>, why: WhyBad) {
    match why
    case NotTheTwenty => !StoresTwenty(before) || !LoadsTwenty(after)
    case OtherSlot => StoresTwenty(before) && LoadsTwenty(after) && !SameSlots(before, after)
    case NoFcsr =>
      StoresTwenty(before) && SameSlots(before, after) && (NoSteps(before) || NoSteps(after))
    case FcsrSlot =>
      StoresTwenty(before) && SameSlots(before, after) && !NoSteps(before) && !NoSteps(after) && !OwnSlot(before, after)
    case SpMoved =>
      StoresTwenty(before) && SameSlots(before, after) && OwnSlot(before, after) && Moved(before) + Moved(after) != 0
  }

  /** No read or write of fcsr. */
  predicate NoSteps(insns: seq<Insn>) {
    forall i :: 0 <= i < |insns| ==> !insns[i].FcsrRead? && !insns[i].FcsrWrite?
  }

  lemma WhyIff(before: seq<Insn>, after: seq<Insn>, body: nat, why: WhyBad)
    requires FirstHalf(before) && SecondHalf(after)
    ensures Halves(before, after, body) == BadFloat(why) ==> Lacks(before, after, why)
  {
    hide *;
    FirstIff(before);
    FirstsHold(before);
    var m := Befores(before).value;
    MetHalfway(before, m);
    SecondIff(m, after);
    SecondsHold(m, after);
    var n := Afters(m, after).value;
    FirstsAre(before, m);
    SecondsAre(m, after, n);
    KeysIff(before, n.stored);
    LoadedKeysIff(after, n.loaded);
    SlotsIff(before, after, n);
    StepIff(before, after, m, n);
    StepsAre(before, after, m, n);
    HalvesAre(before, after, body);
    LacksBy(before, after, n, body, why);
  }

  lemma HalvesAre(before: seq<Insn>, after: seq<Insn>, body: nat)
    requires Befores(before).Some? && Befores(before).value.waits.None?
    requires Afters(Befores(before).value, after).Some? && Afters(Befores(before).value, after).value.waits.None?
    ensures Halves(before, after, body) == Verdict(Afters(Befores(before).value, after).value, body)
  {
    hide Befores, Afters, Verdict;
  }

  lemma LoadedKeysIff(after: seq<Insn>, loaded: map<Reg, int>)
    requires forall f, off :: LoadedFrom(after, f, off) <==> f in loaded && loaded[f] == off
    ensures loaded.Keys == CALLER_SAVED_F <==> LoadsTwenty(after)
  {
    hide LoadedFrom;
    forall f: Reg ensures f in loaded <==> exists off :: LoadedFrom(after, f, off) {
      if f in loaded {
        assert LoadedFrom(after, f, loaded[f]);
      }
    }
    if LoadsTwenty(after) {
      assert forall f: Reg :: f in loaded.Keys <==> f in CALLER_SAVED_F;
    }
  }

  lemma StepsAre(before: seq<Insn>, after: seq<Insn>, m: Met, n: Met)
    requires FirstHalf(before) && SecondHalf(after)
    requires Saving(before, m.waits, m.saved) && Restoring(after, n.waits, n.slot, n.restored)
    requires n.saved == m.saved && m.waits.None? && n.waits.None?
    ensures n.saved.None? <==> NoSteps(before)
    ensures n.restored.None? <==> NoSteps(after)
  {
  }

  lemma LacksBy(before: seq<Insn>, after: seq<Insn>, n: Met, body: nat, why: WhyBad)
    requires n.stored.Keys == CALLER_SAVED_F <==> StoresTwenty(before)
    requires n.loaded.Keys == CALLER_SAVED_F <==> LoadsTwenty(after)
    requires n.stored == n.loaded <==> SameSlots(before, after)
    requires n.saved.Some? && n.saved == n.restored && n.saved.value !in n.stored.Values <==> OwnSlot(before, after)
    requires (n.saved.None? <==> NoSteps(before)) && (n.restored.None? <==> NoSteps(after))
    requires n.adjust == Moved(before) + Moved(after)
    ensures Verdict(n, body) == BadFloat(why) ==> Lacks(before, after, why)
  {
    hide StoresTwenty, LoadsTwenty, SameSlots, OwnSlot, Moved, NoSteps;
  }

  lemma MetHalfway(before: seq<Insn>, m: Met)
    requires Firsts(before, m) && m.waits.None?
    ensures Halfway(m)
  {
    hide StoredTo, Saving, InFirst;
  }

  /** One call, at `k`, resolved to `to`, its own instructions from `j` on; and an mret at
      the end. */
  ghost predicate OneCall(insns: seq<Insn>, k: nat, j: nat, to: nat) {
    && j <= k < |insns| - 1 && insns[|insns| - 1].Mret?
    && (forall i :: 0 <= i < |insns| ==> (Calls(insns[i]) <==> i == k)) && insns[k].target == Some(to)
    && (if k > 0 && insns[k - 1] == Auipc("ra") then j == k - 1 else j == k)
  }

  /** The calls listed up to `n` are one, at `k`, or none. */
  lemma {:induction false} CallsAre(insns: seq<Insn>, k: nat, n: nat)
    requires n <= |insns| && forall i :: 0 <= i < n ==> (Calls(insns[i]) <==> i == k)
    ensures CallsIn(insns, n) == if k < n then [k] else []
    decreases n
  {
    if n > 0 {
      CallsAre(insns, k, n - 1);
    }
  }

  lemma ClassifyIs(insns: seq<Insn>, k: nat, j: nat, to: nat)
    requires OneCall(insns, k, j, to)
    ensures var before, after := insns[..j], insns[k + 1..|insns| - 1];
      Classify(insns) == if before == [] && after == [] then Plain(to) else Halves(before, after, to)
  {
    CallsAre(insns, k, |insns|);
    PrefixIs(insns, k, j);
    var ks := CallsIn(insns, |insns|);
    hide *;
    ClassifyBy(insns, ks, k, to);
  }

  lemma ClassifyBy(insns: seq<Insn>, ks: seq<nat>, k: nat, to: nat)
    requires ks == CallsIn(insns, |insns|) == [k] && k < |insns| - 1 && insns[|insns| - 1].Mret?
    requires (insns[k].Call? || insns[k].CallReg?) && insns[k].target == Some(to)
    ensures var before, after := Prefix(insns, k), insns[k + 1..|insns| - 1];
      Classify(insns) == if before == [] && after == [] then Plain(to) else Halves(before, after, to)
  {
    hide CallsIn, Prefix, Halves, Calls;
  }

  lemma PrefixIs(insns: seq<Insn>, k: nat, j: nat)
    requires k < |insns| && j == if k > 0 && insns[k - 1] == Auipc("ra") then k - 1 else k
    ensures Prefix(insns, k) == insns[..j]
  {
  }

  lemma HasOneCall(insns: seq<Insn>) returns (k: nat, j: nat, to: nat)
    requires Classify(insns) != NotOne
    ensures OneCall(insns, k, j, to)
  {
    hide Halves;
    var ks := CallsIn(insns, |insns|);
    k := ks[0];
    assert k in ks;
    to := insns[k].target.value;
    j := if k > 0 && insns[k - 1] == Auipc("ra") then k - 1 else k;
    forall i: nat | i < |insns| ensures Calls(insns[i]) <==> i == k {
      assert i in ks <==> Calls(insns[i]);
    }
  }

  /** What is around the call, as it should be. */
  ghost predicate FloatAround(insns: seq<Insn>, k: nat, j: nat) {
    && j <= k < |insns| - 1
    && var before, after := insns[..j], insns[k + 1..|insns| - 1];
      FirstHalf(before) && SecondHalf(after) && PutBack(before, after)
  }

  /**
   classify, whole: a handler is a float trampoline exactly when it makes one call, resolved,
   ends in an mret, and has around the call two halves like these, with the auipc of a
   two-instruction call in neither of them.
  */
  lemma FloatIff(insns: seq<Insn>, to: nat)
    ensures Classify(insns) == Float(to) <==> exists k: nat, j: nat :: OneCall(insns, k, j, to) && FloatAround(insns, k, j)
  {
    hide *;
    if Classify(insns) == Float(to) {
      var k, j, t := HasOneCall(insns);
      CallInside(insns, k, j, t);
      ClassifyIs(insns, k, j, t);
      HalvesIff(insns[..j], insns[k + 1..|insns| - 1], t);
      JudgedFloat(insns[..j], insns[k + 1..|insns| - 1], t, to);
      AroundIs(insns, k, j);
    }
    if k: nat, j: nat :| OneCall(insns, k, j, to) && FloatAround(insns, k, j) {
      CallInside(insns, k, j, to);
      ClassifyIs(insns, k, j, to);
      HalvesIff(insns[..j], insns[k + 1..|insns| - 1], to);
      AroundIs(insns, k, j);
      SomeStored(insns[..j], insns[k + 1..|insns| - 1]);
    }
  }

  lemma CallInside(insns: seq<Insn>, k: nat, j: nat, to: nat)
    requires OneCall(insns, k, j, to)
    ensures j <= k < |insns| - 1
  {
  }

  lemma AroundIs(insns: seq<Insn>, k: nat, j: nat)
    requires j <= k < |insns| - 1
    ensures var before, after := insns[..j], insns[k + 1..|insns| - 1];
      FloatAround(insns, k, j) <==> FirstHalf(before) && SecondHalf(after) && PutBack(before, after)
  {
    hide FirstHalf, SecondHalf, PutBack;
  }

  /** The body called is the one named. */
  lemma JudgedFloat(before: seq<Insn>, after: seq<Insn>, t: nat, to: nat)
    requires Halves(before, after, t) == Float(to)
    ensures t == to
  {
    hide Befores, Afters;
  }

  /** Halves that put the twenty back are not empty. */
  lemma SomeStored(before: seq<Insn>, after: seq<Insn>)
    requires PutBack(before, after)
    ensures before != []
  {
    hide Moved, SameSlots, OwnSlot;
    assert "ft0" in CALLER_SAVED_F;
    var off :| StoredTo(before, "ft0", off);
  }
}

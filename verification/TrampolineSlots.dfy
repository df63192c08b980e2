/**
 The condition read off the instructions, and trampolines that classify accepts
 without it.
*/
module TrampolineSlots {
  import opened Basics
  import opened Listing
  import opened Trampoline
  import opened TrampolineRuns
  import opened TrampolineSp
  import opened TrampolineFrame

  predicate Stores(i: Insn) { i.Fsw? || i.Sw? }

  predicate LoadsSlot(i: Insn) { i.Flw? || i.Lw? }

  /** Every store has four bytes of its own, at or above the stack pointer, and the
      stack pointer is still from the first store on. */
  predicate Apart(before: seq<Insn>) {
    && (forall j :: 0 <= j < |before| && Stores(before[j]) ==> before[j].off >= 0)
    && (forall j, k :: 0 <= j < k < |before| && Stores(before[j]) && Stores(before[k]) ==>
          before[j].off + 4 <= before[k].off || before[k].off + 4 <= before[j].off)
    && (forall j, k :: 0 <= j < k < |before| && Stores(before[j]) ==> !before[k].Addi?)
    && (forall j :: 0 <= j < |before| && before[j].Sw? ==> before[j].rs != "zero")
  }

  /** No load behind a move of the stack pointer. */
  predicate StillLoading(after: seq<Insn>) {
    && (forall j, k :: 0 <= j < k < |after| && after[j].Addi? ==> !LoadsSlot(after[k]))
    && (forall j :: 0 <= j < |after| && after[j].Lw? ==> after[j].rd != "zero")
  }

  predicate StoredIn(before: seq<Insn>, off: int) {
    exists j :: 0 <= j < |before| && Stores(before[j]) && before[j].off == off
  }

  /** Every slot of the half holds what it was given. */
  ghost predicate Placed(before: seq<Insn>, m: Met) {
    && (forall r :: r in m.stored ==>
          HoldsF(Stored(before), Adjust(before), Adjust(before) + m.stored[r], r) && StoredIn(before, m.stored[r]))
    && (m.saved.Some? ==>
          HoldsFcsr(Stored(before), Adjust(before), Adjust(before) + m.saved.value) && StoredIn(before, m.saved.value))
  }

  lemma PlacedStep(before: seq<Insn>, m: Met, i: Insn)
    requires Placed(before, m) && Before(m, i).Some? && Apart(before + [i])
    ensures Placed(before + [i], Before(m, i).value)
  {
    hide *;
    StoresApart(before, i);
    var longer, d, off := before + [i], Adjust(before), if Stores(i) then i.off else 0;
    StoreNext(before, i, m);
    PlacedParts(before, m);
    var n := Before(m, i).value;
    forall r | r in n.stored
      ensures HoldsF(Stored(longer), Adjust(longer), Adjust(longer) + n.stored[r], r) && StoredIn(longer, n.stored[r]) {
      if !(i.Fsw? && i.fs == r) && Stores(i) {
        PutKeepsF(Stored(before), d, d + m.stored[r], r, d + off, Stored(longer));
      }
    }
    if n.saved.Some? && i.Fsw? {
      PutKeepsFcsr(Stored(before), d, d + m.saved.value, d + off, Stored(longer));
    }
    PlacedWhole(longer, n);
  }

  /** Marks that differ in four bytes at most. */
  ghost predicate Put4(m: Marks, at: int, n: Marks) {
    forall a :: !(at <= a < at + 4) ==> ((a in n <==> a in m) && (a in m ==> n[a] == m[a]))
  }

  lemma PutKeepsF(m: Marks, d: int, at: int, r: Reg, off: int, n: Marks)
    requires HoldsF(m, d, at, r) && Put4(m, off, n) && (off + 4 <= at || at + 4 <= off)
    ensures HoldsF(n, d, at, r)
  {
  }

  lemma PutKeepsFcsr(m: Marks, d: int, at: int, off: int, n: Marks)
    requires HoldsFcsr(m, d, at) && Put4(m, off, n) && (off + 4 <= at || at + 4 <= off)
    ensures HoldsFcsr(n, d, at)
  {
  }

  /** One more instruction of the half, on the marks and in what has been met. */
  lemma StoreNext(before: seq<Insn>, i: Insn, m: Met)
    requires Before(m, i).Some? && Apart(before + [i])
    ensures var longer, n, d := before + [i], Before(m, i).value, Adjust(before);
      && (i.Addi? || Adjust(longer) == d)
      && (if Stores(i) then Put4(Stored(before), d + i.off, Stored(longer)) else Stored(longer) == Stored(before))
      && n.stored == (if i.Fsw? then m.stored[i.fs := i.off] else m.stored)
      && (i.Fsw? ==> HoldsF(Stored(longer), d, d + i.off, i.fs))
      && (i.Sw? ==> HoldsFcsr(Stored(longer), d, d + i.off) && n.saved == Some(i.off))
      && (!i.Sw? ==> n.saved == m.saved)
  {
    var longer := before + [i];
    assert longer[|before|] == i && longer[..|longer| - 1] == before;
    hide StoredIn;
  }

  lemma StoresApart(before: seq<Insn>, i: Insn)
    requires Apart(before + [i])
    ensures Stores(i) <==> i.Fsw? || i.Sw?
    ensures forall off :: StoredIn(before, off) ==> StoredIn(before + [i], off) && !i.Addi?
    ensures Stores(i) ==> StoredIn(before + [i], i.off)
    ensures Stores(i) ==> forall off :: StoredIn(before, off) ==> i.off + 4 <= off || off + 4 <= i.off
  {
    var longer := before + [i];
    assert longer[|before|] == i;
    forall off | StoredIn(before, off) ensures StoredIn(longer, off) && !i.Addi?
      && (Stores(i) ==> i.off + 4 <= off || off + 4 <= i.off) {
      var j :| 0 <= j < |before| && Stores(before[j]) && before[j].off == off;
      assert longer[j] == before[j];
    }
  }

  lemma PlacedParts(before: seq<Insn>, m: Met)
    requires Placed(before, m)
    ensures forall r :: r in m.stored ==>
      HoldsF(Stored(before), Adjust(before), Adjust(before) + m.stored[r], r) && StoredIn(before, m.stored[r])
    ensures m.saved.Some? ==>
      HoldsFcsr(Stored(before), Adjust(before), Adjust(before) + m.saved.value) && StoredIn(before, m.saved.value)
  {
    hide HoldsF, HoldsFcsr, Stored, Adjust, StoredIn;
  }

  lemma PlacedWhole(before: seq<Insn>, m: Met)
    requires forall r :: r in m.stored ==>
      HoldsF(Stored(before), Adjust(before), Adjust(before) + m.stored[r], r) && StoredIn(before, m.stored[r])
    requires m.saved.Some? ==>
      HoldsFcsr(Stored(before), Adjust(before), Adjust(before) + m.saved.value) && StoredIn(before, m.saved.value)
    ensures Placed(before, m)
  {
    hide HoldsF, HoldsFcsr, Stored, Adjust, StoredIn;
  }

  lemma {:induction false} PlacedHolds(before: seq<Insn>)
    requires Befores(before).Some? && Apart(before)
    ensures Placed(before, Befores(before).value)
    decreases |before|
  {
    if before != [] {
      var rest, i := before[..|before| - 1], before[|before| - 1];
      assert rest + [i] == before;
      ApartRest(before);
      hide Apart, Placed, Before;
      PlacedHolds(rest);
      PlacedStep(rest, Befores(rest).value, i);
    }
  }

  lemma ApartRest(before: seq<Insn>)
    requires before != [] && Apart(before)
    ensures Apart(before[..|before| - 1])
  {
  }

  /** Each load is at the offset it names, from the stack pointer of the call. */
  ghost predicate Fetched(d: int, after: seq<Insn>, n: Met) {
    && ((forall j :: 0 <= j < |after| ==> !after[j].Addi?) ==> Adjust(after) == 0)
    && n.loaded.Keys == Loaded(d, after).Keys
    && (forall r :: r in n.loaded ==> Loaded(d, after)[r] == d + n.loaded[r])
    && (n.waits.Some? ==> FcsrFrom(d, after) == Some(d + n.slot))
    && (n.restored.Some? ==> FcsrFrom(d, after) == Some(d + n.restored.value))
    && (n.restored.Some? ==> n.waits.None?)
  }

  lemma FetchedStep(d: int, after: seq<Insn>, n: Met, i: Insn)
    requires Fetched(d, after, n) && After(n, i).Some? && StillLoading(after + [i])
    ensures Fetched(d, after + [i], After(n, i).value)
  {
    var longer := after + [i];
    assert longer[|after|] == i && forall j :: 0 <= j < |after| ==> longer[j] == after[j];
    Longer(d, after, i);
    hide Adjust, Loaded, FcsrFrom;
  }

  lemma {:induction false} FetchedHolds(d: int, m: Met, after: seq<Insn>)
    requires Afters(m, after).Some? && StillLoading(after)
    requires m.waits.None? && m.restored.None? && m.loaded == map[]
    ensures Fetched(d, after, Afters(m, after).value)
    decreases |after|
  {
    if after != [] {
      var rest, i := after[..|after| - 1], after[|after| - 1];
      assert rest + [i] == after && StillLoading(rest);
      hide StillLoading, After;
      FetchedHolds(d, m, rest);
      FetchedStep(d, rest, Afters(m, rest).value, i);
    }
  }

  /** No slot reaches the interrupted code's stack. */
  predicate Deep(before: seq<Insn>) {
    forall j :: 0 <= j < |before| && Stores(before[j]) ==> before[j].off + 4 <= -Adjust(before)
  }

  /** Every mark is a store's. */
  ghost predicate Covered(before: seq<Insn>) {
    forall a :: a in Stored(before) ==> CoveredAt(before, a)
  }

  ghost predicate CoveredAt(before: seq<Insn>, a: int) {
    exists j :: 0 <= j < |before| && Stores(before[j])
                && Adjust(before) + before[j].off <= a < Adjust(before) + before[j].off + 4
  }

  lemma CoveredStep(before: seq<Insn>, m: Met, i: Insn)
    requires Covered(before) && Before(m, i).Some? && Apart(before + [i])
    ensures Covered(before + [i])
  {
    var longer := before + [i];
    assert longer[|before|] == i;
    StoreNext(before, i, m);
    hide Stored, Before, Adjust;
    forall a | a in Stored(longer) ensures CoveredAt(longer, a) {
      if a in Stored(before) {
        assert CoveredAt(before, a);
        var j :| 0 <= j < |before| && Stores(before[j])
                 && Adjust(before) + before[j].off <= a < Adjust(before) + before[j].off + 4;
        assert longer[j] == before[j];
      } else {
        assert Stores(i) && Adjust(before) + i.off <= a < Adjust(before) + i.off + 4;
      }
    }
  }

  lemma {:induction false} CoveredHolds(before: seq<Insn>)
    requires Befores(before).Some? && Apart(before)
    ensures Covered(before)
    decreases |before|
  {
    if before != [] {
      var rest, i := before[..|before| - 1], before[|before| - 1];
      assert rest + [i] == before;
      ApartRest(before);
      hide Apart, Covered, Before;
      CoveredHolds(rest);
      CoveredStep(rest, Befores(rest).value, i);
    }
  }

  /** With a store there is, and those all deep enough, nothing of the frame is reached. */
  lemma DeepBelow(before: seq<Insn>)
    requires Befores(before).Some? && Befores(before).value.saved.Some? && Apart(before) && Deep(before)
    ensures Below(before)
  {
    hide Befores, Stored, Adjust;
    CoveredHolds(before);
    forall a | a in Stored(before) ensures a < 0 {
      assert CoveredAt(before, a);
    }
    SavedStored(before);
    var j :| 0 <= j < |before| && before[j].Sw?;
    assert Stores(before[j]) && before[j].off >= 0;
  }

  lemma {:induction false} SavedStored(before: seq<Insn>)
    requires Befores(before).Some? && Befores(before).value.saved.Some?
    ensures exists j :: 0 <= j < |before| && before[j].Sw?
    decreases |before|
  {
    var rest, i := before[..|before| - 1], before[|before| - 1];
    if i.Sw? {
      assert before[|before| - 1].Sw?;
    } else {
      SavedStored(rest);
      var j :| 0 <= j < |rest| && rest[j].Sw?;
      assert before[j].Sw?;
    }
  }

  /** Slots of their own below the interrupted code's stack, a stack pointer that is still,
      and a register the hardware saves are enough. */
  lemma ApartRestores(before: seq<Insn>, after: seq<Insn>, body: nat)
    requires Halves(before, after, body) == Float(body) && Scratched(before) && Scratched(after)
    requires Apart(before) && Deep(before) && StillLoading(after)
    ensures AlwaysRestores(before, after)
  {
    hide *;
    var m, n := FloatAccepted(before, after, body);
    AcceptedHalves(before, after, m, n);
    AcceptedBoth(before, after, m, n);
    PlacedHolds(before);
    FetchedHolds(Adjust(before), m, after);
    PlacedKept(before, after, m, n);
    DeepBelow(before);
    FloatRestoresIff(before, after, body);
  }

  lemma AcceptedHalves(before: seq<Insn>, after: seq<Insn>, m: Met, n: Met)
    requires Accepted(before, after, m, n)
    ensures Befores(before) == Some(m) && Afters(m, after) == Some(n)
    ensures m.waits.None? && m.restored.None? && m.loaded == map[]
  {
    hide Befores, Afters, Adjust;
  }

  lemma PlacedKept(before: seq<Insn>, after: seq<Insn>, m: Met, n: Met)
    requires Accepted(before, after, m, n) && Placed(before, m) && Fetched(Adjust(before), after, n)
    ensures Kept(before, after)
  {
    hide *;
    AcceptedKeys(before, after, m, n);
    AcceptedSlots(before, after, m, n);
    PlacedParts(before, m);
    FetchedParts(Adjust(before), after, n);
    KeptWhole(before, after, n);
  }

  lemma AcceptedSlots(before: seq<Insn>, after: seq<Insn>, m: Met, n: Met)
    requires Accepted(before, after, m, n)
    ensures n.loaded == m.stored && n.restored == m.saved && m.saved.Some?
  {
    hide Befores, Afters, Adjust;
  }

  lemma FetchedParts(d: int, after: seq<Insn>, n: Met)
    requires Fetched(d, after, n)
    ensures n.loaded.Keys == Loaded(d, after).Keys
    ensures forall r :: r in n.loaded ==> Loaded(d, after)[r] == d + n.loaded[r]
    ensures n.restored.Some? ==> FcsrFrom(d, after) == Some(d + n.restored.value)
  {
    hide Adjust, Loaded, FcsrFrom;
  }

  lemma KeptWhole(before: seq<Insn>, after: seq<Insn>, n: Met)
    requires var m, d := Stored(before), Adjust(before);
      && n.loaded.Keys == CALLER_SAVED_F == Loaded(d, after).Keys && n.restored.Some?
      && (forall r :: r in n.loaded ==>
            Loaded(d, after)[r] == d + n.loaded[r] && HoldsF(m, d, d + n.loaded[r], r))
      && FcsrFrom(d, after) == Some(d + n.restored.value) && HoldsFcsr(m, d, d + n.restored.value)
    ensures Kept(before, after)
  {
    hide Adjust, Stored, Loaded, FcsrFrom, HoldsF, HoldsFcsr, CALLER_SAVED_F;
  }
}

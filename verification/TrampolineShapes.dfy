/** The trampoline the stratum's macro makes, and those that differ from it unnoticed. */
module TrampolineShapes {
  import opened Basics
  import opened Listing
  import opened Trampoline
  import opened TrampolineRuns
  import opened TrampolineSp
  import opened TrampolineFrame
  import opened TrampolineSlots

  const NAMES: seq<Reg> :=
    ["ft0", "ft1", "ft2", "ft3", "ft4", "ft5", "ft6", "ft7", "ft8", "ft9", "ft10", "ft11",
     "fa0", "fa1", "fa2", "fa3", "fa4", "fa5", "fa6", "fa7"]

  function Name(j: nat): Reg
    requires j < 20
  {
    NAMES[j]
  }

  /** How a trampoline is laid out: its slots `step` bytes apart, its stack pointer moved
      `move` - and sixteen down more behind its stores when `deeper` -, fcsr through `via`. */
  datatype Shape = Shape(step: nat, move: int, deeper: bool, via: Reg)

  function Down(h: Shape): Insn { Addi("sp", "sp", h.move, None) }

  /** The first `n` registers stored. */
  function Saving20(h: Shape, n: nat): (code: seq<Insn>)
    requires n <= 20
    ensures |code| == n + 1 && code[0] == Down(h)
    ensures forall j :: 0 < j <= n ==> code[j] == Fsw(Name(j - 1), h.step * (j - 1), "sp")
  {
    if n == 0 then [Down(h)] else Saving20(h, n - 1) + [Fsw(Name(n - 1), h.step * (n - 1), "sp")]
  }

  function Take(h: Shape): seq<Insn> { [FcsrRead(h.via), Sw(h.via, 96, "sp")] }

  function Give(h: Shape): seq<Insn> { [Lw(h.via, 96, "sp"), FcsrWrite(h.via, h.via)] }

  function Loading20(h: Shape, n: nat): (code: seq<Insn>)
    requires n <= 20
    ensures |code| == n + 2 && code[..2] == Give(h)
    ensures forall j :: 2 <= j < n + 2 ==> code[j] == Flw(Name(j - 2), h.step * (j - 2), "sp")
  {
    if n == 0 then Give(h) else Loading20(h, n - 1) + [Flw(Name(n - 1), h.step * (n - 1), "sp")]
  }

  /** Where the first half leaves the stack pointer. */
  function Moved(h: Shape): int { if h.deeper then h.move - 16 else h.move }

  function First(h: Shape): seq<Insn> {
    Saving20(h, 20) + Take(h) + if h.deeper then [Addi("sp", "sp", -16, None)] else []
  }

  function Second(h: Shape): seq<Insn> {
    Loading20(h, 20) + [Addi("sp", "sp", -Moved(h), None)]
  }

  /** One of the first `n` names. */
  ghost predicate Named(r: Reg, n: nat)
    requires n <= 20
  {
    exists j :: 0 <= j < n && Name(j) == r
  }

  lemma NamedMore(n: nat)
    requires 0 < n <= 20
    ensures forall r :: Named(r, n) <==> Named(r, n - 1) || r == Name(n - 1)
  {
    hide Name;
    forall r ensures Named(r, n) <==> Named(r, n - 1) || r == Name(n - 1) {
    }
  }

  ghost function Slots(h: Shape, n: nat): (s: map<Reg, int>)
    requires n <= 20
    ensures forall r :: r in s <==> Named(r, n)
    ensures forall r :: r in s ==> 0 <= s[r] <= 19 * h.step
  {
    if n == 0 then map[]
    else
      NamedMore(n);
      StepWithin(h, n);
      Slots(h, n - 1)[Name(n - 1) := h.step * (n - 1)]
  }

  lemma StepWithin(h: Shape, n: nat)
    requires 0 < n <= 20
    ensures 0 <= h.step * (n - 1) <= 19 * h.step
  {
  }

  lemma TheTwenty(h: Shape)
    ensures Slots(h, 20).Keys == CALLER_SAVED_F
  {
    forall r ensures r in Slots(h, 20) <==> r in NAMES {
      if r in NAMES {
        var j :| 0 <= j < 20 && NAMES[j] == r;
        assert Name(j) == r;
      }
    }
    TwentyNames();
    hide NAMES, CALLER_SAVED_F;
  }

  lemma TwentyNames()
    ensures forall r :: r in NAMES <==> r in CALLER_SAVED_F
  {
  }

  lemma BeforesMore(insns: seq<Insn>, i: Insn)
    requires Befores(insns).Some?
    ensures Befores(insns + [i]) == Before(Befores(insns).value, i)
  {
    assert (insns + [i])[..|insns + [i]| - 1] == insns;
  }

  lemma AftersMore(m: Met, insns: seq<Insn>, i: Insn)
    requires Afters(m, insns).Some?
    ensures Afters(m, insns + [i]) == After(Afters(m, insns).value, i)
  {
    assert (insns + [i])[..|insns + [i]| - 1] == insns;
  }

  lemma OneMore(h: Shape, n: nat)
    requires 0 < n <= 20
    ensures Saving20(h, n) == Saving20(h, n - 1) + [Fsw(Name(n - 1), h.step * (n - 1), "sp")]
    ensures Loading20(h, n) == Loading20(h, n - 1) + [Flw(Name(n - 1), h.step * (n - 1), "sp")]
    ensures Slots(h, n) == Slots(h, n - 1)[Name(n - 1) := h.step * (n - 1)]
  {
  }

  lemma MeetsF(m: Met, r: Reg, off: int)
    ensures Before(m, Fsw(r, off, "sp")) == Some(m.(stored := m.stored[r := off]))
    ensures After(m, Flw(r, off, "sp")) == Some(m.(loaded := m.loaded[r := off]))
  {
  }

  lemma MeetsRest(h: Shape, m: Met, imm: int)
    ensures Before(m, Addi("sp", "sp", imm, None)) == After(m, Addi("sp", "sp", imm, None))
            == Some(m.(adjust := m.adjust + imm))
    ensures m.waits.None? && m.saved.None? ==> Before(m, Take(h)[0]) == Some(m.(waits := Some(h.via)))
    ensures m.waits.None? && m.saved.None? ==>
      Before(m.(waits := Some(h.via)), Take(h)[1]) == Some(m.(saved := Some(96)))
    ensures m.waits.None? && m.restored.None? ==> After(m, Give(h)[0]) == Some(m.(waits := Some(h.via), slot := 96))
    ensures m.waits.None? && m.restored.None? ==>
      After(m.(waits := Some(h.via), slot := 96), Give(h)[1]) == Some(m.(restored := Some(96), slot := 96))
  {
  }

  lemma {:induction false} SavingMet(h: Shape, n: nat)
    requires n <= 20
    ensures Befores(Saving20(h, n)) == Some(NOTHING.(adjust := h.move, stored := Slots(h, n)))
    decreases n
  {
    if n == 0 {
      BeforesMore([], Down(h));
      assert [] + [Down(h)] == [Down(h)];
      hide Before;
      MeetsRest(h, NOTHING, h.move);
    } else {
      hide *;
      SavingMet(h, n - 1);
      OneMore(h, n);
      var r, off := Name(n - 1), h.step * (n - 1);
      BeforesMore(Saving20(h, n - 1), Fsw(r, off, "sp"));
      MeetsF(Befores(Saving20(h, n - 1)).value, r, off);
    }
  }

  lemma {:induction false} LoadingMet(m: Met, h: Shape, n: nat)
    requires n <= 20 && m.waits.None? && m.restored.None? && m.loaded == map[]
    ensures Afters(m, Loading20(h, n)) == Some(m.(loaded := Slots(h, n), restored := Some(96), slot := 96))
    decreases n
  {
    if n == 0 {
      AftersMore(m, [], Give(h)[0]);
      AftersMore(m, [Give(h)[0]], Give(h)[1]);
      assert [] + [Give(h)[0]] == [Give(h)[0]] && [Give(h)[0]] + [Give(h)[1]] == Give(h);
      hide After;
      MeetsRest(h, m, 0);
    } else {
      hide *;
      LoadingMet(m, h, n - 1);
      OneMore(h, n);
      var r, off := Name(n - 1), h.step * (n - 1);
      AftersMore(m, Loading20(h, n - 1), Flw(r, off, "sp"));
      MeetsF(Afters(m, Loading20(h, n - 1)).value, r, off);
    }
  }

  lemma FirstIs(h: Shape)
    ensures var c := Saving20(h, 20) + [Take(h)[0]] + [Take(h)[1]];
      First(h) == if h.deeper then c + [Addi("sp", "sp", -16, None)] else c
  {
    hide Saving20;
    assert [Take(h)[0]] + [Take(h)[1]] == Take(h);
  }

  lemma FirstMet(h: Shape)
    ensures Befores(First(h)) ==
      Some(NOTHING.(adjust := Moved(h), stored := Slots(h, 20), saved := Some(96)))
    ensures Befores(First(h)).value.waits.None?
    ensures Befores(First(h)).value.adjust == Moved(h)
  {
    FirstIs(h);
    var m := NOTHING.(adjust := h.move, stored := Slots(h, 20));
    assert m.waits.None? && m.saved.None? && m.adjust == h.move;
    hide *;
    var a := Saving20(h, 20);
    SavingMet(h, 20);
    BeforesMore(a, Take(h)[0]);
    MeetsRest(h, m, 0);
    BeforesMore(a + [Take(h)[0]], Take(h)[1]);
    BeforesMore(a + [Take(h)[0]] + [Take(h)[1]], Addi("sp", "sp", -16, None));
    MeetsRest(h, m.(saved := Some(96)), -16);
  }

  lemma SecondMet(m: Met, h: Shape)
    requires m.waits.None? && m.restored.None? && m.loaded == map[]
    ensures Afters(m, Second(h)) ==
      Some(m.(loaded := Slots(h, 20), restored := Some(96), slot := 96,
              adjust := m.adjust - Moved(h)))
  {
    hide Afters, After, Loading20, Slots;
    LoadingMet(m, h, 20);
    var imm := -Moved(h);
    AftersMore(m, Loading20(h, 20), Addi("sp", "sp", imm, None));
    MeetsRest(h, Afters(m, Loading20(h, 20)).value, imm);
  }

  /** classify calls all of them float trampolines, whatever the registers' slots. */
  lemma AllFloat(h: Shape, body: nat)
    requires h.step <= 4
    ensures Halves(First(h), Second(h), body) == Float(body)
  {
    var m := NOTHING.(adjust := Moved(h), stored := Slots(h, 20), saved := Some(96));
    var n := m.(loaded := Slots(h, 20), restored := Some(96), slot := 96, adjust := 0);
    assert m.waits.None? && m.restored.None? && m.loaded == map[] && m.adjust - Moved(h) == 0;
    hide *;
    FirstMet(h);
    SecondMet(m, h);
    HalvesOf(First(h), Second(h), m, n, body);
    VerdictFloat(h, n, body);
  }

  lemma HalvesOf(before: seq<Insn>, after: seq<Insn>, m: Met, n: Met, body: nat)
    requires Befores(before) == Some(m) && m.waits.None? && Afters(m, after) == Some(n) && n.waits.None?
    ensures Halves(before, after, body) == Verdict(n, body)
  {
    hide Befores, Afters, Verdict;
  }

  lemma VerdictFloat(h: Shape, n: Met, body: nat)
    requires h.step <= 4 && n.stored == n.loaded == Slots(h, 20) && n.adjust == 0
    requires n.saved == n.restored == Some(96)
    ensures Verdict(n, body) == Float(body)
  {
    TheTwenty(h);
    hide Slots, CALLER_SAVED_F;
    assert 96 !in n.stored.Values;
  }

  /** The stores of the first half, by index. */
  predicate StoresLike(f: seq<Insn>, h: Shape) {
    && |f| == 23 && f[0] == Down(h) && f[21] == FcsrRead(h.via) && f[22] == Sw(h.via, 96, "sp")
    && forall j :: 0 < j <= 20 ==> f[j].Fsw? && f[j].off == 4 * (j - 1)
  }

  lemma InsnIs(f: seq<Insn>, h: Shape, j: nat)
    requires StoresLike(f, h) && j < 23
    ensures Stores(f[j]) <==> 0 < j <= 20 || j == 22
    ensures Stores(f[j]) ==> f[j].off == if j == 22 then 96 else 4 * (j - 1)
    ensures f[j].Addi? <==> j == 0
    ensures f[j].Sw? <==> j == 22
    ensures !f[j].Lw? && (f[j].FcsrRead? ==> f[j].rd == h.via)
  {
  }

  lemma LikeApart(f: seq<Insn>, h: Shape)
    requires StoresLike(f, h) && h.via in SCRATCH && Adjust(f) <= -100
    ensures Apart(f) && Deep(f) && Scratched(f)
  {
    SpIsNone();
    assert f[22].rs == h.via;
    forall j: nat | j < 23 ensures
      && (Stores(f[j]) <==> 0 < j <= 20 || j == 22) && (Stores(f[j]) ==> f[j].off == if j == 22 then 96 else 4 * (j - 1))
      && (f[j].Addi? <==> j == 0) && (f[j].Sw? <==> j == 22) && !f[j].Lw? && (f[j].FcsrRead? ==> f[j].rd == h.via) {
      InsnIs(f, h, j);
    }
    hide StoresLike, Stores, SCRATCH, Adjust;
  }

  lemma FirstLike(f: seq<Insn>, h: Shape)
    requires |f| == 23 && f[0] == Down(h) && f[21] == Take(h)[0] && f[22] == Take(h)[1]
    requires forall j :: 0 < j <= 20 ==> f[j] == Fsw(Name(j - 1), 4 * (j - 1), "sp")
    ensures StoresLike(f, h)
  {
    hide Name;
  }

  lemma FirstApart(h: Shape)
    requires h.step == 4 && !h.deeper && h.via in SCRATCH && h.move <= -100
    ensures Apart(First(h)) && Deep(First(h)) && Scratched(First(h))
  {
    hide First, Name, Apart, Deep, Scratched, SCRATCH, Adjust, StoresLike, Befores;
    FirstAt(h);
    FirstLike(First(h), h);
    FirstMet(h);
    BeforesAdjust(First(h));
    LikeApart(First(h), h);
  }

  predicate LoadsLike(g: seq<Insn>, h: Shape) {
    && |g| == 23 && g[0] == Lw(h.via, 96, "sp") && g[1] == FcsrWrite(h.via, h.via) && g[22].Addi?
    && forall j :: 2 <= j < 22 ==> g[j].Flw?
  }

  lemma LikeStill(g: seq<Insn>, h: Shape)
    requires LoadsLike(g, h)
    ensures h.via in SCRATCH ==> StillLoading(g) && Scratched(g)
    ensures forall i :: i in g && i.Lw? ==> i.rd == h.via
  {
    SpIsNone();
    hide SCRATCH;
    forall j: nat | j < 23 ensures (g[j].Addi? ==> j == 22) && (g[j].Lw? ==> j == 0 && g[j].rd == h.via) && !g[j].FcsrRead? {
    }
  }

  lemma Still(h: Shape)
    ensures h.via in SCRATCH ==> StillLoading(Second(h)) && Scratched(Second(h))
    ensures forall i :: i in Second(h) && i.Lw? ==> i.rd == h.via
  {
    hide Second, Name, StillLoading, Scratched, SCRATCH;
    SecondAt(h);
    LikeStill(Second(h), h);
  }

  lemma FirstAt(h: Shape)
    ensures var f := First(h);
      && |f| == (if h.deeper then 24 else 23) && f[0] == Down(h) && f[21] == Take(h)[0] && f[22] == Take(h)[1]
      && (h.deeper ==> f[23] == Addi("sp", "sp", -16, None))
      && forall j :: 0 < j <= 20 ==> f[j] == Fsw(Name(j - 1), h.step * (j - 1), "sp")
  {
  }

  lemma SecondAt(h: Shape)
    ensures var g := Second(h);
      && |g| == 23 && g[0] == Give(h)[0] && g[1] == Give(h)[1] && g[22].Addi?
      && forall j :: 2 <= j < 22 ==> g[j] == Flw(Name(j - 2), h.step * (j - 2), "sp")
  {
    var l := Loading20(h, 20);
    assert l[0] == l[..2][0] && l[1] == l[..2][1];
  }

  // ---- slots of their own ----------------------------------------------------------------------

  lemma StoredMore(insns: seq<Insn>, i: Insn)
    ensures var m, at := Stored(insns), Adjust(insns);
      && Adjust(insns + [i]) == at + (if i.Addi? then i.imm else 0)
      && (i.Fsw? ==> Stored(insns + [i]) == Put(m, at + i.off, OfF(i.fs, 0), OfF(i.fs, 1), OfF(i.fs, 2), OfF(i.fs, 3)))
      && (i.Sw? ==>
            Stored(insns + [i]) == (if i.rs == "zero" then Put(m, at + i.off, OfZero, OfZero, OfZero, OfZero)
                                    else Put(m, at + i.off, OfFcsr(0), OfFcsr(1), OfFcsr(2), OfFcsr(3))))
      && (!i.Fsw? && !i.Sw? ==> Stored(insns + [i]) == m)
  {
    assert (insns + [i])[..|insns + [i]| - 1] == insns;
  }

  /** fcsr's slot is the topmost. */
  lemma TopMark(h: Shape)
    requires !h.deeper
    ensures h.move + 99 in Stored(First(h))
  {
    TakeIs(h);
    hide *;
    FirstIs(h);
    StoredFrom(h, 20);
    TopStored(Saving20(h, 20), h.via, h.move);
  }

  lemma TopStored(a: seq<Insn>, via: Reg, move: int)
    requires Adjust(a) == move
    ensures move + 99 in Stored(a + [FcsrRead(via)] + [Sw(via, 96, "sp")])
  {
    hide *;
    StoredMore(a, FcsrRead(via));
    StoredMore(a + [FcsrRead(via)], Sw(via, 96, "sp"));
    PutTop(Stored(a), move + 96);
  }

  lemma TakeIs(h: Shape)
    ensures Take(h)[0] == FcsrRead(h.via) && Take(h)[1] == Sw(h.via, 96, "sp") && |Take(h)| == 2
  {
  }

  lemma PutTop(m: Marks, at: int)
    ensures at + 3 in Put(m, at, OfZero, OfZero, OfZero, OfZero)
    ensures at + 3 in Put(m, at, OfFcsr(0), OfFcsr(1), OfFcsr(2), OfFcsr(3))
  {
  }

  lemma {:induction false} NoFcsr(d: int, insns: seq<Insn>)
    requires forall i :: i in insns && i.Lw? ==> i.rd == "zero"
    ensures FcsrFrom(d, insns).None?
    decreases |insns|
  {
    if insns != [] {
      NoFcsr(d, insns[..|insns| - 1]);
      assert insns[|insns| - 1] in insns;
    }
  }

  lemma FcsrKept(before: seq<Insn>, after: seq<Insn>)
    requires Kept(before, after)
    ensures FcsrFrom(Adjust(before), after).Some?
  {
    KeptParts(before, after, "");
  }

  lemma ViaScratched(h: Shape)
    requires Scratched(First(h))
    ensures h.via in SCRATCH || h.via == "zero"
  {
    FirstAt(h);
    hide First, SCRATCH;
    assert First(h)[21] == FcsrRead(h.via);
  }

  lemma TopBelow(before: seq<Insn>, a: int)
    requires Below(before) && a in Stored(before)
    ensures a < 0
  {
  }

  /**
   Slots of their own four bytes apart, whatever the stack pointer's two moves and the
   register fcsr goes through: classify calls all of them float trampolines, and the ones
   that restore are those whose move makes room for the hundred bytes and whose register
   the hardware saves. The stratum's macro moves by 112, and takes t0.
  */
  lemma OwnSlotsIff(h: Shape, body: nat)
    requires h.step == 4 && !h.deeper
    ensures Halves(First(h), Second(h), body) == Float(body)
    ensures AlwaysRestores(First(h), Second(h)) <==> h.move <= -100 && h.via in SCRATCH
  {
    hide *;
    var f, g := First(h), Second(h);
    AllFloat(h, body);
    Still(h);
    if h.move <= -100 && h.via in SCRATCH {
      FirstApart(h);
      ApartRestores(f, g, body);
    } else if AlwaysRestores(f, g) {
      FloatRestoresIff(f, g, body);
      ViaScratched(h);
      FcsrKept(f, g);
      if h.via == "zero" {
        NoFcsr(Adjust(f), g);
        assert false;
      }
      TopMark(h);
      TopBelow(f, h.move + 99);
      assert false;
    }
  }

  /** The macro's; and three that are not: no room, the body's stack over the interrupted
      code's, and a register of that code's lost. */
  lemma MacroAndThree(body: nat)
    ensures AlwaysRestores(First(Shape(4, -112, false, "t0")), Second(Shape(4, -112, false, "t0")))
    ensures forall h :: h in {Shape(4, 0, false, "t0"), Shape(4, 16, false, "t0"), Shape(4, -112, false, "s0")} ==>
      Halves(First(h), Second(h), body) == Float(body) && !AlwaysRestores(First(h), Second(h))
  {
    hide First, Second, Halves, AlwaysRestores;
    OwnSlotsIff(Shape(4, -112, false, "t0"), body);
    OwnSlotsIff(Shape(4, 0, false, "t0"), body);
    OwnSlotsIff(Shape(4, 16, false, "t0"), body);
    OwnSlotsIff(Shape(4, -112, false, "s0"), body);
  }

  // ---- slots that are not ------------------------------------------------------------------------

  /** Where the second half looks for ft0, and where the first one's stack pointer is. */
  lemma LooksAt(h: Shape, body: nat)
    requires h.step <= 4 && h.via in SCRATCH
    ensures var d := Adjust(First(h));
      && d == Moved(h) && "ft0" in Loaded(d, Second(h)) && Loaded(d, Second(h))["ft0"] == d
  {
    hide *;
    var f, g := First(h), Second(h);
    Still(h);
    SlotOfFt0(h);
    FirstMet(h);
    BeforesAdjust(f);
    var m := Befores(f).value;
    SecondMet(m, h);
    FetchedHolds(Adjust(f), m, g);
    FetchedParts(Adjust(f), g, Afters(m, g).value);
  }

  lemma {:induction false} SlotOf(h: Shape, n: nat, j: nat)
    requires j < n <= 20
    ensures Name(j) in Slots(h, n) && Slots(h, n)[Name(j)] == h.step * j
    decreases n
  {
    hide Name, Named;
    if j < n - 1 {
      SlotOf(h, n - 1, j);
      Distinct(j, n - 1);
    }
  }

  lemma Distinct(i: nat, j: nat)
    requires i < j < 20
    ensures Name(i) != Name(j)
  {
    assert |Name(i)| == |Name(j)| && Name(i)[1] == Name(j)[1] ==> Name(i)[2..] != Name(j)[2..];
  }

  lemma SlotOfFt0(h: Shape)
    ensures "ft0" in Slots(h, 20) && Slots(h, 20)["ft0"] == 0
  {
    SlotOf(h, 20, 0);
    assert Name(0) == "ft0";
  }

  /** Nothing is stored below where the first half moves the stack pointer to. */
  ghost predicate AtOrAbove(m: Marks, move: int) { forall a :: a in m ==> a >= move }

  lemma {:induction false} StoredFrom(h: Shape, n: nat)
    requires n <= 20
    ensures Adjust(Saving20(h, n)) == h.move && AtOrAbove(Stored(Saving20(h, n)), h.move)
    ensures h.step == 0 && n > 0 ==> Has(Stored(Saving20(h, n)), h.move, OfF(Name(n - 1), 0))
    decreases n
  {
    hide *;
    if n == 0 {
      StoredNone(h);
    } else {
      StoredFrom(h, n - 1);
      OneMore(h, n);
      var rest, off := Saving20(h, n - 1), h.step * (n - 1);
      assert off >= 0 && (h.step == 0 ==> off == 0);
      StoredAbove(rest, h.move, Name(n - 1), off);
    }
  }

  lemma StoredNone(h: Shape)
    ensures Adjust(Saving20(h, 0)) == h.move && Stored(Saving20(h, 0)) == map[]
    ensures AtOrAbove(Stored(Saving20(h, 0)), h.move)
  {
    StoredMore([], Down(h));
    assert [] + [Down(h)] == [Down(h)];
  }

  lemma StoredAbove(rest: seq<Insn>, move: int, r: Reg, off: int)
    requires off >= 0 && Adjust(rest) == move && AtOrAbove(Stored(rest), move)
    ensures var m := Stored(rest + [Fsw(r, off, "sp")]);
      Adjust(rest + [Fsw(r, off, "sp")]) == move && AtOrAbove(m, move) && Has(m, move + off, OfF(r, 0))
  {
    StoredMore(rest, Fsw(r, off, "sp"));
    hide *;
    PutAbove(Stored(rest), move, move + off, OfF(r, 0), OfF(r, 1), OfF(r, 2), OfF(r, 3));
  }

  lemma PutAbove(m: Marks, move: int, at: int, b0: Mark, b1: Mark, b2: Mark, b3: Mark)
    requires AtOrAbove(m, move) && at >= move
    ensures AtOrAbove(Put(m, at, b0, b1, b2, b3), move) && Has(Put(m, at, b0, b1, b2, b3), at, b0)
  {
  }

  lemma PutBeyond(m: Marks, at: int, b0: Mark, b1: Mark, b2: Mark, b3: Mark, a: int)
    requires a < at
    ensures forall b :: Has(m, a, b) ==> Has(Put(m, at, b0, b1, b2, b3), a, b)
  {
  }

  lemma StoredFirst(h: Shape)
    requires h.via != "zero"
    ensures AtOrAbove(Stored(First(h)), h.move)
    ensures h.step == 0 ==> Has(Stored(First(h)), h.move, OfF("fa7", 0))
  {
    assert Name(19) == "fa7";
    TakeIs(h);
    hide *;
    var a := Saving20(h, 20);
    FirstIs(h);
    StoredFrom(h, 20);
    StoredTaken(a, h);
    StoredMore(a + [FcsrRead(h.via)] + [Sw(h.via, 96, "sp")], Addi("sp", "sp", -16, None));
  }

  lemma StoredTaken(a: seq<Insn>, h: Shape)
    requires Adjust(a) == h.move && AtOrAbove(Stored(a), h.move) && h.via != "zero"
    ensures var m := Stored(a + [FcsrRead(h.via)] + [Sw(h.via, 96, "sp")]);
      AtOrAbove(m, h.move) && forall b :: Has(Stored(a), h.move, b) ==> Has(m, h.move, b)
  {
    hide Stored, Adjust, AtOrAbove, Put, Has;
    StoredMore(a, FcsrRead(h.via));
    StoredMore(a + [FcsrRead(h.via)], Sw(h.via, 96, "sp"));
    PutAbove(Stored(a), h.move, h.move + 96, OfFcsr(0), OfFcsr(1), OfFcsr(2), OfFcsr(3));
    PutBeyond(Stored(a), h.move + 96, OfFcsr(0), OfFcsr(1), OfFcsr(2), OfFcsr(3), h.move);
  }

  /** All twenty in one slot, or the stack pointer moved once more between the stores
      and the loads: accepted, and ft0 does not come back. */
  lemma AcceptedYetLost(h: Shape, body: nat)
    requires (h.step == 0 && !h.deeper) || (h.step == 4 && h.deeper)
    ensures Halves(First(h), Second(h), body) == Float(body)
    ensures !AlwaysRestores(First(h), Second(h))
  {
    hide *;
    var f, g := First(h), Second(h);
    AllFloat(h, body);
    FloatRestoresIff(f, g, body);
    if AlwaysRestores(f, g) {
      ViaScratched(h);
      FcsrKept(f, g);
      Still(h);
      if h.via == "zero" {
        NoFcsr(Adjust(f), g);
        assert false;
      }
      LooksAt(h, body);
      StoredFirst(h);
      Twenty();
      KeptParts(f, g, "ft0");
      FirstByte(Stored(f), Adjust(f), Adjust(f), "ft0");
      NothingBelow(Stored(f), h.move, Moved(h));
      MovedIs(h);
      assert false;
    }
  }

  lemma MovedIs(h: Shape)
    ensures h.deeper ==> Moved(h) < h.move
    ensures !h.deeper ==> Moved(h) == h.move
  {
  }

  lemma Twenty()
    ensures "ft0" in CALLER_SAVED_F
  {
  }

  lemma NothingBelow(m: Marks, move: int, a: int)
    requires AtOrAbove(m, move)
    ensures a < move ==> a !in m
  {
  }

  lemma FirstByte(m: Marks, d: int, at: int, r: Reg)
    requires HoldsF(m, d, at, r)
    ensures at in m && forall q :: Has(m, at, OfF(q, 0)) ==> q == r
    ensures r != "fa7" ==> !Has(m, at, OfF("fa7", 0))
  {
  }
}

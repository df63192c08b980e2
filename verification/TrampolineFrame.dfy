/**
 The rest of what a trampoline must not touch: the interrupted code's stack and the
 integer registers the hardware does not save. classify asks only that the stack
 pointer's moves add up to nothing.
*/
module TrampolineFrame {
  import opened Basics
  import opened Listing
  import opened Trampoline
  import opened TrampolineRuns
  import opened TrampolineSp

  /** An fcsr step's register is one the hardware saves, or the zero that holds nothing. */
  predicate Scratched(insns: seq<Insn>) {
    forall i :: i in insns && (i.FcsrRead? || i.Lw?) ==> i.rd in SCRATCH || i.rd == "zero"
  }

  /** The body's stack begins no higher than the interrupted code's ends, and no slot
      reaches into that. */
  ghost predicate Below(before: seq<Insn>) {
    Adjust(before) <= 0 && forall a :: a in Stored(before) ==> a < 0
  }

  // ---- the integer registers of a half -----------------------------------------------------

  predicate Writes(insns: seq<Insn>, r: Reg) {
    exists i :: i in insns && (i.FcsrRead? || i.Lw?) && i.rd == r
  }

  lemma WritesMore(insns: seq<Insn>, i: Insn, r: Reg)
    ensures Writes(insns + [i], r) <==> Writes(insns, r) || ((i.FcsrRead? || i.Lw?) && i.rd == r)
  {
    assert forall j :: j in insns + [i] <==> j in insns || j == i;
    if Writes(insns, r) {
      var j :| j in insns && (j.FcsrRead? || j.Lw?) && j.rd == r;
      assert j in insns + [i];
    }
  }

  /** Moves of the stack pointer apart, an instruction of a half writes what it names. */
  lemma StepX(e: Cpu, m: Met, i: Insn, r: Reg)
    requires (Before(m, i).Some? || After(m, i).Some?) && r != "sp"
    requires r == "zero" || !((i.FcsrRead? || i.Lw?) && i.rd == r)
    ensures Do(e, i).x(r) == e.x(r)
  {
    hide Word, ByteOf;
  }

  lemma {:induction false} BeforeX(s: Cpu, insns: seq<Insn>, r: Reg)
    requires Befores(insns).Some? && r != "sp" && (r == "zero" || !Writes(insns, r))
    ensures Exec(s, insns).x(r) == s.x(r)
    decreases |insns|
  {
    hide Before, Do;
    if insns != [] {
      var rest, i := insns[..|insns| - 1], insns[|insns| - 1];
      assert rest + [i] == insns;
      WritesMore(rest, i, r);
      BeforeX(s, rest, r);
      StepX(Exec(s, rest), Befores(rest).value, i, r);
    }
  }

  lemma {:induction false} AfterX(t: Cpu, m: Met, insns: seq<Insn>, r: Reg)
    requires Afters(m, insns).Some? && r != "sp" && (r == "zero" || !Writes(insns, r))
    ensures Exec(t, insns).x(r) == t.x(r)
    decreases |insns|
  {
    hide After, Do;
    if insns != [] {
      var rest, i := insns[..|insns| - 1], insns[|insns| - 1];
      assert rest + [i] == insns;
      WritesMore(rest, i, r);
      AfterX(t, m, rest, r);
      StepX(Exec(t, rest), Afters(m, rest).value, i, r);
    }
  }

  lemma SpareRegister(insns: seq<Insn>, r: Reg)
    requires Scratched(insns) && r !in SCRATCH && r != "zero"
    ensures !Writes(insns, r)
  {
  }

  lemma SpIsNone()
    ensures "sp" !in SCRATCH && "zero" !in SCRATCH
  {
  }

  lemma ScratchedNotSp(insns: seq<Insn>)
    requires Scratched(insns)
    ensures NotThroughSp(insns)
  {
    SpIsNone();
    hide SCRATCH;
  }

  // ---- the condition suffices ------------------------------------------------------------------

  lemma AllX(before: seq<Insn>, after: seq<Insn>, m: Met, n: Met, s: Cpu, t: Cpu, r: Reg)
    requires Accepted(before, after, m, n) && Scratched(before) && Scratched(after)
    requires Runs(before, s, t) && FloatBack(s, Exec(t, after)) && r !in SCRATCH
    ensures Exec(t, after).x(r) == s.x(r)
  {
    hide *;
    AcceptedBoth(before, after, m, n);
    RunsParts(before, s, t);
    ClobbersParts(Exec(s, before), t, r);
    if r == "sp" {
      SpBack(s, Exec(t, after));
    } else {
      if r != "zero" {
        SpareRegister(before, r);
        SpareRegister(after, r);
      }
      BeforeX(s, before, r);
      AfterX(t, m, after, r);
    }
  }

  lemma AcceptedBoth(before: seq<Insn>, after: seq<Insn>, m: Met, n: Met)
    requires Accepted(before, after, m, n)
    ensures Befores(before) == Some(m) && Afters(m, after) == Some(n)
    ensures m.waits.None? && n.waits.None? && m.saved.Some? && n.restored.Some?
  {
    hide Befores, Afters, Adjust;
  }

  lemma ClobbersParts(s: Cpu, t: Cpu, r: Reg)
    requires Clobbers(s, t)
    ensures t.x("sp") == s.x("sp") && (r !in SCRATCH ==> t.x(r) == s.x(r)) && (r !in CALLER_SAVED_F ==> t.f(r) == s.f(r))
    ensures forall a :: a >= s.x("sp") ==> t.mem(a) == s.mem(a)
  {
    hide SCRATCH, CALLER_SAVED_F;
  }

  lemma SpBack(s: Cpu, e: Cpu)
    requires FloatBack(s, e)
    ensures e.x("sp") == s.x("sp") && e.fcsr == s.fcsr && forall r :: r in CALLER_SAVED_F ==> e.f(r) == s.f(r)
  {
  }

  lemma AllF(before: seq<Insn>, after: seq<Insn>, m: Met, n: Met, s: Cpu, t: Cpu, r: Reg)
    requires Accepted(before, after, m, n) && NotThroughSp(before) && NotThroughSp(after)
    requires Runs(before, s, t) && FloatBack(s, Exec(t, after))
    ensures Exec(t, after).f(r) == s.f(r)
  {
    hide *;
    SpBack(s, Exec(t, after));
    if r !in CALLER_SAVED_F {
      Through(s, t, before, after, m, n);
      RunsParts(before, s, t);
      ClobbersParts(Exec(s, before), t, r);
      SavingF(s, Exec(s, before), before, m);
      LoadedTwenty(before, after, m, n);
      EndsF(t, Exec(t, after), s.x("sp"), after, n, r);
    }
  }

  lemma SavingF(s: Cpu, e: Cpu, insns: seq<Insn>, m: Met)
    requires Saving(s, e, insns, m)
    ensures e.f == s.f && e.x("sp") == s.x("sp") + Adjust(insns) && Marked(s, Stored(insns), e.mem)
  {
    hide Marked, Adjust, Stored;
  }

  lemma RestoringMem(t: Cpu, e: Cpu, entry: int, insns: seq<Insn>, m: Met)
    requires Restoring(t, e, entry, insns, m)
    ensures e.mem == t.mem
  {
    hide Adjust, Loaded, FcsrFrom, LoadedAs, FcsrAs;
  }

  lemma UnmarkedMem(s: Cpu, m: Marks, mem: int -> nat, a: int)
    requires Marked(s, m, mem) && a - s.x("sp") !in m
    ensures mem(a) == s.mem(a)
  {
    assert mem(a) == Expected(s, m, a);
  }

  lemma AllMem(before: seq<Insn>, after: seq<Insn>, m: Met, n: Met, s: Cpu, t: Cpu, a: int)
    requires Accepted(before, after, m, n) && NotThroughSp(before) && NotThroughSp(after)
    requires Runs(before, s, t) && Below(before) && a >= s.x("sp")
    ensures Exec(t, after).mem(a) == s.mem(a)
  {
    hide *;
    var mid := Exec(s, before);
    Through(s, t, before, after, m, n);
    RunsParts(before, s, t);
    ClobbersParts(mid, t, "");
    SavingF(s, mid, before, m);
    RestoringMem(t, Exec(t, after), s.x("sp"), after, n);
    BelowAt(before, a - s.x("sp"));
    UnmarkedMem(s, Stored(before), mid.mem, a);
  }

  lemma BelowAt(before: seq<Insn>, a: int)
    requires Below(before)
    ensures Adjust(before) <= 0 && (a >= 0 ==> a !in Stored(before))
  {
  }

  lemma RestoresAll(before: seq<Insn>, after: seq<Insn>, m: Met, n: Met, s: Cpu, t: Cpu)
    requires Accepted(before, after, m, n) && Kept(before, after) && Below(before)
    requires Scratched(before) && Scratched(after) && Runs(before, s, t)
    ensures Restored(s, Exec(t, after))
  {
    hide *;
    ScratchedNotSp(before);
    ScratchedNotSp(after);
    RoundTrip(before, after, m, n, s, t);
    var e := Exec(t, after);
    forall a | a >= s.x("sp") ensures e.mem(a) == s.mem(a) {
      AllMem(before, after, m, n, s, t, a);
    }
    forall r | r !in SCRATCH ensures e.x(r) == s.x(r) {
      AllX(before, after, m, n, s, t, r);
    }
    forall r ensures e.f(r) == s.f(r) {
      AllF(before, after, m, n, s, t, r);
    }
    SpBack(s, e);
    IsRestored(s, e);
  }

  lemma IsRestored(s: Cpu, e: Cpu)
    requires forall a :: a >= s.x("sp") ==> e.mem(a) == s.mem(a)
    requires forall r :: r !in SCRATCH ==> e.x(r) == s.x(r)
    requires (forall r :: e.f(r) == s.f(r)) && e.fcsr == s.fcsr
    ensures Restored(s, e)
  {
    hide SCRATCH;
  }

  // ---- and is necessary ------------------------------------------------------------------------

  function Poked(mem: int -> nat, at: int, v: nat): int -> nat {
    (a: int) => if a == at then v else mem(a)
  }

  /** A body that leaves a one at the bottom of the interrupted code's stack. */
  function Pokes(mid: Cpu): Cpu { mid.(mem := Poked(mid.mem, 0, 1)) }

  lemma PokesRuns(before: seq<Insn>, s: Cpu)
    requires Valid(s) && Valid(Exec(s, before)) && Exec(s, before).x("sp") > 0
    ensures Runs(before, s, Pokes(Exec(s, before))) && Pokes(Exec(s, before)).mem(0) == 1
  {
    hide Exec, SCRATCH, CALLER_SAVED_F;
  }

  lemma BlankIs(sp: int)
    ensures Valid(Blank(sp)) && Blank(sp).x("sp") == sp && Blank(sp).mem(0) == 0
  {
  }

  /** The body's stack would reach the interrupted code's. */
  lemma Reaches(before: seq<Insn>, after: seq<Insn>, m: Met, n: Met)
    requires Accepted(before, after, m, n) && NotThroughSp(before) && NotThroughSp(after) && Adjust(before) > 0
    ensures var s := Blank(0); var t := Pokes(Exec(s, before)); Runs(before, s, t) && !Restored(s, Exec(t, after))
  {
    hide *;
    var s := Blank(0);
    BlankIs(0);
    AcceptedBoth(before, after, m, n);
    BeforeValid(s, before);
    SavingHolds2(before, after, m, n, s);
    SavingF(s, Exec(s, before), before, m);
    PokesRuns(before, s);
    var t := Pokes(Exec(s, before));
    Through(s, t, before, after, m, n);
    RestoringMem(t, Exec(t, after), 0, after, n);
    NotMem(s, Exec(t, after), 0);
  }

  lemma NotMem(s: Cpu, e: Cpu, a: int)
    requires a >= s.x("sp") && e.mem(a) != s.mem(a)
    ensures !Restored(s, e)
  {
    hide SCRATCH;
  }

  /** All zeros, over a stack of ones. */
  function Ones(): Cpu {
    Cpu((x: Reg) => 0, (f: Reg) => 0, 0, 0, (a: int) => 1)
  }

  lemma OnesIs()
    ensures Valid(Ones()) && Ones().x("sp") == 0 && forall a :: Ones().mem(a) == 1
    ensures forall m: Mark :: ByteIn(Ones(), m) == 0
  {
    assert forall i: nat :: i < 4 ==> ByteOf(0, i) == 0;
    hide ByteOf;
  }

  lemma SameRuns(before: seq<Insn>, s: Cpu)
    requires Valid(s) && Valid(Exec(s, before))
    ensures Runs(before, s, Exec(s, before))
  {
    hide Exec, SCRATCH, CALLER_SAVED_F;
  }

  /** A slot reaches it. */
  lemma Overlaps(before: seq<Insn>, after: seq<Insn>, m: Met, n: Met, a: int)
    requires Accepted(before, after, m, n) && NotThroughSp(before) && NotThroughSp(after)
    requires a >= 0 && a in Stored(before)
    ensures var s := Ones(); Runs(before, s, Exec(s, before)) && !Restored(s, Exec(Exec(s, before), after))
  {
    hide *;
    var s := Ones();
    var t := Exec(s, before);
    OnesIs();
    AcceptedBoth(before, after, m, n);
    BeforeValid(s, before);
    SameRuns(before, s);
    Through(s, t, before, after, m, n);
    SavingF(s, t, before, m);
    RestoringMem(t, Exec(t, after), 0, after, n);
    MarkedMem(s, Stored(before), t.mem, a);
    NotMem(s, Exec(t, after), a);
  }

  lemma MarkedMem(s: Cpu, m: Marks, mem: int -> nat, a: int)
    requires Marked(s, m, mem) && a - s.x("sp") in m
    ensures mem(a) == ByteIn(s, m[a - s.x("sp")])
  {
    assert mem(a) == Expected(s, m, a);
  }

  /** All zeros but one integer register. */
  function OnlyX(r: Reg): Cpu {
    Cpu((x: Reg) => if x == r then 1 else 0, (f: Reg) => 0, 0, 0, (a: int) => 0)
  }

  /** Still so, or with that one zero too. */
  ghost predicate ZeroBut(e: Cpu, r: Reg, v: int) {
    && (forall a :: e.mem(a) == 0) && (forall q :: e.f(q) == 0) && e.fcsr == 0 && e.swapped == 0
    && e.x(r) == v && forall q :: q != "sp" && q != r ==> e.x(q) == 0
  }

  /** What a half's instruction writes into that register is a zero. */
  lemma ZeroButStep(e: Cpu, m: Met, r: Reg, v: int, i: Insn)
    requires ZeroBut(e, r, v) && r != "sp" && r != "zero" && (Before(m, i).Some? || After(m, i).Some?)
    requires !TakesSp(i) && m.waits != Some("sp") && (m.waits == Some(r) ==> v == 0)
    ensures ZeroBut(Do(e, i), r, if (i.FcsrRead? || i.Lw?) && i.rd == r then 0 else v)
  {
    assert forall k: nat :: k < 4 ==> ByteOf(0, k) == 0;
    hide ByteOf;
  }

  lemma WaitsStep(m: Met, r: Reg, v: int, i: Insn)
    requires (m.waits == Some(r) ==> v == 0) && m.waits != Some("sp") && !TakesSp(i)
    ensures var w := if (i.FcsrRead? || i.Lw?) && i.rd == r then 0 else v;
      && (Before(m, i).Some? ==> Before(m, i).value.waits != Some("sp")
                                 && (Before(m, i).value.waits == Some(r) ==> w == 0))
      && (After(m, i).Some? ==> After(m, i).value.waits != Some("sp")
                                && (After(m, i).value.waits == Some(r) ==> w == 0))
  {
  }

  lemma {:induction false} BeforeZeroes(s: Cpu, insns: seq<Insn>, r: Reg, v: int)
    requires Befores(insns).Some? && NotThroughSp(insns) && ZeroBut(s, r, v) && r != "sp" && r != "zero"
    ensures var m, w := Befores(insns).value, if Writes(insns, r) then 0 else v;
      ZeroBut(Exec(s, insns), r, w) && m.waits != Some("sp") && (m.waits == Some(r) ==> w == 0)
    decreases |insns|
  {
    hide Before, Do, ZeroBut, Writes, NotThroughSp;
    if insns == [] {
      NothingWrites(r);
    } else {
      var rest, i := insns[..|insns| - 1], insns[|insns| - 1];
      assert rest + [i] == insns;
      ThroughMore(rest, i);
      WritesMore(rest, i, r);
      BeforeZeroes(s, rest, r, v);
      var w := if Writes(rest, r) then 0 else v;
      ZeroButStep(Exec(s, rest), Befores(rest).value, r, w, i);
      WaitsStep(Befores(rest).value, r, w, i);
    }
  }

  lemma NothingWrites(r: Reg)
    ensures !Writes([], r)
  {
  }

  lemma {:induction false} AfterZeroes(t: Cpu, m: Met, insns: seq<Insn>, r: Reg, v: int)
    requires Afters(m, insns).Some? && NotThroughSp(insns) && ZeroBut(t, r, v) && r != "sp" && r != "zero" && m.waits.None?
    ensures var n, w := Afters(m, insns).value, if Writes(insns, r) then 0 else v;
      ZeroBut(Exec(t, insns), r, w) && n.waits != Some("sp") && (n.waits == Some(r) ==> w == 0)
    decreases |insns|
  {
    hide After, Do, ZeroBut, Writes, NotThroughSp;
    if insns == [] {
      NothingWrites(r);
    } else {
      var rest, i := insns[..|insns| - 1], insns[|insns| - 1];
      assert rest + [i] == insns;
      ThroughMore(rest, i);
      WritesMore(rest, i, r);
      AfterZeroes(t, m, rest, r, v);
      var w := if Writes(rest, r) then 0 else v;
      ZeroButStep(Exec(t, rest), Afters(m, rest).value, r, w, i);
      WaitsStep(Afters(m, rest).value, r, w, i);
    }
  }

  /** A register nobody saves holds fcsr for a moment. */
  lemma LosesX(before: seq<Insn>, after: seq<Insn>, m: Met, n: Met, r: Reg)
    requires Accepted(before, after, m, n) && NotThroughSp(before) && NotThroughSp(after)
    requires (Writes(before, r) || Writes(after, r)) && r !in SCRATCH && r != "zero" && r != "sp"
    ensures var s := OnlyX(r); Runs(before, s, Exec(s, before)) && !Restored(s, Exec(Exec(s, before), after))
  {
    hide *;
    var s := OnlyX(r);
    var t := Exec(s, before);
    OnlyXIs(r);
    AcceptedBoth(before, after, m, n);
    BeforeValid(s, before);
    SameRuns(before, s);
    BeforeZeroes(s, before, r, 1);
    AfterZeroes(t, m, after, r, if Writes(before, r) then 0 else 1);
    ZeroX(Exec(t, after), r);
    NotX(s, Exec(t, after), r);
  }

  lemma OnlyXIs(r: Reg)
    requires r != "zero" && r != "sp"
    ensures Valid(OnlyX(r)) && ZeroBut(OnlyX(r), r, 1) && OnlyX(r).x(r) == 1
  {
  }

  lemma ZeroX(e: Cpu, r: Reg)
    ensures forall v :: ZeroBut(e, r, v) ==> e.x(r) == v
  {
  }

  lemma NotX(s: Cpu, e: Cpu, r: Reg)
    requires r !in SCRATCH && e.x(r) != s.x(r)
    ensures !Restored(s, e)
  {
    hide SCRATCH;
  }

  lemma WhyNotScratched(insns: seq<Insn>) returns (r: Reg)
    requires !Scratched(insns) && NotThroughSp(insns)
    ensures Writes(insns, r) && r !in SCRATCH && r != "zero" && r != "sp"
  {
    hide SCRATCH;
    var i :| i in insns && (i.FcsrRead? || i.Lw?) && i.rd !in SCRATCH && i.rd != "zero";
    r := i.rd;
    assert Writes(insns, r);
  }

  lemma AlwaysParts(before: seq<Insn>, after: seq<Insn>, s: Cpu, t: Cpu)
    requires AlwaysRestores(before, after) && Runs(before, s, t)
    ensures Restored(s, Exec(t, after))
  {
    hide Exec, Runs, Restored;
  }

  lemma FloatToo(before: seq<Insn>, after: seq<Insn>)
    requires AlwaysRestores(before, after)
    ensures AlwaysFloat(before, after)
  {
    forall s: Cpu, t: Cpu | Runs(before, s, t) ensures FloatBack(s, Exec(t, after)) {
      AlwaysParts(before, after, s, t);
      RestoredFloat(s, Exec(t, after));
    }
  }

  lemma RestoredFloat(s: Cpu, e: Cpu)
    requires Restored(s, e)
    ensures FloatBack(s, e)
  {
    SpIsNone();
    hide SCRATCH, CALLER_SAVED_F;
  }

  lemma AllRestored(before: seq<Insn>, after: seq<Insn>)
    requires forall s: Cpu, t: Cpu | Runs(before, s, t) :: Restored(s, Exec(t, after))
    ensures AlwaysRestores(before, after)
  {
    hide Exec, Runs, Restored;
  }

  lemma NotBelow(before: seq<Insn>) returns (a: int)
    requires !Below(before)
    ensures Adjust(before) > 0 || (a >= 0 && a in Stored(before))
  {
    a := 0;
    if Adjust(before) <= 0 {
      a :| a in Stored(before) && a >= 0;
    }
  }

  /**
   Exactly when what classify calls a float trampoline loses nothing of the interrupted
   code's, whatever that was and whatever the body does: each of the twenty registers and
   fcsr is loaded from where all four of its bytes still lie, above the body's stack;
   the body's stack and every slot lie below the interrupted code's; and fcsr goes
   through registers the hardware saves. classify compares the slots' offsets and adds
   the stack pointer's moves, and looks at none of this.
  */
  lemma FloatRestoresIff(before: seq<Insn>, after: seq<Insn>, body: nat)
    requires Halves(before, after, body) == Float(body)
    ensures AlwaysRestores(before, after) <==>
            Kept(before, after) && Below(before) && Scratched(before) && Scratched(after)
  {
    hide *;
    var m, n := FloatAccepted(before, after, body);
    FloatBackIff(before, after, body);
    if Kept(before, after) && Below(before) && Scratched(before) && Scratched(after) {
      forall s: Cpu, t: Cpu | Runs(before, s, t) ensures Restored(s, Exec(t, after)) {
        RestoresAll(before, after, m, n, s, t);
      }
      AllRestored(before, after);
    } else if AlwaysRestores(before, after) {
      FloatToo(before, after);
      Escapes(before, after, m, n);
    }
  }

  /** A state and a body for each way past the rest of the condition. */
  lemma Escapes(before: seq<Insn>, after: seq<Insn>, m: Met, n: Met)
    requires Accepted(before, after, m, n) && NotThroughSp(before) && NotThroughSp(after)
    requires !Below(before) || !Scratched(before) || !Scratched(after)
    ensures !AlwaysRestores(before, after)
  {
    hide *;
    if !Below(before) {
      var a := NotBelow(before);
      if Adjust(before) > 0 {
        Reaches(before, after, m, n);
        Refutes(before, after, Blank(0), Pokes(Exec(Blank(0), before)));
      } else {
        Overlaps(before, after, m, n, a);
        Refutes(before, after, Ones(), Exec(Ones(), before));
      }
    } else {
      var r;
      if !Scratched(before) {
        r := WhyNotScratched(before);
      } else {
        r := WhyNotScratched(after);
      }
      LosesX(before, after, m, n, r);
      Refutes(before, after, OnlyX(r), Exec(OnlyX(r), before));
    }
  }

  lemma Refutes(before: seq<Insn>, after: seq<Insn>, s: Cpu, t: Cpu)
    requires Runs(before, s, t) && !Restored(s, Exec(t, after))
    ensures !AlwaysRestores(before, after)
  {
    hide Exec, Runs, Restored;
  }
}

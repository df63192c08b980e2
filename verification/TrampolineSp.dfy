/** fcsr saved or restored through the stack pointer itself, which classify lets by. */
module TrampolineSp {
  import opened Basics
  import opened Listing
  import opened Trampoline
  import opened TrampolineRuns

  /** All zeros but the stack pointer. */
  ghost predicate Zero(e: Cpu) {
    && (forall a :: e.mem(a) == 0) && (forall r :: e.f(r) == 0) && e.fcsr == 0 && e.swapped == 0
    && forall r :: r != "sp" ==> e.x(r) == 0
  }

  ghost predicate Same(e: Cpu, d: Cpu) {
    && (forall a :: e.mem(a) == d.mem(a)) && (forall r :: e.f(r) == d.f(r)) && e.fcsr == d.fcsr
    && e.swapped == d.swapped && forall r :: e.x(r) == d.x(r)
  }

  function Blank(sp: int): Cpu {
    Cpu((x: Reg) => if x == "sp" then sp else 0, (f: Reg) => 0, 0, 0, (a: int) => 0)
  }

  /** Two runs that started apart in the stack pointer alone: still zero, or the same. */
  ghost predicate Alike(e: Cpu, d: Cpu, m: Met, through: bool) {
    && (Same(e, d) || (!through && Zero(e) && Zero(d)))
    && (m.waits == Some("sp") ==> Same(e, d))
  }

  predicate TakesSp(i: Insn) { i == FcsrRead("sp") || (i.Lw? && i.rd == "sp") }

  lemma SameStep(e: Cpu, d: Cpu, i: Insn)
    requires Same(e, d)
    ensures Same(Do(e, i), Do(d, i))
  {
    hide ByteOf;
    if i.Sw? {
      assert e.x(i.rs) == d.x(i.rs) && e.x(i.base) == d.x(i.base);
    }
  }

  lemma ZeroStep(e: Cpu, i: Insn)
    requires Zero(e) && (i.Addi? || i.Fsw? || i.Flw? || i.Lw? || i.FcsrRead? || i.FcsrWrite? || i.Sw?)
    requires i.Addi? ==> i.rd == "sp"
    requires i.FcsrWrite? || i.Sw? ==> i.rs != "sp"
    requires !TakesSp(i)
    ensures Zero(Do(e, i))
  {
    assert forall k: nat :: k < 4 ==> ByteOf(0, k) == 0;
    hide ByteOf;
  }

  lemma TakesSame(e: Cpu, d: Cpu, i: Insn)
    requires Zero(e) && Zero(d) && TakesSp(i)
    ensures Same(Do(e, i), Do(d, i))
  {
    hide ByteOf;
  }

  lemma AlikeStep(e: Cpu, d: Cpu, m: Met, through: bool, i: Insn)
    requires Alike(e, d, m, through) && (Before(m, i).Some? || After(m, i).Some?)
    ensures Before(m, i).Some? ==> Alike(Do(e, i), Do(d, i), Before(m, i).value, through || TakesSp(i))
    ensures After(m, i).Some? ==> Alike(Do(e, i), Do(d, i), After(m, i).value, through || TakesSp(i))
  {
    if Same(e, d) {
      SameStep(e, d, i);
    } else if TakesSp(i) {
      TakesSame(e, d, i);
    } else {
      ZeroStep(e, i);
      ZeroStep(d, i);
    }
    hide Same, Zero, Do;
  }

  lemma {:induction false} BeforeAlike(e: Cpu, d: Cpu, insns: seq<Insn>)
    requires Befores(insns).Some? && Alike(e, d, NOTHING, false)
    ensures Alike(Exec(e, insns), Exec(d, insns), Befores(insns).value, !NotThroughSp(insns))
    decreases |insns|
  {
    hide Alike, Do, Before;
    if insns != [] {
      var rest, i := insns[..|insns| - 1], insns[|insns| - 1];
      BeforeAlike(e, d, rest);
      AlikeStep(Exec(e, rest), Exec(d, rest), Befores(rest).value, !NotThroughSp(rest), i);
      ThroughMore(rest, i);
      assert rest + [i] == insns;
    }
  }

  lemma ThroughMore(rest: seq<Insn>, i: Insn)
    ensures !NotThroughSp(rest + [i]) <==> !NotThroughSp(rest) || TakesSp(i)
  {
    assert forall j :: j in rest + [i] <==> j in rest || j == i;
  }

  lemma {:induction false} AfterAlike(e: Cpu, d: Cpu, m: Met, through: bool, insns: seq<Insn>)
    requires Afters(m, insns).Some? && Alike(e, d, m, through)
    ensures Alike(Exec(e, insns), Exec(d, insns), Afters(m, insns).value, through || !NotThroughSp(insns))
    decreases |insns|
  {
    hide Alike, Do, After;
    if insns != [] {
      var rest, i := insns[..|insns| - 1], insns[|insns| - 1];
      AfterAlike(e, d, m, through, rest);
      AlikeStep(Exec(e, rest), Exec(d, rest), Afters(m, rest).value, through || !NotThroughSp(rest), i);
      ThroughMore(rest, i);
      assert rest + [i] == insns;
    }
  }

  lemma {:induction false} BeforeValid(s: Cpu, insns: seq<Insn>)
    requires Befores(insns).Some? && Valid(s)
    ensures Valid(Exec(s, insns))
    decreases |insns|
  {
    if insns != [] {
      BeforeValid(s, insns[..|insns| - 1]);
      BeforeValidStep(Exec(s, insns[..|insns| - 1]), Befores(insns[..|insns| - 1]).value, insns[|insns| - 1]);
      hide Valid, Do, Before;
    }
  }

  lemma BeforeValidStep(e: Cpu, m: Met, i: Insn)
    requires Valid(e) && Before(m, i).Some?
    ensures Valid(Do(e, i))
  {
    hide ByteOf;
    var d := Do(e, i);
    if i.Fsw? || i.Sw? {
      var at := e.x(i.base) + i.off;
      var v: nat := if i.Fsw? then e.f(i.fs) else if e.x(i.rs) < 0 then 0 else e.x(i.rs);
      forall a ensures d.mem(a) < 256 {
        assert d.mem(a) == if at <= a < at + 4 then ByteOf(v, a - at) else e.mem(a);
      }
    }
  }

  /** The stack pointer a run ends with does not depend on the one it began with. */
  lemma SpForgotten(before: seq<Insn>, after: seq<Insn>, m: Met, n: Met)
    requires Accepted(before, after, m, n) && (!NotThroughSp(before) || !NotThroughSp(after))
    ensures !AlwaysFloat(before, after)
  {
    var s, u := Blank(0x2000), Blank(0x3000);
    var t, v := Exec(s, before), Exec(u, before);
    assert Valid(s) && Valid(u) && Alike(s, u, NOTHING, false);
    hide Valid, Alike, Exec, NotThroughSp;
    BeforeValid(s, before);
    BeforeValid(u, before);
    assert Runs(before, s, t) && Runs(before, u, v);
    BeforeAlike(s, u, before);
    AfterAlike(t, v, m, !NotThroughSp(before), after);
    EndTogether(Exec(t, after), Exec(v, after), n);
    if FloatBack(s, Exec(t, after)) {
      NotAlways(before, after, u, v);
    } else {
      NotAlways(before, after, s, t);
    }
  }

  lemma EndTogether(e: Cpu, d: Cpu, n: Met)
    requires Alike(e, d, n, true)
    ensures e.x("sp") == d.x("sp")
  {
  }

  /** The same of every two halves: fcsr is not to go through the stack pointer. */
  lemma FloatBackIff(before: seq<Insn>, after: seq<Insn>, body: nat)
    requires Halves(before, after, body) == Float(body)
    ensures AlwaysFloat(before, after) <==>
            NotThroughSp(before) && NotThroughSp(after) && Kept(before, after)
  {
    hide *;
    var m, n := FloatAccepted(before, after, body);
    if NotThroughSp(before) && NotThroughSp(after) {
      FloatIff(before, after, body);
    } else {
      SpForgotten(before, after, m, n);
    }
  }
}

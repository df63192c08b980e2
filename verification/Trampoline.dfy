/**
 classify (cli/vector_guard.py:323-383): is a handler a trampoline, and does it save
 and restore the float state around its one call?
*/
module Trampoline {
  import opened Basics
  import opened Listing

  /** The clobbered f-registers of the RISC-V psABI's single-float convention. */
  const CALLER_SAVED_F: set<Reg> :=
    {"ft0", "ft1", "ft2", "ft3", "ft4", "ft5", "ft6", "ft7", "ft8", "ft9", "ft10", "ft11",
     "fa0", "fa1", "fa2", "fa3", "fa4", "fa5", "fa6", "fa7"}

  datatype WhyBad = NotTheTwenty | OtherSlot | NoFcsr | FcsrSlot | SpMoved

  datatype Kind = Plain(body: nat) | Float(body: nat) | BadFloat(why: WhyBad) | NotOne

  /** What has been met of the two halves. `waits` is the integer register between the
      two instructions of an fcsr step, with the slot it was loaded from. */
  datatype Met = Met(stored: map<Reg, int>, loaded: map<Reg, int>, adjust: int,
                     saved: Option<int>, restored: Option<int>, waits: Option<Reg>, slot: int)

  const NOTHING := Met(map[], map[], 0, None, None, None, 0)

  /** One instruction before the call; nothing when it belongs in no trampoline. */
  function Before(m: Met, i: Insn): Option<Met> {
    match i
    case Addi(rd, rs, imm, _) =>
      if rd == "sp" && rs == "sp" then Some(m.(adjust := m.adjust + imm)) else None
    case Fsw(fs, off, base) =>
      if base == "sp" then Some(m.(stored := m.stored[fs := off])) else None
    case FcsrRead(rd) =>
      if m.waits.None? then Some(m.(waits := Some(rd))) else None
    case Sw(rs, off, base) =>
      if base == "sp" && m.waits == Some(rs) && m.saved.None?
      then Some(m.(saved := Some(off), waits := None)) else None
    case _ => None
  }

  /** One instruction after it. */
  function After(m: Met, i: Insn): Option<Met> {
    match i
    case Addi(rd, rs, imm, _) =>
      if rd == "sp" && rs == "sp" then Some(m.(adjust := m.adjust + imm)) else None
    case Flw(fd, off, base) =>
      if base == "sp" then Some(m.(loaded := m.loaded[fd := off])) else None
    case Lw(rd, off, base) =>
      if base == "sp" && m.waits.None? && m.restored.None?
      then Some(m.(waits := Some(rd), slot := off)) else None
    case FcsrWrite(rs, _) =>
      if m.waits == Some(rs) then Some(m.(restored := Some(m.slot), waits := None)) else None
    case _ => None
  }

  function Befores(insns: seq<Insn>): Option<Met> {
    if insns == [] then Some(NOTHING)
    else
      match Befores(insns[..|insns| - 1])
      case None => None
      case Some(m) => Before(m, insns[|insns| - 1])
  }

  function Afters(m: Met, insns: seq<Insn>): Option<Met> {
    if insns == [] then Some(m)
    else
      match Afters(m, insns[..|insns| - 1])
      case None => None
      case Some(n) => After(n, insns[|insns| - 1])
  }

  function Verdict(m: Met, body: nat): Kind {
    if m.stored.Keys != CALLER_SAVED_F || m.loaded.Keys != CALLER_SAVED_F then BadFloat(NotTheTwenty)
    else if m.stored != m.loaded then BadFloat(OtherSlot)
    else if m.saved.None? || m.restored.None? then BadFloat(NoFcsr)
    else if m.saved != m.restored || m.saved.value in m.stored.Values then BadFloat(FcsrSlot)
    else if m.adjust != 0 then BadFloat(SpMoved)
    else Float(body)
  }

  /** The two halves, judged. */
  function Halves(before: seq<Insn>, after: seq<Insn>, body: nat): Kind {
    match Befores(before)
    case None => NotOne
    case Some(m) =>
      if m.waits.Some? then NotOne else
      match Afters(m, after)
      case None => NotOne
      case Some(n) => if n.waits.Some? then NotOne else Verdict(n, body)
  }

  /** jal, call, or a jalr the listing resolves. */
  predicate Calls(i: Insn) {
    i.Call? || (i.CallReg? && i.target.Some?)
  }

  function CallsIn(insns: seq<Insn>, n: nat): (ks: seq<nat>)
    requires n <= |insns|
    ensures forall k: nat :: k in ks <==> k < n && Calls(insns[k])
  {
    if n == 0 then [] else CallsIn(insns, n - 1) + (if Calls(insns[n - 1]) then [n - 1] else [])
  }

  /** The half before a call at `k`, without the auipc of a two-instruction call. */
  function Prefix(insns: seq<Insn>, k: nat): seq<Insn>
    requires k < |insns|
  {
    if k > 0 && insns[k - 1] == Auipc("ra") then insns[..k - 1] else insns[..k]
  }

  function Classify(insns: seq<Insn>): Kind {
    var ks := CallsIn(insns, |insns|);
    assert ks != [] ==> ks[0] in ks;
    if insns == [] || !insns[|insns| - 1].Mret? || |ks| != 1 || insns[ks[0]].target.None? then NotOne
    else
      var k, body := ks[0], insns[ks[0]].target.value;
      var before, after := Prefix(insns, k), insns[k + 1..|insns| - 1];
      if before == [] && after == [] then Plain(body) else Halves(before, after, body)
  }

  /** Plain, the body at `to`: a call that resolves to it and an mret, with the auipc of a
      two-instruction call before them or nothing, and not an instruction more. */
  predicate CallsAndReturns(insns: seq<Insn>, to: nat) {
    && 2 <= |insns| <= 3 && insns[|insns| - 1].Mret?
    && Calls(insns[|insns| - 2]) && insns[|insns| - 2].target == Some(to)
    && (|insns| == 3 ==> insns[0] == Auipc("ra"))
  }

  lemma PlainIff(insns: seq<Insn>, to: nat)
    ensures Classify(insns) == Plain(to) <==> CallsAndReturns(insns, to)
  {
    var n := |insns|;
    hide Befores, Afters;
    if CallsAndReturns(insns, to) {
      assert CallsIn(insns, n - 2) == [] by {
        assert n == 3 ==> CallsIn(insns, 0) == [];
      }
      assert CallsIn(insns, n - 1) == [n - 2];
      assert CallsIn(insns, n) == [n - 2];
    }
  }

  /** classify, as it runs. */
  method Recognize(insns: seq<Insn>) returns (kind: Kind)
    ensures kind == Classify(insns)
  {
    hide Befores, Afters, Before, After, Verdict;
    var ks, n := [], 0;
    while n < |insns|
      invariant n <= |insns| && ks == CallsIn(insns, n)
    {
      if Calls(insns[n]) {
        ks := ks + [n];
      }
      n := n + 1;
    }
    assert ks != [] ==> ks[0] in ks;
    if insns == [] || !insns[|insns| - 1].Mret? || |ks| != 1 || insns[ks[0]].target.None? {
      return NotOne;
    }
    var k := ks[0];
    var before, after := Prefix(insns, k), insns[k + 1..|insns| - 1];
    if before == [] && after == [] {
      return Plain(insns[k].target.value);
    }
    kind := JudgeHalves(before, after, insns[k].target.value);
  }

  method JudgeHalves(before: seq<Insn>, after: seq<Insn>, body: nat) returns (kind: Kind)
    ensures kind == Halves(before, after, body)
  {
    hide Before, After, Verdict;
    var met, i := NOTHING, 0;
    while i < |before|
      invariant i <= |before| && Befores(before[..i]) == Some(met)
    {
      var m := Before(met, before[i]);
      BeforesNext(before, i);
      if m.None? {
        BeforesStop(before, i + 1);
        return NotOne;
      }
      met, i := m.value, i + 1;
    }
    assert before[..|before|] == before;
    if met.waits.Some? {
      return NotOne;
    }
    ghost var half := met;
    i := 0;
    while i < |after|
      invariant i <= |after| && Afters(half, after[..i]) == Some(met)
    {
      var m := After(met, after[i]);
      AftersNext(half, after, i);
      if m.None? {
        AftersStop(half, after, i + 1);
        return NotOne;
      }
      met, i := m.value, i + 1;
    }
    assert after[..|after|] == after;
    if met.waits.Some? {
      return NotOne;
    }
    return Verdict(met, body);
  }

  lemma BeforesNext(insns: seq<Insn>, i: nat)
    requires i < |insns| && Befores(insns[..i]).Some?
    ensures Befores(insns[..i + 1]) == Before(Befores(insns[..i]).value, insns[i])
  {
    assert insns[..i + 1][..i] == insns[..i];
  }

  lemma {:induction false} BeforesStop(insns: seq<Insn>, i: nat)
    requires i <= |insns| && Befores(insns[..i]).None?
    ensures Befores(insns).None?
    decreases |insns| - i
  {
    if i < |insns| {
      assert insns[..i + 1][..i] == insns[..i];
      BeforesStop(insns, i + 1);
    } else {
      assert insns[..i] == insns;
    }
  }

  lemma AftersNext(m: Met, insns: seq<Insn>, i: nat)
    requires i < |insns| && Afters(m, insns[..i]).Some?
    ensures Afters(m, insns[..i + 1]) == After(Afters(m, insns[..i]).value, insns[i])
  {
    assert insns[..i + 1][..i] == insns[..i];
  }

  lemma {:induction false} AftersStop(m: Met, insns: seq<Insn>, i: nat)
    requires i <= |insns| && Afters(m, insns[..i]).None?
    ensures Afters(m, insns).None?
    decreases |insns| - i
  {
    if i < |insns| {
      assert insns[..i + 1][..i] == insns[..i];
      AftersStop(m, insns, i + 1);
    } else {
      assert insns[..i] == insns;
    }
  }
}

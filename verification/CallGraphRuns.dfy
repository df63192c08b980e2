/**
 What the walk's answer means for the machine: no run of a body, through any calls,
 tail calls, branches and tables, leaves the functions reached or fetches an
 instruction with a fault - provided its dispatches are sheltered
 (Machine.AllSheltered), which is what the guard does not check of them.
*/
module CallGraphRuns {
  import opened Basics
  import opened Listing
  import opened JumpTable
  import opened CallGraph
  import opened Machine

  /** Every position held, and every one to return to, is in one of `fns`. */
  ghost predicate Within(s: Cpu, fns: set<nat>) {
    s.pc.fn in fns && forall i :: 0 <= i < |s.stack| ==> s.stack[i].fn in fns
  }

  /** Functions entered from one of `fns` are in it, and none has a fault. */
  ghost predicate Guarded(c: Code, fns: set<nat>) {
    && Listable(c) && fns <= c.funcs.Keys && CallGraph.Closed(c, fns)
    && forall fn :: fn in fns ==> Faultless(c, fn)
  }

  /** The instruction fetched: no f-register, no floating-point CSR, and its target, when
      it has one, resolved or a table's. */
  ghost predicate Harmless(c: Code, p: Pos) {
    At(c, p) ==> !TouchesFp(InsnAt(c, p)) && !JudgeAt(c, p.fn, p.k).Fault?
  }

  lemma JudgedHarmless(c: Code, fns: set<nat>, p: Pos)
    requires Guarded(c, fns) && p.fn in fns
    ensures Harmless(c, p)
  {
    if At(c, p) {
      assert Faultless(c, p.fn);
      assert !JudgeAt(c, p.fn, p.k).Fault?;
      hide Guarded, Listable, Faultless, TableOf;
    }
  }

  /** What a transfer out of a guarded function lands in is guarded. */
  lemma ArrivesWithin(c: Code, fns: set<nat>, s: Cpu, to: Pos)
    requires Guarded(c, fns) && s.pc.fn in fns && At(c, s.pc) && InTable(c, s) && Arrives(c, s.pc, s.regs, to)
    ensures to.fn in fns
  {
    hide TableOf, InOrder, Owner;
    assert Faultless(c, s.pc.fn);
    var v := JudgeAt(c, s.pc.fn, s.pc.k);
    assert !v.Fault?;
    if v.Goes? {
      AtItsOwner(c, to, v.to);
      assert EntersAt(c, s.pc.fn, s.pc.k, to.fn);
      assert Enters(c, s.pc.fn, to.fn);
    } else {
      IndirectDispatches(c, s.pc);
      var w := s.regs(InsnAt(c, s.pc).rs);
      TableInside(c, s.pc, w);
      OwnerIff(c.starts, c.funcs, w, s.pc.fn);
      AtItsOwner(c, to, w);
    }
  }

  lemma StepWithin(c: Code, fns: set<nat>, s: Cpu, t: Cpu)
    requires Guarded(c, fns) && Within(s, fns) && At(c, s.pc) && InTable(c, s) && Step(c, s, t)
    ensures Within(t, fns)
  {
    hide Guarded, Arrives, InTable, JumpTableMachine.Falls;
    if Arrives(c, s.pc, s.regs, t.pc) {
      ArrivesWithin(c, fns, s, t.pc);
    }
  }

  /** Where a run stands: in its functions, on no fault, come there by falling if it is
      in a dispatch, and about to jump to a word of the table if it is at its jr. */
  ghost predicate Kept(c: Code, fns: set<nat>, run: seq<Cpu>, i: nat)
    requires i < |run|
  {
    && Within(run[i], fns) && Harmless(c, run[i].pc) && InTable(c, run[i])
    && Fell(c, fns, run, i) && StackOutside(c, fns, run[i].stack)
  }

  /** What a run begins as: in one of `fns`, in the middle of no dispatch. */
  ghost predicate Starts(c: Code, fns: set<nat>, s: Cpu) {
    s.pc.fn in fns && Outside(c, fns, s.pc) && s.stack == []
  }

  lemma {:induction false} RunKept(c: Code, fns: set<nat>, run: seq<Cpu>, i: nat)
    requires Guarded(c, fns) && AllSheltered(c, fns) && Addressed(c)
    requires Run(c, run) && Starts(c, fns, run[0]) && i < |run|
    ensures forall j :: 0 <= j <= i ==> Kept(c, fns, run, j)
  {
    hide AllSheltered, Step, Harmless, InTable, Outside, JumpTableMachine.Falls, Enters;
    if i > 0 {
      RunKept(c, fns, run, i - 1);
      assert Kept(c, fns, run, i - 1);
      NotFault(c, run[i - 1].pc);
      StepWithin(c, fns, run[i - 1], run[i]);
      StepFalls(c, fns, run[i - 1], run[i]);
    }
    JudgedHarmless(c, fns, run[i].pc);
    forall j | 0 <= j <= i ensures Fell(c, fns, run, j) {
      assert j < i ==> Kept(c, fns, run, j);
    }
    JumpsToTable(c, fns, run, i);
  }

  lemma NotFault(c: Code, p: Pos)
    requires Harmless(c, p) && At(c, p)
    ensures !JudgeAt(c, p.fn, p.k).Fault?
  {
  }

  /**
   The walk is sound: when it reports no failure, no run of the body - from its first
   instruction, or any that is in the middle of no dispatch, through any calls, tail
   calls, branches and tables - fetches an instruction that touches the floating-point
   unit, leaves the functions reached, or jumps through a table to anything but one of
   its words.
  */
  lemma WalkSound(c: Code, body: nat, reached: set<nat>, run: seq<Cpu>, i: nat)
    requires Listable(c) && Addressed(c) && body in c.funcs && AllSheltered(c, reached)
    requires forall fn :: fn in reached <==> Reachable(c, body, fn)
    requires reached <= c.funcs.Keys && forall fn :: fn in reached ==> Faultless(c, fn)
    requires Run(c, run) && run[0].pc.fn == body && Starts(c, reached, run[0]) && i < |run|
    ensures Within(run[i], reached) && Harmless(c, run[i].pc) && InTable(c, run[i])
  {
    ReachableClosed(c, body, reached);
    RunKept(c, reached, run, i);
    hide Listable, AllSheltered, Faultless, Reachable, Run;
    assert Kept(c, reached, run, i);
  }

  lemma ReachableClosed(c: Code, body: nat, reached: set<nat>)
    requires forall fn :: fn in reached <==> Reachable(c, body, fn)
    ensures CallGraph.Closed(c, reached)
  {
    hide Enters;
    forall fn, dest | fn in reached && Enters(c, fn, dest) ensures dest in reached {
      var chain :| Way(c, chain, body) && chain[0] == fn;
      WayOn(c, chain, body, dest);
      assert ([dest] + chain)[0] == dest;
    }
  }

  // ---- leaves ------------------------------------------------------------------------

  /** What leaf_faults holds against an instruction. */
  function LeafFault(image: Image, start: nat, func: Func, k: nat): Option<Why>
    requires k < |func.lines|
  {
    var i := func.lines[k].insn;
    match FpFault(i)
    case Some(why) => Some(why)
    case None =>
      match ResolvedTarget(i)
      case No => None
      case To(a) =>
        if IsCall(i) then Some(ACall) else if start <= a < func.end then None else Some(TailCall)
      case Indirect =>
        if i.Call? then Some(ACall)
        else if i.JumpReg? && TableOf(image, func.lines, k, start, func.end).Some? then None
        else if i.CallReg? then Some(IndirectCall) else Some(IndirectJump)
  }

  function LeafHits(image: Image, start: nat, func: Func, n: nat): (hits: seq<Hit>)
    requires n <= |func.lines|
    ensures hits == [] <==> forall k :: 0 <= k < n ==> LeafFault(image, start, func, k).None?
  {
    if n == 0 then []
    else
      var why := LeafFault(image, start, func, n - 1);
      LeafHits(image, start, func, n - 1) + (if why.Some? then [Hit(func.lines[n - 1].addr, why.value)] else [])
  }

  /** leaf_faults (cli/vector_guard.py:386-408). */
  method FindLeafFaults(c: Code, fn: nat) returns (hits: seq<Hit>)
    requires fn in c.funcs
    ensures hits == LeafHits(c.image, fn, c.funcs[fn], |c.funcs[fn].lines|)
  {
    var func, k := c.funcs[fn], 0;
    hits := [];
    while k < |func.lines|
      invariant k <= |func.lines| && hits == LeafHits(c.image, fn, func, k)
    {
      var why := LeafFault(c.image, fn, func, k);
      if why.Some? {
        hits := hits + [Hit(func.lines[k].addr, why.value)];
      }
      k := k + 1;
    }
  }

  ghost predicate Leaf(c: Code, fn: nat) {
    fn in c.funcs && LeafHits(c.image, fn, c.funcs[fn], |c.funcs[fn].lines|) == []
  }

  ghost predicate LeafInsn(c: Code, fn: nat, k: nat)
    requires Listed(c) && At(c, Pos(fn, k))
  {
    LeafFault(c.image, fn, c.funcs[fn], k).None? <==>
      && !JudgeAt(c, fn, k).Fault? && !Strays(c, fn, k) && !IsCall(c.funcs[fn].lines[k].insn)
      && forall dest: nat :: EntersAt(c, fn, k, dest) ==> dest == fn
  }

  /** An instruction no leaf fault is held against is one the walk passes, not a call,
      and enters only its own function. */
  lemma LeafInsnIff(c: Code, fn: nat, k: nat)
    requires Listable(c) && At(c, Pos(fn, k))
    ensures LeafInsn(c, fn, k)
  {
    var v := JudgeAt(c, fn, k);
    if v.Goes? {
      OwnerIff(c.starts, c.funcs, v.to, fn);
      var owner := OwnerOf(c, v.to);
      if owner.Some? {
        assert EntersAt(c, fn, k, owner.value);
      }
    }
    hide TableOf, Owner, Listable;
  }

  /** A leaf is exactly a function the walk finds no fault in, which enters no other and
      calls nothing - not even itself. */
  lemma LeafIff(c: Code, fn: nat)
    requires Listable(c) && fn in c.funcs
    ensures Leaf(c, fn) <==>
      && Faultless(c, fn) && (forall dest :: Enters(c, fn, dest) ==> dest == fn)
      && (forall k :: 0 <= k < |c.funcs[fn].lines| ==> !IsCall(c.funcs[fn].lines[k].insn))
  {
    var n := |c.funcs[fn].lines|;
    assert Listed(c);
    hide LeafFault, JudgeAt, Strays, Listable, Leaf;
    forall k: nat | k < n ensures LeafInsn(c, fn, k) {
      LeafInsnIff(c, fn, k);
    }
    if Leaf(c, fn) {
      LeafThen(c, fn);
    } else {
      NotLeafThen(c, fn);
    }
  }

  lemma LeafThen(c: Code, fn: nat)
    requires Listed(c) && Leaf(c, fn) && forall k: nat :: k < |c.funcs[fn].lines| ==> LeafInsn(c, fn, k)
    ensures Faultless(c, fn) && (forall dest :: Enters(c, fn, dest) ==> dest == fn)
    ensures forall k :: 0 <= k < |c.funcs[fn].lines| ==> !IsCall(c.funcs[fn].lines[k].insn)
  {
    hide LeafFault, JudgeAt, Strays;
    forall k: nat | k < |c.funcs[fn].lines|
      ensures !JudgeAt(c, fn, k).Fault? && !Strays(c, fn, k) && !IsCall(c.funcs[fn].lines[k].insn) {
      assert LeafInsn(c, fn, k);
    }
    forall dest | Enters(c, fn, dest) ensures dest == fn {
      var k: nat :| EntersAt(c, fn, k, dest);
      assert LeafInsn(c, fn, k);
    }
  }

  lemma NotLeafThen(c: Code, fn: nat)
    requires Listed(c) && fn in c.funcs && !Leaf(c, fn)
    requires forall k: nat :: k < |c.funcs[fn].lines| ==> LeafInsn(c, fn, k)
    ensures !Faultless(c, fn) || (exists dest :: Enters(c, fn, dest) && dest != fn)
         || exists k :: 0 <= k < |c.funcs[fn].lines| && IsCall(c.funcs[fn].lines[k].insn)
  {
    hide LeafFault, JudgeAt, Strays;
    var k :| 0 <= k < |c.funcs[fn].lines| && LeafFault(c.image, fn, c.funcs[fn], k).Some?;
    assert LeafInsn(c, fn, k);
    if !JudgeAt(c, fn, k).Fault? && !Strays(c, fn, k) && !IsCall(c.funcs[fn].lines[k].insn) {
      var dest: nat :| EntersAt(c, fn, k, dest) && dest != fn;
      assert Enters(c, fn, dest);
    }
  }

  /** A leaf's run never leaves it, makes no call, and fetches nothing harmful. */
  lemma LeafSound(c: Code, fn: nat, run: seq<Cpu>, i: nat)
    requires Listable(c) && Addressed(c) && Leaf(c, fn) && AllSheltered(c, {fn})
    requires Run(c, run) && Starts(c, {fn}, run[0]) && i < |run|
    ensures run[i].pc.fn == fn && run[i].stack == [] && Harmless(c, run[i].pc) && InTable(c, run[i])
  {
    LeafIff(c, fn);
    assert Guarded(c, {fn});
    RunKept(c, {fn}, run, i);
    hide Guarded, Listable, AllSheltered, Leaf, Run, Enters;
    forall j | 0 <= j <= i ensures run[j].pc.fn == fn {
      assert Kept(c, {fn}, run, j);
    }
    LeafStack(c, fn, run, i);
    assert Kept(c, {fn}, run, i);
  }

  lemma {:induction false} LeafStack(c: Code, fn: nat, run: seq<Cpu>, i: nat)
    requires Run(c, run) && run[0].stack == [] && i < |run| && fn in c.funcs
    requires forall j :: 0 <= j <= i ==> run[j].pc.fn == fn
    requires forall k :: 0 <= k < |c.funcs[fn].lines| ==> !IsCall(c.funcs[fn].lines[k].insn)
    ensures run[i].stack == []
  {
    if i > 0 {
      LeafStack(c, fn, run, i - 1);
      assert Step(c, run[i - 1], run[i]);
      hide Arrives, JumpTableMachine.Falls;
    }
  }
}

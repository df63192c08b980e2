/**
 The machine the guard argues about, whole: a program counter, the registers and the
 return addresses of the calls under way. A jr goes where its register says. What a
 run does at a recognized dispatch is then a theorem, and the one thing in its way is
 how the run came to the jr: nothing but the window's own instructions may lead there.

 Its hypotheses: a resolved address is the one jumped to, calls return where they were
 made, and no run leaves the listed instructions - past a function's end, or in the
 middle of one, the machine has no step.
*/
module Machine {
  import opened Basics
  import opened Listing
  import opened JumpTable
  import opened JumpTableMachine
  import opened CallGraph

  /** The k-th instruction of a function. */
  datatype Pos = Pos(fn: nat, k: nat)

  datatype Cpu = Cpu(pc: Pos, regs: Regs, stack: seq<Pos>)

  /** The functions do not overlap, and each one's instructions are in it, in order. */
  ghost predicate Listable(c: Code) {
    && Listed(c) && Disjoint(c.funcs)
    && forall s :: s in c.funcs ==> InOrder(s, c.funcs[s])
  }

  ghost predicate InOrder(start: nat, func: Func) {
    && (forall k :: 0 <= k < |func.lines| ==> start <= func.lines[k].addr < func.end)
    && forall j, k :: 0 <= j < k < |func.lines| ==> func.lines[j].addr < func.lines[k].addr
  }

  /** Words lie in the address space whole. */
  ghost predicate Addressed(c: Code) {
    forall a :: a in c.image ==> a + 4 <= WORD
  }

  predicate At(c: Code, p: Pos) {
    p.fn in c.funcs && p.k < |c.funcs[p.fn].lines|
  }

  function InsnAt(c: Code, p: Pos): Insn
    requires At(c, p)
  {
    c.funcs[p.fn].lines[p.k].insn
  }

  predicate AtAddr(c: Code, p: Pos, addr: nat) {
    At(c, p) && c.funcs[p.fn].lines[p.k].addr == addr
  }

  /** Where a transfer lands: its address, what the jr's register holds, or - a transfer
      no address is known of - anywhere at all. */
  ghost predicate Arrives(c: Code, from: Pos, regs: Regs, to: Pos)
    requires At(c, from)
  {
    match ResolvedTarget(InsnAt(c, from))
    case No => false
    case To(a) => AtAddr(c, to, a)
    case Indirect => InsnAt(c, from).JumpReg? ==> AtAddr(c, to, regs(InsnAt(c, from).rs))
  }

  /** On to the next instruction, as it changes the registers. */
  ghost predicate Falling(c: Code, s: Cpu, t: Cpu)
    requires At(c, s.pc)
  {
    t.pc == Pos(s.pc.fn, s.pc.k + 1) && Falls(c.image, InsnAt(c, s.pc), s.regs, t.regs)
  }

  /** One instruction. A call and a return leave the registers as they may be. */
  ghost predicate Step(c: Code, s: Cpu, t: Cpu)
    requires At(c, s.pc)
  {
    var next := Pos(s.pc.fn, s.pc.k + 1);
    match InsnAt(c, s.pc)
    case Ret => s.stack != [] && t.pc == s.stack[|s.stack| - 1] && t.stack == s.stack[..|s.stack| - 1]
    case Mret => false
    case Call(_, _) => t.stack == s.stack + [next] && Arrives(c, s.pc, s.regs, t.pc)
    case CallReg(_, _) => t.stack == s.stack + [next] && Arrives(c, s.pc, s.regs, t.pc)
    case Jump(_) => t.stack == s.stack && Arrives(c, s.pc, s.regs, t.pc) && Same(s.regs, t.regs)
    case JumpReg(_, _) => t.stack == s.stack && Arrives(c, s.pc, s.regs, t.pc) && Same(s.regs, t.regs)
    case Branch(_) => t.stack == s.stack && (Falling(c, s, t) || (Arrives(c, s.pc, s.regs, t.pc) && Same(s.regs, t.regs)))
    case Bltu(a, b, _) =>
      t.stack == s.stack
      && (Falling(c, s, t) || (s.regs(a) < s.regs(b) && Arrives(c, s.pc, s.regs, t.pc) && Same(s.regs, t.regs)))
    case Bgeu(a, b, _) =>
      t.stack == s.stack
      && (Falling(c, s, t) || (s.regs(a) >= s.regs(b) && Arrives(c, s.pc, s.regs, t.pc) && Same(s.regs, t.regs)))
    case _ => t.stack == s.stack && Falling(c, s, t)
  }

  ghost predicate Run(c: Code, run: seq<Cpu>) {
    && run != []
    && forall i :: 0 <= i < |run| - 1 ==> At(c, run[i].pc) && Step(c, run[i], run[i + 1])
  }

  // ---- dispatches --------------------------------------------------------------------

  /** The table of the jr at `p`, when it is recognized. */
  function TableAt(c: Code, p: Pos): Option<seq<nat>>
    requires At(c, p)
  {
    if InsnAt(c, p).JumpReg? then TableOf(c.image, c.funcs[p.fn].lines, p.k, p.fn, c.funcs[p.fn].end) else None
  }

  /** A jr with no address of its own, and a table. */
  predicate Dispatches(c: Code, p: Pos) {
    At(c, p) && InsnAt(c, p).JumpReg? && InsnAt(c, p).target.None? && TableAt(c, p).Some?
  }

  function WindowAt(c: Code, p: Pos): seq<Insn>
    requires Dispatches(c, p)
  {
    Window(c.funcs[p.fn].lines, p.k)
  }

  function DispatchAt(c: Code, p: Pos): Dispatch
    requires Dispatches(c, p)
  {
    Recognize(WindowAt(c, p), InsnAt(c, p).rs).value
  }

  /** The first instruction of the dispatch at `p`. */
  function FirstAt(c: Code, p: Pos): (f: nat)
    requires Dispatches(c, p)
    ensures f < p.k
  {
    WindowStart(p.k) + DispatchAt(c, p).first
  }

  /** Is `q` behind the first instruction of the dispatch at `p`, up to its jr? */
  predicate Behind(c: Code, p: Pos, q: Pos)
    requires Dispatches(c, p)
  {
    q.fn == p.fn && FirstAt(c, p) < q.k <= p.k
  }

  /** The same of an address. */
  predicate AddrBehind(c: Code, p: Pos, addr: nat)
    requires Dispatches(c, p)
  {
    c.funcs[p.fn].lines[FirstAt(c, p)].addr < addr <= c.funcs[p.fn].lines[p.k].addr
  }

  /** No address a transfer of another function names lies behind. */
  ghost predicate NoOthersLand(c: Code, fns: set<nat>, p: Pos)
    requires Dispatches(c, p)
  {
    forall q: Pos :: q.fn in fns && q.fn != p.fn && At(c, q) && ResolvedTarget(InsnAt(c, q)).To? ==>
      !AddrBehind(c, p, ResolvedTarget(InsnAt(c, q)).addr)
  }

  /** No table's word does. */
  ghost predicate NoWordsLand(c: Code, p: Pos)
    requires Dispatches(c, p)
  {
    forall q: Pos, w :: q.fn == p.fn && Dispatches(c, q) && w in TableAt(c, q).value ==> !AddrBehind(c, p, w)
  }

  /** All that the recognizer leaves unchecked of the dispatch at `p`, in a program made
      of `fns`. */
  ghost predicate Sheltered(c: Code, fns: set<nat>, p: Pos)
    requires Dispatches(c, p)
  {
    Sound(WindowAt(c, p), DispatchAt(c, p)) && NoOthersLand(c, fns, p) && NoWordsLand(c, p)
  }

  ghost predicate AllSheltered(c: Code, fns: set<nat>) {
    forall p: Pos :: p.fn in fns && Dispatches(c, p) ==> Sheltered(c, fns, p)
  }

  /** Behind no dispatch: the first instruction of a function, for one. */
  ghost predicate Outside(c: Code, fns: set<nat>, q: Pos) {
    forall p: Pos :: p.fn in fns && Dispatches(c, p) ==> !Behind(c, p, q)
  }

  lemma FirstIsOutside(c: Code, fns: set<nat>, fn: nat)
    ensures Outside(c, fns, Pos(fn, 0))
  {
  }

  lemma BehindAddr(c: Code, p: Pos, q: Pos, addr: nat)
    requires Listable(c) && Dispatches(c, p) && AtAddr(c, q, addr)
    ensures Behind(c, p, q) ==> AddrBehind(c, p, addr)
  {
    hide TableAt, DispatchAt;
    assert InOrder(p.fn, c.funcs[p.fn]);
  }

  /** No transfer of the function itself lands behind: the recognizer looked. */
  lemma OwnTransfers(c: Code, p: Pos, q: Pos)
    requires Dispatches(c, p) && q.fn == p.fn && At(c, q) && ResolvedTarget(InsnAt(c, q)).To?
    ensures !AddrBehind(c, p, ResolvedTarget(InsnAt(c, q)).addr)
  {
    hide Recognize, Window, TableOf, Shaped, Lands, ResolvedTarget, WindowStart;
    var lines := c.funcs[p.fn].lines;
    LandsNot(c.image, lines, p.k, p.fn, c.funcs[p.fn].end);
    NamedNot(lines, lines[FirstAt(c, p)].addr, lines[p.k].addr, q.k);
  }

  lemma NamedNot(lines: seq<Line>, lo: nat, hi: nat, k: nat)
    requires !Lands(lines, lo, hi) && k < |lines| && ResolvedTarget(lines[k].insn).To?
    ensures !(lo < ResolvedTarget(lines[k].insn).addr <= hi)
  {
  }

  lemma LandsNot(image: Image, lines: seq<Line>, k: nat, start: nat, end: nat)
    requires k < |lines| && lines[k].insn.JumpReg? && TableOf(image, lines, k, start, end).Some?
    ensures Recognize(Window(lines, k), lines[k].insn.rs).Some?
    ensures var f := WindowStart(k) + Recognize(Window(lines, k), lines[k].insn.rs).value.first;
      f < |lines| && !Lands(lines, lines[f].addr, lines[k].addr)
  {
    hide Recognize, Window, ReadWords, Lands, Shaped;
  }

  /** The call a return goes back behind is no instruction of a sheltered dispatch. */
  lemma ReturnsOutside(c: Code, fns: set<nat>, q: Pos)
    requires AllSheltered(c, fns) && At(c, q) && IsCall(InsnAt(c, q))
    ensures Outside(c, fns, Pos(q.fn, q.k + 1))
  {
    var next := Pos(q.fn, q.k + 1);
    forall p: Pos | p.fn in fns && Dispatches(c, p) ensures !Behind(c, p, next) {
      assert Sheltered(c, fns, p);
      NoCallBehind(c, p, q);
    }
  }

  lemma NoCallBehind(c: Code, p: Pos, q: Pos)
    requires Dispatches(c, p) && Sound(WindowAt(c, p), DispatchAt(c, p)) && At(c, q) && IsCall(InsnAt(c, q))
    ensures !Behind(c, p, Pos(q.fn, q.k + 1))
  {
    hide TableAt, DispatchAt, Sound;
    if Behind(c, p, Pos(q.fn, q.k + 1)) {
      NoCallAt(c, p, q.k);
    }
  }

  lemma NoCallAt(c: Code, p: Pos, k: nat)
    requires Dispatches(c, p) && Sound(WindowAt(c, p), DispatchAt(c, p)) && FirstAt(c, p) <= k < p.k
    ensures !IsCall(InsnAt(c, Pos(p.fn, k)))
  {
    hide TableAt, DispatchAt, Watched;
    assert WindowAt(c, p)[k - WindowStart(p.k)] == InsnAt(c, Pos(p.fn, k));
  }

  /** The word a table's jr jumps to lies in its own function. */
  lemma TableInside(c: Code, p: Pos, w: nat)
    requires Dispatches(c, p) && w in TableAt(c, p).value
    ensures Inside(c.funcs, p.fn, w)
  {
    hide Recognize, ReadWords, Window, JumpTable.Lands;
  }

  /** A position at an address is in the function that owns the address. */
  lemma AtItsOwner(c: Code, p: Pos, addr: nat)
    requires Listable(c) && AtAddr(c, p, addr)
    ensures OwnerOf(c, addr) == Some(p.fn)
  {
    assert InOrder(p.fn, c.funcs[p.fn]);
    OwnerIff(c.starts, c.funcs, addr, p.fn);
  }

  // ---- how a run comes to a jr ---------------------------------------------------------

  /** What the jr of a dispatch jumps through is a word of its table. */
  ghost predicate InTable(c: Code, s: Cpu) {
    Dispatches(c, s.pc) ==> s.regs(InsnAt(c, s.pc).rs) in TableAt(c, s.pc).value
  }

  /** A transfer from a function of the program - out of a dispatch by its table - lands
      behind no dispatch. */
  lemma TransfersOutside(c: Code, fns: set<nat>, s: Cpu, to: Pos)
    requires Listable(c) && AllSheltered(c, fns) && s.pc.fn in fns && At(c, s.pc)
    requires !JudgeAt(c, s.pc.fn, s.pc.k).Fault? && InTable(c, s) && Arrives(c, s.pc, s.regs, to)
    ensures Outside(c, fns, to)
  {
    forall p: Pos | p.fn in fns && Dispatches(c, p) ensures !Behind(c, p, to) {
      assert Sheltered(c, fns, p);
      if ResolvedTarget(InsnAt(c, s.pc)).To? {
        var a := ResolvedTarget(InsnAt(c, s.pc)).addr;
        NamedOutside(c, fns, p, s.pc);
        BehindAddr(c, p, to, a);
      } else {
        IndirectDispatches(c, s.pc);
        var w := s.regs(InsnAt(c, s.pc).rs);
        WordOutside(c, p, s.pc, w, to);
      }
    }
  }

  lemma NamedOutside(c: Code, fns: set<nat>, p: Pos, q: Pos)
    requires Dispatches(c, p) && Sheltered(c, fns, p) && q.fn in fns && At(c, q) && ResolvedTarget(InsnAt(c, q)).To?
    ensures !AddrBehind(c, p, ResolvedTarget(InsnAt(c, q)).addr)
  {
    hide TableAt, DispatchAt, AddrBehind;
    if q.fn == p.fn {
      OwnTransfers(c, p, q);
    }
  }

  lemma IndirectDispatches(c: Code, q: Pos)
    requires At(c, q) && !JudgeAt(c, q.fn, q.k).Fault? && ResolvedTarget(InsnAt(c, q)).Indirect?
    ensures Dispatches(c, q)
  {
    hide TableOf;
  }

  lemma WordOutside(c: Code, p: Pos, q: Pos, w: nat, to: Pos)
    requires Listable(c) && Dispatches(c, p) && NoWordsLand(c, p) && Dispatches(c, q) && w in TableAt(c, q).value
    requires AtAddr(c, to, w)
    ensures !Behind(c, p, to)
  {
    TableInside(c, q, w);
    OwnerIff(c.starts, c.funcs, w, q.fn);
    AtItsOwner(c, to, w);
    BehindAddr(c, p, to, w);
    hide TableAt, DispatchAt, AddrBehind, Listable;
    if p.fn == q.fn {
      assert !AddrBehind(c, p, w);
    }
  }

  /** A run stands behind a dispatch's first instruction only by falling there. */
  ghost predicate Fell(c: Code, fns: set<nat>, run: seq<Cpu>, i: nat)
    requires i < |run|
  {
    Outside(c, fns, run[i].pc) || (i > 0 && At(c, run[i - 1].pc) && Falling(c, run[i - 1], run[i]))
  }

  ghost predicate StackOutside(c: Code, fns: set<nat>, stack: seq<Pos>) {
    forall n :: 0 <= n < |stack| ==> Outside(c, fns, stack[n])
  }

  lemma StepFalls(c: Code, fns: set<nat>, s: Cpu, t: Cpu)
    requires Listable(c) && AllSheltered(c, fns) && s.pc.fn in fns && At(c, s.pc) && Step(c, s, t)
    requires !JudgeAt(c, s.pc.fn, s.pc.k).Fault? && InTable(c, s) && StackOutside(c, fns, s.stack)
    ensures Outside(c, fns, t.pc) || Falling(c, s, t)
    ensures StackOutside(c, fns, t.stack)
  {
    hide Listable, AllSheltered, Outside, InTable, JudgeAt, Falling;
    if Arrives(c, s.pc, s.regs, t.pc) {
      TransfersOutside(c, fns, s, t.pc);
    }
    if IsCall(InsnAt(c, s.pc)) {
      ReturnsOutside(c, fns, s.pc);
    }
  }

  /** The way back from a position of a dispatch: instruction by instruction to its first. */
  lemma {:induction false} Trail(c: Code, fns: set<nat>, run: seq<Cpu>, i: nat, p: Pos, n: nat)
    requires i < |run| && forall j :: 0 <= j <= i ==> Fell(c, fns, run, j)
    requires p.fn in fns && Dispatches(c, p) && run[i].pc == p && n <= p.k - FirstAt(c, p)
    ensures n <= i && run[i - n].pc == Pos(p.fn, p.k - n)
    ensures forall m :: i - n <= m < i ==> At(c, run[m].pc) && Falling(c, run[m], run[m + 1])
    ensures forall m :: i - n <= m <= i ==> run[m].pc == Pos(p.fn, p.k - (i - m))
    decreases n
  {
    hide Falls, TableAt, DispatchAt, Dispatches, FirstAt;
    if n > 0 {
      Trail(c, fns, run, i, p, n - 1);
      assert Behind(c, p, run[i - (n - 1)].pc);
      assert Fell(c, fns, run, i - (n - 1));
    }
  }

  /** The registers at some moments of a run. */
  function Moments(run: seq<Cpu>, at: seq<nat>): (r: seq<Regs>)
    requires forall j :: 0 <= j < |at| ==> at[j] < |run|
    ensures |r| == |at| && forall j :: 0 <= j < |at| ==> r[j] == run[at[j]].regs
  {
    if at == [] then [] else [run[at[0]].regs] + Moments(run, at[1..])
  }

  /** The registers of a run over the window that ends at its jr. */
  function Passing(run: seq<Cpu>, i: nat, size: nat, from: nat): (r: seq<Regs>)
    requires i < |run| && from <= size && size - from <= i
    ensures |r| == size + 1 && forall j :: from <= j <= size ==> r[j] == run[i - (size - j)].regs
  {
    Moments(run, seq(size + 1, j requires 0 <= j <= size => if j < from then i else i - (size - j)))
  }

  lemma PassingFalls(c: Code, fns: set<nat>, run: seq<Cpu>, i: nat, p: Pos)
    requires i < |run| && forall j :: 0 <= j <= i ==> Fell(c, fns, run, j)
    requires p.fn in fns && Dispatches(c, p) && run[i].pc == p
    ensures var w, d := WindowAt(c, p), DispatchAt(c, p);
      d.first <= |w| && |w| - d.first <= i && FallsThrough(c.image, w, d.first, Passing(run, i, |w|, d.first))
  {
    var w, d := WindowAt(c, p), DispatchAt(c, p);
    assert |w| == p.k - WindowStart(p.k) && d.first < |w| && p.k - FirstAt(c, p) == |w| - d.first;
    Trail(c, fns, run, i, p, |w| - d.first);
    hide *;
    TrailFalls(c, run, i, p, w, d.first);
  }

  lemma TrailFalls(c: Code, run: seq<Cpu>, i: nat, p: Pos, w: seq<Insn>, from: nat)
    requires i < |run| && At(c, p) && w == Window(c.funcs[p.fn].lines, p.k) && from <= |w| && |w| - from <= i
    requires forall m :: i - (|w| - from) <= m < i ==> At(c, run[m].pc) && Falling(c, run[m], run[m + 1])
    requires forall m :: i - (|w| - from) <= m <= i ==> run[m].pc == Pos(p.fn, p.k - (i - m))
    ensures FallsThrough(c.image, w, from, Passing(run, i, |w|, from))
  {
    hide Falls, WindowStart;
    var r := Passing(run, i, |w|, from);
    forall j | from <= j < |w| ensures Falls(c.image, w[j], r[j], r[j + 1]) {
      var m := i - (|w| - j);
      assert At(c, run[m].pc) && Falling(c, run[m], run[m + 1]) && run[m].pc.k == WindowStart(p.k) + j;
      assert InsnAt(c, run[m].pc) == w[j];
    }
  }

  /** A run that fell to a sheltered jr jumps to a word of its table. */
  lemma JumpsToTable(c: Code, fns: set<nat>, run: seq<Cpu>, i: nat)
    requires i < |run| && forall j :: 0 <= j <= i ==> Fell(c, fns, run, j)
    requires AllSheltered(c, fns) && run[i].pc.fn in fns && Addressed(c)
    ensures InTable(c, run[i])
  {
    var p := run[i].pc;
    if Dispatches(c, p) {
      assert Sheltered(c, fns, p);
      PassingFalls(c, fns, run, i, p);
      var w, d := WindowAt(c, p), DispatchAt(c, p);
      hide Recognize, FallsThrough, Sound, Fell, Falls;
      TableSound(c.image, c.funcs[p.fn].lines, p.k, p.fn, c.funcs[p.fn].end, Passing(run, i, |w|, d.first));
    }
  }
}

/**
 What a float trampoline does to the machine: byte memory, so that slots may overlap,
 and any body at all between the two halves. The frame does not wrap around the
 address space.
*/
module TrampolineRuns {
  import opened Basics
  import opened Listing
  import opened Trampoline

  /** `swapped` is what a read of fcsr that is also a write leaves in it. */
  datatype Cpu = Cpu(x: Reg -> int, f: Reg -> nat, fcsr: nat, swapped: nat, mem: int -> nat)

  ghost predicate Valid(s: Cpu) {
    && s.fcsr < WORD && s.swapped < WORD && s.x("zero") == 0
    && (forall r :: s.f(r) < WORD) && forall a :: s.mem(a) < 256
  }

  function ByteOf(v: nat, i: nat): (b: nat)
    requires i < 4
    ensures b < 256
  {
    (match i case 0 => v case 1 => v / 0x100 case 2 => v / 0x10000 case _ => v / 0x1000000) % 256
  }

  function Word(mem: int -> nat, a: int): nat {
    mem(a) + 0x100 * mem(a + 1) + 0x10000 * mem(a + 2) + 0x1000000 * mem(a + 3)
  }

  function SetX(x: Reg -> int, rd: Reg, v: int): Reg -> int {
    if rd == "zero" then x else (r: Reg) => if r == rd then v else x(r)
  }

  function SetF(f: Reg -> nat, fd: Reg, v: nat): Reg -> nat {
    (r: Reg) => if r == fd then v else f(r)
  }

  function SetWord(mem: int -> nat, a: int, v: nat): int -> nat {
    (b: int) => if a <= b < a + 4 then ByteOf(v, b - a) else mem(b)
  }

  function Do(s: Cpu, i: Insn): Cpu {
    match i
    case Addi(rd, rs, imm, _) => s.(x := SetX(s.x, rd, s.x(rs) + imm))
    case Fsw(fs, off, base) => s.(mem := SetWord(s.mem, s.x(base) + off, s.f(fs)))
    case Flw(fd, off, base) => s.(f := SetF(s.f, fd, Word(s.mem, s.x(base) + off)))
    case FcsrRead(rd) => s.(x := SetX(s.x, rd, s.fcsr), fcsr := s.swapped)
    case FcsrWrite(rs, _) => s.(fcsr := if s.x(rs) < 0 then 0 else s.x(rs))
    case Sw(rs, off, base) => s.(mem := SetWord(s.mem, s.x(base) + off, if s.x(rs) < 0 then 0 else s.x(rs)))
    case Lw(rd, off, base) => s.(x := SetX(s.x, rd, Word(s.mem, s.x(base) + off)))
    case _ => s
  }

  function Exec(s: Cpu, insns: seq<Insn>): Cpu {
    if insns == [] then s else Do(Exec(s, insns[..|insns| - 1]), insns[|insns| - 1])
  }

  /** The sixteen integer registers the hardware itself saves at an interrupt's entry:
      those the convention lets a callee clobber. */
  const SCRATCH: set<Reg> :=
    {"ra", "t0", "t1", "t2", "t3", "t4", "t5", "t6", "a0", "a1", "a2", "a3", "a4", "a5", "a6", "a7"}

  /** What a body may leave behind: fcsr, the registers a callee may clobber, and any
      byte below the stack pointer it was called with. */
  ghost predicate Clobbers(s: Cpu, t: Cpu) {
    && t.x("sp") == s.x("sp") && (forall a :: a >= s.x("sp") ==> t.mem(a) == s.mem(a))
    && (forall r :: r !in SCRATCH ==> t.x(r) == s.x(r))
    && forall r :: r !in CALLER_SAVED_F ==> t.f(r) == s.f(r)
  }

  /** Nothing of the interrupted code's is lost: its stack, every integer register the
      hardware does not save, every f-register and fcsr. */
  ghost predicate Restored(s: Cpu, e: Cpu) {
    && (forall a :: a >= s.x("sp") ==> e.mem(a) == s.mem(a))
    && (forall r :: r !in SCRATCH ==> e.x(r) == s.x(r))
    && (forall r :: e.f(r) == s.f(r)) && e.fcsr == s.fcsr
  }

  /** What the two halves move: the float state a callee may clobber, and the stack
      pointer. */
  ghost predicate FloatBack(s: Cpu, e: Cpu) {
    && e.x("sp") == s.x("sp") && e.fcsr == s.fcsr
    && forall r :: r in CALLER_SAVED_F ==> e.f(r) == s.f(r)
  }

  // ---- the two halves without a machine ------------------------------------------------

  function Adjust(insns: seq<Insn>): int {
    if insns == [] then 0
    else
      var i := insns[|insns| - 1];
      Adjust(insns[..|insns| - 1]) + if i.Addi? then i.imm else 0
  }

  /** Which byte of what a byte of the stack holds. */
  datatype Mark = OfF(reg: Reg, i: nat) | OfFcsr(i: nat) | OfZero

  type Marks = map<int, Mark>

  function Put(m: Marks, at: int, b0: Mark, b1: Mark, b2: Mark, b3: Mark): Marks {
    m[at := b0][at + 1 := b1][at + 2 := b2][at + 3 := b3]
  }

  /** The bytes the first half has stored, by offset from the stack pointer on entry. */
  function Stored(insns: seq<Insn>): Marks {
    if insns == [] then map[]
    else
      var rest, i := insns[..|insns| - 1], insns[|insns| - 1];
      var m, d := Stored(rest), Adjust(rest);
      match i
      case Fsw(fs, off, _) => Put(m, d + off, OfF(fs, 0), OfF(fs, 1), OfF(fs, 2), OfF(fs, 3))
      case Sw(rs, off, _) =>
        if rs == "zero" then Put(m, d + off, OfZero, OfZero, OfZero, OfZero)
        else Put(m, d + off, OfFcsr(0), OfFcsr(1), OfFcsr(2), OfFcsr(3))
      case _ => m
  }

  /** Where the second half loads each f-register from, by the same offset; it starts
      with the stack pointer `d` from where it was on entry. */
  function Loaded(d: int, insns: seq<Insn>): map<Reg, int> {
    if insns == [] then map[]
    else
      var rest, i := insns[..|insns| - 1], insns[|insns| - 1];
      if i.Flw? then Loaded(d, rest)[i.fd := d + Adjust(rest) + i.off] else Loaded(d, rest)
  }

  /** Where it loads what it writes to fcsr from; nothing when it writes a zero. */
  function FcsrFrom(d: int, insns: seq<Insn>): Option<int> {
    if insns == [] then None
    else
      var rest, i := insns[..|insns| - 1], insns[|insns| - 1];
      if i.Lw? && i.rd != "zero" then Some(d + Adjust(rest) + i.off) else FcsrFrom(d, rest)
  }

  predicate Has(m: Marks, at: int, b: Mark) {
    at in m && m[at] == b
  }

  /** The four bytes at an offset are still those stored, and above the body's reach. */
  predicate HoldsF(m: Marks, floor: int, at: int, r: Reg) {
    && at >= floor && Has(m, at, OfF(r, 0)) && Has(m, at + 1, OfF(r, 1))
    && Has(m, at + 2, OfF(r, 2)) && Has(m, at + 3, OfF(r, 3))
  }

  predicate HoldsFcsr(m: Marks, floor: int, at: int) {
    && at >= floor && Has(m, at, OfFcsr(0)) && Has(m, at + 1, OfFcsr(1))
    && Has(m, at + 2, OfFcsr(2)) && Has(m, at + 3, OfFcsr(3))
  }

  /** The condition: where each register is loaded from, its four bytes lie. */
  predicate Kept(before: seq<Insn>, after: seq<Insn>) {
    var m, d := Stored(before), Adjust(before);
    && (forall r :: r in CALLER_SAVED_F ==> r in Loaded(d, after) && HoldsF(m, d, Loaded(d, after)[r], r))
    && FcsrFrom(d, after).Some? && HoldsFcsr(m, d, FcsrFrom(d, after).value)
  }

  /** fcsr does not go through the stack pointer. */
  predicate NotThroughSp(insns: seq<Insn>) {
    forall i :: i in insns ==> i != FcsrRead("sp") && !(i.Lw? && i.rd == "sp")
  }

  /** A mark's byte in the state on entry. */
  function ByteIn(s: Cpu, m: Mark): nat {
    match m
    case OfF(r, i) => if i < 4 then ByteOf(s.f(r), i) else 0
    case OfFcsr(i) => if i < 4 then ByteOf(s.fcsr, i) else 0
    case OfZero => 0
  }

  function Expected(s: Cpu, m: Marks, a: int): nat {
    if a - s.x("sp") in m then ByteIn(s, m[a - s.x("sp")]) else s.mem(a)
  }

  // ---- before the call -----------------------------------------------------------------

  /** Memory as the marks say. */
  ghost predicate Marked(s: Cpu, m: Marks, mem: int -> nat) {
    forall a :: mem(a) == Expected(s, m, a)
  }

  lemma StoresF(s: Cpu, m: Marks, mem: int -> nat, at: int, r: Reg)
    requires Marked(s, m, mem)
    ensures Marked(s, Put(m, at, OfF(r, 0), OfF(r, 1), OfF(r, 2), OfF(r, 3)), SetWord(mem, s.x("sp") + at, s.f(r)))
  {
    hide ByteOf;
  }

  lemma StoresFcsr(s: Cpu, m: Marks, mem: int -> nat, at: int)
    requires Marked(s, m, mem)
    ensures Marked(s, Put(m, at, OfFcsr(0), OfFcsr(1), OfFcsr(2), OfFcsr(3)), SetWord(mem, s.x("sp") + at, s.fcsr))
  {
    hide ByteOf;
  }

  lemma StoresZero(s: Cpu, m: Marks, mem: int -> nat, at: int)
    requires Marked(s, m, mem)
    ensures Marked(s, Put(m, at, OfZero, OfZero, OfZero, OfZero), SetWord(mem, s.x("sp") + at, 0))
  {
    assert forall i: nat :: i < 4 ==> ByteOf(0, i) == 0;
    hide ByteOf;
  }

  /** Where a first half stands. */
  ghost predicate Saving(s: Cpu, e: Cpu, insns: seq<Insn>, m: Met) {
    && e.x("sp") == s.x("sp") + Adjust(insns) && m.adjust == Adjust(insns)
    && e.f == s.f && e.x("zero") == 0
    && Marked(s, Stored(insns), e.mem)
    && (m.saved.None? ==>
          match m.waits
          case None => e.fcsr == s.fcsr
          case Some(rd) => rd != "sp" && (rd != "zero" ==> e.x(rd) == s.fcsr))
  }

  lemma SavingStep(s: Cpu, e: Cpu, insns: seq<Insn>, m: Met, i: Insn)
    requires Saving(s, e, insns, m) && Before(m, i).Some? && i != FcsrRead("sp")
    ensures Saving(s, Do(e, i), insns + [i], Before(m, i).value)
  {
    var longer := insns + [i];
    assert longer[..|longer| - 1] == insns && longer[|longer| - 1] == i;
    var at := Adjust(insns) + if i.Fsw? || i.Sw? then i.off else 0;
    match i
    case Fsw(r, _, _) =>
      StoresF(s, Stored(insns), e.mem, at, r);
    case Sw(rs, _, _) =>
      if rs == "zero" {
        StoresZero(s, Stored(insns), e.mem, at);
      } else {
        StoresFcsr(s, Stored(insns), e.mem, at);
      }
    case _ =>
  }

  lemma {:induction false} SavingHolds(s: Cpu, insns: seq<Insn>)
    requires Valid(s) && Befores(insns).Some? && NotThroughSp(insns)
    ensures Saving(s, Exec(s, insns), insns, Befores(insns).value)
    decreases |insns|
  {
    if insns != [] {
      var rest, i := insns[..|insns| - 1], insns[|insns| - 1];
      SavingHolds(s, rest);
      SavingStep(s, Exec(s, rest), rest, Befores(rest).value, i);
      assert rest + [i] == insns;
    }
  }

  // ---- after it --------------------------------------------------------------------------

  /** Each f-register holds the word it was last loaded from. */
  ghost predicate LoadedAs(t: Cpu, f: Reg -> nat, entry: int, l: map<Reg, int>) {
    forall r :: f(r) == if r in l then Word(t.mem, entry + l[r]) else t.f(r)
  }

  function FcsrValue(t: Cpu, entry: int, from: Option<int>): nat {
    match from case None => 0 case Some(at) => Word(t.mem, entry + at)
  }

  /** Where fcsr stands in the second half. */
  ghost predicate FcsrAs(t: Cpu, e: Cpu, entry: int, from: Option<int>, m: Met) {
    && (match m.waits
        case None => m.restored.None? ==> from.None?
        case Some(rd) => && rd != "sp" && m.restored.None? && e.x(rd) == FcsrValue(t, entry, from)
                         && (from.None? <==> rd == "zero"))
    && (m.restored.Some? ==> e.fcsr == FcsrValue(t, entry, from))
  }

  /** Where a second half stands, `entry` being the stack pointer on entry. */
  ghost predicate Restoring(t: Cpu, e: Cpu, entry: int, insns: seq<Insn>, m: Met) {
    var d := t.x("sp") - entry;
    && e.mem == t.mem && e.x("sp") == t.x("sp") + Adjust(insns) && e.x("zero") == 0
    && LoadedAs(t, e.f, entry, Loaded(d, insns)) && m.loaded.Keys == Loaded(d, insns).Keys
    && FcsrAs(t, e, entry, FcsrFrom(d, insns), m)
  }

  lemma RestoringStep(t: Cpu, e: Cpu, entry: int, insns: seq<Insn>, m: Met, i: Insn)
    requires Restoring(t, e, entry, insns, m) && After(m, i).Some? && !(i.Lw? && i.rd == "sp")
    ensures Restoring(t, Do(e, i), entry, insns + [i], After(m, i).value)
  {
    hide *;
    var longer, d := insns + [i], t.x("sp") - entry;
    RestoringParts(t, e, entry, insns, m);
    Longer(d, insns, i);
    Moves(e, m, i);
    var at := d + Adjust(insns) + if i.Flw? || i.Lw? then i.off else 0;
    FcsrStep(t, e, entry, FcsrFrom(d, insns), m, i, at);
    if i.Flw? {
      LoadsF(t, e.f, entry, Loaded(d, insns), i.fd, at);
      assert Word(e.mem, e.x("sp") + i.off) == Word(t.mem, entry + at);
    }
    RestoringWhole(t, Do(e, i), entry, longer, After(m, i).value);
  }

  lemma RestoringParts(t: Cpu, e: Cpu, entry: int, insns: seq<Insn>, m: Met)
    requires Restoring(t, e, entry, insns, m)
    ensures var d := t.x("sp") - entry;
      && e.mem == t.mem && e.x("sp") == t.x("sp") + Adjust(insns) && e.x("zero") == 0
      && LoadedAs(t, e.f, entry, Loaded(d, insns)) && m.loaded.Keys == Loaded(d, insns).Keys
      && FcsrAs(t, e, entry, FcsrFrom(d, insns), m)
  {
    hide Adjust, Loaded, FcsrFrom, LoadedAs, FcsrAs;
  }

  lemma RestoringWhole(t: Cpu, e: Cpu, entry: int, insns: seq<Insn>, m: Met)
    requires var d := t.x("sp") - entry;
      && e.mem == t.mem && e.x("sp") == t.x("sp") + Adjust(insns) && e.x("zero") == 0
      && LoadedAs(t, e.f, entry, Loaded(d, insns)) && m.loaded.Keys == Loaded(d, insns).Keys
      && FcsrAs(t, e, entry, FcsrFrom(d, insns), m)
    ensures Restoring(t, e, entry, insns, m)
  {
    hide Adjust, Loaded, FcsrFrom, LoadedAs, FcsrAs;
  }

  lemma Longer(d: int, insns: seq<Insn>, i: Insn)
    ensures var at, longer := d + Adjust(insns), insns + [i];
      && Adjust(longer) == Adjust(insns) + (if i.Addi? then i.imm else 0)
      && Loaded(d, longer) == (if i.Flw? then Loaded(d, insns)[i.fd := at + i.off] else Loaded(d, insns))
      && FcsrFrom(d, longer) == (if i.Lw? && i.rd != "zero" then Some(at + i.off) else FcsrFrom(d, insns))
  {
    var longer := insns + [i];
    assert longer[..|longer| - 1] == insns && longer[|longer| - 1] == i;
  }

  lemma Moves(e: Cpu, m: Met, i: Insn)
    requires After(m, i).Some? && !(i.Lw? && i.rd == "sp")
    ensures var n, a := Do(e, i), After(m, i).value;
      && n.mem == e.mem && n.x("sp") == e.x("sp") + (if i.Addi? then i.imm else 0)
      && n.f == (if i.Flw? then SetF(e.f, i.fd, Word(e.mem, e.x("sp") + i.off)) else e.f)
      && a.loaded.Keys == (if i.Flw? then m.loaded.Keys + {i.fd} else m.loaded.Keys)
  {
    hide Word, SetF;
  }

  lemma FcsrStep(t: Cpu, e: Cpu, entry: int, from: Option<int>, m: Met, i: Insn, at: int)
    requires FcsrAs(t, e, entry, from, m) && After(m, i).Some? && !(i.Lw? && i.rd == "sp") && e.x("zero") == 0
    requires i.Lw? ==> e.mem == t.mem && e.x("sp") + i.off == entry + at
    ensures FcsrAs(t, Do(e, i), entry, if i.Lw? && i.rd != "zero" then Some(at) else from, After(m, i).value)
    ensures Do(e, i).x("zero") == 0
  {
    hide Word;
    if i.Lw? {
      assert Do(e, i) == e.(x := SetX(e.x, i.rd, Word(t.mem, entry + at)));
    } else if i.FcsrWrite? {
      assert Do(e, i) == e.(fcsr := e.x(i.rs));
    }
  }

  lemma LoadsF(t: Cpu, f: Reg -> nat, entry: int, l: map<Reg, int>, fd: Reg, at: int)
    requires LoadedAs(t, f, entry, l)
    ensures LoadedAs(t, SetF(f, fd, Word(t.mem, entry + at)), entry, l[fd := at])
  {
    hide Word;
  }

  lemma {:induction false} RestoringHolds(t: Cpu, entry: int, m: Met, insns: seq<Insn>)
    requires Afters(m, insns).Some? && NotThroughSp(insns) && t.x("zero") == 0
    requires m.waits.None? && m.restored.None? && m.loaded == map[]
    ensures Restoring(t, Exec(t, insns), entry, insns, Afters(m, insns).value)
    decreases |insns|
  {
    if insns != [] {
      var rest, i := insns[..|insns| - 1], insns[|insns| - 1];
      RestoringHolds(t, entry, m, rest);
      RestoringStep(t, Exec(t, rest), entry, rest, Afters(m, rest).value, i);
      assert rest + [i] == insns;
    }
  }

  // ---- the round trip ---------------------------------------------------------------------

  lemma Recomposes(mem: int -> nat, a: int, v: nat)
    requires v < WORD && mem(a) == ByteOf(v, 0) && mem(a + 1) == ByteOf(v, 1)
    requires mem(a + 2) == ByteOf(v, 2) && mem(a + 3) == ByteOf(v, 3)
    ensures Word(mem, a) == v
  {
    Digit(v);
    Digit(v / 0x100);
    Digit(v / 0x10000);
    assert v / 0x100 / 0x100 == v / 0x10000 && v / 0x10000 / 0x100 == v / 0x1000000;
  }

  lemma Digit(v: nat)
    ensures v == v % 0x100 + 0x100 * (v / 0x100)
  {
  }

  lemma Shift(b: nat, rest: nat)
    requires b < 0x100
    ensures (b + 0x100 * rest) / 0x100 == rest && (b + 0x100 * rest) % 0x100 == b
  {
  }

  lemma Decomposes(mem: int -> nat, a: int, i: nat)
    requires i < 4 && forall b :: mem(b) < 256
    ensures ByteOf(Word(mem, a), i) == mem(a + i)
  {
    var b0, b1, b2, b3 := mem(a), mem(a + 1), mem(a + 2), mem(a + 3);
    var v := Word(mem, a);
    Shift(b0, b1 + 0x100 * (b2 + 0x100 * b3));
    Shift(b1, b2 + 0x100 * b3);
    Shift(b2, b3);
    assert v == b0 + 0x100 * (b1 + 0x100 * (b2 + 0x100 * b3));
    assert v / 0x10000 == v / 0x100 / 0x100 && v / 0x1000000 == v / 0x10000 / 0x100;
  }

  lemma {:induction false} BeforesAdjust(insns: seq<Insn>)
    requires Befores(insns).Some?
    ensures var m := Befores(insns).value;
      m.adjust == Adjust(insns) && m.loaded == map[] && m.restored.None?
    decreases |insns|
  {
    if insns != [] {
      BeforesAdjust(insns[..|insns| - 1]);
    }
  }

  lemma {:induction false} AftersAdjust(m: Met, insns: seq<Insn>)
    requires Afters(m, insns).Some?
    ensures var n := Afters(m, insns).value;
      n.adjust == m.adjust + Adjust(insns) && n.stored == m.stored && n.saved == m.saved
    decreases |insns|
  {
    if insns != [] {
      AftersAdjust(m, insns[..|insns| - 1]);
    }
  }

  /** What makes two halves a float trampoline. */
  ghost predicate Accepted(before: seq<Insn>, after: seq<Insn>, m: Met, n: Met) {
    && Befores(before) == Some(m) && m.waits.None? && Afters(m, after) == Some(n) && n.waits.None?
    && m.saved.Some? && m.loaded == map[] && m.restored.None? && n.restored == m.saved
    && n.loaded == m.stored && n.loaded.Keys == CALLER_SAVED_F
    && Adjust(before) + Adjust(after) == 0
  }

  lemma FloatAccepted(before: seq<Insn>, after: seq<Insn>, body: nat) returns (m: Met, n: Met)
    requires Halves(before, after, body) == Float(body)
    ensures Accepted(before, after, m, n)
  {
    m := Befores(before).value;
    n := Afters(m, after).value;
    BeforesAdjust(before);
    AftersAdjust(m, after);
    hide Befores, Afters, Adjust;
  }

  /** A word is what its marks say, when the body left it alone. */
  lemma KeepsF(s: Cpu, mem: int -> nat, m: Marks, floor: int, left: int -> nat, at: int, r: Reg)
    requires Marked(s, m, mem) && HoldsF(m, floor, at, r) && s.f(r) < WORD
    requires forall a :: a >= s.x("sp") + floor ==> left(a) == mem(a)
    ensures Word(left, s.x("sp") + at) == s.f(r)
  {
    var a := s.x("sp") + at;
    assert mem(a) == Expected(s, m, a) && mem(a + 1) == Expected(s, m, a + 1);
    assert mem(a + 2) == Expected(s, m, a + 2) && mem(a + 3) == Expected(s, m, a + 3);
    hide Word, ByteOf, HoldsF, Marked;
    Recomposes(left, a, s.f(r));
  }

  lemma KeepsFcsr(s: Cpu, mem: int -> nat, m: Marks, floor: int, left: int -> nat, at: int)
    requires Marked(s, m, mem) && HoldsFcsr(m, floor, at) && s.fcsr < WORD
    requires forall a :: a >= s.x("sp") + floor ==> left(a) == mem(a)
    ensures Word(left, s.x("sp") + at) == s.fcsr
  {
    var a := s.x("sp") + at;
    assert mem(a) == Expected(s, m, a) && mem(a + 1) == Expected(s, m, a + 1);
    assert mem(a + 2) == Expected(s, m, a + 2) && mem(a + 3) == Expected(s, m, a + 3);
    hide Word, ByteOf, HoldsFcsr, Marked;
    Recomposes(left, a, s.fcsr);
  }

  /** A run of the trampoline: the first half, a body, the second. */
  ghost predicate Runs(before: seq<Insn>, s: Cpu, t: Cpu) {
    Valid(s) && Valid(t) && Clobbers(Exec(s, before), t)
  }

  /** Whatever the interrupted state and whatever the body does, nothing of it is lost. */
  ghost predicate AlwaysRestores(before: seq<Insn>, after: seq<Insn>) {
    forall s: Cpu, t: Cpu :: Runs(before, s, t) ==> Restored(s, Exec(t, after))
  }

  /** The float state and the stack pointer, at least, come back. */
  ghost predicate AlwaysFloat(before: seq<Insn>, after: seq<Insn>) {
    forall s: Cpu, t: Cpu :: Runs(before, s, t) ==> FloatBack(s, Exec(t, after))
  }

  /** Everything known after the first half, and after the second. */
  lemma Through(s: Cpu, t: Cpu, before: seq<Insn>, after: seq<Insn>, m: Met, n: Met)
    requires Accepted(before, after, m, n) && NotThroughSp(before) && NotThroughSp(after)
    requires Runs(before, s, t)
    ensures Saving(s, Exec(s, before), before, m)
    ensures Restoring(t, Exec(t, after), s.x("sp"), after, n)
    ensures t.x("sp") == s.x("sp") + Adjust(before)
  {
    hide Befores, Afters, Exec, Adjust, Marked, Stored, LoadedAs, FcsrAs;
    SavingHolds(s, before);
    RestoringHolds(t, s.x("sp"), m, after);
  }

  lemma LeftAlone(s: Cpu, t: Cpu, before: seq<Insn>, m: Met)
    requires Saving(s, Exec(s, before), before, m) && Clobbers(Exec(s, before), t)
    ensures Marked(s, Stored(before), Exec(s, before).mem)
    ensures forall a :: a >= s.x("sp") + Adjust(before) ==> t.mem(a) == Exec(s, before).mem(a)
  {
    hide Marked, Stored, Exec, Adjust;
  }

  lemma KeptParts(before: seq<Insn>, after: seq<Insn>, r: Reg)
    requires Kept(before, after)
    ensures var m, d := Stored(before), Adjust(before);
      && (r in CALLER_SAVED_F ==> r in Loaded(d, after) && HoldsF(m, d, Loaded(d, after)[r], r))
      && FcsrFrom(d, after).Some? && HoldsFcsr(m, d, FcsrFrom(d, after).value)
  {
    hide HoldsF, HoldsFcsr, Stored, Loaded, FcsrFrom, Adjust;
  }

  lemma ValidF(s: Cpu, r: Reg)
    requires Valid(s)
    ensures s.f(r) < WORD && s.fcsr < WORD && s.x("zero") == 0
  {
  }

  lemma EndsF(t: Cpu, e: Cpu, entry: int, after: seq<Insn>, n: Met, r: Reg)
    requires Restoring(t, e, entry, after, n)
    ensures var l := Loaded(t.x("sp") - entry, after);
      e.f(r) == if r in l then Word(t.mem, entry + l[r]) else t.f(r)
  {
    hide Word, Loaded, FcsrAs, Adjust;
  }

  lemma EndsFcsr(t: Cpu, e: Cpu, entry: int, after: seq<Insn>, n: Met)
    requires Restoring(t, e, entry, after, n)
    ensures e.x("sp") == t.x("sp") + Adjust(after)
    ensures n.restored.Some? ==> e.fcsr == FcsrValue(t, entry, FcsrFrom(t.x("sp") - entry, after))
  {
    hide Word, Loaded, LoadedAs, Adjust, FcsrFrom;
  }

  /** The condition suffices. */
  lemma RoundTrip(before: seq<Insn>, after: seq<Insn>, m: Met, n: Met, s: Cpu, t: Cpu)
    requires Accepted(before, after, m, n) && NotThroughSp(before) && NotThroughSp(after)
    requires Kept(before, after) && Runs(before, s, t)
    ensures FloatBack(s, Exec(t, after))
  {
    hide *;
    var mid, e, d, entry := Exec(s, before), Exec(t, after), Adjust(before), s.x("sp");
    var marks := Stored(before);
    Through(s, t, before, after, m, n);
    RunsParts(before, s, t);
    LeftAlone(s, t, before, m);
    forall r | r in CALLER_SAVED_F ensures e.f(r) == s.f(r) {
      ValidF(s, r);
      KeptParts(before, after, r);
      EndsF(t, e, entry, after, n, r);
      KeepsF(s, mid.mem, marks, d, t.mem, Loaded(d, after)[r], r);
    }
    ValidF(s, "");
    KeptParts(before, after, "");
    EndsFcsr(t, e, entry, after, n);
    AcceptedParts(before, after, m, n);
    KeepsFcsr(s, mid.mem, marks, d, t.mem, FcsrFrom(d, after).value);
    FcsrValueAt(t, entry, FcsrFrom(d, after));
    IsFloatBack(s, e);
  }

  lemma RunsParts(before: seq<Insn>, s: Cpu, t: Cpu)
    requires Runs(before, s, t)
    ensures Valid(s) && Valid(t) && Clobbers(Exec(s, before), t)
  {
    hide Exec, Valid, Clobbers;
  }

  lemma AcceptedParts(before: seq<Insn>, after: seq<Insn>, m: Met, n: Met)
    requires Accepted(before, after, m, n)
    ensures n.restored.Some? && Adjust(before) + Adjust(after) == 0
  {
    hide Befores, Afters, Adjust;
  }

  lemma FcsrValueAt(t: Cpu, entry: int, from: Option<int>)
    ensures FcsrValue(t, entry, from) == if from.Some? then Word(t.mem, entry + from.value) else 0
  {
  }

  lemma IsFloatBack(s: Cpu, e: Cpu)
    requires e.x("sp") == s.x("sp") && e.fcsr == s.fcsr
    requires forall r :: r in CALLER_SAVED_F ==> e.f(r) == s.f(r)
    ensures FloatBack(s, e)
  {
  }

  // ---- and is necessary ---------------------------------------------------------------------

  function Power(i: nat): nat { match i case 0 => 1 case 1 => 0x100 case 2 => 0x10000 case _ => 0x1000000 }

  lemma ByteOfPower(i: nat, j: nat)
    requires i < 4 && j < 4
    ensures ByteOf(Power(i), j) == (if i == j then 1 else 0) && ByteOf(0, j) == 0 && Power(i) < WORD
  {
  }

  /** All zeros, but for one byte of one f-register, or of fcsr. */
  function Only(r: Option<Reg>, i: nat): Cpu {
    Cpu((x: Reg) => 0, (f: Reg) => if r == Some(f) then Power(i) else 0, if r.None? then Power(i) else 0, 0,
        (a: int) => 0)
  }

  function OnlyMark(r: Option<Reg>, i: nat): Mark {
    match r case None => OfFcsr(i) case Some(f) => OfF(f, i)
  }

  lemma OnlyItsByte(r: Option<Reg>, i: nat, m: Mark)
    requires i < 4 && m != OnlyMark(r, i)
    ensures ByteIn(Only(r, i), m) == 0
  {
    if m.OfF? && m.i < 4 {
      ByteOfPower(i, m.i);
    } else if m.OfFcsr? && m.i < 4 {
      ByteOfPower(i, m.i);
    }
    hide ByteOf, Power;
  }

  function ZeroBelow(mem: int -> nat, sp: int): int -> nat {
    (a: int) => if a < sp then 0 else mem(a)
  }

  /** A body that zeroes fcsr, and the bytes below its stack pointer. */
  function Zeroed(mid: Cpu): Cpu {
    mid.(mem := ZeroBelow(mid.mem, mid.x("sp")), fcsr := 0, swapped := 0)
  }

  /** The byte a word's i-th byte was stored from is gone. */
  lemma ByteGone(mem: int -> nat, marks: Marks, d: int, at: int, r: Option<Reg>, i: nat, left: int -> nat)
    requires i < 4 && Marked(Only(r, i), marks, mem) && (at + i < d || !Has(marks, at + i, OnlyMark(r, i)))
    requires left(at + i) == if at + i < d then 0 else mem(at + i)
    ensures left(at + i) == 0
  {
    if at + i >= d {
      assert mem(at + i) == Expected(Only(r, i), marks, at + i);
      if at + i in marks {
        OnlyItsByte(r, i, marks[at + i]);
      }
    }
  }

  lemma WordGone(left: int -> nat, at: int, i: nat)
    requires i < 4 && (forall a :: left(a) < 256) && left(at + i) == 0
    ensures Word(left, at) != Power(i)
  {
    Decomposes(left, at, i);
    ByteOfPower(i, i);
    hide Word, ByteOf, Power;
  }

  /** The first byte that is not where it is loaded from. */
  function MissingF(m: Marks, d: int, at: int, r: Reg): (i: nat)
    requires !HoldsF(m, d, at, r)
    ensures i < 4 && (at + i < d || !Has(m, at + i, OfF(r, i)))
  {
    if at < d || !Has(m, at, OfF(r, 0)) then 0 else if !Has(m, at + 1, OfF(r, 1)) then 1
    else if !Has(m, at + 2, OfF(r, 2)) then 2 else 3
  }

  function MissingFcsr(m: Marks, d: int, at: int): (i: nat)
    requires !HoldsFcsr(m, d, at)
    ensures i < 4 && (at + i < d || !Has(m, at + i, OfFcsr(i)))
  {
    if at < d || !Has(m, at, OfFcsr(0)) then 0 else if !Has(m, at + 1, OfFcsr(1)) then 1
    else if !Has(m, at + 2, OfFcsr(2)) then 2 else 3
  }

  lemma OnlyRuns(before: seq<Insn>, r: Option<Reg>, i: nat, m: Met)
    requires i < 4 && Saving(Only(r, i), Exec(Only(r, i), before), before, m)
    ensures Runs(before, Only(r, i), Zeroed(Exec(Only(r, i), before)))
  {
    hide Exec, Adjust, Stored, Befores;
    var s, mid := Only(r, i), Exec(Only(r, i), before);
    ByteOfPower(i, i);
    hide Power, ByteOf;
    assert forall a :: mid.mem(a) < 256 by {
      forall a ensures mid.mem(a) < 256 {
        assert mid.mem(a) == Expected(s, Stored(before), a);
      }
    }
  }

  /** A register one of whose bytes is not where it is loaded from does not come back. */
  lemma Unrestored(before: seq<Insn>, after: seq<Insn>, m: Met, n: Met, r: Option<Reg>, at: int, i: nat)
    requires Accepted(before, after, m, n) && NotThroughSp(before) && NotThroughSp(after) && i < 4
    requires r.Some? ==> r.value in CALLER_SAVED_F && r.value in Loaded(Adjust(before), after)
                         && at == Loaded(Adjust(before), after)[r.value]
    requires r.None? ==> FcsrFrom(Adjust(before), after) == Some(at)
    requires at + i < Adjust(before) || !Has(Stored(before), at + i, OnlyMark(r, i))
    ensures var s := Only(r, i); var t := Zeroed(Exec(s, before));
      Runs(before, s, t) && !FloatBack(s, Exec(t, after))
  {
    hide *;
    var s, d, marks := Only(r, i), Adjust(before), Stored(before);
    var mid := Exec(s, before);
    var t := Zeroed(mid);
    var e := Exec(t, after);
    OnlyIs(r, i);
    SavingHolds2(before, after, m, n, s);
    OnlyRuns(before, r, i, m);
    Through(s, t, before, after, m, n);
    LeftAlone2(s, before, m);
    RunsParts(before, s, t);
    ValidBytes(t);
    ByteGone(mid.mem, marks, d, at, r, i, t.mem);
    WordGone(t.mem, at, i);
    if r.Some? {
      EndsF(t, e, 0, after, n, r.value);
      NotF(s, e, r.value);
    } else {
      EndsFcsr(t, e, 0, after, n);
      FcsrValueAt(t, 0, FcsrFrom(d, after));
      AcceptedParts(before, after, m, n);
      NotFcsr(s, e);
    }
  }

  lemma OnlyIs(r: Option<Reg>, i: nat)
    requires i < 4
    ensures var s := Only(r, i);
      && Valid(s) && s.x("sp") == 0
      && (if r.Some? then s.f(r.value) == Power(i) else s.fcsr == Power(i))
  {
    ByteOfPower(i, i);
    hide Power, ByteOf;
  }

  lemma SavingHolds2(before: seq<Insn>, after: seq<Insn>, m: Met, n: Met, s: Cpu)
    requires Accepted(before, after, m, n) && NotThroughSp(before) && Valid(s)
    ensures Saving(s, Exec(s, before), before, m)
  {
    hide Afters, Exec, Saving, Befores, Adjust, Valid;
    SavingHolds(s, before);
  }

  lemma LeftAlone2(s: Cpu, before: seq<Insn>, m: Met)
    requires Saving(s, Exec(s, before), before, m) && s.x("sp") == 0
    ensures var mid := Exec(s, before);
      && Marked(s, Stored(before), mid.mem)
      && forall a :: Zeroed(mid).mem(a) == if a < Adjust(before) then 0 else mid.mem(a)
  {
    hide Marked, Stored, Exec, Adjust;
  }

  lemma ValidBytes(t: Cpu)
    requires Valid(t)
    ensures forall a :: t.mem(a) < 256
  {
  }

  lemma NotF(s: Cpu, e: Cpu, r: Reg)
    requires r in CALLER_SAVED_F && e.f(r) != s.f(r)
    ensures !FloatBack(s, e)
  {
  }

  lemma NotFcsr(s: Cpu, e: Cpu)
    requires e.fcsr != s.fcsr
    ensures !FloatBack(s, e)
  {
  }

  /** fcsr restored from a zero. */
  lemma FcsrZeroed(before: seq<Insn>, after: seq<Insn>, m: Met, n: Met)
    requires Accepted(before, after, m, n) && NotThroughSp(before) && NotThroughSp(after)
    requires FcsrFrom(Adjust(before), after).None?
    ensures var s := Only(None, 0); var t := Zeroed(Exec(s, before));
      Runs(before, s, t) && !FloatBack(s, Exec(t, after))
  {
    hide *;
    var s := Only(None, 0);
    var t := Zeroed(Exec(s, before));
    OnlyIs(None, 0);
    SavingHolds2(before, after, m, n, s);
    OnlyRuns(before, None, 0, m);
    Through(s, t, before, after, m, n);
    EndsFcsr(t, Exec(t, after), 0, after, n);
    FcsrValueAt(t, 0, None);
    AcceptedParts(before, after, m, n);
    ByteOfPower(0, 0);
    NotFcsr(s, Exec(t, after));
  }

  lemma LoadedTwenty(before: seq<Insn>, after: seq<Insn>, m: Met, n: Met)
    requires Accepted(before, after, m, n) && NotThroughSp(before) && NotThroughSp(after)
    ensures Loaded(Adjust(before), after).Keys == CALLER_SAVED_F
  {
    hide *;
    var s := Only(None, 0);
    var t := Zeroed(Exec(s, before));
    OnlyIs(None, 0);
    SavingHolds2(before, after, m, n, s);
    OnlyRuns(before, None, 0, m);
    Through(s, t, before, after, m, n);
    RestoringParts(t, Exec(t, after), 0, after, n);
    AcceptedKeys(before, after, m, n);
  }

  lemma AcceptedKeys(before: seq<Insn>, after: seq<Insn>, m: Met, n: Met)
    requires Accepted(before, after, m, n)
    ensures n.loaded.Keys == CALLER_SAVED_F
  {
    hide Befores, Afters, Adjust;
  }

  /** The condition is necessary. */
  lemma NotKept(before: seq<Insn>, after: seq<Insn>, m: Met, n: Met) returns (s: Cpu, t: Cpu)
    requires Accepted(before, after, m, n) && NotThroughSp(before) && NotThroughSp(after)
    requires !Kept(before, after)
    ensures Runs(before, s, t) && !FloatBack(s, Exec(t, after))
  {
    hide *;
    var marks, d := Stored(before), Adjust(before);
    LoadedTwenty(before, after, m, n);
    var r := WhyNotKept(before, after);
    if r.Some? {
      var at := Loaded(d, after)[r.value];
      var i := MissingF(marks, d, at, r.value);
      MarkOf(r, i);
      Unrestored(before, after, m, n, r, at, i);
      s := Only(r, i);
    } else if FcsrFrom(d, after).None? {
      FcsrZeroed(before, after, m, n);
      s := Only(None, 0);
    } else {
      var at := FcsrFrom(d, after).value;
      var i := MissingFcsr(marks, d, at);
      MarkOf(None, i);
      Unrestored(before, after, m, n, None, at, i);
      s := Only(None, i);
    }
    t := Zeroed(Exec(s, before));
  }

  lemma MarkOf(r: Option<Reg>, i: nat)
    ensures OnlyMark(r, i) == if r.Some? then OfF(r.value, i) else OfFcsr(i)
  {
  }

  lemma WhyNotKept(before: seq<Insn>, after: seq<Insn>) returns (r: Option<Reg>)
    requires !Kept(before, after) && Loaded(Adjust(before), after).Keys == CALLER_SAVED_F
    ensures var m, d := Stored(before), Adjust(before);
      if r.Some? then r.value in CALLER_SAVED_F && !HoldsF(m, d, Loaded(d, after)[r.value], r.value)
      else FcsrFrom(d, after).Some? ==> !HoldsFcsr(m, d, FcsrFrom(d, after).value)
  {
    hide Stored, Adjust, Loaded, FcsrFrom, HoldsF, HoldsFcsr, CALLER_SAVED_F;
    var m, d := Stored(before), Adjust(before);
    if f :| f in CALLER_SAVED_F && !HoldsF(m, d, Loaded(d, after)[f], f) {
      r := Some(f);
    } else {
      r := None;
    }
  }

  /** Exactly when what the two halves move comes back: each of the twenty registers and
      fcsr is loaded from where all four of its bytes still lie, above the body's stack. */
  lemma FloatIff(before: seq<Insn>, after: seq<Insn>, body: nat)
    requires Halves(before, after, body) == Float(body) && NotThroughSp(before) && NotThroughSp(after)
    ensures AlwaysFloat(before, after) <==> Kept(before, after)
  {
    hide *;
    var m, n := FloatAccepted(before, after, body);
    if Kept(before, after) {
      forall s: Cpu, t: Cpu | Runs(before, s, t) ensures FloatBack(s, Exec(t, after)) {
        RoundTrip(before, after, m, n, s, t);
      }
      Always(before, after);
    } else {
      var s, t := NotKept(before, after, m, n);
      NotAlways(before, after, s, t);
    }
  }

  lemma Always(before: seq<Insn>, after: seq<Insn>)
    requires forall s: Cpu, t: Cpu | Runs(before, s, t) :: FloatBack(s, Exec(t, after))
    ensures AlwaysFloat(before, after)
  {
    hide Exec, Runs, FloatBack;
  }

  lemma NotAlways(before: seq<Insn>, after: seq<Insn>, s: Cpu, t: Cpu)
    requires Runs(before, s, t) && !FloatBack(s, Exec(t, after))
    ensures !AlwaysFloat(before, after)
  {
    hide Exec, Runs, FloatBack;
  }
}

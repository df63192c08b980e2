/**
 The integer core a dispatch runs on, and the soundness of the recognizer against
 it: under the conditions the recognizer does not check, every run that falls
 through the window to the jr jumps to a word of the table.
*/
module JumpTableMachine {
  import opened Basics
  import opened Listing
  import opened JumpTable

  /** What the registers hold. */
  type Regs = Reg -> nat

  /** The and of two words, bit by bit. */
  function BitAnd(a: nat, b: nat): (r: nat)
    ensures r <= a
  {
    if a == 0 || b == 0 then 0 else 2 * BitAnd(a / 2, b / 2) + (a % 2) * (b % 2)
  }

  /** A signed immediate as the word it becomes. */
  function Wrap(x: int): (r: nat)
    ensures r < WORD
  {
    x % WORD
  }

  /** What falling through one instruction does. A call comes back with every
      register as the callee leaves it, an undecoded instruction may write any; a load
      from the image reads it, for no store changes its words, any other load anything. The listing's annotation of an
      addi is what the register holds. */
  ghost predicate Falls(image: Image, i: Insn, r: Regs, t: Regs) {
    match i
    case Ret => false
    case Mret => false
    case Jump(_) => false
    case JumpReg(_, _) => false
    case Call(_, _) => true
    case CallReg(_, _) => true
    case Undecoded(_, _) => true
    case Branch(_) => Same(r, t)
    case Bltu(a, b, _) => Same(r, t) && !(r(a) < r(b))
    case Bgeu(a, b, _) => Same(r, t) && !(r(a) >= r(b))
    case Lw(rd, off, base) =>
      && SameBut(r, t, rd)
      && (Wrap(r(base) + off) in image ==> t(rd) == image[Wrap(r(base) + off)])
    case Add(rd, a, b) => SameBut(r, t, rd) && t(rd) == Wrap(r(a) + r(b))
    case Addi(rd, rs, imm, note) =>
      SameBut(r, t, rd) && t(rd) == (if note.Some? then note.value else Wrap(r(rs) + imm))
    case Mv(rd, rs) => SameBut(r, t, rd) && t(rd) == r(rs)
    case Andi(rd, rs, imm) => SameBut(r, t, rd) && t(rd) == BitAnd(r(rs), Wrap(imm))
    case ZextB(rd, rs) => SameBut(r, t, rd) && t(rd) == r(rs) % 0x100
    case ZextH(rd, rs) => SameBut(r, t, rd) && t(rd) == r(rs) % 0x10000
    case Slli(rd, rs, n) => SameBut(r, t, rd) && (n == 2 ==> t(rd) == Wrap(4 * r(rs)))
    case Li(rd, imm) => SameBut(r, t, rd) && t(rd) == Wrap(imm)
    case Lui(rd, page) => SameBut(r, t, rd) && t(rd) == Wrap(0x1000 * page)
    case Auipc(rd) => SameBut(r, t, rd)
    case FcsrRead(rd) => SameBut(r, t, rd)
    case Other(rd) => SameBut(r, t, rd)
    case Sw(_, _, _) => Same(r, t)
    case Store(_, _, _) => Same(r, t)
    case Fsw(_, _, _) => Same(r, t)
    case Flw(fd, _, _) => SameBut(r, t, fd)
    case FcsrWrite(_, _) => Same(r, t)
    case Fp(rd) => SameBut(r, t, rd)
  }

  ghost predicate Same(r: Regs, t: Regs) { forall x :: t(x) == r(x) }

  ghost predicate SameBut(r: Regs, t: Regs, rd: Reg) { forall x :: x != rd ==> t(x) == r(x) }

  /** The register files of a run that falls through window[from..] - one before each
      instruction, and one at the jr. */
  ghost predicate FallsThrough(image: Image, window: seq<Insn>, from: nat, run: seq<Regs>) {
    && |run| == |window| + 1
    && forall j :: from <= j < |window| ==> Falls(image, window[j], run[j], run[j + 1])
  }

  /** No call and nothing undecoded from `from` on. */
  ghost predicate NoCalls(window: seq<Insn>, from: nat) {
    forall j :: from <= j < |window| ==> !IsCall(window[j])
  }

  /** A register nothing in [i, j) writes holds what it held. */
  lemma {:induction false} Keeps(image: Image, window: seq<Insn>, from: nat, run: seq<Regs>, reg: Reg, i: nat, j: nat)
    requires FallsThrough(image, window, from, run) && NoCalls(window, from)
    requires from <= i <= j <= |window|
    requires forall m :: i <= m < j ==> Writes(window[m]) != Some(reg) && !window[m].Undecoded?
    ensures run[j](reg) == run[i](reg)
    decreases j
  {
    if i < j {
      Keeps(image, window, from, run, reg, i, j - 1);
      assert Falls(image, window[j - 1], run[j - 1], run[j]);
    }
  }

  /** What the last writer wrote is what is read. */
  lemma Last(image: Image, window: seq<Insn>, from: nat, run: seq<Regs>, reg: Reg, before: nat)
    requires FallsThrough(image, window, from, run) && NoCalls(window, from) && before <= |window|
    requires LastWriter(window, reg, before).Some? && from <= LastWriter(window, reg, before).value
    ensures run[before](reg) == run[LastWriter(window, reg, before).value + 1](reg)
  {
    Keeps(image, window, from, run, reg, LastWriter(window, reg, before).value + 1, before);
  }

  /** Every link of the chain bounds what the index is, unsigned. */
  lemma {:induction false} ChainBounds(image: Image, window: seq<Insn>, from: nat, run: seq<Regs>,
                                       chain: seq<Use>, j: nat)
    requires FallsThrough(image, window, from, run) && NoCalls(window, from)
    requires Chained(window, chain) && j < |chain| && from <= chain[j].at <= |window|
    ensures chain[0].at <= |window| && chain[j].at <= chain[0].at
    ensures run[chain[0].at](chain[0].reg) <= run[chain[j].at](chain[j].reg)
    decreases j
  {
    if j > 0 {
      ChainBounds(image, window, from, run, chain[1..], j - 1);
      var a, b := chain[0], chain[1];
      Last(image, window, from, run, a.reg, a.at);
      assert Falls(image, window[b.at], run[b.at], run[b.at + 1]);
    }
  }

  /** The compared register still holds, where the chain reads it, what the compare
      saw - the condition the recognizer leaves unchecked. */
  ghost predicate Watched(window: seq<Insn>, d: Dispatch) {
    exists j :: 0 <= j < |d.chain| && Unwritten(window, d.first, d.bound, d.chain[j])
  }

  ghost predicate Unwritten(window: seq<Insn>, first: nat, b: Bound, u: Use) {
    && u.reg == b.reg && first <= u.at && first <= b.at
    && forall m :: (b.at <= m < u.at || u.at <= m < b.at) && m < |window| ==>
         Writes(window[m]) != Some(u.reg) && !window[m].Undecoded?
  }

  /** The conditions a caller can read off the window. */
  ghost predicate Sound(window: seq<Insn>, d: Dispatch) {
    && NoCalls(window, d.first) && Watched(window, d)
    && d.bound.li < |window| && window[d.bound.li].Li? && window[d.bound.li].imm >= 0
  }

  /** The register the constant is in at a compare. */
  function Against(i: Insn): Reg {
    match i case Bltu(k, _, _) => k case Bgeu(_, k, _) => k case _ => ""
  }

  function Compared(i: Insn): Reg {
    match i case Bltu(_, x, _) => x case Bgeu(x, _, _) => x case _ => ""
  }

  lemma BoundFacts(window: seq<Insn>, names: set<Reg>, b: Bound)
    requires b.at < |window| && BoundAt(window, names, b.at) == Some(b)
    ensures LastWriter(window, Against(window[b.at]), b.at) == Some(b.li)
    ensures window[b.li].Li? && Compared(window[b.at]) == b.reg
    ensures window[b.at].Bltu? || window[b.at].Bgeu?
    ensures b.count == window[b.li].imm + if window[b.at].Bltu? then 1 else 0
  {
    hide LastWriter;
  }

  lemma LiFalls(image: Image, i: Insn, r: Regs, t: Regs)
    requires i.Li? && i.imm >= 0 && Falls(image, i, r, t)
    ensures t(i.rd) <= i.imm
  {
  }

  lemma CompareFalls(image: Image, i: Insn, r: Regs, t: Regs)
    requires (i.Bltu? || i.Bgeu?) && Falls(image, i, r, t)
    ensures if i.Bltu? then r(Compared(i)) <= r(Against(i)) else r(Compared(i)) < r(Against(i))
  {
  }

  /** At the compare's fall-through the register is below the count. */
  lemma BoundHolds(image: Image, window: seq<Insn>, reg: Reg, d: Dispatch, run: seq<Regs>)
    requires Shaped(window, reg, d) && Sound(window, d) && FallsThrough(image, window, d.first, run)
    ensures run[d.bound.at](d.bound.reg) < d.bound.count
  {
    var b := d.bound;
    BoundFacts(window, Names(d.chain), b);
    hide Falls, LastWriter, Chained, Watched, PartOf, BoundAt, NoCalls, Shaped;
    Last(image, window, d.first, run, Against(window[b.at]), b.at);
    LiFalls(image, window[b.li], run[b.li], run[b.li + 1]);
    CompareFalls(image, window[b.at], run[b.at], run[b.at + 1]);
  }

  lemma {:induction false} ChainAts(window: seq<Insn>, chain: seq<Use>, j: nat)
    requires Chained(window, chain) && j < |chain|
    ensures chain[j].at <= chain[0].at <= |window|
    decreases j
  {
    if j > 0 {
      ChainAts(window, chain[1..], j - 1);
    }
  }

  /** So is the index, where the slli reads it. */
  lemma IndexBelow(image: Image, window: seq<Insn>, reg: Reg, d: Dispatch, run: seq<Regs>)
    requires Shaped(window, reg, d) && Sound(window, d) && FallsThrough(image, window, d.first, run)
    ensures d.chain != [] && d.chain[0].at < |window| && run[d.chain[0].at](d.chain[0].reg) < d.bound.count
  {
    BoundHolds(image, window, reg, d, run);
    var j :| 0 <= j < |d.chain| && Unwritten(window, d.first, d.bound, d.chain[j]);
    var u := d.chain[j];
    ChainAts(window, d.chain, j);
    if u.at <= d.bound.at {
      Keeps(image, window, d.first, run, u.reg, u.at, d.bound.at);
    } else {
      Keeps(image, window, d.first, run, u.reg, d.bound.at, u.at);
    }
    ChainBounds(image, window, d.first, run, d.chain, j);
  }

  /** What the add's operand holds at the add: the constant, or four times the index. */
  lemma PartHolds(image: Image, window: seq<Insn>, from: nat, run: seq<Regs>, src: Reg, at: nat)
    requires FallsThrough(image, window, from, run) && NoCalls(window, from) && at <= |window|
    requires var p := PartOf(window, src, at); !p.Neither? && from <= Begins(p)
    ensures var p := PartOf(window, src, at);
      run[at](src) % WORD == if p.Base? then Wrap(p.value) else Wrap(4 * run[p.use.at](p.use.reg))
  {
    var p := PartOf(window, src, at);
    hide *;
    var i := PartIs(window, src, at);
    LastInto(image, window, from, run, src, at, i);
    FallsAt(image, window, from, run, i);
    if window[i].Mv? {
      PageHolds(image, window, from, run, src, i, p.first);
      MvFalls(image, window[i], run[i], run[i + 1]);
    } else {
      WritesFalls(image, window[i], run[i], run[i + 1]);
    }
  }

  lemma FallsAt(image: Image, window: seq<Insn>, from: nat, run: seq<Regs>, j: nat)
    requires FallsThrough(image, window, from, run) && from <= j < |window|
    ensures |run| == |window| + 1 && Falls(image, window[j], run[j], run[j + 1])
  {
    hide Falls;
  }

  /** What a part's last writer is: a constant's load, the second half of one, or the
      scaling of the index. */
  lemma PartIs(window: seq<Insn>, src: Reg, at: nat) returns (i: nat)
    requires at <= |window| && !PartOf(window, src, at).Neither?
    ensures var p := PartOf(window, src, at);
      && LastWriter(window, src, at) == Some(i) && Begins(p) <= i < at && Writes(window[i]) == Some(src)
      && (if window[i].Mv? then
            && p.Base? && window[i].rs == src && LastWriter(window, src, i) == Some(p.first) && window[p.first].Lui?
            && p.value == window[p.first].page * 0x1000
          else if window[i].Li? then p == Base(window[i].imm, i)
          else if window[i].Addi? then window[i].note.Some? && p == Base(window[i].note.value, i)
          else window[i].Slli? && window[i].shift == 2 && p == Index(Use(window[i].rs, i)))
  {
    hide LastWriter;
    i := LastWriter(window, src, at).value;
  }

  lemma PageHolds(image: Image, window: seq<Insn>, from: nat, run: seq<Regs>, src: Reg, i: nat, h: nat)
    requires FallsThrough(image, window, from, run) && NoCalls(window, from) && from <= i <= |window|
    requires LastWriter(window, src, i) == Some(h) && from <= h && window[h].Lui?
    ensures run[i](src) == Wrap(0x1000 * window[h].page)
  {
    hide LastWriter, NoCalls;
    Last(image, window, from, run, src, i);
    assert Falls(image, window[h], run[h], run[h + 1]);
  }

  lemma MvFalls(image: Image, i: Insn, r: Regs, t: Regs)
    requires i.Mv? && Falls(image, i, r, t)
    ensures t(i.rd) == r(i.rs)
  {
  }

  lemma WritesFalls(image: Image, i: Insn, r: Regs, t: Regs)
    requires Falls(image, i, r, t) && (i.Li? || (i.Addi? && i.note.Some?) || (i.Slli? && i.shift == 2))
    ensures t(i.rd) == if i.Li? then Wrap(i.imm) else if i.Addi? then i.note.value else Wrap(4 * r(i.rs))
  {
  }

  /**
   The recognizer is sound: it answers `ws`, and a run that falls through from where
   the dispatch begins jumps to one of them - given that no call lies in between, that
   the compared register is still what the chain reads, and that the constant it is
   compared with is not negative.
  */
  lemma TableSound(image: Image, lines: seq<Line>, k: nat, start: nat, end: nat, run: seq<Regs>)
    requires k < |lines| && lines[k].insn.JumpReg? && TableOf(image, lines, k, start, end).Some?
    requires forall a :: a in image ==> a + 4 <= WORD
    requires var window, d := Window(lines, k), Recognize(Window(lines, k), lines[k].insn.rs).value;
      Sound(window, d) && FallsThrough(image, window, d.first, run)
    ensures var ws := TableOf(image, lines, k, start, end).value;
      && run[|Window(lines, k)|](lines[k].insn.rs) in ws
      && forall w :: w in ws ==> start <= w < end
  {
    var window, reg := Window(lines, k), lines[k].insn.rs;
    var d := Recognize(window, reg).value;
    var ws := TableOf(image, lines, k, start, end).value;
    assert ReadWords(image, d.base, d.bound.count) == Some(ws) && forall w :: w in ws ==> start <= w < end;
    assert Shaped(window, reg, d);
    EntryJumped(image, window, reg, d, run, ws);
  }

  lemma EntryJumped(image: Image, window: seq<Insn>, reg: Reg, d: Dispatch, run: seq<Regs>, ws: seq<nat>)
    requires Shaped(window, reg, d) && Sound(window, d) && FallsThrough(image, window, d.first, run)
    requires ReadWords(image, d.base, d.bound.count) == Some(ws)
    requires forall a :: a in image ==> a + 4 <= WORD
    ensures run[|window|](reg) in ws
  {
    hide *;
    IndexBelow(image, window, reg, d, run);
    RunLength(image, window, d.first, run);
    var idx := run[d.chain[0].at](d.chain[0].reg);
    SoundParts(window, d);
    DispatchLoads(image, window, reg, d, run);
    EntryIn(image, d.base, d.bound.count, ws, idx);
    WrapIn(d.base + 4 * idx);
  }

  lemma WrapIn(x: int)
    requires 0 <= x < WORD
    ensures Wrap(x) == x
  {
  }

  lemma RunLength(image: Image, window: seq<Insn>, from: nat, run: seq<Regs>)
    requires FallsThrough(image, window, from, run)
    ensures |run| == |window| + 1
  {
    hide Falls;
  }

  lemma SoundParts(window: seq<Insn>, d: Dispatch)
    requires Sound(window, d)
    ensures NoCalls(window, d.first)
  {
  }

  lemma EntryIn(image: Image, base: int, count: int, ws: seq<nat>, idx: nat)
    requires ReadWords(image, base, count) == Some(ws) && idx < count
    ensures idx < |ws| && base + 4 * idx >= 0 && base + 4 * idx in image && ws[idx] == image[base + 4 * idx]
  {
  }

  /** The two operands of the add are the base and four times the index. */
  ghost predicate Adds(a: nat, b: nat, base: int, idx: nat) {
    || (a % WORD == Wrap(base) && b % WORD == Wrap(4 * idx))
    || (b % WORD == Wrap(base) && a % WORD == Wrap(4 * idx))
  }

  lemma Operands(image: Image, window: seq<Insn>, reg: Reg, d: Dispatch, run: seq<Regs>)
    requires Shaped(window, reg, d) && NoCalls(window, d.first) && FallsThrough(image, window, d.first, run)
    requires d.chain[0].at < |window|
    ensures Adds(run[d.add](window[d.add].rs1), run[d.add](window[d.add].rs2),
                 d.base, run[d.chain[0].at](d.chain[0].reg))
  {
    var add := window[d.add];
    var p, q := PartOf(window, add.rs1, d.add), PartOf(window, add.rs2, d.add);
    hide Falls, LastWriter, Chained, PartOf, BoundAt, NoCalls, Names, Wrap, BitAnd, FallsThrough;
    PartHolds(image, window, d.first, run, add.rs1, d.add);
    PartHolds(image, window, d.first, run, add.rs2, d.add);
  }

  /** The jr's register is the word at base plus four times the index. */
  lemma DispatchLoads(image: Image, window: seq<Insn>, reg: Reg, d: Dispatch, run: seq<Regs>)
    requires Shaped(window, reg, d) && NoCalls(window, d.first) && FallsThrough(image, window, d.first, run)
    requires d.chain != [] && d.chain[0].at < |window|
    ensures var a := Wrap(d.base + 4 * run[d.chain[0].at](d.chain[0].reg));
      a in image ==> run[|window|](reg) == image[a]
  {
    hide *;
    RunLength(image, window, d.first, run);
    var idx := run[d.chain[0].at](d.chain[0].reg);
    Operands(image, window, reg, d, run);
    Carried(image, window, reg, d, run);
    BothFall(image, window, d.first, run, d.add, d.lw);
    AddThenLoad(image, window[d.add], window[d.lw], run[d.add], run[d.add + 1], run[d.lw], run[d.lw + 1], d.base, idx);
  }

  /** The sum is what is loaded through, and the word loaded what is jumped through. */
  lemma Carried(image: Image, window: seq<Insn>, reg: Reg, d: Dispatch, run: seq<Regs>)
    requires Shaped(window, reg, d) && NoCalls(window, d.first) && FallsThrough(image, window, d.first, run)
    ensures d.first <= d.add < d.lw < |window| && window[d.add].Add? && window[d.lw].Lw? && window[d.lw].off == 0
    ensures run[d.add + 1](window[d.add].rd) == run[d.lw](window[d.lw].base)
    ensures run[d.lw + 1](window[d.lw].rd) == run[|window|](reg)
  {
    hide *;
    ShapeLoads(window, reg, d);
    LastInto(image, window, d.first, run, window[d.lw].base, d.lw, d.add);
    LastInto(image, window, d.first, run, reg, |window|, d.lw);
  }

  lemma LastInto(image: Image, window: seq<Insn>, from: nat, run: seq<Regs>, reg: Reg, before: nat, i: nat)
    requires FallsThrough(image, window, from, run) && NoCalls(window, from) && before <= |window|
    requires LastWriter(window, reg, before) == Some(i) && from <= i
    ensures run[before](reg) == run[i + 1](reg)
  {
    hide *;
    Last(image, window, from, run, reg, before);
  }

  lemma BothFall(image: Image, window: seq<Insn>, from: nat, run: seq<Regs>, j: nat, k: nat)
    requires FallsThrough(image, window, from, run) && from <= j < k < |window|
    ensures Falls(image, window[j], run[j], run[j + 1])
    ensures Falls(image, window[k], run[k], run[k + 1])
  {
    hide Falls;
  }

  lemma ShapeLoads(window: seq<Insn>, reg: Reg, d: Dispatch)
    requires Shaped(window, reg, d)
    ensures d.first <= d.add < d.lw < |window|
    ensures LastWriter(window, reg, |window|) == Some(d.lw) && window[d.lw].Lw? && window[d.lw].off == 0
    ensures LastWriter(window, window[d.lw].base, d.lw) == Some(d.add) && window[d.add].Add?
    ensures window[d.lw].rd == reg && window[d.add].rd == window[d.lw].base
  {
    hide LastWriter, Chained, PartOf, BoundAt, Names;
  }

  lemma AddThenLoad(image: Image, add: Insn, lw: Insn, r: Regs, t: Regs, u: Regs, v: Regs, base: int, idx: nat)
    requires add.Add? && Falls(image, add, r, t) && lw.Lw? && lw.off == 0 && Falls(image, lw, u, v)
    requires t(add.rd) == u(lw.base) && Adds(r(add.rs1), r(add.rs2), base, idx)
    ensures Wrap(base + 4 * idx) in image ==> v(lw.rd) == image[Wrap(base + 4 * idx)]
  {
    hide Falls, Wrap, BitAnd;
    WrapSum(r(add.rs1), r(add.rs2), base, 4 * idx);
    AddFalls(image, add, r, t);
    if Wrap(base + 4 * idx) in image {
      LwFalls(image, lw, u, v);
    }
  }

  lemma AddFalls(image: Image, i: Insn, r: Regs, t: Regs)
    requires i.Add? && Falls(image, i, r, t)
    ensures t(i.rd) == Wrap(r(i.rs1) + r(i.rs2))
  {
  }

  lemma LwFalls(image: Image, i: Insn, r: Regs, t: Regs)
    requires i.Lw? && i.off == 0 && Falls(image, i, r, t) && Wrap(r(i.base) + 0) in image
    ensures t(i.rd) == image[Wrap(r(i.base) + 0)]
  {
  }

  lemma WrapSum(a: nat, b: nat, x: int, y: int)
    ensures a % WORD == Wrap(x) && b % WORD == Wrap(y) ==> Wrap(Wrap(a + b) + 0) == Wrap(x + y)
    ensures a % WORD == Wrap(y) && b % WORD == Wrap(x) ==> Wrap(Wrap(a + b) + 0) == Wrap(x + y)
  {
  }
}

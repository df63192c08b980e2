/**
 jump_table (cli/vector_guard.py): a switch's dispatch recognized backwards from its
 jr, and what a run that reaches that jr through the window jumps to.
*/
module JumpTable {
  import opened Basics
  import opened Listing

  /** The register an instruction writes, as the backward search sees it: the first
      operand of everything but a store or a conditional branch - a jr's own register
      included. */
  function Writes(i: Insn): Option<Reg> {
    match i
    case Call(rd, _) => Some(rd)
    case CallReg(rd, _) => Some(rd)
    case JumpReg(rs, _) => Some(rs)
    case Lw(rd, _, _) => Some(rd)
    case Add(rd, _, _) => Some(rd)
    case Addi(rd, _, _, _) => Some(rd)
    case Mv(rd, _) => Some(rd)
    case Andi(rd, _, _) => Some(rd)
    case ZextB(rd, _) => Some(rd)
    case ZextH(rd, _) => Some(rd)
    case Slli(rd, _, _) => Some(rd)
    case Li(rd, _) => Some(rd)
    case Lui(rd, _) => Some(rd)
    case Auipc(rd) => Some(rd)
    case FcsrRead(rd) => Some(rd)
    case FcsrWrite(_, first) => Some(first)
    case Flw(fd, _, _) => Some(fd)
    case Fp(rd) => Some(rd)
    case Other(rd) => Some(rd)
    case _ => None
  }

  /** Backwards from `before`: the first writer of `reg` met, unless something undecoded
      is met before it. */
  function LastWriter(window: seq<Insn>, reg: Reg, before: nat): (w: Option<nat>)
    requires before <= |window|
    ensures w.Some? ==> w.value < before && Writes(window[w.value]) == Some(reg)
    ensures w.Some? ==> forall j :: w.value < j < before ==> Writes(window[j]) != Some(reg) && !window[j].Undecoded?
  {
    if before == 0 || window[before - 1].Undecoded? then None
    else if Writes(window[before - 1]) == Some(reg) then Some(before - 1)
    else LastWriter(window, reg, before - 1)
  }

  /** It answers an instruction exactly when that one writes the register and nothing
      behind it does, or might: nothing, when there is none such. */
  lemma {:induction false} LastWriterIff(window: seq<Insn>, reg: Reg, before: nat, i: nat)
    requires before <= |window|
    ensures LastWriter(window, reg, before) == Some(i) <==>
      && i < before && Writes(window[i]) == Some(reg)
      && forall j :: i < j < before ==> Writes(window[j]) != Some(reg) && !window[j].Undecoded?
    decreases before
  {
    if before > 0 {
      LastWriterIff(window, reg, before - 1, i);
      hide Writes;
    }
  }

  /** The narrowing instructions, by where each reads: what they leave is at most that. */
  function NarrowedFrom(i: Insn): Option<Reg> {
    match i
    case ZextB(_, rs) => Some(rs)
    case ZextH(_, rs) => Some(rs)
    case Mv(_, rs) => Some(rs)
    case Andi(_, rs, _) => Some(rs)
    case _ => None
  }

  /** A register and where it is read. */
  datatype Use = Use(reg: Reg, at: nat)

  /** `b` is where `a`'s value was last narrowed from. */
  predicate Linked(window: seq<Insn>, a: Use, b: Use) {
    && a.at <= |window| && b.at < a.at && LastWriter(window, a.reg, a.at) == Some(b.at)
    && NarrowedFrom(window[b.at]) == Some(b.reg)
  }

  predicate Chained(window: seq<Insn>, chain: seq<Use>) {
    && chain != [] && chain[0].at <= |window|
    && (|chain| > 1 ==> Linked(window, chain[0], chain[1]) && Chained(window, chain[1..]))
  }

  /** From a use of a register back through the narrowing instructions behind it. */
  function Chain(window: seq<Insn>, u: Use): (chain: seq<Use>)
    requires u.at <= |window|
    ensures chain != [] && chain[0] == u && Chained(window, chain)
    decreases u.at
  {
    var w := LastWriter(window, u.reg, u.at);
    if w.None? || NarrowedFrom(window[w.value]).None? then [u]
    else
      var rest := Chain(window, Use(NarrowedFrom(window[w.value]).value, w.value));
      assert ([u] + rest)[1..] == rest;
      [u] + rest
  }

  function Names(chain: seq<Use>): set<Reg> {
    set j | 0 <= j < |chain| :: chain[j].reg
  }

  /** What an operand of the add turns out to be. */
  datatype Part = Base(value: int, first: nat) | Index(use: Use) | Neither

  function PartOf(window: seq<Insn>, src: Reg, at: nat): (p: Part)
    requires at <= |window|
    ensures p.Index? ==> p.use.at < at && LastWriter(window, src, at) == Some(p.use.at)
                         && window[p.use.at] == Slli(src, p.use.reg, 2)
    ensures p.Base? ==> p.first < at
  {
    match LastWriter(window, src, at)
    case None => Neither
    case Some(i) =>
      match window[i]
      case Li(_, imm) => Base(imm, i)
      case Addi(_, _, _, note) => if note.Some? then Base(note.value, i) else Neither
      case Mv(rd, rs) =>
        // A constant whose low twelve bits are zero: its addi reads as this move.
        if rs != src then Neither else
        (match LastWriter(window, src, i)
         case None => Neither
         case Some(h) => if window[h].Lui? then Base(window[h].page * 0x1000, h) else Neither)
      case Slli(rd, rs, shift) => if shift == 2 then Index(Use(rs, i)) else Neither
      case _ => Neither
  }

  /** A compare against a constant: where, of which register, how many entries it lets
      through, and where the constant is loaded. */
  datatype Bound = Bound(at: nat, reg: Reg, count: int, li: nat)

  /** What falling through a compare with a constant leaves of the other register: at most
      the constant behind a bltu, less than it behind a bgeu. */
  function BoundAt(window: seq<Insn>, names: set<Reg>, at: nat): (b: Option<Bound>)
    requires at < |window|
    ensures b.Some? ==> b.value.at == at && b.value.reg in names && b.value.li < at
  {
    match window[at]
    case Bltu(k, i, _) => if i in names then LoadedBound(window, k, i, at, 1) else None
    case Bgeu(i, k, _) => if i in names then LoadedBound(window, k, i, at, 0) else None
    case _ => None
  }

  function LoadedBound(window: seq<Insn>, k: Reg, reg: Reg, at: nat, more: int): (b: Option<Bound>)
    requires at < |window|
    ensures b.Some? ==> b.value.at == at && b.value.reg == reg && b.value.li < at
  {
    match LastWriter(window, k, at)
    case None => None
    case Some(l) => if window[l].Li? then Some(Bound(at, reg, window[l].imm + more, l)) else None
  }

  /** The bounds of window[..n], in order; the last one's count is the one taken. */
  function Bounds(window: seq<Insn>, names: set<Reg>, n: nat): (bs: seq<Bound>)
    requires n <= |window|
    ensures forall b :: b in bs ==> b.at < n && BoundAt(window, names, b.at) == Some(b)
  {
    if n == 0 then []
    else Bounds(window, names, n - 1) + Opt(BoundAt(window, names, n - 1))
  }

  datatype Dispatch = Dispatch(lw: nat, add: nat, base: int, chain: seq<Use>, bound: Bound, first: nat)

  function Min(a: nat, b: nat): nat { if a < b then a else b }

  /** The least index of the constants' loads. */
  function FirstLi(bs: seq<Bound>, first: nat): (f: nat)
    ensures f <= first && forall b :: b in bs ==> f <= b.li
  {
    if bs == [] then first else FirstLi(bs[..|bs| - 1], Min(first, bs[|bs| - 1].li))
  }

  /** Where a part of the add begins. */
  function Begins(p: Part): nat {
    match p case Base(_, first) => first case Index(u) => u.at case Neither => 0
  }

  /** What was recognized: the jr's register loaded through the add of a constant base
      and four times an index, and the bound on a name of the index. */
  ghost predicate Shaped(window: seq<Insn>, reg: Reg, d: Dispatch) {
    && LastWriter(window, reg, |window|) == Some(d.lw) && window[d.lw].Lw? && window[d.lw].off == 0
    && LastWriter(window, window[d.lw].base, d.lw) == Some(d.add) && window[d.add].Add?
    && Chained(window, d.chain)
    && (var p, q := PartOf(window, window[d.add].rs1, d.add), PartOf(window, window[d.add].rs2, d.add);
        && ((p.Base? && p.value == d.base && q == Index(d.chain[0]))
            || (q.Base? && q.value == d.base && p == Index(d.chain[0])))
        && d.first <= Begins(p) && d.first <= Begins(q))
    && d.first <= d.bound.li < d.bound.at < |window| && d.first <= d.add
    && BoundAt(window, Names(d.chain), d.bound.at) == Some(d.bound)
  }

  /** gcc's shape, read backwards from the register jumped through. */
  function Recognize(window: seq<Insn>, reg: Reg): (r: Option<Dispatch>)
    ensures r.Some? ==> r.value.first < |window| && Shaped(window, reg, r.value)
  {
    match LastWriter(window, reg, |window|)
    case None => None
    case Some(lw) =>
      if !window[lw].Lw? || window[lw].off != 0 then None else
      match LastWriter(window, window[lw].base, lw)
      case None => None
      case Some(add) =>
        if !window[add].Add? then None else
        var p, q := PartOf(window, window[add].rs1, add), PartOf(window, window[add].rs2, add);
        if !((p.Base? && q.Index?) || (p.Index? && q.Base?)) then None else
        var base, use := if p.Base? then (p.value) else q.value, if p.Base? then q.use else p.use;
        var chain := Chain(window, use);
        var bs := Bounds(window, Names(chain), |window|);
        if bs == [] then None
        else
          var first := FirstLi(bs, Min(add, Min(Begins(p), Begins(q))));
          Some(Dispatch(lw, add, base, chain, bs[|bs| - 1], first))
  }

  /** `count` words of the image at an address, or nothing when it does not hold them.
      No words is an answer too, and the one a count below one gets. */
  function ReadWords(image: Image, addr: int, count: int): (ws: Option<seq<nat>>)
    ensures ws.Some? && count >= 0 ==> |ws.value| == count
    ensures ws.Some? ==> forall i :: 0 <= i < |ws.value| ==>
      addr + 4 * i in image && ws.value[i] == image[addr + 4 * i]
  {
    if addr < 0 || addr !in image then None
    else if count <= 0 then Some([])
    else if forall i :: 0 <= i < count ==> addr + 4 * i in image
    then Some(seq(count, i requires 0 <= i < count => image[addr + 4 * i]))
    else None
  }

  /** The sixteen instructions before the k-th. */
  function Window(lines: seq<Line>, k: nat): (w: seq<Insn>)
    requires k < |lines|
    ensures |w| == k - WindowStart(k)
    ensures forall j :: 0 <= j < |w| ==> w[j] == lines[WindowStart(k) + j].insn
  {
    seq(k - WindowStart(k), j requires 0 <= j < k - WindowStart(k) => lines[WindowStart(k) + j].insn)
  }

  function WindowStart(k: nat): nat { if k < 16 then 0 else k - 16 }

  /** Does a transfer of the function land past `lo`, up to `hi`? */
  predicate Lands(lines: seq<Line>, lo: nat, hi: nat) {
    exists i :: 0 <= i < |lines| && ResolvedTarget(lines[i].insn).To?
                && lo < ResolvedTarget(lines[i].insn).addr <= hi
  }

  /** The words of the dispatch recognized at `k`: none when a transfer lands behind its
      first instruction, a word is missing, or one is no address of the function. */
  function TableOf(image: Image, lines: seq<Line>, k: nat, start: nat, end: nat): Option<seq<nat>>
    requires k < |lines| && lines[k].insn.JumpReg?
  {
    var window := Window(lines, k);
    match Recognize(window, lines[k].insn.rs)
    case None => None
    case Some(d) =>
      if Lands(lines, lines[WindowStart(k) + d.first].addr, lines[k].addr) then None
      else
        match ReadWords(image, d.base, d.bound.count)
        case None => None
        case Some(ws) => if forall w :: w in ws ==> start <= w < end then Some(ws) else None
  }
}

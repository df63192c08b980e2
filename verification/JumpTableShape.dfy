/**
 When jump_table must answer (cli/vector_guard.py:192-264): gcc's shape told of the
 window's instructions one by one, and the recognizer finds it exactly where it is -
 with that base, the last of the compares and the earliest of what they all rest on.
*/
module JumpTableShape {
  import opened Basics
  import opened Listing
  import opened JumpTable

  /** The register is the instruction's first operand, and it is no store, no branch and
      nothing without one. */
  ghost predicate Writer(i: Insn, reg: Reg) {
    if i.Flw? then reg == i.fd
    else if i.JumpReg? then reg == i.rs
    else if i.FcsrWrite? then reg == i.first
    else !(i.Sw? || i.Store? || i.Fsw? || i.Branch? || i.Bltu? || i.Bgeu? || i.Jump? || i.Ret? || i.Mret? || i.Undecoded?)
         && reg == i.rd
  }

  /** The i-th instruction writes the register, and up to `before` none does, or might. */
  ghost predicate Leaves(window: seq<Insn>, i: nat, reg: Reg, before: nat) {
    && i < before <= |window| && Writer(window[i], reg)
    && forall j :: i < j < before ==> !Writer(window[j], reg) && !window[j].Undecoded?
  }

  /** A constant base in `src`: by li, by an addi that names a symbol, or by a lui whose
      addi of zero reads as `mv src,src`. It begins at `first`. */
  ghost predicate Based(window: seq<Insn>, src: Reg, at: nat, value: int, first: nat) {
    exists i: nat :: Leaves(window, i, src, at)
      && match window[i]
         case Li(_, imm) => value == imm && first == i
         case Addi(_, _, _, note) => note == Some(value) && first == i
         case Mv(_, rs) =>
           rs == src && Leaves(window, first, src, i) && window[first].Lui? && value == 0x1000 * window[first].page
         case _ => false
  }

  /** Four times the register `u.reg`, as it stands at `u.at`. */
  ghost predicate Scaled(window: seq<Insn>, src: Reg, at: nat, u: Use) {
    Leaves(window, u.at, src, at) && window[u.at].Slli? && window[u.at].rs == u.reg && window[u.at].shift == 2
  }

  /** `b` is what the narrowing instruction that left `a` read. */
  ghost predicate Narrows(window: seq<Insn>, a: Use, b: Use) {
    && a.at <= |window| && Leaves(window, b.at, a.reg, a.at)
    && (window[b.at].ZextB? || window[b.at].ZextH? || window[b.at].Mv? || window[b.at].Andi?)
    && window[b.at].rs == b.reg
  }

  /** From the index back, a narrowing at a time. */
  ghost predicate Traces(window: seq<Insn>, u: Use, t: seq<Use>) {
    && t != [] && t[0] == u && u.at <= |window|
    && forall j :: 0 <= j < |t| - 1 ==> Narrows(window, t[j], t[j + 1])
  }

  /** A compare at `at` lets through no more than `count` values of the register the trace
      ends in: a bltu of a loaded constant against it, or a bgeu of it against one. */
  ghost predicate Bounding(window: seq<Insn>, u: Use, t: seq<Use>, at: nat, li: nat, count: int) {
    && Traces(window, u, t) && at < |window| && (window[at].Bltu? || window[at].Bgeu?)
    && (if window[at].Bltu? then window[at].b else window[at].a) == t[|t| - 1].reg
    && Leaves(window, li, if window[at].Bltu? then window[at].a else window[at].b, at)
    && window[li].Li? && count == window[li].imm + if window[at].Bltu? then 1 else 0
  }

  /** What there is to find. */
  datatype Found = Found(lw: nat, add: nat, base: int, begun: nat, index: Use, trace: seq<Use>, at: nat, li: nat, count: int)

  /** The shape: the jr's register loaded, with no offset, through the sum of a constant
      base and four times an index, a name of the index bounded - by the last of its
      compares. */
  ghost predicate Gcc(window: seq<Insn>, reg: Reg, f: Found) {
    && Leaves(window, f.lw, reg, |window|) && window[f.lw].Lw? && window[f.lw].off == 0
    && Leaves(window, f.add, window[f.lw].base, f.lw) && window[f.add].Add?
    && (|| (Based(window, window[f.add].rs1, f.add, f.base, f.begun) && Scaled(window, window[f.add].rs2, f.add, f.index))
        || (Based(window, window[f.add].rs2, f.add, f.base, f.begun) && Scaled(window, window[f.add].rs1, f.add, f.index)))
    && Bounding(window, f.index, f.trace, f.at, f.li, f.count)
    && forall t, at: nat, li: nat, count :: Bounding(window, f.index, t, at, li, count) ==> at <= f.at
  }

  /** The earliest instruction it rests on: of the add, the base's and the index's, and
      the loads of all the constants its index is compared with. */
  ghost predicate Earliest(window: seq<Insn>, f: Found, first: nat) {
    && first <= f.add && first <= f.begun && first <= f.index.at
    && (forall t, at: nat, li: nat, count :: Bounding(window, f.index, t, at, li, count) ==> first <= li)
    && (first == f.add || first == f.begun || first == f.index.at
        || exists t, at: nat, count :: Bounding(window, f.index, t, at, first, count))
  }

  // ---- piece by piece ------------------------------------------------------------------

  lemma WriterIff(i: Insn, reg: Reg)
    ensures Writer(i, reg) <==> Writes(i) == Some(reg)
  {
  }

  lemma LeavesIff(window: seq<Insn>, i: nat, reg: Reg, before: nat)
    requires before <= |window|
    ensures Leaves(window, i, reg, before) <==> LastWriter(window, reg, before) == Some(i)
  {
    LastWriterIff(window, reg, before, i);
    hide Writes, Writer;
    forall j | 0 <= j < before ensures Writer(window[j], reg) <==> Writes(window[j]) == Some(reg) {
      WriterIff(window[j], reg);
    }
  }

  lemma BasedIff(window: seq<Insn>, src: Reg, at: nat, value: int, first: nat)
    requires at <= |window|
    ensures Based(window, src, at, value, first) <==> PartOf(window, src, at) == Base(value, first)
  {
    hide Leaves, Writer, Writes;
    forall i: nat, before: nat | before <= |window|
      ensures Leaves(window, i, src, before) <==> LastWriter(window, src, before) == Some(i)
    {
      LeavesIff(window, i, src, before);
    }
    var w := LastWriter(window, src, at);
    if w.Some? {
      assert Leaves(window, w.value, src, at);
    }
  }

  lemma ScaledIff(window: seq<Insn>, src: Reg, at: nat, u: Use)
    requires at <= |window|
    ensures Scaled(window, src, at, u) <==> PartOf(window, src, at) == Index(u)
  {
    LeavesIff(window, u.at, src, at);
    hide Leaves, Writer, Writes;
  }

  lemma NarrowsIff(window: seq<Insn>, a: Use, b: Use)
    ensures Narrows(window, a, b) <==> Linked(window, a, b)
  {
    if a.at <= |window| {
      LeavesIff(window, b.at, a.reg, a.at);
    }
    hide Leaves, Writer, Writes;
  }

  /** Every trace is the chain's beginning: there is one way back. */
  lemma {:induction false} TraceInChain(window: seq<Insn>, u: Use, t: seq<Use>)
    requires Traces(window, u, t)
    ensures t <= Chain(window, u)
    decreases |t|
  {
    hide Narrows, Linked, LastWriter;
    if |t| > 1 {
      assert Narrows(window, t[0], t[0 + 1]);
      ChainNext(window, t[0], t[1]);
      forall j | 0 <= j < |t[1..]| - 1 ensures Narrows(window, t[1..][j], t[1..][j + 1]) {
        assert Narrows(window, t[j + 1], t[j + 1 + 1]);
      }
      TraceInChain(window, t[1], t[1..]);
    }
  }

  lemma ChainNext(window: seq<Insn>, a: Use, b: Use)
    requires Narrows(window, a, b)
    ensures b.at < a.at <= |window| && Chain(window, a) == [a] + Chain(window, b)
  {
    NarrowsIff(window, a, b);
    hide Narrows;
  }

  /** And every beginning of it is one. */
  lemma ChainTraces(window: seq<Insn>, u: Use, n: nat)
    requires u.at <= |window| && n < |Chain(window, u)|
    ensures Traces(window, u, Chain(window, u)[..n + 1])
  {
    var chain := Chain(window, u);
    forall j | 0 <= j < n ensures Narrows(window, chain[j], chain[j + 1]) {
      ChainLinks(window, chain, j);
      NarrowsIff(window, chain[j], chain[j + 1]);
    }
    hide Narrows, Chain;
    var t := chain[..n + 1];
    forall j | 0 <= j < |t| - 1 ensures Narrows(window, t[j], t[j + 1]) {
      assert t[j] == chain[j] && t[j + 1] == chain[j + 1];
    }
  }

  lemma {:induction false} ChainLinks(window: seq<Insn>, chain: seq<Use>, j: nat)
    requires Chained(window, chain) && j < |chain| - 1
    ensures Linked(window, chain[j], chain[j + 1])
    decreases j
  {
    hide Linked;
    if j > 0 {
      ChainLinks(window, chain[1..], j - 1);
    }
  }

  lemma BoundingIs(window: seq<Insn>, u: Use, t: seq<Use>, at: nat, li: nat, count: int)
    requires Bounding(window, u, t, at, li, count)
    ensures u.at <= |window| && at < |window|
    ensures BoundAt(window, Names(Chain(window, u)), at) == Some(Bound(at, t[|t| - 1].reg, count, li))
  {
    TraceInChain(window, u, t);
    var chain, n := Chain(window, u), |t| - 1;
    assert t[n] == chain[n] && chain[n].reg in Names(chain);
    LeavesIff(window, li, if window[at].Bltu? then window[at].a else window[at].b, at);
    hide Leaves, Traces, Chain, Names, Writes, LastWriter;
  }

  lemma BoundBounds(window: seq<Insn>, u: Use, at: nat, b: Bound) returns (t: seq<Use>)
    requires u.at <= |window| && at < |window| && BoundAt(window, Names(Chain(window, u)), at) == Some(b)
    ensures Bounding(window, u, t, at, b.li, b.count)
  {
    var chain := Chain(window, u);
    var n :| 0 <= n < |chain| && chain[n].reg == b.reg;
    t := chain[..n + 1];
    ChainTraces(window, u, n);
    LeavesIff(window, b.li, if window[at].Bltu? then window[at].a else window[at].b, at);
    hide Leaves, Traces, Chain, Names, Writes, LastWriter;
  }

  /** Every compare is among the bounds, and the last of them is the last. */
  lemma {:induction false} BoundsAll(window: seq<Insn>, names: set<Reg>, n: nat, at: nat)
    requires at < n <= |window| && BoundAt(window, names, at).Some?
    ensures var bs := Bounds(window, names, n);
      BoundAt(window, names, at).value in bs && at <= bs[|bs| - 1].at
    decreases n
  {
    hide BoundAt;
    if at < n - 1 {
      BoundsAll(window, names, n - 1, at);
      assert Bounds(window, names, n)
          == Bounds(window, names, n - 1) + Opt(BoundAt(window, names, n - 1));
    }
  }

  lemma {:induction false} FirstLiIs(bs: seq<Bound>, first: nat)
    ensures FirstLi(bs, first) == first || exists b :: b in bs && FirstLi(bs, first) == b.li
    decreases |bs|
  {
    if bs != [] {
      FirstLiIs(bs[..|bs| - 1], Min(first, bs[|bs| - 1].li));
      assert bs[|bs| - 1] in bs;
    }
  }

  // ---- the whole -------------------------------------------------------------------------

  /** What the recognizer makes of the shape. */
  ghost predicate Answers(window: seq<Insn>, reg: Reg, f: Found) {
    var d := Recognize(window, reg);
    && d.Some? && d.value.lw == f.lw && d.value.add == f.add && d.value.base == f.base
    && d.value.bound.at == f.at && d.value.bound.li == f.li && d.value.bound.count == f.count
    && Earliest(window, f, d.value.first)
  }

  /** The bounds of the index's names. */
  function BoundsOf(window: seq<Insn>, u: Use): (bs: seq<Bound>)
    requires u.at <= |window|
  {
    Bounds(window, Names(Chain(window, u)), |window|)
  }

  lemma BoundsHold(window: seq<Insn>, u: Use, b: Bound) returns (t: seq<Use>)
    requires u.at <= |window| && b in BoundsOf(window, u)
    ensures b.at < |window| && BoundAt(window, Names(Chain(window, u)), b.at) == Some(b)
    ensures Bounding(window, u, t, b.at, b.li, b.count)
  {
    hide BoundAt, Bounding, Chain, Names;
    t := BoundBounds(window, u, b.at, b);
  }

  lemma BoundingIn(window: seq<Insn>, u: Use, t: seq<Use>, at: nat, li: nat, count: int)
    requires Bounding(window, u, t, at, li, count)
    ensures u.at <= |window| && Bound(at, t[|t| - 1].reg, count, li) in BoundsOf(window, u)
    ensures at <= BoundsOf(window, u)[|BoundsOf(window, u)| - 1].at
  {
    hide BoundAt, Bounding, Chain, Names, Bounds;
    BoundingIs(window, u, t, at, li, count);
    BoundsAll(window, Names(Chain(window, u)), |window|, at);
  }

  /** The last of the compares is the last bound. */
  lemma LastBound(window: seq<Insn>, f: Found)
    requires Bounding(window, f.index, f.trace, f.at, f.li, f.count)
    requires forall t, at: nat, li: nat, count :: Bounding(window, f.index, t, at, li, count) ==> at <= f.at
    ensures f.index.at <= |window| && BoundsOf(window, f.index) != []
    ensures var b := BoundsOf(window, f.index)[|BoundsOf(window, f.index)| - 1];
      b.at == f.at && b.li == f.li && b.count == f.count
  {
    hide BoundsOf, BoundAt;
    BoundingIn(window, f.index, f.trace, f.at, f.li, f.count);
    BoundingIs(window, f.index, f.trace, f.at, f.li, f.count);
    hide Bounding;
    var bs := BoundsOf(window, f.index);
    var b := bs[|bs| - 1];
    var t := BoundsHold(window, f.index, b);
  }

  /** The earliest of what it rests on is the recognizer's first. */
  lemma FirstOf(window: seq<Insn>, f: Found, m: nat)
    requires f.index.at <= |window| && m == Min(f.add, Min(f.begun, f.index.at))
    ensures Earliest(window, f, FirstLi(BoundsOf(window, f.index), m))
  {
    hide BoundsOf, Bounding;
    var bs := BoundsOf(window, f.index);
    var first := FirstLi(bs, m);
    forall t, at: nat, li: nat, count | Bounding(window, f.index, t, at, li, count) ensures first <= li {
      BoundingIn(window, f.index, t, at, li, count);
    }
    FirstLiIs(bs, m);
    if first != m {
      var b :| b in bs && first == b.li;
      var t := BoundsHold(window, f.index, b);
    }
  }

  lemma RecognizeIs(window: seq<Insn>, reg: Reg, lw: nat, add: nat, p: Part, q: Part)
    requires LastWriter(window, reg, |window|) == Some(lw) && window[lw].Lw? && window[lw].off == 0
    requires LastWriter(window, window[lw].base, lw) == Some(add) && window[add].Add?
    requires p == PartOf(window, window[add].rs1, add) && q == PartOf(window, window[add].rs2, add)
    requires (p.Base? && q.Index?) || (p.Index? && q.Base?)
    ensures var base, use := if p.Base? then p.value else q.value, if p.Base? then q.use else p.use;
      && use.at <= |window| && var bs := BoundsOf(window, use);
      Recognize(window, reg) == if bs == [] then None else
        Some(Dispatch(lw, add, base, Chain(window, use), bs[|bs| - 1],
                      FirstLi(bs, Min(add, Min(Begins(p), Begins(q))))))
  {
    hide LastWriter, PartOf, Chain, Names, Bounds, FirstLi, Shaped, Begins, Min;
  }

  lemma GccIs(window: seq<Insn>, reg: Reg, f: Found)
    requires Gcc(window, reg, f)
    ensures Leaves(window, f.lw, reg, |window|) && window[f.lw].Lw? && window[f.lw].off == 0
    ensures Leaves(window, f.add, window[f.lw].base, f.lw) && window[f.add].Add?
    ensures
      || (Based(window, window[f.add].rs1, f.add, f.base, f.begun) && Scaled(window, window[f.add].rs2, f.add, f.index))
      || (Based(window, window[f.add].rs2, f.add, f.base, f.begun) && Scaled(window, window[f.add].rs1, f.add, f.index))
    ensures Bounding(window, f.index, f.trace, f.at, f.li, f.count)
    ensures forall t, at: nat, li: nat, count :: Bounding(window, f.index, t, at, li, count) ==> at <= f.at
  {
    hide Leaves, Based, Scaled, Bounding;
  }

  /** The operands, as the recognizer takes them. */
  lemma Taken(window: seq<Insn>, f: Found)
    requires f.add < |window| && window[f.add].Add?
    requires
      || (Based(window, window[f.add].rs1, f.add, f.base, f.begun) && Scaled(window, window[f.add].rs2, f.add, f.index))
      || (Based(window, window[f.add].rs2, f.add, f.base, f.begun) && Scaled(window, window[f.add].rs1, f.add, f.index))
    ensures var p, q := PartOf(window, window[f.add].rs1, f.add), PartOf(window, window[f.add].rs2, f.add);
      (p == Base(f.base, f.begun) && q == Index(f.index)) || (q == Base(f.base, f.begun) && p == Index(f.index))
  {
    hide *;
    var a := window[f.add];
    BasedIff(window, a.rs1, f.add, f.base, f.begun);
    BasedIff(window, a.rs2, f.add, f.base, f.begun);
    ScaledIff(window, a.rs1, f.add, f.index);
    ScaledIff(window, a.rs2, f.add, f.index);
  }

  /** What the recognizer makes of the shape. */
  lemma Finds(window: seq<Insn>, reg: Reg, f: Found)
    requires Gcc(window, reg, f)
    ensures Answers(window, reg, f)
  {
    hide *;
    GccIs(window, reg, f);
    LeavesWithin(window, f.lw, reg, |window|);
    LeavesWithin(window, f.add, window[f.lw].base, f.lw);
    LeavesIff(window, f.lw, reg, |window|);
    LeavesIff(window, f.add, window[f.lw].base, f.lw);
    Taken(window, f);
    LastBound(window, f);
    var p, q := PartOf(window, window[f.add].rs1, f.add), PartOf(window, window[f.add].rs2, f.add);
    RecognizeIs(window, reg, f.lw, f.add, p, q);
    var m := Min(f.add, Min(f.begun, f.index.at));
    FirstOf(window, f, m);
    BeginsAt(f, p, q);
    AnswersBy(window, reg, f, FirstLi(BoundsOf(window, f.index), m));
  }

  lemma LeavesWithin(window: seq<Insn>, i: nat, reg: Reg, before: nat)
    requires Leaves(window, i, reg, before)
    ensures i < before <= |window|
  {
  }

  lemma BeginsAt(f: Found, p: Part, q: Part)
    requires (p == Base(f.base, f.begun) && q == Index(f.index)) || (q == Base(f.base, f.begun) && p == Index(f.index))
    ensures Min(f.add, Min(Begins(p), Begins(q))) == Min(f.add, Min(f.begun, f.index.at))
  {
  }

  lemma AnswersBy(window: seq<Insn>, reg: Reg, f: Found, first: nat)
    requires f.index.at <= |window| && BoundsOf(window, f.index) != []
    requires var b := BoundsOf(window, f.index)[|BoundsOf(window, f.index)| - 1];
      b.at == f.at && b.li == f.li && b.count == f.count
      && Recognize(window, reg) == Some(Dispatch(f.lw, f.add, f.base, Chain(window, f.index), b, first))
    requires Earliest(window, f, first)
    ensures Answers(window, reg, f)
  {
    hide Recognize, Chain, BoundsOf, Earliest;
  }

  /** What it went by, when it answers. */
  lemma Parts(window: seq<Insn>, reg: Reg) returns (lw: nat, add: nat)
    requires Recognize(window, reg).Some?
    ensures LastWriter(window, reg, |window|) == Some(lw) && window[lw].Lw? && window[lw].off == 0
    ensures LastWriter(window, window[lw].base, lw) == Some(add) && window[add].Add?
    ensures var p, q := PartOf(window, window[add].rs1, add), PartOf(window, window[add].rs2, add);
      (p.Base? && q.Index?) || (p.Index? && q.Base?)
  {
    hide LastWriter, PartOf, Chain, Names, Bounds, FirstLi, Shaped;
    lw := LastWriter(window, reg, |window|).value;
    add := LastWriter(window, window[lw].base, lw).value;
  }

  lemma LastBounding(window: seq<Insn>, u: Use) returns (t: seq<Use>, last: Bound)
    requires u.at <= |window| && BoundsOf(window, u) != []
    ensures Bounding(window, u, t, last.at, last.li, last.count)
    ensures forall t, at: nat, li: nat, count :: Bounding(window, u, t, at, li, count) ==> at <= last.at
  {
    hide BoundsOf, Bounding, BoundAt;
    last := BoundsOf(window, u)[|BoundsOf(window, u)| - 1];
    t := BoundsHold(window, u, last);
    forall t, at: nat, li: nat, count | Bounding(window, u, t, at, li, count) ensures at <= last.at {
      BoundingIn(window, u, t, at, li, count);
    }
  }

  /** And what it answers is of that shape. */
  lemma IsGcc(window: seq<Insn>, reg: Reg) returns (f: Found)
    requires Recognize(window, reg).Some?
    ensures Gcc(window, reg, f)
  {
    hide *;
    var lw, add := Parts(window, reg);
    LeavesIff(window, lw, reg, |window|);
    LeavesIff(window, add, window[lw].base, lw);
    var x, y := window[add].rs1, window[add].rs2;
    var p, q := PartOf(window, x, add), PartOf(window, y, add);
    RecognizeIs(window, reg, lw, add, p, q);
    var src, isrc := if p.Base? then x else y, if p.Base? then y else x;
    var b, u := PartOf(window, src, add), PartOf(window, isrc, add).use;
    BasedIff(window, src, add, b.value, b.first);
    ScaledIff(window, isrc, add, u);
    var t, last := LastBounding(window, u);
    f := Found(lw, add, b.value, b.first, u, t, last.at, last.li, last.count);
    IsShape(window, reg, f);
  }

  lemma IsShape(window: seq<Insn>, reg: Reg, f: Found)
    requires Leaves(window, f.lw, reg, |window|) && window[f.lw].Lw? && window[f.lw].off == 0
    requires Leaves(window, f.add, window[f.lw].base, f.lw) && window[f.add].Add?
    requires
      || (Based(window, window[f.add].rs1, f.add, f.base, f.begun) && Scaled(window, window[f.add].rs2, f.add, f.index))
      || (Based(window, window[f.add].rs2, f.add, f.base, f.begun) && Scaled(window, window[f.add].rs1, f.add, f.index))
    requires Bounding(window, f.index, f.trace, f.at, f.li, f.count)
    requires forall t, at: nat, li: nat, count :: Bounding(window, f.index, t, at, li, count) ==> at <= f.at
    ensures Gcc(window, reg, f)
  {
    hide Leaves, Based, Scaled, Bounding;
  }

  /**
   The recognizer answers exactly the dispatches of gcc's shape: with the shape's base, its
   last compare's count, and the earliest instruction it all rests on.
  */
  lemma RecognizeIff(window: seq<Insn>, reg: Reg)
    ensures Recognize(window, reg).Some? <==> exists f :: Gcc(window, reg, f)
    ensures forall f :: Gcc(window, reg, f) ==> Answers(window, reg, f)
  {
    hide Gcc, Recognize;
    if Recognize(window, reg).Some? {
      var f := IsGcc(window, reg);
    }
    forall f | Gcc(window, reg, f) ensures Answers(window, reg, f) {
      Finds(window, reg, f);
    }
  }

  // ---- the table -------------------------------------------------------------------------

  /** The words at the base, as many as the compare lets through; with none let through,
      none - where the image holds the base. */
  ghost predicate Words(image: Image, base: int, count: int, ws: seq<nat>) {
    && base >= 0 && base in image && |ws| == (if count < 0 then 0 else count)
    && forall i :: 0 <= i < |ws| ==> base + 4 * i in image && ws[i] == image[base + 4 * i]
  }

  lemma ReadWordsIff(image: Image, base: int, count: int, ws: seq<nat>)
    ensures ReadWords(image, base, count) == Some(ws) <==> Words(image, base, count, ws)
  {
    if count > 0 {
      assert base + 4 * 0 == base;
    }
    if Words(image, base, count, ws) {
      assert forall i :: 0 <= i < count ==> base + 4 * i in image;
      assert ReadWords(image, base, count).Some?;
      assert ReadWords(image, base, count).value == ws;
    }
  }

  /** No transfer of the function that names an address lands past `lo`, up to `hi`. */
  ghost predicate NoneLands(lines: seq<Line>, lo: nat, hi: nat) {
    forall i :: 0 <= i < |lines| && ResolvedTarget(lines[i].insn).To? ==>
      !(lo < ResolvedTarget(lines[i].insn).addr <= hi)
  }

  /** The shape, with nothing landing behind the earliest of what it rests on, and the words
      its base and count give addresses of the function. */
  ghost predicate Dispatched(image: Image, lines: seq<Line>, k: nat, start: nat, end: nat, w: seq<Insn>, ws: seq<nat>,
                             f: Found, first: nat)
    requires k < |lines| && lines[k].insn.JumpReg? && |w| <= k
  {
    && Gcc(w, lines[k].insn.rs, f) && Earliest(w, f, first) && first < |w|
    && NoneLands(lines, lines[k - |w| + first].addr, lines[k].addr)
    && Words(image, f.base, f.count, ws) && forall x :: x in ws ==> start <= x < end
  }

  lemma OneEarliest(window: seq<Insn>, f: Found, a: nat, b: nat)
    requires Earliest(window, f, a) && Earliest(window, f, b)
    ensures a == b
  {
    hide Bounding;
  }

  lemma TableIs(image: Image, lines: seq<Line>, k: nat, start: nat, end: nat, w: seq<Insn>, d: Dispatch, ws: seq<nat>)
    requires k < |lines| && lines[k].insn.JumpReg? && w == Window(lines, k)
    requires Recognize(w, lines[k].insn.rs) == Some(d)
    ensures d.first < |w| && |w| <= k
    ensures TableOf(image, lines, k, start, end) == Some(ws) <==>
      && NoneLands(lines, lines[k - |w| + d.first].addr, lines[k].addr)
      && Words(image, d.base, d.bound.count, ws) && forall x :: x in ws ==> start <= x < end
  {
    ReadWordsIff(image, d.base, d.bound.count, ws);
    hide Recognize, ReadWords, Words, ResolvedTarget, Shaped;
  }

  /**
   A table is answered exactly where the sixteen instructions before the jr - fewer at the
   function's head - are of gcc's shape, no transfer of the function that names an address
   lands behind the earliest of what the shape rests on, up to the jr, and the words the
   base and the count give are addresses of the function.
  */
  lemma TableIff(image: Image, lines: seq<Line>, k: nat, start: nat, end: nat, w: seq<Insn>, ws: seq<nat>)
    requires k < |lines| && lines[k].insn.JumpReg?
    requires |w| == (if k < 16 then k else 16) && forall j :: 0 <= j < |w| ==> w[j] == lines[k - |w| + j].insn
    ensures TableOf(image, lines, k, start, end) == Some(ws) <==>
      exists f, first: nat :: Dispatched(image, lines, k, start, end, w, ws, f, first)
  {
    hide *;
    SameWindow(lines, k, w);
    if TableOf(image, lines, k, start, end) == Some(ws) {
      var f, first := TableThen(image, lines, k, start, end, w, ws);
    }
    if f, first: nat :| Dispatched(image, lines, k, start, end, w, ws, f, first) {
      ThenTable(image, lines, k, start, end, w, ws, f, first);
    }
  }

  lemma SameWindow(lines: seq<Line>, k: nat, w: seq<Insn>)
    requires k < |lines|
    requires |w| == (if k < 16 then k else 16) && forall j :: 0 <= j < |w| ==> w[j] == lines[k - |w| + j].insn
    ensures w == Window(lines, k) && |w| <= k
  {
  }

  lemma TableThen(image: Image, lines: seq<Line>, k: nat, start: nat, end: nat, w: seq<Insn>, ws: seq<nat>)
    returns (f: Found, first: nat)
    requires k < |lines| && lines[k].insn.JumpReg? && w == Window(lines, k) && |w| <= k
    requires TableOf(image, lines, k, start, end) == Some(ws)
    ensures Dispatched(image, lines, k, start, end, w, ws, f, first)
  {
    hide *;
    var reg := lines[k].insn.rs;
    TableRecognized(image, lines, k, start, end);
    var d := Recognize(w, reg).value;
    first := d.first;
    f := IsGcc(w, reg);
    TableIs(image, lines, k, start, end, w, d, ws);
    Finds(w, reg, f);
    AnswersIs(w, reg, f, d);
    DispatchedIs(image, lines, k, start, end, w, ws, f, first);
  }

  lemma ThenTable(image: Image, lines: seq<Line>, k: nat, start: nat, end: nat, w: seq<Insn>, ws: seq<nat>,
                  f: Found, first: nat)
    requires k < |lines| && lines[k].insn.JumpReg? && w == Window(lines, k) && |w| <= k
    requires Dispatched(image, lines, k, start, end, w, ws, f, first)
    ensures TableOf(image, lines, k, start, end) == Some(ws)
  {
    hide *;
    var reg := lines[k].insn.rs;
    IsDispatched(image, lines, k, start, end, w, ws, f, first);
    Finds(w, reg, f);
    AnswersSome(w, reg, f);
    var d := Recognize(w, reg).value;
    AnswersIs(w, reg, f, d);
    OneEarliest(w, f, first, d.first);
    TableIs(image, lines, k, start, end, w, d, ws);
  }

  lemma TableRecognized(image: Image, lines: seq<Line>, k: nat, start: nat, end: nat)
    requires k < |lines| && lines[k].insn.JumpReg? && TableOf(image, lines, k, start, end).Some?
    ensures Recognize(Window(lines, k), lines[k].insn.rs).Some?
  {
    hide Recognize, ReadWords, Lands;
  }

  lemma AnswersSome(w: seq<Insn>, reg: Reg, f: Found)
    requires Answers(w, reg, f)
    ensures Recognize(w, reg).Some?
  {
    hide Recognize;
  }

  lemma AnswersIs(w: seq<Insn>, reg: Reg, f: Found, d: Dispatch)
    requires Answers(w, reg, f) && Recognize(w, reg) == Some(d)
    ensures d.base == f.base && d.bound.count == f.count && Earliest(w, f, d.first)
  {
    hide Recognize, Earliest;
  }

  lemma DispatchedIs(image: Image, lines: seq<Line>, k: nat, start: nat, end: nat, w: seq<Insn>, ws: seq<nat>,
                     f: Found, first: nat)
    requires k < |lines| && lines[k].insn.JumpReg? && |w| <= k && first < |w|
    requires Gcc(w, lines[k].insn.rs, f) && Earliest(w, f, first)
    requires NoneLands(lines, lines[k - |w| + first].addr, lines[k].addr)
    requires Words(image, f.base, f.count, ws) && forall x :: x in ws ==> start <= x < end
    ensures Dispatched(image, lines, k, start, end, w, ws, f, first)
  {
    hide Gcc, Earliest, NoneLands, Words;
  }

  lemma IsDispatched(image: Image, lines: seq<Line>, k: nat, start: nat, end: nat, w: seq<Insn>, ws: seq<nat>,
                     f: Found, first: nat)
    requires k < |lines| && lines[k].insn.JumpReg? && |w| <= k
    requires Dispatched(image, lines, k, start, end, w, ws, f, first)
    ensures first < |w| && Gcc(w, lines[k].insn.rs, f) && Earliest(w, f, first)
    ensures NoneLands(lines, lines[k - |w| + first].addr, lines[k].addr)
    ensures Words(image, f.base, f.count, ws) && forall x :: x in ws ==> start <= x < end
  {
    hide Gcc, Earliest, NoneLands, Words;
  }

  // ---- gcc's own -------------------------------------------------------------------------

  /** The dispatch gcc writes for a table anywhere in the image. */
  function Ordinary(last: int, page: nat, low: int, base: nat): seq<Insn> {
    [Li("a4", last), Bltu("a4", "a0", Some(0x100)), Slli("a0", "a0", 2), Lui("a5", page),
     Addi("a5", "a5", low, Some(base)), Add("a5", "a5", "a0"), Lw("a5", 0, "a5")]
  }

  lemma OrdinaryOnes(last: int, page: nat, low: int, base: nat)
    ensures var w, u := Ordinary(last, page, low, base), Use("a0", 2);
      && Leaves(w, 6, "a5", 7) && Leaves(w, 5, "a5", 6) && Leaves(w, 4, "a5", 5) && Leaves(w, 0, "a4", 1)
      && Scaled(w, "a0", 5, u) && Traces(w, u, [u])
  {
  }

  lemma OrdinaryCompares(last: int, page: nat, low: int, base: nat)
    ensures var w, u := Ordinary(last, page, low, base), Use("a0", 2);
      && Bounding(w, u, [u], 1, 0, last + 1)
      && forall t, at: nat, li: nat, count :: Bounding(w, u, t, at, li, count) ==> at <= 1
  {
    OrdinaryOnes(last, page, low, base);
    hide Leaves, Traces, Scaled, Writer;
  }

  /** It is recognized, at its symbol and one more entry than its last index. */
  lemma OrdinaryFound(last: int, page: nat, low: int, base: nat)
    ensures var d := Recognize(Ordinary(last, page, low, base), "a5");
      d.Some? && d.value.base == base && d.value.bound.count == last + 1 && d.value.first == 0
  {
    var w, u := Ordinary(last, page, low, base), Use("a0", 2);
    var f := Found(6, 5, base, 4, u, [u], 1, 0, last + 1);
    OrdinaryOnes(last, page, low, base);
    OrdinaryCompares(last, page, low, base);
    hide Leaves, Traces, Bounding, Scaled, Recognize, Writer, Earliest;
    assert Based(w, "a5", 5, base, 4) by {
      assert Leaves(w, 4, "a5", 5);
    }
    IsShape(w, "a5", f);
    Finds(w, "a5", f);
    FirstAtLi(w, f, Recognize(w, "a5").value.first);
  }

  lemma FirstAtLi(w: seq<Insn>, f: Found, first: nat)
    requires Earliest(w, f, first) && Bounding(w, f.index, f.trace, f.at, f.li, f.count)
    ensures first <= f.li
  {
    hide Bounding;
  }
}

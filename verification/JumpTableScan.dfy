/**
 jump_table as it runs (cli/vector_guard.py:171-264): the backward scan, the
 narrowing loop and the loop over the window's compares, each meeting the function
 that JumpTableMachine proves sound.
*/
module JumpTableScan {
  import opened Basics
  import opened Listing
  import opened JumpTable

  method FindLastWriter(window: seq<Insn>, reg: Reg, before: nat) returns (w: Option<nat>)
    requires before <= |window|
    ensures w == LastWriter(window, reg, before)
  {
    var i := before;
    while i > 0
      invariant 0 <= i <= before && LastWriter(window, reg, before) == LastWriter(window, reg, i)
    {
      i := i - 1;
      if window[i].Undecoded? {
        return None;
      }
      if Writes(window[i]) == Some(reg) {
        return Some(i);
      }
    }
    return None;
  }

  lemma NamesSnoc(chain: seq<Use>, u: Use)
    ensures Names(chain + [u]) == Names(chain) + {u.reg}
  {
    var c := chain + [u];
    assert forall j :: 0 <= j < |chain| ==> c[j] == chain[j];
    assert c[|chain|] == u;
  }

  /** The loop that follows the index back, collecting the registers on its way. */
  method NarrowedNames(window: seq<Insn>, use: Use) returns (names: set<Reg>)
    requires use.at <= |window|
    ensures names == Names(Chain(window, use))
  {
    hide LastWriter, Chained, Linked, Names;
    var index := use;
    ghost var walked: seq<Use> := [];
    names := {index.reg};
    NamesSnoc([], index);
    NamesNone();
    assert [] + Chain(window, use) == Chain(window, use) && [] + [index] == [index];
    while true
      invariant index.at <= |window| && Chain(window, use) == walked + Chain(window, index)
      invariant names == Names(walked + [index])
      decreases index.at
    {
      var w := FindLastWriter(window, index.reg, index.at);
      if w.None? || NarrowedFrom(window[w.value]).None? {
        break;
      }
      walked := walked + [index];
      index := Use(NarrowedFrom(window[w.value]).value, w.value);
      NamesSnoc(walked, index);
      names := names + {index.reg};
    }
  }

  lemma NamesNone()
    ensures Names([]) == {}
  {
  }

  lemma FirstLiSnoc(bs: seq<Bound>, b: Bound, first: nat)
    ensures FirstLi(bs + [b], first) == Min(FirstLi(bs, first), b.li)
  {
    assert (bs + [b])[..|bs|] == bs;
    FirstLiMin(bs, first, b.li);
  }

  lemma {:induction false} FirstLiMin(bs: seq<Bound>, first: nat, li: nat)
    ensures FirstLi(bs, Min(first, li)) == Min(FirstLi(bs, first), li)
    decreases |bs|
  {
    if bs != [] {
      var b := bs[|bs| - 1];
      assert Min(Min(first, li), b.li) == Min(Min(first, b.li), li);
      FirstLiMin(bs[..|bs| - 1], Min(first, b.li), li);
    }
  }

  /** The last compare's count, and where the earliest of what it takes begins. */
  method Compares(window: seq<Insn>, names: set<Reg>, begins: nat) returns (bound: Option<Bound>, first: nat)
    ensures var bs := Bounds(window, names, |window|);
      && bound == (if bs == [] then None else Some(bs[|bs| - 1])) && first == FirstLi(bs, begins)
  {
    hide *;
    bound, first := None, begins;
    FirstLiNone(begins);
    NoBounds(window, names);
    ghost var bs: seq<Bound> := [];
    var i := 0;
    while i < |window|
      invariant i <= |window| && bs == Bounds(window, names, i) && first == FirstLi(bs, begins)
      invariant bound == if bs == [] then None else Some(bs[|bs| - 1])
    {
      var b := BoundAt(window, names, i);
      NextBounds(window, names, i);
      if b.Some? {
        FirstLiSnoc(bs, b.value, begins);
        bs := bs + [b.value];
        bound, first := b, Min(first, b.value.li);
      }
      i := i + 1;
    }
  }

  lemma NoBounds(window: seq<Insn>, names: set<Reg>)
    ensures Bounds(window, names, 0) == []
  {
  }

  lemma NextBounds(window: seq<Insn>, names: set<Reg>, i: nat)
    requires i < |window|
    ensures var b := BoundAt(window, names, i);
      Bounds(window, names, i + 1) == Bounds(window, names, i) + if b.Some? then [b.value] else []
  {
    hide BoundAt;
  }

  lemma FirstLiNone(first: nat)
    ensures FirstLi([], first) == first
  {
  }

  /** The dispatch behind a register jumped through. */
  method FindDispatch(window: seq<Insn>, reg: Reg) returns (d: Option<Dispatch>)
    ensures d == Recognize(window, reg)
  {
    hide Shaped, LastWriter, PartOf, Chain, Names, Bounds, FirstLi, Min;
    var lw := FindLastWriter(window, reg, |window|);
    if lw.None? || !window[lw.value].Lw? || window[lw.value].off != 0 {
      return None;
    }
    var add := FindLastWriter(window, window[lw.value].base, lw.value);
    if add.None? || !window[add.value].Add? {
      return None;
    }
    var p, q := PartOf(window, window[add.value].rs1, add.value), PartOf(window, window[add.value].rs2, add.value);
    if !((p.Base? && q.Index?) || (p.Index? && q.Base?)) {
      return None;
    }
    var base, use := if p.Base? then (p.value) else q.value, if p.Base? then q.use else p.use;
    var names := NarrowedNames(window, use);
    var bound, first := Compares(window, names, Min(add.value, Min(Begins(p), Begins(q))));
    if bound.None? {
      return None;
    }
    return Some(Dispatch(lw.value, add.value, base, Chain(window, use), bound.value, first));
  }

  /** The whole of jump_table. */
  method ReadTable(image: Image, lines: seq<Line>, k: nat, start: nat, end: nat) returns (table: Option<seq<nat>>)
    requires k < |lines| && lines[k].insn.JumpReg?
    ensures table == TableOf(image, lines, k, start, end)
  {
    hide Shaped, Recognize, ReadWords, ResolvedTarget;
    var window := Window(lines, k);
    var d := FindDispatch(window, lines[k].insn.rs);
    if d.None? {
      return None;
    }
    var base, bound, first := d.value.base, d.value.bound, d.value.first;
    var lo, hi, i := lines[WindowStart(k) + first].addr, lines[k].addr, 0;
    while i < |lines|
      invariant i <= |lines|
      invariant forall j :: 0 <= j < i ==>
        !(ResolvedTarget(lines[j].insn).To? && lo < ResolvedTarget(lines[j].insn).addr <= hi)
    {
      var t := ResolvedTarget(lines[i].insn);
      if t.To? && lo < t.addr <= hi {
        return None;
      }
      i := i + 1;
    }
    var ws := ReadWords(image, base, bound.count);
    if ws.None? || exists w :: w in ws.value && !(start <= w < end) {
      return None;
    }
    return ws;
  }
}

/**
 What TableSound asks of the window beyond the recognizer's own tests, and why: each of
 its three conditions, dropped alone, lets a run that falls through it jump outside the
 table that was accepted. The two ways past the window's beginning are WindowGaps'.
*/
module JumpTableGaps {
  import opened Basics
  import opened Listing
  import opened JumpTable
  import opened JumpTableMachine

  /** gcc's dispatch over `bound + 1` entries, with one instruction after the compare. */
  function Window7(bound: int, after: Insn): seq<Insn> {
    [Li("a4", bound), Bltu("a4", "a0", Some(0x200)), after, Slli("a0", "a0", 2),
     Li("a5", 0x400), Add("a5", "a5", "a0"), Lw("a5", 0, "a5")]
  }

  function Code(bound: int, after: Insn): seq<Line> {
    [Line(0x100, Li("a4", bound)), Line(0x104, Bltu("a4", "a0", Some(0x200))), Line(0x108, after),
     Line(0x10C, Slli("a0", "a0", 2)), Line(0x110, Li("a5", 0x400)), Line(0x114, Add("a5", "a5", "a0")),
     Line(0x118, Lw("a5", 0, "a5")), Line(0x11C, JumpReg("a5", None))]
  }

  /** Four entries inside the function, and another word that happens to follow them. */
  const IMAGE: Image := map[0x400 := 0x140, 0x404 := 0x144, 0x408 := 0x148, 0x40C := 0x14C, 0x41C := 0x900]

  function Holds(a0: nat, a4: nat, a5: nat): Regs {
    (x: Reg) => if x == "a0" then a0 else if x == "a4" then a4 else if x == "a5" then a5 else if x == "a1" then 7 else 0
  }

  /** The index is 7 where the slli reads it, `was` where the compare did. */
  function Run7(k: nat, was: nat): seq<Regs> {
    [Holds(was, 0, 0), Holds(was, k, 0), Holds(was, k, 0), Holds(7, k, 0), Holds(28, k, 0),
     Holds(28, k, 0x400), Holds(28, k, 0x41C), Holds(28, k, 0x900)]
  }

  /** What may stand behind the compare: nothing of note, a sum over the index, a call. */
  predicate Behind(after: Insn) {
    after in {Mv("t0", "t1"), Add("a0", "a0", "a1"), Call("ra", Some(0x300))}
  }

  lemma Writers(bound: int, after: Insn)
    requires Behind(after)
    ensures var w := Window7(bound, after);
      && LastWriter(w, "a5", 7) == Some(6) && LastWriter(w, "a5", 6) == Some(5)
      && LastWriter(w, "a5", 5) == Some(4) && LastWriter(w, "a0", 5) == Some(3)
      && LastWriter(w, "a4", 1) == Some(0)
      && LastWriter(w, "a0", 3) == if after.Add? then Some(2) else None
  {
    var w := Window7(bound, after);
    LastWriterIff(w, "a5", 7, 6);
    LastWriterIff(w, "a5", 6, 5);
    LastWriterIff(w, "a5", 5, 4);
    LastWriterIff(w, "a0", 5, 3);
    LastWriterIff(w, "a4", 1, 0);
    hide LastWriter;
    WritersAt(bound, after);
    if LastWriter(w, "a0", 3).Some? {
      LastWriterIff(w, "a0", 3, LastWriter(w, "a0", 3).value);
    }
    if after.Add? {
      LastWriterIff(w, "a0", 3, 2);
    }
    hide Writes, Window7;
  }

  /** What each instruction writes. */
  lemma WritersAt(bound: int, after: Insn)
    requires Behind(after)
    ensures var w := Window7(bound, after);
      && |w| == 7 && Writes(w[0]) == Some("a4") && Writes(w[1]) == None && Writes(w[3]) == Some("a0")
      && Writes(w[4]) == Writes(w[5]) == Writes(w[6]) == Some("a5")
      && (Writes(w[2]) == Some("a0") <==> after.Add?) && Writes(w[2]) != Some("a5") && Writes(w[2]) != Some("a4")
      && forall k :: 0 <= k < 7 ==> !w[k].Undecoded?
  {
  }

  function Found(bound: int): Dispatch {
    Dispatch(6, 5, 0x400, [Use("a0", 3)], Bound(1, "a0", bound + 1, 0), 0)
  }

  /** A window whose one compare is its second instruction has that one bound. */
  lemma {:induction false} OnlySecond(w: seq<Insn>, names: set<Reg>, b: Bound, n: nat)
    requires 2 <= n <= |w| && BoundAt(w, names, 1) == Some(b)
    requires forall k :: 0 <= k < n && k != 1 ==> !w[k].Bltu? && !w[k].Bgeu?
    ensures Bounds(w, names, n) == [b]
    decreases n
  {
    hide LoadedBound;
    if n == 2 {
      assert Bounds(w, names, 0) == Bounds(w, names, 1) == [];
    } else {
      OnlySecond(w, names, b, n - 1);
    }
  }

  lemma OneCompare(bound: int, after: Insn)
    requires Behind(after)
    ensures Bounds(Window7(bound, after), {"a0"}, 7) == [Found(bound).bound]
  {
    var w := Window7(bound, after);
    hide LastWriter, Bounds;
    Writers(bound, after);
    assert BoundAt(w, {"a0"}, 1) == Some(Found(bound).bound);
    OnlySecond(w, {"a0"}, Found(bound).bound, 7);
  }

  lemma Recognized(bound: int, after: Insn)
    requires Behind(after)
    ensures Recognize(Window7(bound, after), "a5") == Some(Found(bound))
  {
    var w := Window7(bound, after);
    hide LastWriter, Bounds, Shaped, Window7, BoundAt, PartOf, Chain, Names, FirstLi, Chained, Behind, Writes;
    Writers(bound, after);
    OneCompare(bound, after);
    Seven(bound, after);
    Parts(bound, after);
    FirstOf(bound);
  }

  /** What the add's operands are, and where the index comes from. */
  lemma Parts(bound: int, after: Insn)
    requires Behind(after)
    ensures var w, c := Window7(bound, after), [Use("a0", 3)];
      && |w| == 7 && PartOf(w, "a5", 5) == Base(0x400, 4) && PartOf(w, "a0", 5) == Index(c[0])
      && Chain(w, c[0]) == c && Names(c) == {"a0"}
  {
    hide LastWriter, Bounds, Shaped, Window7, BoundAt;
    Writers(bound, after);
    Seven(bound, after);
    var w, c := Window7(bound, after), [Use("a0", 3)];
    assert c[0].reg in Names(c);
  }

  /** The window's second half. */
  lemma Seven(bound: int, after: Insn)
    ensures var w := Window7(bound, after);
      && |w| == 7 && w[2] == after && w[3] == Slli("a0", "a0", 2) && w[4] == Li("a5", 0x400)
      && w[5] == Add("a5", "a5", "a0") && w[6] == Lw("a5", 0, "a5")
  {
  }

  lemma FirstOf(bound: int)
    ensures FirstLi([Found(bound).bound], 3) == 0
  {
    var bs := [Found(bound).bound];
    assert bs[..0] == [];
  }

  /** The table of four entries, or of none. */
  function Table(bound: int): seq<nat> {
    if bound == 3 then [0x140, 0x144, 0x148, 0x14C] else []
  }

  lemma Accepted(bound: int, after: Insn)
    requires Behind(after) && (bound == 3 || bound == -1)
    ensures TableOf(IMAGE, Code(bound, after), 7, 0x100, 0x300) == Some(Table(bound))
  {
    hide Recognize, Window, Window7, Lands, ReadWords, Shaped, TableOf;
    SameWindow(bound, after);
    Recognized(bound, after);
    NothingLands(bound, after);
    Words(bound);
    TableIs(IMAGE, Code(bound, after), 7, 0x100, 0x300, Found(bound), Table(bound));
  }

  lemma TableIs(image: Image, lines: seq<Line>, k: nat, start: nat, end: nat, d: Dispatch, ws: seq<nat>)
    requires k < |lines| && lines[k].insn.JumpReg? && Recognize(Window(lines, k), lines[k].insn.rs) == Some(d)
    requires !Lands(lines, lines[WindowStart(k) + d.first].addr, lines[k].addr)
    requires ReadWords(image, d.base, d.bound.count) == Some(ws) && forall w :: w in ws ==> start <= w < end
    ensures TableOf(image, lines, k, start, end) == Some(ws)
  {
    hide Recognize, Window, Lands, ReadWords, Shaped;
  }

  lemma SameWindow(bound: int, after: Insn)
    ensures Window(Code(bound, after), 7) == Window7(bound, after)
  {
  }

  lemma NothingLands(bound: int, after: Insn)
    requires Behind(after)
    ensures !Lands(Code(bound, after), 0x100, 0x11C)
  {
    var lines := Code(bound, after);
    assert ResolvedTarget(lines[1].insn) == To(0x200);
    assert !ResolvedTarget(lines[2].insn).To? || ResolvedTarget(lines[2].insn) == To(0x300);
    assert ResolvedTarget(lines[7].insn) == Indirect;
  }

  lemma Words(bound: int)
    requires bound == 3 || bound == -1
    ensures ReadWords(IMAGE, 0x400, bound + 1) == Some(Table(bound))
  {
    if bound == 3 {
      var ws := ReadWords(IMAGE, 0x400, 4).value;
      assert 0x400 + 4 * 0 in IMAGE && 0x400 + 4 * 1 in IMAGE && 0x400 + 4 * 2 in IMAGE && 0x400 + 4 * 3 in IMAGE;
      assert ws == [0x140, 0x144, 0x148, 0x14C];
    }
  }

  lemma Reads(a0: nat, a4: nat, a5: nat)
    ensures var h := Holds(a0, a4, a5); h("a0") == a0 && h("a4") == a4 && h("a5") == a5 && h("a1") == 7
  {
  }

  lemma Moves(a0: nat, a4: nat, a5: nat, v: nat)
    ensures SameBut(Holds(a0, a4, a5), Holds(v, a4, a5), "a0")
    ensures SameBut(Holds(a0, a4, a5), Holds(a0, v, a5), "a4")
    ensures SameBut(Holds(a0, a4, a5), Holds(a0, a4, v), "a5")
  {
  }

  lemma FirstTwo(bound: int, was: nat)
    requires bound >= -1 && Wrap(bound) >= was
    ensures Falls(IMAGE, Li("a4", bound), Holds(was, 0, 0), Holds(was, Wrap(bound), 0))
    ensures Falls(IMAGE, Bltu("a4", "a0", Some(0x200)), Holds(was, Wrap(bound), 0), Holds(was, Wrap(bound), 0))
  {
    hide Wrap, Holds;
    Reads(was, Wrap(bound), 0);
    Moves(was, 0, 0, Wrap(bound));
  }

  lemma Others(was: nat, k: nat)
    ensures Holds(was, k, 0)("t0") == Holds(was, k, 0)("t1") == 0
  {
  }

  lemma BehindFalls(after: Insn, k: nat, was: nat)
    requires Behind(after) && (after.Mv? ==> was == 7) && (after.Add? ==> was == 0)
    ensures Falls(IMAGE, after, Holds(was, k, 0), if after.Mv? then Holds(was, k, 0) else Holds(7, k, 0))
  {
    hide Holds;
    Reads(was, k, 0);
    Reads(7, k, 0);
    Moves(was, k, 0, 7);
    Others(was, k);
  }

  lemma Scales(k: nat)
    ensures Falls(IMAGE, Slli("a0", "a0", 2), Holds(7, k, 0), Holds(28, k, 0))
    ensures Falls(IMAGE, Li("a5", 0x400), Holds(28, k, 0), Holds(28, k, 0x400))
  {
    hide Holds;
    Reads(7, k, 0);
    Reads(28, k, 0);
    Reads(28, k, 0x400);
    Moves(7, k, 0, 28);
    Moves(28, k, 0, 0x400);
  }

  lemma Loads(k: nat)
    ensures Falls(IMAGE, Add("a5", "a5", "a0"), Holds(28, k, 0x400), Holds(28, k, 0x41C))
    ensures Falls(IMAGE, Lw("a5", 0, "a5"), Holds(28, k, 0x41C), Holds(28, k, 0x900))
  {
    hide Holds;
    Reads(28, k, 0x400);
    Reads(28, k, 0x41C);
    Reads(28, k, 0x900);
    Moves(28, k, 0x400, 0x41C);
    Moves(28, k, 0x41C, 0x900);
  }

  /** The run falls through every instruction of the window. */
  lemma Runs(bound: int, after: Insn, was: nat)
    requires Behind(after) && bound >= -1 && Wrap(bound) >= was && (after.Mv? ==> was == 7)
    requires after.Add? ==> was == 0
    ensures FallsThrough(IMAGE, Window7(bound, after), 0, Run7(Wrap(bound), was))
  {
    hide Falls, Wrap, Holds;
    FirstTwo(bound, was);
    BehindFalls(after, Wrap(bound), was);
    Scales(Wrap(bound));
    Loads(Wrap(bound));
    var w, run := Window7(bound, after), Run7(Wrap(bound), was);
    forall j | 0 <= j < 7 ensures Falls(IMAGE, w[j], run[j], run[j + 1]) {
    }
  }

  /** An index the compare let pass, a sum or a call behind it, or a compare against a
      constant that is not small but negative: the table is accepted, the run leaves it. */
  lemma EachConditionMatters(bound: int, after: Insn)
    requires Behind(after) && (if after.Mv? then bound == -1 else bound == 3)
    ensures var w, was := Window7(bound, after), if after.Mv? then 7 else 0;
      && TableOf(IMAGE, Code(bound, after), 7, 0x100, 0x300) == Some(Table(bound))
      && Recognize(w, "a5") == Some(Found(bound))
      && FallsThrough(IMAGE, w, 0, Run7(Wrap(bound), was)) && Run7(Wrap(bound), was)[7]("a5") !in Table(bound)
      && (NoCalls(w, 0) <==> !after.Call?) && (Watched(w, Found(bound)) <==> !after.Add?)
      && (w[Found(bound).bound.li].imm >= 0 <==> !after.Mv?)
  {
    hide *;
    var was := if after.Mv? then 7 else 0;
    Least(bound, after, was);
    Accepted(bound, after);
    Recognized(bound, after);
    Runs(bound, after, was);
    WatchedOrNot(bound, after);
    CallsOrNot(bound, after);
    Strays(bound, was);
  }

  lemma WatchedOrNot(bound: int, after: Insn)
    requires Behind(after)
    ensures Watched(Window7(bound, after), Found(bound)) <==> !after.Add?
  {
    var w, d := Window7(bound, after), Found(bound);
    assert Unwritten(w, 0, d.bound, d.chain[0]) <==> !after.Add? by {
      assert after.Add? ==> Writes(w[2]) == Some("a0");
    }
  }

  lemma Least(bound: int, after: Insn, was: nat)
    requires Behind(after) && (if after.Mv? then bound == -1 else bound == 3) && was == if after.Mv? then 7 else 0
    ensures Wrap(bound) >= was
  {
  }

  lemma CallsOrNot(bound: int, after: Insn)
    requires Behind(after)
    ensures var w := Window7(bound, after);
      && |w| == 7 && Found(bound).bound.li == 0 && w[0] == Li("a4", bound) && (NoCalls(w, 0) <==> !after.Call?)
  {
    var w := Window7(bound, after);
    assert w[2] == after;
  }

  /** The run ends at a word of no table. */
  lemma Strays(bound: int, was: nat)
    requires bound == 3 || bound == -1
    ensures |Run7(Wrap(bound), was)| == 8 && Run7(Wrap(bound), was)[7]("a5") !in Table(bound)
  {
    Reads(28, Wrap(bound), 0x900);
    hide Holds, Wrap;
  }
}

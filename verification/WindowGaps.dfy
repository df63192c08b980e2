/**
 The two ways into the middle of a dispatch that the recognizer does not look at, each
 with a program the walk passes and a run that jumps through a table to no word of it:
 a word of the table itself, and a transfer of another function. With neither the same
 dispatch is sheltered.
*/
module WindowGaps {
  import opened Basics
  import opened Listing
  import opened JumpTable
  import opened JumpTableMachine
  import opened CallGraph
  import opened Machine
  import Gaps = JumpTableGaps

  /** gcc's dispatch over four entries. */
  const LINES: seq<Line> := Gaps.Code(3, Mv("t0", "t1"))

  const JR := Pos(0x100, 7)

  function St(p: Pos, a0: nat, a4: nat, a5: nat): Cpu {
    Cpu(p, Gaps.Holds(a0, a4, a5), [])
  }

  // ---- what any program around that dispatch shares -------------------------------------

  /** The dispatch is the function at 0x100, and its table is read. */
  ghost predicate Around(c: Code, ws: seq<nat>) {
    && 0x100 in c.funcs && c.funcs[0x100] == Func(0x300, LINES)
    && ReadWords(c.image, 0x400, 4) == Some(ws) && forall w :: w in ws ==> 0x100 <= w < 0x300
  }

  lemma TableIs(c: Code, ws: seq<nat>)
    requires Around(c, ws)
    ensures Dispatches(c, JR) && TableAt(c, JR) == Some(ws)
    ensures WindowAt(c, JR) == Gaps.Window7(3, Mv("t0", "t1")) && DispatchAt(c, JR) == Gaps.Found(3)
  {
    hide Recognize, Window, Lands, ReadWords, Shaped, TableOf, Gaps.Window7;
    Gaps.SameWindow(3, Mv("t0", "t1"));
    Gaps.Recognized(3, Mv("t0", "t1"));
    Gaps.NothingLands(3, Mv("t0", "t1"));
    Gaps.TableIs(c.image, LINES, 7, 0x100, 0x300, Gaps.Found(3), ws);
  }

  /** Every condition on the window itself holds. */
  lemma IsSound(c: Code, ws: seq<nat>)
    requires Around(c, ws)
    ensures Dispatches(c, JR) && Sound(WindowAt(c, JR), DispatchAt(c, JR)) && FirstAt(c, JR) == 0
    ensures forall a :: AddrBehind(c, JR, a) <==> 0x100 < a <= 0x11C
  {
    TableIs(c, ws);
    hide Recognize, Window, TableOf, NoCalls, Watched;
    Gaps.WatchedOrNot(3, Mv("t0", "t1"));
    Gaps.CallsOrNot(3, Mv("t0", "t1"));
  }

  /** What each instruction is to the walk. */
  lemma Kinds(k: nat)
    requires k < 8
    ensures |LINES| == 8 && FpFault(LINES[k].insn).None? && !LINES[k].insn.CallReg?
    ensures if k == 7 then LINES[k].insn == JumpReg("a5", None) else !LINES[k].insn.JumpReg?
    ensures k != 7 ==> ResolvedTarget(LINES[k].insn) == if k == 1 then To(0x200) else No
  {
  }

  /** The jr is the only dispatch. */
  lemma OnlyOne(c: Code, ws: seq<nat>, q: Pos)
    requires Around(c, ws) && q.fn == 0x100 && At(c, q)
    ensures Dispatches(c, q) ==> q == JR
  {
    Kinds(0);
    if q.k < 7 {
      Kinds(q.k);
    }
    hide TableOf, Recognize, LINES, ReadWords;
  }

  /** The walk finds nothing in it. */
  lemma Passed(c: Code, ws: seq<nat>)
    requires Around(c, ws) && Listable(c)
    ensures Faultless(c, 0x100)
  {
    TableIs(c, ws);
    Kinds(0);
    hide TableOf, Recognize, Owner, StartsOf, Disjoint, InOrder, LINES, ReadWords, FpFault, ResolvedTarget;
    forall k | 0 <= k < |LINES| ensures !JudgeAt(c, 0x100, k).Fault? && !Strays(c, 0x100, k) {
      Kinds(k);
      if k == 1 {
        OwnerIff(c.starts, c.funcs, 0x200, 0x100);
      }
      JudgedFine(c, k);
    }
  }

  lemma JudgedFine(c: Code, k: nat)
    requires 0x100 in c.funcs && c.funcs[0x100] == Func(0x300, LINES) && Listed(c) && k < |LINES|
    requires FpFault(LINES[k].insn).None?
    requires if k == 7 then LINES[k].insn == JumpReg("a5", None) && TableOf(c.image, LINES, 7, 0x100, 0x300).Some?
             else ResolvedTarget(LINES[k].insn) == if k == 1 then To(0x200) else No
    requires k == 1 ==> OwnerOf(c, 0x200) == Some(0x100)
    ensures !JudgeAt(c, 0x100, k).Fault? && !Strays(c, 0x100, k)
  {
    hide TableOf, Owner, StartsOf, LINES;
  }

  lemma OrderedLines()
    ensures InOrder(0x100, Func(0x300, LINES))
  {
  }

  /** From the slli to the jr: the word at 0x400 and four times the index. */
  lemma Scales(image: Image, v: nat, k: nat, z: nat)
    requires v < 0x100
    ensures Falls(image, Slli("a0", "a0", 2), Gaps.Holds(v, k, z), Gaps.Holds(4 * v, k, z))
  {
    hide Gaps.Holds;
    Gaps.Reads(v, k, z);
    Gaps.Reads(4 * v, k, z);
    Gaps.Moves(v, k, z, 4 * v);
  }

  lemma Bases(image: Image, x: nat, k: nat, z: nat)
    ensures Falls(image, Li("a5", 0x400), Gaps.Holds(x, k, z), Gaps.Holds(x, k, 0x400))
  {
    hide Gaps.Holds;
    Gaps.Reads(x, k, 0x400);
    Gaps.Moves(x, k, z, 0x400);
  }

  lemma Sums(image: Image, x: nat, k: nat)
    requires x < 0x1000
    ensures Falls(image, Add("a5", "a5", "a0"), Gaps.Holds(x, k, 0x400), Gaps.Holds(x, k, 0x400 + x))
  {
    hide Gaps.Holds;
    Gaps.Reads(x, k, 0x400);
    Gaps.Reads(x, k, 0x400 + x);
    Gaps.Moves(x, k, 0x400, 0x400 + x);
  }

  lemma Loads(image: Image, x: nat, k: nat, a: nat, w: nat)
    requires a < 0x2000 && a in image && image[a] == w
    ensures Falls(image, Lw("a5", 0, "a5"), Gaps.Holds(x, k, a), Gaps.Holds(x, k, w))
  {
    hide Gaps.Holds;
    Gaps.Reads(x, k, a);
    Gaps.Reads(x, k, w);
    Gaps.Moves(x, k, a, w);
  }

  /** One instruction that only falls through. */
  lemma Steps(c: Code, ws: seq<nat>, k: nat, i: Insn, s: Cpu, t: Cpu)
    requires Around(c, ws) && k < 7 && i == LINES[k].insn && (i.Slli? || i.Li? || i.Add? || i.Lw? || i.Mv?)
    requires s.pc == Pos(0x100, k) && t.pc == Pos(0x100, k + 1) && s.stack == t.stack && Falls(c.image, i, s.regs, t.regs)
    ensures At(c, s.pc) && Step(c, s, t)
  {
    Insns();
    hide LINES, Falls, ReadWords;
  }

  lemma Insns()
    ensures |LINES| == 8 && LINES[0].insn == Li("a4", 3) && LINES[1].insn == Bltu("a4", "a0", Some(0x200))
    ensures LINES[2].insn == Mv("t0", "t1") && LINES[3].insn == Slli("a0", "a0", 2) && LINES[4].insn == Li("a5", 0x400)
    ensures LINES[5].insn == Add("a5", "a5", "a0") && LINES[6].insn == Lw("a5", 0, "a5") && LINES[7].insn == JumpReg("a5", None)
  {
  }

  /** The dispatch's second half as a run: index v, word w. */
  function Half(v: nat, k: nat, z: nat, w: nat): seq<Cpu> {
    [St(Pos(0x100, 3), v, k, z), St(Pos(0x100, 4), 4 * v, k, z), St(Pos(0x100, 5), 4 * v, k, 0x400),
     St(Pos(0x100, 6), 4 * v, k, 0x400 + 4 * v), St(JR, 4 * v, k, w)]
  }

  lemma HalfRuns(c: Code, ws: seq<nat>, v: nat, k: nat, z: nat, w: nat)
    requires Around(c, ws) && v < 0x100 && 0x400 + 4 * v in c.image && c.image[0x400 + 4 * v] == w
    ensures Run(c, Half(v, k, z, w))
  {
    Scales(c.image, v, k, z);
    Bases(c.image, 4 * v, k, z);
    Sums(c.image, 4 * v, k);
    Loads(c.image, 4 * v, k, 0x400 + 4 * v, w);
    Insns();
    hide LINES, Falls, Gaps.Holds, ReadWords, Step, At;
    var run := Half(v, k, z, w);
    Steps(c, ws, 3, LINES[3].insn, run[0], run[1]);
    Steps(c, ws, 4, LINES[4].insn, run[1], run[2]);
    Steps(c, ws, 5, LINES[5].insn, run[2], run[3]);
    Steps(c, ws, 6, LINES[6].insn, run[3], run[4]);
  }

  lemma RunOn(c: Code, a: seq<Cpu>, b: seq<Cpu>)
    requires Run(c, a) && Run(c, b) && At(c, a[|a| - 1].pc) && Step(c, a[|a| - 1], b[0])
    ensures Run(c, a + b)
  {
    hide Step;
    var run := a + b;
    forall i | 0 <= i < |run| - 1 ensures At(c, run[i].pc) && Step(c, run[i], run[i + 1]) {
      if i >= |a| {
        assert run[i] == b[i - |a|] && run[i + 1] == b[i - |a| + 1];
      }
    }
  }

  // ---- a word of the table ---------------------------------------------------------------

  /** Entry 1 is the slli itself; a word behind the table happens to be 0x900. */
  const WORDS: Image := map[0x400 := 0x140, 0x404 := 0x10C, 0x408 := 0x148, 0x40C := 0x14C, 0x410 := 0x900]
  const OWN: Code := Code(WORDS, map[0x100 := Func(0x300, LINES)], [0x100])
  const TABLE: seq<nat> := [0x140, 0x10C, 0x148, 0x14C]

  lemma OwnAround()
    ensures Around(OWN, TABLE) && Listable(OWN)
  {
    var ws := ReadWords(WORDS, 0x400, 4).value;
    assert 0x400 + 4 * 0 in WORDS && 0x400 + 4 * 1 in WORDS && 0x400 + 4 * 2 in WORDS && 0x400 + 4 * 3 in WORDS;
    assert ws == TABLE;
    OrderedLines();
  }

  /** The first pass, up to the slli: index 1. */
  const ONE: seq<Cpu> := [St(Pos(0x100, 0), 1, 0, 0), St(Pos(0x100, 1), 1, 3, 0), St(Pos(0x100, 2), 1, 3, 0)]

  lemma OneRuns(c: Code, ws: seq<nat>)
    requires Around(c, ws)
    ensures Run(c, ONE) && At(c, ONE[2].pc) && Step(c, ONE[2], Half(1, 3, 0, 0x10C)[0])
  {
    Insns();
    Loaded(c.image);
    NotTaken(c, ws);
    BehindHolds(c.image);
    hide LINES, Gaps.Holds, Falls, ReadWords, Around, At, Step;
    Steps(c, ws, 0, LINES[0].insn, ONE[0], ONE[1]);
    Steps(c, ws, 2, LINES[2].insn, ONE[2], St(Pos(0x100, 3), 1, 3, 0));
  }

  lemma Loaded(image: Image)
    ensures Falls(image, Li("a4", 3), Gaps.Holds(1, 0, 0), Gaps.Holds(1, 3, 0))
  {
    Gaps.Moves(1, 0, 0, 3);
    Gaps.Reads(1, 3, 0);
    hide Gaps.Holds;
  }

  /** The compare lets index 1 pass. */
  lemma NotTaken(c: Code, ws: seq<nat>)
    requires Around(c, ws)
    ensures At(c, ONE[1].pc) && Step(c, ONE[1], ONE[2])
  {
    Insns();
    Gaps.Reads(1, 3, 0);
    hide LINES, Gaps.Holds, ReadWords;
  }

  lemma BehindHolds(image: Image)
    ensures Falls(image, Mv("t0", "t1"), Gaps.Holds(1, 3, 0), Gaps.Holds(1, 3, 0))
  {
    Gaps.Others(1, 3);
    hide Gaps.Holds;
  }

  /** The jr goes back to the slli, with the index already scaled. */
  lemma Again(c: Code, ws: seq<nat>)
    requires Around(c, ws)
    ensures At(c, JR) && Step(c, St(JR, 4, 3, 0x10C), St(Pos(0x100, 3), 4, 3, 0x10C))
  {
    Insns();
    AtSlli();
    Gaps.Reads(4, 3, 0x10C);
    hide Gaps.Holds, LINES, ReadWords;
  }

  lemma AtSlli()
    ensures |LINES| == 8 && LINES[3].addr == 0x10C
  {
  }

  /** Twice through the dispatch. */
  function Twice(): (run: seq<Cpu>)
    ensures |run| == 13 && run[0] == ONE[0] && run[12] == St(JR, 16, 3, 0x900)
  {
    ONE + Half(1, 3, 0, 0x10C) + Half(4, 3, 0x10C, 0x900)
  }

  lemma TwiceRuns(c: Code, ws: seq<nat>)
    requires Around(c, ws) && 0x404 in c.image && c.image[0x404] == 0x10C && 0x410 in c.image && c.image[0x410] == 0x900
    ensures Run(c, Twice())
  {
    OneRuns(c, ws);
    HalfRuns(c, ws, 1, 3, 0, 0x10C);
    Again(c, ws);
    HalfRuns(c, ws, 4, 3, 0x10C, 0x900);
    hide Step, Run, Gaps.Holds, At, Around;
    RunOn(c, ONE, Half(1, 3, 0, 0x10C));
    RunOn(c, ONE + Half(1, 3, 0, 0x10C), Half(4, 3, 0x10C, 0x900));
  }

  /** At the jr with 0x900 in its register: no word of the table, no function's address. */
  lemma Leaves(c: Code, ws: seq<nat>, a0: nat, a4: nat)
    requires Around(c, ws) && Listed(c) && forall f :: f in c.funcs ==> c.funcs[f].end <= 0x400
    ensures Dispatches(c, JR) && !InTable(c, St(JR, a0, a4, 0x900))
    ensures St(JR, a0, a4, 0x900).regs("a5") == 0x900 && OwnerOf(c, 0x900).None?
  {
    TableIs(c, ws);
    Insns();
    Gaps.Reads(a0, a4, 0x900);
    hide Gaps.Holds, LINES, ReadWords, TableOf, Recognize, StartsOf;
  }

  /**
   A program the walk passes, with every condition on its window met and no other
   function: the run from its first instruction jumps through a word of the table into
   the dispatch, and at the jr's second turn to an address in no function.
  */
  lemma WordLands()
    ensures Listable(OWN) && Addressed(OWN) && Faultless(OWN, 0x100) && Dispatches(OWN, JR)
    ensures Sound(WindowAt(OWN, JR), DispatchAt(OWN, JR)) && NoOthersLand(OWN, {0x100}, JR) && !NoWordsLand(OWN, JR)
    ensures Run(OWN, Twice()) && Twice()[0].pc == Pos(0x100, 0) && Twice()[0].stack == []
    ensures Twice()[12].pc == JR && !InTable(OWN, Twice()[12]) && OwnerOf(OWN, 0x900).None?
  {
    OwnAround();
    InRange();
    hide *;
    IsSound(OWN, TABLE);
    Passed(OWN, TABLE);
    EntryLands(OWN, TABLE, 0x10C);
    TwiceRuns(OWN, TABLE);
    Leaves(OWN, TABLE, 16, 3);
  }

  lemma InRange()
    ensures Addressed(OWN) && 0x10C in TABLE && (forall f :: f in OWN.funcs ==> OWN.funcs[f].end <= 0x400)
    ensures 0x404 in OWN.image && OWN.image[0x404] == 0x10C && 0x410 in OWN.image && OWN.image[0x410] == 0x900
    ensures Dispatches(OWN, JR) ==> NoOthersLand(OWN, {0x100}, JR)
    ensures Listable(OWN) ==> Listed(OWN)
    ensures Twice()[0].pc == Pos(0x100, 0) && Twice()[0].stack == [] && Twice()[12].pc == JR
  {
    assert TABLE[1] == 0x10C;
    hide Gaps.Holds, LINES;
  }

  lemma EntryLands(c: Code, ws: seq<nat>, w: nat)
    requires Around(c, ws) && w in ws && 0x100 < w <= 0x11C
    ensures Dispatches(c, JR) && !NoWordsLand(c, JR)
  {
    IsSound(c, ws);
    TableIs(c, ws);
    hide LINES, ReadWords, TableOf, Recognize, FirstAt, AddrBehind, Around;
    assert AddrBehind(c, JR, w);
  }

  // ---- another function's jump -------------------------------------------------------------

  /** A function of one instruction: a jump to the other one's slli. */
  const OTHER: Code := Code(Gaps.IMAGE, map[0x100 := Func(0x300, LINES), 0x300 := Func(0x304, [Line(0x300, Jump(Some(0x10C)))])],
                            [0x100, 0x300])

  lemma OtherAround()
    ensures Around(OTHER, Gaps.Table(3)) && Listable(OTHER)
  {
    Gaps.Words(3);
    OrderedLines();
    hide ReadWords;
  }

  lemma OtherEnters()
    ensures Listable(OTHER) && Faultless(OTHER, 0x300) && Enters(OTHER, 0x300, 0x100)
  {
    OtherAround();
    hide InOrder;
    OwnerIff(OTHER.starts, OTHER.funcs, 0x10C, 0x100);
    assert JudgeAt(OTHER, 0x300, 0) == Goes(0x10C);
    assert EntersAt(OTHER, 0x300, 0, 0x100);
  }

  lemma Jumps()
    ensures Run(OTHER, [St(Pos(0x300, 0), 7, 0, 0)]) && At(OTHER, Pos(0x300, 0))
    ensures Step(OTHER, St(Pos(0x300, 0), 7, 0, 0), St(Pos(0x100, 3), 7, 0, 0))
  {
    AtSlli();
    hide LINES, Gaps.Holds;
  }

  /** The jump, and the dispatch from there. */
  function Past(): (run: seq<Cpu>)
    ensures |run| == 6 && run[0] == St(Pos(0x300, 0), 7, 0, 0) && run[5] == St(JR, 28, 0, 0x900)
  {
    [St(Pos(0x300, 0), 7, 0, 0)] + Half(7, 0, 0, 0x900)
  }

  lemma PastRuns()
    ensures Run(OTHER, Past())
  {
    Jumps();
    OtherAround();
    OtherWord();
    hide Step, Gaps.Holds, At, Around, Run, OTHER;
    HalfRuns(OTHER, Gaps.Table(3), 7, 0, 0, 0x900);
    RunOn(OTHER, [St(Pos(0x300, 0), 7, 0, 0)], Half(7, 0, 0, 0x900));
  }

  lemma OtherWord()
    ensures Addressed(OTHER) && 0x41C in OTHER.image && OTHER.image[0x41C] == 0x900
    ensures Listed(OTHER) && forall f :: f in OTHER.funcs ==> OTHER.funcs[f].end <= 0x400
    ensures At(OTHER, Pos(0x300, 0)) && ResolvedTarget(InsnAt(OTHER, Pos(0x300, 0))) == To(0x10C)
  {
    hide LINES;
  }

  /** No word of the dispatch's table lies in it. */
  lemma WordsOutside(c: Code, ws: seq<nat>)
    requires Around(c, ws) && forall w :: w in ws ==> 0x11C < w
    ensures Dispatches(c, JR) && NoWordsLand(c, JR)
  {
    IsSound(c, ws);
    TableIs(c, ws);
    hide TableOf, Recognize, ReadWords, Sound, FirstAt, LINES, Around, AddrBehind;
    forall q: Pos, w | q.fn == JR.fn && Dispatches(c, q) && w in TableAt(c, q).value ensures !AddrBehind(c, JR, w) {
      OnlyOne(c, ws, q);
    }
  }

  lemma OtherNamed(c: Code, ws: seq<nat>)
    requires Around(c, ws) && At(c, Pos(0x300, 0)) && ResolvedTarget(InsnAt(c, Pos(0x300, 0))) == To(0x10C)
    ensures Dispatches(c, JR) && !NoOthersLand(c, {0x100, 0x300}, JR)
  {
    IsSound(c, ws);
    hide TableOf, Recognize, ReadWords, Sound, FirstAt, LINES, Around, AddrBehind, ResolvedTarget;
    assert AddrBehind(c, JR, 0x10C);
    assert Pos(0x300, 0).fn in {0x100, 0x300};
  }

  /**
   Two functions the walk passes: the other one's run, from its first instruction, jumps
   past the compare, and at the jr to an address in no function.
  */
  lemma OtherLands()
    ensures Listable(OTHER) && Addressed(OTHER) && Faultless(OTHER, 0x100) && Faultless(OTHER, 0x300)
    ensures Enters(OTHER, 0x300, 0x100) && Dispatches(OTHER, JR)
    ensures Sound(WindowAt(OTHER, JR), DispatchAt(OTHER, JR)) && NoWordsLand(OTHER, JR)
    ensures !NoOthersLand(OTHER, {0x100, 0x300}, JR)
    ensures Run(OTHER, Past()) && Past()[0].pc == Pos(0x300, 0) && Past()[0].stack == []
    ensures Past()[5].pc == JR && !InTable(OTHER, Past()[5]) && OwnerOf(OTHER, 0x900).None?
  {
    OtherAround();
    OtherWord();
    assert forall w :: w in Gaps.Table(3) ==> 0x11C < w;
    assert Past()[0].pc == Pos(0x300, 0) && Past()[0].stack == [] && Past()[5].pc == JR;
    hide *;
    OtherEnters();
    IsSound(OTHER, Gaps.Table(3));
    Passed(OTHER, Gaps.Table(3));
    WordsOutside(OTHER, Gaps.Table(3));
    OtherNamed(OTHER, Gaps.Table(3));
    PastRuns();
    Leaves(OTHER, Gaps.Table(3), 28, 0);
  }

  // ---- neither --------------------------------------------------------------------------------

  const ORDINARY: Code := Code(Gaps.IMAGE, map[0x100 := Func(0x300, LINES)], [0x100])

  lemma OrdinaryAround()
    ensures Around(ORDINARY, Gaps.Table(3)) && Listable(ORDINARY) && Addressed(ORDINARY)
    ensures forall q: Pos :: At(ORDINARY, q) ==> q.fn == 0x100
  {
    Gaps.Words(3);
    OrderedLines();
    hide ReadWords, LINES;
  }

  /** The same dispatch over a table that leads out of it, with nobody to jump into it, is
      sheltered: it meets all that the soundness of the walk asks. */
  lemma OrdinarySheltered()
    ensures Listable(ORDINARY) && Addressed(ORDINARY) && Faultless(ORDINARY, 0x100) && Dispatches(ORDINARY, JR)
    ensures AllSheltered(ORDINARY, {0x100}) && Outside(ORDINARY, {0x100}, Pos(0x100, 0))
  {
    OrdinaryAround();
    assert forall w :: w in Gaps.Table(3) ==> 0x11C < w;
    Passed(ORDINARY, Gaps.Table(3));
    IsSound(ORDINARY, Gaps.Table(3));
    WordsOutside(ORDINARY, Gaps.Table(3));
    FirstIsOutside(ORDINARY, {0x100}, 0x100);
    hide Dispatches, Sound, NoWordsLand, AddrBehind, Outside, Around, Listable, Faultless, ORDINARY;
    forall p: Pos | p.fn in {0x100} && Dispatches(ORDINARY, p) ensures Sheltered(ORDINARY, {0x100}, p) {
      DispatchesAt(ORDINARY, p);
      OnlyOne(ORDINARY, Gaps.Table(3), p);
    }
  }

  lemma DispatchesAt(c: Code, p: Pos)
    requires Dispatches(c, p)
    ensures At(c, p)
  {
    hide TableAt;
  }
}

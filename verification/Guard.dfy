/**
 guard itself (cli/vector_guard.py:427-530): the entries of the vector table, each a
 leaf, a float trampoline or a trampoline whose body is walked; and what an empty
 report promises.
*/
module Guard {
  import opened Basics
  import opened Listing
  import opened Trampoline
  import opened CallGraph
  import opened CallGraphRuns
  import opened Machine

  datatype Entry = Entry(index: nat, addr: nat)

  datatype Complaint =
    | Nowhere(index: nat)                       // the start of no function
    | LeafTrampoline(index: nat)                // bound leaf, and a trampoline
    | NoLeaf(index: nat, hits: seq<Hit>)        // bound leaf, and none
    | Unbound(index: nat)                       // by none of the macros
    | Bad(index: nat, why: WhyBad)              // a float trampoline that does not restore
    | CallsNowhere(index: nat)                  // its body lies in no function
    | InBody(index: nat, failure: Failure)
    | Unused(name: string)                      // a leaf mark no entry bears

  /** What guard reads: the code, the functions' names, the crt's spin. */
  datatype Elf = Elf(code: Code, names: map<nat, string>, spin: Option<nat>)

  ghost predicate Readable(e: Elf) {
    Listed(e.code) && e.names.Keys == e.code.funcs.Keys
  }

  function Insns(lines: seq<Line>): (s: seq<Insn>)
    ensures |s| == |lines| && forall k :: 0 <= k < |s| ==> s[k] == lines[k].insn
  {
    seq(|lines|, k requires 0 <= k < |lines| => lines[k].insn)
  }

  function KindOf(e: Elf, entry: nat): Kind
    requires entry in e.code.funcs
  {
    Classify(Insns(e.code.funcs[entry].lines))
  }

  /** Every function a body reaches is faultless. */
  ghost predicate BodySound(c: Code, body: nat)
    requires Listed(c)
  {
    forall fn :: Reachable(c, body, fn) && fn in c.funcs ==> Faultless(c, fn)
  }

  /** What an entry must be, bound leaf or not. */
  ghost predicate EntryOk(e: Elf, entry: nat, leaf: bool)
    requires Readable(e)
  {
    && entry in e.code.funcs
    && if leaf then KindOf(e, entry) == NotOne && Leaf(e.code, entry)
       else
         match KindOf(e, entry)
         case NotOne => false
         case BadFloat(_) => false
         case Float(_) => true
         case Plain(to) =>
           match OwnerOf(e.code, to)
           case None => false
           case Some(body) => BodySound(e.code, body)
  }

  predicate Skipped(e: Elf, entry: Entry) { e.spin == Some(entry.addr) }

  /** The handler of an entry, when it is one. */
  function Name(e: Elf, entry: Entry): Option<string>
    requires e.names.Keys == e.code.funcs.Keys
  {
    if Skipped(e, entry) || entry.addr !in e.code.funcs then None else Some(e.names[entry.addr])
  }

  /** The marks the first `n` entries leave unused. */
  function Left(e: Elf, entries: seq<Entry>, marks: set<string>, n: nat): set<string>
    requires e.names.Keys == e.code.funcs.Keys && n <= |entries|
  {
    if n == 0 then marks
    else
      match Name(e, entries[n - 1])
      case None => Left(e, entries, marks, n - 1)
      case Some(v) => Left(e, entries, marks, n - 1) - {v}
  }

  /** The n-th entry is what it must be, a leaf where its handler's mark is unused. */
  ghost predicate OkAt(e: Elf, entries: seq<Entry>, marks: set<string>, n: nat)
    requires Readable(e) && n < |entries|
  {
    || Skipped(e, entries[n])
    || (EntryOk(e, entries[n].addr, Name(e, entries[n]).Some? && Name(e, entries[n]).value in Left(e, entries, marks, n)))
  }

  /** A complaint about an entry says what is wrong with it. */
  ghost predicate Deserved(e: Elf, index: nat, entry: nat, leaf: bool, r: Complaint)
    requires Readable(e) && entry in e.code.funcs
  {
    match r
    case LeafTrampoline(i) => i == index && leaf && KindOf(e, entry) != NotOne
    case NoLeaf(i, hits) =>
      && i == index && leaf && KindOf(e, entry) == NotOne && hits != []
      && hits == LeafHits(e.code.image, entry, e.code.funcs[entry], |e.code.funcs[entry].lines|)
    case Unbound(i) => i == index && !leaf && KindOf(e, entry) == NotOne
    case Bad(i, why) => i == index && !leaf && KindOf(e, entry) == BadFloat(why)
    case CallsNowhere(i) => i == index && !leaf && KindOf(e, entry).Plain? && OwnerOf(e.code, KindOf(e, entry).body).None?
    case InBody(i, f) =>
      && i == index && !leaf && KindOf(e, entry).Plain? && OwnerOf(e.code, KindOf(e, entry).body).Some?
      && Truthful(e.code, OwnerOf(e.code, KindOf(e, entry).body).value, f)
    case _ => false
  }

  /** One entry, whose handler is bound leaf or not. */
  method Check(e: Elf, index: nat, entry: nat, leaf: bool) returns (reports: seq<Complaint>)
    requires Readable(e) && entry in e.code.funcs
    ensures reports == [] <==> EntryOk(e, entry, leaf)
    ensures forall r :: r in reports ==> Deserved(e, index, entry, leaf, r)
  {
    hide Classify, Leaf, Faultless, Reachable, LeafHits, Owner, Truthful, Reported;
    var kind := Recognize(Insns(e.code.funcs[entry].lines));
    if leaf {
      if kind != NotOne {
        return [LeafTrampoline(index)];
      }
      var hits := FindLeafFaults(e.code, entry);
      LeafHas(e.code, entry);
      return if hits != [] then [NoLeaf(index, hits)] else [];
    }
    match kind {
      case NotOne => return [Unbound(index)];
      case BadFloat(why) => return [Bad(index, why)];
      case Float(_) => return [];
      case Plain(to) =>
        var body := FindOwner(e.code.starts, e.code.funcs, to);
        if body.None? {
          return [CallsNowhere(index)];
        }
        var failures, reached := Walk(e.code, body.value);
        reports := seq(|failures|, k requires 0 <= k < |failures| => InBody(index, failures[k]));
        SoundIff(e.code, body.value, reached);
        assert reports == [] <==> failures == [];
    }
  }

  lemma LeafHas(c: Code, fn: nat)
    requires fn in c.funcs
    ensures Leaf(c, fn) <==> LeafHits(c.image, fn, c.funcs[fn], |c.funcs[fn].lines|) == []
  {
  }

  lemma SoundIff(c: Code, body: nat, reached: set<nat>)
    requires Listed(c) && reached <= c.funcs.Keys && forall fn :: fn in reached <==> Reachable(c, body, fn)
    ensures BodySound(c, body) <==> forall fn :: fn in reached ==> Faultless(c, fn)
  {
    hide Faultless, Reachable;
  }

  /** The whole report on an image. */
  method GuardImage(e: Elf, entries: seq<Entry>, marks: set<string>) returns (reports: seq<Complaint>)
    requires Readable(e)
    ensures reports == [] <==>
      && (forall n :: 0 <= n < |entries| ==> OkAt(e, entries, marks, n))
      && Left(e, entries, marks, |entries|) == {}
  {
    hide EntryOk;
    reports := [];
    var marked, n := marks, 0;
    while n < |entries|
      invariant n <= |entries| && marked == Left(e, entries, marks, n)
      invariant reports == [] <==> forall k :: 0 <= k < n ==> OkAt(e, entries, marks, k)
    {
      var entry := entries[n];
      assert Left(e, entries, marks, n + 1) == match Name(e, entry) case None => marked case Some(v) => marked - {v};
      ghost var before := reports;
      if e.spin != Some(entry.addr) {
        if entry.addr !in e.code.funcs {
          reports := reports + [Nowhere(entry.index)];
          NotOk(e, entry.addr, false);
        } else {
          var v := e.names[entry.addr];
          var found := Check(e, entry.index, entry.addr, v in marked);
          reports := reports + found;
          marked := marked - {v};
          assert reports == [] <==> before == [] && found == [];
        }
      }
      assert reports == [] <==> before == [] && OkAt(e, entries, marks, n);
      n := n + 1;
    }
    ghost var fine := reports == [];
    ghost var unused := marked;
    while marked != {}
      invariant marked <= unused && (reports == [] <==> fine && marked == unused)
      decreases marked
    {
      var v :| v in marked;
      marked := marked - {v};
      reports := reports + [Unused(v)];
    }
  }

  lemma NotOk(e: Elf, entry: nat, leaf: bool)
    requires Readable(e) && entry !in e.code.funcs
    ensures !EntryOk(e, entry, leaf)
  {
  }

  lemma {:induction false} MarkUsedBy(e: Elf, entries: seq<Entry>, marks: set<string>, v: string, n: nat)
    requires e.names.Keys == e.code.funcs.Keys && n <= |entries| && v in marks
    ensures v in Left(e, entries, marks, n) <==> forall k: nat :: k < n ==> Name(e, entries[k]) != Some(v)
    decreases n
  {
    if n > 0 {
      MarkUsedBy(e, entries, marks, v, n - 1);
    }
  }

  /**
   An image passes only when each leaf mark is borne by exactly one entry. A leaf
   handler bound in two vectors fails at the second: its mark is gone, and it is no
   trampoline.
  */
  lemma MarksOnce(e: Elf, entries: seq<Entry>, marks: set<string>, v: string, i: nat, j: nat)
    requires Readable(e) && i < |entries| && j < |entries| && v in marks
    requires forall n :: 0 <= n < |entries| ==> OkAt(e, entries, marks, n)
    requires forall a, b :: a in e.names && b in e.names && e.names[a] == e.names[b] ==> a == b
    requires Name(e, entries[i]) == Some(v) && Name(e, entries[j]) == Some(v)
    ensures i == j
  {
    hide OkAt, Name, Left;
    if i != j {
      var a, b := if i < j then i else j, if i < j then j else i;
      var first := FirstUse(e, entries, v, a);
      SecondFails(e, entries, marks, v, first, b);
    }
  }

  /** The handler's mark is used at its first entry; at another it is neither a leaf by
      its mark nor a trampoline. */
  lemma SecondFails(e: Elf, entries: seq<Entry>, marks: set<string>, v: string, first: nat, b: nat)
    requires Readable(e) && first < b < |entries| && v in marks && OkAt(e, entries, marks, first)
    requires forall x, y :: x in e.names && y in e.names && e.names[x] == e.names[y] ==> x == y
    requires Name(e, entries[first]) == Some(v) && Name(e, entries[b]) == Some(v)
    requires forall k: nat :: k < first ==> Name(e, entries[k]) != Some(v)
    ensures !OkAt(e, entries, marks, b)
  {
    hide KindOf, Leaf, BodySound, Owner;
    MarkUsedBy(e, entries, marks, v, first);
    MarkUsedBy(e, entries, marks, v, b);
    assert entries[first].addr == entries[b].addr;
  }

  lemma {:induction false} FirstUse(e: Elf, entries: seq<Entry>, v: string, a: nat) returns (f: nat)
    requires e.names.Keys == e.code.funcs.Keys && a < |entries| && Name(e, entries[a]) == Some(v)
    ensures f <= a && Name(e, entries[f]) == Some(v) && forall k: nat :: k < f ==> Name(e, entries[k]) != Some(v)
    decreases a
  {
    if k: nat :| k < a && Name(e, entries[k]) == Some(v) {
      f := FirstUse(e, entries, v, k);
    } else {
      f := a;
    }
  }

  /** The functions a handler or a body reaches. */
  ghost function ReachedFrom(c: Code, fn: nat): set<nat> {
    set f | f in c.funcs && Reachable(c, fn, f)
  }

  /** All that a trampoline that saves nothing does besides its mret is to enter the body
      walked for it. */
  lemma HandlerEnters(e: Elf, entry: nat, to: nat, body: nat)
    requires Readable(e) && entry in e.code.funcs && KindOf(e, entry) == Plain(to) && OwnerOf(e.code, to) == Some(body)
    ensures var n := |e.code.funcs[entry].lines|; n >= 2 && EntersAt(e.code, entry, n - 2, body)
    ensures Faultless(e.code, entry) && forall dest :: Enters(e.code, entry, dest) <==> dest == body
  {
    hide Classify, Owner;
    var lines := e.code.funcs[entry].lines;
    PlainIff(Insns(lines), to);
    var n := |lines|;
    assert Insns(lines)[n - 2] == lines[n - 2].insn && Insns(lines)[n - 1] == lines[n - 1].insn;
    assert n == 3 ==> Insns(lines)[0] == lines[0].insn;
    assert JudgeAt(e.code, entry, n - 2) == Goes(to);
    assert forall k: nat :: k < n && k != n - 2 ==> JudgeAt(e.code, entry, k) == Fine;
  }

  /** What is reached from a function that enters one other: itself, and what that reaches. */
  lemma ReachesThrough(c: Code, entry: nat, body: nat, fn: nat)
    requires forall dest :: Enters(c, entry, dest) ==> dest == body
    ensures Reachable(c, entry, fn) ==> fn == entry || Reachable(c, body, fn)
  {
    hide Enters;
    if Reachable(c, entry, fn) && fn != entry {
      var chain :| Way(c, chain, entry) && chain[0] == fn;
      var n := |chain| - 1;
      assert Enters(c, chain[n - 1 + 1], chain[n - 1]);
      assert Way(c, chain[..n], body);
    }
  }

  /** An entry that passes, a leaf's or a trampoline's that saves nothing, reaches no fault. */
  lemma EntryGuarded(e: Elf, entry: nat, leaf: bool)
    requires Readable(e) && Listable(e.code) && EntryOk(e, entry, leaf) && (leaf || !KindOf(e, entry).Float?)
    ensures Guarded(e.code, ReachedFrom(e.code, entry)) && entry in ReachedFrom(e.code, entry)
  {
    var c, reached := e.code, ReachedFrom(e.code, entry);
    ReachedAll(c, entry);
    ReachableClosed(c, entry, reached);
    hide KindOf, Faultless, Owner, Reachable, Enters, Leaf, ReachedFrom;
    forall fn | fn in reached ensures Faultless(c, fn) {
      if leaf {
        LeafIff(c, entry);
        LeafAlone(c, entry, fn);
      } else {
        var body := OwnerOf(c, KindOf(e, entry).body).value;
        HandlerEnters(e, entry, KindOf(e, entry).body, body);
        ReachesThrough(c, entry, body, fn);
      }
    }
  }

  lemma LeafAlone(c: Code, entry: nat, fn: nat)
    requires Reachable(c, entry, fn) && forall dest :: Enters(c, entry, dest) ==> dest == entry
    ensures fn == entry
  {
    hide Enters;
    var chain :| Way(c, chain, entry) && chain[0] == fn;
    ClosedHolds(c, {entry}, chain, entry);
  }

  /**
   The promise: in an image that passes, nothing an interrupt runs from its handler's first
   instruction to its return - the handler, the body its call enters and all that reaches -
   touches the floating-point unit, but for what a float trampoline brackets
   (TrampolineFrame.FloatRestoresIff says when it restores it) - given, of every jump table
   in those functions, what the guard leaves unchecked.
  */
  lemma NoFloatInInterrupts(e: Elf, entries: seq<Entry>, marks: set<string>, n: nat, run: seq<Cpu>, i: nat)
    requires Readable(e) && Listable(e.code) && Addressed(e.code)
    requires n < |entries| && OkAt(e, entries, marks, n) && e.spin != Some(entries[n].addr)
    requires entries[n].addr in e.code.funcs ==> !KindOf(e, entries[n].addr).Float?
    requires AllSheltered(e.code, ReachedFrom(e.code, entries[n].addr))
    requires Run(e.code, run) && run[0].pc == Pos(entries[n].addr, 0) && run[0].stack == [] && i < |run|
    ensures Harmless(e.code, run[i].pc) && InTable(e.code, run[i])
    ensures Within(run[i], ReachedFrom(e.code, entries[n].addr))
  {
    hide *;
    var entry := entries[n].addr;
    var leaf := OkNow(e, entries, marks, n);
    EntryGuarded(e, entry, leaf);
    var reached := ReachedFrom(e.code, entry);
    FirstIsOutside(e.code, reached, entry);
    BeginsIn(e.code, reached, run[0], entry);
    RunKept(e.code, reached, run, i);
    KeptIs(e.code, reached, run, i);
  }

  lemma OkNow(e: Elf, entries: seq<Entry>, marks: set<string>, n: nat) returns (leaf: bool)
    requires Readable(e) && n < |entries| && OkAt(e, entries, marks, n) && e.spin != Some(entries[n].addr)
    ensures entries[n].addr in e.code.funcs && EntryOk(e, entries[n].addr, leaf)
  {
    leaf := Name(e, entries[n]).Some? && Name(e, entries[n]).value in Left(e, entries, marks, n);
  }

  lemma BeginsIn(c: Code, fns: set<nat>, s: Cpu, entry: nat)
    requires s.pc == Pos(entry, 0) && s.stack == [] && entry in fns && Outside(c, fns, Pos(entry, 0))
    ensures Starts(c, fns, s)
  {
  }

  lemma KeptIs(c: Code, fns: set<nat>, run: seq<Cpu>, i: nat)
    requires i < |run| && Kept(c, fns, run, i)
    ensures Harmless(c, run[i].pc) && InTable(c, run[i]) && Within(run[i], fns)
  {
  }

  /** All of them are functions, and the first is one of them. */
  lemma ReachedAll(c: Code, body: nat)
    requires Listed(c) && body in c.funcs
    ensures body in ReachedFrom(c, body) && forall fn :: fn in ReachedFrom(c, body) <==> Reachable(c, body, fn)
  {
    assert Way(c, [body], body);
    forall fn | Reachable(c, body, fn) ensures fn in c.funcs {
      var chain :| Way(c, chain, body) && chain[0] == fn;
      if |chain| > 1 {
        assert Enters(c, chain[0 + 1], chain[0]);
      }
    }
  }
}

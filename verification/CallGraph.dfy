/**
 guard's walk over the call graph (cli/vector_guard.py:440-442, 488-527): every
 function a body reaches, through calls, tail calls and branches out, each checked
 instruction by instruction.
*/
module CallGraph {
  import opened Basics
  import opened Listing
  import opened JumpTable
  import opened JumpTableScan

  /** {start: (end, lines)}. */
  type Funcs = map<nat, Func>

  // ---- the function an address lies in -------------------------------------------

  ghost predicate Sorted(starts: seq<nat>) {
    forall i, j :: 0 <= i < j < |starts| ==> starts[i] < starts[j]
  }

  ghost predicate StartsOf(starts: seq<nat>, funcs: Funcs) {
    Sorted(starts) && forall s :: s in starts <==> s in funcs
  }

  /** Functions do not overlap. */
  ghost predicate Disjoint(funcs: Funcs) {
    forall s, t :: s in funcs && t in funcs && s < t ==> funcs[s].end <= t
  }

  ghost predicate Inside(funcs: Funcs, start: nat, addr: nat) {
    start in funcs && start <= addr < funcs[start].end
  }

  /** owner(): the last start at or before the address, when the address is before that
      function's end. */
  method FindOwner(starts: seq<nat>, funcs: Funcs, addr: nat) returns (owner: Option<nat>)
    requires StartsOf(starts, funcs)
    ensures owner == Owner(starts, funcs, addr)
  {
    var lo, hi := 0, |starts|;
    while lo < hi
      invariant 0 <= lo <= hi <= |starts|
      invariant forall i :: 0 <= i < lo ==> starts[i] <= addr
      invariant forall i :: hi <= i < |starts| ==> addr < starts[i]
    {
      var mid := (lo + hi) / 2;
      if addr < starts[mid] {
        hi := mid;
      } else {
        lo := mid + 1;
      }
    }
    RightmostIs(starts, addr, lo);
    if lo > 0 && addr < funcs[starts[lo - 1]].end {
      return Some(starts[lo - 1]);
    }
    return None;
  }

  /** How many starts are at or before the address. */
  function Rightmost(starts: seq<nat>, addr: nat): (n: nat)
    ensures n <= |starts| && (n > 0 ==> starts[n - 1] <= addr)
  {
    if starts == [] then 0
    else if starts[|starts| - 1] <= addr then |starts|
    else Rightmost(starts[..|starts| - 1], addr)
  }

  lemma {:induction false} RightmostIs(starts: seq<nat>, addr: nat, n: nat)
    requires Sorted(starts) && n <= |starts|
    requires forall i :: 0 <= i < n ==> starts[i] <= addr
    requires forall i :: n <= i < |starts| ==> addr < starts[i]
    ensures Rightmost(starts, addr) == n
    decreases |starts|
  {
    if n < |starts| {
      RightmostIs(starts[..|starts| - 1], addr, n);
    }
  }

  function Owner(starts: seq<nat>, funcs: Funcs, addr: nat): (s: Option<nat>)
    requires forall s :: s in starts ==> s in funcs
    ensures s.Some? ==> Inside(funcs, s.value, addr)
  {
    var n := Rightmost(starts, addr);
    if n > 0 && addr < funcs[starts[n - 1]].end then Some(starts[n - 1]) else None
  }

  /** Of functions that do not overlap it finds the one the address lies in, if any. */
  lemma OwnerIff(starts: seq<nat>, funcs: Funcs, addr: nat, s: nat)
    requires StartsOf(starts, funcs) && Disjoint(funcs)
    ensures Owner(starts, funcs, addr) == Some(s) <==> Inside(funcs, s, addr)
  {
    if Inside(funcs, s, addr) {
      var i :| 0 <= i < |starts| && starts[i] == s;
      forall j | i < j < |starts| ensures addr < starts[j] {
        assert starts[j] in starts;
      }
      RightmostIs(starts, addr, i + 1);
    }
  }

  /** The search is right of every address. */
  ghost predicate Exact(starts: seq<nat>, funcs: Funcs)
    requires StartsOf(starts, funcs)
  {
    forall addr: nat, s: nat :: Owner(starts, funcs, addr) == Some(s) <==> Inside(funcs, s, addr)
  }

  /** It is exactly when no two functions overlap: an inner one's start is the outer's
      too, and never found to be. */
  lemma ExactIffDisjoint(starts: seq<nat>, funcs: Funcs)
    requires StartsOf(starts, funcs)
    ensures Exact(starts, funcs) <==> Disjoint(funcs)
  {
    hide Owner;
    if Disjoint(funcs) {
      forall addr: nat, s: nat ensures Owner(starts, funcs, addr) == Some(s) <==> Inside(funcs, s, addr) {
        OwnerIff(starts, funcs, addr, s);
      }
    } else {
      var s, t :| s in funcs && t in funcs && s < t && funcs[s].end > t;
      assert Inside(funcs, s, t);
      OwnerOfStart(starts, funcs, t);
    }
  }

  lemma OwnerOfStart(starts: seq<nat>, funcs: Funcs, t: nat)
    requires StartsOf(starts, funcs) && t in funcs
    ensures Owner(starts, funcs, t) == if t < funcs[t].end then Some(t) else None
  {
    var i :| 0 <= i < |starts| && starts[i] == t;
    RightmostIs(starts, t, i + 1);
  }

  // ---- one instruction --------------------------------------------------------------

  datatype Verdict = Fine | ByTable | Goes(to: nat) | Fault(why: Why)

  function Judge(image: Image, start: nat, func: Func, k: nat): Verdict
    requires k < |func.lines|
  {
    var i := func.lines[k].insn;
    match FpFault(i)
    case Some(why) => Fault(why)
    case None =>
      match ResolvedTarget(i)
      case No => Fine
      case To(a) => Goes(a)
      case Indirect =>
        if i.JumpReg? && TableOf(image, func.lines, k, start, func.end).Some? then ByTable
        else if i.CallReg? then Fault(IndirectCall) else Fault(IndirectJump)
  }

  /** A jump, a call or a branch the listing names no address for. */
  predicate NoAddress(i: Insn) {
    (i.Jump? || i.Call? || i.CallReg? || i.JumpReg? || i.Branch? || i.Bltu? || i.Bgeu?) && i.target.None?
  }

  /** An instruction is a fault exactly when it touches the floating-point unit, is four
      bytes nobody decoded, or goes where no address says - but for a jr with a table;
      and one that is none goes exactly where the listing names. */
  lemma FaultIff(image: Image, start: nat, func: Func, k: nat, to: nat)
    requires k < |func.lines|
    ensures var i, v := func.lines[k].insn, Judge(image, start, func, k);
      && (v.Fault? <==> || TouchesFp(i) || (i.Undecoded? && i.size == 4)
                        || (NoAddress(i) && !(i.JumpReg? && TableOf(image, func.lines, k, start, func.end).Some?)))
      && (v == Goes(to) <==> (i.Jump? || i.Call? || i.CallReg? || i.JumpReg? || i.Branch? || i.Bltu? || i.Bgeu?)
                             && i.target == Some(to))
      && (v == ByTable <==> NoAddress(i) && i.JumpReg? && TableOf(image, func.lines, k, start, func.end).Some?)
  {
    hide TableOf;
  }

  datatype Hit = Hit(addr: nat, why: Why)

  /** The faults of the first `n` instructions. */
  function Hits(image: Image, start: nat, func: Func, n: nat): (hits: seq<Hit>)
    requires n <= |func.lines|
    ensures hits == [] <==> forall k :: 0 <= k < n ==> !Judge(image, start, func, k).Fault?
  {
    if n == 0 then []
    else
      var v := Judge(image, start, func, n - 1);
      Hits(image, start, func, n - 1) + (if v.Fault? then [Hit(func.lines[n - 1].addr, v.why)] else [])
  }

  /** What is read about an image: its words, its functions, their starts in order. */
  datatype Code = Code(image: Image, funcs: Funcs, starts: seq<nat>)

  ghost predicate Listed(c: Code) { StartsOf(c.starts, c.funcs) }

  function JudgeAt(c: Code, fn: nat, k: nat): Verdict
    requires fn in c.funcs && k < |c.funcs[fn].lines|
  {
    Judge(c.image, fn, c.funcs[fn], k)
  }

  function OwnerOf(c: Code, addr: nat): Option<nat>
    requires Listed(c)
  {
    Owner(c.starts, c.funcs, addr)
  }

  /** The k-th instruction of one function enters another. */
  ghost predicate EntersAt(c: Code, fn: nat, k: nat, dest: nat) {
    && Listed(c) && fn in c.funcs && k < |c.funcs[fn].lines| && JudgeAt(c, fn, k).Goes?
    && OwnerOf(c, JudgeAt(c, fn, k).to) == Some(dest)
  }

  ghost predicate Enters(c: Code, fn: nat, dest: nat) {
    exists k: nat :: EntersAt(c, fn, k, dest)
  }

  /** A transfer out of every function. */
  ghost predicate Strays(c: Code, fn: nat, k: nat)
    requires Listed(c) && fn in c.funcs && k < |c.funcs[fn].lines|
  {
    JudgeAt(c, fn, k).Goes? && OwnerOf(c, JudgeAt(c, fn, k).to).None?
  }

  /** Nothing in the first `n` instructions is a fault or strays. */
  ghost predicate SoundUpTo(c: Code, fn: nat, n: nat)
    requires Listed(c) && fn in c.funcs && n <= |c.funcs[fn].lines|
  {
    forall k :: 0 <= k < n ==> !JudgeAt(c, fn, k).Fault? && !Strays(c, fn, k)
  }

  ghost predicate Faultless(c: Code, fn: nat)
    requires Listed(c) && fn in c.funcs
  {
    SoundUpTo(c, fn, |c.funcs[fn].lines|)
  }

  /** A way down the call graph, the last function first. */
  ghost predicate Way(c: Code, chain: seq<nat>, body: nat) {
    && chain != [] && chain[|chain| - 1] == body
    && forall i :: 0 <= i < |chain| - 1 ==> Enters(c, chain[i + 1], chain[i])
  }

  ghost predicate Reachable(c: Code, body: nat, fn: nat) {
    exists chain :: Way(c, chain, body) && chain[0] == fn
  }

  lemma WayOn(c: Code, chain: seq<nat>, body: nat, dest: nat)
    requires Way(c, chain, body) && Enters(c, chain[0], dest)
    ensures Way(c, [dest] + chain, body)
  {
    var longer := [dest] + chain;
    forall i | 0 <= i < |longer| - 1 ensures Enters(c, longer[i + 1], longer[i]) {
      if i > 0 {
        assert longer[i + 1] == chain[i] && longer[i] == chain[i - 1];
      }
    }
  }

  // ---- the walk ---------------------------------------------------------------------

  type Parents = map<nat, Option<nat>>

  datatype Failure =
    | Strayed(fn: nat, at: nat, to: nat)
    | Reaches(fn: nat, hits: seq<Hit>, chain: seq<nat>)

  /** Every parent enters its child, and the chains of parents end at the body. */
  ghost predicate Tree(c: Code, parent: Parents, depth: map<nat, nat>, body: nat) {
    && body in parent && parent[body] == None && depth.Keys == parent.Keys
    && parent.Keys <= c.funcs.Keys
    && forall fn :: fn in parent ==> Grown(c, parent, depth, body, fn)
  }

  ghost predicate Grown(c: Code, parent: Parents, depth: map<nat, nat>, body: nat, fn: nat)
    requires fn in parent && depth.Keys == parent.Keys
  {
    match parent[fn]
    case None => fn == body
    case Some(p) => p in parent && Enters(c, p, fn) && depth[p] < depth[fn]
  }

  /** The chain of functions from `fn` up to the body, read off the parents. */
  method Chain(c: Code, parent: Parents, ghost depth: map<nat, nat>, body: nat, fn: nat) returns (chain: seq<nat>)
    requires Tree(c, parent, depth, body) && fn in parent
    ensures Way(c, chain, body) && chain[0] == fn
  {
    hide Enters;
    chain := [];
    var f := Some(fn);
    while f.Some?
      invariant f.Some? ==> f.value in parent
      invariant chain == [] ==> f == Some(fn)
      invariant chain != [] ==> chain[0] == fn && chain[|chain| - 1] in parent && f == parent[chain[|chain| - 1]]
      invariant forall i :: 0 <= i < |chain| - 1 ==> Enters(c, chain[i + 1], chain[i])
      decreases if f.Some? then depth[f.value] + 1 else 0
    {
      assert Grown(c, parent, depth, body, f.value);
      chain := chain + [f.value];
      f := parent[f.value];
    }
    assert Grown(c, parent, depth, body, chain[|chain| - 1]);
  }

  /** The functions met are those visited and those still to visit, each once. */
  ghost predicate Frontier(parent: Parents, reached: set<nat>, todo: seq<nat>) {
    && (forall i, j :: 0 <= i < j < |todo| ==> todo[i] != todo[j])
    && (forall f :: f in parent <==> f in reached || f in todo)
    && (forall f :: f in todo ==> f !in reached)
  }

  /** A function met for the first time, and to be visited. */
  lemma Plants(c: Code, parent: Parents, depth: map<nat, nat>, body: nat, fn: nat, dest: nat, k: nat)
    requires Tree(c, parent, depth, body) && fn in parent && dest !in parent && EntersAt(c, fn, k, dest)
    ensures Tree(c, parent[dest := Some(fn)], depth[dest := depth[fn] + 1], body)
  {
    hide *;
    EntersBy(c, fn, k, dest);
    TreeParts(c, parent, depth, body);
    var p, d := parent[dest := Some(fn)], depth[dest := depth[fn] + 1];
    forall f | f in p ensures Grown(c, p, d, body, f) {
      GrownStill(c, parent, depth, body, fn, dest, f);
    }
    Planted(c, p, d, body);
  }

  lemma EntersBy(c: Code, fn: nat, k: nat, dest: nat)
    requires EntersAt(c, fn, k, dest)
    ensures Enters(c, fn, dest) && dest in c.funcs
  {
  }

  lemma TreeParts(c: Code, parent: Parents, depth: map<nat, nat>, body: nat)
    requires Tree(c, parent, depth, body)
    ensures body in parent && parent[body] == None && depth.Keys == parent.Keys && parent.Keys <= c.funcs.Keys
    ensures forall f :: f in parent ==> Grown(c, parent, depth, body, f)
  {
    hide Grown;
  }

  lemma Planted(c: Code, parent: Parents, depth: map<nat, nat>, body: nat)
    requires body in parent && parent[body] == None && depth.Keys == parent.Keys && parent.Keys <= c.funcs.Keys
    requires forall f :: f in parent ==> Grown(c, parent, depth, body, f)
    ensures Tree(c, parent, depth, body)
  {
    hide Grown;
  }

  lemma GrownStill(c: Code, parent: Parents, depth: map<nat, nat>, body: nat, fn: nat, dest: nat, f: nat)
    requires depth.Keys == parent.Keys && fn in parent && dest !in parent && Enters(c, fn, dest)
    requires f == dest || (f in parent && Grown(c, parent, depth, body, f))
    ensures Grown(c, parent[dest := Some(fn)], depth[dest := depth[fn] + 1], body, f)
  {
    hide Enters;
  }

  lemma Widens(parent: Parents, fn: nat, dest: nat, reached: set<nat>, todo: seq<nat>)
    requires dest !in parent && Frontier(parent, reached, todo)
    ensures Frontier(parent[dest := Some(fn)], reached, todo + [dest])
  {
    assert forall f :: f in todo + [dest] <==> f in todo || f == dest;
  }

  /** Where the first `n` instructions of a function leave every function. */
  function Strayings(c: Code, fn: nat, n: nat): (fs: seq<Failure>)
    requires Listed(c) && fn in c.funcs && n <= |c.funcs[fn].lines|
    ensures fs == [] <==> forall k :: 0 <= k < n ==> !Strays(c, fn, k)
    ensures forall f :: f in fs ==> f.Strayed? && f.fn == fn
  {
    if n == 0 then []
    else
      var v := JudgeAt(c, fn, n - 1);
      assert Strays(c, fn, n - 1) <==> v.Goes? && OwnerOf(c, v.to).None?;
      Strayings(c, fn, n - 1)
      + (if v.Goes? && OwnerOf(c, v.to).None? then [Strayed(fn, c.funcs[fn].lines[n - 1].addr, v.to)] else [])
  }

  /** Every function the first `n` instructions enter has been met. */
  ghost predicate Met(c: Code, fn: nat, n: nat, parent: Parents) {
    forall k: nat, dest :: k < n && EntersAt(c, fn, k, dest) ==> dest in parent
  }

  /** One function's instructions, in order. */
  method Visit(c: Code, body: nat, fn: nat, parent0: Parents, ghost depth0: map<nat, nat>,
               ghost reached: set<nat>, todo0: seq<nat>)
    returns (hits: seq<Hit>, strayed: seq<Failure>, parent: Parents, ghost depth: map<nat, nat>, todo: seq<nat>)
    requires Listed(c) && Tree(c, parent0, depth0, body) && Frontier(parent0, reached, todo0)
    requires fn in reached && fn in c.funcs
    ensures Tree(c, parent, depth, body) && Frontier(parent, reached, todo) && parent0.Keys <= parent.Keys
    ensures hits == Hits(c.image, fn, c.funcs[fn], |c.funcs[fn].lines|)
    ensures strayed == Strayings(c, fn, |c.funcs[fn].lines|)
    ensures Met(c, fn, |c.funcs[fn].lines|, parent)
  {
    hide *;
    parent, depth, todo, hits, strayed := parent0, depth0, todo0, [], [];
    var func, k := c.funcs[fn], 0;
    NothingYet(c, body, fn, parent, depth, reached, todo);
    while k < |func.lines|
      invariant k <= |func.lines| && parent0.Keys <= parent.Keys && fn in parent && fn in depth
      invariant Tree(c, parent, depth, body) && Frontier(parent, reached, todo)
      invariant hits == Hits(c.image, fn, func, k) && strayed == Strayings(c, fn, k)
      invariant Met(c, fn, k, parent)
    {
      var v := Judge(c.image, fn, func, k);
      OneMore(c, fn, k);
      if v.Fault? {
        hits := hits + [Hit(func.lines[k].addr, v.why)];
        MetMore(c, fn, k, parent, parent);
      } else if v.Goes? {
        var dest := FindOwner(c.starts, c.funcs, v.to);
        ghost var before := parent;
        if dest.None? {
          strayed := strayed + [Strayed(fn, func.lines[k].addr, v.to)];
        } else if dest.value != fn && dest.value !in parent {
          Plants(c, parent, depth, body, fn, dest.value, k);
          Widens(parent, fn, dest.value, reached, todo);
          depth, parent := depth[dest.value := depth[fn] + 1], parent[dest.value := Some(fn)];
          todo := todo + [dest.value];
        }
        MetMore(c, fn, k, before, parent);
      } else {
        MetMore(c, fn, k, parent, parent);
      }
      k := k + 1;
    }
  }

  lemma NothingYet(c: Code, body: nat, fn: nat, parent: Parents, depth: map<nat, nat>, reached: set<nat>,
                   todo: seq<nat>)
    requires Listed(c) && fn in c.funcs && fn in reached && Frontier(parent, reached, todo)
    requires Tree(c, parent, depth, body)
    ensures fn in parent && fn in depth
    ensures Hits(c.image, fn, c.funcs[fn], 0) == [] && Strayings(c, fn, 0) == [] && Met(c, fn, 0, parent)
  {
  }

  lemma OneMore(c: Code, fn: nat, k: nat)
    requires Listed(c) && fn in c.funcs && k < |c.funcs[fn].lines|
    ensures var func, v := c.funcs[fn], JudgeAt(c, fn, k);
      && v == Judge(c.image, fn, func, k) && StartsOf(c.starts, c.funcs)
      && Hits(c.image, fn, func, k + 1)
         == Hits(c.image, fn, func, k) + (if v.Fault? then [Hit(func.lines[k].addr, v.why)] else [])
      && Strayings(c, fn, k + 1) == Strayings(c, fn, k)
         + (if v.Goes? && Owner(c.starts, c.funcs, v.to).None? then [Strayed(fn, func.lines[k].addr, v.to)] else [])
      && (!v.Goes? ==> forall dest: nat :: !EntersAt(c, fn, k, dest))
      && (v.Goes? ==> forall dest: nat :: EntersAt(c, fn, k, dest) <==> Owner(c.starts, c.funcs, v.to) == Some(dest))
  {
    hide Judge, Owner;
  }

  lemma MetMore(c: Code, fn: nat, k: nat, before: Parents, parent: Parents)
    requires Met(c, fn, k, before) && before.Keys <= parent.Keys
    requires forall dest: nat :: EntersAt(c, fn, k, dest) ==> dest in parent
    ensures Met(c, fn, k + 1, parent)
  {
    hide EntersAt;
  }

  /** What is found wrong names what is wrong, and the way to it. */
  ghost predicate Truthful(c: Code, body: nat, f: Failure)
    requires Listed(c)
  {
    match f
    case Strayed(fn, _, _) => fn in c.funcs && Reachable(c, body, fn) && f in Strayings(c, fn, |c.funcs[fn].lines|)
    case Reaches(fn, hits, chain) =>
      && fn in c.funcs && Way(c, chain, body) && chain[0] == fn && hits != []
      && hits == Hits(c.image, fn, c.funcs[fn], |c.funcs[fn].lines|)
  }

  lemma {:induction false} TreeReaches(c: Code, parent: Parents, depth: map<nat, nat>, body: nat, fn: nat)
    requires Tree(c, parent, depth, body) && fn in parent
    ensures Reachable(c, body, fn)
    decreases depth[fn]
  {
    hide Enters;
    assert Grown(c, parent, depth, body, fn);
    if parent[fn].None? {
      assert Way(c, [body], body);
    } else {
      TreeReaches(c, parent, depth, body, parent[fn].value);
      var chain :| Way(c, chain, body) && chain[0] == parent[fn].value;
      WayOn(c, chain, body, fn);
      assert ([fn] + chain)[0] == fn;
    }
  }

  /** All that a closed set enters from the body lies in it. */
  ghost predicate Closed(c: Code, reached: set<nat>) {
    forall fn, dest :: fn in reached && Enters(c, fn, dest) ==> dest in reached
  }

  lemma {:induction false} ClosedHolds(c: Code, reached: set<nat>, chain: seq<nat>, body: nat)
    requires Closed(c, reached) && body in reached && Way(c, chain, body)
    ensures chain[0] in reached
    decreases |chain|
  {
    hide Enters;
    if |chain| > 1 {
      var rest := chain[1..];
      forall i | 0 <= i < |rest| - 1 ensures Enters(c, rest[i + 1], rest[i]) {
        assert rest[i + 1] == chain[i + 2] && rest[i] == chain[i + 1];
        assert Enters(c, chain[i + 1 + 1], chain[i + 1]);
      }
      ClosedHolds(c, reached, rest, body);
      assert Enters(c, chain[0 + 1], chain[0]);
    }
  }

  lemma ReachedExactly(c: Code, parent: Parents, depth: map<nat, nat>, body: nat, reached: set<nat>)
    requires Tree(c, parent, depth, body) && Frontier(parent, reached, [])
    requires AllMet(c, reached, parent)
    ensures forall fn :: fn in reached <==> Reachable(c, body, fn)
  {
    hide Grown;
    forall fn | fn in reached ensures Reachable(c, body, fn) {
      TreeReaches(c, parent, depth, body, fn);
    }
    assert Closed(c, reached);
    forall fn | Reachable(c, body, fn) ensures fn in reached {
      var chain :| Way(c, chain, body) && chain[0] == fn;
      ClosedHolds(c, reached, chain, body);
    }
  }

  /** The fault an instruction is, or the place it leaves for, is in the report. */
  ghost predicate Reported(c: Code, failures: seq<Failure>, fn: nat, k: nat)
    requires Listed(c) && fn in c.funcs && k < |c.funcs[fn].lines|
  {
    var v, addr := JudgeAt(c, fn, k), c.funcs[fn].lines[k].addr;
    && (v.Fault? ==> exists f :: f in failures && f.Reaches? && f.fn == fn && Hit(addr, v.why) in f.hits)
    && (Strays(c, fn, k) ==> Strayed(fn, addr, v.to) in failures)
  }

  ghost predicate AllReported(c: Code, failures: seq<Failure>, reached: set<nat>)
    requires Listed(c) && reached <= c.funcs.Keys
  {
    forall fn, k: nat :: fn in reached && k < |c.funcs[fn].lines| ==> Reported(c, failures, fn, k)
  }

  lemma {:induction false} HitsHold(image: Image, start: nat, func: Func, n: nat, k: nat)
    requires k < n <= |func.lines| && Judge(image, start, func, k).Fault?
    ensures Hit(func.lines[k].addr, Judge(image, start, func, k).why) in Hits(image, start, func, n)
    decreases n
  {
    hide Judge;
    if k < n - 1 {
      HitsHold(image, start, func, n - 1, k);
    }
  }

  lemma {:induction false} StrayingsHold(c: Code, fn: nat, n: nat, k: nat)
    requires Listed(c) && fn in c.funcs && k < n <= |c.funcs[fn].lines| && Strays(c, fn, k)
    ensures Strayed(fn, c.funcs[fn].lines[k].addr, JudgeAt(c, fn, k).to) in Strayings(c, fn, n)
    decreases n
  {
    hide JudgeAt, OwnerOf;
    if k < n - 1 {
      StrayingsHold(c, fn, n - 1, k);
    }
  }

  lemma ReportedMore(c: Code, failures: seq<Failure>, reached: set<nat>, fn: nat, hits: seq<Hit>, strayed: seq<Failure>,
                     chain: seq<nat>)
    requires Listed(c) && reached <= c.funcs.Keys && AllReported(c, failures, reached) && fn in c.funcs
    requires hits == Hits(c.image, fn, c.funcs[fn], |c.funcs[fn].lines|)
    requires strayed == Strayings(c, fn, |c.funcs[fn].lines|)
    ensures var more := if hits != [] then failures + strayed + [Reaches(fn, hits, chain)] else failures + strayed;
      AllReported(c, more, reached + {fn})
  {
    var more := if hits != [] then failures + strayed + [Reaches(fn, hits, chain)] else failures + strayed;
    hide Judge, Owner, Hits, Strayings, Strays, JudgeAt;
    forall f, k: nat | f in reached + {fn} && k < |c.funcs[f].lines| ensures Reported(c, more, f, k) {
      if f in reached {
        assert Reported(c, failures, f, k);
      } else {
        ReportedHere(c, fn, k, hits, strayed, chain, more);
      }
    }
  }

  lemma ReportedHere(c: Code, fn: nat, k: nat, hits: seq<Hit>, strayed: seq<Failure>, chain: seq<nat>, more: seq<Failure>)
    requires Listed(c) && fn in c.funcs && k < |c.funcs[fn].lines|
    requires hits == Hits(c.image, fn, c.funcs[fn], |c.funcs[fn].lines|)
    requires strayed == Strayings(c, fn, |c.funcs[fn].lines|)
    requires (forall f :: f in strayed ==> f in more) && (hits != [] ==> Reaches(fn, hits, chain) in more)
    ensures Reported(c, more, fn, k)
  {
    hide Owner, Judge, Hits, Strayings;
    if JudgeAt(c, fn, k).Fault? {
      HitsHold(c.image, fn, c.funcs[fn], |c.funcs[fn].lines|, k);
    } else if Strays(c, fn, k) {
      StrayingsHold(c, fn, |c.funcs[fn].lines|, k);
    }
  }

  lemma NoneReported(c: Code)
    requires Listed(c)
    ensures AllReported(c, [], {})
  {
  }

  lemma ReportedIs(c: Code, failures: seq<Failure>, reached: set<nat>)
    requires Listed(c) && reached <= c.funcs.Keys && AllReported(c, failures, reached)
    ensures forall fn, k: nat :: fn in reached && k < |c.funcs[fn].lines| ==> Reported(c, failures, fn, k)
  {
    hide Reported;
  }

  /** The functions a body reaches, and every fault in one of them: each instruction's that
      is one, and each that leaves for no function. */
  method Walk(c: Code, body: nat) returns (failures: seq<Failure>, reached: set<nat>)
    requires Listed(c) && body in c.funcs
    ensures forall fn :: fn in reached <==> Reachable(c, body, fn)
    ensures body in reached && reached <= c.funcs.Keys
    ensures failures == [] <==> forall fn :: fn in reached ==> Faultless(c, fn)
    ensures forall f :: f in failures ==> Truthful(c, body, f)
    ensures forall fn, k: nat :: fn in reached && k < |c.funcs[fn].lines| ==> Reported(c, failures, fn, k)
  {
    hide *;
    NoneReported(c);
    var parent: Parents := map[body := None];
    ghost var depth: map<nat, nat> := map[body := 0];
    var todo := [body];
    TreeSeed(c, body);
    failures, reached := [], {};
    while todo != []
      invariant Tree(c, parent, depth, body) && Frontier(parent, reached, todo)
      invariant AllMet(c, reached, parent)
      invariant reached <= c.funcs.Keys
      invariant failures == [] <==> forall fn :: fn in reached ==> Faultless(c, fn)
      invariant forall f :: f in failures ==> Truthful(c, body, f)
      invariant AllReported(c, failures, reached)
      decreases c.funcs.Keys - reached
    {
      var fn := todo[|todo| - 1];
      Pops(c, body, parent, depth, reached, todo);
      ghost var met, before := reached, parent;
      todo, reached := todo[..|todo| - 1], reached + {fn};
      var hits, strayed;
      hits, strayed, parent, depth, todo := Visit(c, body, fn, parent, depth, reached, todo);
      var chain := Chain(c, parent, depth, body, fn);
      MetStays(c, met, before, fn, parent);
      FaultsAreTrue(c, body, fn, chain, hits, strayed);
      ReportedMore(c, failures, met, fn, hits, strayed, chain);
      failures := failures + strayed;
      if hits != [] {
        failures := failures + [Reaches(fn, hits, chain)];
      }
    }
    ReachedExactly(c, parent, depth, body, reached);
    BodyMet(c, body, parent, depth, reached);
    ReportedIs(c, failures, reached);
  }

  /** Every function visited has had what it enters met. */
  ghost predicate AllMet(c: Code, reached: set<nat>, parent: Parents) {
    forall fn :: fn in reached ==> fn in c.funcs && Met(c, fn, |c.funcs[fn].lines|, parent)
  }

  lemma Pops(c: Code, body: nat, parent: Parents, depth: map<nat, nat>, reached: set<nat>, todo: seq<nat>)
    requires Tree(c, parent, depth, body) && Frontier(parent, reached, todo) && todo != []
    ensures var fn := todo[|todo| - 1];
      && fn in c.funcs && fn in parent && fn !in reached
      && Frontier(parent, reached + {fn}, todo[..|todo| - 1])
  {
    hide Grown;
    var n := |todo| - 1;
    assert forall f :: f in todo <==> f in todo[..n] || f == todo[n];
  }

  lemma MetStays(c: Code, reached: set<nat>, before: Parents, fn: nat, parent: Parents)
    requires AllMet(c, reached, before) && before.Keys <= parent.Keys
    requires fn in c.funcs && Met(c, fn, |c.funcs[fn].lines|, parent)
    ensures AllMet(c, reached + {fn}, parent)
  {
    hide EntersAt;
  }

  lemma FaultsAreTrue(c: Code, body: nat, fn: nat, chain: seq<nat>, hits: seq<Hit>, strayed: seq<Failure>)
    requires Listed(c) && fn in c.funcs && Way(c, chain, body) && chain[0] == fn
    requires hits == Hits(c.image, fn, c.funcs[fn], |c.funcs[fn].lines|)
    requires strayed == Strayings(c, fn, |c.funcs[fn].lines|)
    ensures Faultless(c, fn) <==> hits == [] && strayed == []
    ensures forall f :: f in strayed ==> Truthful(c, body, f)
    ensures hits != [] ==> Truthful(c, body, Reaches(fn, hits, chain))
  {
    FaultlessIff(c, fn);
    hide Faultless, Way, Hits, Strayings;
  }

  lemma BodyMet(c: Code, body: nat, parent: Parents, depth: map<nat, nat>, reached: set<nat>)
    requires Tree(c, parent, depth, body) && Frontier(parent, reached, [])
    ensures body in reached
  {
  }

  lemma TreeSeed(c: Code, body: nat)
    requires body in c.funcs
    ensures Tree(c, map[body := None], map[body := 0], body) && Frontier(map[body := None], {}, [body])
    ensures AllMet(c, {}, map[body := None])
  {
  }

  lemma FaultlessIff(c: Code, fn: nat)
    requires Listed(c) && fn in c.funcs
    ensures Faultless(c, fn) <==>
            Hits(c.image, fn, c.funcs[fn], |c.funcs[fn].lines|) == [] && Strayings(c, fn, |c.funcs[fn].lines|) == []
  {
    hide Judge, Owner;
    var func := c.funcs[fn];
    if Hits(c.image, fn, func, |func.lines|) != [] {
      var k :| 0 <= k < |func.lines| && Judge(c.image, fn, func, k).Fault?;
      assert JudgeAt(c, fn, k).Fault?;
    }
  }
}

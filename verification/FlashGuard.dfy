/**
 Flash self-programming on the AVR DA/DB (brio/avrxt/nvm.hpp:320-391, 605-800): the
 section rules, the verbs that check them over a whole range, and a controller that
 checks the first page alone of a multi-page erase (DS80000915F 2.7.1).
*/
module FlashGuard {
  import opened Basics

  const PAGE: nat := 512
  const U32: nat := 0x1_0000_0000

  /** The fuses and the two protection bits, over a flash of `size` bytes. */
  datatype Geometry = Geometry(size: nat, bootsize: nat, codesize: nat, codeLocked: bool, dataLocked: bool)

  ghost predicate Part(g: Geometry) {
    0 < g.size <= 0x100_0000 && g.size % (32 * PAGE) == 0 && g.bootsize < 256 && g.codesize < 256
  }

  datatype Section = Boot | AppCode | AppData

  function BootEnd(g: Geometry): (e: nat)
    ensures g.bootsize > 0 && g.size > 0 ==> e > 0
  {
    if g.bootsize == 0 then g.size
    else if g.bootsize * PAGE > g.size then g.size else g.bootsize * PAGE
  }

  function AppCodeEnd(g: Geometry): nat {
    if g.bootsize == 0 then g.size
    else if g.codesize == 0 then g.size
    else if g.codesize <= g.bootsize then BootEnd(g)
    else if g.codesize * PAGE > g.size then g.size else g.codesize * PAGE
  }

  function SectionOf(g: Geometry, a: nat): Section {
    if a < BootEnd(g) then Boot else if a < AppCodeEnd(g) then AppCode else AppData
  }

  /** The sections as the fuses are documented to cut them (sections 11.3.1.1 and table
      11-2): by the 512-byte block a byte lies in, a zero fuse running to the end. */
  function SectionByFuses(g: Geometry, a: nat): Section {
    var block := a / PAGE;
    if g.bootsize == 0 || block < g.bootsize then Boot
    else if g.codesize == 0 || block < g.codesize then AppCode
    else AppData
  }

  lemma SectionsAreTheFuses(g: Geometry, a: nat)
    requires Part(g) && a < g.size
    ensures SectionOf(g, a) == SectionByFuses(g, a)
  {
    BlockOf(a, g.bootsize);
    BlockOf(a, g.codesize);
    if 0 < g.codesize <= g.bootsize {
      Times(g.codesize, g.bootsize, PAGE);
    }
  }

  lemma BlockOf(a: nat, n: nat)
    ensures a < n * PAGE <==> a / PAGE < n
  {
  }

  /** May code running in BOOT write this byte? Table 11-1 and the two locks. */
  predicate ByteWritable(g: Geometry, a: nat) {
    match SectionOf(g, a)
    case Boot => false
    case AppCode => !g.codeLocked
    case AppData => !g.dataLocked
  }

  /** writable(): on two addresses of 32 bits. */
  function Writable(g: Geometry, begin: nat, end: nat): bool {
    if end <= begin || end > g.size then false
    else if begin < BootEnd(g) then false
    else if begin < AppCodeEnd(g) && g.codeLocked then false
    else if end > AppCodeEnd(g) && g.dataLocked then false
    else true
  }

  lemma EndsOrdered(g: Geometry)
    requires Part(g)
    ensures BootEnd(g) <= AppCodeEnd(g) <= g.size
    ensures BootEnd(g) % PAGE == 0 && AppCodeEnd(g) % PAGE == 0
  {
    EndsInOrder(g);
    EndsAligned(g);
    hide *;
  }

  lemma EndsInOrder(g: Geometry)
    ensures BootEnd(g) <= AppCodeEnd(g) <= g.size
  {
    if 0 < g.bootsize < g.codesize {
      Times(g.bootsize, g.codesize, PAGE);
    }
  }

  lemma EndsAligned(g: Geometry)
    requires Part(g)
    ensures BootEnd(g) % PAGE == 0 && AppCodeEnd(g) % PAGE == 0
  {
    SizeAligned(g.size);
    Multiple(g.bootsize);
    Multiple(g.codesize);
    hide Part;
  }

  lemma SizeAligned(size: nat)
    requires size % (32 * PAGE) == 0
    ensures size % PAGE == 0
  {
  }

  lemma Multiple(n: nat)
    ensures n * PAGE % PAGE == 0
  {
    Quotient(n, PAGE);
  }

  /** It says of the two ends what is true of every byte between them. */
  lemma WritableIff(g: Geometry, begin: nat, end: nat)
    requires Part(g)
    ensures Writable(g, begin, end) <==>
            begin < end <= g.size && forall a :: begin <= a < end ==> ByteWritable(g, a)
  {
    EndsOrdered(g);
    if begin < end <= g.size {
      assert ByteWritable(g, begin) ==> begin >= BootEnd(g);
      assert ByteWritable(g, end - 1) && end > AppCodeEnd(g) ==> !g.dataLocked;
    }
  }

  /** A page lies in one section: its first byte answers for it. */
  lemma PageInOneSection(g: Geometry, a: nat, b: nat)
    requires Part(g) && a / PAGE == b / PAGE
    ensures SectionOf(g, a) == SectionOf(g, b)
  {
    EndsOrdered(g);
    assert a < BootEnd(g) <==> a / PAGE < BootEnd(g) / PAGE;
    assert b < BootEnd(g) <==> b / PAGE < BootEnd(g) / PAGE;
    assert a < AppCodeEnd(g) <==> a / PAGE < AppCodeEnd(g) / PAGE;
    assert b < AppCodeEnd(g) <==> b / PAGE < AppCodeEnd(g) / PAGE;
  }

  // ---- the compile-time claim ---------------------------------------------------------

  /** FlashLayout's boundaries, worked out from the claimed fuses. */
  function LayoutBootEnd(size: nat, boot: nat): nat {
    if boot == 0 then size else if boot * PAGE > size then size else boot * PAGE
  }

  function LayoutAppCodeEnd(size: nat, boot: nat, code: nat): nat {
    if boot == 0 then size
    else if code == 0 then size
    else if code <= boot then LayoutBootEnd(size, boot)
    else if code * PAGE > size then size else code * PAGE
  }

  predicate LayoutWritable(size: nat, boot: nat, begin: nat, end: nat) {
    end > begin && end <= size && begin >= LayoutBootEnd(size, boot)
  }

  /** When the fuses match the claim, what the layout admits is what the part does with
      both locks open - and never a byte of BOOT. */
  lemma LayoutAgrees(g: Geometry, boot: nat, code: nat, begin: nat, end: nat)
    requires Part(g) && g.bootsize == boot && g.codesize == code
    ensures LayoutBootEnd(g.size, boot) == BootEnd(g) && LayoutAppCodeEnd(g.size, boot, code) == AppCodeEnd(g)
    ensures LayoutWritable(g.size, boot, begin, end) <==>
            Writable(g.(codeLocked := false, dataLocked := false), begin, end)
    ensures LayoutWritable(g.size, boot, begin, end) ==>
            forall a :: begin <= a < end ==> SectionOf(g, a) != Boot
  {
  }

  /** A claim the fuses do not match is safe all the same - admits no byte of BOOT -
      exactly when BOOT ends no later than it says. */
  lemma ClaimSafeIff(g: Geometry, boot: nat)
    requires Part(g)
    ensures (forall begin: nat, end: nat, a: nat ::
              LayoutWritable(g.size, boot, begin, end) && begin <= a < end ==> SectionOf(g, a) != Boot)
            <==> BootEnd(g) <= LayoutBootEnd(g.size, boot)
  {
    EndsInOrder(g);
    var e := LayoutBootEnd(g.size, boot);
    if e < BootEnd(g) {
      assert LayoutWritable(g.size, boot, e, e + 1) && SectionOf(g, e) == Boot;
    }
    hide BootEnd, LayoutBootEnd;
  }

  // ---- the controller ------------------------------------------------------------------

  function Wrap(x: nat): nat { x % U32 }

  function Down(x: nat, to: nat): nat
    requires to > 0
  {
    x / to * to
  }

  /** FLPER and FLMPERn: the aligned block around the address, when its first page may
      be written. */
  function Erased(g: Geometry, mem: seq<bv8>, addr: nat, bytes: nat): (m: seq<bv8>)
    requires bytes > 0
    ensures |m| == |mem|
    ensures forall a :: 0 <= a < |m| ==>
      m[a] == if ByteWritable(g, Down(addr, bytes)) && Down(addr, bytes) <= a < Down(addr, bytes) + bytes then 0xFF
              else mem[a]
  {
    seq(|mem|, a requires 0 <= a < |mem| =>
      if ByteWritable(g, Down(addr, bytes)) && Down(addr, bytes) <= a < Down(addr, bytes) + bytes then 0xFF
      else mem[a])
  }

  /** FLWR: clears bits of the word at an even address, when it may be written. */
  function Written(g: Geometry, mem: seq<bv8>, addr: nat, low: bv8, high: bv8): (m: seq<bv8>)
    ensures |m| == |mem|
    ensures forall a :: 0 <= a < |m| ==>
      m[a] == if ByteWritable(g, addr) && a == addr then mem[a] & low
              else if ByteWritable(g, addr) && a == addr + 1 then mem[a] & high else mem[a]
  {
    seq(|mem|, a requires 0 <= a < |mem| =>
      if ByteWritable(g, addr) && a == addr then mem[a] & low
      else if ByteWritable(g, addr) && a == addr + 1 then mem[a] & high else mem[a])
  }

  /** Nothing in BOOT or a locked section has changed. */
  ghost predicate Spared(g: Geometry, was: seq<bv8>, now: seq<bv8>) {
    |now| == |was| && forall a :: 0 <= a < |was| && !ByteWritable(g, a) ==> now[a] == was[a]
  }

  predicate Span(pages: nat) { pages in {1, 2, 4, 8, 16, 32} }

  /** The erratum: a range whose first page may be written and some byte of which may not
      loses that byte, and only such a range does. */
  lemma ErratumIff(g: Geometry, mem: seq<bv8>, addr: nat, bytes: nat)
    requires Part(g) && |mem| == g.size && bytes > 0 && addr % bytes == 0 && addr + bytes <= g.size
    requires forall a :: 0 <= a < |mem| ==> mem[a] == 0
    ensures !Spared(g, mem, Erased(g, mem, addr, bytes)) <==>
            ByteWritable(g, addr) && exists a :: addr <= a < addr + bytes && !ByteWritable(g, a)
  {
    assert Down(addr, bytes) == addr;
    var m := Erased(g, mem, addr, bytes);
    if ByteWritable(g, addr) {
      if a :| addr <= a < addr + bytes && !ByteWritable(g, a) {
        assert m[a] != mem[a];
      }
    }
  }

  /** The controller's check is enough for a single page, which lies in one section. */
  lemma OnePageSpared(g: Geometry, mem: seq<bv8>, addr: nat)
    requires Part(g) && |mem| == g.size && addr % PAGE == 0
    ensures Spared(g, mem, Erased(g, mem, addr, PAGE))
  {
    assert Down(addr, PAGE) == addr;
    forall a | addr <= a < addr + PAGE ensures ByteWritable(g, a) == ByteWritable(g, addr) {
      PageInOneSection(g, a, addr);
    }
  }

  /** May every byte of a range be written, and is each a byte of the device? */
  ghost predicate AllWritable(g: Geometry, begin: nat, end: nat) {
    end <= g.size && forall a :: begin <= a < end ==> ByteWritable(g, a)
  }

  class Flash {
    const g: Geometry
    var mem: seq<bv8>
    ghost var waits: seq<bool>   // what every wait for the controller has come to

    ghost predicate Valid()
      reads this
    {
      Part(g) && |mem| == g.size
    }

    /** wait_idle: may give up. */
    method WaitIdle() returns (ok: bool)
      modifies this`waits
      ensures waits == old(waits) + [ok]
    {
      ok := *;
      waits := waits + [ok];
    }

    /** erase(): asked for exactly when the range is aligned to its own span, inside the
        device and writable to the byte, and the wait before it succeeds. It then reads
        0xFF from end to end, and the wait behind it is the answer; nothing is touched
        otherwise. */
    method Erase(addr: nat, pages: nat) returns (ok: bool)
      requires Valid() && Span(pages) && addr < U32
      modifies this`mem, this`waits
      ensures Valid() && Spared(g, old(mem), mem) && old(waits) <= waits
      ensures
        var n, to := |old(waits)|, addr + pages * PAGE;
        if !(addr % (pages * PAGE) == 0 && AllWritable(g, addr, to)) then
          !ok && mem == old(mem) && waits == old(waits)
        else if |waits| > n && !waits[n] then
          !ok && mem == old(mem) && |waits| == n + 1
        else
          |waits| == n + 2 && ok == waits[n + 1] && Blank(old(mem), mem, addr, to)
    {
      hide Writable, ByteWritable, Erased, Spared, Blank, Part, Wrap, AllWritable;
      var bytes := pages * PAGE;
      WrapEnds(g, addr, bytes);
      AllWritableIff(g, addr, addr + bytes);
      SparedSame(g, mem);
      if addr % bytes != 0 || !Writable(g, addr, Wrap(addr + bytes)) {
        return false;
      }
      ok := WaitIdle();
      if !ok {
        return;
      }
      BlockErased(g, mem, addr, bytes);
      mem := Erased(g, mem, addr, bytes);
      ok := WaitIdle();
    }

    /** erase_ignoring_protection(): alignment and the device's bounds alone - and one
        block outside them, which is no byte of the device. An admitted request is asked
        for as soon as the wait before it succeeds. */
    method EraseIgnoringProtection(addr: nat, pages: nat) returns (ok: bool)
      requires Valid() && Span(pages) && addr < U32
      modifies this`mem, this`waits
      ensures Valid() && old(waits) <= waits
      ensures
        var n, bytes := |old(waits)|, pages * PAGE;
        if !(addr % bytes == 0 && (addr + bytes <= g.size || addr + bytes == U32)) then
          !ok && mem == old(mem) && waits == old(waits)
        else if |waits| > n && !waits[n] then
          !ok && mem == old(mem) && |waits| == n + 1
        else
          |waits| == n + 2 && ok == waits[n + 1]
          && if addr < g.size && ByteWritable(g, addr) then Blank(old(mem), mem, addr, addr + bytes) else mem == old(mem)
      ensures addr + pages * PAGE == U32 ==> mem == old(mem)
    {
      hide ByteWritable, Erased, Blank, Part, Wrap;
      var bytes := pages * PAGE;
      AdmitsIff(g, addr, bytes);
      if addr % bytes != 0 || Wrap(addr + bytes) > g.size {
        return false;
      }
      ok := WaitIdle();
      if !ok {
        return;
      }
      NothingThere(g, mem, addr, bytes);
      BlockGone(g, mem, addr, bytes);
      mem := Erased(g, mem, addr, bytes);
      ok := WaitIdle();
    }

    /** write_block(): words, the whole range checked before the first. Once it is, a word
        is asked for behind every wait that succeeds, until one fails or all are. */
    method WriteBlock(addr: nat, src: seq<bv8>) returns (ok: bool, ghost done: nat)
      requires Valid() && addr < U32 && |src| < 0x10000
      modifies this`mem, this`waits
      ensures Valid() && Spared(g, old(mem), mem) && old(waits) <= waits
      ensures done <= |src| && Cleared(old(mem), mem, addr, src, done)
      ensures
        var n := |old(waits)|;
        if !(addr % 2 == 0 && |src| % 2 == 0 && src != [] && AllWritable(g, addr, addr + |src|)) then
          !ok && done == 0 && waits == old(waits)
        else
          && |waits| > n && done == 2 * (|waits| - n - 1) && ok == waits[|waits| - 1] && (ok ==> done == |src|)
          && forall i :: n <= i < |waits| - 1 ==> waits[i]
    {
      hide Writable, ByteWritable, Written, Spared, Cleared, Part, Wrap, AllWritable;
      done := 0;
      SparedSame(g, mem);
      NoneCleared(mem, addr, src);
      WrapEnds(g, addr, |src|);
      AllWritableIff(g, addr, addr + |src|);
      NothingWritable(g, addr);
      if addr % 2 != 0 || |src| % 2 != 0 || !Writable(g, addr, Wrap(addr + |src|)) {
        return false, 0;
      }
      ok := WaitIdle();
      if !ok {
        return;
      }
      var i := 0;
      while i < |src| && ok
        invariant i == done <= |src| && i % 2 == 0 && Valid()
        invariant Cleared(old(mem), mem, addr, src, i) && Spared(g, old(mem), mem)
        invariant old(waits) < waits && done == 2 * (|waits| - |old(waits)| - 1) && ok == waits[|waits| - 1]
        invariant forall k :: |old(waits)| <= k < |waits| - 1 ==> waits[k]
      {
        WordWritten(g, old(mem), mem, addr, src, i);
        mem := Written(g, mem, addr + i, src[i], src[i + 1]);
        i := i + 2;
        done := i;
        ok := WaitIdle();
      }
    }
  }

  lemma AllWritableIff(g: Geometry, begin: nat, end: nat)
    requires Part(g)
    ensures begin < end ==> (Writable(g, begin, end) <==> AllWritable(g, begin, end))
  {
    WritableIff(g, begin, end);
    hide Writable, ByteWritable, Part;
  }

  lemma NothingWritable(g: Geometry, addr: nat)
    ensures !Writable(g, addr, addr)
  {
  }

  /** [begin, end) reads 0xFF, and the rest as it did. */
  ghost predicate Blank(was: seq<bv8>, now: seq<bv8>, begin: nat, end: nat) {
    |now| == |was| && end <= |now|
    && forall a :: 0 <= a < |now| ==> now[a] == if begin <= a < end then 0xFF else was[a]
  }

  /** The first `done` bytes have been ANDed in. */
  ghost predicate Cleared(was: seq<bv8>, now: seq<bv8>, addr: nat, src: seq<bv8>, done: nat)
    requires done <= |src|
  {
    |now| == |was| && forall a :: 0 <= a < |now| ==>
      now[a] == if addr <= a < addr + done then was[a] & src[a - addr] else was[a]
  }

  lemma SparedSame(g: Geometry, mem: seq<bv8>)
    ensures Spared(g, mem, mem)
  {
  }

  lemma NoneCleared(mem: seq<bv8>, addr: nat, src: seq<bv8>)
    ensures Cleared(mem, mem, addr, src, 0)
  {
  }

  lemma BlockErased(g: Geometry, mem: seq<bv8>, addr: nat, bytes: nat)
    requires Part(g) && |mem| == g.size && bytes > 0 && addr % bytes == 0 && Writable(g, addr, addr + bytes)
    ensures var m := Erased(g, mem, addr, bytes); Spared(g, mem, m) && Blank(mem, m, addr, addr + bytes)
  {
    WritableIff(g, addr, addr + bytes);
    assert Down(addr, bytes) == addr;
    hide Writable, ByteWritable, Part;
  }

  lemma WordWritten(g: Geometry, was: seq<bv8>, mem: seq<bv8>, addr: nat, src: seq<bv8>, i: nat)
    requires Part(g) && Writable(g, addr, addr + |src|) && i + 1 < |src|
    requires Cleared(was, mem, addr, src, i) && Spared(g, was, mem)
    ensures var m := Written(g, mem, addr + i, src[i], src[i + 1]);
      |m| == |mem| && Cleared(was, m, addr, src, i + 2) && Spared(g, was, m)
  {
    WritableIff(g, addr, addr + |src|);
    assert ByteWritable(g, addr + i) && ByteWritable(g, addr + i + 1);
    hide Writable, ByteWritable, Part;
  }

  /** A range that wraps around 32 bits is not writable: its end is no more than its
      beginning. */
  lemma WrapEnds(g: Geometry, addr: nat, bytes: nat)
    requires Part(g) && addr < U32 && bytes < U32
    ensures Writable(g, addr, Wrap(addr + bytes)) == Writable(g, addr, addr + bytes)
  {
    if addr + bytes >= U32 {
      assert Wrap(addr + bytes) == addr + bytes - U32;
    } else {
      assert Wrap(addr + bytes) == addr + bytes;
    }
  }

  /** The bounds check on wrapped ends lets exactly one block outside the device by: the
      last of the 32-bit space. */
  lemma AdmitsIff(g: Geometry, addr: nat, bytes: nat)
    requires Part(g) && addr < U32 && bytes in {512, 1024, 2048, 4096, 8192, 16384}
    ensures addr % bytes == 0 ==> (Wrap(addr + bytes) <= g.size <==> addr + bytes <= g.size || addr + bytes == U32)
  {
    if addr % bytes == 0 {
      LastBlock(addr, bytes);
    }
    hide Wrap;
  }

  /** The controller looks at the first page alone. */
  lemma BlockGone(g: Geometry, mem: seq<bv8>, addr: nat, bytes: nat)
    requires Part(g) && |mem| == g.size && bytes > 0 && addr % bytes == 0
    ensures ByteWritable(g, addr) && addr + bytes <= g.size ==> Blank(mem, Erased(g, mem, addr, bytes), addr, addr + bytes)
    ensures !ByteWritable(g, addr) ==> Erased(g, mem, addr, bytes) == mem
  {
    assert Down(addr, bytes) == addr;
    hide Down, ByteWritable;
  }

  lemma NothingThere(g: Geometry, mem: seq<bv8>, addr: nat, bytes: nat)
    requires Part(g) && |mem| == g.size && bytes > 0 && addr % bytes == 0
    ensures addr + bytes == U32 && bytes <= 16384 ==> addr >= g.size && Erased(g, mem, addr, bytes) == mem
  {
    assert Down(addr, bytes) == addr;
    hide Down, ByteWritable;
  }

  /** Where an aligned block ends, in 32 bits. */
  lemma LastBlock(addr: nat, bytes: nat)
    requires addr < U32 && bytes in {512, 1024, 2048, 4096, 8192, 16384} && addr % bytes == 0
    ensures Wrap(addr + bytes) == if addr + bytes == U32 then 0 else addr + bytes
  {
    assert U32 % bytes == 0;
    var n := addr / bytes;
    assert addr == n * bytes && n < U32 / bytes;
  }
}

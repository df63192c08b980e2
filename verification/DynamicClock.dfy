/**
 CLK_PER changed at run time (brio/avrxt/clock.hpp:572-591, 636-645, 835-930, 984-1082):
 the prescaler a rate resolves to, the order of a switch's writes, and the source the
 boot clock may have fallen back to.
*/
module DynamicClock {
  import opened Basics

  /** clock_divs: every main prescaler, in order. */
  const DIVS: seq<nat> := [1, 2, 4, 6, 8, 10, 12, 16, 24, 32, 48, 64]

  function Div(i: nat): (d: nat)
    requires i < 12
    ensures 1 <= d <= 64
  {
    DIVS[i]
  }

  lemma Increasing(i: nat, j: nat)
    requires i < j < 12
    ensures Div(i) < Div(j)
  {
  }

  /** Does this prescaler make exactly this rate? */
  predicate Makes(source: nat, hz: nat, i: nat)
    requires i < 12
  {
    hz != 0 && source / Div(i) == hz && source % Div(i) == 0
  }

  lemma MakesIff(source: nat, hz: nat, i: nat)
    requires i < 12
    ensures Makes(source, hz, i) <==> hz != 0 && source == hz * Div(i)
  {
    var d := Div(i);
    assert source == source / d * d + source % d;
    if source == hz * d {
      Quotient(hz, d);
    }
  }

  /** div_for, as the index of the prescaler. */
  method DivFor(source: nat, hz: nat) returns (i: Option<nat>)
    ensures i.Some? ==> i.value < 12 && Makes(source, hz, i.value)
    ensures i.None? ==> forall k :: 0 <= k < 12 ==> !Makes(source, hz, k)
  {
    var k := 0;
    while k < 12
      invariant k <= 12 && forall j :: 0 <= j < k ==> !Makes(source, hz, j)
    {
      if Makes(source, hz, k) {
        return Some(k);
      }
      k := k + 1;
    }
    return None;
  }

  /** A rate is one prescaler's at most. */
  lemma OneDivider(source: nat, hz: nat, i: nat, j: nat)
    requires i < 12 && j < 12 && Makes(source, hz, i) && Makes(source, hz, j)
    ensures i == j
  {
    MakesIff(source, hz, i);
    MakesIff(source, hz, j);
    if i < j {
      Increasing(i, j);
      Apart(hz, Div(i), Div(j));
    } else if j < i {
      Increasing(j, i);
      Apart(hz, Div(j), Div(i));
    }
  }

  lemma Apart(h: nat, a: nat, b: nat)
    requires h > 0 && a < b
    ensures h * a < h * b
  {
  }

  /** clock_timebase_for: the cycles of a microsecond, rounded up, in five bits. */
  function Timebase(hz: nat): nat {
    var t := (hz + 999_999) / 1_000_000;
    if t > 31 then 31 else t
  }

  /** `t` cycles of a clock are a microsecond or more. */
  predicate Covers(t: nat, hz: nat) { t * 1_000_000 >= hz }

  lemma TimebaseCoversIff(hz: nat)
    ensures Covers(Timebase(hz), hz) <==> hz <= 31_000_000
    ensures Timebase(hz) > 0 && hz <= 31_000_000 ==> !Covers(Timebase(hz) - 1, hz)
  {
  }

  /** A user is told of a rate while CLK_PER is at another. */
  datatype Told = Told(next: nat, at: nat)

  /** `t` cycles of a source divided are a microsecond or more. */
  predicate CoversDivided(t: nat, main: nat, i: nat)
    requires i < 12
  {
    1_000_000 * (t * Div(i)) >= main
  }

  class Dynamic {
    const source: nat           // Boot's rate
    const main: nat             // the rate of the source that runs: Boot's, or its fallback's
    var pdiv: nat               // MCLKCTRLB, as the prescaler's index
    var timebase: nat           // MCLKTIMEBASE
    var hz: nat
    var idx: nat
    var told: seq<Told>
    var covered: bool           // the timebase has covered a microsecond after every write

    /** The rate kept is Boot's by its index, and so is the prescaler - but for a boot
        that fell back, whose own prescaler makes it. */
    ghost predicate Valid()
      reads this
    {
      && 0 < source <= 31_000_000 && idx < 12 && pdiv < 12
      && Makes(source, hz, idx) && timebase == Timebase(hz)
      && (pdiv == idx || (idx == 0 && main == source * Div(pdiv)))
      && (main <= 1_000_000 * Timebase(source) ==> covered)
    }

    /** The boot clock from its requested source, undivided. */
    constructor (source: nat)
      requires 0 < source <= 31_000_000
      ensures Valid() && hz == source && told == [] && this.source == main == source && RunsAt(hz)
    {
      this.source, main, pdiv, idx, hz := source, source, 0, 0, source;
      timebase, told, covered := Timebase(source), [], true;
      new;
      MakesIff(source, source, 0);
      assert Div(0) == 1;
    }

    /** The boot that fell back: another source, divided down to the same rate. */
    constructor Fallback(source: nat, oschf: nat, fb: nat)
      requires 0 < source <= 31_000_000 && fb < 12 && Makes(oschf, source, fb)
      ensures Valid() && hz == source && told == [] && this.source == source && main == oschf && RunsAt(hz)
    {
      this.source, main, pdiv, idx, hz := source, oschf, fb, 0, source;
      timebase, told, covered := Timebase(source), [], true;
      new;
      MakesIff(oschf, source, fb);
      MakesIff(source, source, 0);
    }

    /** The rate CLK_PER runs at, rounded down. */
    function ClkPer(): nat
      requires pdiv < 12
      reads this
    {
      main / Div(pdiv)
    }

    /** It runs at exactly this rate. */
    predicate RunsAt(rate: nat)
      requires pdiv < 12
      reads this
    {
      main == rate * Div(pdiv)
    }

    method Prescale(i: nat)
      requires pdiv < 12 && i < 12
      modifies this`pdiv, this`covered
      ensures pdiv == i && covered == (old(covered) && CoversDivided(timebase, main, i))
    {
      pdiv := i;
      covered := covered && CoversDivided(timebase, main, i);
    }

    method WriteTimebase(t: nat)
      requires pdiv < 12
      modifies this`timebase, this`covered
      ensures timebase == t && covered == (old(covered) && CoversDivided(t, main, pdiv))
    {
      timebase := t;
      covered := covered && CoversDivided(t, main, pdiv);
    }

    /** set: refused, for a rate Boot's divided by no prescaler is; else the users told
        first, at the old rate, and the prescaler Boot's source would need. So
        CLK_PER is at the rate named exactly when that source is the one that runs - at
        the very rate a fallback's own prescaler made before. The timebase covers it
        behind every write while the running source is no faster than the microseconds
        of Boot's. */
    method Set(next: nat) returns (ok: bool)
      requires Valid()
      modifies this
      ensures Valid()
      ensures ok <==> exists i :: 0 <= i < 12 && Makes(source, next, i)
      ensures ok ==> hz == next && pdiv == idx && told == old(told) + [Told(next, old(ClkPer()))]
      ensures ok ==> (RunsAt(next) <==> main == source)
      ensures !ok ==> hz == old(hz) && idx == old(idx) && pdiv == old(pdiv) && timebase == old(timebase)
                      && told == old(told) && covered == old(covered)
    {
      var d := DivFor(source, next);
      if d.None? {
        return false;
      }
      var i := d.value;
      told := told + [Told(next, main / Div(pdiv))];
      if main <= 1_000_000 * Timebase(source) {
        CoversAcross(source, main, hz, next, idx, pdiv, i);
      }
      MakesIff(source, next, i);
      assert source / Div(i) == next;
      hide Timebase, Div, Makes;
      if next > hz {
        WriteTimebase(Timebase(source / Div(i)));
        Prescale(i);
      } else {
        Prescale(i);
        WriteTimebase(Timebase(source / Div(i)));
      }
      hz, idx := next, i;
      return true;
    }
  }

  lemma TimebaseIs(hz: nat)
    requires hz <= 31_000_000
    ensures Timebase(hz) == (hz + 999_999) / 1_000_000
    ensures hz <= 1_000_000 * Timebase(hz) < hz + 1_000_000
  {
  }

  lemma TimebaseGrows(a: nat, b: nat)
    requires a <= b
    ensures Timebase(a) <= Timebase(b)
  {
  }

  /** The microseconds of a divided rate, multiplied back, are no fewer than those of the
      rate itself. */
  lemma DividedCovers(source: nat, next: nat, i: nat)
    requires 0 < source <= 31_000_000 && i < 12 && Makes(source, next, i)
    ensures Timebase(next) * Div(i) >= Timebase(source)
  {
    MakesIff(source, next, i);
    Times(1, Div(i), next);
    TimebaseIs(source);
    TimebaseIs(next);
    var t, d := Timebase(next), Div(i);
    Times(next, 1_000_000 * t, d);
    assert 1_000_000 * t * d == 1_000_000 * (t * d);
    hide Timebase, Div;
  }

  /** Behind every rate that can be set, the timebase covers the source that runs exactly
      when it covers it undivided. */
  lemma CoversAllIff(source: nat, main: nat)
    requires 0 < source <= 31_000_000
    ensures (forall i, next: nat :: 0 <= i < 12 && Makes(source, next, i) ==> CoversDivided(Timebase(next), main, i))
            <==> main <= 1_000_000 * Timebase(source)
  {
    if main <= 1_000_000 * Timebase(source) {
      forall i, next: nat | 0 <= i < 12 && Makes(source, next, i) ensures CoversDivided(Timebase(next), main, i) {
        DividedCovers(source, next, i);
        hide Timebase, Div, Makes;
      }
    } else {
      MakesIff(source, source, 0);
      assert Div(0) == 1;
      assert !CoversDivided(Timebase(source), main, 0);
    }
  }

  /** The write in the middle of a switch, and the one behind it. */
  lemma CoversAcross(source: nat, main: nat, hz: nat, next: nat, idx: nat, pdiv: nat, i: nat)
    requires 0 < source <= 31_000_000 && idx < 12 && pdiv < 12 && i < 12
    requires Makes(source, hz, idx) && Makes(source, next, i)
    requires pdiv == idx || (idx == 0 && main == source * Div(pdiv))
    requires main <= 1_000_000 * Timebase(source)
    ensures CoversDivided(Timebase(next), main, i)
    ensures next > hz ==> CoversDivided(Timebase(next), main, pdiv)
    ensures next <= hz ==> CoversDivided(Timebase(hz), main, i)
  {
    DividedCovers(source, next, i);
    DividedCovers(source, hz, idx);
    if next > hz {
      NotPastSource(source, hz, next, idx, i);
      TimebaseGrows(hz, next);
      hide Timebase, Div, Makes;
      Times(Timebase(hz), Timebase(next), Div(pdiv));
    } else {
      TimebaseGrows(next, hz);
      hide Timebase, Div, Makes;
      Times(Timebase(next), Timebase(hz), Div(i));
    }
  }

  /** No rate rises past the source's: a boot that fell back, at that rate, only falls. */
  lemma NotPastSource(source: nat, hz: nat, next: nat, idx: nat, i: nat)
    requires idx < 12 && i < 12 && Makes(source, hz, idx) && Makes(source, next, i) && next > hz
    ensures idx != 0
  {
    MakesIff(source, hz, idx);
    MakesIff(source, next, i);
    Times(1, Div(i), next);
    assert Div(0) == 1;
  }

  // ---- the boot of the AVR EA ------------------------------------------------------------

  /** The source that runs and the prescaler's index. */
  datatype Step = Step(main: nat, pdiv: nat)

  /** Clock::init's writes behind the first, for an external source: how they fall by the
      two prescalers and by whether the switch is made - or, `late`, is made after it was
      given up. */
  function BootSteps(src: nat, oschf: nat, div: nat, fb: nat, made: bool, late: bool): seq<Step> {
    var start := [Step(oschf, fb)];
    if div == fb then
      start + if made then [Step(src, fb)] else GivenUp(src, oschf, fb, fb, late)
    else if src > oschf then
      start + [Step(oschf, div)] + if made then [Step(src, div)] else GivenUp(src, oschf, div, fb, late)
    else
      start + if made then [Step(src, fb), Step(src, div)] else GivenUp(src, oschf, fb, fb, late)
  }

  function GivenUp(src: nat, oschf: nat, div: nat, fb: nat, late: bool): seq<Step> {
    (if late then [Step(src, div)] else []) + [Step(if late then src else oschf, fb), Step(oschf, fb)]
  }

  /** CLK_PER at a step is no more than `hz`. */
  predicate AtMost(s: Step, hz: nat)
    requires s.pdiv < 12
  {
    s.main <= hz * Div(s.pdiv)
  }

  ghost predicate AllAtMost(steps: seq<Step>, hz: nat) {
    forall i :: 0 <= i < |steps| ==> steps[i].pdiv < 12 && AtMost(steps[i], hz)
  }

  /** It ends at `hz`, and no step passes it - but for a switch given up and made late
      from a faster source, which the fallback's prescaler meets first. */
  lemma BootAtMostIff(src: nat, oschf: nat, hz: nat, div: nat, fb: nat, made: bool, late: bool)
    requires div < 12 && fb < 12 && Makes(src, hz, div) && Makes(oschf, hz, fb) && (made ==> !late)
    ensures var steps := BootSteps(src, oschf, div, fb, made, late);
      && steps != [] && steps[|steps| - 1].main == hz * Div(steps[|steps| - 1].pdiv)
      && (AllAtMost(steps, hz) <==> !(late && src > oschf))
  {
    MakesIff(src, hz, div);
    MakesIff(oschf, hz, fb);
    if div < fb {
      Increasing(div, fb);
      Apart(hz, Div(div), Div(fb));
    } else if fb < div {
      Increasing(fb, div);
      Apart(hz, Div(fb), Div(div));
    }
    var steps := BootSteps(src, oschf, div, fb, made, late);
    if late && src > oschf {
      assert !AtMost(steps[|steps| - 2], hz);
    }
    hide Makes, Div;
  }
}

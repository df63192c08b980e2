/**
 The settings of an SpiHost (brio/avrxt/spi.hpp:410-481, 1192-1414): the rate chooser
 and its ceiling, the two register bytes kept, a mode change that leaves no edge inside
 a select window, and what a transaction puts on the wire.
*/
module SpiSettings {
  import opened Basics

  /** A division of CLK_PER: 2, 4, .. 128. */
  type Rate = r: bv8 | r < 7 witness 3

  function Division(c: Rate): (d: nat)
    ensures d > 0
  {
    if c == 0 then 2 else if c == 1 then 4 else if c == 2 then 8 else if c == 3 then 16
    else if c == 4 then 32 else if c == 5 then 64 else 128
  }

  const ENABLE: bv8 := 0x01
  const CLK2X: bv8 := 0x10
  const MASTER: bv8 := 0x20
  const PRESC: bv8 := 0x06
  const SSD: bv8 := 0x04
  const BUFEN: bv8 := 0x80
  const CPOL: bv8 := 0x02

  /** spi_presc_bits. */
  function PrescBits(c: Rate): bv8 {
    (c & PRESC) | (if c & 1 == 0 && c != 6 then CLK2X else 0)
  }

  /** spi_clock_of. */
  function RateOf(ctrla: bv8): Rate {
    var presc, doubled := ctrla & PRESC, ctrla & CLK2X != 0;
    if presc == 0 then (if doubled then 0 else 1)
    else if presc == 2 then (if doubled then 2 else 3)
    else if presc == 4 then (if doubled then 4 else 5)
    else if doubled then 5 else 6
  }

  function CtrlaOf(c: Rate): bv8 { MASTER | ENABLE | PrescBits(c) }

  function CtrlbOf(mode: bv8): bv8 { BUFEN | SSD | mode }

  /** The register byte says the rate, and so does comparing it. */
  lemma FoldRoundTrip(c: Rate)
    ensures RateOf(CtrlaOf(c)) == c && CtrlaOf(c) & ENABLE != 0 && CtrlaOf(c) & MASTER != 0
  {
    assert c == 0 || c == 1 || c == 2 || c == 3 || c == 4 || c == 5 || c == 6;
  }

  lemma FoldInjective(a: Rate, b: Rate, m: bv8, n: bv8)
    requires m < 4 && n < 4
    ensures CtrlaOf(a) == CtrlaOf(b) <==> a == b
    ensures CtrlbOf(m) == CtrlbOf(n) <==> m == n
  {
    FoldRoundTrip(a);
    FoldRoundTrip(b);
    assert m == 0 || m == 1 || m == 2 || m == 3;
    assert n == 0 || n == 1 || n == 2 || n == 3;
  }

  // ---- the ceiling -------------------------------------------------------------------------

  function SckHz(hz: nat, c: Rate): nat { hz / Division(c) }

  lemma Slower(hz: nat, a: Rate, b: Rate)
    requires a <= b
    ensures Division(a) <= Division(b) && SckHz(hz, b) <= SckHz(hz, a)
  {
  }

  /** spi_clock_for: the fastest rate at or below the limit, as the division is rounded. */
  method ClockFor(hz: nat, max: nat) returns (c: Option<Rate>)
    ensures max == 0 ==> c == None
    ensures max > 0 ==> Fastest(hz, max, c)
  {
    if max == 0 {
      return None;
    }
    var i: bv8 := 0;
    while i <= 6
      invariant i <= 7 && forall k: Rate :: k < i ==> SckHz(hz, k) > max
      decreases 7 - i
    {
      if SckHz(hz, i) <= max {
        return Some(i);
      }
      i := i + 1;
    }
    return None;
  }

  /** The fastest admitted, or nothing when none is. */
  ghost predicate Fastest(hz: nat, max: nat, c: Option<Rate>) {
    match c
    case None => forall k: Rate :: SckHz(hz, k) > max
    case Some(r) => SckHz(hz, r) <= max && forall k: Rate :: k < r ==> SckHz(hz, k) > max
  }

  /** Nothing admits it exactly when CLK_PER/128 is too fast. */
  lemma NoneIff(hz: nat, max: nat, c: Option<Rate>)
    requires Fastest(hz, max, c)
    ensures c.None? <==> SckHz(hz, 6) > max
  {
    if c.Some? {
      Slower(hz, c.value, 6);
    }
  }

  /** clamp. */
  function Clamp(ceiling: Option<Rate>, c: Rate): Rate {
    if ceiling.Some? && c < ceiling.value then ceiling.value else c
  }

  /** The real rate, as a fraction, is at most the limit. */
  predicate Honest(hz: nat, max: nat, c: Rate) { hz <= max * Division(c) }

  /** A rate admitted passes the limit, by less than a hertz, exactly when it is the limit
      rounded down from a quotient with a remainder. */
  lemma HonestIff(hz: nat, max: nat, c: Rate)
    requires SckHz(hz, c) <= max
    ensures !Honest(hz, max, c) <==> SckHz(hz, c) == max && hz % Division(c) != 0
    ensures hz < (max + 1) * Division(c)
  {
    var d, q := Division(c), SckHz(hz, c);
    assert hz == q * d + hz % d && hz % d < d;
    hide Division;
    if q < max {
      Times(q + 1, max, d);
      assert (q + 1) * d == q * d + d;
    }
    Times(q + 1, max + 1, d);
  }

  /** A ceiling in force: the rate used is the fastest no faster than the request's that
      keeps to it, as the division is rounded. */
  lemma CeilingHolds(hz: nat, max: nat, ceiling: Option<Rate>, c: Rate)
    requires Fastest(hz, max, ceiling) && ceiling.Some?
    ensures var u := Clamp(ceiling, c);
      && SckHz(hz, u) <= max && u >= c && (SckHz(hz, c) <= max ==> u == c)
      && (forall k: Rate :: c <= k < u ==> SckHz(hz, k) > max)
      && (!Honest(hz, max, u) <==> SckHz(hz, u) == max && hz % Division(u) != 0)
  {
    var u := Clamp(ceiling, c);
    if c < ceiling.value {
    } else {
      Slower(hz, ceiling.value, c);
    }
    HonestIff(hz, max, u);
  }

  /** A limit was asked for: every request keeps to it exactly when some division does -
      with none the ceiling is empty, and clamps nothing. */
  lemma CeilingIff(hz: nat, max: nat, ceiling: Option<Rate>)
    requires Fastest(hz, max, ceiling)
    ensures (forall c: Rate :: SckHz(hz, Clamp(ceiling, c)) <= max) <==> SckHz(hz, 6) <= max
  {
    NoneIff(hz, max, ceiling);
    if ceiling.Some? {
      forall c: Rate ensures SckHz(hz, Clamp(ceiling, c)) <= max {
        CeilingHolds(hz, max, ceiling, c);
      }
    } else {
      assert SckHz(hz, Clamp(ceiling, 6)) > max;
    }
  }
}

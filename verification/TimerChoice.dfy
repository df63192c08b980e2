/**
 The timers' arithmetic (brio/avrxt/tca.hpp:618-636, 956-981; brio/avrxt/tcb.hpp:218-224,
 410-430): the divisor and count chosen for a duration or a rate, and a pulse clipped
 to its period.
*/
module TimerChoice {
  import opened Basics

  const DIVS: seq<nat> := [1, 2, 4, 8, 16, 64, 256, 1024]

  function Div(i: nat): (d: nat)
    requires i < 8
    ensures 1 <= d <= 1024
  {
    DIVS[i]
  }

  /** Ticks of a divided clock that last as long or longer. */
  function Ceil(x: nat, d: nat): (t: nat)
    requires d > 0
    ensures x <= t * d < x + d
  {
    var t := (x + d - 1) / d;
    assert x + d - 1 == t * d + (x + d - 1) % d;
    t
  }

  predicate Fits(t: nat) { 1 <= t <= 0x1_0000 }

  datatype Choice = Choice(div: nat, ticks: nat)

  /** tca_timing: the smallest divisor whose count fits 16 bits; no ticks when none does,
      which is for no duration and for more than 65536 ticks of CLK_PER / 1024. */
  method TcaTiming(x: nat) returns (c: Choice)
    ensures c.div < 8 && (c.ticks == 0 <==> x == 0 || x > 0x1_0000 * 1024)
    ensures c.ticks > 0 ==> Fits(c.ticks) && x <= c.ticks * Div(c.div) < x + Div(c.div)
    ensures c.ticks > 0 ==> forall k :: 0 <= k < c.div ==> x > 0x1_0000 * Div(k)
  {
    var i := 0;
    while i < 8
      invariant i <= 8 && forall k :: 0 <= k < i ==> x == 0 || x > 0x1_0000 * Div(k)
    {
      var t := Ceil(x, Div(i));
      FitsIff(x, Div(i));
      if Fits(t) {
        LastDiv(i);
        return Choice(i, t);
      }
      i := i + 1;
    }
    LastDiv(7);
    assert Div(7) == 1024;
    return Choice(0, 0);
  }

  lemma LastDiv(i: nat)
    requires i < 8
    ensures Div(i) <= 1024
  {
  }

  /** A count fits exactly when the duration does in 65536 of the divided clock's ticks. */
  lemma FitsIff(x: nat, d: nat)
    requires d > 0
    ensures Fits(Ceil(x, d)) <==> 0 < x <= 0x1_0000 * d
  {
    var t := Ceil(x, d);
    if t > 0x1_0000 {
      Times(0x1_0000, t - 1, d);
      assert (t - 1) * d == t * d - d;
    } else {
      Times(t, 0x1_0000, d);
    }
    if t == 0 {
      assert t * d == 0;
    }
    if x == 0 && t > 0 {
      Times(1, t, d);
    }
  }

  /** tca_period_ticks: the nearest count to a rate's period. */
  function PeriodTicks(clk: nat, hz: nat): nat {
    if hz == 0 then 0 else (clk + hz / 2) / hz
  }

  lemma PeriodNearest(clk: nat, hz: nat)
    requires hz > 0
    ensures var t := PeriodTicks(clk, hz);
      2 * (t * hz - clk) <= hz && 2 * (clk - t * hz) <= hz
  {
    var t := PeriodTicks(clk, hz);
    assert clk + hz / 2 == t * hz + (clk + hz / 2) % hz;
  }

  // ---- a pulse inside a period ---------------------------------------------------------------

  /** Heartbeat::ticks_for: a width in ticks, clipped to TOP + 1, in 16 bits. */
  function PulseTicks(tickHz: nat, us: nat, top: nat): nat
    requires top < 0x1_0000
  {
    var t := (tickHz * us + 999_999) / 1_000_000;
    if t > top then (top + 1) % 0x1_0000 else t
  }

  /** What a compare makes of a single-slope counter's output. */
  predicate High(compare: nat, count: nat) { count < compare }

  /** A width within the period is high for that width, and one that is not is high
      throughout - exactly when TOP is not 0xFFFF: there TOP + 1 wraps to a pulse that is
      never high. */
  lemma PulseIff(tickHz: nat, us: nat, top: nat)
    requires top < 0x1_0000
    ensures (forall count: nat :: count <= top ==>
              (High(PulseTicks(tickHz, us, top), count) <==> count < (tickHz * us + 999_999) / 1_000_000))
            <==> top < 0xFFFF || (tickHz * us + 999_999) / 1_000_000 <= top
  {
    if top == 0xFFFF && (tickHz * us + 999_999) / 1_000_000 > top {
      assert !High(PulseTicks(tickHz, us, top), 0);
    }
  }

  // ---- the TCB ----------------------------------------------------------------------------------

  /** tcb_ticks_for_us: rounded up, 65537 for more than the counter counts. */
  function TcbTicks(tickHz: nat, us: nat): nat {
    var t := (tickHz * us + 999_999) / 1_000_000;
    if t > 0x1_0000 then 0x1_0001 else t
  }

  /** tcb_timing_for_us: CLK_PER where the count fits, CLK_PER / 2 where that does, none
      otherwise. */
  method TcbForUs(clk: nat, us: nat) returns (c: Choice)
    ensures c.ticks > 0 ==> c.div < 2 && Fits(c.ticks)
    ensures c.ticks > 0 ==>
      (c.ticks * Div(c.div) * 1_000_000 < clk * us
       <==> c.div == 1 && clk % 2 == 1 && 2 * Slack(clk / 2 * us) < us)
    ensures c.ticks > 0 && (clk % 2 == 0 || c.div == 0) ==>
      (c.ticks - 1) * Div(c.div) * 1_000_000 < clk * us
    ensures c.ticks > 0 && c.div == 1 ==> clk * us > 0x1_0000 * 1_000_000
    ensures c.ticks == 0 <==>
      clk * us == 0 || (clk * us > 0x1_0000 * 1_000_000 && !(0 < clk / 2 * us <= 0x1_0000 * 1_000_000))
  {
    assert Div(0) == 1 && Div(1) == 2;
    var t := TcbTicks(clk, us);
    UsTicks(clk * us);
    if Fits(t) {
      return Choice(0, t);
    }
    t := TcbTicks(clk / 2, us);
    UsTicks(clk / 2 * us);
    ShortIff(clk, us);
    if Fits(t) {
      return Choice(1, t);
    }
    return Choice(0, 0);
  }

  lemma UsTicks(x: nat)
    ensures var t := (x + 999_999) / 1_000_000;
      && t * 1_000_000 >= x && (t > 0 ==> (t - 1) * 1_000_000 < x) && (t == 0 <==> x == 0)
      && (t > 0x1_0000 <==> x > 0x1_0000 * 1_000_000)
  {
  }

  /** How much a count of microseconds is rounded up by, in cycles by a million. */
  function Slack(x: nat): (e: nat)
    ensures e < 1_000_000
  {
    (1_000_000 - x % 1_000_000) % 1_000_000
  }

  lemma SlackIs(x: nat)
    ensures (x + 999_999) / 1_000_000 * 1_000_000 == x + Slack(x)
  {
  }

  /** An odd CLK_PER halves to less than its half: the count is short exactly when the
      rounding up makes up for less than the half cycle lost each microsecond. */
  lemma ShortIff(clk: nat, us: nat)
    ensures var t := (clk / 2 * us + 999_999) / 1_000_000;
      && (t * 2 * 1_000_000 < clk * us <==> clk % 2 == 1 && 2 * Slack(clk / 2 * us) < us)
      && (clk % 2 == 0 ==> clk * us == 2 * (clk / 2 * us))
  {
    var h := clk / 2;
    SlackIs(h * us);
    assert clk == 2 * h + clk % 2;
    assert clk * us == 2 * (h * us) + clk % 2 * us;
    hide Slack;
    if clk % 2 == 1 {
      assert clk % 2 * us == us;
    }
  }

  /** tcb_timing_for_hz: the nearest count at CLK_PER, at CLK_PER / 2, or none. */
  method TcbForHz(clk: nat, hz: nat) returns (c: Choice)
    ensures c.ticks > 0 ==> c.div < 2 && Fits(c.ticks) && hz > 0
    ensures c.ticks > 0 ==>
      2 * (c.ticks * hz - clk / Div(c.div)) <= hz && 2 * (clk / Div(c.div) - c.ticks * hz) <= hz
    ensures c.ticks > 0 && c.div == 1 ==> !Fits(PeriodTicks(clk, hz))
    ensures c.ticks == 0 <==> hz == 0 || (!Fits(PeriodTicks(clk, hz)) && !Fits(PeriodTicks(clk / 2, hz)))
  {
    if hz == 0 {
      return Choice(0, 0);
    }
    assert Div(0) == 1 && Div(1) == 2;
    PeriodNearest(clk, hz);
    PeriodNearest(clk / 2, hz);
    var t := PeriodTicks(clk, hz);
    if Fits(t) {
      return Choice(0, t);
    }
    t := PeriodTicks(clk / 2, hz);
    if Fits(t) {
      return Choice(1, t);
    }
    return Choice(0, 0);
  }
}

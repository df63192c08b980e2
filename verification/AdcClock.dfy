/**
 CLK_ADC under a peripheral clock that changes (brio/avrxt/adc.hpp:690-701, 806-854,
 1121-1138; the DA/DB's at 172-240, 393-404): the prescaler search, and what a
 sequence of rebases comes to.
*/
module AdcClock {
  import opened Basics

  /** The divisor of a code on the AVR EA: 2 .. 16 by twos, .. 32 by fours, .. 64 by
      eights. */
  function DivisorEA(i: nat): nat {
    if i < 8 then 2 * (i + 1) else if i < 12 then 16 + 4 * (i - 7) else 32 + 8 * (i - 11)
  }

  /** The divisors of a part, by prescaler code. */
  const EA: seq<nat> := [2, 4, 6, 8, 10, 12, 14, 16, 20, 24, 28, 32, 40, 48, 56, 64]

  const DADB: seq<nat> := [2, 4, 8, 12, 16, 20, 24, 28, 32, 48, 64, 96, 128, 256]

  lemma TableEA(i: nat)
    requires i < 16
    ensures DivisorEA(i) == EA[i]
  {
  }

  /** A part's divisors: positive and increasing. */
  ghost predicate Divisors(d: seq<nat>) {
    && 0 < |d| && (forall i :: 0 <= i < |d| ==> 0 < d[i] <= 256)
    && forall i, j :: 0 <= i < j < |d| ==> d[i] < d[j]
  }

  lemma BothTables()
    ensures Divisors(EA) && Divisors(DADB)
  {
  }

  /** The range CLK_ADC must lie in. */
  datatype Range = Range(low: nat, high: nat)

  datatype Reference = Internal | Supply

  /** What a configuration says of its clock: `burst` is more than one sample a result,
      and no series. */
  datatype Config = Config(reference: Reference, pga: bool, bias: nat, burst: bool, sampleDuration: nat)

  /** Table 35-24 by reference, and the PGA bias's limit (section 31.5.12). */
  function RangeEA(c: Config): Range
    requires c.bias < 4
  {
    var top := if c.reference == Internal then 2_000_000 else 6_000_000;
    var limit := 1_500_000 * (4 - c.bias);
    Range(300_000, if c.pga && limit < top then limit else top)
  }

  /** adc_min_sample_duration: SAMPDUR's floor at a CLK_ADC, an eight-bit count. */
  function MinSampleDuration(c: Config, f: nat): nat {
    var m := if c.reference == Internal && !c.pga then (4 * f + 999_999) / 1_000_000 else 0;
    var n := if c.pga && c.burst && m < 11 then 11 else m;
    if n > 255 then 255 else n
  }

  /** The reference buffer's autozero has its four microseconds, and a burst through the
      PGA its eleven cycles. */
  predicate Sampled(c: Config, f: nat) {
    && (c.reference == Internal && !c.pga ==> c.sampleDuration * 1_000_000 >= 4 * f)
    && (c.pga && c.burst ==> c.sampleDuration >= 11)
  }

  /** The floor is exactly that, in every range. */
  lemma FloorIff(c: Config, f: nat)
    requires c.bias < 4 && f <= RangeEA(c).high
    ensures c.sampleDuration >= MinSampleDuration(c, f) <==> Sampled(c, f)
  {
  }

  /** adc_clock_valid. */
  predicate ClockValid(hz: nat, c: Config, p: nat)
    requires Divisors(EA) && c.bias < 4 && p < |EA|
  {
    InRange(EA, hz, RangeEA(c), p) && c.sampleDuration >= MinSampleDuration(c, Clock(EA, hz, p))
  }

  const RANGE_DADB := Range(125_000, 2_000_000)

  function Clock(d: seq<nat>, hz: nat, p: nat): nat
    requires Divisors(d) && p < |d|
  {
    hz / d[p]
  }

  predicate InRange(d: seq<nat>, hz: nat, r: Range, p: nat)
    requires Divisors(d) && p < |d|
  {
    r.low <= Clock(d, hz, p) <= r.high
  }

  function Off(f: nat, target: nat): nat { if f > target then f - target else target - f }

  /** The best of the first `n` codes so far: the code, and its error. */
  datatype Best = Best(p: nat, err: nat)

  function Search(d: seq<nat>, hz: nat, target: nat, r: Range, n: nat): Best
    requires Divisors(d) && n <= |d|
  {
    if n == 0 then Best(|d| - 1, 0xFFFF_FFFF)
    else
      var b, err := Search(d, hz, target, r, n - 1), Off(Clock(d, hz, n - 1), target);
      if InRange(d, hz, r, n - 1) && err < b.err then Best(n - 1, err) else b
  }

  /** adc_presc_for. */
  function PrescFor(d: seq<nat>, hz: nat, target: nat, r: Range): nat
    requires Divisors(d)
  {
    Search(d, hz, target, r, |d|).p
  }

  method FindPresc(d: seq<nat>, hz: nat, target: nat, r: Range) returns (p: nat)
    requires Divisors(d)
    ensures p == PrescFor(d, hz, target, r)
  {
    var err, i := 0xFFFF_FFFF, 0;
    p := |d| - 1;
    while i < |d|
      invariant i <= |d| && Search(d, hz, target, r, i) == Best(p, err)
    {
      if InRange(d, hz, r, i) {
        var e := Off(Clock(d, hz, i), target);
        if e < err {
          p, err := i, e;
        }
      }
      i := i + 1;
    }
  }

  /** The first of the codes in range nearest the target; the slowest when none is. */
  ghost predicate Nearest(d: seq<nat>, hz: nat, target: nat, r: Range, n: nat, p: nat)
    requires Divisors(d) && n <= |d|
  {
    if exists i :: 0 <= i < n && InRange(d, hz, r, i) then
      && p < n && InRange(d, hz, r, p)
      && (forall i :: 0 <= i < n && InRange(d, hz, r, i) ==>
            Off(Clock(d, hz, p), target) <= Off(Clock(d, hz, i), target))
      && (forall i :: 0 <= i < p && InRange(d, hz, r, i) ==>
            Off(Clock(d, hz, p), target) < Off(Clock(d, hz, i), target))
    else p == |d| - 1
  }

  lemma {:induction false} SearchNearest(d: seq<nat>, hz: nat, target: nat, r: Range, n: nat)
    requires Divisors(d) && n <= |d| && target <= 0xFFFF_0000 && 0 < r.low && r.high < 0xFFFF_0000
    ensures var b := Search(d, hz, target, r, n);
      && b.p < |d| && Nearest(d, hz, target, r, n, b.p)
      && b.err == (if exists i :: 0 <= i < n && InRange(d, hz, r, i) then Off(Clock(d, hz, b.p), target)
                   else 0xFFFF_FFFF)
    decreases n
  {
    if n > 0 {
      SearchNearest(d, hz, target, r, n - 1);
      hide Divisors, Clock;
      if InRange(d, hz, r, n - 1) {
        assert Off(Clock(d, hz, n - 1), target) < 0xFFFF_FFFF;
      }
    }
  }

  /** Two divisors in range never make the same CLK_ADC. */
  lemma DistinctClocks(d: seq<nat>, hz: nat, r: Range, i: nat, j: nat)
    requires Divisors(d) && i < j < |d| && r.low >= 256
    requires InRange(d, hz, r, i) && InRange(d, hz, r, j)
    ensures Clock(d, hz, i) > Clock(d, hz, j)
  {
    Floors(hz, d[i], d[j], Clock(d, hz, j));
  }

  lemma Floors(hz: nat, a: nat, b: nat, q: nat)
    requires 0 < a < b <= 256 && q == hz / b && q >= 256
    ensures hz / a > q
  {
    assert hz >= q * b && b >= a + 1;
    assert q * b >= q * (a + 1) == q * a + q;
    assert hz >= (q + 1) * a;
    AtLeast(hz, a, q + 1);
  }

  /** At the rate a target was made at, the search finds the prescaler it was made with. */
  lemma FindsItself(d: seq<nat>, hz: nat, r: Range, p: nat)
    requires Divisors(d) && p < |d| && InRange(d, hz, r, p) && 256 <= r.low && r.high < 0xFFFF_0000
    ensures PrescFor(d, hz, Clock(d, hz, p), r) == p
  {
    var target := Clock(d, hz, p);
    SearchNearest(d, hz, target, r, |d|);
    var b := PrescFor(d, hz, target, r);
    assert Off(Clock(d, hz, b), target) <= Off(Clock(d, hz, p), target) == 0;
    if b < p {
      DistinctClocks(d, hz, r, b, p);
    }
  }

  // ---- sequences of rebases --------------------------------------------------------------

  /** The prescaler after a sequence of rates, each rebase aiming at init's CLK_ADC. */
  function AfterEA(d: seq<nat>, target: nat, r: Range, p: nat, rates: seq<nat>): nat
    requires Divisors(d)
    decreases |rates|
  {
    if rates == [] then p else AfterEA(d, target, r, PrescFor(d, rates[0], target, r), rates[1..])
  }

  /** It is the last rate's alone. */
  lemma {:induction false} OnlyTheLast(d: seq<nat>, target: nat, r: Range, p: nat, rates: seq<nat>)
    requires Divisors(d) && rates != []
    ensures AfterEA(d, target, r, p, rates) == PrescFor(d, rates[|rates| - 1], target, r)
    decreases |rates|
  {
    if |rates| > 1 {
      OnlyTheLast(d, target, r, PrescFor(d, rates[0], target, r), rates[1..]);
    }
  }

  /** The same, each aiming at the last CLK_ADC. */
  function AfterDADB(d: seq<nat>, target: nat, r: Range, p: nat, rates: seq<nat>): nat
    requires Divisors(d) && p < |d|
    ensures AfterDADB(d, target, r, p, rates) < |d|
    decreases |rates|
  {
    if rates == [] then p
    else
      var hz := rates[0];
      SearchBelow(d, hz, target, r, |d|);
      var q := PrescFor(d, hz, target, r);
      AfterDADB(d, Clock(d, hz, q), r, q, rates[1..])
  }

  lemma {:induction false} SearchBelow(d: seq<nat>, hz: nat, target: nat, r: Range, n: nat)
    requires Divisors(d) && n <= |d|
    ensures Search(d, hz, target, r, n).p < |d|
    decreases n
  {
    if n > 0 {
      SearchBelow(d, hz, target, r, n - 1);
    }
  }

  /** The AVR EA's clock state: the configuration with its prescaler, CLK_ADC, and
      init's CLK_ADC. */
  class AdcRate {
    var cfg: Config
    var presc: nat
    var clkAdc: nat
    var target: nat
    var clockOk: bool
    ghost var rates: seq<nat>       // of every rebase since init
    ghost var initPresc: nat

    ghost predicate Valid()
      reads this
    {
      && Divisors(EA) && cfg.bias < 4 && presc < |EA| && initPresc < |EA|
      && target <= RangeEA(cfg).high && presc == AfterEA(EA, target, RangeEA(cfg), initPresc, rates)
    }

    /** init, of a configuration that is valid but perhaps for its clock: the target is
        the CLK_ADC it makes; refused, and nothing touched, exactly when that is out of
        its range or SAMPDUR below its floor. */
    method Init(hz: nat, c: Config, p: nat) returns (ok: bool)
      requires Divisors(EA) && c.bias < 4 && p < |EA|
      modifies this
      ensures ok <==> InRange(EA, hz, RangeEA(c), p) && Sampled(c, Clock(EA, hz, p))
      ensures ok ==> Valid() && cfg == c && presc == initPresc == p && rates == [] && clockOk
      ensures ok ==> target == clkAdc == Clock(EA, hz, p)
      ensures !ok ==> unchanged(this)
    {
      if InRange(EA, hz, RangeEA(c), p) {
        FloorIff(c, Clock(EA, hz, p));
      }
      if !ClockValid(hz, c, p) {
        return false;
      }
      cfg, presc, initPresc, rates := c, p, p, [];
      clkAdc := hz / EA[p];
      target, clockOk := clkAdc, true;
      return true;
    }

    /** rebase: the prescaler depends on init's configuration and this rate alone;
        clock_ok says that one is in range, and SAMPDUR long enough for the nearest. */
    method Rebase(hz: nat)
      requires Valid()
      modifies this
      ensures Valid() && rates == old(rates) + [hz] && target == old(target) && initPresc == old(initPresc)
      ensures cfg == old(cfg) && presc == PrescFor(EA, hz, target, RangeEA(cfg))
      ensures Nearest(EA, hz, target, RangeEA(cfg), |EA|, presc) && clkAdc == Clock(EA, hz, presc)
      ensures clockOk <==> (exists i :: 0 <= i < |EA| && InRange(EA, hz, RangeEA(cfg), i)) && Sampled(cfg, clkAdc)
    {
      RangesEA(cfg);
      presc := FindPresc(EA, hz, target, RangeEA(cfg));
      SearchNearest(EA, hz, target, RangeEA(cfg), |EA|);
      OnlyTheLast(EA, target, RangeEA(cfg), initPresc, rates + [hz]);
      rates := rates + [hz];
      clkAdc := hz / EA[presc];
      clockOk := ClockValid(hz, cfg, presc);
      if InRange(EA, hz, RangeEA(cfg), presc) {
        FloorIff(cfg, clkAdc);
      }
    }
  }

  /** Every configuration's range is one the search is right in. */
  lemma RangesEA(c: Config)
    requires c.bias < 4
    ensures 256 <= RangeEA(c).low && RangeEA(c).high <= 6_000_000 && RangeEA(c).low < RangeEA(c).high
  {
  }

  /** Whatever rates came between, init's rate brings init's prescaler back, and its
      clock is valid again. */
  lemma RoundTrip(hz: nat, c: Config, p: nat, rates: seq<nat>)
    requires Divisors(EA) && c.bias < 4 && p < |EA| && ClockValid(hz, c, p)
    ensures AfterEA(EA, Clock(EA, hz, p), RangeEA(c), p, rates + [hz]) == p
  {
    RangesEA(c);
    FindsItself(EA, hz, RangeEA(c), p);
    OnlyTheLast(EA, Clock(EA, hz, p), RangeEA(c), p, rates + [hz]);
    assert (rates + [hz])[|rates|] == hz;
  }

  // ---- the DA/DB's -----------------------------------------------------------------------

  /** Of the prescalers in range only the two neighbours' clocks matter: the target is
      nearer this one's than the faster one's, and no nearer the slower one's. */
  predicate Between(d: seq<nat>, hz: nat, target: nat, r: Range, p: nat)
    requires Divisors(d) && p < |d|
  {
    && (p > 0 && InRange(d, hz, r, p - 1) ==> 2 * target < Clock(d, hz, p - 1) + Clock(d, hz, p))
    && (p + 1 < |d| && InRange(d, hz, r, p + 1) ==> 2 * target >= Clock(d, hz, p) + Clock(d, hz, p + 1))
  }

  /** A smaller divisor never makes a slower clock. */
  lemma Slower(d: seq<nat>, hz: nat, i: nat, j: nat)
    requires Divisors(d) && i <= j < |d|
    ensures Clock(d, hz, i) >= Clock(d, hz, j)
  {
    var q := Clock(d, hz, j);
    assert hz >= q * d[j] && d[j] >= d[i];
    Times(d[i], d[j], q);
    AtLeast(hz, d[i], q);
  }

  /** A code in range beyond a neighbour is no nearer than the neighbour, which is in
      range too. */
  lemma ByNeighbour(d: seq<nat>, hz: nat, target: nat, r: Range, p: nat, i: nat)
    requires Divisors(d) && p < |d| && i < |d| && i != p && InRange(d, hz, r, p) && InRange(d, hz, r, i)
    requires Between(d, hz, target, r, p) && r.low >= 256
    ensures Off(Clock(d, hz, p), target) <= Off(Clock(d, hz, i), target)
    ensures i < p ==> Off(Clock(d, hz, p), target) < Off(Clock(d, hz, i), target)
  {
    if i < p {
      Slower(d, hz, i, p - 1);
      Slower(d, hz, p - 1, p);
      DistinctClocks(d, hz, r, i, p);
    } else {
      Slower(d, hz, p + 1, i);
      Slower(d, hz, p, p + 1);
      DistinctClocks(d, hz, r, p, i);
    }
    hide Clock, Divisors;
  }

  /** What the search answers at a rate that has the code in range. */
  lemma AnswersIff(d: seq<nat>, hz: nat, target: nat, r: Range, p: nat)
    requires Divisors(d) && p < |d| && InRange(d, hz, r, p) && target <= 0xFFFF_0000
    requires r.low >= 256 && r.high < 0xFFFF_0000
    ensures PrescFor(d, hz, target, r) == p <==> Between(d, hz, target, r, p)
  {
    SearchNearest(d, hz, target, r, |d|);
    var b := PrescFor(d, hz, target, r);
    assert Nearest(d, hz, target, r, |d|, b) && InRange(d, hz, r, b);
    if b == p {
      NearestBetween(d, hz, target, r, p);
    } else if Between(d, hz, target, r, p) {
      ByNeighbour(d, hz, target, r, p, b);
    }
  }

  lemma NearestBetween(d: seq<nat>, hz: nat, target: nat, r: Range, p: nat)
    requires Divisors(d) && p < |d| && InRange(d, hz, r, p) && Nearest(d, hz, target, r, |d|, p) && r.low >= 256
    ensures Between(d, hz, target, r, p)
  {
    if p > 0 && InRange(d, hz, r, p - 1) {
      DistinctClocks(d, hz, r, p - 1, p);
    }
    if p + 1 < |d| && InRange(d, hz, r, p + 1) {
      DistinctClocks(d, hz, r, p, p + 1);
    }
    hide Clock, Divisors;
  }

  /** The CLK_ADC a sequence of rates leaves: what the next rebase aims at. */
  function LeftDADB(d: seq<nat>, target: nat, r: Range, rates: seq<nat>): nat
    requires Divisors(d)
    decreases |rates|
  {
    if rates == [] then target
    else
      SearchBelow(d, rates[0], target, r, |d|);
      LeftDADB(d, Clock(d, rates[0], PrescFor(d, rates[0], target, r)), r, rates[1..])
  }

  lemma {:induction false} LastAims(d: seq<nat>, target: nat, r: Range, p: nat, rates: seq<nat>, hz: nat)
    requires Divisors(d) && p < |d|
    ensures AfterDADB(d, target, r, p, rates + [hz]) == PrescFor(d, hz, LeftDADB(d, target, r, rates), r)
    decreases |rates|
  {
    SearchBelow(d, hz, target, r, |d|);
    if rates == [] {
      assert ([] + [hz])[1..] == [];
    } else {
      SearchBelow(d, rates[0], target, r, |d|);
      var q := PrescFor(d, rates[0], target, r);
      assert (rates + [hz])[1..] == rates[1..] + [hz];
      LastAims(d, Clock(d, rates[0], q), r, q, rates[1..], hz);
    }
  }

  lemma HalfAtMost(d: seq<nat>, hz: nat, q: nat)
    requires Divisors(d) && q < |d| && d[0] >= 2 && hz < 0x1_0000_0000
    ensures Clock(d, hz, q) < 0x8000_0000
  {
    Slower(d, hz, 0, q);
  }

  lemma {:induction false} LeftBounded(d: seq<nat>, target: nat, r: Range, rates: seq<nat>)
    requires Divisors(d) && target < 0x8000_0000 && d[0] >= 2
    requires forall i :: 0 <= i < |rates| ==> rates[i] < 0x1_0000_0000
    ensures LeftDADB(d, target, r, rates) < 0x8000_0000
    decreases |rates|
  {
    if rates != [] {
      SearchBelow(d, rates[0], target, r, |d|);
      var q := PrescFor(d, rates[0], target, r);
      HalfAtMost(d, rates[0], q);
      hide Search, Divisors, Clock;
      LeftBounded(d, Clock(d, rates[0], q), r, rates[1..]);
    }
  }

  /**
   The DA/DB's rebase aims at the CLK_ADC in effect, and does not come back: at init's
   rate again the prescaler is init's exactly when the CLK_ADC the rates between left
   lies between init's and its neighbours' in range.
  */
  lemma BackIff(hz: nat, p: nat, rates: seq<nat>)
    requires Divisors(DADB) && p < |DADB| && InRange(DADB, hz, RANGE_DADB, p)
    requires forall i :: 0 <= i < |rates| ==> rates[i] < 0x1_0000_0000
    ensures var init := Clock(DADB, hz, p);
      AfterDADB(DADB, init, RANGE_DADB, p, rates + [hz]) == p
      <==> Between(DADB, hz, LeftDADB(DADB, init, RANGE_DADB, rates), RANGE_DADB, p)
  {
    var init := Clock(DADB, hz, p);
    LastAims(DADB, init, RANGE_DADB, p, rates, hz);
    LeftBounded(DADB, init, RANGE_DADB, rates);
    AnswersIff(DADB, hz, LeftDADB(DADB, init, RANGE_DADB, rates), RANGE_DADB, p);
  }

  /** One rate between: a test on what the search answers there. */
  lemma BackFromOne(hz: nat, p: nat, x: nat)
    requires Divisors(DADB) && p < |DADB| && InRange(DADB, hz, RANGE_DADB, p) && x < 0x1_0000_0000
    ensures var q := PrescFor(DADB, x, Clock(DADB, hz, p), RANGE_DADB);
      && q < |DADB|
      && (AfterDADB(DADB, Clock(DADB, hz, p), RANGE_DADB, p, [x, hz]) == p
          <==> Between(DADB, hz, Clock(DADB, x, q), RANGE_DADB, p))
  {
    SearchBelow(DADB, x, Clock(DADB, hz, p), RANGE_DADB, |DADB|);
    BackIff(hz, p, [x]);
    assert [x] + [hz] == [x, hz] && [x][1..] == [];
  }

  /** 24 MHz by 16, down to 10 MHz and back, ends at 20. */
  lemma DriftDADB()
    ensures Divisors(DADB) && InRange(DADB, 24_000_000, RANGE_DADB, 4)
    ensures AfterDADB(DADB, Clock(DADB, 24_000_000, 4), RANGE_DADB, 4, [10_000_000, 24_000_000]) == 5
  {
    BothTables();
    AtTen();
    AtTwentyFour();
    TwoRates(DADB, 1_500_000, RANGE_DADB, 4, 10_000_000, 24_000_000, 2);
  }

  lemma AtTen()
    ensures Divisors(DADB) && PrescFor(DADB, 10_000_000, 1_500_000, RANGE_DADB) == 2
    ensures Clock(DADB, 10_000_000, 2) == 1_250_000
  {
    BothTables();
    var f := [5_000_000, 2_500_000, 1_250_000, 833_333, 625_000, 500_000, 416_666, 357_142, 312_500, 208_333,
              156_250, 104_166, 78_125, 39_062];
    assert forall i :: 0 <= i < 14 ==> Clock(DADB, 10_000_000, i) == f[i];
    hide Clock, PrescFor;
    Picks(10_000_000, 1_500_000, 2);
  }

  lemma AtTwentyFour()
    ensures Divisors(DADB) && PrescFor(DADB, 24_000_000, 1_250_000, RANGE_DADB) == 5
    ensures Clock(DADB, 24_000_000, 4) == 1_500_000 && InRange(DADB, 24_000_000, RANGE_DADB, 4)
  {
    BothTables();
    var f := [12_000_000, 6_000_000, 3_000_000, 2_000_000, 1_500_000, 1_200_000, 1_000_000, 857_142, 750_000,
              500_000, 375_000, 250_000, 187_500, 93_750];
    assert forall i :: 0 <= i < 14 ==> Clock(DADB, 24_000_000, i) == f[i];
    hide Clock, PrescFor;
    Picks(24_000_000, 1_250_000, 5);
  }

  lemma TwoRates(d: seq<nat>, target: nat, r: Range, p: nat, x: nat, y: nat, q: nat)
    requires Divisors(d) && p < |d| && q < |d| && PrescFor(d, x, target, r) == q
    ensures AfterDADB(d, target, r, p, [x, y]) == PrescFor(d, y, Clock(d, x, q), r)
  {
    hide PrescFor, Search, Divisors, Clock;
    assert [x, y][1..] == [y];
    assert AfterDADB(d, Clock(d, x, q), r, q, [y]) == PrescFor(d, y, Clock(d, x, q), r) by {
      assert [y][1..] == [];
    }
  }

  /** A code in range and nearer than every other is the one the search answers. */
  lemma Picks(hz: nat, target: nat, p: nat)
    requires Divisors(DADB) && p < 14 && target <= 2_000_000
    requires InRange(DADB, hz, RANGE_DADB, p)
    requires forall i :: 0 <= i < 14 && i != p && InRange(DADB, hz, RANGE_DADB, i) ==>
      Off(Clock(DADB, hz, p), target) < Off(Clock(DADB, hz, i), target)
    ensures PrescFor(DADB, hz, target, RANGE_DADB) == p
  {
    SearchNearest(DADB, hz, target, RANGE_DADB, 14);
  }
}

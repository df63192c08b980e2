/**
 Microsecond delays (brio/avrxt/delay.hpp:92-221): the turns of a four-cycle loop each
 path takes, and exactly when they are the microseconds asked for.
*/
module Delay {
  import opened Basics
  import DynamicClock

  const U16: nat := 0x1_0000
  const U32: nat := 0x1_0000_0000

  /** A variable of the code's that is sixteen bits wide, and one of thirty-two: every
      value the methods below keep in one is proved to fit it. */
  type Half = x: nat | x < 0x1_0000
  type Full = x: nat | x < 0x1_0000_0000

  /** _delay_loop_2's turns: a zero is 65536 of them. Four cycles each. */
  function Turns(n: nat): nat { if n % U16 == 0 then U16 else n % U16 }

  class Cpu {
    /** CPU cycles spent turning. */
    var spent: nat

    method Loop2(n: Half)
      modifies this
      ensures spent == old(spent) + 4 * Turns(n)
    {
      spent := spent + 4 * Turns(n);
    }

    /** delay_loops: chunks of 16 bits. */
    method Loops(loops: Full)
      modifies this
      ensures spent == old(spent) + 4 * loops
    {
      var left: Full := loops;
      while left > 0xFFFF
        invariant 0 <= left <= loops && spent == old(spent) + 4 * (loops - left)
      {
        Loop2(0xFFFF);
        left := left - 0xFFFF;
      }
      if left > 0 {
        Loop2(left);
      }
    }

    /** delay_us_fixed_body: a multiply and a shift for each 65535 us. */
    method Fixed(mult: Half, us: Full)
      modifies this
      ensures spent == old(spent) + 4 * FixedTurns(mult, us)
    {
      var left: Full := us;
      while left != 0
        invariant 0 <= left <= us && spent + 4 * FixedTurns(mult, left) == old(spent) + 4 * FixedTurns(mult, us)
      {
        var chunk: Half := if left > 0xFFFF then 0xFFFF else left;
        HalfProduct(chunk, mult);
        var product: Full := chunk * mult;
        Loops(product / 4096 + 1);
        left := left - chunk;
      }
    }

    /** delay_us_runtime: at `cpu` cycles to the microsecond. */
    method Runtime(cpu: nat, us: Full)
      requires cpu < 256
      modifies this
      ensures spent == old(spent) + RuntimeSpent(cpu, us)
    {
      if us < 256 {
        ByteProduct(cpu, us);
        var cycles: Half := cpu * us;
        var raised: Half := cycles + 3;
        var turns: Half := raised / 4;
        if turns != 0 {
          Loop2(turns);
        }
        return;
      }
      Fixed(RuntimeMult(cpu), us);
    }

    /** delay_us_dispatch: the branch of the clock's current index, and of no other; past
        the last index, nothing. */
    method Dispatch(rates: seq<nat>, idx: nat, us: Full, i: nat)
      requires i <= |rates| && i <= idx
      modifies this
      ensures spent == old(spent) + if idx < |rates| then 4 * FixedTurns(Mult(rates[idx]), us) else 0
      decreases |rates| - i
    {
      if i < |rates| {
        if idx == i {
          Fixed(Mult(rates[i]), us);
          return;
        }
        Dispatch(rates, idx, us, i + 1);
      }
    }
  }

  lemma HalfProduct(a: Half, b: Half)
    ensures a * b < U32
  {
    Times(a, 0xFFFF, b);
    assert 0xFFFF * b <= 0xFFFF * 0xFFFF;
  }

  lemma ByteProduct(a: nat, b: nat)
    requires a < 256 && b < 256
    ensures a * b <= 65025
  {
    Times(a, 255, b);
    assert 255 * b <= 255 * 255;
  }

  function FixedTurns(mult: nat, us: nat): nat
    decreases us
  {
    if us == 0 then 0
    else
      var chunk := if us > 0xFFFF then 0xFFFF else us;
      chunk * mult / 4096 + 1 + FixedTurns(mult, us - chunk)
  }

  function RuntimeMult(cpu: nat): Half { if cpu >= 64 then 0xFFFF else cpu * 1024 }

  function RuntimeSpent(cpu: nat, us: nat): nat {
    if us < 256 then 4 * ((cpu * us + 3) / 4) else 4 * FixedTurns(RuntimeMult(cpu), us)
  }

  // ---- a rate's factor ----------------------------------------------------------------------

  /** delay_mult: loop turns to the microsecond in Q4.12, rounded up, in 16 bits. */
  function Mult(rate: nat): Half { (rate * 4096 + 3_999_999) / 4_000_000 % U16 }

  /** The cycles are `us` microseconds of `rate`, or more. */
  predicate Waits(cycles: nat, rate: nat, us: nat) { cycles * 1_000_000 >= us * rate }

  /** A slice's turns outlast it when the factor is not short. */
  lemma SliceWaits(mult: nat, rate: nat, chunk: nat)
    requires mult * 4_000_000 >= rate * 4096
    ensures 4 * (chunk * mult / 4096 + 1) * 1_000_000 >= chunk * rate
  {
    var p := chunk * mult;
    assert 4096 * (p / 4096 + 1) >= p;
    Times(rate * 4096, mult * 4_000_000, chunk);
    assert (rate * 4096) * chunk == 4096 * (chunk * rate);
    assert (mult * 4_000_000) * chunk == 4_000_000 * p;
  }

  lemma {:induction false} FixedWaits(mult: nat, rate: nat, us: nat)
    requires mult * 4_000_000 >= rate * 4096
    ensures Waits(4 * FixedTurns(mult, us), rate, us)
    decreases us
  {
    if us > 0 {
      var chunk := if us > 0xFFFF then 0xFFFF else us;
      SliceWaits(mult, rate, chunk);
      FixedWaits(mult, rate, us - chunk);
      assert us * rate == chunk * rate + (us - chunk) * rate;
    }
  }

  /** No turn more than a slice's own: nothing is waited much past the factor. */
  lemma {:induction false} FixedClose(mult: nat, us: nat)
    ensures 4096 * FixedTurns(mult, us) <= us * mult + 4096 * ((us + 0xFFFE) / 0xFFFF)
    decreases us
  {
    if us > 0 {
      var chunk := if us > 0xFFFF then 0xFFFF else us;
      FixedClose(mult, us - chunk);
      assert us * mult == chunk * mult + (us - chunk) * mult;
      assert 4096 * (chunk * mult / 4096) <= chunk * mult;
      assert (us + 0xFFFE) / 0xFFFF == 1 + (us - chunk + 0xFFFE) / 0xFFFF;
    }
  }

  /** Nor past a byte of cycles: less than a turn, below 256 us. */
  lemma RuntimeClose(cpu: nat, us: nat)
    requires us < 256
    ensures RuntimeSpent(cpu, us) < cpu * us + 4
  {
  }

  /** The rates delay_us_at takes: for all of them but those above 63,999,023 Hz the wait
      is long enough for every length. Above, the factor is 65536, its 16 bits hold zero,
      and a microsecond's wait is one turn. */
  lemma RateWaitsIff(rate: nat)
    requires 0 < rate < 64_000_000
    ensures (forall us: nat :: us < U32 ==> Waits(4 * FixedTurns(Mult(rate), us), rate, us)) <==> rate <= 63_999_023
  {
    if rate <= 63_999_023 {
      assert (rate * 4096 + 3_999_999) / 4_000_000 < U16;
      forall us: nat | us < U32 ensures Waits(4 * FixedTurns(Mult(rate), us), rate, us) {
        FixedWaits(Mult(rate), rate, us);
      }
    } else {
      assert (rate * 4096 + 3_999_999) / 4_000_000 == U16 && Mult(rate) == 0;
      assert FixedTurns(0, 1) == 1;
      assert !Waits(4 * FixedTurns(Mult(rate), 1), rate, 1);
    }
  }

  /** The rates of a dynamic clock, by index. */
  function RatesOf(source: nat): seq<nat> {
    seq(12, i requires 0 <= i < 12 => source / DynamicClock.Div(i))
  }

  /** Under a dynamic clock every index waits its own rate out, for every length, while the
      source is no faster than that. */
  lemma DispatchWaits(source: nat, i: nat, us: nat)
    requires 64 <= source <= 63_999_023 && i < 12
    ensures Waits(4 * FixedTurns(Mult(RatesOf(source)[i]), us), RatesOf(source)[i], us)
  {
    var d := DynamicClock.Div(i);
    var rate := RatesOf(source)[i];
    assert rate == source / d && rate <= source;
    hide RatesOf;
    assert Mult(rate) * 4_000_000 >= rate * 4096;
    FixedWaits(Mult(rate), rate, us);
  }

  // ---- a stored byte of cycles ------------------------------------------------------------------

  /** At a byte of cycles to the microsecond: always below 256 us, and below 64 cycles;
      at 64 the saturated factor still does for 4096 us, and above it never does. The
      saturation is short, not long. */
  lemma RuntimeWaitsIff(cpu: nat, us: nat)
    requires cpu < 256
    ensures RuntimeSpent(cpu, us) >= cpu * us <==> us < 256 || cpu < 64 || (cpu == 64 && us <= 4096)
  {
    if us >= 256 {
      if cpu < 64 {
        FixedWaits(cpu * 1024, cpu * 1_000_000, us);
        assert us * (cpu * 1_000_000) == 1_000_000 * (cpu * us);
      } else {
        Saturated(us);
        Times(64, cpu, us);
        if cpu > 64 {
          Times(65, cpu, us);
          SaturatedAtMost(us);
        }
      }
    }
  }

  /** What the saturated factor spends, slice by slice. */
  lemma {:induction false} Saturated(us: nat)
    ensures 4 * FixedTurns(0xFFFF, us) >= 64 * us <==> us <= 4096
    ensures us > 4096 ==> 4 * FixedTurns(0xFFFF, us) < 64 * us
    decreases us
  {
    if us > 0 {
      var chunk := if us > 0xFFFF then 0xFFFF else us;
      OneSlice(chunk);
      if us > 0xFFFF {
        Saturated(us - chunk);
        assert FixedTurns(0xFFFF, us) == 0xFFFF * 0xFFFF / 4096 + 1 + FixedTurns(0xFFFF, us - chunk);
        SmallRest(us - chunk);
      } else {
        assert FixedTurns(0xFFFF, 0) == 0;
      }
    }
  }

  /** A slice spends sixteen turns a microsecond, less one for each 4096 begun, plus one. */
  lemma OneSlice(chunk: nat)
    requires 0 < chunk <= 0xFFFF
    ensures chunk * 0xFFFF / 4096 + 1 == 16 * chunk - (chunk + 4095) / 4096 + 1
  {
  }

  lemma {:induction false} SmallRest(us: nat)
    ensures FixedTurns(0xFFFF, us) <= 16 * us
    decreases us
  {
    if us > 0 {
      var chunk := if us > 0xFFFF then 0xFFFF else us;
      OneSlice(chunk);
      SmallRest(us - chunk);
    }
  }

  lemma SaturatedAtMost(us: nat)
    requires us >= 256
    ensures 4 * FixedTurns(0xFFFF, us) < 65 * us
  {
    SmallRest(us);
  }

  // ---- a constant length --------------------------------------------------------------------------

  /** The folded path's cycle count, in 32 bits. */
  function Folded(rate: nat, us: nat): nat { (us * rate + 999_999) / 1_000_000 % U32 }

  /** A constant length is waited out exactly while its cycles fit 32 bits. */
  lemma FoldedWaitsIff(rate: nat, us: nat)
    ensures Waits(Folded(rate, us), rate, us) <==> (us * rate + 999_999) / 1_000_000 < U32
  {
    var x := us * rate;
    Ceiling(x);
  }

  lemma Ceiling(x: nat)
    ensures (x + 999_999) / 1_000_000 % U32 * 1_000_000 >= x <==> (x + 999_999) / 1_000_000 < U32
  {
    var c := (x + 999_999) / 1_000_000;
    assert c * 1_000_000 >= x && (c == 0 || (c - 1) * 1_000_000 < x);
    if c >= U32 {
      assert c % U32 <= c - U32;
    }
  }
}

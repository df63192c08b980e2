/**
 The ladder of an op amp and the three-op-amp instrumentation amplifier
 (brio/avrxt/opamp.hpp:226-293, 788-881).
*/
module OpampLadder {
  import opened Basics

  // ---- lowest terms ------------------------------------------------------------------------

  function Gcd(a: nat, b: nat): (g: nat)
    ensures a > 0 || b > 0 ==> g > 0
    decreases b
  {
    if b == 0 then a else Gcd(b, a % b)
  }

  /** opamp_gcd, over what its 16 bits hold: not -32768, which has no magnitude there. */
  method FindGcd(num: int, den: nat) returns (g: nat)
    requires -32768 < num < 32768 && den < 32768
    ensures g == if num == 0 && den == 0 then 1 else Gcd(if num < 0 then -num else num, den)
  {
    var a: nat, b: nat := if num < 0 then -num else num, den;
    while b != 0
      invariant Gcd(a, b) == Gcd(if num < 0 then -num else num, den)
      decreases b
    {
      a, b := b, a % b;
    }
    g := if a == 0 then 1 else a;
  }

  /** The gcd is a combination of the two, and divides them. */
  lemma {:induction false} Bezout(a: nat, b: nat) returns (x: int, y: int)
    requires a > 0 || b > 0
    ensures a * x + b * y == Gcd(a, b)
    decreases b
  {
    if b == 0 {
      x, y := 1, 0;
    } else {
      var u, v := Bezout(b, a % b);
      x, y := v, u - a / b * v;
      Regroup(a, b, a / b, a % b, u, v);
    }
  }

  lemma Regroup(a: nat, b: nat, q: int, r: int, u: int, v: int)
    requires a == b * q + r
    ensures a * v + b * (u - q * v) == b * u + r * v
  {
    assert a * v == b * q * v + r * v;
    assert b * (u - q * v) == b * u - b * (q * v);
    assert b * (q * v) == b * q * v;
  }

  lemma {:induction false} Divides(a: nat, b: nat) returns (m: nat, n: nat)
    requires a > 0 || b > 0
    ensures a == Gcd(a, b) * m && b == Gcd(a, b) * n
    decreases b
  {
    if b == 0 {
      m, n := 1, 0;
    } else {
      var p, q := Divides(b, a % b);
      m, n := p * (a / b) + q, p;
      Recombine(a, b, Gcd(b, a % b), p, q);
    }
  }

  lemma Recombine(a: nat, b: nat, g: nat, p: nat, q: nat)
    requires b > 0 && b == g * p && a % b == g * q
    ensures a == g * (p * (a / b) + q)
  {
    var k := a / b;
    assert a == b * k + a % b;
    assert g * (p * k + q) == g * (p * k) + g * q;
    assert g * (p * k) == g * p * k;
  }

  /** A rational in lowest terms. */
  datatype Ratio = Ratio(num: int, den: int)

  function Abs(x: int): nat { if x < 0 then -x else x }

  /** opamp_reduce. */
  function Reduce(num: int, den: nat): Ratio
    requires den > 0
  {
    var g := Gcd(Abs(num), den);
    Ratio(if num < 0 then -(-num / g) else num / g, den / g)
  }

  /** No common factor: some combination is one. */
  ghost predicate Coprime(a: int, b: int) { exists x: int, y: int :: Combines(a, b, x, y) }

  predicate Combines(a: int, b: int, x: int, y: int) { a * x + b * y == 1 }

  lemma Reduced(num: int, den: nat)
    requires den > 0
    ensures var r := Reduce(num, den);
      r.den > 0 && num * r.den == r.num * den && Coprime(r.num, r.den)
  {
    var a := Abs(num);
    var g := Gcd(a, den);
    var m, n := Divides(a, den);
    var x, y := Bezout(a, den);
    hide Gcd, Coprime;
    Quotient(m, g);
    Quotient(n, g);
    assert g * m == m * g && g * n == n * g;
    Parts(g, m, n, x, y);
    var k: int := m;
    assert Reduce(num, den) == Ratio(if num < 0 then -k else k, n);
    if num < 0 {
      Negate(m, n, x, y, g);
    }
  }

  /** The two parts of a reduced fraction combine to one, and cross out. */
  lemma Parts(g: nat, m: nat, n: nat, x: int, y: int)
    requires g > 0 && g * n > 0 && g * m * x + g * n * y == g
    ensures n > 0 && Coprime(m, n) && g * m * n == m * (g * n)
  {
    assert g * (m * x + n * y) == (g * m) * x + (g * n) * y;
    IsOne(g, m * x + n * y);
    assert Combines(m, n, x, y);
  }

  lemma Negate(m: int, n: int, x: int, y: int, g: int)
    requires Coprime(m, n)
    ensures Coprime(-m, n) && -(g * m) * n == -m * (g * n)
  {
    var u: int, v: int :| Combines(m, n, u, v);
    assert (-m) * (-u) == m * u;
    assert Combines(-m, n, -u, v);
    assert g * m * n == m * (g * n);
  }

  lemma IsOne(g: nat, k: int)
    requires g > 0 && g * k == g
    ensures k == 1
  {
    if k > 1 {
      assert false;
    } else if k < 1 {
      assert false;
    }
  }

  /** Two fractions in lowest terms that are equal are the same fraction. */
  lemma LowestUnique(a: Ratio, b: Ratio)
    requires a.den > 0 && b.den > 0 && a.num * b.den == b.num * a.den
    requires Coprime(a.num, a.den) && Coprime(b.num, b.den)
    ensures a == b
  {
    var x: int, y: int :| Combines(a.num, a.den, x, y);
    var u: int, v: int :| Combines(b.num, b.den, u, v);
    Multiple(a, b, x, y);
    Multiple(b, a, u, v);
    var p, q := b.num * x + b.den * y, a.num * u + a.den * v;
    assert b.den == a.den * p && a.den == b.den * q;
    SameSize(a.den, b.den, p, q);
    SameFactor(a.den, a.num, b.num);
  }

  /** One denominator divides the other. */
  lemma Multiple(a: Ratio, b: Ratio, x: int, y: int)
    requires a.num * b.den == b.num * a.den && Combines(a.num, a.den, x, y)
    ensures b.den == a.den * (b.num * x + b.den * y)
  {
    assert b.den == b.den * (a.num * x + a.den * y);
    assert b.den * (a.num * x + a.den * y) == (a.num * b.den) * x + a.den * (b.den * y);
    assert (b.num * a.den) * x == a.den * (b.num * x);
    assert a.den * (b.num * x) + a.den * (b.den * y) == a.den * (b.num * x + b.den * y);
  }

  lemma SameSize(a: int, b: int, p: int, q: int)
    requires a > 0 && b > 0 && b == a * p && a == b * q
    ensures a == b
  {
    if p <= 0 {
      assert false;
    }
    if q <= 0 {
      assert false;
    }
    assert a * p >= a && b * q >= b;
  }

  lemma SameFactor(d: int, x: int, y: int)
    requires d > 0 && x * d == y * d
    ensures x == y
  {
    if x < y {
      assert false;
    } else if y < x {
      assert false;
    }
  }

  /** Reduced forms agree exactly when the rationals do. */
  lemma ReduceIff(num: int, den: nat, p: int, q: nat)
    requires den > 0 && q > 0
    ensures Reduce(num, den) == Reduce(p, q) <==> num * q == p * den
  {
    var a, b := Reduce(num, den), Reduce(p, q);
    Reduced(num, den);
    Reduced(p, q);
    if a == b {
      CrossBack(num, den, p, q, a.num, a.den);
    }
    if num * q == p * den {
      Cross(num, den, p, q, a, b);
      LowestUnique(a, b);
    }
  }

  lemma CrossBack(num: int, den: int, p: int, q: int, n: int, d: int)
    requires d > 0 && num * d == n * den && p * d == n * q
    ensures num * q == p * den
  {
    assert num * q * d == n * den * q && p * den * d == n * q * den;
    assert n * den * q == n * q * den;
    SameFactor(d, num * q, p * den);
  }

  lemma Cross(num: int, den: int, p: int, q: int, a: Ratio, b: Ratio)
    requires den > 0 && q > 0 && num * q == p * den
    requires num * a.den == a.num * den && p * b.den == b.num * q
    ensures a.num * b.den == b.num * a.den
  {
    assert a.num * b.den * (den * q) == (a.num * den) * (b.den * q) == (num * a.den) * (b.den * q);
    assert b.num * a.den * (den * q) == (b.num * q) * (a.den * den) == (p * b.den) * (a.den * den);
    assert (num * a.den) * (b.den * q) == (num * q) * (a.den * b.den);
    assert (p * b.den) * (a.den * den) == (p * den) * (a.den * b.den);
    assert den * q > 0;
    SameFactor(den * q, a.num * b.den, b.num * a.den);
  }

  // ---- the ladder ------------------------------------------------------------------------------

  /** R1, below the wiper, in units of R; the whole ladder is 16 of them. */
  const BELOW: seq<nat> := [15, 14, 12, 8, 6, 4, 2, 1]

  function R1(w: nat): (r: nat)
    requires w < 8
    ensures 1 <= r <= 15
  {
    BELOW[w]
  }

  lemma WipersDiffer(v: nat, w: nat)
    requires v < 8 && w < 8 && R1(v) == R1(w)
    ensures v == w
  {
  }

  /** opamp_noninverting_wiper and opamp_inverting_wiper: the wiper whose gain is the
      rational asked for, whatever terms it is asked in, or nothing when none is. */
  method WiperFor(num: int, den: nat, inverting: bool) returns (w: Option<nat>)
    requires -32768 < num < 32768 && 0 < den < 32768
    ensures w.Some? ==> w.value < 8 && GainIs(w.value, inverting, num, den)
    ensures w.None? ==> forall v :: 0 <= v < 8 ==> !GainIs(v, inverting, num, den)
  {
    var i := 0;
    while i < 8
      invariant i <= 8 && forall v :: 0 <= v < i ==> !GainIs(v, inverting, num, den)
    {
      var top := if inverting then -(16 - R1(i)) else 16;
      ReduceIff(top, R1(i), num, den);
      if Reduce(top, R1(i)) == Reduce(num, den) {
        return Some(i);
      }
      i := i + 1;
    }
    return None;
  }

  /** 1 + R2/R1, or -R2/R1. */
  predicate GainIs(w: nat, inverting: bool, num: int, den: nat)
    requires w < 8
  {
    (if inverting then -(16 - R1(w)) else 16) * den == num * R1(w)
  }

  /** An ideal op amp with its ladder on its output: the inverting input is the wiper's, R1
      up from ground, and equal to the voltage amplified; or, inverting, R1 up from that
      voltage, and at ground. */
  predicate Stage(w: nat, inverting: bool, v: real, out: real)
    requires w < 8
  {
    if inverting then v + (out - v) * R1(w) as real / 16.0 == 0.0 else v == out * R1(w) as real / 16.0
  }

  /** The gain of a wiper is what the stage makes of every voltage. */
  lemma GainAmplifies(w: nat, inverting: bool, num: int, den: nat)
    requires w < 8 && den > 0
    ensures GainIs(w, inverting, num, den) <==>
            forall v: real, out: real :: Stage(w, inverting, v, out) ==> out * den as real == num as real * v
  {
    var r, top := R1(w), if inverting then -(16 - R1(w)) else 16;
    hide R1;
    forall v: real, out: real | Stage(w, inverting, v, out) ensures out * r as real == top as real * v {
    }
    if GainIs(w, inverting, num, den) {
      forall v: real, out: real | Stage(w, inverting, v, out) ensures out * den as real == num as real * v {
        Crossed(out, v, r as real, top as real, den as real, num as real);
      }
    } else {
      var out := top as real / r as real;
      assert Stage(w, inverting, 1.0, out);
      if out * den as real == num as real * 1.0 {
        CrossedBack(out, r, top, den, num);
      }
    }
  }

  lemma CrossedBack(out: real, r: int, top: int, den: int, num: int)
    requires out * r as real == top as real && out * den as real == num as real
    ensures top * den == num * r
  {
    assert top as real * den as real == num as real * r as real;
    assert (top * den) as real == (num * r) as real;
  }

  lemma Crossed(out: real, v: real, r: real, top: real, den: real, num: real)
    requires r > 0.0 && out * r == top * v && top * den == num * r
    ensures out * den == num * v
  {
    assert out * den * r == top * v * den == num * r * v;
    assert (out * den - num * v) * r == 0.0;
  }

  /** And there is one such wiper at most. */
  lemma OneWiper(v: nat, w: nat, inverting: bool, num: int, den: nat)
    requires v < 8 && w < 8 && den > 0 && GainIs(v, inverting, num, den) && GainIs(w, inverting, num, den)
    ensures v == w
  {
    var a, b := R1(v), R1(w);
    var n := if inverting then num - den else num;
    assert n * a == n * b by {
      assert (num - den) * a == num * a - den * a && (num - den) * b == num * b - den * b;
    }
    assert n != 0 by { NotZero(inverting, num, den, a); }
    SameProduct(n, a, b);
    WipersDiffer(v, w);
  }

  lemma NotZero(inverting: bool, num: int, den: nat, r: nat)
    requires den > 0 && 1 <= r <= 15 && (if inverting then -(16 - r) else 16) * den == num * r
    ensures if inverting then num != den else num != 0
  {
    if inverting && num == den {
      assert false;
    }
  }

  lemma SameProduct(n: int, a: int, b: int)
    requires n != 0 && n * a == n * b
    ensures a == b
  {
    assert n * (a - b) == 0;
  }

  // ---- the instrumentation amplifier -------------------------------------------------------------

  /** Table 35-14: a gain's rational and its two wipers. */
  datatype Row = Row(num: nat, den: nat, op0: nat, op2: nat)

  const TABLE: seq<Row> :=
    [Row(1, 15, 7, 0), Row(1, 7, 6, 1), Row(1, 3, 5, 2), Row(1, 1, 3, 3), Row(3, 1, 2, 5), Row(7, 1, 1, 6),
     Row(15, 1, 0, 7)]

  /** Ideal op amps: OP0 holds v2 and its ladder's wiper feeds OP2, whose own ladder runs
      from its output down to v1; OP2's two inputs are equal. */
  predicate Balanced(op0: nat, op2: nat, v1: real, v2: real, out: real)
    requires op0 < 8 && op2 < 8
  {
    v2 * R1(op0) as real / 16.0 == v1 + (out - v1) * R1(op2) as real / 16.0
  }

  /** For every row and all voltages the output is the gain times the difference. */
  lemma RowAmplifies(i: nat, v1: real, v2: real, out: real)
    requires i < 7 && Balanced(TABLE[i].op0, TABLE[i].op2, v1, v2, out)
    ensures out * TABLE[i].den as real == TABLE[i].num as real * (v2 - v1)
  {
  }

  /** Two wipers make a difference amplifier of some gain exactly when their resistances
      add up to the ladder, which is when they are a row of the table. */
  lemma SevenGains(op0: nat, op2: nat)
    requires op0 < 8 && op2 < 8
    ensures Difference(op0, op2) <==> R1(op0) + R1(op2) == 16
    ensures R1(op0) + R1(op2) == 16 <==> exists i :: 0 <= i < 7 && TABLE[i].op0 == op0 && TABLE[i].op2 == op2
  {
    InTable(op0, op2);
    if R1(op0) + R1(op2) == 16 {
      var g := R1(op0) as real / R1(op2) as real;
      forall v1: real, v2: real, out: real | Balanced(op0, op2, v1, v2, out) ensures out == g * (v2 - v1) {
      }
      assert Amplifies(op0, op2, g);
    }
    if g: real :| Amplifies(op0, op2, g) {
      var o := 1.0 - 16.0 / R1(op2) as real;
      assert Balanced(op0, op2, 1.0, 0.0, o);
      var u := R1(op0) as real / R1(op2) as real;
      assert Balanced(op0, op2, 0.0, 1.0, u);
      assert o == -g && u == g;
    }
  }

  ghost predicate Amplifies(op0: nat, op2: nat, g: real)
    requires op0 < 8 && op2 < 8
  {
    forall v1: real, v2: real, out: real :: Balanced(op0, op2, v1, v2, out) ==> out == g * (v2 - v1)
  }

  ghost predicate Difference(op0: nat, op2: nat)
    requires op0 < 8 && op2 < 8
  {
    exists g: real :: Amplifies(op0, op2, g)
  }

  lemma InTable(op0: nat, op2: nat)
    requires op0 < 8 && op2 < 8
    ensures R1(op0) + R1(op2) == 16 <==> exists i :: 0 <= i < 7 && TABLE[i].op0 == op0 && TABLE[i].op2 == op2
  {
    var i := if op0 >= 5 then 7 - op0 else if op0 == 4 then 7 else 6 - op0;
    assert i < 7 ==> TABLE[i].op0 == op0;
    if R1(op0) + R1(op2) == 16 {
      assert i < 7;
      WipersDiffer(op2, TABLE[i].op2);
    }
    assert forall j :: 0 <= j < 7 ==> R1(TABLE[j].op0) + R1(TABLE[j].op2) == 16;
  }
}

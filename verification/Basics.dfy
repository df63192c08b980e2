/** The types every other module shares. */
module Basics {

  /** One byte of a register, a buffer or a memory. */
  newtype byte = x: int | 0 <= x < 0x100

  datatype Option<+T> = None | Some(value: T)

  /** The sequence an optional value stands for: itself, or nothing. */
  function Opt<T>(o: Option<T>): seq<T> {
    match o
    case None => []
    case Some(v) => [v]
  }

  /** The bytes a transfer of `len` sends: the caller's, or a fill. */
  function Line(hasOut: bool, out: seq<byte>, fill: byte, len: nat): (line: seq<byte>)
    requires hasOut ==> len <= |out|
    ensures |line| == len
  {
    if hasOut then out[..len] else seq(len, _ => fill)
  }

  // ---- products and quotients ----------------------------------------------------

  lemma Times(m: nat, q: nat, d: nat)
    requires m <= q
    ensures m * d <= q * d
  {
  }

  lemma Quotient(q: nat, d: nat)
    requires d > 0
    ensures q * d / d == q && q * d % d == 0
  {
    var m, r := q * d / d, q * d % d;
    assert q * d == m * d + r && 0 <= r < d;
    if m < q {
      Times(m + 1, q, d);
    } else if q < m {
      Times(q + 1, m, d);
    }
  }

  /** A quotient is at least `q` when the dividend is. */
  lemma AtLeast(x: nat, d: nat, q: nat)
    requires d > 0 && x >= q * d
    ensures x / d >= q
  {
    var m := x / d;
    assert x == m * d + x % d && x % d < d;
    if m < q {
      assert false by { Times(m + 1, q, d); }
    }
  }
}

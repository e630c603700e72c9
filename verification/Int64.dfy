/** Two's-complement arithmetic of Go's int64. */
module Int64 {
  const MAX := 0x7FFF_FFFF_FFFF_FFFF
  const MIN := -0x8000_0000_0000_0000
  const MODULUS := 0x1_0000_0000_0000_0000

  function Wrap(x: int): (r: int)
    ensures MIN <= r <= MAX
    ensures MIN <= x <= MAX ==> r == x
    ensures (r - x) % MODULUS == 0
  {
    (x - MIN) % MODULUS + MIN
  }

  lemma WrapIsCongruent(x: int) returns (k: int)
    ensures Wrap(x) == x + k * MODULUS
  {
    k := (Wrap(x) - x) / MODULUS;
  }

  lemma WrapShift(x: int, k: int)
    ensures Wrap(x + k * MODULUS) == Wrap(x)
  {
  }

  /** Wrapping a part of a sum first makes no difference. */
  lemma WrapOfSum(x: int, y: int)
    ensures Wrap(x + Wrap(y)) == Wrap(x + y)
  {
  }

  /** The wrapped value and the remainder differ at most by the modulus. */
  lemma WrapModulo(x: int)
    ensures x % MODULUS == if Wrap(x) >= 0 then Wrap(x) else Wrap(x) + MODULUS
  {
    var k := WrapIsCongruent(x);
    var q := x / MODULUS;
    assert x % MODULUS == x - q * MODULUS;
  }
}

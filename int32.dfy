/** The C# `int`: a 32-bit two's-complement integer. Arithmetic on it is
    unchecked by default, so a sum that leaves the range wraps around. */
module Int32 {
  const Max: int := 0x7FFF_FFFF
  const Min: int := -0x8000_0000
  const Modulus: int := 0x1_0000_0000

  predicate InRange(x: int) {
    Min <= x <= Max
  }

  /** The `int` an unchecked C# operation leaves when the exact result is
      `x`: the value in range that differs from `x` by a multiple of 2^32. */
  function Wrap(x: int): (r: int)
    ensures InRange(r)
    ensures InRange(x) ==> r == x
    decreases if x > Max then x - Max else if x < Min then Min - x else 0
  {
    if x > Max then Wrap(x - Modulus)
    else if x < Min then Wrap(x + Modulus)
    else x
  }

  /** `Wrap` as a remainder: the residue of `x` modulo 2^32, moved into
      range. */
  lemma {:induction false} WrapMod(x: int)
    ensures Wrap(x) == (var m := x % Modulus; if m <= Max then m else m - Modulus)
    decreases if x > Max then x - Max else if x < Min then Min - x else 0
  {
    if x > Max {
      WrapMod(x - Modulus);
      ModShift(x, 1);
    } else if x < Min {
      WrapMod(x + Modulus);
      ModShift(x + Modulus, 1);
    } else if x < 0 {
      assert x % Modulus == x + Modulus;
    } else {
      assert x % Modulus == x;
    }
  }

  /** Wrapping an operand first changes nothing: `Wrap` is the identity on
      residues modulo 2^32. */
  lemma WrapAdd(x: int, y: int)
    ensures Wrap(Wrap(x) + y) == Wrap(x + y)
  {
    var q := x / Modulus;
    assert x == q * Modulus + x % Modulus;
    var w := Wrap(x);
    WrapMod(x);
    WrapMod(w + y);
    WrapMod(x + y);
    assert w + y == (x + y) - q * Modulus || w + y == (x + y) - (q + 1) * Modulus;
    ModShift(x + y, q);
    ModShift(x + y, q + 1);
  }

  lemma ModShift(z: int, q: int)
    ensures (z - q * Modulus) % Modulus == z % Modulus
  {
    var a := z / Modulus;
    var b := (z - q * Modulus) / Modulus;
    assert z == a * Modulus + z % Modulus;
    assert z - q * Modulus == b * Modulus + (z - q * Modulus) % Modulus;
    assert (a - q - b) * Modulus == (z - q * Modulus) % Modulus - z % Modulus;
  }
}

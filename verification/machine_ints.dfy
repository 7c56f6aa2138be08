/**
  Fixed-width integer conventions of the modelled C++ code. Dafny integers are
  unbounded, so every place where the source relies on a `uint`, `jint` or
  `size_t` states its range or its wrap-around explicitly through this module.
 */
module MachineInts {

  /** Number of distinct values of a 32-bit `uint` (and `jint`). */
  const Uint32Modulus: nat := 0x1_0000_0000

  /** Number of distinct values of a 64-bit `size_t`. */
  const SizeTModulus: nat := 0x1_0000_0000_0000_0000

  const MinJint: int := -0x8000_0000
  const MaxJint: int := 0x7FFF_FFFF

  predicate IsUint32(x: int) {
    0 <= x < Uint32Modulus
  }

  predicate IsJint(x: int) {
    MinJint <= x <= MaxJint
  }

  predicate IsSizeT(x: int) {
    0 <= x < SizeTModulus
  }

  /** `x++` on a `uint`: wraps to 0 after the largest value. */
  function Uint32Inc(x: nat): (r: nat)
    requires IsUint32(x)
    ensures IsUint32(r)
    ensures x + 1 < Uint32Modulus ==> r == x + 1
    ensures x + 1 == Uint32Modulus ==> r == 0
  {
    (x + 1) % Uint32Modulus
  }

  /** `x += y` on a `uint`. */
  function Uint32Add(x: nat, y: nat): (r: nat)
    requires IsUint32(x) && IsUint32(y)
    ensures IsUint32(r)
    ensures x + y < Uint32Modulus ==> r == x + y
    ensures x + y >= Uint32Modulus ==> r == x + y - Uint32Modulus
  {
    (x + y) % Uint32Modulus
  }

  /** Two to the power `k`. */
  function Pow2(k: nat): (r: nat)
    ensures r >= 1
    ensures k >= 1 ==> r >= 2 && r % 2 == 0
  {
    if k == 0 then 1 else 2 * Pow2(k - 1)
  }

  lemma {:induction false} Pow2Add(a: nat, b: nat)
    ensures Pow2(a + b) == Pow2(a) * Pow2(b)
  {
    if a == 0 {
    } else {
      Pow2Add(a - 1, b);
      calc {
        Pow2(a + b);
        2 * Pow2(a - 1 + b);
        2 * (Pow2(a - 1) * Pow2(b));
        { MulAssoc(2, Pow2(a - 1), Pow2(b)); }
        (2 * Pow2(a - 1)) * Pow2(b);
      }
    }
  }

  /** `x >> k` on an unsigned value. */
  function ShiftRight(x: nat, k: nat): (r: nat)
    ensures r * Pow2(k) <= x < (r + 1) * Pow2(k)
  {
    var r := Quotient(x, Pow2(k));
    MulDistrib(r, 1, Pow2(k));
    r
  }

  /** Unsigned division, with the bounds that characterise the quotient. */
  function Quotient(x: nat, d: nat): (q: nat)
    requires d >= 1
    ensures q * d <= x < q * d + d
  {
    x / d
  }

  lemma MulAssoc(a: int, b: int, c: int)
    ensures a * (b * c) == (a * b) * c
  {
  }

  lemma MulDistrib(a: int, b: int, c: int)
    ensures (a + b) * c == a * c + b * c
  {
  }
}

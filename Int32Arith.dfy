/** The C# `int` type: 32-bit two's complement, with unchecked arithmetic. */
module Int32Arith {
  const MinValue: int := -0x8000_0000
  const MaxValue: int := 0x7FFF_FFFF
  const Modulus: int := 0x1_0000_0000

  /** Values of a C# `int` (int.MinValue .. int.MaxValue). */
  type Int32 = x: int | MinValue <= x <= MaxValue

  /** Reduction of a mathematical integer to the Int32 it is congruent to
      modulo 2^32: what unchecked C# arithmetic keeps of an exact result. */
  function Wrap(v: int): (r: Int32)
    ensures (r - v) % Modulus == 0
    ensures MinValue <= v <= MaxValue ==> r == v
  {
    (v - MinValue) % Modulus + MinValue
  }

  /** `x++` on a C# `int` in the default unchecked context: one more,
      except that int.MaxValue wraps round to int.MinValue. */
  function Inc(x: Int32): (r: Int32)
    ensures x < MaxValue ==> r == x + 1
    ensures x == MaxValue ==> r == MinValue
  {
    Wrap(x + 1)
  }
}

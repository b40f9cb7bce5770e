/** Bytes, lines, and the fixed-width unsigned integers of the C sources. */
module Octets {
  const TWO_32: nat := 0x1_0000_0000
  const TWO_64: nat := 0x1_0000_0000_0000_0000

  type byte = x: int | 0 <= x < 256

  datatype Option<T> = None | Some(value: T)

  /** What is left of an unsigned 32-bit result that may have wrapped around. */
  function Wrap32(n: nat): nat {
    if n < TWO_32 then n else n % TWO_32
  }

  /** What is left of an unsigned 64-bit result that may have wrapped around. */
  function Wrap64(n: nat): nat {
    if n < TWO_64 then n else n % TWO_64
  }

  /** Both are the remainder. */
  lemma WrapsModulo(n: nat)
    ensures Wrap32(n) == n % TWO_32 && Wrap64(n) == n % TWO_64
  {
  }

  function Min(a: nat, b: nat): nat {
    if a < b then a else b
  }

  function Max(a: nat, b: nat): nat {
    if a < b then b else a
  }

  // ---- Lines ----

  const NEWLINE: byte := 10
  const RETURN: byte := 13

  function FirstNewline(s: seq<byte>): (i: nat)
    ensures i <= |s| && (i < |s| ==> s[i] == NEWLINE) && NEWLINE !in s[..i]
  {
    if s == [] || s[0] == NEWLINE then 0 else 1 + FirstNewline(s[1..])
  }
}

/** Bytes and C strings as the JSON writer sees them.

    A `Byte` is an 8-bit character. Whether C's `char` is signed or not,
    every test the writer makes on it (the printable range, the two hex
    nibbles) gives the same answer on the unsigned view used here.

    A C string argument is modelled by a sequence `s`: the memory holds the
    bytes of `s` followed by a NUL, so reading index `|s|` yields NUL. An
    explicit NUL inside `s` is allowed and ends the string for `strlen`. */
module Bytes {

  type Byte = c: char | c as int < 256 witness '\0'

  const NUL: Byte := '\0'
  const QUOTE: Byte := '"'
  const BACKSLASH: Byte := '\\'
  const NEWLINE: Byte := '\n'

  /** `int` and `uint32_t` at the width the source declares them. */
  const INT_MAX: int := 0x7FFF_FFFF
  type Int32 = x: int | -0x8000_0000 <= x < 0x8000_0000
  type UInt32 = x: int | 0 <= x < 0x1_0000_0000

  /** `*(s + i)` on the memory that `s` stands for. */
  function ByteAt(s: seq<Byte>, i: nat): Byte
  {
    if i < |s| then s[i] else NUL
  }

  /** `strlen(s)`: the index of the first NUL. */
  function CStrLen(s: seq<Byte>): (n: nat)
    ensures n <= |s|
    ensures forall j :: 0 <= j < n ==> s[j] != NUL
    ensures ByteAt(s, n) == NUL
  {
    if s == [] || s[0] == NUL then 0 else 1 + CStrLen(s[1..])
  }

  function Min(a: int, b: int): int
  {
    if a <= b then a else b
  }
}

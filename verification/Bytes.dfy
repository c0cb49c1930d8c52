/** Bytes, fixed-width integers and the packings the wire formats use.
    Bits are written as arithmetic: masking the low `n` bits is a remainder by `2^n`,
    and joining disjoint bit fields with `|` is addition. */
module Bytes {

  type byte = b: int | 0 <= b < 0x100
  type u16 = n: int | 0 <= n < 0x1_0000
  type u32 = n: int | 0 <= n < 0x1_0000_0000
  type bytes = seq<byte>

  const TWO_16 := 0x1_0000
  const TWO_31 := 0x8000_0000
  const TWO_32 := 0x1_0000_0000

  datatype Option<+T> = None | Some(value: T)

  /** A byte as an unbounded integer. */
  function ByteAt(s: bytes, i: nat): int
    requires i < |s|
  {
    s[i]
  }

  function ReadBe16(s: bytes, i: nat): u16
    requires i + 2 <= |s|
  {
    var hi: int := s[i];
    hi * 0x100 + s[i + 1]
  }

  function ReadLe16(s: bytes, i: nat): u16
    requires i + 2 <= |s|
  {
    var hi: int := s[i + 1];
    hi * 0x100 + s[i]
  }

  function ReadBe32(s: bytes, i: nat): u32
    requires i + 4 <= |s|
  {
    ReadBe16(s, i) * 0x1_0000 + ReadBe16(s, i + 2)
  }

  function ReadLe32(s: bytes, i: nat): u32
    requires i + 4 <= |s|
  {
    ReadLe16(s, i) + ReadLe16(s, i + 2) * 0x1_0000
  }

  function Be16(n: u16): (s: bytes)
    ensures |s| == 2 && ReadBe16(s, 0) == n
  {
    [n / 0x100, n % 0x100]
  }

  function Le16(n: u16): (s: bytes)
    ensures |s| == 2 && ReadLe16(s, 0) == n
  {
    [n % 0x100, n / 0x100]
  }

  function Be32(n: u32): (s: bytes)
    ensures |s| == 4 && ReadBe32(s, 0) == n
  {
    Be16(n / 0x1_0000) + Be16(n % 0x1_0000)
  }

  function Le32(n: u32): (s: bytes)
    ensures |s| == 4 && ReadLe32(s, 0) == n
  {
    Le16(n % 0x1_0000) + Le16(n / 0x1_0000)
  }

  /** Concatenation of a sequence of byte strings. */
  function Concat(parts: seq<bytes>): bytes
  {
    if parts == [] then [] else parts[0] + Concat(parts[1..])
  }

  lemma Associative<T>(a: seq<T>, b: seq<T>, c: seq<T>)
    ensures a + (b + c) == (a + b) + c
  {
  }

  lemma AddModulo(a: int, b: int)
    ensures (a % TWO_32 + b) % TWO_32 == (a + b) % TWO_32
  {
  }
}

/** Go's fixed-width unsigned integers, as ranges of `int` with the wrap-around written out. */
module Machine {

  type Byte = x: int | 0 <= x < 0x100
  type Uint32 = x: int | 0 <= x < 0x1_0000_0000
  type Uint64 = x: int | 0 <= x < 0x1_0000_0000_0000_0000

  const MAX_UINT64: Uint64 := 0xFFFF_FFFF_FFFF_FFFF

  function Add64(a: Uint64, b: Uint64): Uint64 {
    (a + b) % 0x1_0000_0000_0000_0000
  }

  function Sub64(a: Uint64, b: Uint64): Uint64 {
    (a - b) % 0x1_0000_0000_0000_0000
  }

  /** The conversion `uint32(n)`, of a `uint64` or an `int`. */
  function Truncate32(n: int): Uint32 {
    n % 0x1_0000_0000
  }

  /** An integer as Go's signed 64-bit `int` holds it. */
  function ToInt64(n: int): int {
    (n + 0x8000_0000_0000_0000) % 0x1_0000_0000_0000_0000 - 0x8000_0000_0000_0000
  }

  /** The results in the range of the type are the plain ones; the others are off by one turn of the range. */
  lemma WrapsAround(a: Uint64, b: Uint64, n: int, turns: int)
    ensures Add64(a, b) == if a + b <= MAX_UINT64 then a + b else a + b - 0x1_0000_0000_0000_0000
    ensures Sub64(a, b) == if b <= a then a - b else a - b + 0x1_0000_0000_0000_0000
    ensures 0 <= n < 0x1_0000_0000 ==> Truncate32(n + turns * 0x1_0000_0000) == n
    ensures -0x8000_0000_0000_0000 <= n < 0x8000_0000_0000_0000 ==> ToInt64(n + turns * 0x1_0000_0000_0000_0000) == n
  {
  }

  /** `x & 0xffffffff00000000`: the number with its lower 32 bits cleared. */
  function High32(x: Uint64): Uint64 {
    x - x % 0x1_0000_0000
  }

  predicate NonDecreasing(s: seq<Uint64>) {
    forall i, j :: 0 <= i < j < |s| ==> s[i] <= s[j]
  }
}

/** Base-128 varints of 64-bit values, least significant group of 7 bits first. */
module Uvarint {
  import opened Machine

  const MAX_VARINT_LEN64: nat := 10

  /** `LIMITS[i]` bounds what is left of a 64-bit value after `i` groups were taken off. */
  const LIMITS: seq<nat> := [
    0x1_0000_0000_0000_0000, 0x200_0000_0000_0000, 0x4_0000_0000_0000, 0x800_0000_0000, 0x10_0000_0000,
    0x2000_0000, 0x40_0000, 0x8000, 0x100, 2]

  /** `v << 7*i`, before truncation to 64 bits. */
  function Shift7(i: nat, v: nat): nat {
    if i == 0 then v else 0x80 * Shift7(i - 1, v)
  }

  function UvarintBytes(x: nat): (r: seq<Byte>)
    ensures |r| >= 1
  {
    if x < 0x80 then [x] else [x % 0x80 + 0x80] + UvarintBytes(x / 0x80)
  }

  /** Reading with `i` bytes already consumed: the rest of the value, and the total byte count.
      A count that is not positive reports a truncated buffer (zero) or an overflow (negative). */
  function Parse(buf: seq<Byte>, i: nat): (r: (nat, int))
    ensures r.1 > 0 ==> i < r.1 <= i + |buf|
    decreases |buf|
  {
    if buf == [] then (0, 0)
    else if i == MAX_VARINT_LEN64 then (0, -(i + 1))
    else if buf[0] < 0x80 then
      if i == MAX_VARINT_LEN64 - 1 && buf[0] > 1 then (0, -(i + 1)) else (buf[0], i + 1)
    else
      var (v, n) := Parse(buf[1..], i + 1);
      if n <= 0 then (0, n) else (buf[0] - 0x80 + 0x80 * v, n)
  }

  lemma {:induction false} UvarintLength(x: nat, i: nat)
    requires i < MAX_VARINT_LEN64 && x < LIMITS[i]
    ensures |UvarintBytes(x)| <= MAX_VARINT_LEN64 - i
  {
    if x >= 0x80 {
      assert LIMITS[i] == 0x80 * LIMITS[i + 1];
      UvarintLength(x / 0x80, i + 1);
    }
  }

  lemma {:induction false} ParseInvertsBytes(x: nat, i: nat, tail: seq<Byte>)
    requires i < MAX_VARINT_LEN64 && x < LIMITS[i]
    ensures Parse(UvarintBytes(x) + tail, i) == (x, i + |UvarintBytes(x)|)
  {
    if x >= 0x80 {
      assert LIMITS[i] == 0x80 * LIMITS[i + 1];
      ParseInvertsBytes(x / 0x80, i + 1, tail);
      assert (UvarintBytes(x) + tail)[1..] == UvarintBytes(x / 0x80) + tail;
    }
  }

  /** What is read back after `x` was put is `x`, with exactly its own bytes consumed. */
  lemma UvarintRoundTrip(x: Uint64, tail: seq<Byte>)
    ensures Parse(UvarintBytes(x) + tail, 0) == (x, |UvarintBytes(x)|)
    ensures |UvarintBytes(x)| <= MAX_VARINT_LEN64
  {
    ParseInvertsBytes(x, 0, tail);
    UvarintLength(x, 0);
  }

  /** Seven bits a byte, least significant first: every byte but the last has its top bit set. */
  lemma {:induction false} UvarintForm(x: nat)
    ensures var r := UvarintBytes(x);
            && (forall i :: 0 <= i < |r| ==> (r[i] >= 0x80 <==> i < |r| - 1))
            && x == SevenBits(r)
  {
    if x >= 0x80 {
      UvarintForm(x / 0x80);
      assert UvarintBytes(x)[1..] == UvarintBytes(x / 0x80);
    }
  }

  function SevenBits(bytes: seq<Byte>): nat {
    if bytes == [] then 0 else bytes[0] % 0x80 + 0x80 * SevenBits(bytes[1..])
  }

  /** Reading stops at the first byte with its top bit clear, `k` bytes on. It fails if that is the eleventh byte or a
      later one, or the tenth with more than the one bit that is left. */
  lemma {:induction false} ParseIs(buf: seq<Byte>, i: nat, k: nat)
    requires k < |buf| && buf[k] < 0x80 && (forall j :: 0 <= j < k ==> buf[j] >= 0x80) && i <= 10
    ensures Parse(buf, i) ==
            if i + k > 9 then (0, -11) else if i + k == 9 && buf[k] > 1 then (0, -10)
            else (SevenBits(buf[..k + 1]), i + k + 1)
    decreases k
  {
    if k > 0 {
      assert buf[..k + 1][1..] == buf[1..][..k];
      if i < 10 {
        ParseIs(buf[1..], i + 1, k - 1);
      }
    } else {
      assert buf[..1] == [buf[0]];
      assert SevenBits(buf[..1][1..]) == 0;
    }
  }

  /** Without such a byte, ten bytes or fewer are too few, and more are too many. */
  lemma {:induction false} ParseRunsOut(buf: seq<Byte>, i: nat)
    requires (forall j :: 0 <= j < |buf| ==> buf[j] >= 0x80) && i <= 10
    ensures Parse(buf, i) == (0, if i + |buf| <= 10 then 0 else -11)
    decreases |buf|
  {
    if buf != [] && i < 10 {
      ParseRunsOut(buf[1..], i + 1);
    }
  }

  /** The encoding is the shortest: `k` bytes are enough exactly for the values below 128^k. */
  lemma {:induction false} UvarintShortest(x: nat, k: nat)
    requires k > 0
    ensures |UvarintBytes(x)| <= k <==> x < Shift7(k, 1)
  {
    assert Shift7(k, 1) == 0x80 * Shift7(k - 1, 1);
    if x >= 0x80 {
      if k > 1 {
        UvarintShortest(x / 0x80, k - 1);
      }
    } else {
      Shift7Positive(k - 1);
    }
  }

  lemma {:induction false} Shift7Positive(i: nat)
    ensures Shift7(i, 1) > 0
  {
    if i > 0 {
      Shift7Positive(i - 1);
    }
  }

  lemma {:induction false} ParseBound(buf: seq<Byte>, i: nat)
    requires i < MAX_VARINT_LEN64
    ensures Parse(buf, i).1 > 0 ==> Parse(buf, i).0 < LIMITS[i]
    decreases |buf|
  {
    if buf != [] && buf[0] >= 0x80 {
      if i < MAX_VARINT_LEN64 - 1 {
        assert LIMITS[i] == 0x80 * LIMITS[i + 1];
        ParseBound(buf[1..], i + 1);
      }
    }
  }

  method PutUvarint(buf: array<Byte>, v: Uint64) returns (n: nat)
    requires buf.Length >= MAX_VARINT_LEN64
    modifies buf
    ensures n <= buf.Length && buf[..n] == UvarintBytes(v)
  {
    var x: nat := v;
    n := 0;
    UvarintLength(v, 0);
    while x >= 0x80
      invariant n + |UvarintBytes(x)| <= MAX_VARINT_LEN64
      invariant buf[..n] + UvarintBytes(x) == UvarintBytes(v)
    {
      buf[n] := x % 0x80 + 0x80;
      assert buf[..n + 1] == buf[..n] + [x % 0x80 + 0x80];
      x := x / 0x80;
      n := n + 1;
    }
    buf[n] := x;
    assert buf[..n + 1] == buf[..n] + [x];
    n := n + 1;
  }

  lemma {:induction false} Shift7Add(i: nat, a: nat, b: nat)
    ensures Shift7(i, a + b) == Shift7(i, a) + Shift7(i, b)
  {
    if i > 0 {
      Shift7Add(i - 1, a, b);
    }
  }

  lemma {:induction false} Shift7Next(i: nat, v: nat)
    ensures Shift7(i, 0x80 * v) == Shift7(i + 1, v)
  {
    if i > 0 {
      Shift7Next(i - 1, v);
    }
  }

  lemma {:induction false} Shift7Limit(i: nat)
    requires i < MAX_VARINT_LEN64
    ensures Shift7(i, LIMITS[i]) == 0x1_0000_0000_0000_0000
  {
    if i > 0 {
      assert LIMITS[i - 1] == 0x80 * LIMITS[i];
      Shift7Next(i - 1, LIMITS[i]);
      Shift7Limit(i - 1);
    }
  }

  /** Taking one more group into the accumulator `x` of the `i` groups before it. */
  lemma Accumulate(x: nat, i: nat, low: nat, v: nat)
    requires i < MAX_VARINT_LEN64 - 1 && x < Shift7(i, 1) && low < 0x80
    ensures x + Shift7(i, low + 0x80 * v) == (x + Shift7(i, low)) + Shift7(i + 1, v)
    ensures x + Shift7(i, low) < Shift7(i + 1, 1) <= 0x1_0000_0000_0000_0000
  {
    Shift7Add(i, low, 0x80 * v);
    Shift7Next(i, v);
    Shift7Add(i, 1, low);
    Shift7Add(i, low + 1, 0x7F - low);
    Shift7Next(i, 1);
    Shift7Limit(i + 1);
    Shift7Add(i + 1, 1, LIMITS[i + 1] - 1);
  }

  lemma Shift7Zero(v: nat)
    ensures Shift7(0, v) == v
  {
  }

  method ReadUvarint(buf: seq<Byte>) returns (v: Uint64, n: int)
    ensures n == Parse(buf, 0).1
    ensures n > 0 ==> v == Parse(buf, 0).0
  {
    hide Shift7;
    var x: Uint64 := 0;
    ParseBound(buf, 0);
    Shift7Zero(1);
    Shift7Zero(Parse(buf, 0).0);
    for i := 0 to |buf|
      invariant i <= MAX_VARINT_LEN64
      invariant Parse(buf, 0).1 == Parse(buf[i..], i).1
      invariant i < MAX_VARINT_LEN64 && Parse(buf, 0).1 > 0 ==>
                  x < Shift7(i, 1) && Parse(buf, 0).0 == x + Shift7(i, Parse(buf[i..], i).0)
    {
      var b := buf[i];
      assert buf[i..][1..] == buf[i + 1..];
      if i == MAX_VARINT_LEN64 {
        return 0, -(i + 1);
      }
      if b < 0x80 {
        if i == MAX_VARINT_LEN64 - 1 && b > 1 {
          return 0, -(i + 1);
        }
        return x + Shift7(i, b), i + 1;
      }
      if i < MAX_VARINT_LEN64 - 1 && Parse(buf, 0).1 > 0 {
        Accumulate(x, i, b - 0x80, Parse(buf[i + 1..], i + 1).0);
      }
      x := (x + Shift7(i, b - 0x80)) % 0x1_0000_0000_0000_0000;
    }
    return 0, 0;
  }
}

/** Group varint: four 32-bit values behind one header byte that holds four 2-bit lengths. */
module GroupVarint {
  import opened Machine

  /** Bytes needed for `n`, zero still taking one. */
  function ByteLen(n: Uint32): (k: nat)
    ensures 1 <= k <= 4
  {
    if n < 0x100 then 1 else if n < 0x1_0000 then 2 else if n < 0x100_0000 then 3 else 4
  }

  /** The `k` low bytes of `n`, least significant first. */
  function LeOf(n: nat, k: nat): (r: seq<Byte>)
    ensures |r| == k
  {
    if k == 0 then [] else [n % 0x100] + LeOf(n / 0x100, k - 1)
  }

  function LeValue(bytes: seq<Byte>): nat {
    if bytes == [] then 0 else bytes[0] as int + 0x100 * LeValue(bytes[1..])
  }

  function LeBytes(n: Uint32): (r: seq<Byte>)
    ensures |r| == ByteLen(n)
  {
    LeOf(n, 4)[..ByteLen(n)]
  }

  /** The first `count` values of the group, each in as few bytes as it needs. */
  function Lanes(v: seq<Uint32>, count: nat): (r: seq<Byte>)
    requires count <= |v|
    ensures count <= |r| <= 4 * count
  {
    if count == 0 then [] else Lanes(v, count - 1) + LeBytes(v[count - 1])
  }

  /** `b << 2*i`. */
  function Shift2(b: nat, i: nat): nat {
    if i == 0 then b else 4 * Shift2(b, i - 1)
  }

  /** The two-bit lengths of the first `count` values. */
  function HeaderBits(v: seq<Uint32>, count: nat): nat
    requires count <= |v|
  {
    if count == 0 then 0 else HeaderBits(v, count - 1) + Shift2(ByteLen(v[count - 1]) - 1, count - 1)
  }

  lemma ExpandHeader(v: seq<Uint32>)
    requires |v| == 4
    ensures HeaderBits(v, 4) ==
            (ByteLen(v[0]) - 1) + 4 * (ByteLen(v[1]) - 1) + 16 * (ByteLen(v[2]) - 1) + 64 * (ByteLen(v[3]) - 1)
  {
    forall b: nat
      ensures Shift2(b, 0) == b && Shift2(b, 1) == 4 * b && Shift2(b, 2) == 16 * b && Shift2(b, 3) == 64 * b
    {
      assert Shift2(b, 2) == 4 * Shift2(b, 1);
    }
    assert HeaderBits(v, 2) == HeaderBits(v, 1) + Shift2(ByteLen(v[1]) - 1, 1);
  }

  function Header(v: seq<Uint32>): (h: Byte)
    requires |v| == 4
  {
    ExpandHeader(v);
    HeaderBits(v, |v|)
  }

  /** The encoding of one group. */
  function GroupBytes(v: seq<Uint32>): (r: seq<Byte>)
    requires |v| == 4
    ensures 5 <= |r| <= 17
  {
    [Header(v)] + Lanes(v, |v|)
  }

  /** The width in bytes that header `h` announces for lane `i`. */
  function Width(h: Byte, i: nat): (w: nat)
    requires i < 4
    ensures 1 <= w <= 4
  {
    1 + (if i == 0 then h else if i == 1 then h / 4 else if i == 2 then h / 16 else h / 64) % 4
  }

  /** Where lane `i` starts; lane 4 is the end of the group. */
  function Offset(h: Byte, i: nat): (at: nat)
    requires i <= 4
    ensures 1 + i <= at <= 1 + 4 * i
  {
    if i == 0 then 1 else Offset(h, i - 1) + Width(h, i - 1)
  }

  function BytesUsed(h: Byte): (n: nat)
    ensures 5 <= n <= 17
  {
    Offset(h, 4)
  }

  /** An unaligned 32-bit little-endian read; it reads four bytes whatever the lane's width. */
  function Load32(src: seq<Byte>, at: nat): Uint32
    requires at + 4 <= |src|
  {
    LeValueBound(src[at..at + 4]);
    LeValue(src[at..at + 4])
  }

  /** Keeps the `width` low bytes of a 32-bit read: those beyond the lane's width are dropped. */
  function Mask(x: nat, width: nat): (r: nat)
    ensures r <= x
  {
    if width == 0 then 0 else x % 0x100 + 0x100 * Mask(x / 0x100, width - 1)
  }

  function LaneValue(src: seq<Byte>, i: nat): Uint32
    requires i < 4 && |src| >= 17
  {
    Mask(Load32(src, Offset(src[0], i)), Width(src[0], i))
  }

  /** The four values at the front of `src`. The reads go up to 16 bytes past the header, so `src` must hold 17. */
  function GroupValues(src: seq<Byte>): (v: seq<Uint32>)
    requires |src| >= 17
    ensures |v| == 4
  {
    seq(4, i requires 0 <= i < 4 => LaneValue(src, i))
  }

  lemma LeValueBound(bytes: seq<Byte>)
    requires |bytes| == 4
    ensures LeValue(bytes) < 0x1_0000_0000
  {
    var b1 := bytes[1..];
    var b2 := b1[1..];
    var b3 := b2[1..];
    assert LeValue(b3) == b3[0] as int + 0x100 * LeValue(b3[1..]) && LeValue(b2) == b2[0] as int + 0x100 * LeValue(b3);
  }

  lemma {:induction false} MaskTakesLowBytes(bytes: seq<Byte>, width: nat)
    requires width <= |bytes|
    ensures Mask(LeValue(bytes), width) == LeValue(bytes[..width])
  {
    if width > 0 {
      assert bytes[..width][1..] == bytes[1..][..width - 1];
      MaskTakesLowBytes(bytes[1..], width - 1);
    }
  }

  lemma {:induction false} LeOfPrefix(n: nat, k: nat, m: nat)
    requires k <= m
    ensures LeOf(n, m)[..k] == LeOf(n, k)
  {
    if k > 0 {
      LeOfPrefix(n / 0x100, k - 1, m - 1);
      assert LeOf(n, m)[..k] == [n % 0x100] + LeOf(n / 0x100, m - 1)[..k - 1];
    }
  }

  predicate FitsBytes(n: nat, k: nat) {
    if k == 0 then n == 0 else FitsBytes(n / 0x100, k - 1)
  }

  lemma {:induction false} LeRoundTrip(n: nat, k: nat)
    requires FitsBytes(n, k)
    ensures LeValue(LeOf(n, k)) == n
  {
    if k > 0 {
      LeRoundTrip(n / 0x100, k - 1);
      assert LeOf(n, k)[1..] == LeOf(n / 0x100, k - 1);
    }
  }

  lemma ByteLenFits(n: Uint32)
    ensures FitsBytes(n, ByteLen(n))
  {
    BoundFits(n, ByteLen(n));
  }

  lemma {:induction false} BoundFits(n: nat, k: nat)
    requires k <= 4 && n < [1, 0x100, 0x1_0000, 0x100_0000, 0x1_0000_0000][k]
    ensures FitsBytes(n, k)
  {
    if k > 0 {
      BoundFits(n / 0x100, k - 1);
    }
  }

  lemma LaneRoundTrip(n: Uint32, prefix: seq<Byte>, tail: seq<Byte>)
    requires |LeBytes(n) + tail| >= 4
    ensures Mask(Load32(prefix + LeBytes(n) + tail, |prefix|), ByteLen(n)) == n
  {
    var src, at, len := prefix + LeBytes(n) + tail, |prefix|, ByteLen(n);
    var word := src[at..at + 4];
    LeOfPrefix(n, len, 4);
    assert word == (LeBytes(n) + tail)[..4];
    assert word[..len] == LeBytes(n) == LeOf(n, len);
    MaskTakesLowBytes(word, len);
    ByteLenFits(n);
    LeRoundTrip(n, len);
  }

  lemma HeaderDigits(a: nat, b: nat, c: nat, d: nat)
    requires a < 4 && b < 4 && c < 4 && d < 4
    ensures var h := a + 4 * b + 16 * c + 64 * d; h % 4 == a && h / 4 % 4 == b && h / 16 % 4 == c && h / 64 % 4 == d
  {
  }

  lemma {:induction false} OffsetsMatchLanes(v: seq<Uint32>, i: nat)
    requires |v| == 4 && i <= 4
    ensures Offset(Header(v), i) == 1 + |Lanes(v, i)|
    ensures i < 4 ==> Width(Header(v), i) == ByteLen(v[i])
  {
    ExpandHeader(v);
    HeaderDigits(ByteLen(v[0]) - 1, ByteLen(v[1]) - 1, ByteLen(v[2]) - 1, ByteLen(v[3]) - 1);
    if i > 0 {
      OffsetsMatchLanes(v, i - 1);
    }
  }

  /** The group splits around lane `i`. */
  lemma {:induction false} SplitAtLane(v: seq<Uint32>, i: nat, n: nat) returns (rest: seq<Byte>)
    requires i < n <= |v|
    ensures Lanes(v, n) == Lanes(v, i) + LeBytes(v[i]) + rest
    ensures |rest| >= n - i - 1
  {
    if i == n - 1 {
      rest := [];
    } else {
      var r := SplitAtLane(v, i, n - 1);
      rest := r + LeBytes(v[n - 1]);
    }
  }

  /** The bytes of a value, least significant first and no more than it needs. */
  lemma LeBytesAre(n: Uint32)
    ensures LeBytes(n) ==
            if n < 0x100 then [n]
            else if n < 0x1_0000 then [n % 0x100, n / 0x100]
            else if n < 0x100_0000 then [n % 0x100, n / 0x100 % 0x100, n / 0x1_0000]
            else [n % 0x100, n / 0x100 % 0x100, n / 0x1_0000 % 0x100, n / 0x100_0000]
  {
    var n1 := n / 0x100;
    var n2 := n1 / 0x100;
    var n3 := n2 / 0x100;
    assert LeOf(n2, 2) == [n2 % 0x100, n3 % 0x100];
    assert LeOf(n, 4) == [n % 0x100, n1 % 0x100] + LeOf(n2, 2);
    assert n2 == n / 0x1_0000 && n3 == n / 0x100_0000;
  }

  /** A group is its four values' bytes behind the byte of their lengths less one, the first value in the low bits. */
  lemma GroupLayout(v: seq<Uint32>)
    requires |v| == 4
    ensures var a, b, c, d := LeBytes(v[0]), LeBytes(v[1]), LeBytes(v[2]), LeBytes(v[3]);
            GroupBytes(v) == [(|a| - 1) + 4 * (|b| - 1) + 16 * (|c| - 1) + 64 * (|d| - 1)] + a + b + c + d
  {
    hide LeBytes, ByteLen, Lanes, HeaderBits, Shift2;
    ExpandHeader(v);
    var a, b, c, d := LeBytes(v[0]), LeBytes(v[1]), LeBytes(v[2]), LeBytes(v[3]);
    LanesAre(v);
    var h := (|a| - 1) + 4 * (|b| - 1) + 16 * (|c| - 1) + 64 * (|d| - 1);
    assert GroupBytes(v) == [h] + (a + b + c + d);
  }

  lemma LanesAre(v: seq<Uint32>)
    requires |v| == 4
    ensures Lanes(v, 4) == LeBytes(v[0]) + LeBytes(v[1]) + LeBytes(v[2]) + LeBytes(v[3])
  {
    hide LeBytes, ByteLen;
    assert Lanes(v, 0) == [];
    assert Lanes(v, 1) == LeBytes(v[0]);
    assert Lanes(v, 2) == Lanes(v, 1) + LeBytes(v[1]);
    assert Lanes(v, 3) == Lanes(v, 2) + LeBytes(v[2]);
  }

  /** Decoding inverts encoding whatever bytes follow the group: the over-long reads change no value. */
  lemma GroupRoundTrip(v: seq<Uint32>, tail: seq<Byte>)
    requires |v| == 4 && |GroupBytes(v) + tail| >= 17
    ensures GroupValues(GroupBytes(v) + tail) == v
    ensures BytesUsed((GroupBytes(v) + tail)[0]) == |GroupBytes(v)|
  {
    hide Mask, Load32, LeBytes, ByteLen, Header;
    var src := GroupBytes(v) + tail;
    forall i | 0 <= i < 4
      ensures LaneValue(src, i) == v[i]
    {
      OffsetsMatchLanes(v, i);
      var rest := SplitAtLane(v, i, 4);
      var prefix := [Header(v)] + Lanes(v, i);
      assert src == prefix + LeBytes(v[i]) + (rest + tail);
      LaneRoundTrip(v[i], prefix, rest + tail);
    }
    OffsetsMatchLanes(v, 4);
  }

  method PutUint32(dst: array<Byte>, at: nat, n: Uint32)
    requires at + 4 <= dst.Length
    modifies dst
    ensures dst[..] == old(dst[..at]) + LeOf(n, 4) + old(dst[at + 4..])
  {
    var n1 := n / 0x100;
    var n2 := n1 / 0x100;
    var n3 := n2 / 0x100;
    dst[at], dst[at + 1], dst[at + 2], dst[at + 3] := n % 0x100, n1 % 0x100, n2 % 0x100, n3 % 0x100;
    assert LeOf(n2, 2) == [n2 % 0x100, n3 % 0x100];
    assert LeOf(n, 4) == [n % 0x100, n1 % 0x100] + LeOf(n2, 2);
  }

  /** Stores all four bytes of `n` but keeps only those it needs; the next lane overwrites the others. */
  method PutLane(dst: array<Byte>, at: nat, n: Uint32) returns (end: nat)
    requires at + 4 <= dst.Length
    modifies dst
    ensures end == at + ByteLen(n) && dst[..end] == old(dst[..at]) + LeBytes(n)
  {
    PutUint32(dst, at, n);
    end := at + ByteLen(n);
    assert dst[..end] == dst[..][..end];
  }

  /** Writes the group into the front of `dst`, which must hold 17 bytes for the last lane's over-long store. */
  method Encode4(dst: array<Byte>, src: array<Uint32>) returns (n: nat)
    requires dst.Length == 17 && src.Length == 4
    modifies dst
    ensures n <= 17 && dst[..n] == GroupBytes(src[..])
  {
    hide LeBytes, ByteLen;
    ghost var v := src[..];
    ghost var first := dst[0];
    var bits := 0;
    n := 1;
    for i := 0 to 4
      invariant v == src[..]
      invariant n == 1 + |Lanes(v, i)| && dst[..n] == [first] + Lanes(v, i)
      invariant bits == HeaderBits(v, i)
    {
      bits := bits + Shift2(ByteLen(src[i]) - 1, i);
      n := PutLane(dst, n, src[i]);
      assert dst[..n] == [first] + (Lanes(v, i) + LeBytes(v[i]));
    }
    assert dst[1..n] == dst[..n][1..] == Lanes(v, 4);
    assert bits == Header(v);
    dst[0] := bits;
    assert dst[..n] == [dst[0]] + dst[1..n];
  }

  /** Reads one group out of a window of at least 17 bytes. */
  method Decode4(dst: array<Uint32>, src: seq<Byte>)
    requires dst.Length == 4 && |src| >= 17
    modifies dst
    ensures dst[..] == GroupValues(src)
  {
    var at := 1;
    for i := 0 to 4
      invariant at == Offset(src[0], i)
      invariant forall k :: 0 <= k < i ==> dst[k] == LaneValue(src, k)
    {
      dst[i] := Mask(Load32(src, at), Width(src[0], i));
      at := at + Width(src[0], i);
    }
  }
}

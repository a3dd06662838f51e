/**
 * Coil and discrete-input packing: bit i of a list travels in bit i % 8 of byte i / 8,
 * least significant first (MODBUS Application Protocol V1.1b3, sections 6.1 and 6.2).
 */
module BitPacking {
  import opened Bytes

  function Pow2(n: nat): (p: nat)
    ensures p >= 1
  {
    if n == 0 then 1 else 2 * Pow2(n - 1)
  }

  function ShiftRight(d: nat, j: nat): nat {
    if j == 0 then d else ShiftRight(d, j - 1) / 2
  }

  function Bit(d: nat, j: nat): nat {
    ShiftRight(d, j) % 2
  }

  function Normal(b: int): nat {
    if b != 0 then 1 else 0
  }

  /** Up to eight bits as a number, the first bit least significant. */
  function PackByte(bits: seq<int>): (d: nat)
    ensures d < Pow2(|bits|)
  {
    if bits == [] then 0 else Normal(bits[0]) + 2 * PackByte(bits[1..])
  }

  function Chunk(bits: seq<int>, k: nat): (c: seq<int>)
    ensures |c| <= 8
  {
    var n := |bits|;
    bits[if 8 * k < n then 8 * k else n..if 8 * k + 8 < n then 8 * k + 8 else n]
  }

  function ChunkByte(bits: seq<int>, k: nat): byte {
    Pow2Bound(|Chunk(bits, k)|);
    PackByte(Chunk(bits, k))
  }

  function PackInto(bits: seq<int>, size: nat): (data: seq<byte>)
    ensures |data| == size
  {
    seq(size, (k: nat) => ChunkByte(bits, k))
  }

  function ByteCount(n: nat): nat {
    if n % 8 != 0 then n / 8 + 1 else n / 8
  }

  function Pack(bits: seq<int>): (data: seq<byte>)
    ensures |data| == ByteCount(|bits|)
  {
    PackInto(bits, ByteCount(|bits|))
  }

  function UnpackedBit(data: seq<byte>, m: nat): nat
    requires m < 8 * |data|
  {
    Bit(data[m / 8], m % 8)
  }

  function Unpack(data: seq<byte>): (bits: seq<int>)
    ensures |bits| == 8 * |data|
  {
    seq(8 * |data|, (m: nat) requires m < 8 * |data| => UnpackedBit(data, m))
  }

  /** The source's data[q] |= 1 << s on one byte. */
  function OrBit(d: byte, s: nat): byte
    requires s < 8
  {
    if Bit(d, s) == 1 then d
    else
      Pow2Of8();
      BitRoom(d, s, 8);
      d + Pow2(s)
  }

  // ---- bits and bytes ----

  lemma Pow2Of8()
    ensures Pow2(8) == 256
  {
  }

  lemma Pow2Bound(n: nat)
    requires n <= 8
    ensures Pow2(n) <= 256
  {
    Pow2Mono(n, 8);
    Pow2Of8();
  }

  lemma {:induction false} ShiftFirst(d: nat, j: nat)
    ensures ShiftRight(d, j + 1) == ShiftRight(d / 2, j)
  {
    if j > 0 {
      ShiftFirst(d, j - 1);
    }
  }

  lemma {:induction false} BitRoom(d: nat, s: nat, n: nat)
    requires s < n && d < Pow2(n) && Bit(d, s) == 0
    ensures d + Pow2(s) < Pow2(n)
  {
    if s == 0 {
      assert ShiftRight(d, 0) == d;
      HalfRoom(d, 0, Pow2(n - 1));
    } else {
      ShiftFirst(d, s - 1);
      BitRoom(d / 2, s - 1, n - 1);
      HalfRoom(d, Pow2(s - 1), Pow2(n - 1));
    }
  }

  lemma HalfRoom(d: nat, p: nat, q: nat)
    requires if p == 0 then d % 2 == 0 && d < 2 * q else d / 2 + p < q
    ensures d + (if p == 0 then 1 else 2 * p) < 2 * q
  {
  }

  lemma {:induction false} BitBeyond(d: nat, j: nat)
    requires d < Pow2(j)
    ensures ShiftRight(d, j) == 0
  {
    if j > 0 {
      ShiftFirst(d, j - 1);
      BitBeyond(d / 2, j - 1);
    }
  }

  /** Bit j of a packed byte is the normal form of the j-th bit packed, and 0 past the last. */
  lemma {:induction false} BitOfPacked(bits: seq<int>, j: nat)
    ensures Bit(PackByte(bits), j) == if j < |bits| then Normal(bits[j]) else 0
  {
    if j >= |bits| {
      Pow2Mono(|bits|, j);
      BitBeyond(PackByte(bits), j);
    } else if j > 0 {
      ShiftFirst(PackByte(bits), j - 1);
      assert PackByte(bits) / 2 == PackByte(bits[1..]);
      BitOfPacked(bits[1..], j - 1);
    }
  }

  lemma {:induction false} Pow2Mono(m: nat, n: nat)
    requires m <= n
    ensures Pow2(m) <= Pow2(n)
  {
    if m < n {
      Pow2Mono(m, n - 1);
    }
  }

  lemma {:induction false} PackOfBits(d: nat, n: nat, bits: seq<int>)
    requires |bits| == n && d < Pow2(n)
    requires forall j: nat :: j < n ==> bits[j] == Bit(d, j)
    ensures PackByte(bits) == d
  {
    if n > 0 {
      forall j: nat | j < n - 1
        ensures bits[1..][j] == Bit(d / 2, j)
      {
        ShiftFirst(d, j);
      }
      PackOfBits(d / 2, n - 1, bits[1..]);
      assert bits[0] == Bit(d, 0) == d % 2;
    }
  }

  lemma {:induction false} PackByteAppend(bits: seq<int>, b: int)
    ensures PackByte(bits + [b]) == PackByte(bits) + Normal(b) * Pow2(|bits|)
  {
    if bits == [] {
      assert PackByte([b]) == Normal(b) + 2 * PackByte([]);
    } else {
      assert (bits + [b])[1..] == bits[1..] + [b];
      PackByteAppend(bits[1..], b);
      assert Pow2(|bits|) == 2 * Pow2(|bits| - 1);
      assert Normal(b) == 0 || Normal(b) == 1;
    }
  }

  lemma ChunkAppend(bits: seq<int>, b: int, k: nat)
    ensures Chunk(bits + [b], k) == if k == |bits| / 8 then Chunk(bits, k) + [b] else Chunk(bits, k)
    ensures k == |bits| / 8 ==> |Chunk(bits, k)| == |bits| % 8
  {
  }

  lemma ChunkByteAppend(bits: seq<int>, b: int)
    ensures var q := |bits| / 8;
            ChunkByte(bits + [b], q) == if b != 0 then OrBit(ChunkByte(bits, q), |bits| % 8) else ChunkByte(bits, q)
  {
    var c := Chunk(bits, |bits| / 8);
    ChunkAppend(bits, b, |bits| / 8);
    PackByteAppend(c, b);
    BitOfPacked(c, |bits| % 8);
  }

  /** One step of the source's packing loops: or-ing a set bit in, skipping a clear one. */
  lemma PackIntoAppend(bits: seq<int>, b: int, size: nat)
    requires |bits| < 8 * size
    ensures var old' := PackInto(bits, size); var q := |bits| / 8;
            PackInto(bits + [b], size) == if b != 0 then old'[q := OrBit(old'[q], |bits| % 8)] else old'
  {
    ChunkByteAppend(bits, b);
    forall k: nat | k < size && k != |bits| / 8
      ensures ChunkByte(bits + [b], k) == ChunkByte(bits, k)
    {
      ChunkAppend(bits, b, k);
    }
  }

  // ---- the two round trips ----

  lemma PackUnpack(data: seq<byte>)
    ensures Pack(Unpack(data)) == data
  {
    forall k: nat | k < |data|
      ensures Pack(Unpack(data))[k] == data[k]
    {
      var c := Chunk(Unpack(data), k);
      assert |c| == 8;
      forall j: nat | j < 8
        ensures c[j] == Bit(data[k], j)
      {
        assert c[j] == Unpack(data)[8 * k + j];
      }
      Pow2Of8();
      PackOfBits(data[k], 8, c);
    }
  }

  lemma UnpackPackAt(bits: seq<int>, i: nat)
    requires i < 8 * ByteCount(|bits|)
    ensures Bit(ChunkByte(bits, i / 8), i % 8) == if i < |bits| then Normal(bits[i]) else 0
  {
    var c := Chunk(bits, i / 8);
    BitOfPacked(c, i % 8);
    assert i % 8 < |c| <==> i < |bits|;
    assert i % 8 < |c| ==> c[i % 8] == bits[i];
  }

  /** Unpacking what was packed: the bits in normal form, then zeros up to a multiple of eight. */
  lemma UnpackPack(bits: seq<int>)
    ensures var r := Unpack(Pack(bits));
            && |bits| <= |r| < |bits| + 8 && |r| % 8 == 0
            && forall i: nat :: i < |r| ==> r[i] == if i < |bits| then Normal(bits[i]) else 0
  {
    var r := Unpack(Pack(bits));
    forall i: nat | i < |r|
      ensures r[i] == if i < |bits| then Normal(bits[i]) else 0
    {
      UnpackPackAt(bits, i);
      assert r[i] == UnpackedBit(Pack(bits), i);
    }
  }

  // ---- the source's loops ----

  /** bits.Reverse8 on n bits. */
  function Reversed(e: nat, n: nat): (r: nat)
    ensures r < Pow2(n)
  {
    if n == 0 then 0 else
      assert Pow2(n) == 2 * Pow2(n - 1);
      (if e % 2 == 1 then Pow2(n - 1) else 0) + Reversed(e / 2, n - 1)
  }

  lemma {:induction false} ReversedShift(e: nat, n: nat)
    requires e < Pow2(n)
    ensures 2 * Reversed(e, n) == Reversed(e / 2, n) + (if e % 2 == 1 then Pow2(n) else 0)
  {
    if n > 0 {
      ReversedShift(e / 2, n - 1);
    }
  }

  function Reverse8(e: byte): byte {
    Pow2Of8();
    Reversed(e, 8)
  }

  lemma ReverseShift(e: byte)
    ensures Reverse8(e) >= 128 <==> e % 2 == 1
    ensures (2 * Reverse8(e) as int) % 256 == Reverse8(e / 2)
  {
    Pow2Of8();
    ReversedShift(e, 8);
    DoubleInByte(Reverse8(e), Reverse8(e / 2), e % 2 == 1);
  }

  lemma DoubleInByte(r: byte, h: byte, odd: bool)
    requires 2 * r as int == h as int + (if odd then 256 else 0)
    ensures r >= 128 <==> odd
    ensures (2 * r as int) % 256 == h
  {
  }

  lemma UnpackAt(data: seq<byte>, i: nat, j: nat)
    requires i < |data| && j < 8
    ensures UnpackedBit(data, i * 8 + j) == ShiftRight(data[i], j) % 2
  {
    assert (i * 8 + j) / 8 == i && (i * 8 + j) % 8 == j;
  }

  lemma UnpackedBits(data: seq<byte>, bits: seq<int>)
    requires |bits| == 8 * |data|
    requires forall m: nat :: m < 8 * |data| ==> bits[m] == UnpackedBit(data, m)
    ensures bits == Unpack(data)
  {
  }

  method BytesToBits(data: seq<byte>) returns (result: array<int>)
    ensures result[..] == Unpack(data)
  {
    result := new int[8 * |data|](_ => 0);
    for i := 0 to |data|
      invariant result.Length == 8 * |data|
      invariant forall m :: 0 <= m < 8 * i ==> result[m] == UnpackedBit(data, m)
    {
      var d := Reverse8(data[i]);
      ghost var rest: byte := data[i];
      for j := 0 to 8
        invariant rest == ShiftRight(data[i], j) && d == Reverse8(rest)
        invariant forall m :: 0 <= m < 8 * i + j ==> result[m] == UnpackedBit(data, m)
      {
        var idx := i * 8 + j;
        ReverseShift(rest);
        UnpackAt(data, i, j);
        if d >= 128 {
          result[idx] := 1;
        } else {
          result[idx] := 0;
        }
        d := (2 * d as int) % 256;
        rest := rest / 2;
      }
    }
    UnpackedBits(data, result[..]);
  }

  /** data[idx/8] |= 1 << (idx % 8). */
  method OrInto(data: array<byte>, idx: nat)
    requires idx / 8 < data.Length
    modifies data
    ensures data[..] == old(data[..])[idx / 8 := OrBit(old(data[idx / 8]), idx % 8)]
  {
    data[idx / 8] := OrBit(data[idx / 8], idx % 8);
  }

  method BitsToBytes(bits: seq<int>) returns (data: array<byte>)
    ensures data[..] == Pack(bits)
  {
    var count := |bits|;
    var size := count / 8;
    if count % 8 != 0 {
      size := size + 1;
    }
    data := new byte[size](_ => 0);
    assert data[..] == PackInto([], size);
    for idx := 0 to count
      invariant data.Length == size
      invariant data[..] == PackInto(bits[..idx], size)
    {
      PackIntoAppend(bits[..idx], bits[idx], size);
      assert bits[..idx + 1] == bits[..idx] + [bits[idx]];
      if bits[idx] != 0 {
        OrInto(data, idx);
      }
    }
    assert bits[..count] == bits;
  }
}

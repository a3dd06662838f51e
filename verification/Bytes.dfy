/** Bytes, big-endian words and two's complement, as the Go package encoding/binary writes them. */
module Bytes {

  type byte = x: int | 0 <= x < 256

  /** 256^n: how many words fit in n bytes. */
  function Words(n: nat): (m: nat)
    ensures m > 0
  {
    if n == 0 then 1 else 256 * Words(n - 1)
  }

  /** The low n bytes of w, most significant byte first. */
  function BigEndian(w: nat, n: nat): (d: seq<byte>)
    ensures |d| == n
  {
    if n == 0 then [] else BigEndian(w / 256, n - 1) + [w % 256]
  }

  function FromBigEndian(d: seq<byte>): nat {
    if d == [] then 0 else 256 * FromBigEndian(d[..|d| - 1]) + d[|d| - 1]
  }

  lemma {:induction false} WordRoundTrip(w: nat, n: nat)
    requires w < Words(n)
    ensures FromBigEndian(BigEndian(w, n)) == w
  {
    if n > 0 {
      WordRoundTrip(w / 256, n - 1);
      assert BigEndian(w, n)[..n - 1] == BigEndian(w / 256, n - 1);
    }
  }

  lemma {:induction false} BytesRoundTrip(d: seq<byte>)
    ensures FromBigEndian(d) < Words(|d|)
    ensures BigEndian(FromBigEndian(d), |d|) == d
  {
    if d != [] {
      BytesRoundTrip(d[..|d| - 1]);
    }
  }

  predicate InRange(signed: bool, i: int, m: nat) {
    if signed then 0 <= 2 * i + m && 2 * i < m else 0 <= i < m
  }

  /** The word below m that stores i: i itself, or its two's complement. */
  function ToWord(signed: bool, i: int, m: nat): (w: nat)
    requires InRange(signed, i, m)
    ensures w < m
  {
    if i < 0 then i + m else i
  }

  /** The integer that a word stores, read as signed or as unsigned. */
  function FromWord(signed: bool, w: nat, m: nat): int {
    if signed && 2 * w >= m then w - m else w
  }

  lemma IntegerRoundTrip(signed: bool, i: int, m: nat)
    requires InRange(signed, i, m)
    ensures FromWord(signed, ToWord(signed, i, m), m) == i
  {
  }

  lemma WordOfInteger(signed: bool, w: nat, m: nat)
    requires w < m
    ensures InRange(signed, FromWord(signed, w, m), m)
    ensures ToWord(signed, FromWord(signed, w, m), m) == w
  {
  }

  // ---- in figures ----

  /** The first byte counts most. */
  lemma {:induction false} FirstByte(d: seq<byte>)
    requires d != []
    ensures FromBigEndian(d) == d[0] * Words(|d| - 1) + FromBigEndian(d[1..])
  {
    var rest := d[1..];
    if |d| == 1 {
      assert d[..0] == [] && rest == [];
    } else {
      var init := d[..|d| - 1];
      FirstByte(init);
      assert init[1..] == rest[..|rest| - 1] && rest[|rest| - 1] == d[|d| - 1];
      OneMoreByte(d[0], Words(|d| - 2), FromBigEndian(init[1..]), d[|d| - 1]);
    }
  }

  lemma OneMoreByte(b: nat, w: nat, rest: nat, last: nat)
    ensures 256 * (b * w + rest) + last == b * (256 * w) + (256 * rest + last)
  {
  }

  /** The widths that registers have. */
  lemma WordsInFigures()
    ensures Words(1) == 256 && Words(2) == 65536 && Words(4) == 4294967296 && Words(8) == 18446744073709551616
  {
    assert Words(3) == 16777216;
    assert Words(6) == 281474976710656;
  }

  lemma PairInFigures(d: seq<byte>)
    requires |d| == 2
    ensures FromBigEndian(d) == (d[0] as int) * 256 + d[1]
  {
    assert d[..1] == [d[0]] && d[..1][..0] == [];
    assert FromBigEndian(d[..1]) == d[0];
  }

  /** Two's complement: with the top bit of its first byte set, a signed integer is that much less than the word. */
  lemma SignBit(signed: bool, d: seq<byte>)
    requires d != []
    ensures FromWord(signed, FromBigEndian(d), Words(|d|))
         == FromBigEndian(d) - if signed && d[0] >= 128 then Words(|d|) else 0
    ensures FromWord(signed, FromBigEndian(d), Words(|d|)) < 0 <==> signed && d[0] >= 128
  {
    hide FromBigEndian, BigEndian;
    FirstByte(d);
    BytesRoundTrip(d[1..]);
    UpperHalf(d[0], Words(|d| - 1), FromBigEndian(d[1..]));
  }

  lemma UpperHalf(b: byte, w: nat, rest: nat)
    requires rest < w
    ensures 2 * (b * w + rest) >= 256 * w <==> b >= 128
    ensures b * w + rest < 256 * w
  {
    if b >= 128 {
      assert b * w >= 128 * w;
    } else {
      assert b * w <= 127 * w;
    }
    assert b * w <= 255 * w;
  }

  lemma RangesInFigures(i: int)
    ensures InRange(true, i, Words(2)) <==> -32768 <= i <= 32767
    ensures InRange(false, i, Words(2)) <==> 0 <= i <= 65535
    ensures InRange(true, i, Words(4)) <==> -2147483648 <= i <= 2147483647
    ensures InRange(false, i, Words(4)) <==> 0 <= i <= 4294967295
    ensures InRange(true, i, Words(8)) <==> -9223372036854775808 <= i <= 9223372036854775807
    ensures InRange(false, i, Words(8)) <==> 0 <= i <= 18446744073709551615
  {
    WordsInFigures();
  }

  /** Go's conversion to uint16 of a non-negative int, on the wire. */
  function U16(n: nat): seq<byte> {
    BigEndian(n % 0x1_0000, 2)
  }

  lemma U16RoundTrip(n: nat)
    ensures |U16(n)| == 2
    ensures FromBigEndian(U16(n)) == n % 0x1_0000
  {
    WordRoundTrip(n % 0x1_0000, 2);
  }
}

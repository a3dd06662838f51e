/**
 * What the model takes from the Go runtime: outcomes, conversions and the words that encoding/binary puts on the wire.
 */
module GoRuntime {
  import opened Bytes
  import opened Decimal

  /** A returned value, a returned error, or a run-time panic. */
  datatype Result<+T> = Ok(value: T) | Err | Panic

  /**
   * The parts of the platform that the source relies on and that are not modelled further:
   * the result of converting a float64 that does not fit the integer type, the bit patterns
   * of floating point numbers, powers of ten with any exponent, and the bytes of a string.
   */
  datatype Platform = Platform(
    overflow: (nat, real) -> nat,
    float32Bits: real -> nat,
    float32Value: nat -> real,
    float64Bits: real -> nat,
    float64Value: nat -> real,
    pow10: real -> real,
    utf8: string -> seq<byte>)
  {
    predicate Reciprocal(x: real) {
      Step(pow10(-x), pow10(x))
    }

    /** The laws of 10^x that the codec needs. */
    ghost predicate ExactPowers() {
      && pow10(0.0) == 1.0
      && forall x: real :: Reciprocal(x)
    }

    /** The word (out of m) left by converting x to an integer type. */
    function IntWord(signed: bool, m: nat, x: real): (w: nat)
      requires m > 0
      ensures w < m
    {
      if InRange(signed, Trunc(x), m) then ToWord(signed, Trunc(x), m) else overflow(m, x) % m
    }

    /** The n bytes written for a float64 converted to an integer type of n bytes. */
    function PutInt(signed: bool, n: nat, x: real): (d: seq<byte>)
      ensures |d| == n
    {
      BigEndian(IntWord(signed, Words(n), x), n)
    }
  }

  /** The integer read back from its bytes. */
  function GetInt(signed: bool, d: seq<byte>): int {
    FromWord(signed, FromBigEndian(d), Words(|d|))
  }

  /** Putting v in steps of size u and getting it back quantises v, when the steps fit the type. */
  lemma GetAfterPut(p: Platform, signed: bool, n: nat, v: real, k: real, u: real)
    requires InRange(signed, Trunc(Times(v, k)), Words(n))
    ensures Times(GetInt(signed, p.PutInt(signed, n, Times(v, k))) as real, u) == Quantised(v, k, u)
  {
    WordRoundTrip(p.IntWord(signed, Words(n), Times(v, k)), n);
    IntegerRoundTrip(signed, Trunc(Times(v, k)), Words(n));
  }

  lemma PutWhole(p: Platform, signed: bool, d: seq<byte>, x: real)
    requires x == GetInt(signed, d) as real
    ensures p.PutInt(signed, |d|, x) == d
  {
    BytesRoundTrip(d);
    WordOfInteger(signed, FromBigEndian(d), Words(|d|));
    TruncWhole(GetInt(signed, d));
  }

  /** Getting an integer in steps and putting it again restores the bytes, for every pattern of bytes. */
  lemma PutAfterGet(p: Platform, signed: bool, d: seq<byte>, k: real, u: real)
    requires Step(k, u)
    ensures p.PutInt(signed, |d|, Times(Times(GetInt(signed, d) as real, u), k)) == d
  {
    ToSteps(GetInt(signed, d) as real, k, u);
    PutWhole(p, signed, d, Times(Times(GetInt(signed, d) as real, u), k));
  }

  lemma GetIntRange(signed: bool, d: seq<byte>)
    ensures InRange(signed, GetInt(signed, d), Words(|d|))
  {
    BytesRoundTrip(d);
    WordOfInteger(signed, FromBigEndian(d), Words(|d|));
  }

  /** Whatever bytes are stored, they lie within one step of v only if v's truncation fits the type. */
  lemma FitsIfClose(signed: bool, d: seq<byte>, v: real, k: real, u: real)
    requires Step(k, u)
    requires Abs(v - Times(GetInt(signed, d) as real, u)) < u
    ensures InRange(signed, Trunc(Times(v, k)), Words(|d|))
  {
    GetIntRange(signed, d);
    WithinOneStep(v, k, u, GetInt(signed, d));
  }

  /**
   * Putting and getting: within a step, and towards zero, exactly when the value fits; unchanged exactly on whole
   * steps.
   */
  lemma IntegerReadBack(p: Platform, signed: bool, n: nat, v: real, k: real, u: real)
    requires Step(k, u)
    ensures var back := Times(GetInt(signed, p.PutInt(signed, n, Times(v, k))) as real, u);
            var fits := InRange(signed, Trunc(Times(v, k)), Words(n));
            && (fits <==> Abs(v - back) < u)
            && (fits ==> back == Quantised(v, k, u) && Between(back, v))
            && (fits ==> (back == v <==> Whole(Times(v, k))))
  {
    var d := p.PutInt(signed, n, Times(v, k));
    if InRange(signed, Trunc(Times(v, k)), Words(n)) {
      GetAfterPut(p, signed, n, v, k, u);
      QuantisedBounds(v, k, u);
    } else if Abs(v - Times(GetInt(signed, d) as real, u)) < u {
      FitsIfClose(signed, d, v, k, u);
    }
  }
}

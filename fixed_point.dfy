/**
 * `FloatCtm::to_linux_ctm`: each coefficient becomes a 64-bit DRM word in
 * sign-magnitude fixed point. Bit 63 is the sign and bits 0-62 hold the
 * magnitude times 2^32, truncated toward zero.
 *
 * Words are naturals below 2^64. Bit 63 is `w >= 2^63` and bits 0-62 are
 * `w % 2^63`.
 */
module FixedPoint {
  import opened Matrix

  const TWO_32: nat := 0x1_0000_0000
  const TWO_63: nat := 0x8000_0000_0000_0000
  const TWO_64: nat := 0x1_0000_0000_0000_0000

  /** `(1u64 << 32) as f64`, the scale of the fractional part. */
  const SCALE: real := 4294967296.0

  type U64 = n: nat | n < 0x1_0000_0000_0000_0000

  /** The `linux: [u64; 9]` view of the `DrmCtm` union. */
  type DrmCtm = ws: seq<U64> | |ws| == 9 witness [0, 0, 0, 0, 0, 0, 0, 0, 0]

  /** Bit 63 of a word. */
  predicate SignBit(w: U64)
  {
    w >= TWO_63
  }

  /** Bits 0-62 of a word. */
  function Magnitude(w: U64): nat
  {
    w % TWO_63
  }

  function Abs(x: real): real
  {
    if x < 0.0 then -x else x
  }

  /** The magnitude of `x` scaled by 2^32 fits in the 63 magnitude bits. */
  predicate InRange(x: real)
  {
    Abs(x) * SCALE < TWO_63 as real
  }

  /** `x * 2^32` is a whole number, so the encoding loses nothing. */
  predicate Dyadic(x: real)
  {
    (x * SCALE).Floor as real == x * SCALE
  }

  /** `m | (1u64 << 63)`: bit 63 set, bits 0-62 kept. */
  function WithSignBit(m: U64): (w: U64)
    ensures SignBit(w) && Magnitude(w) == Magnitude(m)
    ensures SignBit(m) ==> w == m
  {
    if m < TWO_63 then m + TWO_63 else m
  }

  /**
   * Rust's `y as u64` for a finite `f64`: truncation toward zero, saturating
   * at 0 below and at 2^64 - 1 above.
   */
  function CastU64(y: real): (n: U64)
    ensures 0.0 <= y < TWO_64 as real ==> n as real <= y < n as real + 1.0
    ensures y < 0.0 ==> n == 0
    ensures TWO_64 as real <= y ==> n == TWO_64 - 1
  {
    if y < 0.0 then 0
    else if y >= TWO_64 as real then TWO_64 - 1
    else y.Floor
  }

  /**
   * The closure mapped over the coefficients in `to_linux_ctm`. For a
   * coefficient in range, bit 63 says whether it is negative and the
   * magnitude bits are |x| * 2^32 truncated toward zero.
   */
  function EncodeCoeff(x: real): (w: U64)
    ensures x < 0.0 ==> SignBit(w)
    ensures InRange(x) ==> (SignBit(w) <==> x < 0.0)
    ensures InRange(x) ==> Magnitude(w) as real <= Abs(x) * SCALE < Magnitude(w) as real + 1.0
  {
    if x < 0.0 then WithSignBit(CastU64(-x * SCALE))
    else CastU64(x * SCALE)
  }

  /**
   * A negative coefficient is encoded as its negation with bit 63 set, so
   * both have the same magnitude bits; in range those bits are the whole
   * encoding of the negation.
   */
  lemma EncodeNegative(x: real)
    requires x < 0.0
    ensures EncodeCoeff(x) == WithSignBit(EncodeCoeff(-x))
    ensures Magnitude(EncodeCoeff(x)) == Magnitude(EncodeCoeff(-x))
    ensures InRange(x) ==> Magnitude(EncodeCoeff(x)) == EncodeCoeff(-x)
  {
  }

  /** Truncation, not rounding: 0.9999999998 is just above 1 - 2^-32 and still encodes below one. */
  lemma EncodeTruncates()
    ensures EncodeCoeff(0.9999999998) == 4294967295
  {
  }

  /** The words of the coefficients in the sample matrices: whole and half gains, minus one and one third. */
  lemma EncodeSamples()
    ensures EncodeCoeff(0.0) == 0 && EncodeCoeff(1.0) == TWO_32
    ensures EncodeCoeff(2.0) == 2 * TWO_32 && EncodeCoeff(0.5) == 2147483648
    ensures EncodeCoeff(-1.0) == TWO_63 + TWO_32
    ensures EncodeCoeff(1.0 / 3.0) == 1431655765
  {
  }

  /**
   * Nothing clamps out-of-range coefficients: a positive value from 2^31 up
   * gets bit 63 set, which the driver reads as negative, and from 2^32 up
   * the cast saturates to all ones.
   */
  lemma EncodeOutOfRange(x: real)
    requires 0.0 <= x && TWO_63 as real <= x * SCALE
    ensures SignBit(EncodeCoeff(x))
    ensures TWO_64 as real <= x * SCALE ==> EncodeCoeff(x) == TWO_64 - 1
  {
  }

  /** The value a driver reads back from a word: sign times magnitude / 2^32. */
  function DecodeWord(w: U64): real
  {
    if SignBit(w) then -(Magnitude(w) as real / SCALE) else Magnitude(w) as real / SCALE
  }

  /**
   * Decoding an encoded in-range coefficient gives it back truncated toward
   * zero by less than 2^-32, with the same sign unless it truncates to zero,
   * and exactly when `x * 2^32` is whole.
   */
  lemma DecodeEncode(x: real)
    requires InRange(x)
    ensures Abs(DecodeWord(EncodeCoeff(x))) <= Abs(x) < Abs(DecodeWord(EncodeCoeff(x))) + 1.0 / SCALE
    ensures DecodeWord(EncodeCoeff(x)) == 0.0 || (DecodeWord(EncodeCoeff(x)) < 0.0 <==> x < 0.0)
    ensures Dyadic(x) ==> DecodeWord(EncodeCoeff(x)) == x
  {
    var w := EncodeCoeff(x);
    var m := Magnitude(w) as real;
    assert Abs(DecodeWord(w)) == m / SCALE;
    assert m <= Abs(x) * SCALE < m + 1.0;
    if Dyadic(x) {
      if x < 0.0 {
        assert (-x * SCALE).Floor == -((x * SCALE).Floor);
      }
      assert m == Abs(x) * SCALE;
    }
  }

  /**
   * Every word except the "negative zero" 2^63 is the encoding of the value
   * it decodes to: the encoding reaches every other word.
   */
  lemma EncodeDecode(w: U64)
    requires w != TWO_63
    ensures EncodeCoeff(DecodeWord(w)) == w
  {
  }

  /**
   * `FloatCtm::to_linux_ctm`: nine words, word `i` the encoding of
   * coefficient `i` and of nothing else.
   */
  function ToLinuxCtm(m: FloatCtm): (d: DrmCtm)
    ensures forall i :: 0 <= i < 9 ==> d[i] == EncodeCoeff(m[i])
  {
    seq(9, i requires 0 <= i < 9 => EncodeCoeff(m[i]))
  }

  /** The matrix a driver reads back from nine words. */
  function DecodeCtm(d: DrmCtm): FloatCtm
  {
    seq(9, i requires 0 <= i < 9 => DecodeWord(d[i]))
  }

  /** A matrix whose coefficients are all in range and whole multiples of 2^-32 survives encoding exactly. */
  lemma DecodeLinuxCtm(m: FloatCtm)
    requires forall i :: 0 <= i < 9 ==> InRange(m[i]) && Dyadic(m[i])
    ensures DecodeCtm(ToLinuxCtm(m)) == m
  {
    forall i | 0 <= i < 9
      ensures DecodeCtm(ToLinuxCtm(m))[i] == m[i]
    {
      DecodeEncode(m[i]);
    }
  }

  /** Nine words none of which is the negative zero are the encoding of the matrix they decode to. */
  lemma LinuxCtmOfDecode(d: DrmCtm)
    requires forall i :: 0 <= i < 9 ==> d[i] != TWO_63
    ensures ToLinuxCtm(DecodeCtm(d)) == d
  {
  }
}

/**
 * The sensor's compact timeout format and pulse-period register format
 * (utils/encode-decode.js).
 *
 * A timeout register holds a 16-bit word whose high byte is an exponent and
 * whose low byte is a mantissa; the word stands for (mantissa * 2^exponent) + 1
 * macro-clock ticks. Integers here are unbounded: the 32-bit wrap-around of
 * JavaScript's shift operators is not modelled.
 */
module TimeoutCodec {
  import opened Arithmetic

  /** 2^e */
  function Pow2(e: nat): (r: nat)
    ensures r >= 1
  {
    if e == 0 then 1 else 2 * Pow2(e - 1)
  }

  /** decodeTimeout: (value & 0xFF) << ((value & 0xFF00) >> 8), plus one. */
  function DecodeTimeout(value: int): (mclks: int)
    ensures mclks >= 1
  {
    var mantissa := value % 256;
    var exponent := (value / 256) % 256;
    assert mantissa * Pow2(exponent) >= 0;
    mantissa * Pow2(exponent) + 1
  }

  /** Number of times the encoder's loop halves lsb = k before it fits in a byte. */
  function Exponent(k: nat): nat
  {
    if k < 256 then 0 else 1 + Exponent(k / 2)
  }

  /** What is left of lsb = k when the encoder's loop stops. */
  function Mantissa(k: nat): (m: nat)
    ensures m < 256
  {
    if k < 256 then k else Mantissa(k / 2)
  }

  /** The word encodeTimeout returns for a (whole) number of macro-clock ticks. */
  function TimeoutEncoding(mclks: int): (word: nat)
    ensures mclks <= 0 ==> word == 0
    ensures mclks > 0 ==> word / 256 == Exponent(mclks - 1) && word % 256 == Mantissa(mclks - 1)
  {
    if mclks <= 0 then 0 else Exponent(mclks - 1) * 256 + Mantissa(mclks - 1)
  }

  /**
   * encodeTimeout, with its normalising loop. The guard `lsb >= 256` is the
   * source's `(lsb & 0xffffff00) > 0` for every lsb below 2^31.
   */
  method EncodeTimeout(timeoutMclks: int) returns (word: int)
    ensures word == TimeoutEncoding(timeoutMclks)
  {
    if timeoutMclks <= 0 {
      return 0;
    }
    var lsb := timeoutMclks - 1;
    var msb := 0;
    while lsb >= 256
      invariant 0 <= lsb
      invariant msb + Exponent(lsb) == Exponent(timeoutMclks - 1)
      invariant Mantissa(lsb) == Mantissa(timeoutMclks - 1)
    {
      lsb := lsb / 2;
      msb := msb + 1;
    }
    word := msb * 256 + lsb;
  }

  /** Halving and then dividing by 2^e is dividing by 2^(e+1). */
  lemma DivHalfThenPow2(k: nat, e: nat)
    ensures k / 2 / Pow2(e) == k / Pow2(e + 1)
  {
    var p := Pow2(e);
    var q, r := k / 2 / p, k / 2 % p;
    assert k / 2 == q * p + r;
    assert k == q * (2 * p) + (2 * r + k % 2);
    DivUnique(k, 2 * p, q, 2 * r + k % 2);
  }

  lemma {:induction false} Pow2Add(a: nat, b: nat)
    ensures Pow2(a + b) == Pow2(a) * Pow2(b)
  {
    if a > 0 {
      Pow2Add(a - 1, b);
    }
  }

  /**
   * The encoding is normalised: the mantissa is lsb / 2^exponent, it fits in a
   * byte, and the exponent is the least one for which it fits, so that a
   * non-zero exponent comes with a mantissa of at least 128.
   */
  lemma {:induction false} MantissaIsQuotient(k: nat)
    ensures Mantissa(k) == k / Pow2(Exponent(k))
    ensures Exponent(k) == 0 || k / Pow2(Exponent(k) - 1) >= 256
    ensures Exponent(k) == 0 || Mantissa(k) >= 128
  {
    if k >= 256 {
      var e := Exponent(k / 2);
      MantissaIsQuotient(k / 2);
      DivHalfThenPow2(k, e);
      if e > 0 {
        DivHalfThenPow2(k, e - 1);
      }
    }
  }

  /** Bounds of the exponent: it is below n exactly when lsb is below 256 * 2^n. */
  lemma {:induction false} ExponentBound(k: nat, n: nat)
    requires k < 256 * Pow2(n)
    ensures Exponent(k) <= n
  {
    if k >= 256 {
      assert n > 0;
      ExponentBound(k / 2, n - 1);
    }
  }

  /**
   * decode(encode(m)) rounds m down to the encoding's precision: it never
   * exceeds m and loses less than one step of 2^exponent; it is exact for
   * every m up to 256.
   */
  lemma DecodeEncodeWithinPrecision(m: int)
    requires 1 <= m <= 0x8000_0000
    ensures var e := Exponent(m - 1);
      m - Pow2(e) < DecodeTimeout(TimeoutEncoding(m)) <= m
    ensures m <= 256 ==> DecodeTimeout(TimeoutEncoding(m)) == m
  {
    var k := m - 1;
    var e := Exponent(k);
    MantissaIsQuotient(k);
    var w := TimeoutEncoding(m);
    assert w % 256 == Mantissa(k) && (w / 256) % 256 == e % 256;
    ExponentOfInt32(k);
    assert DecodeTimeout(w) == Mantissa(k) * Pow2(e) + 1;
    var p := Pow2(e);
    assert Mantissa(k) == k / p;
    DivBounds(k, p);
    if m <= 256 {
      assert Exponent(k) == 0;
    }
  }

  /** For every tick count JavaScript's 32-bit operators handle, the exponent stays below 24. */
  lemma ExponentOfInt32(k: nat)
    requires k < 0x8000_0000
    ensures Exponent(k) <= 23
  {
    Pow2Add(12, 11);
    assert Pow2(12) == 4096 && Pow2(11) == 2048;
    ExponentBound(k, 23);
  }

  /** Canonical words: the ones encodeTimeout can produce. */
  predicate Canonical(word: int)
  {
    0 <= word < 65536 && (word / 256 == 0 || word % 256 >= 128)
  }

  /** Halving a canonical mantissa-times-power walks the encoder back one exponent. */
  lemma {:induction false} EncodesScaledMantissa(mantissa: nat, e: nat)
    requires mantissa < 256 && (e == 0 || mantissa >= 128)
    ensures Exponent(mantissa * Pow2(e)) == e
    ensures Mantissa(mantissa * Pow2(e)) == mantissa
  {
    if e > 0 {
      var k := mantissa * Pow2(e);
      assert k == 2 * (mantissa * Pow2(e - 1));
      assert mantissa * Pow2(e - 1) >= 128 by {
        assert Pow2(e - 1) >= 1;
      }
      assert k / 2 == mantissa * Pow2(e - 1);
      EncodesScaledMantissa(mantissa, e - 1);
    }
  }

  /**
   * encode(decode(w)) == w exactly for the canonical words, and only for them:
   * every word encodeTimeout returns is canonical.
   */
  lemma EncodeDecodeRoundTrip(word: int)
    requires 0 <= word < 65536
    ensures TimeoutEncoding(DecodeTimeout(word)) == word <==> Canonical(word)
  {
    var mantissa, e := word % 256, word / 256;
    assert e < 256;
    var k := mantissa * Pow2(e);
    assert DecodeTimeout(word) == k + 1;
    var enc := TimeoutEncoding(k + 1);
    assert enc / 256 == Exponent(k) && enc % 256 == Mantissa(k);
    if Canonical(word) {
      EncodesScaledMantissa(mantissa, e);
      assert enc == e * 256 + mantissa;
    } else {
      MantissaIsQuotient(k);
      assert enc / 256 != e || enc % 256 != mantissa;
    }
  }

  /** Every encoding of a positive tick count is canonical. */
  lemma EncodingIsCanonical(m: int)
    requires 1 <= m <= 0x8000_0000
    ensures Canonical(TimeoutEncoding(m))
  {
    MantissaIsQuotient(m - 1);
    ExponentOfInt32(m - 1);
  }

  /** encodeVcselPeriod: (periodPclks >> 1) - 1; it inverts the register read-back for every even period. */
  function EncodeVcselPeriod(periodPclks: int): (r: int)
    ensures periodPclks % 2 == 0 ==> VcselPeriodFromRegister(r) == periodPclks
    ensures periodPclks % 2 == 1 ==> VcselPeriodFromRegister(r) == periodPclks - 1
  {
    periodPclks / 2 - 1
  }

  /** A pulse period read back from its register: ((r + 1) << 1). */
  function VcselPeriodFromRegister(r: int): (periodPclks: int)
    ensures periodPclks % 2 == 0
    ensures r >= 0 ==> periodPclks >= 2
  {
    (r + 1) * 2
  }

  /** Reading a period back and re-encoding it gives the register value again. */
  lemma VcselPeriodRoundTrip(r: int)
    ensures EncodeVcselPeriod(VcselPeriodFromRegister(r)) == r
  {
  }
}

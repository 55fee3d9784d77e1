/** Widening binary16 to binary32 (section 3.4 of IEEE 754): the same number, the same infinity, the same NaN. */
module HalfFloat {

  /** `m` times two to the power `k`. */
  function Scaled(m: real, k: int): real
    decreases if k < 0 then -k else k
  {
    if k == 0 then m else if k > 0 then Scaled(2.0 * m, k - 1) else Scaled(m / 2.0, k + 1)
  }

  datatype Magnitude = Finite(value: real) | Infinite | NaN(fraction: real)
  datatype Meaning = Meaning(negative: bool, magnitude: Magnitude)

  type Half = n: nat | n < 0x1_0000
  type Single = n: nat | n < 0x1_0000_0000

  /** The number with fraction `f` in [0, 1) under a biased exponent. */
  function Denoted(f: real, exponent: nat, top: nat, bias: nat): Magnitude {
    if exponent == top then (if f == 0.0 then Infinite else NaN(f))
    else if exponent == 0 then Finite(Scaled(f, 1 - bias))
    else Finite(Scaled(1.0 + f, exponent - bias))
  }

  function HalfMeaning(h: Half): Meaning {
    Meaning(h / 0x8000 == 1, Denoted((h % 0x400) as real / 1024.0, (h / 0x400) % 0x20, 31, 15))
  }

  function SingleMeaning(b: Single): Meaning {
    Meaning(b / 0x8000_0000 == 1, Denoted((b % 0x80_0000) as real / 8388608.0, (b / 0x80_0000) % 0x100, 255, 127))
  }

  // Scaling.

  lemma {:induction false} ScaledQuotient(m: real, k: int)
    ensures Scaled(m / 2.0, k) == Scaled(m, k) / 2.0 && Scaled(m / 1024.0, k) == Scaled(m, k) / 1024.0
    decreases if k < 0 then -k else k
  {
    if k > 0 {
      ScaledQuotient(2.0 * m, k - 1);
      assert 2.0 * (m / 2.0) == (2.0 * m) / 2.0 && 2.0 * (m / 1024.0) == (2.0 * m) / 1024.0;
    } else if k < 0 {
      ScaledQuotient(m / 2.0, k + 1);
      assert (m / 1024.0) / 2.0 == (m / 2.0) / 1024.0;
    }
  }

  /** Lowering the exponent by one halves the number. */
  lemma ScaledDown(m: real, k: int)
    ensures Scaled(m, k - 1) == Scaled(m, k) / 2.0
  {
    if k <= 0 {
      ScaledQuotient(m, k);
    } else {
      ScaledQuotient(2.0 * m, k - 1);
      assert (2.0 * m) / 2.0 == m;
    }
  }

  /** Doubling the factor makes up for it. */
  lemma ScaledDoubled(m: real, k: int)
    ensures Scaled(2.0 * m, k - 1) == Scaled(m, k)
  {
    ScaledDown(2.0 * m, k);
    ScaledQuotient(2.0 * m, k);
    assert (2.0 * m) / 2.0 == m;
  }

  lemma {:induction false} ScaledTogether(m: real, e: int, f: real, k: int, n: nat)
    requires Scaled(m, e) == Scaled(f, k)
    ensures Scaled(m, e - n) == Scaled(f, k - n)
    decreases n
  {
    if n != 0 {
      ScaledTogether(m, e, f, k, n - 1);
      ScaledDown(m, e - n + 1);
      ScaledDown(f, k - n + 1);
    }
  }

  /** A subnormal half whose fraction was doubled to at least 1024 has its value as a normal single. */
  lemma NormalizedValue(fraction: nat, m: nat, e: int, bias: nat, k: int)
    requires k == 1 && Scaled(m as real, e) == Scaled(fraction as real, k) && 0 < e + 112 < 255
    ensures Denoted((m - 0x400) as real / 1024.0, e + 112, 255, bias + 112) ==
        Denoted(fraction as real / 1024.0, 0, 31, bias)
  {
    ScaledTogether(m as real, e, fraction as real, k, bias);
    ScaledQuotient(m as real, e - bias);
    ScaledQuotient(fraction as real, k - bias);
    assert 1.0 + (m - 0x400) as real / 1024.0 == m as real / 1024.0;
    assert e + 112 - (bias + 112) == e - bias;
  }

  lemma NormalValue(exponent: nat, f: real, bias: nat)
    requires 0 < exponent < 31
    ensures Denoted(f, exponent + 112, 255, bias + 112) == Denoted(f, exponent, 31, bias)
  {
    assert exponent + 112 - (bias + 112) == exponent - bias;
  }

  lemma {:induction false} ZeroScaled(k: int)
    ensures Scaled(0.0, k) == 0.0
    decreases if k < 0 then -k else k
  {
    if k > 0 {
      ZeroScaled(k - 1);
    } else if k < 0 {
      ZeroScaled(k + 1);
    }
  }

  lemma ZeroValue(bias: nat)
    ensures Denoted(0.0, 0, 255, bias + 112) == Denoted(0.0, 0, 31, bias)
  {
    ZeroScaled(1 - bias);
    ZeroScaled(1 - (bias + 112));
  }

  // Bits.

  /** Packing a sign, an exponent and ten fraction bits into a single. */
  function Pack(sign: nat, exponent: nat, fraction: nat): Single
    requires sign < 2 && exponent < 256 && fraction < 0x400
  {
    sign * 0x8000_0000 + exponent * 0x80_0000 + fraction * 0x2000
  }

  lemma PackedFields(sign: nat, exponent: nat, fraction: nat)
    requires sign < 2 && exponent < 256 && fraction < 0x400
    ensures var b := Pack(sign, exponent, fraction);
            && b / 0x8000_0000 == sign && (b / 0x80_0000) % 0x100 == exponent && b % 0x80_0000 == fraction * 0x2000
  {
    var b, low := Pack(sign, exponent, fraction), fraction * 0x2000;
    assert low < 0x80_0000;
    assert b == (sign * 0x100 + exponent) * 0x80_0000 + low;
    assert b / 0x80_0000 == sign * 0x100 + exponent && b % 0x80_0000 == low;
  }

  lemma PackedMeaning(sign: nat, exponent: nat, fraction: nat)
    requires sign < 2 && exponent < 256 && fraction < 0x400
    ensures SingleMeaning(Pack(sign, exponent, fraction)) ==
        Meaning(sign == 1, Denoted(fraction as real / 1024.0, exponent, 255, 127))
  {
    PackedFields(sign, exponent, fraction);
    assert (fraction * 0x2000) as real / 8388608.0 == fraction as real / 1024.0;
  }

  /** After `n` doublings a positive number is at least `2^n`. */
  function Doubled(n: nat): nat {
    if n == 0 then 1 else 2 * Doubled(n - 1)
  }

  lemma TenDoublings()
    ensures Doubled(10) == 0x400
  {
    assert Doubled(5) == 32;
  }

  /** Doubles a subnormal fraction until its eleventh bit is set. */
  method Normalize(fraction: nat, start: int) returns (m: nat, e: int)
    requires 0 < fraction < 0x400 && start == 1
    ensures 0x400 <= m < 0x800 && -9 <= e <= 0 && Scaled(m as real, e) == Scaled(fraction as real, start)
  {
    m, e := fraction, start;
    TenDoublings();
    while m < 0x400
      invariant 0 < m < 0x800 && -9 <= e <= 1 && m >= Doubled(1 - e) && (e == 1 ==> m < 0x400)
      invariant Scaled(m as real, e) == Scaled(fraction as real, start)
      decreases 0x800 - m
    {
      ScaledDoubled(m as real, e);
      assert (2 * m) as real == 2.0 * m as real;
      m, e := 2 * m, e - 1;
    }
  }

  /** Widening keeps sign and magnitude. */
  method HalfToFloat(h: Half) returns (bits: Single)
    ensures SingleMeaning(bits) == HalfMeaning(h)
  {
    var sign, exponent, mantissa: nat := h / 0x8000, (h / 0x400) % 0x20, h % 0x400;
    ghost var bias := 15;
    if exponent == 0 {
      if mantissa == 0 {
        PackedMeaning(sign, 0, 0);
        ZeroValue(bias);
        return Pack(sign, 0, 0);
      }
      var m, e := Normalize(mantissa, 1);
      NormalizedValue(mantissa, m, e, bias, 1);
      PackedMeaning(sign, e + 112, m - 0x400);
      return Pack(sign, e + 112, m - 0x400);
    }
    if exponent == 31 {
      PackedMeaning(sign, 255, mantissa);
      return Pack(sign, 255, mantissa);
    }
    NormalValue(exponent, mantissa as real / 1024.0, bias);
    PackedMeaning(sign, exponent + 112, mantissa);
    return Pack(sign, exponent + 112, mantissa);
  }
}

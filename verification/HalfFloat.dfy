/** Binary16 conversions: texture_read_float_component and
    texture_write_half_component in src/objects/texture.c, and the readback
    decoder of src/context/sync.c. Values are exact: a float32 magnitude counts
    in units of 2^-149, a binary16 magnitude in units of 2^-24. */
module HalfFloat {
  import opened Arithmetic

  lemma SmallPowers()
    ensures Pow2(8) == 256 && Pow2(10) == 1024 && Pow2(13) == 0x2000 && Pow2(23) == 0x80_0000 && Pow2(24) == 0x100_0000
  {
    assert Pow2(4) == 16;
    Pow2Add(4, 4);
    Pow2Add(8, 2);
    Pow2Add(8, 5);
    Pow2Add(13, 10);
    Pow2Add(23, 1);
  }

  const SIGN32: nat := 0x8000_0000
  const ONE23: nat := 0x80_0000
  const SIGN16: nat := 0x8000
  const MAX_HALF: nat := 0x7bff

  function Exponent32(bits: nat): nat { bits / ONE23 % 256 }
  function Mantissa32(bits: nat): nat { bits % ONE23 }
  function Negative32(bits: nat): bool { bits / SIGN32 % 2 == 1 }

  function Exponent16(half: nat): nat { half / 1024 % 32 }
  function Mantissa16(half: nat): nat { half % 1024 }
  function Negative16(half: nat): bool { half / SIGN16 % 2 == 1 }

  predicate Finite16(half: nat) { half < 0x1_0000 && Exponent16(half) != 31 }

  function Float(negative: bool, exponent: nat, mantissa: nat): nat {
    (if negative then SIGN32 else 0) + exponent * ONE23 + mantissa
  }

  lemma FloatFields(negative: bool, exponent: nat, mantissa: nat)
    requires exponent < 256 && mantissa < ONE23
    ensures var f := Float(negative, exponent, mantissa);
            Exponent32(f) == exponent && Mantissa32(f) == mantissa && Negative32(f) == negative && f < 2 * SIGN32
  {
    var f := Float(negative, exponent, mantissa);
    assert f / ONE23 == (if negative then 256 else 0) + exponent;
  }

  /** The magnitude of a finite float32 in units of 2^-149. */
  function Units32(bits: nat): nat {
    var e, m := Exponent32(bits), Mantissa32(bits);
    if e == 0 then m else (ONE23 + m) * Pow2(e - 1)
  }

  /** The magnitude of a finite binary16 in units of 2^-24. */
  function Units16(half: nat): nat {
    var e, m := Exponent16(half), Mantissa16(half);
    if e == 0 then m else (1024 + m) * Pow2(e - 1)
  }

  /** The same magnitude in units of 2^-149. */
  function Scaled16(half: nat): nat { Units16(half) * Scale() }

  function Scale(): nat { Pow2(125) }

  lemma ScaleSplits(a: nat, b: nat)
    requires a + b == 125
    ensures Pow2(a) * Pow2(b) == Scale()
  {
    Pow2Add(a, b);
  }

  lemma ScaleExtends(a: nat)
    ensures Pow2(a) * Scale() == Pow2(a + 125)
  {
    Pow2Add(a, 125);
  }

  // ----------------------------------------------------------------- decode

  /** How far a subnormal mantissa must be shifted until bit 10 is set. */
  function Shift(mantissa: nat): (k: nat)
    requires 0 < mantissa < 2048
    decreases 2048 - mantissa
  {
    if mantissa >= 1024 then 0 else 1 + Shift(2 * mantissa)
  }

  /** The mantissa after that shift. */
  function Normalized(mantissa: nat): (r: nat)
    requires 0 < mantissa < 2048
    ensures 1024 <= r < 2048
    decreases 2048 - mantissa
  {
    if mantissa >= 1024 then mantissa else Normalized(2 * mantissa)
  }

  lemma {:induction false} NormalizedIsShifted(mantissa: nat)
    requires 0 < mantissa < 2048
    ensures Normalized(mantissa) == mantissa * Pow2(Shift(mantissa))
    ensures Shift(mantissa) <= 10
    decreases 2048 - mantissa
  {
    hide Pow2;
    PowZero(mantissa);
    if mantissa < 1024 {
      NormalizedIsShifted(2 * mantissa);
      PowStep(mantissa, Shift(2 * mantissa) + 1);
    }
    SmallPowers();
    ShiftAtMost(mantissa, 10);
  }

  lemma PowZero(m: nat)
    ensures m * Pow2(0) == m
  {
  }

  lemma PowStep(m: nat, n: nat)
    requires 0 < n
    ensures m * Pow2(n) == 2 * m * Pow2(n - 1)
  {
    assert Pow2(n) == 2 * Pow2(n - 1);
  }

  lemma {:induction false} ShiftAtMost(mantissa: nat, n: nat)
    requires 0 < mantissa < 2048 && mantissa * Pow2(n) >= 1024
    ensures Shift(mantissa) <= n
    decreases n
  {
    hide Pow2;
    PowZero(mantissa);
    if mantissa < 1024 && n > 0 {
      PowStep(mantissa, n);
      ShiftAtMost(2 * mantissa, n - 1);
    }
  }

  /** The float32 bits of a binary16 value. */
  function FloatOfHalf(half: nat): nat {
    var e, m, negative := Exponent16(half), Mantissa16(half), Negative16(half);
    if e == 0 then
      if m == 0 then Float(negative, 0, 0)
      else NormalizedIsShifted(m); Float(negative, 113 - Shift(m), (Normalized(m) - 1024) * 0x2000)
    else if e == 31 then Float(negative, 255, m * 0x2000)
    else Float(negative, e + 112, m * 0x2000)
  }

  /** texture_read_float_component for HALF_FLOAT_OES. */
  method ReadHalfComponent(half: nat) returns (bits: nat)
    requires half < 0x1_0000
    ensures bits == FloatOfHalf(half)
  {
    hide Pow2, Shift, Normalized;
    var sign, exponent, mantissa := half / SIGN16 % 2 * SIGN32, half / 1024 % 32, half % 1024;
    assert sign == if Negative16(half) then SIGN32 else 0;
    if exponent == 0 {
      if mantissa == 0 {
        bits := sign;
      } else {
        var unbiased := -14;
        mantissa, unbiased := Normalize(mantissa);
        assert mantissa % 1024 == mantissa - 1024;
        mantissa := mantissa % 1024;
        bits := sign + (unbiased + 127) * ONE23 + mantissa * 0x2000;
      }
    } else if exponent == 31 {
      bits := sign + 255 * ONE23 + mantissa * 0x2000;
    } else {
      bits := sign + (exponent + 112) * ONE23 + mantissa * 0x2000;
    }
  }

  /** The normalisation loop both decoders contain; it terminates because the
      mantissa doubles. */
  method Normalize(start: nat) returns (mantissa: nat, unbiased: int)
    requires 0 < start < 1024
    ensures mantissa == Normalized(start) && unbiased == -14 - Shift(start)
    ensures 1024 <= mantissa < 2048 && Shift(start) <= 10
  {
    mantissa, unbiased := start, -14;
    while mantissa / 1024 % 2 == 0
      invariant 0 < mantissa < 2048 && Normalized(mantissa) == Normalized(start)
      invariant unbiased - Shift(mantissa) == -14 - Shift(start)
      decreases 2048 - mantissa
    {
      mantissa := 2 * mantissa;
      unbiased := unbiased - 1;
    }
    NormalizedIsShifted(start);
  }

  /** One component of unpack_rgba16f_to_rgba, after its check for infinities and NaNs. */
  method UnpackHalfComponent(half: nat) returns (bits: nat)
    requires Finite16(half)
    ensures bits == FloatOfHalf(half)
  {
    hide Pow2, Shift, Normalized;
    var sign, exponent, mantissa := half / SIGN16 % 2 * SIGN32, half / 1024 % 32, half % 1024;
    assert sign == if Negative16(half) then SIGN32 else 0;
    if exponent == 0 {
      if mantissa == 0 {
        bits := sign;
      } else {
        var unbiased := -14;
        mantissa, unbiased := Normalize(mantissa);
        assert mantissa % 1024 == mantissa - 1024;
        bits := sign + (unbiased + 127) * ONE23 + mantissa % 1024 * 0x2000;
      }
    } else {
      bits := sign + (exponent + 112) * ONE23 + mantissa * 0x2000;
    }
  }

  lemma ProductOfPowers(m: nat, a: nat, b: nat)
    ensures m * Pow2(a) * 0x2000 * Pow2(b) == m * Pow2(a + 13 + b)
  {
    hide Pow2;
    SmallPowers();
    Pow2Add(a, 13);
    Pow2Add(a + 13, b);
    MulAssociates(m, Pow2(a), 0x2000);
    MulAssociates(m, Pow2(a + 13), Pow2(b));
  }

  lemma DecodeNormal(half: nat)
    requires Finite16(half) && Exponent16(half) != 0
    ensures Units32(FloatOfHalf(half)) == Scaled16(half)
  {
    hide Pow2, Scale;
    var e, m := Exponent16(half), Mantissa16(half);
    FloatFields(Negative16(half), e + 112, m * 0x2000);
    PowZero(1024 + m);
    ProductOfPowers(1024 + m, 0, e + 111);
    ScaleExtends(e - 1);
    MulAssociates(1024 + m, Pow2(e - 1), Scale());
  }

  lemma DecodeSubnormal(half: nat)
    requires Finite16(half) && Exponent16(half) == 0 && Mantissa16(half) != 0
    ensures Units32(FloatOfHalf(half)) == Scaled16(half)
  {
    hide Pow2;
    var m := Mantissa16(half);
    var k := Shift(m);
    NormalizedIsShifted(m);
    FloatFields(Negative16(half), 113 - k, (Normalized(m) - 1024) * 0x2000);
    ProductOfPowers(m, k, 112 - k);
  }

  /** Decoding is exact: the float32 is finite and has the binary16's sign and
      magnitude. */
  lemma DecodeIsExact(half: nat)
    requires Finite16(half)
    ensures Units32(FloatOfHalf(half)) == Scaled16(half)
    ensures Negative32(FloatOfHalf(half)) == Negative16(half) && Exponent32(FloatOfHalf(half)) != 255
  {
    hide Pow2, Units32, Scaled16, Shift, Normalized, Float, Exponent32, Mantissa32, Negative32;
    var e, m, negative := Exponent16(half), Mantissa16(half), Negative16(half);
    if e != 0 {
      DecodeNormal(half);
      FloatFields(negative, e + 112, m * 0x2000);
    } else if m != 0 {
      DecodeSubnormal(half);
      NormalizedIsShifted(m);
      FloatFields(negative, 113 - Shift(m), (Normalized(m) - 1024) * 0x2000);
    } else {
      DecodeZero(half);
      FloatFields(negative, 0, 0);
    }
  }

  lemma DecodeZero(half: nat)
    requires Exponent16(half) == 0 && Mantissa16(half) == 0
    ensures Units32(FloatOfHalf(half)) == Scaled16(half)
  {
    hide Pow2;
    FloatFields(Negative16(half), 0, 0);
  }

  // ----------------------------------------------------------------- encode

  /** The subnormal branch of the encoder: x shifted right until `roundBit` is the
      last bit dropped, rounding halves to even. */
  function RoundEven(x: nat, roundBit: nat): nat
    requires 0 < roundBit
  {
    var shifted := x / (2 * roundBit);
    if x / roundBit % 2 == 1 && (x % roundBit != 0 || shifted % 2 == 1) then shifted + 1 else shifted
  }

  /** The exponent a value would have as a normal binary16 number. */
  function HalfExponent(exponent: nat): int { exponent - 127 + 15 }

  function EncodeMagnitude(exponent: nat, mantissa: nat): (r: nat)
    requires exponent < 256 && mantissa < ONE23
  {
    var e := HalfExponent(exponent);
    if exponent == 255 then MAX_HALF
    else if e >= 31 then MAX_HALF
    else if e <= 0 then
      if e < -10 then 0 else RoundEven(mantissa + ONE23, Pow2(13 - e))
    else if mantissa + 0x1000 >= ONE23 then
      if e + 1 >= 31 then MAX_HALF else (e + 1) * 1024
    else e * 1024 + (mantissa + 0x1000) / 0x2000
  }

  /** texture_write_half_component. */
  function WriteHalf(bits: nat): (half: nat)
    requires bits < 2 * SIGN32
  {
    (if Negative32(bits) then SIGN16 else 0) + EncodeMagnitude(Exponent32(bits), Mantissa32(bits))
  }

  lemma DivideTwice(x: nat, p: nat)
    requires 0 < p
    ensures x / (2 * p) == x / p / 2
    ensures x == x / p * p + x % p && x % p < p
  {
    var q := x / p;
    var t := x % p;
    assert x == q * p + t;
    HalveProduct(q, q / 2, p);
    QuotientIs(x, 2 * p, q / 2, (if q % 2 == 1 then p else 0) + t);
  }

  /** Rounding lands within half a unit. */
  lemma RoundEvenNearest(x: nat, p: nat)
    requires 0 < p
    ensures RoundEven(x, p) * (2 * p) <= x + p && x <= RoundEven(x, p) * (2 * p) + p
  {
    DivideTwice(x, p);
    var q := x / p;
    var h := q / 2;
    HalveProduct(q, h, p);
  }

  lemma HalveProduct(q: nat, h: nat, p: nat)
    requires h == q / 2
    ensures q * p == h * (2 * p) + (if q % 2 == 1 then p else 0)
    ensures (h + 1) * (2 * p) == h * (2 * p) + 2 * p
  {
    assert q == 2 * h + q % 2;
  }

  lemma RoundEvenMonotone(x: nat, y: nat, p: nat)
    requires 0 < p && x <= y
    ensures RoundEven(x, p) <= RoundEven(y, p)
  {
    DivideTwice(x, p);
    DivideTwice(y, p);
    DivideMonotone(x, y, p);
  }

  // ------------------------------------------------------------ monotonicity

  /** Scaling a value and the round bit together changes nothing. */
  lemma RoundEvenScales(x: nat, p: nat)
    requires 0 < p
    ensures RoundEven(2 * x, 2 * p) == RoundEven(x, p)
  {
    DivideTwice(x, p);
    DivideTwice(2 * x, 2 * p);
    var q, t := x / p, x % p;
    assert 2 * x == q * (2 * p) + 2 * t;
    QuotientIs(2 * x, 2 * p, q, 2 * t);
  }

  /** From one binade to the next. */
  lemma BinadesMeet(exponent: nat)
    requires exponent < 255
    ensures EncodeMagnitude(exponent, ONE23 - 1) <= EncodeMagnitude(exponent + 1, 0)
  {
    var e := HalfExponent(exponent);
    if e == 0 {
      SmallPowers();
      assert RoundEven(2 * ONE23 - 1, 0x2000) == 1024;
    } else if -10 <= e < 0 {
      var p := Pow2(12 - e);
      assert Pow2(13 - e) == 2 * p;
      RoundEvenMonotone(2 * ONE23 - 1, 2 * ONE23, 2 * p);
      RoundEvenScales(ONE23, p);
    }
  }

  /** Within one binade. */
  lemma BinadeMonotone(exponent: nat, m: nat, m': nat)
    requires exponent < 256 && m <= m' < ONE23
    ensures EncodeMagnitude(exponent, m) <= EncodeMagnitude(exponent, m')
  {
    var e := HalfExponent(exponent);
    if -10 <= e <= 0 {
      RoundEvenMonotone(m + ONE23, m' + ONE23, Pow2(13 - e));
    }
  }

  lemma {:induction false} FieldsMonotone(e: nat, m: nat, e': nat, m': nat)
    requires e < 256 && e' < 256 && m < ONE23 && m' < ONE23
    requires e < e' || (e == e' && m <= m')
    ensures EncodeMagnitude(e, m) <= EncodeMagnitude(e', m')
    decreases e' - e
  {
    if e == e' {
      BinadeMonotone(e, m, m');
    } else {
      BinadeMonotone(e, m, ONE23 - 1);
      BinadesMeet(e);
      FieldsMonotone(e + 1, 0, e', m');
    }
  }

  /** The encoder is monotone in magnitude over every float32 bit pattern,
      infinities and NaNs included, and never exceeds the largest finite half. */
  lemma EncodingIsMonotone(a: nat, b: nat)
    requires a < 2 * SIGN32 && b < 2 * SIGN32 && a % SIGN32 <= b % SIGN32
    ensures WriteHalf(a) % SIGN16 <= WriteHalf(b) % SIGN16 <= MAX_HALF
  {
    hide EncodeMagnitude;
    MagnitudeFields(a);
    MagnitudeFields(b);
    DivideMonotone(a % SIGN32, b % SIGN32, ONE23);
    FieldsMonotone(Exponent32(a), Mantissa32(a), Exponent32(b), Mantissa32(b));
    AtMostMax(Exponent32(a), Mantissa32(a));
    AtMostMax(Exponent32(b), Mantissa32(b));
  }

  lemma AtMostMax(e: nat, m: nat)
    requires e < 256 && m < ONE23
    ensures EncodeMagnitude(e, m) <= MAX_HALF
  {
    FieldsMonotone(e, m, 255, ONE23 - 1);
  }

  lemma MagnitudeFields(a: nat)
    requires a < 2 * SIGN32
    ensures Exponent32(a) == a % SIGN32 / ONE23 && Mantissa32(a) == a % SIGN32 % ONE23
  {
    var x := a % SIGN32;
    var q, r := x / ONE23, x % ONE23;
    QuotientIs(a, ONE23, a / SIGN32 * 256 + q, r);
  }

  // ----------------------------------------------------------------- nearest

  /** Below the overflow threshold the result is finite and this close. */
  predicate Overflows(exponent: nat, mantissa: nat) {
    HalfExponent(exponent) >= 31 || (HalfExponent(exponent) == 30 && mantissa + 0x1000 >= ONE23)
  }

  /** Half a unit in the last place of the binade a value lies in, in units of 2^-149. */
  function HalfUlp(exponent: nat): nat {
    Pow2(if HalfExponent(exponent) <= 1 then 124 else 123 + HalfExponent(exponent))
  }

  predicate Within(a: nat, b: nat, distance: nat) { a <= b + distance && b <= a + distance }

  lemma ScaleWithin(a: nat, b: nat, d: nat, scale: nat)
    requires Within(a, b, d)
    ensures Within(a * scale, b * scale, d * scale)
  {
    MulMonotone(a, b + d, scale);
    MulMonotone(b, a + d, scale);
    assert (b + d) * scale == b * scale + d * scale;
    assert (a + d) * scale == a * scale + d * scale;
  }

  lemma NearestNormal(e: nat, m: nat)
    requires 1 <= e <= 30 && m < ONE23 && !Overflows(e + 112, m)
    ensures Within(Scaled16(EncodeMagnitude(e + 112, m)), (ONE23 + m) * Pow2(e + 111), HalfUlp(e + 112))
  {
    hide Pow2, Scale;
    var r := (m + 0x1000) / 0x2000;
    var h := EncodeMagnitude(e + 112, m);
    assert h == e * 1024 + r;
    assert Units16(h) == (1024 + r) * Pow2(e - 1) by {
      if r == 1024 {
        PowStep(1024, e);
        assert Exponent16(h) == e + 1 && Mantissa16(h) == 0;
      } else {
        assert Exponent16(h) == e && Mantissa16(h) == r;
      }
    }
    SmallPowers();
    ScaleExtends(e - 1);
    MulAssociates(1024 + r, Pow2(e - 1), Scale());
    Pow2Add(13, e + 111);
    MulAssociates(1024 + r, 0x2000, Pow2(e + 111));
    PowStep(1, 13);
    Pow2Add(12, e + 111);
    assert Within((1024 + r) * 0x2000, ONE23 + m, 0x1000);
    ScaleWithin((1024 + r) * 0x2000, ONE23 + m, 0x1000, Pow2(e + 111));
  }

  lemma RoundEvenAtMost(x: nat, s: nat)
    requires x < 2 * ONE23 && 14 <= s
    ensures RoundEven(x, Pow2(s - 1)) <= 1024
  {
    SmallPowers();
    PowStep(1, 14);
    RoundEvenMonotone(x, 2 * ONE23, Pow2(s - 1));
    TopRounds(s);
  }

  lemma {:induction false} TopRounds(s: nat)
    requires 14 <= s
    ensures RoundEven(2 * ONE23, Pow2(s - 1)) <= 1024
  {
    SmallPowers();
    if s == 14 {
      assert RoundEven(2 * ONE23, 0x2000) == 1024;
    } else {
      TopRounds(s - 1);
      RoundEvenHalves(2 * ONE23, Pow2(s - 2));
      assert Pow2(s - 1) == 2 * Pow2(s - 2);
    }
  }

  /** A larger round bit never rounds to more. */
  lemma RoundEvenHalves(x: nat, p: nat)
    requires 0 < p
    ensures RoundEven(x, 2 * p) <= RoundEven(x, p)
  {
    RoundEvenMonotone(x, 2 * x, 2 * p);
    RoundEvenScales(x, p);
  }

  lemma NearestSubnormal(e: int, m: nat)
    requires -10 <= e <= 0 && m < ONE23
    ensures Within(Scaled16(EncodeMagnitude(e + 112, m)), (ONE23 + m) * Pow2(e + 111), HalfUlp(e + 112))
  {
    hide Pow2, Scale;
    var p := Pow2(13 - e);
    var r := RoundEven(m + ONE23, p);
    RoundEvenAtMost(m + ONE23, 14 - e);
    assert Units16(r) == r by {
      PowZero(1024);
    }
    RoundEvenNearest(m + ONE23, p);
    assert Within(r * (2 * p), ONE23 + m, p);
    ScaleWithin(r * (2 * p), ONE23 + m, p, Pow2(e + 111));
    PowStep(1, 14 - e);
    ScaleSplits(14 - e, e + 111);
    MulAssociates(r, 2 * p, Pow2(e + 111));
    Pow2Add(13 - e, e + 111);
  }

  lemma NearestZero(exponent: nat, m: nat)
    requires exponent <= 101 && m < ONE23
    ensures (if exponent == 0 then m else (ONE23 + m) * Pow2(exponent - 1)) <= HalfUlp(exponent)
    ensures Scaled16(0) == 0
  {
    hide Pow2;
    SmallPowers();
    Pow2Add(23, 101);
    PowAtMost(100, 0, 0);
    if exponent == 0 {
      MulMonotone(1, Pow2(101), ONE23);
    } else {
      PowAtMost(100, exponent - 1, 100 - (exponent - 1));
      Pow2Add(24, 100);
      MulMonotone(ONE23 + m, 2 * ONE23, Pow2(exponent - 1));
      MulMonotone(Pow2(exponent - 1), Pow2(100), 2 * ONE23);
    }
  }

  lemma PowAtMost(n: nat, a: nat, b: nat)
    ensures a + b == n ==> Pow2(a) <= Pow2(n)
  {
    if a + b == n {
      Pow2Add(a, b);
      MulMonotone(1, Pow2(b), Pow2(a));
    }
  }

  lemma FieldsOfHalf(bits: nat, magnitude: nat)
    requires magnitude <= MAX_HALF
    ensures var half := (if Negative32(bits) then SIGN16 else 0) + magnitude;
            half % SIGN16 == magnitude && Negative16(half) == Negative32(bits) && Finite16(half)
  {
  }

  /** Below the overflow threshold the encoder lands within half a unit in the
      last place; from it on it saturates at the largest finite half, which the
      value is at least as large as. */
  lemma EncodingIsNearest(bits: nat)
    requires bits < 2 * SIGN32 && Exponent32(bits) != 255
    ensures var half, e, m := WriteHalf(bits), Exponent32(bits), Mantissa32(bits);
            if Overflows(e, m) then half % SIGN16 == MAX_HALF && Scaled16(MAX_HALF) <= Units32(bits)
            else Finite16(half) && Within(Scaled16(half % SIGN16), Units32(bits), HalfUlp(e))
    ensures Negative16(WriteHalf(bits)) == Negative32(bits)
  {
    hide Pow2, Scale, Units16, Scaled16, RoundEven;
    var exponent, m := Exponent32(bits), Mantissa32(bits);
    var e := HalfExponent(exponent);
    FieldsMonotone(exponent, m, 255, ONE23 - 1);
    FieldsOfHalf(bits, EncodeMagnitude(exponent, m));
    if e >= 31 || Overflows(exponent, m) {
      SaturationIsBelow(exponent, m);
    } else if e >= 1 {
      NearestNormal(e, m);
    } else if e >= -10 {
      NearestSubnormal(e, m);
    } else {
      NearestZero(exponent, m);
    }
  }

  lemma LargestHalf()
    ensures Scaled16(MAX_HALF) == 2047 * 0x2000 * Pow2(141)
  {
    hide Pow2, Scale;
    SmallPowers();
    assert Units16(MAX_HALF) == 2047 * Pow2(29);
    ScaleExtends(29);
    MulAssociates(2047, Pow2(29), Scale());
    Pow2Add(13, 141);
    MulAssociates(2047, 0x2000, Pow2(141));
  }

  lemma SaturationIsBelow(exponent: nat, m: nat)
    requires exponent < 255 && m < ONE23 && Overflows(exponent, m)
    ensures Scaled16(MAX_HALF) <= (ONE23 + m) * Pow2(exponent - 1)
  {
    hide Pow2, Scale, Units16;
    LargestHalf();
    if HalfExponent(exponent) == 30 {
      MulMonotone(2047 * 0x2000, ONE23 + m, Pow2(141));
    } else {
      PowAtMost(exponent - 1, 142, exponent - 143);
      PowStep(1, 142);
      MulMonotone(ONE23, ONE23 + m, Pow2(exponent - 1));
      MulMonotone(Pow2(142), Pow2(exponent - 1), ONE23);
    }
  }

  // ---------------------------------------------------------------- inverse

  /** Encoding inverts decoding on every finite half. */
  lemma EncodingInvertsDecoding(half: nat)
    requires Finite16(half)
    ensures FloatOfHalf(half) < 2 * SIGN32 && WriteHalf(FloatOfHalf(half)) == half
  {
    hide Pow2, Shift, Normalized, RoundEven;
    var e, m, negative := Exponent16(half), Mantissa16(half), Negative16(half);
    FieldsMakeHalf(half);
    if e != 0 {
      FloatFields(negative, e + 112, m * 0x2000);
      NormalExact(e, m);
    } else if m == 0 {
      FloatFields(negative, 0, 0);
    } else {
      NormalizedIsShifted(m);
      var k := Shift(m);
      FloatFields(negative, 113 - k, (Normalized(m) - 1024) * 0x2000);
      ShiftOfSmall(m);
      ExactRounds(m, k);
    }
  }

  lemma FieldsMakeHalf(half: nat)
    requires half < 0x1_0000
    ensures half == (if Negative16(half) then SIGN16 else 0) + Exponent16(half) * 1024 + Mantissa16(half)
  {
    var q := half / 1024;
    assert half == q * 1024 + half % 1024;
    assert q / 32 == half / SIGN16;
  }

  lemma NormalExact(e: nat, m: nat)
    requires 1 <= e <= 30 && m < 1024
    ensures EncodeMagnitude(e + 112, m * 0x2000) == e * 1024 + m
  {
    QuotientIs(m * 0x2000 + 0x1000, 0x2000, m, 0x1000);
  }

  lemma ShiftOfSmall(m: nat)
    requires 0 < m < 1024
    ensures 1 <= Shift(m)
  {
  }

  lemma ExactRounds(m: nat, k: nat)
    requires 0 < m < 1024 && k == Shift(m) && 1 <= k <= 10
    ensures RoundEven(Normalized(m) * 0x2000, Pow2(12 + k)) == m
  {
    hide Pow2;
    NormalizedIsShifted(m);
    SmallPowers();
    PowStep(1, 13 + k);
    Pow2Add(k, 13);
    MulAssociates(m, Pow2(k), 0x2000);
    var p := Pow2(12 + k);
    assert Normalized(m) * 0x2000 == m * (2 * p);
    QuotientIs(m * (2 * p), 2 * p, m, 0);
    MulAssociates(m, 2, p);
    QuotientIs(m * (2 * p), p, 2 * m, 0);
  }
}

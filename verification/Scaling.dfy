/** Rounding and the linear fixed-point codes of the protocol. */
module Scaling {
  import opened Bytes
  import opened RealFacts

  /** Round to nearest, halves away from zero (std::lround). */
  function Lround(x: real): (n: int)
    ensures -0.5 <= n as real - x <= 0.5
  {
    if x >= 0.0 then (x + 0.5).Floor else -((-x + 0.5).Floor)
  }

  /** Round to nearest, halves to even. */
  function RoundHalfEven(x: real): (n: int)
    ensures -0.5 <= n as real - x <= 0.5
    ensures n as real - x == 0.5 || n as real - x == -0.5 ==> n % 2 == 0
  {
    var low := x.Floor;
    var part := x - low as real;
    if part < 0.5 || (part == 0.5 && low % 2 == 0) then low else low + 1
  }

  /** The multiple of y that std::remainder removes from x (IEEE 754-2008, section 5.3.1). */
  function Turns(x: real, y: real): int
    requires y > 0.0
  {
    RoundHalfEven(Over(x, y))
  }

  function Remainder(x: real, y: real): real
    requires y > 0.0
  {
    x - Times(Turns(x, y) as real, y)
  }

  lemma RemainderBound(x: real, y: real)
    requires y > 0.0
    ensures -y / 2.0 <= Remainder(x, y) <= y / 2.0
  {
    var n, q := Turns(x, y), Over(x, y);
    Cancel(x, y);
    assert -0.5 <= n as real - q <= 0.5;
    hide Times, Over, Turns;
    Distribute(n as real, q, y);
    Units(y);
    Ordered(n as real - q, 0.5, y);
    Ordered(-0.5, n as real - q, y);
  }

  /** The remainder is the only value in the open half span congruent to x. */
  lemma RemainderUnique(x: real, y: real, k: int)
    requires y > 0.0 && -y / 2.0 < x - Times(k as real, y) < y / 2.0
    ensures k == Turns(x, y)
  {
    RemainderBound(x, y);
    hide Times, Turns;
    var n := Turns(x, y);
    Distribute(n as real, k as real, y);
    assert n as real - k as real == (n - k) as real;
    SmallMultiple(n - k, y);
  }

  /** Half-way between two multiples the even one is removed, so the remainder of -x is minus that of x. */
  lemma {:induction false} TiesGoToEven(x: real, y: real)
    requires y > 0.0
    ensures Remainder(x, y) == y / 2.0 || Remainder(x, y) == -y / 2.0 ==> Turns(x, y) % 2 == 0
    ensures Turns(-x, y) == -Turns(x, y) && Remainder(-x, y) == -Remainder(x, y)
  {
    var n, q := Turns(x, y), Over(x, y);
    Cancel(x, y);
    Cancel(-x, y);
    assert Over(-x, y) == -q by {
      hide Over;
      Commute(q, y);
      Commute(-q, y);
      assert Times(-q, y) == -x;
      Ordered(Over(-x, y), -q, y);
    }
    RoundingIsOdd(q);
    hide Times, Over, RoundHalfEven;
    Commute(n as real, y);
    Distribute(n as real, q, y);
    Units(y);
    Ordered(n as real - q, 0.5, y);
    Ordered(n as real - q, -0.5, y);
  }

  lemma RoundingIsOdd(q: real)
    ensures RoundHalfEven(-q) == -RoundHalfEven(q)
    ensures
      var n := RoundHalfEven(q);
      n as real - q == 0.5 || n as real - q == -0.5 ==> n % 2 == 0
  {
  }

  /** std::lround rounds halves away from zero, on both sides. */
  lemma HalvesRoundAway(n: nat)
    ensures Lround(n as real + 0.5) == n + 1 && Lround(-(n as real) - 0.5) == -(n + 1)
  {
  }

  /** Clamping lands in the range, and no point of the range is nearer to the value. */
  lemma ClampIsNearest(x: real, y: real, min: real, max: real)
    requires min <= y <= max
    ensures min <= Clamp(x, min, max) <= max
    ensures
      var moved := Clamp(x, min, max) - x;
      (if moved < 0.0 then -moved else moved) <= (if y < x then x - y else y - x)
  {
  }

  function Clamp(x: real, min: real, max: real): real
    requires min <= max
  {
    if x < min then min else if max < x then max else x
  }

  function PowerOfTwo(bits: nat): (p: nat)
    ensures p >= 1 && (bits > 0 ==> p >= 2)
  {
    if bits == 0 then 1 else 2 * PowerOfTwo(bits - 1)
  }

  /** The largest code: (1 << bits) - 1. */
  function TopCode(bits: nat): (top: int)
    requires 1 <= bits <= 30
    ensures top >= 1
  {
    PowerOfTwo(bits) - 1
  }

  function Scaled(x: real, min: real, max: real, bits: nat): real
    requires min < max && 1 <= bits <= 30
  {
    (Clamp(x, min, max) - min) * TopCode(bits) as real / (max - min)
  }

  function FloatToUint(x: real, min: real, max: real, bits: nat := 16): u16
    requires min < max && 1 <= bits <= 30
  {
    Lround(Scaled(x, min, max, bits)) % 0x1_0000
  }

  function UintToFloat(code: u16, min: real, max: real, bits: nat := 16): real
    requires min < max && 1 <= bits <= 30
  {
    code as real * (max - min) / TopCode(bits) as real + min
  }

  /** The width of one code step. */
  function Lsb(min: real, max: real, bits: nat := 16): real
    requires min < max && 1 <= bits <= 30
  {
    Over(max - min, TopCode(bits) as real)
  }

  lemma {:induction false} PowerOfTwoMono(a: nat, b: nat)
    requires a < b
    ensures PowerOfTwo(a) < PowerOfTwo(b)
  {
    if a > 0 {
      PowerOfTwoMono(a - 1, b - 1);
    }
  }

  lemma WidthBound(bits: nat)
    requires 1 <= bits <= 30
    ensures bits <= 16 <==> TopCode(bits) <= 0xFFFF
    ensures TopCode(16) == 0xFFFF && PowerOfTwo(1) == 2
  {
    assert PowerOfTwo(4) == 16;
    assert PowerOfTwo(8) == 256;
    assert PowerOfTwo(12) == 4096;
    assert PowerOfTwo(16) == 0x1_0000;
    if bits < 16 {
      PowerOfTwoMono(bits, 16);
    } else if bits > 16 {
      PowerOfTwoMono(16, bits);
    }
  }

  // ------------------------------------------- the same values in code steps

  lemma LsbFacts(min: real, max: real, bits: nat)
    requires min < max && 1 <= bits <= 30
    ensures Lsb(min, max, bits) > 0.0
    ensures Times(TopCode(bits) as real, Lsb(min, max, bits)) == max - min
  {
    var lsb := Lsb(min, max, bits);
    var top := TopCode(bits) as real;
    Cancel(max - min, top);
    PositiveQuotient(max - min, top);
    assert Times(top, lsb) == Times(lsb, top);
  }

  lemma CommuteDivision(a: real, b: real, c: real)
    requires b != 0.0
    ensures a * c / b == Times(a, Over(c, b))
  {
    var x, y := a * c / b, a * (c / b);
    assert (x - y) * b == 0.0 by {
      assert x * b == a * c;
      assert y * b == a * c by {
        assert c / b * b == c;
        assert a * (c / b) * b == a * (c / b * b);
      }
    }
  }

  lemma DecodedValue(code: u16, min: real, max: real, bits: nat)
    requires min < max && 1 <= bits <= 30
    ensures UintToFloat(code, min, max, bits) == min + Times(code as real, Lsb(min, max, bits))
  {
    hide Times, Over, TopCode;
    CommuteDivision(code as real, TopCode(bits) as real, max - min);
  }

  lemma CrossMultiply(a: real, b: real, c: real)
    requires b != 0.0 && c != 0.0
    ensures Times(a * b / c, Over(c, b)) == a
  {
    CommuteDivision(a, c, b);
    assert Over(b, c) * Over(c, b) == 1.0;
    assert a * (b / c) * (c / b) == a * ((b / c) * (c / b));
  }

  lemma ScaledTimes(x: real, min: real, max: real, bits: nat)
    requires min < max && 1 <= bits <= 30
    ensures Times(Scaled(x, min, max, bits), Lsb(min, max, bits)) == Clamp(x, min, max) - min
    ensures 0.0 <= Clamp(x, min, max) - min <= max - min
  {
    CrossMultiply(Clamp(x, min, max) - min, TopCode(bits) as real, max - min);
    hide Times, Over, TopCode;
  }

  lemma ScaledValue(x: real, min: real, max: real, bits: nat)
    requires min < max && 1 <= bits <= 30
    ensures Times(Scaled(x, min, max, bits), Lsb(min, max, bits)) == Clamp(x, min, max) - min
    ensures 0.0 <= Scaled(x, min, max, bits) <= TopCode(bits) as real
  {
    hide *;
    var top, lsb, u := TopCode(bits) as real, Lsb(min, max, bits), Scaled(x, min, max, bits);
    ScaledTimes(x, min, max, bits);
    LsbFacts(min, max, bits);
    Units(lsb);
    Ordered(u, 0.0, lsb);
    Ordered(top, u, lsb);
  }

  /** Up to 16 bits the code is the rounded scaled value: nothing is truncated. */
  lemma CodeValue(x: real, min: real, max: real, bits: nat)
    requires min < max && 1 <= bits <= 16
    ensures FloatToUint(x, min, max, bits) == (Scaled(x, min, max, bits) + 0.5).Floor <= TopCode(bits)
  {
    ScaledValue(x, min, max, bits);
    WidthBound(bits);
    hide Scaled, TopCode, Times, Lsb, Clamp;
  }

  // ------------------------------------------------------- the quantiser laws

  /** Decoding an encoded value is within half a step of the clamped input, and above it at a tie. */
  lemma {:induction false} DecodeEncode(x: real, min: real, max: real, bits: nat)
    requires min < max && 1 <= bits <= 16
    ensures
      var error := UintToFloat(FloatToUint(x, min, max, bits), min, max, bits) - Clamp(x, min, max);
      -Lsb(min, max, bits) / 2.0 < error <= Lsb(min, max, bits) / 2.0
  {
    var lsb, u, code := Lsb(min, max, bits), Scaled(x, min, max, bits), FloatToUint(x, min, max, bits);
    ScaledValue(x, min, max, bits);
    CodeValue(x, min, max, bits);
    DecodedValue(code, min, max, bits);
    LsbFacts(min, max, bits);
    hide *;
    Distribute(code as real, u, lsb);
    Units(lsb);
    Ordered(-0.5, code as real - u, lsb);
    Ordered(0.5, code as real - u, lsb);
  }

  /** Encoding a decoded code gives the code back, for every code of the width. */
  lemma EncodeDecode(code: u16, min: real, max: real, bits: nat)
    requires min < max && 1 <= bits <= 16 && code <= TopCode(bits)
    ensures min <= UintToFloat(code, min, max, bits) <= max
    ensures FloatToUint(UintToFloat(code, min, max, bits), min, max, bits) == code
  {
    var x, lsb, c := UintToFloat(code, min, max, bits), Lsb(min, max, bits), code as real;
    DecodedValue(code, min, max, bits);
    LsbFacts(min, max, bits);
    ScaledValue(x, min, max, bits);
    CodeValue(x, min, max, bits);
    hide Times, Lsb, Scaled, UintToFloat, FloatToUint, TopCode;
    Units(lsb);
    Ordered(c, 0.0, lsb);
    Ordered(TopCode(bits) as real, c, lsb);
    Ordered(Scaled(x, min, max, bits), c, lsb);
  }

  /** The ends of the range, and everything beyond them, have the end codes 0 and 2^bits - 1. */
  lemma {:induction false} EndsHaveEndCodes(x: real, min: real, max: real, bits: nat)
    requires min < max && 1 <= bits <= 16
    ensures x <= min ==> FloatToUint(x, min, max, bits) == 0
    ensures max <= x ==> FloatToUint(x, min, max, bits) + 1 == PowerOfTwo(bits)
    ensures UintToFloat(0, min, max, bits) == min
    ensures PowerOfTwo(bits) <= 0x1_0000 && UintToFloat(PowerOfTwo(bits) - 1, min, max, bits) == max
    ensures PowerOfTwo(1) == 2 && PowerOfTwo(8) == 256 && PowerOfTwo(12) == 4096 && PowerOfTwo(16) == 65536
  {
    WidthBound(bits);
    assert PowerOfTwo(8) == 256 by { assert PowerOfTwo(4) == 16; }
    assert PowerOfTwo(12) == 4096;
    CodeValue(x, min, max, bits);
    ScaledValue(x, min, max, bits);
    LsbFacts(min, max, bits);
    DecodedValue(0, min, max, bits);
    DecodedValue(TopCode(bits), min, max, bits);
    var u, lsb := Scaled(x, min, max, bits), Lsb(min, max, bits);
    hide Times, Lsb, Scaled, FloatToUint, UintToFloat;
    Units(lsb);
    Ordered(u, 0.0, lsb);
    Ordered(u, TopCode(bits) as real, lsb);
  }

  /** Quantising twice is quantising once. */
  lemma {:induction false} QuantiserIsIdempotent(x: real, min: real, max: real, bits: nat)
    requires min < max && 1 <= bits <= 16
    ensures
      var once := UintToFloat(FloatToUint(x, min, max, bits), min, max, bits);
      UintToFloat(FloatToUint(once, min, max, bits), min, max, bits) == once
  {
    CodeValue(x, min, max, bits);
    EncodeDecode(FloatToUint(x, min, max, bits), min, max, bits);
    hide *;
  }

  lemma EncodeIsMonotone(x: real, y: real, min: real, max: real, bits: nat)
    requires min < max && 1 <= bits <= 16 && x <= y
    ensures FloatToUint(x, min, max, bits) <= FloatToUint(y, min, max, bits)
  {
    CodeValue(x, min, max, bits);
    CodeValue(y, min, max, bits);
    ScaledValue(x, min, max, bits);
    ScaledValue(y, min, max, bits);
    LsbFacts(min, max, bits);
    hide Times, Lsb, Scaled, FloatToUint, TopCode;
    Ordered(Scaled(y, min, max, bits), Scaled(x, min, max, bits), Lsb(min, max, bits));
  }

  /** A value half-way between two codes. */
  predicate Tie(x: real, min: real, max: real, bits: nat)
    requires min < max && 1 <= bits <= 30
  {
    var u := Scaled(x, min, max, bits);
    u - u.Floor as real == 0.5
  }

  /** On a symmetric range the codes of x and -x add up to the top code, or to one more exactly at a tie. */
  lemma {:induction false} SymmetricCodes(x: real, limit: real, bits: nat)
    requires limit > 0.0 && 1 <= bits <= 16
    ensures FloatToUint(x, -limit, limit, bits) as int + FloatToUint(-x, -limit, limit, bits) as int
            == TopCode(bits) + (if Tie(x, -limit, limit, bits) then 1 else 0)
  {
    var a, b := Scaled(x, -limit, limit, bits), Scaled(-x, -limit, limit, bits);
    var lsb, top := Lsb(-limit, limit, bits), TopCode(bits);
    CodeValue(x, -limit, limit, bits);
    CodeValue(-x, -limit, limit, bits);
    ScaledValue(x, -limit, limit, bits);
    ScaledValue(-x, -limit, limit, bits);
    LsbFacts(-limit, limit, bits);
    hide Times, Lsb, Scaled, FloatToUint, TopCode;
    Distribute(a, b, lsb);
    Ordered(a + b, top as real, lsb);
    MirroredRounding(a, top);
    assert b + 0.5 == top as real - a + 0.5;
  }

  lemma MirroredRounding(a: real, top: int)
    ensures (a + 0.5).Floor + (top as real - a + 0.5).Floor == top + if a - a.Floor as real == 0.5 then 1 else 0
  {
    var low := a.Floor;
    var part := a - low as real;
    assert (top as real - a + 0.5).Floor == top - low + if part <= 0.5 then 0 else -1;
    assert (a + 0.5).Floor == low + if part < 0.5 then 0 else 1;
  }

  /** No 16-bit code on a symmetric range decodes to zero; the code of zero decodes half a step above it. */
  lemma {:induction false} ZeroIsNotRepresentable(limit: real, code: u16)
    requires limit > 0.0
    ensures UintToFloat(code, -limit, limit) != 0.0
    ensures FloatToUint(0.0, -limit, limit) == 32768
    ensures UintToFloat(32768, -limit, limit) == Lsb(-limit, limit) / 2.0
  {
    var lsb := Lsb(-limit, limit, 16);
    WidthBound(16);
    LsbFacts(-limit, limit, 16);
    DecodedValue(code, -limit, limit, 16);
    DecodedValue(32768, -limit, limit, 16);
    ScaledValue(0.0, -limit, limit, 16);
    CodeValue(0.0, -limit, limit, 16);
    hide Times, Lsb, Scaled, FloatToUint, UintToFloat, TopCode;
    Distribute(32767.5, 32767.5, lsb);
    Distribute(32767.5, 0.5, lsb);
    Units(lsb);
    Ordered(code as real, 32767.5, lsb);
    Ordered(Scaled(0.0, -limit, limit, 16), 32767.5, lsb);
  }

  /** The 16-bit result type holds every code exactly when the width is at most 16. */
  lemma WidthLimit(min: real, max: real, bits: nat)
    requires min < max && 1 <= bits <= 30
    ensures FloatToUint(max, min, max, bits) as int == TopCode(bits) <==> bits <= 16
  {
    WidthBound(bits);
    ScaledValue(max, min, max, bits);
    LsbFacts(min, max, bits);
    var u := Scaled(max, min, max, bits);
    hide Times, Lsb, Scaled, TopCode;
    Ordered(u, TopCode(bits) as real, Lsb(min, max, bits));
    assert Lround(u) == TopCode(bits);
  }
}

/** The real value of a float32 given by its four little-endian bytes (IEEE 754-2008, section 3.4). */
module Float32 {
  import opened Bytes
  import opened RealFacts

  function PowerOfTwoReal(e: int): real
    decreases if e < 0 then -e else e
  {
    if e == 0 then 1.0
    else if e > 0 then 2.0 * PowerOfTwoReal(e - 1)
    else PowerOfTwoReal(e + 1) / 2.0
  }

  function Exponent(w: Word): int {
    w[3] % 0x80 * 2 + w[2] / 0x80
  }

  function Fraction(w: Word): int {
    (w[2] % 0x80) as int * 0x1_0000 + w[1] as int * 0x100 + w[0]
  }

  /** The value without its sign. */
  function Magnitude(w: Word): real {
    if Exponent(w) == 0xFF then 0.0
    else if Exponent(w) == 0 then Fraction(w) as real * PowerOfTwoReal(-149)
    else (Fraction(w) + 0x80_0000) as real * PowerOfTwoReal(Exponent(w) - 150)
  }

  /** Infinities and NaNs have no real value; they are given the value zero here. */
  function FloatValue(w: Word): real {
    if w[3] >= 0x80 then -Magnitude(w) else Magnitude(w)
  }

  lemma ZeroWordIsZero()
    ensures FloatValue(ZERO_WORD) == 0.0
  {
  }

  // -------------------------------------------------- the laws of the format

  /** The word with the top bit of its last byte flipped. */
  function Negated(w: Word): Word {
    w[3 := if w[3] >= 0x80 then w[3] - 0x80 else w[3] + 0x80]
  }

  /** The four bytes as one number, least significant first. */
  function AsNumber(w: Word): nat {
    w[0] as int + 0x100 * w[1] as int + 0x1_0000 * w[2] as int + 0x100_0000 * w[3] as int
  }

  predicate Finite(w: Word) {
    AsNumber(w) % 0x8000_0000 < 0x7F80_0000
  }

  lemma NumberFields(w: Word)
    ensures AsNumber(w) == (if w[3] >= 0x80 then 0x8000_0000 else 0) + 0x80_0000 * Exponent(w) + Fraction(w)
    ensures 0 <= Fraction(w) < 0x80_0000 && 0 <= Exponent(w) <= 0xFF
    ensures Finite(w) <==> Exponent(w) < 0xFF
  {
    assert w[2] as int == w[2] / 0x80 * 0x80 + w[2] % 0x80;
    assert w[3] as int == w[3] / 0x80 * 0x80 + w[3] % 0x80;
  }

  /** Flipping the top bit of the last byte negates the value, of every word. */
  lemma {:induction false} SignBitNegates(w: Word)
    ensures FloatValue(Negated(w)) == -FloatValue(w)
  {
    hide Magnitude;
    SignIsNoPart(w);
  }

  lemma SignIsNoPart(w: Word)
    ensures Magnitude(Negated(w)) == Magnitude(w)
  {
    assert Negated(w)[3] % 0x80 == w[3] % 0x80;
    assert Exponent(Negated(w)) == Exponent(w) && Fraction(Negated(w)) == Fraction(w);
    hide Exponent, Fraction, PowerOfTwoReal;
  }

  lemma PowerDoubles(e: int)
    ensures PowerOfTwoReal(e + 1) == 2.0 * PowerOfTwoReal(e)
  {
  }

  lemma {:induction false} PowerIsPositive(e: int)
    ensures PowerOfTwoReal(e) > 0.0
    decreases if e < 0 then -e else e
  {
    if e > 0 {
      PowerIsPositive(e - 1);
    } else if e < 0 {
      PowerIsPositive(e + 1);
    }
  }

  lemma {:induction false} PowerGrows(a: int, b: int)
    requires a <= b
    ensures PowerOfTwoReal(a) <= PowerOfTwoReal(b)
    decreases b - a
  {
    hide PowerOfTwoReal;
    if a < b {
      PowerDoubles(a);
      PowerIsPositive(a);
      PowerGrows(a + 1, b);
    }
  }

  /** 0x3F800000 is one. */
  lemma OneIsOne()
    ensures FloatValue([0, 0, 0x80, 0x3F]) == 1.0
  {
    var w: Word := [0, 0, 0x80, 0x3F];
    assert Exponent(w) == 127 && Fraction(w) == 0;
    PowerOfMinus23();
  }

  lemma PowerOfMinus23()
    ensures PowerOfTwoReal(-23) * 8388608.0 == 1.0
  {
    hide PowerOfTwoReal;
    assert PowerOfTwoReal(0) == 1.0 by { PowerOfZero(); }
    FourDoublings(-4);
    FourDoublings(-8);
    FourDoublings(-12);
    FourDoublings(-16);
    FourDoublings(-20);
    PowerDoubles(-23);
    PowerDoubles(-22);
    PowerDoubles(-21);
  }

  lemma PowerOfZero()
    ensures PowerOfTwoReal(0) == 1.0
  {
  }

  lemma FourDoublings(e: int)
    ensures PowerOfTwoReal(e + 4) == 16.0 * PowerOfTwoReal(e)
  {
    hide PowerOfTwoReal;
    PowerDoubles(e);
    PowerDoubles(e + 1);
    PowerDoubles(e + 2);
    PowerDoubles(e + 3);
  }

  /** Adding one to the exponent field of a normal word doubles its value, as long as the result is finite. */
  lemma {:induction false} NextExponentDoubles(a: Word, b: Word)
    requires AsNumber(b) == AsNumber(a) + 0x80_0000 && 0x80_0000 <= AsNumber(a) % 0x8000_0000
    requires AsNumber(b) % 0x8000_0000 < 0x7F80_0000 && a[3] / 0x80 == b[3] / 0x80
    ensures FloatValue(b) == 2.0 * FloatValue(a)
  {
    NumberFields(a);
    NumberFields(b);
    hide Exponent, Fraction, PowerOfTwoReal, AsNumber;
    assert Exponent(b) == Exponent(a) + 1 && Fraction(a) == Fraction(b);
    PowerDoubles(Exponent(a) - 150);
  }

  /**
    * Between neighbouring words of one sign and exponent the value grows by the same amount: 2^-23
    * of the value of the word with that exponent and no fraction, or of the smallest normal word if
    * the exponent field is zero.
    */
  lemma {:induction false} NeighboursAreEquallySpaced(a: Word, b: Word, base: Word)
    requires AsNumber(b) == AsNumber(a) + 1 && b[3] < 0x80 && Finite(b)
    requires AsNumber(a) / 0x80_0000 == AsNumber(b) / 0x80_0000
    requires
      var exponent := AsNumber(a) / 0x80_0000;
      AsNumber(base) == 0x80_0000 * if exponent == 0 then 1 else exponent
    ensures 8388608.0 * (FloatValue(b) - FloatValue(a)) == FloatValue(base)
  {
    NumberFields(a);
    NumberFields(b);
    NumberFields(base);
    hide Exponent, Fraction, PowerOfTwoReal, AsNumber;
    assert Fraction(b) == Fraction(a) + 1 && Exponent(a) == Exponent(b) && Fraction(base) == 0;
    assert Exponent(base) == if Exponent(a) == 0 then 1 else Exponent(a);
    var unit := PowerOfTwoReal(Exponent(base) - 150);
    assert FloatValue(base) == 8388608.0 * unit;
    if Exponent(a) == 0 {
      assert (Fraction(a) + 1) as real * unit - Fraction(a) as real * unit == unit;
    } else {
      var k := (Fraction(a) + 0x80_0000) as real;
      assert (k + 1.0) * unit - k * unit == unit;
    }
  }

  /** The significand and the unit it counts. */
  lemma MagnitudeParts(w: Word) returns (significand: int, unit: real)
    requires Finite(w)
    ensures significand == Fraction(w) + (if Exponent(w) == 0 then 0 else 0x80_0000)
    ensures unit == PowerOfTwoReal((if Exponent(w) == 0 then 1 else Exponent(w)) - 150)
    ensures Magnitude(w) == Times(significand as real, unit) && unit > 0.0
  {
    NumberFields(w);
    hide Exponent, Fraction, PowerOfTwoReal, AsNumber;
    significand := Fraction(w) + if Exponent(w) == 0 then 0 else 0x80_0000;
    var e := (if Exponent(w) == 0 then 1 else Exponent(w)) - 150;
    unit := PowerOfTwoReal(e);
    PowerIsPositive(e);
  }

  /** Among the nonnegative finite words a larger number has a larger value. */
  lemma {:induction false} ValuesAreOrdered(a: Word, b: Word)
    requires AsNumber(a) < AsNumber(b) < 0x7F80_0000
    ensures FloatValue(a) < FloatValue(b)
  {
    NumberFields(a);
    NumberFields(b);
    var s, u := MagnitudeParts(a);
    var t, v := MagnitudeParts(b);
    hide Exponent, Fraction, PowerOfTwoReal, AsNumber, Magnitude, Times;
    if Exponent(a) == Exponent(b) {
      Ordered(s as real, t as real, u);
    } else {
      var e, f := Exponent(a), Exponent(b);
      if e == 0 {
        PowerGrows(-149, f - 150);
        Ordered(s as real, t as real, u);
        MonoRight(t as real, u, v);
      } else {
        PowerDoubles(e - 150);
        PowerGrows(e - 149, f - 150);
        Ordered(s as real, 2.0 * t as real, u);
        MonoRight(t as real, 2.0 * u, v);
        TwiceTimes(t as real, u);
      }
    }
  }

  lemma MonoRight(a: real, b: real, c: real)
    requires a >= 0.0 && b <= c
    ensures Times(a, b) <= Times(a, c)
  {
    hide Times;
    Mono(b, c, a);
    Commute(a, b);
    Commute(a, c);
  }

  lemma TwiceTimes(a: real, b: real)
    ensures Times(2.0 * a, b) == Times(a, 2.0 * b)
  {
  }

  /** Values an application may command. */
  lemma SomeValues()
    ensures FloatValue([0, 0, 0, 0x40]) == 2.0 && FloatValue([0, 0, 0, 0xC0]) == -2.0
    ensures FloatValue([0, 0, 0xC0, 0x3F]) == 1.5
  {
    OneIsOne();
    NextExponentDoubles([0, 0, 0x80, 0x3F], [0, 0, 0, 0x40]);
    SignBitNegates([0, 0, 0, 0x40]);
    assert Negated([0, 0, 0, 0x40]) == [0, 0, 0, 0xC0];
    HalfMore();
  }

  lemma HalfMore()
    ensures FloatValue([0, 0, 0xC0, 0x3F]) == 1.5
  {
    var w: Word := [0, 0, 0xC0, 0x3F];
    assert Exponent(w) == 127 && Fraction(w) == 0x40_0000;
    PowerOfMinus23();
    hide PowerOfTwoReal;
    assert FloatValue(w) == 12582912.0 * PowerOfTwoReal(-23);
  }
}

/**
  * Products and quotients of reals behind a name, with the laws the proofs use: with the two
  * definitions hidden, every other proof stays linear.
  */
module RealFacts {
  function Times(a: real, b: real): real { a * b }

  function Over(a: real, b: real): real
    requires b != 0.0
  {
    a / b
  }

  lemma Distribute(a: real, b: real, c: real)
    ensures Times(a + b, c) == Times(a, c) + Times(b, c)
    ensures Times(a - b, c) == Times(a, c) - Times(b, c)
  {
  }

  lemma Ordered(a: real, b: real, c: real)
    requires 0.0 < c
    ensures a < b <==> Times(a, c) < Times(b, c)
    ensures a == b <==> Times(a, c) == Times(b, c)
  {
    if a < b {
      Positive(b - a, c);
    } else if b < a {
      Positive(a - b, c);
    }
    Distribute(b, a, c);
    Distribute(a, b, c);
  }

  lemma Positive(a: real, c: real)
    requires 0.0 < a && 0.0 < c
    ensures Times(a, c) > 0.0
  {
  }

  lemma Commute(a: real, b: real)
    ensures Times(a, b) == Times(b, a)
    ensures Times(-a, b) == -Times(a, b)
  {
  }

  lemma Mono(a: real, b: real, c: real)
    requires a <= b && 0.0 <= c
    ensures Times(a, c) <= Times(b, c)
  {
    if c == 0.0 {
      assert Times(a, c) == 0.0 && Times(b, c) == 0.0;
    } else {
      hide Times;
      Ordered(b, a, c);
    }
  }

  lemma Units(c: real)
    ensures Times(0.0, c) == 0.0 && Times(1.0, c) == c && Times(-1.0, c) == -c
    ensures Times(0.5, c) == c / 2.0 && Times(-0.5, c) == -c / 2.0
  {
  }

  lemma Cancel(a: real, b: real)
    requires b != 0.0
    ensures Times(Over(a, b), b) == a
  {
  }

  lemma PositiveQuotient(a: real, b: real)
    requires a > 0.0 && b > 0.0
    ensures Over(a, b) > 0.0
  {
  }

  /** A multiple of a nonzero magnitude smaller than one step is zero. */
  lemma SmallMultiple(k: int, s: real)
    requires 0.0 < s && -s < Times(k as real, s) < s
    ensures k == 0
  {
    hide Times;
    Units(s);
    Ordered(k as real, 1.0, s);
    Ordered(-1.0, k as real, s);
  }
}

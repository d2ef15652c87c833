/** Rounding to the nearest number with a significand of 24 bits, ties to even: what a cast to `float` does to a
    number, and what a division of two floats does to their quotient. Neither overflows here, nor falls below the
    normal numbers: sizes and quotients of sizes lie between 2^-64 and 2^64. */
module Floats {

  const LEAST: real := 8388608.0
  const LIMIT: real := 16777216.0
  /** 2^24, up to which every whole number is a float. */
  const TWO_24: nat := 16777216

  /** The nearest whole number, the even one of two. */
  function Near(x: real): int {
    var n := x.Floor;
    var rest := x - n as real;
    if rest < 0.5 then n else if rest > 0.5 then n + 1 else if n % 2 == 0 then n else n + 1
  }

  /** From 2^23 on: halved until the significand has 24 bits before the point. */
  function Large(x: real): real
    requires x >= LEAST
    decreases x.Floor
  {
    if x < LIMIT then Near(x) as real else 2.0 * Large(x / 2.0)
  }

  /** Below 2^24: doubled until it has. */
  function Small(x: real): real
    requires 0.0 < x < LIMIT
    decreases (LIMIT / x).Floor
  {
    if x >= LEAST then Near(x) as real
    else
      Doubling(x);
      Small(2.0 * x) / 2.0
  }

  lemma Doubling(x: real)
    requires 0.0 < x < LEAST
    ensures (LIMIT / (2.0 * x)).Floor < (LIMIT / x).Floor
  {
    var q := LIMIT / x;
    assert q * x == LIMIT;
    assert LIMIT / (2.0 * x) == q / 2.0 by { assert (q / 2.0) * (2.0 * x) == LIMIT; }
    assert q > 2.0;
  }

  /** The float next to a number that is not negative. */
  function Single(x: real): real
    requires x >= 0.0
  {
    if x == 0.0 then 0.0 else if x >= LEAST then Large(x) else Small(x)
  }

  // ----- rounding keeps order -----

  lemma NearMonotone(x: real, y: real)
    requires x <= y
    ensures Near(x) <= Near(y)
  {
  }

  lemma NearWhole(n: int)
    ensures Near(n as real) == n
  {
  }

  lemma NearWithin(x: real)
    requires LEAST <= x < LIMIT
    ensures LEAST <= Near(x) as real <= LIMIT
  {
    NearWhole(8388608);
    NearWhole(16777216);
    NearMonotone(LEAST, x);
    NearMonotone(x, LIMIT);
  }

  lemma {:induction false} LargeMonotone(x: real, y: real)
    requires LEAST <= x <= y
    ensures LEAST <= Large(x) <= Large(y) && (x < LIMIT ==> Large(x) <= LIMIT) && (y >= LIMIT ==> Large(y) >= LIMIT)
    decreases y.Floor
  {
    hide Near;
    if y < LIMIT {
      NearMonotone(x, y);
      NearWithin(x);
      NearWithin(y);
    } else if x < LIMIT {
      NearWithin(x);
      LargeMonotone(y / 2.0, y / 2.0);
    } else {
      LargeMonotone(x / 2.0, y / 2.0);
    }
  }

  lemma {:induction false} SmallMonotone(x: real, y: real)
    requires 0.0 < x <= y < LIMIT
    ensures 0.0 < Small(x) <= Small(y) <= LIMIT && (x < LEAST ==> Small(x) <= LEAST)
            && (y >= LEAST ==> Small(y) >= LEAST)
    decreases (LIMIT / x).Floor
  {
    hide Near;
    if x >= LEAST {
      NearMonotone(x, y);
      NearWithin(x);
      NearWithin(y);
    } else if y >= LEAST {
      Doubling(x);
      SmallMonotone(2.0 * x, 2.0 * x);
      NearWithin(y);
    } else {
      Doubling(x);
      SmallMonotone(2.0 * x, 2.0 * y);
    }
  }

  lemma SingleMonotone(x: real, y: real)
    requires 0.0 <= x <= y
    ensures 0.0 <= Single(x) <= Single(y)
  {
    hide Near, Large, Small;
    if 0.0 < x {
      if y < LEAST {
        SmallMonotone(x, y);
      } else if x < LEAST {
        SmallMonotone(x, x);
        LargeMonotone(y, y);
      } else {
        LargeMonotone(x, y);
      }
    } else if 0.0 < y {
      if y < LEAST { SmallMonotone(y, y); } else { LargeMonotone(y, y); }
    }
  }

  // ----- whole numbers -----

  lemma {:induction false} SmallWhole(n: nat)
    requires 0 < n && n as real < LIMIT
    ensures Small(n as real) == n as real
    decreases TWO_24 - n
  {
    hide Near;
    if n as real >= LEAST {
      NearWhole(n);
    } else {
      SmallWhole(2 * n);
      assert (2 * n) as real == 2.0 * n as real;
    }
  }

  /** Up to 2^24 nothing is lost. */
  lemma SingleWhole(n: nat)
    requires n <= TWO_24
    ensures Single(n as real) == n as real
  {
    hide Near;
    if n == TWO_24 {
      NearWhole(8388608);
      assert Large(LIMIT / 2.0) == LEAST;
    } else if n as real >= LEAST {
      NearWhole(n);
    } else if n > 0 {
      SmallWhole(n);
    }
  }

  /** After it, the next whole number is lost. */
  lemma FirstLost()
    ensures Single((TWO_24 + 1) as real) == TWO_24 as real
  {
    var half := (TWO_24 + 1) as real / 2.0;
    assert half.Floor == 8388608;
    assert Near(half) == 8388608;
    assert Large(half) == LEAST;
  }

  lemma SingleTwice(x: real)
    requires x >= 0.0
    ensures Single(2.0 * x) == 2.0 * Single(x)
  {
    if LEAST <= x {
      if x < LIMIT { assert 2.0 * x / 2.0 == x; }
    } else if 0.0 < x {
      if 2.0 * x >= LEAST { assert Small(x) == Small(2.0 * x) / 2.0; }
    }
  }

  lemma SixteenTimes(x: real)
    requires x >= 0.0
    ensures Single(16.0 * x) == 16.0 * Single(x)
  {
    hide Single;
    SingleTwice(x);
    SingleTwice(2.0 * x);
    SingleTwice(4.0 * x);
    SingleTwice(8.0 * x);
  }

  /** Rounding does not look at the exponent. */
  lemma SingleScaled(x: real)
    requires x >= 0.0
    ensures Single(LEAST * x) == LEAST * Single(x)
  {
    hide Single;
    SixteenTimes(x);
    SixteenTimes(16.0 * x);
    SixteenTimes(256.0 * x);
    SixteenTimes(4096.0 * x);
    SixteenTimes(65536.0 * x);
    SingleTwice(1048576.0 * x);
    SingleTwice(2097152.0 * x);
    SingleTwice(4194304.0 * x);
  }

  // ----- the quotient of two floats -----

  lemma {:induction false} LargeWhole(x: real) returns (k: int)
    requires x >= LEAST
    ensures Large(x) == k as real
    decreases x.Floor
  {
    if x < LIMIT {
      k := Near(x);
    } else {
      k := LargeWhole(x / 2.0);
      k := 2 * k;
    }
  }

  /** Two different floats differ by more than a 2^24th of the lower one. */
  lemma {:induction false} LargeGap(x: real, y: real)
    requires LEAST <= y && LEAST <= x && Large(x) > Large(y)
    ensures (Large(x) - Large(y)) * LIMIT > Large(y)
    decreases y.Floor
  {
    hide Near;
    if y >= LIMIT {
      if x <= y { LargeMonotone(x, y); }
      LargeGap(x / 2.0, y / 2.0);
    } else if x < LIMIT {
      NearGap(x, y);
    } else {
      WideGap(x, y);
    }
  }

  lemma NearGap(x: real, y: real)
    requires LEAST <= y < LIMIT && LEAST <= x < LIMIT && Near(x) > Near(y)
    ensures (Near(x) as real - Near(y) as real) * LIMIT > Near(y) as real
  {
    NearWithin(x);
    NearWithin(y);
    assert Near(x) as real - Near(y) as real >= 1.0;
  }

  lemma WideGap(x: real, y: real)
    requires LEAST <= y < LIMIT <= x && Large(x) > Large(y)
    ensures (Large(x) - Large(y)) * LIMIT > Large(y)
  {
    hide Near;
    NearWithin(y);
    LargeMonotone(x, x);
    var k := LargeWhole(x / 2.0);
    assert Large(x) == (2 * k) as real && 2 * k >= 16777216;
    assert Large(x) - Large(y) >= 1.0;
    assert Large(y) == LIMIT ==> Large(x) - Large(y) >= 2.0;
  }

  lemma Gap(s: nat, c: nat)
    requires c > 0 && Single(s as real) > Single(c as real)
    ensures (Single(s as real) - Single(c as real)) * LIMIT > Single(c as real)
  {
    hide Near, Large, Small;
    if c < TWO_24 {
      SingleWhole(c);
      if s <= TWO_24 {
        SingleWhole(s);
      } else {
        SingleWhole(TWO_24);
        SingleMonotone(TWO_24 as real, s as real);
      }
    } else {
      if s < c { SingleMonotone(s as real, c as real); }
      LargeGap(s as real, c as real);
    }
  }

  /** A quotient that exceeds one by more than 2^-24 does so after rounding. */
  lemma AboveOne(q: real)
    requires (q - 1.0) * LIMIT > 1.0
    ensures Single(q) > 1.0
  {
    hide Large, Small;
    if q >= 2.0 {
      SingleWhole(2);
      SingleMonotone(2.0, q);
    } else {
      SingleScaled(q);
      var y := LEAST * q;
      LargeNear(y);
      assert y > LEAST + 0.5;
    }
  }

  lemma LargeNear(y: real)
    requires LEAST <= y < LIMIT
    ensures Large(y) == Near(y) as real
  {
  }

  lemma SinglePositive(n: nat)
    requires n > 0
    ensures Single(n as real) >= 1.0
  {
    SingleWhole(1);
    SingleMonotone(1.0, n as real);
  }

  /** static_cast<float>(size) / static_cast<float>(count), rounded three times. */
  function Load(size: nat, count: nat): (load: real)
    requires count > 0
    ensures load >= 0.0
  {
    SinglePositive(count);
    SingleMonotone(0.0, size as real);
    var quotient := Single(size as real) / Single(count as real);
    SingleMonotone(0.0, quotient);
    Single(quotient)
  }

  lemma DividedAbove(a: real, b: real, q: real)
    requires b > 0.0 && q * b == a && (a - b) * LIMIT > b
    ensures (q - 1.0) * LIMIT > 1.0
  {
    var u := q - 1.0;
    assert u * b == a - b;
    assert u * 16777216.0 * b == u * b * 16777216.0;
    if u * 16777216.0 <= 1.0 { Scaled(u * 16777216.0, 1.0, b); }
  }

  lemma DividedBelow(a: real, b: real, q: real)
    requires b > 0.0 && q * b == a && a <= b
    ensures q <= 1.0
  {
    assert (q - 1.0) * b == a - b;
    if q > 1.0 { Positive(q - 1.0, b); }
  }

  lemma Positive(u: real, b: real)
    requires u > 0.0 && b > 0.0
    ensures u * b > 0.0
  {
  }

  lemma Scaled(u: real, v: real, b: real)
    requires u <= v && b > 0.0
    ensures u * b <= v * b
  {
  }

  /** The load is above one exactly when the rounded size is above the rounded count. */
  lemma LoadAboveOne(size: nat, count: nat)
    requires count > 0
    ensures Load(size, count) > 1.0 <==> Single(size as real) > Single(count as real)
  {
    hide Single;
    SinglePositive(count);
    SingleMonotone(0.0, size as real);
    var a, b := Single(size as real), Single(count as real);
    var q := a / b;
    assert q * b == a;
    if a > b {
      Gap(size, count);
      DividedAbove(a, b, q);
      AboveOne(q);
    } else {
      DividedBelow(a, b, q);
      SingleWhole(1);
      SingleMonotone(q, 1.0);
    }
  }
}

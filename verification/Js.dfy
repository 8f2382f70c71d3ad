/**
 Whole numbers as JavaScript carries them from one JSON text to another (edge/src/worker.ts reads
 a sequence number with `req.json()` and writes it with `JSON.stringify`): a double on the way in,
 rounding half to even as IEEE 754 does, and on the way out the decimal with the fewest digits
 that reads as the same double (`Number::toString` of ECMA-262).
 */
module Js {
  import opened Text

  /** 2^53: every whole number up to here is a double. */
  const EXACT: nat := 0x20_0000_0000_0000

  /** The distance between doubles at `n`, for 53 bits of precision. */
  function Unit(n: nat): (u: nat)
    ensures u >= 1 && n < EXACT * u
    ensures n < EXACT ==> u == 1
    ensures n >= EXACT ==> u >= 2 && n >= EXACT / 2 * u
  {
    if n < EXACT then 1 else 2 * Unit(n / 2)
  }

  /** The double nearest to `n`, the even one of two. */
  function Nearest(n: nat): nat {
    var u := Unit(n);
    var q, r := n / u, n % u;
    if 2 * r < u || (2 * r == u && q % 2 == 0) then q * u else (q + 1) * u
  }

  /** The decimal for the double `x` with at least `z` zeros at its end if there is one, else with as many as can be. */
  function Shortest(x: nat, z: nat): nat {
    if z == 0 then x
    else
      var p := Pow10(z);
      var low := x / p * p;
      var high := low + p;
      var below, above := low > 0 && Nearest(low) == x, Nearest(high) == x;
      if below && (!above || x - low <= high - x) then low
      else if above then high
      else Shortest(x, z - 1)
  }

  /** The number in the text a double below 10^21 is written as. */
  function Printed(x: nat): nat {
    Shortest(x, 21)
  }

  /** A reader of the written text finds the number that was sent. */
  predicate Carried(n: nat) {
    Printed(Nearest(n)) == n
  }

  // ---- What is carried ----

  lemma NearestSmall(n: nat)
    requires n <= EXACT
    ensures Nearest(n) == n
  {
    if n == EXACT {
      assert Unit(EXACT / 2) == 1 && Unit(EXACT) == 2;
    }
  }

  lemma DivisionBounds(n: nat, u: nat, k: nat)
    requires u >= 1 && n >= k * u
    ensures n / u >= k
  {
    Scaled(k, n / u + 1, u);
    assert n < (n / u + 1) * u;
  }

  lemma Scaled(a: nat, c: nat, b: nat)
    ensures a >= c ==> a * b >= c * b
  {
  }

  /** Beyond the two numbers that read as 2^53, everything reads as more. */
  lemma NearestLarge(n: nat)
    requires n > EXACT + 1
    ensures Nearest(n) > EXACT
  {
    var u := Unit(n);
    var q := n / u;
    DivisionBounds(n, u, EXACT / 2);
    assert Nearest(n) >= q * u;
    if u == 2 {
      assert q >= EXACT / 2 + 1;
    } else {
      assert u >= 3;
      assert q * u >= EXACT / 2 * 3 by { Product(q, u, EXACT / 2, 3); }
    }
  }

  lemma Product(a: nat, b: nat, c: nat, d: nat)
    requires a >= c && b >= d
    ensures a * b >= c * d
  {
    assert a * b >= c * b >= c * d;
  }

  /** A multiple of ten next to a small number reads as it only by being it. */
  lemma NothingShorter(x: nat, p: nat)
    requires x <= EXACT && p >= 10 && p % 10 == 0
    ensures var low := x / p * p;
            low <= x && (Nearest(low) == x ==> low == x) && Nearest(low + p) != x
  {
    hide Nearest;
    var low := x / p * p;
    assert low <= x < low + p;
    NearestSmall(low);
    Multiples(x / p, p);
    if low + p <= EXACT {
      NearestSmall(low + p);
    } else {
      NearestLarge(low + p);
    }
  }

  lemma {:induction false} ShortestSmall(x: nat, z: nat)
    requires x <= EXACT
    ensures Shortest(x, z) == x
  {
    hide Nearest, Pow10;
    if z > 0 {
      PowerOfTen(z);
      NothingShorter(x, Pow10(z));
      ShortestSmall(x, z - 1);
    }
  }

  lemma PowerOfTen(z: nat)
    requires z > 0
    ensures Pow10(z) >= 10 && Pow10(z) % 10 == 0
  {
    assert Pow10(z) == 10 * Pow10(z - 1);
  }

  lemma Multiples(q: nat, p: nat)
    requires p % 10 == 0
    ensures (q * p + p) % 10 == 0
  {
    assert q * p + p == 10 * ((q + 1) * (p / 10));
  }

  /** Sequence numbers up to 2^53 are carried exactly. */
  lemma SmallIsCarried(n: nat)
    requires n <= EXACT
    ensures Carried(n)
  {
    NearestSmall(n);
    ShortestSmall(n, 21);
  }

  /** The first that is not. */
  lemma FirstLost()
    ensures Printed(Nearest(EXACT + 1)) == EXACT && !Carried(EXACT + 1)
  {
    assert Unit((EXACT + 1) / 2) == 1 && Unit(EXACT + 1) == 2;
    assert Nearest(EXACT + 1) == EXACT;
    ShortestSmall(EXACT, 21);
  }

  // ---- Rounding ----

  lemma Division(n: nat, u: nat)
    requires u >= 1
    ensures n == n / u * u + n % u && n % u < u && (n / u + 1) * u == n / u * u + u
  {
  }

  /** The double nearest a number is a multiple of the distance there, within half of it, and even when half way. */
  lemma NearestExactly(n: nat) returns (k: nat)
    ensures var u, x := Unit(n), Nearest(n);
            && x == k * u && 2 * (x - n) <= u && 2 * (n - x) <= u
            && (2 * (x - n) == u || 2 * (n - x) == u ==> k % 2 == 0)
  {
    hide Unit;
    var u := Unit(n);
    Division(n, u);
    var q, m := n / u, n % u;
    k := if 2 * m < u || (2 * m == u && q % 2 == 0) then q else q + 1;
  }

  /** What is written for a double is read as that double. */
  lemma {:induction false} ShortestReadsBack(x: nat, z: nat)
    requires Nearest(x) == x
    ensures Nearest(Shortest(x, z)) == x
  {
    hide Nearest, Pow10;
    if z > 0 {
      ShortestReadsBack(x, z - 1);
    }
  }

  /** A number further away than the distance between doubles is not read as `x`. */
  lemma TooFar(p: nat, x: nat)
    requires 2 * (p - x) > Unit(p) || 2 * (x - p) > Unit(p)
    ensures Nearest(p) != x
  {
    var k := NearestExactly(p);
  }

  /** 2^63. */
  const HUGE: nat := 0x8000_0000_0000_0000

  /** When no number with so many zeros is read as `x`, fewer are tried. */
  lemma TriesFewer(x: nat, z: nat)
    requires z > 0 && forall q: nat :: Nearest(q * Pow10(z)) != x
    ensures Shortest(x, z) == Shortest(x, z - 1)
  {
    hide Nearest, Pow10;
    var p := Pow10(z);
    var q := x / p;
    assert (q + 1) * p == q * p + p;
    assert Nearest(q * p) != x && Nearest((q + 1) * p) != x;
  }

  /** No multiple of ten thousand is read as 2^63, so at most three zeros can end its text. */
  lemma {:induction false} HugeShortens(z: nat)
    requires 3 <= z <= 21
    ensures Shortest(HUGE, z) == 9_223_372_036_854_776_000
  {
    hide Nearest, Unit, Pow10, Shortest;
    if z == 3 {
      HugeWritten();
    } else {
      HugeShortens(z - 1);
      TenThousands(z);
      forall q: nat ensures Nearest(q * Pow10(z)) != HUGE {
        Fold(q, Pow10(z) / 10_000, Pow10(z));
        Near(q * Pow10(z));
      }
      TriesFewer(HUGE, z);
    }
  }

  lemma Fold(q: nat, m: nat, p: nat)
    requires p == 10_000 * m
    ensures q * p % 10_000 == 0
  {
    assert q * p == 10_000 * (q * m);
  }

  lemma {:induction false} TenThousands(z: nat)
    requires z >= 4
    ensures Pow10(z) % 10_000 == 0
  {
    if z == 4 {
      assert Pow10(4) == 10_000;
    } else {
      TenThousands(z - 1);
    }
  }

  /** A multiple of ten thousand is too far from 2^63. */
  lemma Near(m: nat)
    requires m % 10_000 == 0
    ensures Nearest(m) != HUGE
  {
    hide Nearest;
    assert HUGE % 10_000 == 5808;
    var u := Unit(m);
    if m < HUGE {
      assert HUGE - m >= 5808;
      assert u <= 2048;
      TooFar(m, HUGE);
    } else {
      assert m - HUGE >= 4192;
      if m < 2 * HUGE {
        assert u <= 4096;
      } else {
        assert m >= EXACT / 2 * u;
      }
      TooFar(m, HUGE);
    }
  }

  lemma HugeWritten()
    ensures Shortest(HUGE, 3) == 9_223_372_036_854_776_000
  {
    assert Pow10(3) == 1000;
    assert HUGE / 1000 * 1000 == 9_223_372_036_854_775_000;
    UnitOf(9_223_372_036_854_775_000, 1024);
    UnitOf(9_223_372_036_854_776_000, 2048);
  }

  /** The distance at a number between two neighbouring powers of two. */
  lemma UnitOf(n: nat, u: nat)
    requires u in {1024, 2048} && EXACT / 2 * u <= n < EXACT * u
    ensures Unit(n) == u
  {
    assert Twos(5) == 32 && Twos(10) == 32 * Twos(5) && Twos(11) == 2 * Twos(10);
    Halves(n, if u == 1024 then 10 else 11);
  }

  function Twos(k: nat): nat {
    if k == 0 then 1 else 2 * Twos(k - 1)
  }

  lemma {:induction false} Halves(n: nat, k: nat)
    requires EXACT / 2 * Twos(k) <= n < EXACT * Twos(k)
    ensures Unit(n) == Twos(k)
  {
    if k > 0 {
      Halves(n / 2, k - 1);
    }
  }

  /** 2^63 is a double, and is still not carried: its text is shorter. */
  lemma HugeIsLost()
    ensures Nearest(HUGE) == HUGE && Printed(Nearest(HUGE)) == 9_223_372_036_854_776_000 && !Carried(HUGE)
  {
    hide Shortest, Unit;
    UnitOf(HUGE, 2048);
    assert HUGE % 2048 == 0;
    HugeShortens(21);
  }
}

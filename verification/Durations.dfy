/**
 The `lease` parameter of a collection, read by both implementations (lease.go, edge/src/worker.ts)
 where its number is whole. Each side multiplies in doubles; `Js.Nearest` is that arithmetic.
 */
module Durations {
  import opened Text
  import opened Messages
  import Js
  import Q = Queues
  import W = Worker

  /** No lease, a request that is refused, or a lease of so many nanoseconds. */
  datatype Wanted = NoLease | Refused | Lease(d: Time)

  const MS: nat := 1_000_000

  /** The unit at the end, the longer of two first. */
  function Suffix(v: string): (u: string)
    ensures |u| <= |v|
  {
    if HasSuffix(v, "ms") then "ms"
    else if HasSuffix(v, "s") then "s"
    else if HasSuffix(v, "m") then "m"
    else if HasSuffix(v, "h") then "h"
    else ""
  }

  /** Milliseconds in a unit; a bare number is in seconds. */
  function Millis(unit: string): nat {
    if unit == "ms" then 1 else if unit == "m" then 60_000 else if unit == "h" then 3_600_000 else 1000
  }

  function Numeral(v: string): string {
    v[..|v| - |Suffix(v)|]
  }

  /** Nothing at all, or a whole number and perhaps a unit. */
  predicate Whole(text: string) {
    var v := TrimSpace(text);
    v == "" || (Numeral(v) != "" && AllDigits(Numeral(v)))
  }

  /** The product of a numeral and a factor, in doubles. */
  function Times(numeral: string, factor: nat): nat
    requires AllDigits(numeral)
  {
    Js.Nearest(Js.Nearest(Text.Value(numeral)) * factor)
  }

  function Pow2(n: nat): nat {
    if n == 0 then 1 else 2 * Pow2(n - 1)
  }

  /** The number is beyond every double. */
  predicate Infinite(numeral: string)
    requires AllDigits(numeral)
  {
    Js.Nearest(Text.Value(numeral)) >= Pow2(1024)
  }

  /** The conversion to a `time.Duration`: past 63 bits the language leaves the result to the machine. */
  function Converted(x: nat, machine: int): int {
    if x < INT64_LIMIT then x else machine
  }

  /** `ParseLease`, and what the server makes of its answer; `machine` is what an overflowing conversion gives. */
  function GoParse(text: string, machine: int): Wanted
    requires Whole(text)
  {
    var v := TrimSpace(text);
    if v == "" || v == "0" then NoLease
    else if Infinite(Numeral(v)) then Refused
    else
      var d := Converted(Times(Numeral(v), Millis(Suffix(v)) * MS), machine);
      if d > Q.MAX_LEASE then Refused else if d <= 0 then NoLease else Lease(d)
  }

  /** `parseLease`. */
  function WorkerParse(text: string): Wanted
    requires Whole(text)
  {
    var v := TrimSpace(text);
    if v == "" || v == "0" then NoLease
    else
      var ms := Times(Numeral(v), Millis(Suffix(v)));
      if ms == 0 || ms > W.MAX_LEASE_MS then Refused else Lease(ms * MS)
  }

  /** Rounding to a double decides no comparison with a number below 2^53. */
  lemma NearestCompares(x: nat, bound: nat)
    requires bound < Js.EXACT
    ensures Js.Nearest(x) > bound <==> x > bound
    ensures x <= Js.EXACT ==> Js.Nearest(x) == x
  {
    hide Js.Nearest;
    if x <= Js.EXACT {
      Js.NearestSmall(x);
    } else if x > Js.EXACT + 1 {
      Js.NearestLarge(x);
    } else {
      Js.FirstLost();
      assert x == Js.EXACT + 1 && Js.Nearest(x) == Js.EXACT by { AfterExact(); }
    }
  }

  lemma AfterExact()
    ensures Js.Nearest(Js.EXACT + 1) == Js.EXACT
  {
    assert Js.Unit((Js.EXACT + 1) / 2) == 1 && Js.Unit(Js.EXACT + 1) == 2;
  }

  /** A product of doubles is exact up to a bound below 2^53, and beyond it exactly when the product is. */
  lemma TimesCompares(n: nat, factor: nat, bound: nat)
    requires 1 <= factor && bound < Js.EXACT
    ensures Js.Nearest(Js.Nearest(n) * factor) > bound <==> n * factor > bound
    ensures n * factor <= bound ==> Js.Nearest(Js.Nearest(n) * factor) == n * factor
  {
    hide Js.Nearest;
    Js.Product(n, factor, n, 1);
    NearestCompares(n, Js.EXACT - 1);
    NearestCompares(Js.Nearest(n) * factor, bound);
    if n > Js.EXACT {
      Js.Product(Js.Nearest(n), factor, Js.EXACT, 1);
    }
  }

  /** The conversion is within 63 bits, or overflows to something that is refused, or is never made. */
  predicate Safe(v: string, machine: int)
    requires AllDigits(Numeral(v))
  {
    || Infinite(Numeral(v)) || machine > Q.MAX_LEASE
    || Times(Numeral(v), Millis(Suffix(v)) * MS) < INT64_LIMIT
  }

  /**
   For every whole number with or without a unit, the two read the same lease, or neither, or both
   refuse it, exactly when there is no number or it is written "0", or it is not zero and its
   conversion to a duration is safe.
   */
  lemma ParsesAgreeExactly(text: string, machine: int)
    requires Whole(text)
    ensures var v := TrimSpace(text);
            GoParse(text, machine) == WorkerParse(text) <==>
              v == "" || v == "0" || (Text.Value(Numeral(v)) > 0 && Safe(v, machine))
  {
    hide TrimSpace, Js.Nearest, Numeral, Suffix, AllDigits, Text.Value, Millis, Infinite;
    var v := TrimSpace(text);
    if v != "" {
      var n, unit := Text.Value(Numeral(v)), Millis(Suffix(v));
      SomeMillis(Suffix(v));
      TimesCompares(n, unit * MS, Q.MAX_LEASE);
      TimesCompares(n, unit, W.MAX_LEASE_MS);
      Regrouped(n, unit);
      if Infinite(Numeral(v)) { InfiniteIsLong(Numeral(v), unit); }
    }
  }

  lemma InfiniteIsLong(numeral: string, unit: nat)
    requires AllDigits(numeral) && Infinite(numeral) && unit >= 1
    ensures Text.Value(numeral) * unit > W.MAX_LEASE_MS
  {
    hide Js.Nearest, Text.Value, AllDigits;
    var n := Text.Value(numeral);
    assert Pow2(10) == 1024 && Pow2(20) == 1024 * Pow2(10);
    PowerGrows(1024, 20);
    NearestCompares(n, W.MAX_LEASE_MS);
    Js.Product(n, unit, n, 1);
  }

  lemma {:induction false} PowerGrows(n: nat, m: nat)
    requires n >= m
    ensures Pow2(n) >= Pow2(m) >= 1
  {
    if n > m {
      PowerGrows(n - 1, m);
    } else if m > 0 {
      PowerGrows(m - 1, m - 1);
    }
  }

  lemma SomeMillis(unit: string)
    ensures Millis(unit) >= 1
  {
  }

  lemma Regrouped(n: nat, unit: nat)
    requires unit >= 1
    ensures n * (unit * MS) == n * unit * MS && (n * unit == 0 <==> n == 0)
  {
  }

  /** A number beyond 63 bits of nanoseconds: refused beyond every double, else whatever the machine makes of it. */
  lemma OverflowReads(text: string, machine: int)
    requires Whole(text) && TrimSpace(text) != "" && TrimSpace(text) != "0"
    requires Times(Numeral(TrimSpace(text)), Millis(Suffix(TrimSpace(text))) * MS) >= INT64_LIMIT
    ensures var n := Js.Nearest(Text.Value(Numeral(TrimSpace(text))));
            GoParse(text, machine) ==
              if n >= Pow2(1024) || machine > 300_000_000_000 then Refused
              else if machine < 1 then NoLease
              else Lease(machine)
  {
    hide TrimSpace, Js.Nearest, Numeral, Suffix, AllDigits, Text.Value, Millis, Pow2;
  }

  /** A lease both read is the one written, in the unit written. */
  lemma ParsesExactly(text: string, machine: int)
    requires Whole(text) && GoParse(text, machine).Lease? && GoParse(text, machine) == WorkerParse(text)
    ensures var v := TrimSpace(text); GoParse(text, machine) == Lease(Text.Value(Numeral(v)) * Millis(Suffix(v)) * MS)
    ensures var v := TrimSpace(text);
            forall digits: string :: AllDigits(digits) ==>
              && (v == digits || v == digits + "s" ==>
                    GoParse(text, machine) == Lease(Text.Value(digits) * 1_000_000_000))
              && (v == digits + "ms" ==> GoParse(text, machine) == Lease(Text.Value(digits) * 1_000_000))
              && (v == digits + "m" ==> GoParse(text, machine) == Lease(Text.Value(digits) * 60_000_000_000))
              && (v == digits + "h" ==> GoParse(text, machine) == Lease(Text.Value(digits) * 3_600_000_000_000))
  {
    hide TrimSpace, Js.Nearest, Numeral, Suffix, AllDigits, Text.Value, Millis, Infinite;
    var v := TrimSpace(text);
    SomeMillis(Suffix(v));
    TimesCompares(Text.Value(Numeral(v)), Millis(Suffix(v)), W.MAX_LEASE_MS);
    forall digits: string | AllDigits(digits)
      ensures v == digits || v == digits + "s" ==> GoParse(text, machine) == Lease(Text.Value(digits) * 1_000_000_000)
      ensures v == digits + "ms" ==> GoParse(text, machine) == Lease(Text.Value(digits) * 1_000_000)
      ensures v == digits + "m" ==> GoParse(text, machine) == Lease(Text.Value(digits) * 60_000_000_000)
      ensures v == digits + "h" ==> GoParse(text, machine) == Lease(Text.Value(digits) * 3_600_000_000_000)
    {
      ReadUnits(digits);
      MillisAre();
      assert digits + "" == digits;
    }
  }

  lemma MillisAre()
    ensures Millis("") == 1000 == Millis("s") && Millis("ms") == 1 && Millis("m") == 60_000 && Millis("h") == 3_600_000
  {
  }

  lemma ReadUnits(digits: string)
    requires AllDigits(digits)
    ensures forall unit: string :: unit in ["", "s", "ms", "m", "h"] ==>
              Suffix(digits + unit) == unit && Numeral(digits + unit) == digits
  {
    hide AllDigits;
    forall unit: string | unit in ["", "s", "ms", "m", "h"]
      ensures Suffix(digits + unit) == unit && Numeral(digits + unit) == digits
    {
      ReadUnit(digits, unit);
    }
  }

  lemma ReadUnit(digits: string, unit: string)
    requires AllDigits(digits) && unit in ["", "s", "ms", "m", "h"]
    ensures Suffix(digits + unit) == unit && Numeral(digits + unit) == digits
  {
    hide HasSuffix, AllDigits;
    var v := digits + unit;
    LastTwo(digits, unit);
    Ends(v, "ms");
    Ends(v, "s");
    Ends(v, "m");
    Ends(v, "h");
    HasOwn(digits, unit);
    assert v[..|digits|] == digits;
  }

  lemma HasOwn(digits: string, unit: string)
    ensures HasSuffix(digits + unit, unit)
  {
    assert (digits + unit)[|digits|..] == unit;
  }

  /** The last characters of a numeral and a unit of at most two. */
  lemma LastTwo(digits: string, unit: string)
    requires AllDigits(digits)
    ensures var v := digits + unit;
            && (unit == "" && digits != "" ==> IsDigit(v[|v| - 1]))
            && (|unit| == 1 ==> v[|v| - 1] == unit[0] && (digits != "" ==> IsDigit(v[|v| - 2])))
            && (|unit| == 2 ==> v[|v| - 1] == unit[1] && v[|v| - 2] == unit[0])
  {
  }

  lemma Ends(v: string, unit: string)
    requires unit != ""
    ensures HasSuffix(v, unit) ==> |v| >= |unit| && v[|v| - 1] == unit[|unit| - 1]
    ensures HasSuffix(v, unit) && |unit| > 1 ==> v[|v| - 2] == unit[|unit| - 2]
  {
    if HasSuffix(v, unit) {
      assert v[|v| - |unit|..] == unit;
    }
  }

  // ---- Where they part ----

  lemma Read(v: string, numeral: string, unit: string)
    requires v == numeral + unit && numeral != "" && AllDigits(numeral) && (unit == "s" || unit == "h")
    ensures TrimSpace(v) == v && Suffix(v) == unit && Numeral(v) == numeral && Whole(v)
  {
    assert v[|v| - 1] == unit[0] && v[|v| - 1..] == unit && v[0] == numeral[0];
    assert IsDigit(numeral[|numeral| - 1]) && v[|v| - 2] == numeral[|numeral| - 1];
    assert !HasSuffix(v, "ms") by { assert v[|v| - 2..][0] != 'm'; }
    assert v[..|v| - 1] == numeral;
  }

  /** No seconds at all: the Go server collects without a lease, the Worker refuses. */
  lemma ZeroSecondsDiverge(machine: int)
    ensures Whole("0s") && GoParse("0s", machine) == NoLease && WorkerParse("0s") == Refused
  {
    Read("0s", "0", "s");
    assert Text.Value("0") == 0;
    Js.NearestSmall(0);
    assert Pow2(1024) >= 1 by { PowerGrows(1024, 0); }
  }

  /**
   Ten million hours on a machine whose overflowing conversion is negative: the Go server
   collects without a lease, which deletes, where the Worker refuses.
   */
  lemma LongLeaseDiverges()
    ensures var machine := -INT64_LIMIT;
            && Whole("9999999h") && GoParse("9999999h", machine) == NoLease && WorkerParse("9999999h") == Refused
  {
    hide Js.Nearest, TrimSpace, Suffix, Numeral, AllDigits, Text.Value, Pow2;
    var n := "9999999";
    SevenNines();
    Read("9999999h", n, "h");
    Js.NearestSmall(9999999);
    BillionDoubles();
    TimesCompares(9999999, 3_600_000, W.MAX_LEASE_MS);
    Large(9999999 * 3_600_000 * MS);
  }

  lemma BillionDoubles()
    ensures Pow2(1024) >= 1_000_000_000
  {
    assert Pow2(10) == 1024 && Pow2(20) == 1024 * Pow2(10) && Pow2(30) == 1024 * Pow2(20);
    PowerGrows(1024, 30);
  }

  function Repeated(c: char, k: nat): string {
    seq(k, i => c)
  }

  lemma {:induction false} NinesValue(k: nat)
    ensures AllDigits(Repeated('9', k)) && Text.Value(Repeated('9', k)) == Pow10(k) - 1
  {
    if k > 0 {
      NinesValue(k - 1);
      assert Repeated('9', k)[..k - 1] == Repeated('9', k - 1);
    }
  }

  lemma SevenNines()
    ensures AllDigits("9999999") && Text.Value("9999999") == 9999999
  {
    NinesValue(7);
    assert "9999999" == Repeated('9', 7);
    assert Pow10(7) == 10_000_000;
  }

  /** A product past 63 bits stays past them when rounded. */
  lemma Large(x: nat)
    requires x == 9999999 * 3_600_000 * MS
    ensures Js.Nearest(x) >= INT64_LIMIT
  {
    var u := Js.Unit(x);
    assert x < Js.EXACT * 4096 && x >= Js.EXACT * 2048;
    Js.DivisionBounds(x, u, Js.EXACT / 2);
    assert x / u * u > x - u;
    assert Js.EXACT / 2 * u <= x;
  }
}

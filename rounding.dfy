/** The three rounding rules the app applies to diopter values, on exact reals:
    - `RoundQuarter`: `0.25 * Math.round(x / 0.25)` (Math.round is floor(v + 0.5),
      so ties go toward +infinity);
    - `Round5`: `DecimalFormat("#.#####")`, five decimals, HALF_EVEN;
    - `Hundredths`: the value `String.format("%.2f", x)` prints, in hundredths,
      rounded HALF_UP (ties away from zero). */
module Rounding {

  /** Nearest multiple of 0.25, ties toward +infinity. */
  function RoundQuarter(x: real): real
  {
    (4.0 * x + 0.5).Floor as real / 4.0
  }

  predicate IsQuarterMultiple(x: real)
  {
    (4.0 * x).Floor as real == 4.0 * x
  }

  /** The result is on the quarter grid and within an eighth of the input;
      only a tie lands exactly an eighth above. */
  lemma RoundQuarterBounds(x: real)
    ensures IsQuarterMultiple(RoundQuarter(x))
    ensures x - 0.125 < RoundQuarter(x) <= x + 0.125
  {
    var n := (4.0 * x + 0.5).Floor;
    assert 4.0 * RoundQuarter(x) == n as real;
  }

  /** No multiple of 0.25 is closer to x than RoundQuarter(x). */
  lemma RoundQuarterNearest(x: real, k: int)
    ensures Abs(RoundQuarter(x) - x) <= Abs(k as real / 4.0 - x)
  {
    var n := (4.0 * x + 0.5).Floor;
    assert 4.0 * x - 0.5 < n as real <= 4.0 * x + 0.5;
    if k < n {
      assert k as real <= n as real - 1.0;
    } else if k > n {
      assert k as real >= n as real + 1.0;
    }
  }

  /** A tie halfway between k/4 and (k+1)/4 rounds up. */
  lemma RoundQuarterTieGoesUp(k: int)
    ensures RoundQuarter(k as real / 4.0 + 0.125) == (k + 1) as real / 4.0
  {
    assert 4.0 * (k as real / 4.0 + 0.125) + 0.5 == (k + 1) as real;
  }

  lemma RoundQuarterOfQuarter(q: real)
    requires IsQuarterMultiple(q)
    ensures RoundQuarter(q) == q
  {
    var m := (4.0 * q).Floor;
    assert (4.0 * q + 0.5).Floor == m;
  }

  lemma RoundQuarterIdempotent(x: real)
    ensures RoundQuarter(RoundQuarter(x)) == RoundQuarter(x)
  {
    RoundQuarterBounds(x);
    RoundQuarterOfQuarter(RoundQuarter(x));
  }

  lemma RoundQuarterMonotone(x: real, y: real)
    requires x <= y
    ensures RoundQuarter(x) <= RoundQuarter(y)
  {
    assert (4.0 * x + 0.5).Floor <= (4.0 * y + 0.5).Floor;
  }

  /** A positive value never rounds below zero, a negative one never above zero. */
  lemma RoundQuarterSign(x: real)
    ensures x > 0.0 ==> RoundQuarter(x) >= 0.0
    ensures x < 0.0 ==> RoundQuarter(x) <= 0.0
  {
    assert RoundQuarter(0.0) == 0.0;
    if x > 0.0 {
      RoundQuarterMonotone(0.0, x);
    } else if x < 0.0 {
      RoundQuarterMonotone(x, 0.0);
    }
  }

  lemma QuarterDifference(a: real, b: real)
    requires IsQuarterMultiple(a) && IsQuarterMultiple(b)
    ensures IsQuarterMultiple(a - b) && IsQuarterMultiple(a + b)
  {
    var m, n := (4.0 * a).Floor, (4.0 * b).Floor;
    assert 4.0 * a == m as real && 4.0 * b == n as real;
    var d, s := 4.0 * (a - b), 4.0 * (a + b);
    assert d == (m - n) as real;
    assert d.Floor == m - n;
    assert s == (m + n) as real;
    assert s.Floor == m + n;
  }

  function Abs(x: real): real
  {
    if x < 0.0 then -x else x
  }

  /** DecimalFormat("#.#####"): five decimals, ties to the even neighbour. */
  function Round5(x: real): real
  {
    var y := x * 100000.0;
    var n := y.Floor;
    var f := y - n as real;
    var k := if f < 0.5 then n else if f > 0.5 then n + 1 else if n % 2 == 0 then n else n + 1;
    k as real / 100000.0
  }

  lemma Round5Zero()
    ensures Round5(0.0) == 0.0
  {
  }

  lemma Round5Close(x: real)
    ensures Abs(Round5(x) - x) <= 0.000005
  {
  }

  lemma Round5Monotone(x: real, y: real)
    requires x <= y
    ensures Round5(x) <= Round5(y)
  {
    var n1, n2 := (x * 100000.0).Floor, (y * 100000.0).Floor;
    assert n1 <= n2;
  }

  /** A tie between two five-decimal neighbours goes to the even one. */
  lemma Round5TieGoesToEven(n: int)
    ensures Round5((n as real + 0.5) / 100000.0)
         == (if n % 2 == 0 then n else n + 1) as real / 100000.0
  {
    var x := (n as real + 0.5) / 100000.0;
    var y := x * 100000.0;
    assert y == n as real + 0.5;
    assert y.Floor == n;
    assert y - n as real == 0.5;
  }

  /** A value with at most five decimals is left as it is. */
  lemma Round5Exact(x: real)
    requires (100000.0 * x).Floor as real == 100000.0 * x
    ensures Round5(x) == x
  {
    var y := x * 100000.0;
    assert y.Floor as real == y;
  }

  lemma Round5NonPositive(x: real)
    requires x <= 0.0
    ensures Round5(x) <= 0.0
  {
    Round5Monotone(x, 0.0);
    Round5Zero();
  }

  /** The value "%.2f" prints, counted in hundredths: HALF_UP, i.e. ties away from zero. */
  function Hundredths(x: real): int
  {
    if x >= 0.0 then (100.0 * x + 0.5).Floor else -((-100.0 * x + 0.5).Floor)
  }

  lemma HundredthsSign(x: real)
    ensures x >= 0.0 ==> Hundredths(x) >= 0
    ensures x < 0.0 ==> Hundredths(x) <= 0
  {
  }

  lemma HundredthsClose(x: real)
    ensures Abs(Hundredths(x) as real / 100.0 - x) <= 0.005
  {
  }

  lemma HundredthsMonotone(x: real, y: real)
    requires x <= y
    ensures Hundredths(x) <= Hundredths(y)
  {
    if x >= 0.0 {
      assert (100.0 * x + 0.5).Floor <= (100.0 * y + 0.5).Floor;
    } else if y < 0.0 {
      assert (-100.0 * y + 0.5).Floor <= (-100.0 * x + 0.5).Floor;
    }
  }

  /** A value with at most two decimals prints exactly. */
  lemma HundredthsExact(x: real)
    requires (100.0 * x).Floor as real == 100.0 * x
    ensures Hundredths(x) as real == 100.0 * x
  {
    var m := (100.0 * x).Floor;
    if x >= 0.0 {
      assert (100.0 * x + 0.5).Floor == m;
    } else {
      assert (-100.0 * x + 0.5).Floor == -m;
    }
  }

  /** A multiple of 0.25 prints exactly. */
  lemma HundredthsOfQuarter(q: real)
    requires IsQuarterMultiple(q)
    ensures Hundredths(q) as real == 100.0 * q
  {
    var m := (4.0 * q).Floor;
    assert 100.0 * q == (25 * m) as real;
    HundredthsExact(q);
  }
}

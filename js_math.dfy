/**
 * The one piece of JavaScript arithmetic the model needs: `Math.round` of a
 * quotient. `Math.round(x)` is the integer nearest to x, with halves going
 * towards +infinity, i.e. floor(x + 1/2).
 */
module JsMath {

  /** `Math.round(num / den)` computed exactly on integers, for a positive denominator. */
  function RoundDiv(num: int, den: int): (r: int)
    requires den > 0
    ensures den * (2 * r - 1) <= 2 * num < den * (2 * r + 1)
  {
    var q := (2 * num + den) / (2 * den);
    DivBounds(2 * num + den, 2 * den);
    q
  }

  /** Euclidean division by a positive divisor brackets the dividend. */
  lemma DivBounds(a: int, b: int)
    requires b > 0
    ensures b * (a / b) <= a < b * (a / b) + b
  {
  }

  /** The nearest-integer characterisation of `RoundDiv` has exactly one solution. */
  lemma {:induction false} RoundDivUnique(num: int, den: int, r: int)
    requires den > 0
    requires den * (2 * r - 1) <= 2 * num < den * (2 * r + 1)
    ensures r == RoundDiv(num, den)
  {
    var q := RoundDiv(num, den);
    MulLeIff(den, 2 * r + 1, 2 * q - 1);
    MulLeIff(den, 2 * q + 1, 2 * r - 1);
  }

  /** Multiplying by a positive factor preserves and reflects `<=`. */
  lemma MulLeIff(k: int, a: int, b: int)
    requires k > 0
    ensures k * a <= k * b <==> a <= b
  {
    if a <= b {
      MulMono(k, a, b);
    } else {
      MulMono(k, b + 1, a);
      assert k * (b + 1) == k * b + k;
    }
  }

  lemma MulDouble(k: int, a: int)
    ensures k * (2 * a) == 2 * (k * a)
  {
  }

  lemma MulMono(k: int, a: int, b: int)
    requires k > 0 && a <= b
    ensures k * a <= k * b
  {
  }

  /** Rounding a mean of values that all lie in lo..hi gives a value in lo..hi. */
  lemma {:induction false} RoundDivRange(sum: int, count: int, lo: int, hi: int)
    requires count > 0 && count * lo <= sum <= count * hi
    ensures lo <= RoundDiv(sum, count) <= hi
  {
    var r := RoundDiv(sum, count);
    MulDouble(count, lo);
    MulDouble(count, hi);
    MulLeIff(count, 2 * r + 1, 2 * lo);
    MulLeIff(count, 2 * r - 1, 2 * hi);
  }
}

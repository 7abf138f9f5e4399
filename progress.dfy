/** The completion percentage the course player and the dashboard both show:
    `n > 0 ? Math.round((k / n) * 100) : 0`, over exact rationals. */
module Progress {
  import opened Basics

  /** `Math.round(x)` is the integer `r` with `r - 1/2 <= x < r + 1/2`; for `x = 100k/n`
      multiplying through by `2n` gives the integer form in the ensures. */
  function RoundedPercent(k: nat, n: nat): (r: nat)
    ensures n == 0 ==> r == 0
    ensures n > 0 ==> 2 * n * r <= 200 * k + n < 2 * n * (r + 1)
  {
    if n == 0 then 0 else (200 * k + n) / (2 * n)
  }

  /** The percentage is at most 100 whenever no more lessons are completed than listed,
      is 100 when all are, and 0 when none are. */
  lemma PercentBounds(k: nat, n: nat)
    requires k <= n
    ensures RoundedPercent(k, n) <= 100
    ensures n > 0 && k == n ==> RoundedPercent(k, n) == 100
    ensures k == 0 ==> RoundedPercent(k, n) == 0
  {
    var r := RoundedPercent(k, n);
    if n > 0 {
      assert r * (2 * n) <= 200 * k + n <= 201 * n < 101 * (2 * n);
      MulCancel(r, 101, 2 * n);
      if k == n {
        assert 100 * (2 * n) < 200 * k + n < (r + 1) * (2 * n);
        MulCancel(100, r + 1, 2 * n);
      }
      if k == 0 {
        assert r * (2 * n) <= n < 1 * (2 * n);
        MulCancel(r, 1, 2 * n);
      }
    }
  }

  /** Completing one more lesson never lowers the percentage. */
  lemma PercentMonotone(k: nat, n: nat)
    ensures RoundedPercent(k, n) <= RoundedPercent(k + 1, n)
  {
    if n > 0 {
      var r, s := RoundedPercent(k, n), RoundedPercent(k + 1, n);
      assert r * (2 * n) <= 200 * k + n < 200 * (k + 1) + n < (s + 1) * (2 * n);
      MulCancel(r, s + 1, 2 * n);
    }
  }

  /** The percentage is positive exactly when the completed share is at least half a
      percent: one completed lesson out of more than 200 still shows 0. */
  lemma PositiveExactly(k: nat, n: nat)
    requires n > 0
    ensures RoundedPercent(k, n) > 0 <==> 200 * k >= n
  {
    var r := RoundedPercent(k, n);
    if r > 0 {
      assert 2 * n * r >= 2 * n * 1 by { MulLe(1, r, 2 * n); }
    }
  }

  lemma OneInTwoHundredOne()
    ensures RoundedPercent(1, 201) == 0 && RoundedPercent(1, 200) == 1
  {
  }
}

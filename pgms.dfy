/**
 * The win percentage the game driver prints (map/PGMS.java).
 *
 * percent(n, d) is (200 n + d) / (2 d) in Java's integer division: 100 n / d rounded
 * to the nearest integer, halves rounded up.  The driver calls it with the games won
 * and either the games played so far or the games in which a cell was probed, and
 * only with a positive count.
 */
module Pgms {
  import opened Board

  /** percent (PGMS.java). */
  function Percent(n: int, d: int): (p: int)
    requires d >= 1
    ensures n >= 0 ==> 0 <= p
    ensures n >= 0 ==> 2 * d * p - d <= 200 * n < 2 * d * p + d
  {
    JavaDiv(200 * n + d, 2 * d)
  }

  /** No wins is 0 percent. */
  lemma PercentOfNone(d: int)
    requires d >= 1
    ensures Percent(0, d) == 0
  {
  }

  /** Winning every game is 100 percent. */
  lemma PercentOfAll(d: int)
    requires d >= 1
    ensures Percent(d, d) == 100
  {
    assert 2 * d * 100 - d <= 200 * d < 2 * d * 100 + d;
    Unique(d, d, 100);
  }

  /** For a fixed count, more wins never give a smaller percentage. */
  lemma PercentMonotone(n1: int, n2: int, d: int)
    requires d >= 1 && 0 <= n1 <= n2
    ensures Percent(n1, d) <= Percent(n2, d)
  {
    var p1, p2 := Percent(n1, d), Percent(n2, d);
    if p2 < p1 {
      Scale(2 * d, p2 + 1, p1);
    }
  }

  /** Winning at most every game gives at most 100 percent. */
  lemma PercentAtMostHundred(n: int, d: int)
    requires d >= 1 && 0 <= n <= d
    ensures 0 <= Percent(n, d) <= 100
  {
    PercentMonotone(n, d, d);
    PercentOfAll(d);
  }

  /** The rounding of 100 n / d is determined by the bounds Percent guarantees. */
  lemma Unique(n: int, d: int, q: int)
    requires d >= 1 && n >= 0 && 2 * d * q - d <= 200 * n < 2 * d * q + d
    ensures Percent(n, d) == q
  {
    var p := Percent(n, d);
    if p < q {
      Scale(2 * d, p + 1, q);
    } else if q < p {
      Scale(2 * d, q + 1, p);
    }
  }

  lemma Scale(k: int, a: int, b: int)
    requires 0 <= k && a <= b
    ensures k * a <= k * b
  {
    assert k * b - k * a == k * (b - a);
  }
}

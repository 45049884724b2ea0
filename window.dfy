/**
 * What a score returned for a search window (alpha, beta) says about the
 * true value of a position, and the arithmetic of one step of the move loop
 * that keeps it true.
 */
module Window {

  function Max(a: int, b: int): int
  {
    if a >= b then a else b
  }

  /**
   * The window guarantee: a score strictly inside the window is the value,
   * a score at or below alpha bounds the value from above, and a score at
   * or above beta bounds it from below.
   */
  predicate Bound(r: int, v: int, alpha: int, beta: int)
  {
    && (alpha < r < beta ==> r == v)
    && (r <= alpha ==> v <= r)
    && (r >= beta ==> v >= r)
  }

  /** Fail-hard clamping of a value into [alpha, beta]. */
  function Clamp(v: int, alpha: int, beta: int): int
  {
    if v >= beta then beta else if v <= alpha then alpha else v
  }

  /** A clamped value meets the window guarantee, and lies in [alpha, beta]. */
  lemma ClampBound(v: int, alpha: int, beta: int)
    requires alpha < beta
    ensures Bound(Clamp(v, alpha, beta), v, alpha, beta)
    ensures alpha <= Clamp(v, alpha, beta) <= beta
  {
  }

  /** When the value lies strictly inside the window, a score meeting the guarantee is the value. */
  lemma InsideIsExact(r: int, v: int, alpha: int, beta: int)
    requires Bound(r, v, alpha, beta) && alpha < v < beta
    ensures r == v
  {
  }

  /**
   * One iteration of the move loop. Before it: the loop's alpha `a` lies
   * between the caller's alpha and max(alpha, best), and below beta; the
   * running best `best` meets the guarantee for the true running maximum
   * `m`. The child searched with window (-beta, -a) yields score `b` for a
   * move whose true score is `c`. After it, the updated running best meets
   * the guarantee for the updated true maximum, and when it lies strictly
   * inside the window both sides updated (or kept) their move together.
   */
  lemma ScanStep(alpha: int, beta: int, a: int, best: int, m: int, b: int, c: int)
    requires alpha <= a <= Max(alpha, best) && a < beta
    requires Bound(best, m, alpha, beta)
    requires Bound(-b, -c, -beta, -a)
    ensures var best' := if b > best then b else best;
      var m' := if c > m then c else m;
      && Bound(best', m', alpha, beta)
      && (alpha < best' < beta ==> (b > best <==> c > m))
      && (alpha < best' < beta && !(b > best) ==> alpha < best < beta)
      && alpha <= Max(a, best') <= Max(alpha, best')
      && (Max(a, best') >= beta ==> best' >= beta)
  {
  }
}

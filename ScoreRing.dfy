/**
 * The match-score ring: the score is clamped to [0, 100], the ring's colour
 * is picked from three bands of the clamped score, and the number in the
 * middle is the clamped score rounded with `Math.round`. Scores are modelled
 * as exact reals.
 */
module ScoreRing {
  const Green: string := "#10b981"
  const Amber: string := "#f59e0b"
  const Red: string := "#ef4444"

  /** `Math.max(0, Math.min(score, 100))`. */
  function Normalized(score: real): (n: real)
    ensures 0.0 <= n <= 100.0
    ensures 0.0 <= score <= 100.0 ==> n == score
    ensures score < 0.0 ==> n == 0.0
    ensures score > 100.0 ==> n == 100.0
  {
    var capped := if score < 100.0 then score else 100.0;
    if 0.0 < capped then capped else 0.0
  }

  /** Clamping twice is clamping once. */
  lemma NormalizedIdempotent(score: real)
    ensures Normalized(Normalized(score)) == Normalized(score)
  {
  }

  /** Clamping never reverses the order of two scores. */
  lemma NormalizedMonotone(a: real, b: real)
    requires a <= b
    ensures Normalized(a) <= Normalized(b)
  {
  }

  /** `getColor`: the band of the clamped score. */
  function Color(score: real): (c: string)
    ensures c == Green <==> Normalized(score) >= 85.0
    ensures c == Amber <==> 60.0 <= Normalized(score) < 85.0
    ensures c == Red <==> Normalized(score) < 60.0
  {
    var n := Normalized(score);
    if n >= 85.0 then Green else if n >= 60.0 then Amber else Red
  }

  /** The bands in rising order. */
  function BandRank(c: string): nat
  {
    if c == Red then 0 else if c == Amber then 1 else 2
  }

  /** A higher score never falls into a lower band. */
  lemma ColorMonotone(a: real, b: real)
    requires a <= b
    ensures BandRank(Color(a)) <= BandRank(Color(b))
  {
    NormalizedMonotone(a, b);
  }

  /** `Math.round` of a finite number: the nearest integer, halves rounded up. */
  function Round(x: real): (r: int)
    ensures x - 0.5 < r as real <= x + 0.5
  {
    (x + 0.5).Floor
  }

  /** The number shown: the clamped score rounded, itself within [0, 100] and never more than a half away. */
  function Display(score: real): (d: int)
    ensures 0 <= d <= 100
    ensures Normalized(score) - 0.5 < d as real <= Normalized(score) + 0.5
  {
    Round(Normalized(score))
  }

  /** A whole score in range is shown as it is. */
  lemma DisplayWhole(score: int)
    requires 0 <= score <= 100
    ensures Display(score as real) == score
  {
  }
}

/**
 * Score and speed bookkeeping after a lock that cleared n rows.
 */
module Scoring {

  const INITIAL_INTERVAL_MS: int := 550
  const MIN_INTERVAL_MS: int := 100
  const SPEED_UP_PER_LINE_MS: int := 20

  /** Points for clearing 0, 1, 2, 3 or 4 rows at once. */
  const LINE_SCORES: seq<nat> := [0, 100, 300, 500, 800]
  const FALLBACK_PER_LINE: nat := 100

  /**
   * The new score after clearing n rows, as the engine computes it: the table
   * value is added to the old score; past the end of the table the addition
   * yields no number, and the `||` fallback then REPLACES the score by n * 100.
   */
  function ScoreAfter(score: nat, n: nat): (r: nat)
    ensures n < |LINE_SCORES| ==> score <= r <= score + 800
    ensures |LINE_SCORES| <= n ==> r == n * FALLBACK_PER_LINE
  {
    if n < |LINE_SCORES| then score + LINE_SCORES[n] else n * FALLBACK_PER_LINE
  }

  /** The fall interval after clearing n rows: 20 ms faster per row, never below 100 ms. */
  function NextInterval(ms: int, n: nat): (r: int)
    ensures r >= MIN_INTERVAL_MS
    ensures ms >= MIN_INTERVAL_MS ==> r <= ms
    ensures r == MIN_INTERVAL_MS || r == ms - SPEED_UP_PER_LINE_MS * n
    ensures r >= ms - SPEED_UP_PER_LINE_MS * n
  {
    if MIN_INTERVAL_MS >= ms - SPEED_UP_PER_LINE_MS * n then MIN_INTERVAL_MS
    else ms - SPEED_UP_PER_LINE_MS * n
  }

  /**
   * Within the table the score strictly grows, and a larger clear earns strictly
   * more than a smaller one, though not in proportion (a double earns three singles).
   */
  lemma ScoreRewards(score: nat, a: nat, b: nat)
    requires 1 <= a < b <= 4
    ensures score < ScoreAfter(score, a) < ScoreAfter(score, b)
    ensures ScoreAfter(score, 2) - score == 3 * (ScoreAfter(score, 1) - score)
  {
  }

  /** Past the table the fallback can lower the score: 1000 points and 5 rows give 500. */
  lemma FallbackReplacesScore()
    ensures ScoreAfter(1000, 5) == 500
  {
  }

  /** The contract of NextInterval fixes it: it is the larger of 100 and ms - 20 n. */
  lemma NextIntervalIsMax(ms: int, n: nat, r: int)
    requires r >= MIN_INTERVAL_MS && r >= ms - SPEED_UP_PER_LINE_MS * n
    requires r == MIN_INTERVAL_MS || r == ms - SPEED_UP_PER_LINE_MS * n
    ensures r == NextInterval(ms, n)
    ensures r == (if ms - SPEED_UP_PER_LINE_MS * n > MIN_INTERVAL_MS then ms - SPEED_UP_PER_LINE_MS * n else MIN_INTERVAL_MS)
  {
  }

  /** The interval stays within [100, 550] once it starts there, whatever is cleared. */
  lemma IntervalStaysInRange(ms: int, n: nat)
    requires MIN_INTERVAL_MS <= ms <= INITIAL_INTERVAL_MS
    ensures MIN_INTERVAL_MS <= NextInterval(ms, n) <= ms <= INITIAL_INTERVAL_MS
  {
  }
}

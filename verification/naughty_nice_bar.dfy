/**
 * The naughty/nice meter: ten segments, 0-4 on the naughty side and 5-9 on
 * the nice side, filled from the middle outwards by half the score.
 *
 * The score is an integer, so every end index is a whole or a half number
 * and the arithmetic is exact over `real`. The wiggle animation and its
 * noise function are not part of this model.
 */
module NaughtyNiceBar {

  /** `Array.from({ length: 10 })`: the number of segments drawn. */
  const SEGMENTS: int := 10

  datatype SegmentState = SegmentState(active: bool, fillPercent: real)

  /** `score / 2`: the number of segments the score fills, in halves. */
  function SegmentCount(score: int): (r: real)
    ensures 2.0 * r == score as real
  {
    score as real / 2.0
  }

  /** The very-naughty icon threshold. */
  predicate IsVeryNaughty(score: int) {
    score <= -6
  }

  /** The very-nice icon threshold. */
  predicate IsVeryNice(score: int) {
    score >= 6
  }

  function Abs(x: real): real {
    if x < 0.0 then -x else x
  }

  /** `Math.ceil`. */
  function Ceil(x: real): int {
    -((-x).Floor)
  }

  /** `x % 1` in JavaScript: the fractional part, with the sign of `x`. */
  function JsRemOne(x: real): (r: real)
    ensures x >= 0.0 ==> 0.0 <= r < 1.0
    ensures x < 0.0 ==> -1.0 < r <= 0.0
  {
    if x >= 0.0 then x - x.Floor as real else x + (-x).Floor as real
  }

  /** Half of an integer: its floor, and whether a half is left over. */
  lemma Halves(k: int)
    ensures (k as real / 2.0).Floor == k / 2
    ensures k % 2 == 0 ==> k as real / 2.0 == (k / 2) as real
    ensures k % 2 == 1 ==> k as real / 2.0 == (k / 2) as real + 0.5
  {
    assert k == 2 * (k / 2) + k % 2;
  }

  /** The outermost active segment of an odd score: the one drawn half full. */
  predicate Outermost(score: int, i: int) {
    || (score > 0 && 2 * (i - 5) == score - 1)
    || (score < 0 && 2 * (4 - i) == -score - 1)
  }

  /**
   * `getSegmentState(i)`. A positive score lights the segments from 5 up
   * to, but excluding, `5 + score / 2`; a negative one those from 4 down
   * to, but excluding, `4 - |score| / 2`. Every lit segment is full except
   * the outermost one of an odd score, which is half full; an unlit one
   * reports a fill of 1.
   */
  function GetSegmentState(score: int, i: int): (r: SegmentState)
    ensures r.active <==> || (score > 0 && i >= 5 && 2 * (i - 5) < score)
                          || (score < 0 && i <= 4 && 2 * (4 - i) < -score)
    ensures !r.active ==> r.fillPercent == 1.0
    ensures r.active ==> r.fillPercent == if Outermost(score, i) then 0.5 else 1.0
  {
    Halves(score);
    Halves(-score);
    if score > 0 then
      var endIndex := 5.0 + SegmentCount(score);
      if i >= 5 && (i as real) < endIndex then
        if i == endIndex.Floor then
          var f := JsRemOne(endIndex);
          SegmentState(true, if f != 0.0 then f else 1.0)
        else
          SegmentState(true, 1.0)
      else
        SegmentState(false, 1.0)
    else if score < 0 then
      var endIndex := 4.0 - Abs(SegmentCount(score));
      if i <= 4 && (i as real) > endIndex then
        if i == Ceil(endIndex) && JsRemOne(endIndex) != 0.0 then
          SegmentState(true, 1.0 - Abs(JsRemOne(endIndex)))
        else
          SegmentState(true, 1.0)
      else
        SegmentState(false, 1.0)
    else
      SegmentState(false, 1.0)
  }

  /** A score of zero lights no segment. */
  lemma NeutralScoreLightsNothing(i: int)
    ensures GetSegmentState(0, i) == SegmentState(false, 1.0)
  {
  }

  /** The very-nice icon shows exactly when the third nice segment (index 7) is full. */
  lemma VeryNiceIsThirdNiceSegmentFull(score: int)
    ensures IsVeryNice(score) <==> GetSegmentState(score, 7) == SegmentState(true, 1.0)
  {
  }

  /** The very-naughty icon shows exactly when the third naughty segment (index 2) is full. */
  lemma VeryNaughtyIsThirdNaughtySegmentFull(score: int)
    ensures IsVeryNaughty(score) <==> GetSegmentState(score, 2) == SegmentState(true, 1.0)
  {
  }

  function IntAbs(k: int): nat {
    if k < 0 then -k else k
  }

  /** The number of lit segments among the first `n`. */
  function ActiveCount(score: int, n: nat): (c: nat)
    ensures c <= n
  {
    if n == 0 then 0
    else ActiveCount(score, n - 1) + (if GetSegmentState(score, n - 1).active then 1 else 0)
  }

  /** The lit segments of a score are the run `[lo, hi)`. */
  function ActiveRun(score: int): (int, int) {
    var filled := (IntAbs(score) + 1) / 2;
    if score > 0 then (5, 5 + filled)
    else if score < 0 then (5 - filled, 5)
    else (5, 5)
  }

  lemma ActiveIsRun(score: int, i: int)
    ensures GetSegmentState(score, i).active <==> ActiveRun(score).0 <= i < ActiveRun(score).1
  {
  }

  /** Among the first `n` segments, those of the run that lie below `n` are lit. */
  lemma {:induction false} ActiveCountPrefix(score: int, n: nat)
    requires -10 <= score <= 10
    ensures var (lo, hi) := ActiveRun(score);
      ActiveCount(score, n) == if n <= lo then 0 else if n <= hi then n - lo else hi - lo
  {
    if n > 0 {
      ActiveCountPrefix(score, n - 1);
      ActiveIsRun(score, n - 1);
    }
  }

  /** For a score within the meter's range, `ceil(|score| / 2)` of the ten segments are lit. */
  lemma LitSegmentsAreHalfTheScore(score: int)
    requires -10 <= score <= 10
    ensures ActiveCount(score, SEGMENTS) == (IntAbs(score) + 1) / 2
  {
    ActiveCountPrefix(score, SEGMENTS);
  }
}

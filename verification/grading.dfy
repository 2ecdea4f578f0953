/** The grade band shown on the results page. */
module Grading {

  datatype Band = Excellent | Good | NeedsImprovement

  /** Python's `a // b` for a non-negative dividend and a positive divisor,
      where flooring and Dafny's Euclidean division agree. */
  function FloorDiv(a: nat, b: nat): (q: nat)
    requires b > 0
    ensures q * b <= a < (q + 1) * b
  {
    a / b
  }

  /** The band for `score` out of `total`: a perfect score first, then the
      half-way mark `total // 2`, otherwise a request to practise more.
      Stated without division: "Good" is every imperfect score whose double
      reaches `total - 1`, so for an odd total the score just below half
      (2 of 5, 0 of 1) still counts as good. */
  function GradeBand(score: nat, total: nat): (b: Band)
    ensures b == Excellent <==> score == total
    ensures b == Good <==> score != total && 2 * score + 1 >= total
    ensures b == NeedsImprovement <==> score != total && 2 * score + 1 < total
  {
    if score == total then Excellent
    else if score >= FloorDiv(total, 2) then Good
    else NeedsImprovement
  }

  /** Orders the bands from worst to best. */
  function Rank(b: Band): nat {
    match b
    case NeedsImprovement => 0
    case Good => 1
    case Excellent => 2
  }

  /** The band only improves as the score rises, for a fixed total. */
  lemma GradeBandMonotone(s1: nat, s2: nat, total: nat)
    requires s1 <= s2 <= total
    ensures Rank(GradeBand(s1, total)) <= Rank(GradeBand(s2, total))
  {
  }

  /** The boundary cases for ten questions: five right is good, four right
      needs improvement, ten right is excellent. */
  lemma TenQuestionBoundaries()
    ensures GradeBand(5, 10) == Good
    ensures GradeBand(4, 10) == NeedsImprovement
    ensures GradeBand(10, 10) == Excellent
  {
  }
}

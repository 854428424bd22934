/**
 * `calculateGrade`: each student, in order, becomes a
 * `studentStat` carrying the mean of the four scores and a letter grade.
 */
module Grading {
  import opened Strconv
  import opened Records

  const TwoTo64: int := 0x1_0000_0000_0000_0000

  /** Go's 64-bit `int` arithmetic: the value congruent to `x` in range. */
  function Wrap(x: int): (r: int)
    ensures InIntRange(r)
    ensures (x - r) % TwoTo64 == 0
    ensures InIntRange(x) ==> r == x
  {
    (x - MinInt) % TwoTo64 + MinInt
  }

  /**
   * `test1Score + test2Score + test3Score + test4Score`, each addition
   * wrapping around as Go's `int` does.
   */
  function Total(s: Student): (r: int)
    ensures InIntRange(r)
  {
    Wrap(Wrap(Wrap(s.test1Score + s.test2Score) + s.test3Score) + s.test4Score)
  }

  /**
   * When the plain sum of the four scores fits Go's `int`, the total is that
   * sum, however the partial sums wrap on the way.
   */
  lemma TotalIsSum(s: Student)
    requires InIntRange(s.test1Score + s.test2Score + s.test3Score + s.test4Score)
    ensures Total(s) == s.test1Score + s.test2Score + s.test3Score + s.test4Score
  {
    var a := s.test1Score + s.test2Score;
    var w1 := Wrap(a);
    var w2 := Wrap(w1 + s.test3Score);
    var w3 := Wrap(w2 + s.test4Score);
    var k1, k2, k3 := (a - w1) / TwoTo64, (w1 + s.test3Score - w2) / TwoTo64, (w2 + s.test4Score - w3) / TwoTo64;
    assert a - w1 == k1 * TwoTo64;
    assert w1 + s.test3Score - w2 == k2 * TwoTo64;
    assert w2 + s.test4Score - w3 == k3 * TwoTo64;
    assert a + s.test3Score + s.test4Score - w3 == (k1 + k2 + k3) * TwoTo64;
  }

  /** The mean of the four scores, `float32(total) / 4` taken exactly. */
  function FinalScore(s: Student): real
  {
    Total(s) as real / 4.0
  }

  /** The grade switch: at least 70 is A, at least 50 B, at least 35 C, else F. */
  function GradeFor(finalScore: real): (g: Grade)
    ensures g != Ungraded
  {
    if finalScore >= 70.0 then A
    else if finalScore >= 50.0 && finalScore < 70.0 then B
    else if finalScore >= 35.0 && finalScore < 50.0 then C
    else F
  }

  /** The grade as an ordinal: F < C < B < A. */
  function Rank(g: Grade): nat
  {
    match g
    case Ungraded => 0
    case F => 0
    case C => 1
    case B => 2
    case A => 3
  }

  /**
   * On a mean of `total / 4` the grade thresholds fall on whole totals:
   * A from 280, B from 200, C from 140, F below.
   */
  lemma GradeThresholds(total: int)
    ensures GradeFor(total as real / 4.0) == A <==> total >= 280
    ensures GradeFor(total as real / 4.0) == B <==> 200 <= total < 280
    ensures GradeFor(total as real / 4.0) == C <==> 140 <= total < 200
    ensures GradeFor(total as real / 4.0) == F <==> total < 140
  {
  }

  /** A higher score never gets a lower grade. */
  lemma GradeMonotone(x: real, y: real)
    requires x <= y
    ensures Rank(GradeFor(x)) <= Rank(GradeFor(y))
  {
  }

  /**
   * `calculateGrade`: one record per student, in order, each embedding its
   * student unchanged, with the mean of its scores and the grade of that mean.
   */
  method CalculateGrade(students: seq<Student>) returns (stats: seq<StudentStat>)
    ensures |stats| == |students|
    ensures forall i | 0 <= i < |stats| ::
      && stats[i].student == students[i]
      && stats[i].finalScore * 4.0 == Total(students[i]) as real
      && stats[i].grade == GradeFor(stats[i].finalScore)
  {
    stats := [];
    for i := 0 to |students|
      invariant |stats| == i
      invariant forall j | 0 <= j < i ::
        && stats[j].student == students[j]
        && stats[j].finalScore * 4.0 == Total(students[j]) as real
        && stats[j].grade == GradeFor(stats[j].finalScore)
    {
      var student := students[i];
      var finalScore := FinalScore(student);
      var grade := GradeFor(finalScore);
      stats := stats + [StudentStat(student, finalScore, grade)];
    }
  }
}

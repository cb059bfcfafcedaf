/** The letter-grade classifier `getGrade` and the pass flag shown beside it. */
module Grades {

  datatype Grade = A | B | C | D | F {

    /** The string `getGrade` returns. */
    function Letter(): string {
      match this
      case A => "A"
      case B => "B"
      case C => "C"
      case D => "D"
      case F => "F"
    }

    /** Position in the order F < D < C < B < A. */
    function Rank(): nat {
      match this
      case F => 0
      case D => 1
      case C => 2
      case B => 3
      case A => 4
    }
  }

  /** Inclusive lower bounds of the bands A, B, C and D; everything lower is F. */
  const BoundA := 90
  const BoundB := 80
  const BoundC := 70
  const BoundD := 60

  /** Score at or above which a row reads "Passed". */
  const PassMark := 60

  /** `getGrade(score)`: total on integers, the bands checked highest first. */
  function GradeOf(score: int): (g: Grade)
    ensures g == A <==> BoundA <= score
    ensures g == B <==> BoundB <= score < BoundA
    ensures g == C <==> BoundC <= score < BoundB
    ensures g == D <==> BoundD <= score < BoundC
    ensures g == F <==> score < BoundD
  {
    if score >= BoundA then A
    else if score >= BoundB then B
    else if score >= BoundC then C
    else if score >= BoundD then D
    else F
  }

  /** The "Passed"/"Failed" flag of a result row: a row is "Passed" exactly
      when its grade is not F. */
  predicate Passed(score: int)
    ensures Passed(score) <==> GradeOf(score) != F
  {
    score >= PassMark
  }

  /** A higher score never earns a worse grade. */
  lemma GradeMonotone(s: int, t: int)
    requires s <= t
    ensures GradeOf(s).Rank() <= GradeOf(t).Rank()
  {
  }

  /** The letter shown is one of the five band letters, each a single character. */
  lemma LetterIsOneOfFive(score: int)
    ensures GradeOf(score).Letter() in {"A", "B", "C", "D", "F"}
    ensures |GradeOf(score).Letter()| == 1
  {
  }
}

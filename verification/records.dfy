/** The record types of main.go: `Grade`, `student` and `studentStat`. */
module Records {

  /**
   * A letter grade. Go's `Grade` is a string type; `Ungraded` stands for its
   * zero value `""`, which only the empty topper record carries.
   */
  datatype Grade = Ungraded | A | B | C | F

  /** One data row: names and university verbatim, four test scores. */
  datatype Student = Student(
    firstName: string,
    lastName: string,
    university: string,
    test1Score: int,
    test2Score: int,
    test3Score: int,
    test4Score: int)

  /**
   * A graded student. Go's `studentStat` embeds `student`; `finalScore` is the
   * mean of the four scores, kept as an exact real.
   */
  datatype StudentStat = StudentStat(student: Student, finalScore: real, grade: Grade)

  /** The zero value of `studentStat`: empty strings, zero scores, grade `""`. */
  const ZeroStat: StudentStat := StudentStat(Student("", "", "", 0, 0, 0, 0), 0.0, Ungraded)
}

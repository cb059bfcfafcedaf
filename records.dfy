/** The records shared by every component: a student, a ledger entry and the
    signed-in identity. */
module Records {

  /** A registered student; `id` is the roll number. */
  datatype Student = Student(id: string, name: string, email: string, classLabel: string, password: string)

  /** One score of one student in one subject. */
  datatype ResultEntry = ResultEntry(studentId: string, subject: string, score: int)

  /** The session principal: the `type` tag picks the variant, which carries that kind's fields; `classLabel` is the field named `class` (a keyword in Dafny). */
  datatype User =
    | Admin(name: string, username: string)
    | StudentUser(id: string, name: string, email: string, classLabel: string)
}

/** The two credential checks of the login page; each yields the identity to
    sign in with, or nothing when the check fails. */
module Login {
  import opened Wrappers
  import opened Seqs
  import opened Records

  /** The student form's test on one record: roll number and password both match it. */
  predicate CredentialsMatch(s: Student, rollNumber: string, password: string) {
    s.id == rollNumber && s.password == password
  }

  /** The identity a student signs in with, copied from the record. */
  function IdentityOf(s: Student): (u: User)
    ensures u.StudentUser?
    ensures u.id == s.id && u.name == s.name && u.email == s.email && u.classLabel == s.classLabel
  {
    StudentUser(s.id, s.name, s.email, s.classLabel)
  }

  /** `handleStudentLogin`: the first record matching both roll number and
      password on the same record, turned into a student identity. */
  function StudentLogin(students: seq<Student>, rollNumber: string, password: string): (r: Option<User>)
    ensures r.Some? <==> exists i :: 0 <= i < |students| && CredentialsMatch(students[i], rollNumber, password)
    ensures r.Some? ==> exists i :: 0 <= i < |students| && CredentialsMatch(students[i], rollNumber, password) &&
                                    (forall j :: 0 <= j < i ==> !CredentialsMatch(students[j], rollNumber, password)) &&
                                    r.value == StudentUser(students[i].id, students[i].name, students[i].email, students[i].classLabel)
    ensures r.Some? ==> r.value.StudentUser? && r.value.id == rollNumber
  {
    match Find((s: Student) => CredentialsMatch(s, rollNumber, password), students)
    case None => None
    case Some(s) => Some(IdentityOf(s))
  }

  /** A right roll number on one record and a right password on another do not sign in. */
  lemma SplitCredentialsRejected(students: seq<Student>, rollNumber: string, password: string)
    requires forall s :: s in students && s.id == rollNumber ==> s.password != password
    ensures StudentLogin(students, rollNumber, password) == None
  {
  }

  const AdminUsername := "admin"
  const AdminPassword := "admin123"
  const AdminName := "Administrator"

  /** `handleAdminLogin`: the one hard-coded pair, compared exactly (case-sensitive). */
  function AdminLogin(username: string, password: string): (r: Option<User>)
    ensures r.Some? <==> username == "admin" && password == "admin123"
    ensures r.Some? ==> r.value == Admin("Administrator", username)
  {
    if username == AdminUsername && password == AdminPassword then Some(Admin(AdminName, username)) else None
  }

  /** Changing the case of the admin username is enough to be refused. */
  lemma AdminLoginCaseSensitive()
    ensures AdminLogin("Admin", "admin123") == None
    ensures AdminLogin("admin", "ADMIN123") == None
  {
  }
}

/** Which top-level screen the page shows for the current session. */
module Routing {
  import opened Wrappers
  import opened Seqs
  import opened Records
  import opened Ledger

  datatype View =
    | LoginView(students: seq<Student>)
    | AdminView(admin: User, students: seq<Student>, results: seq<ResultEntry>)
    | StudentView(user: User, results: seq<ResultEntry>)

  /** The page's render: nobody signed in shows the login page, an admin sees
      the full lists, any other user sees only the ledger entries under their own roll number. */
  function Route(current: Option<User>, students: seq<Student>, results: seq<ResultEntry>): (v: View)
    ensures v.LoginView? <==> current.None?
    ensures v.LoginView? ==> v.students == students
    ensures v.AdminView? <==> current.Some? && current.value.Admin?
    ensures v.AdminView? ==> v.admin == current.value && v.students == students && v.results == results
    ensures v.StudentView? ==> current.Some? && v.user == current.value && current.value.StudentUser?
    ensures v.StudentView? ==> v.results == ResultsFor(results, current.value.id)
    ensures v.StudentView? ==> forall e :: e in v.results <==> e in results && e.studentId == current.value.id
    ensures v.StudentView? ==> forall e :: multiset(v.results)[e] ==
                                 if e.studentId == current.value.id then multiset(results)[e] else 0
  {
    match current
    case None => LoginView(students)
    case Some(user) =>
      match user
      case Admin(_, _) => AdminView(user, students, results)
      case StudentUser(id, _, _, _) => StudentView(user, ResultsFor(results, id))
  }

  /** A signed-in student is shown every entry of theirs, as often as the ledger
      holds it and in ledger order, and no one else's. */
  lemma StudentSeesOnlyOwnResults(user: User, students: seq<Student>, results: seq<ResultEntry>)
    requires user.StudentUser?
    ensures var v := Route(Some(user), students, results);
            v.StudentView? && IsSubsequence(v.results, results) &&
            (forall e :: e in v.results <==> e in results && e.studentId == user.id) &&
            (forall e :: multiset(v.results)[e] == if e.studentId == user.id then multiset(results)[e] else 0)
  {
  }
}

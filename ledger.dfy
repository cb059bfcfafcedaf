/** The result ledger: per-student filtering, the guarded submission of a new
    entry, the "recent results" view and the student-name lookup beside it. */
module Ledger {
  import opened Wrappers
  import opened Seqs
  import opened Records
  import opened Directory

  /** `results.filter(r => r.studentId === id)`: one student's entries, in ledger order. */
  function ResultsFor(results: seq<ResultEntry>, id: string): (r: seq<ResultEntry>)
    ensures IsSubsequence(r, results)
    ensures forall e :: e in r <==> e in results && e.studentId == id
    ensures forall e :: multiset(r)[e] == if e.studentId == id then multiset(results)[e] else 0
  {
    Filter((e: ResultEntry) => e.studentId == id, results)
  }

  /** Filtering by the same student twice is filtering once. */
  lemma ResultsForIdempotent(results: seq<ResultEntry>, id: string)
    ensures ResultsFor(ResultsFor(results, id), id) == ResultsFor(results, id)
  {
    FilterIdempotent((e: ResultEntry) => e.studentId == id, results);
  }

  const MinScore := 0
  const MaxScore := 100

  /** What the "Add Result" form does with a submission. */
  datatype Submission =
    | Accepted(entry: ResultEntry)
    | StudentNotFound
    | ScoreOutOfRange

  /** `handleSubmit`'s checks, in their order: the roll number must name a
      student, then the score must lie in 0..100; otherwise the entry to append. */
  function CheckSubmission(students: seq<Student>, studentId: string, subject: string, score: int): (r: Submission)
    ensures r.StudentNotFound? <==> forall s :: s in students ==> s.id != studentId
    ensures r.ScoreOutOfRange? <==> (exists s :: s in students && s.id == studentId) && (score < MinScore || score > MaxScore)
    ensures r.Accepted? <==> (exists s :: s in students && s.id == studentId) && MinScore <= score <= MaxScore
    ensures r.Accepted? ==> r.entry == ResultEntry(studentId, subject, score)
  {
    if FindById(students, studentId).None? then StudentNotFound
    else if score < MinScore || score > MaxScore then ScoreOutOfRange
    else Accepted(ResultEntry(studentId, subject, score))
  }

  /** The range check is inclusive at both ends: 0 and 100 are accepted, -1 and 101 are not. */
  lemma SubmissionBoundaries(students: seq<Student>, studentId: string, subject: string)
    requires exists s :: s in students && s.id == studentId
    ensures CheckSubmission(students, studentId, subject, 0).Accepted?
    ensures CheckSubmission(students, studentId, subject, 100).Accepted?
    ensures CheckSubmission(students, studentId, subject, -1) == ScoreOutOfRange
    ensures CheckSubmission(students, studentId, subject, 101) == ScoreOutOfRange
  {
  }

  /** An unknown roll number is reported whatever the score, so it wins over a bad score. */
  lemma UnknownStudentReportedFirst(students: seq<Student>, studentId: string, subject: string, score: int)
    requires forall s :: s in students ==> s.id != studentId
    ensures CheckSubmission(students, studentId, subject, score) == StudentNotFound
  {
  }

  const RecentCount := 5

  /** `results.slice(-5).reverse()`: at most five entries, newest first. */
  function Recent(results: seq<ResultEntry>): (r: seq<ResultEntry>)
    ensures |r| == if |results| < RecentCount then |results| else RecentCount
    ensures forall i :: 0 <= i < |r| ==> r[i] == results[|results| - 1 - i]
  {
    LastReversed(results, RecentCount)
  }

  /** The student column of a result row: the name of the first student with
      the entry's roll number, or `fallback` ("Unknown" on the dashboard,
      "Unknown Student" on the results page). */
  function StudentName(students: seq<Student>, studentId: string, fallback: string): (name: string)
    ensures (forall s :: s in students ==> s.id != studentId) ==> name == fallback
    ensures (exists s :: s in students && s.id == studentId) ==>
              exists i :: 0 <= i < |students| && students[i].id == studentId && name == students[i].name &&
                          forall j :: 0 <= j < i ==> students[j].id != studentId
  {
    match FindById(students, studentId)
    case None => fallback
    case Some(s) => s.name
  }
}

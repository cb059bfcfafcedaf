/** The summary cards of the admin dashboard, the student dashboard and the
    per-student card of the student list. */
module Dashboards {
  import opened Records
  import opened Grades
  import opened Ledger
  import opened Aggregates

  const TopMark := 90

  /** The four figures of the admin dashboard. */
  datatype AdminSummary = AdminSummary(totalStudents: nat, totalResults: nat, avgScore: int, topPerformers: nat)

  function AdminSummaryOf(students: seq<Student>, results: seq<ResultEntry>): (r: AdminSummary)
    ensures r.totalStudents == |students| && r.totalResults == |results|
    ensures r.avgScore == AverageScore(results)
    ensures r.topPerformers == CountAtLeast(results, TopMark)
    ensures r.topPerformers == |set i | 0 <= i < |results| && results[i].score >= TopMark|
    ensures r.topPerformers <= r.totalResults
    ensures r.topPerformers == r.totalResults <==> forall e :: e in results ==> e.score >= TopMark
    ensures results == [] ==> r.avgScore == 0 && r.topPerformers == 0
    ensures results != [] ==> MinScoreOf(results) <= r.avgScore <= MaxScoreOf(results)
  {
    var summary := AdminSummary(|students|, |results|, AverageScore(results), CountAtLeast(results, TopMark));
    if results == [] then summary
    else
      AverageBetweenExtremes(results);
      summary
  }

  /** The four figures of the student dashboard, over the student's own results. */
  datatype StudentSummary = StudentSummary(totalSubjects: nat, avgScore: int, highestScore: int, passedSubjects: nat)

  function StudentSummaryOf(results: seq<ResultEntry>): (r: StudentSummary)
    ensures r.totalSubjects == |results|
    ensures r.avgScore == AverageScore(results) && r.highestScore == HighestScore(results)
    ensures r.passedSubjects == CountAtLeast(results, PassMark)
    ensures r.passedSubjects == |set i | 0 <= i < |results| && results[i].score >= PassMark|
    ensures r.passedSubjects <= r.totalSubjects
    ensures r.passedSubjects == r.totalSubjects <==> forall e :: e in results ==> Passed(e.score)
    ensures results == [] ==> r.avgScore == 0 && r.highestScore == 0 && r.passedSubjects == 0
    ensures results != [] ==> (forall e :: e in results ==> e.score <= r.highestScore) &&
                              (exists e :: e in results && e.score == r.highestScore) &&
                              MinScoreOf(results) <= r.avgScore <= r.highestScore
    ensures ScoresWithin(results, MinScore, MaxScore) ==>
              MinScore <= r.avgScore <= MaxScore && MinScore <= r.highestScore <= MaxScore
  {
    var summary := StudentSummary(|results|, AverageScore(results), HighestScore(results), CountAtLeast(results, PassMark));
    if results == [] then summary
    else
      AverageBetweenExtremes(results);
      if ScoresWithin(results, MinScore, MaxScore) then
        AverageWithin(results, MinScore, MaxScore);
        summary
      else summary
  }

  /** The "Average" line of a student card: 0 without results, otherwise the
      rounded mean of the student's own scores, between their lowest and highest. */
  lemma StudentCardAverage(results: seq<ResultEntry>, id: string)
    ensures ResultsFor(results, id) == [] ==> AverageScore(ResultsFor(results, id)) == 0
    ensures ResultsFor(results, id) != [] ==>
              var own := ResultsFor(results, id);
              MinScoreOf(own) <= AverageScore(own) <= MaxScoreOf(own) &&
              forall e :: e in own ==> e in results && e.studentId == id
  {
    if ResultsFor(results, id) != [] {
      AverageBetweenExtremes(ResultsFor(results, id));
    }
  }

  /** Two results 95 and 88 average to round(91.5) = 92. */
  lemma AverageOfTwoExample()
    ensures AverageScore([ResultEntry("ST001", "Mathematics", 95), ResultEntry("ST001", "Physics", 88)]) == 92
  {
    var rs := [ResultEntry("ST001", "Mathematics", 95), ResultEntry("ST001", "Physics", 88)];
    assert rs[..1][..0] == [];
    assert TotalScore(rs) == 183;
  }
}

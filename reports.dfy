/** The text `viewStudentResults` shows for one student: a notice when the
    student has no results, otherwise a header and one line per result. */
module Reports {
  import opened Text
  import opened Records
  import opened Grades
  import opened Ledger

  function NoResultsMessage(s: Student): string {
    "No results found for " + s.name
  }

  function Header(s: Student): string {
    "Results for " + s.name + " (" + s.id + "):\n\n"
  }

  /** The line of one result: subject, score as a percentage, and grade letter. */
  function ResultLine(e: ResultEntry): string {
    e.subject + ": " + IntToString(e.score) + "% (" + GradeOf(e.score).Letter() + ")\n"
  }

  /** The lines of `rs`, one per result, in ledger order. */
  function Lines(rs: seq<ResultEntry>): (lines: seq<string>)
    ensures |lines| == |rs| && forall i :: 0 <= i < |rs| ==> lines[i] == ResultLine(rs[i])
  {
    seq(|rs|, i requires 0 <= i < |rs| => ResultLine(rs[i]))
  }

  /** Strings written one after another. */
  function Joined(parts: seq<string>): string {
    if parts == [] then "" else Joined(parts[..|parts| - 1]) + parts[|parts| - 1]
  }

  /** Joining a concatenation is concatenating the joins. */
  lemma {:induction false} JoinedAppend(a: seq<string>, b: seq<string>)
    ensures Joined(a + b) == Joined(a) + Joined(b)
    decreases |b|
  {
    if b == [] {
      assert a + b == a;
    } else {
      var b' := b[..|b| - 1];
      assert (a + b)[..|a + b| - 1] == a + b';
      JoinedAppend(a, b');
    }
  }

  /** Part `i` sits in the joined string right after the parts before it. */
  lemma PartAt(parts: seq<string>, i: nat)
    requires i < |parts|
    ensures var start := |Joined(parts[..i])|;
            start + |parts[i]| <= |Joined(parts)| &&
            Joined(parts)[start..start + |parts[i]|] == parts[i]
  {
    assert parts == parts[..i] + [parts[i]] + parts[i + 1..];
    JoinedAppend(parts[..i] + [parts[i]], parts[i + 1..]);
    JoinedAppend(parts[..i], [parts[i]]);
    assert Joined([parts[i]]) == parts[i] by {
      assert [parts[i]][..0] == [];
    }
  }

  /** In a report, the line of the `i`-th result of the student follows the lines of the earlier ones. */
  lemma ReportLineAt(rs: seq<ResultEntry>, i: nat)
    requires i < |rs|
    ensures var start := |Joined(Lines(rs[..i]))|;
            start + |ResultLine(rs[i])| <= |Joined(Lines(rs))| &&
            Joined(Lines(rs))[start..start + |ResultLine(rs[i])|] == ResultLine(rs[i])
  {
    var lines := Lines(rs);
    LinesPrefix(rs, i);
    PartAt(lines, i);
  }

  lemma LinesPrefix(rs: seq<ResultEntry>, i: nat)
    requires i <= |rs|
    ensures Lines(rs)[..i] == Lines(rs[..i])
  {
  }

  /** The alert text for `s` given the whole ledger: the notice when no entry
      carries the student's roll number, otherwise the header followed by the
      lines of exactly the student's entries, in ledger order. */
  function Report(s: Student, results: seq<ResultEntry>): (r: string)
    ensures ResultsFor(results, s.id) == [] ==> r == NoResultsMessage(s)
    ensures ResultsFor(results, s.id) != [] ==>
              |Header(s)| <= |r| && r[..|Header(s)|] == Header(s) &&
              r[|Header(s)|..] == Joined(Lines(ResultsFor(results, s.id)))
  {
    var own := ResultsFor(results, s.id);
    if own == [] then NoResultsMessage(s) else Header(s) + Joined(Lines(own))
  }

  /** `viewStudentResults`: the notice when the student has no results,
      otherwise the header followed by the results' lines. */
  method ViewStudentResults(s: Student, results: seq<ResultEntry>) returns (text: string)
    ensures text == Report(s, results)
  {
    var own := ResultsFor(results, s.id);
    if |own| == 0 {
      return NoResultsMessage(s);
    }
    text := AppendLines(Header(s), own);
  }

  /** One more part appended to a join. */
  lemma JoinedStep(parts: seq<string>, i: nat, prefix: string)
    requires i < |parts|
    ensures prefix + Joined(parts[..i + 1]) == (prefix + Joined(parts[..i])) + parts[i]
  {
    assert parts[..i + 1][..i] == parts[..i];
  }

  /** The `forEach` of `viewStudentResults`: appends the line of each result to `text`, in order. */
  method AppendLines(prefix: string, rs: seq<ResultEntry>) returns (text: string)
    ensures text == prefix + Joined(Lines(rs))
  {
    ghost var lines := Lines(rs);
    text := prefix;
    var i := 0;
    assert lines[..0] == [];
    while i < |rs|
      invariant 0 <= i <= |rs|
      invariant text == prefix + Joined(lines[..i])
    {
      JoinedStep(lines, i, prefix);
      text := text + ResultLine(rs[i]);
      i := i + 1;
    }
    assert lines[..i] == lines;
  }
}

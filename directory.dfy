/** The student directory: roll-number allocation, lookup by roll number and
    the case-insensitive search of the student list. */
module Directory {
  import opened Wrappers
  import opened Seqs
  import opened Text
  import opened Records

  /** A roll number the allocator can read: "ST" followed by at least one decimal digit. */
  predicate WellFormedId(id: string) {
    |id| >= 3 && id[0] == 'S' && id[1] == 'T' && AllDigits(id[2..])
  }

  predicate AllWellFormed(students: seq<Student>) {
    forall s :: s in students ==> WellFormedId(s.id)
  }

  /** No two records share a roll number. */
  predicate UniqueIds(students: seq<Student>) {
    forall i, j :: 0 <= i < j < |students| ==> students[i].id != students[j].id
  }

  /** `parseInt(id.slice(2))`: the numeric suffix of a roll number. */
  function Suffix(id: string): nat
    requires WellFormedId(id)
  {
    DigitsValue(id[2..])
  }

  /** Suffixes grow strictly along the directory. */
  predicate SuffixesIncreasing(students: seq<Student>)
    requires AllWellFormed(students)
  {
    forall i, j :: 0 <= i < j < |students| ==> Suffix(students[i].id) < Suffix(students[j].id)
  }

  /** Strictly increasing suffixes make the roll numbers unique. */
  lemma IncreasingSuffixesUnique(students: seq<Student>)
    requires AllWellFormed(students) && SuffixesIncreasing(students)
    ensures UniqueIds(students)
  {
  }

  /** `Math.max(...students.map(s => parseInt(s.id.slice(2))))` over a non-empty directory. */
  function MaxSuffix(students: seq<Student>): (m: nat)
    requires |students| > 0 && AllWellFormed(students)
    ensures forall s :: s in students ==> Suffix(s.id) <= m
    ensures exists s :: s in students && Suffix(s.id) == m
  {
    var first := Suffix(students[0].id);
    if |students| == 1 then first
    else
      var rest := MaxSuffix(students[1..]);
      assert forall s :: s in students ==> s == students[0] || s in students[1..];
      if first < rest then rest else first
  }

  const IdWidth := 3

  /** The roll number `addStudent` gives the next student: "ST" followed by the
      largest suffix plus one, zero-padded to at least three digits. It is well
      formed, its suffix is one more than the largest, and padding is the only
      source of leading zeros. */
  function NextId(students: seq<Student>): (r: string)
    requires |students| > 0 && AllWellFormed(students)
    ensures WellFormedId(r)
    ensures Suffix(r) == MaxSuffix(students) + 1
    ensures |r| >= 2 + IdWidth
    ensures |r| > 2 + IdWidth ==> r[2] != '0'
  {
    var digits := PadStart(Decimal(MaxSuffix(students) + 1), IdWidth, '0');
    PaddedDecimalRoundTrip(MaxSuffix(students) + 1, IdWidth);
    assert ("ST" + digits)[2..] == digits;
    "ST" + digits
  }

  /** The allocated roll number is held by no existing student. */
  lemma NextIdFresh(students: seq<Student>)
    requires |students| > 0 && AllWellFormed(students)
    ensures forall s :: s in students ==> s.id != NextId(students)
  {
  }

  /** Appending a student whose well-formed roll number has a suffix above the
      largest one (as the allocated one has) keeps the roll numbers well formed
      and their suffixes increasing. */
  lemma AppendAboveMaxKeepsIncreasing(students: seq<Student>, s: Student)
    requires |students| > 0 && AllWellFormed(students) && SuffixesIncreasing(students)
    requires WellFormedId(s.id) && Suffix(s.id) > MaxSuffix(students)
    ensures AllWellFormed(students + [s]) && SuffixesIncreasing(students + [s])
  {
    var grown := students + [s];
    forall t | t in grown ensures WellFormedId(t.id) {
      if t != s {
        assert t in students;
      }
    }
    forall i, j | 0 <= i < j < |grown|
      ensures Suffix(grown[i].id) < Suffix(grown[j].id)
    {
      assert grown[i] == students[i];
      if j == |students| {
        assert grown[j] == s;
        assert students[i] in students;
      } else {
        assert grown[j] == students[j];
      }
    }
  }

  /** `students.find(s => s.id === id)`. */
  function FindById(students: seq<Student>, id: string): (r: Option<Student>)
    ensures r.None? <==> forall s :: s in students ==> s.id != id
    ensures r.Some? ==> r.value in students && r.value.id == id
    ensures r.Some? ==> exists i :: 0 <= i < |students| && students[i] == r.value &&
                                    forall j :: 0 <= j < i ==> students[j].id != id
  {
    Find((s: Student) => s.id == id, students)
  }

  /** With unique roll numbers, lookup returns the one record holding the roll number. */
  lemma FindByIdUnique(students: seq<Student>, i: nat)
    requires UniqueIds(students) && i < |students|
    ensures FindById(students, students[i].id) == Some(students[i])
  {
  }

  /** The search predicate: the lower-cased term occurs in the lower-cased name, roll number or email. */
  predicate Matches(s: Student, term: string) {
    var t := Lower(term);
    Contains(Lower(s.name), t) || Contains(Lower(s.id), t) || Contains(Lower(s.email), t)
  }

  /** `filteredStudents`: the students matching `term`, in directory order. */
  function Search(students: seq<Student>, term: string): (r: seq<Student>)
    ensures IsSubsequence(r, students)
    ensures forall s :: s in r <==> s in students && Matches(s, term)
  {
    Filter((s: Student) => Matches(s, term), students)
  }

  /** An empty term keeps every student, in order. */
  lemma SearchEmptyTerm(students: seq<Student>)
    ensures Search(students, "") == students
  {
    forall s | s in students ensures Matches(s, "") {
      assert "" <= Lower(s.name)[0..];
    }
    FilterKeepsAll((s: Student) => Matches(s, ""), students);
  }

  /** The search depends on the term only through its lower-case form. */
  lemma SearchCaseInsensitive(students: seq<Student>, t1: string, t2: string)
    requires Lower(t1) == Lower(t2)
    ensures Search(students, t1) == Search(students, t2)
  {
    FilterCongruent((s: Student) => Matches(s, t1), (s: Student) => Matches(s, t2), students);
  }

  /** In particular searching for a term or its lower-case form gives the same list. */
  lemma SearchLowerTerm(students: seq<Student>, term: string)
    ensures Search(students, Lower(term)) == Search(students, term)
  {
    LowerIdempotent(term);
    SearchCaseInsensitive(students, Lower(term), term);
  }

  /** Searching the search result again with the same term changes nothing. */
  lemma SearchIdempotent(students: seq<Student>, term: string)
    ensures Search(Search(students, term), term) == Search(students, term)
  {
    FilterIdempotent((s: Student) => Matches(s, term), students);
  }
}

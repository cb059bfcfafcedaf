/** The page's state: the student directory, the result ledger, the signed-in
    user and the copy of that user kept in the browser's storage. */
module App {
  import opened Wrappers
  import opened Records
  import opened Directory
  import opened Ledger
  import opened Login
  import opened Text

  /** The directory the page starts with; ST005 is not among them. */
  function SeedStudents(): (st: seq<Student>)
    ensures |st| == 8
  {
    [ Student("ST001", "Murari Kumar", "murari@email.com", "12th", "murari123"),
      Student("ST002", "Pradeep Singh", "pradeep@email.com", "11th", "pradeep123"),
      Student("ST003", "Pushpa Raj", "pushpa@email.com", "12th", "pushpa123"),
      Student("ST004", "Satyam Kumar", "satyam@email.com", "10th", "satyam123"),
      Student("ST006", "Manvi Singh", "manvi@email.com", "11th", "manvi123"),
      Student("ST007", "A Singh", "a@email.com", "11th", "a123"),
      Student("ST008", "B Singh", "b@email.com", "11th", "b123"),
      Student("ST009", "C Singh", "c@email.com", "11th", "c123") ]
  }

  /** The ledger the page starts with. */
  function SeedResults(): (rs: seq<ResultEntry>)
    ensures |rs| == 9
    ensures forall e :: e in rs ==> MinScore <= e.score <= MaxScore
  {
    [ ResultEntry("ST001", "Mathematics", 95),
      ResultEntry("ST001", "Physics", 88),
      ResultEntry("ST002", "Chemistry", 82),
      ResultEntry("ST002", "English", 90),
      ResultEntry("ST003", "History", 85),
      ResultEntry("ST006", "History", 85),
      ResultEntry("ST007", "English", 90),
      ResultEntry("ST008", "History", 85),
      ResultEntry("ST009", "History", 85) ]
  }

  /** What the allocator needs of a directory, and what it keeps: at least one
      student, every roll number "ST" plus digits, suffixes strictly increasing
      in directory order. */
  predicate DirectoryValid(students: seq<Student>) {
    |students| > 0 && AllWellFormed(students) && SuffixesIncreasing(students)
  }

  /** The suffix of a five-character roll number "ST" + three digits. */
  lemma ThreeDigitSuffix(id: string)
    requires |id| == 5 && id[0] == 'S' && id[1] == 'T' && IsDigit(id[2]) && IsDigit(id[3]) && IsDigit(id[4])
    ensures WellFormedId(id)
    ensures Suffix(id) == 100 * DigitValue(id[2]) + 10 * DigitValue(id[3]) + DigitValue(id[4])
  {
    var d := id[2..];
    var d1, d2 := d[..1], d[..2];
    assert d2[..1] == d1 && d1[..0] == [];
    assert DigitsValue(d1) == DigitValue(id[2]);
    assert DigitsValue(d2) == 10 * DigitValue(id[2]) + DigitValue(id[3]);
    assert DigitsValue(d) == 10 * DigitsValue(d2) + DigitValue(id[4]);
  }

  /** The seed's suffixes are 1, 2, 3, 4, then 6, 7, 8, 9. */
  lemma SeedSuffixes()
    ensures AllWellFormed(SeedStudents())
    ensures forall i :: 0 <= i < |SeedStudents()| ==> Suffix(SeedStudents()[i].id) == if i < 4 then i + 1 else i + 2
  {
    var st := SeedStudents();
    ThreeDigitSuffix(st[0].id);
    ThreeDigitSuffix(st[1].id);
    ThreeDigitSuffix(st[2].id);
    ThreeDigitSuffix(st[3].id);
    ThreeDigitSuffix(st[4].id);
    ThreeDigitSuffix(st[5].id);
    ThreeDigitSuffix(st[6].id);
    ThreeDigitSuffix(st[7].id);
  }

  /** The seed directory satisfies what the allocator needs. */
  lemma SeedValid()
    ensures DirectoryValid(SeedStudents())
  {
    SeedSuffixes();
  }

  /** The largest suffix of the seed is 9. */
  lemma SeedMaxSuffix()
    ensures AllWellFormed(SeedStudents()) && |SeedStudents()| > 0
    ensures MaxSuffix(SeedStudents()) == 9
  {
    SeedSuffixes();
    var st := SeedStudents();
    assert Suffix(st[7].id) == 9 && st[7] in st;
    forall s | s in st ensures Suffix(s.id) <= 9 {
      var i :| 0 <= i < |st| && st[i] == s;
    }
  }

  /** The roll number allocated after a largest suffix of 9 is ST010. */
  lemma AfterNineIsTen()
    ensures "ST" + PadStart(Decimal(9 + 1), IdWidth, '0') == "ST010"
  {
    var ten := Decimal(10);
    assert ten == "10" by {
      assert Decimal(1) == "1";
    }
    assert PadStart(ten, IdWidth, '0') == "010" by {
      assert Repeat('0', 1) == "0";
    }
  }

  /** The next roll number after the seed is ST010: the gap at ST005 is not reused. */
  lemma SeedNextId()
    ensures AllWellFormed(SeedStudents()) && |SeedStudents()| > 0
    ensures NextId(SeedStudents()) == "ST010"
  {
    SeedMaxSuffix();
    AfterNineIsTen();
  }

  /** Against the seed, ST001 signs in with its own password and not with a wrong one. */
  lemma SeedStudentLogin()
    ensures StudentLogin(SeedStudents(), "ST001", "murari123") ==
            Some(StudentUser("ST001", "Murari Kumar", "murari@email.com", "12th"))
    ensures StudentLogin(SeedStudents(), "ST001", "wrong") == None
  {
    var st := SeedStudents();
    assert CredentialsMatch(st[0], "ST001", "murari123");
    forall i | 0 <= i < |st| ensures !CredentialsMatch(st[i], "ST001", "wrong") {
    }
  }

  /** Searching the seed for "murari" finds "Murari Kumar" although the case differs. */
  lemma SeedSearchIgnoresCase()
    ensures SeedStudents()[0] in Search(SeedStudents(), "murari")
  {
    var st := SeedStudents();
    var name := Lower(st[0].name);
    assert Lower("murari") == "murari";
    assert name[..6] == "murari";
    assert "murari" <= name[0..];
    assert Matches(st[0], "murari");
  }

  class Gradebook {
    var students: seq<Student>
    var results: seq<ResultEntry>
    /** `currentUser`. */
    var current: Option<User>
    /** The browser-storage copy of the signed-in user. */
    var stored: Option<User>

    ghost predicate Valid()
      reads this
    {
      DirectoryValid(students)
    }

    /** Mounting the page with whatever the browser storage holds; nobody is signed in yet. */
    constructor (persisted: Option<User>)
      ensures Valid()
      ensures students == SeedStudents() && results == SeedResults()
      ensures current == None && stored == persisted
    {
      students := SeedStudents();
      SeedValid();
      results := SeedResults();
      current := None;
      stored := persisted;
    }

    /** The mount effect: a stored user becomes the current user, unchecked. */
    method Restore()
      modifies this`current
      ensures current == if old(stored).Some? then old(stored) else old(current)
    {
      if stored.Some? {
        current := stored;
      }
    }

    /** `handleLogin`: the user becomes current and is stored. */
    method SignIn(user: User)
      modifies this`current, this`stored
      ensures current == Some(user) && stored == Some(user)
    {
      current := Some(user);
      stored := Some(user);
    }

    /** `handleLogout`: nobody is current and nothing is stored. */
    method Logout()
      modifies this`current, this`stored
      ensures current == None && stored == None
    {
      current := None;
      stored := None;
    }

    /** The student form: signs in on matching credentials, otherwise changes nothing. */
    method LoginStudent(rollNumber: string, password: string) returns (ok: bool)
      modifies this`current, this`stored
      ensures ok == StudentLogin(students, rollNumber, password).Some?
      ensures ok ==> current == stored == StudentLogin(students, rollNumber, password)
      ensures !ok ==> current == old(current) && stored == old(stored)
    {
      var user := StudentLogin(students, rollNumber, password);
      ok := user.Some?;
      if ok {
        SignIn(user.value);
      }
    }

    /** The admin form: signs in on the hard-coded pair, otherwise changes nothing. */
    method LoginAdmin(username: string, password: string) returns (ok: bool)
      modifies this`current, this`stored
      ensures ok <==> username == "admin" && password == "admin123"
      ensures ok ==> current == stored == Some(Admin("Administrator", username))
      ensures !ok ==> current == old(current) && stored == old(stored)
    {
      var user := AdminLogin(username, password);
      ok := user.Some?;
      if ok {
        SignIn(user.value);
      }
    }

    /** `addStudent`: appends a record under the next roll number and returns it. */
    method AddStudent(name: string, email: string, classLabel: string, password: string) returns (student: Student)
      requires Valid()
      modifies this`students
      ensures Valid()
      ensures student == Student(NextId(old(students)), name, email, classLabel, password)
      ensures students == old(students) + [student]
      ensures forall s :: s in old(students) ==> s.id != student.id
      ensures UniqueIds(students)
    {
      var id := NextId(students);
      NextIdFresh(students);
      student := Student(id, name, email, classLabel, password);
      AppendAboveMaxKeepsIncreasing(students, student);
      students := students + [student];
      IncreasingSuffixesUnique(students);
    }

    /** `addResult`: appends the entry, unchecked. */
    method AddResult(entry: ResultEntry)
      modifies this`results
      ensures results == old(results) + [entry]
    {
      results := results + [entry];
    }

    /** The "Add Result" form: appends the entry only when the roll number names a
        student and the score is in 0..100, and reports which check failed otherwise. */
    method SubmitResult(studentId: string, subject: string, score: int) returns (outcome: Submission)
      modifies this`results
      ensures outcome == CheckSubmission(students, studentId, subject, score)
      ensures results == if outcome.Accepted? then old(results) + [outcome.entry] else old(results)
      ensures outcome.Accepted? ==> exists s :: s in students && s.id == outcome.entry.studentId
    {
      outcome := CheckSubmission(students, studentId, subject, score);
      if outcome.Accepted? {
        AddResult(outcome.entry);
      }
    }
  }
}

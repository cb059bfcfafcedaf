# StudentHub gradebook — a Dafny model

StudentHub is a small in-browser result-management page. An administrator
registers students and records subject scores. A student signs in with a roll
number and password and sees their own scores. This project models the rules
behind those screens, without the rendering:

- the letter-grade classifier `getGrade`. It is defined identically in four
  components (`ResultsManagement.tsx:36-42`, `StudentsManagement.tsx:36-42`,
  `AdminDashboard.tsx:45-51`, `StudentDashboard.tsx:29-35`); here it is one
  function, `Grades.GradeOf`;
- the student directory: roll-number allocation (`"ST"` + largest numeric
  suffix + 1, zero-padded to three digits), lookup by roll number, and the
  case-insensitive search of the student list;
- the result ledger: the guarded "Add Result" submission (unknown roll number
  first, then the 0..100 score range), the unchecked append, per-student
  filtering, the "recent five, newest first" view and the name shown beside a
  row;
- the dashboard figures: totals, rounded mean, highest score, pass count
  (score ≥ 60) and top-performer count (score ≥ 90);
- the text of the "View Results" alert, built by a loop;
- the two login checks, the session state (current user plus the copy kept in
  browser storage) with sign-in, logout and restore, and the choice of screen.

Modules split the code by concern rather than by React component. `Wrappers`, `Seqs` and `Text` hold the
JavaScript library behaviour the code relies on (`find`, `filter`,
`slice(-k).reverse()`, `parseInt`, `String(n)`, `padStart`, `toLowerCase`,
`includes`). `Records` holds the shared record shapes. `Grades`, `Directory`,
`Ledger`, `Aggregates`, `Dashboards`, `Reports`, `Login` and `Routing` hold the
rules. `App` holds the page state as the class `Gradebook`, whose methods
change it in place. `Gradebook.Valid()` keeps the directory non-empty, every
roll number `"ST"` followed by digits, and the suffixes strictly increasing in
directory order. `AddStudent` preserves this, which gives unique roll numbers.

`Math.round(sum / n)` is modelled exactly in integers as
`(2*sum + n) / (2*n)` for `n > 0`. Dafny's `/` floors for a positive divisor,
so this rounds halves towards +infinity, as `Math.round` does.

Behaviour of the code that the model keeps as it is:

- Student login takes the first record whose roll number and password both
  match (`src/components/LoginPage.tsx:41-43`).
- The allocator has no result on an empty directory: `Math.max()` of no
  values is -Infinity (`src/pages/Index.tsx:76`). `NextId` therefore requires a
  non-empty directory of well-formed roll numbers.
- Averages are rounded by `Math.round`: a half goes up, also for a negative mean.
- Restore makes the stored identity current without checking it
  (`src/pages/Index.tsx:56-61`).

## Model

| member | source | states |
|---|---|---|
| Grades.GradeOf | src/components/ResultsManagement.tsx:36-42 | total on integers; grade A iff score ≥ 90, B iff 80 ≤ score < 90, C iff 70 ≤ score < 80, D iff 60 ≤ score < 70, F iff score < 60 |
| Grades.GradeMonotone | src/components/AdminDashboard.tsx:45-51 | a higher score never gets a worse grade |
| Grades.LetterIsOneOfFive | src/components/StudentDashboard.tsx:29-35 | the letter returned is one of "A","B","C","D","F" |
| Grades.Passed | src/components/ResultsManagement.tsx:124 | a row is "Passed" (score ≥ 60) exactly when its grade is not F |
| Text.DecimalRoundTrip | src/pages/Index.tsx:76 | reading back the decimal form of n gives n |
| Text.PaddedDecimalRoundTrip | src/pages/Index.tsx:76 | the zero-padded decimal form of n is all digits and reads back as n |
| Text.PadStart | src/pages/Index.tsx:76 | `padStart`: length max(len, width), the original string at the end, fill characters before it |
| Text.IntToString | src/components/StudentsManagement.tsx:55 | `String(score)`: non-negative scores print as digits reading back as the score; negative ones as '-' then the digits of its magnitude; no leading zero in either case |
| Text.Lower | src/components/StudentsManagement.tsx:26-30 | ASCII `toLowerCase`: same length, each character lowered |
| Text.Contains | src/components/StudentsManagement.tsx:26-30 | `includes`: true iff the term occurs at some position (the empty term always does) |
| Directory.MaxSuffix | src/pages/Index.tsx:76 | on a non-empty directory of "ST"+digits ids: at least every numeric suffix and equal to one of them |
| Directory.NextId | src/pages/Index.tsx:76 | the new id is "ST" + digits, at least 5 characters, with suffix exactly the largest existing suffix + 1; a digit part longer than three has no leading zero |
| Directory.NextIdFresh | src/pages/Index.tsx:76 | the new id differs from every existing id |
| Directory.AppendAboveMaxKeepsIncreasing | src/pages/Index.tsx:75-80 | appending a record whose well-formed id has a suffix above the largest keeps ids well formed and suffixes increasing |
| Directory.IncreasingSuffixesUnique | src/pages/Index.tsx:75-80 | suffixes that increase along the directory make roll numbers unique |
| Directory.FindById | src/components/ResultsManagement.tsx:47 | `find` by roll number: absent iff no student has it; otherwise the first student that has it |
| Directory.FindByIdUnique | src/components/AdminDashboard.tsx:183 | with unique roll numbers, lookup returns exactly the record holding the roll number |
| Directory.Search | src/components/StudentsManagement.tsx:26-30 | order-preserving subsequence of the students; a student is kept iff lower(term) occurs in lower(name), lower(id) or lower(email) |
| Directory.SearchEmptyTerm | src/components/StudentsManagement.tsx:24-30 | the empty term (the initial search box) returns every student in original order |
| Directory.SearchCaseInsensitive | src/components/StudentsManagement.tsx:27-29 | two terms with the same lower-case form give the same result |
| Directory.SearchLowerTerm | src/components/StudentsManagement.tsx:26-30 | searching for lower(term) is the same as searching for term |
| Directory.SearchIdempotent | src/components/StudentsManagement.tsx:26 | filtering the filtered list by the same term changes nothing |
| Ledger.ResultsFor | src/components/StudentsManagement.tsx:32-34 | exactly the entries with that roll number, each as often as in the ledger, in ledger order |
| Ledger.ResultsForIdempotent | src/components/StudentsManagement.tsx:32-33 | filtering a student's entries again by the same student changes nothing |
| Ledger.CheckSubmission | src/components/ResultsManagement.tsx:44-63 | "not found" iff no student has the roll number; "out of range" iff the student exists and the score is < 0 or > 100; otherwise accepted with entry {studentId, subject, score} |
| Ledger.SubmissionBoundaries | src/components/ResultsManagement.tsx:53-57 | for an existing student, scores 0 and 100 are accepted and -1 and 101 rejected |
| Ledger.UnknownStudentReportedFirst | src/components/ResultsManagement.tsx:47-51 | an unknown roll number is reported whatever the score, so it wins when both checks fail |
| Ledger.Recent | src/components/AdminDashboard.tsx:58 | `slice(-5).reverse()`: length min(5, n), i-th element is results[n-1-i] |
| Ledger.StudentName | src/components/AdminDashboard.tsx:183-188 | the name of the first student with the entry's roll number, or the fallback ("Unknown") when there is none |
| Aggregates.TotalScore | src/components/AdminDashboard.tsx:55 | the `reduce` total: 0 for no results, the score itself for one |
| Aggregates.TotalScoreFromFront | src/components/AdminDashboard.tsx:55 | the total of a non-empty list is its first score plus the total of the rest: the sum taken from the front, as `reduce` folds |
| Aggregates.TotalWithin | src/components/AdminDashboard.tsx:55 | the `reduce` total of n scores in lo..hi lies in n*lo..n*hi |
| Aggregates.RoundedMean | src/components/StudentDashboard.tsx:38 | `Math.round(total/n)`: the integer m with m - 1/2 ≤ total/n < m + 1/2 |
| Aggregates.RoundedMeanWithin | src/components/StudentsManagement.tsx:84 | a rounded mean of a total between n*lo and n*hi lies in lo..hi |
| Aggregates.AverageScore | src/components/AdminDashboard.tsx:55 | 0 for no results; otherwise the rounded mean of the total over the count: 2n·a ≤ 2·total + n < 2n·a + 2n |
| Aggregates.AverageWithin | src/components/StudentDashboard.tsx:38-39 | scores all in lo..hi give an average in lo..hi |
| Aggregates.MaxScoreOf | src/components/StudentDashboard.tsx:39 | `Math.max` over the scores: at least every score and equal to one of them |
| Aggregates.HighestScore | src/components/StudentDashboard.tsx:37-39 | 0 for no results; otherwise at least every score and equal to one |
| Aggregates.AverageBetweenExtremes | src/components/AdminDashboard.tsx:55 | a non-empty list's average lies between its lowest and highest score |
| Aggregates.CountAtLeast | src/components/StudentDashboard.tsx:40 | exactly the number of positions holding a score ≥ threshold; at most the list length, equal to it iff every score passes, 0 if none does |
| Dashboards.AdminSummaryOf | src/components/AdminDashboard.tsx:53-56 | totals equal the list lengths; average is AverageScore of the ledger; top performers is the number of positions with score ≥ 90, ≤ total results, equal iff all scores ≥ 90; average 0 when empty, else between lowest and highest score |
| Dashboards.StudentSummaryOf | src/components/StudentDashboard.tsx:37-40 | subjects = list length; average is AverageScore and highest is HighestScore of the list; passed is the number of positions with score ≥ 60, ≤ subjects, equal iff all pass; 0/0 when empty; else highest ≥ every score and attained, lowest ≤ average ≤ highest; scores in 0..100 keep average and highest in 0..100 |
| Dashboards.StudentCardAverage | src/components/StudentsManagement.tsx:82-85 | a student card's average is 0 without results, else between that student's lowest and highest score |
| Dashboards.AverageOfTwoExample | src/components/StudentsManagement.tsx:83-85 | scores 95 and 88 average to 92 |
| Reports.Report | src/components/StudentsManagement.tsx:44-58 | the notice when the student has no entries; otherwise the header followed by exactly the lines of the student's entries, in ledger order |
| Reports.ReportLineAt | src/components/StudentsManagement.tsx:53-56 | the i-th result's line follows the lines of the earlier results, in ledger order |
| Reports.AppendLines | src/components/StudentsManagement.tsx:52-56 | the loop leaves the start text followed by one line per result, in order |
| Reports.ViewStudentResults | src/components/StudentsManagement.tsx:44-58 | "No results found for <name>" when the student has no entries; otherwise the header then one "subject: score% (grade)" line per entry, in ledger order |
| Login.IdentityOf | src/components/LoginPage.tsx:46-52 | a student identity carrying the record's roll number, name, email and class, and no password |
| Login.StudentLogin | src/components/LoginPage.tsx:39-56 | succeeds iff one record matches both roll number and password; the identity is a student identity copied from the first such record |
| Login.SplitCredentialsRejected | src/components/LoginPage.tsx:41-43 | a right roll number on one record and a right password on another do not sign in |
| Login.AdminLogin | src/components/LoginPage.tsx:58-69 | succeeds iff username is exactly "admin" and password exactly "admin123"; identity admin, name "Administrator", username as entered |
| Login.AdminLoginCaseSensitive | src/components/LoginPage.tsx:60 | "Admin"/"admin123" and "admin"/"ADMIN123" are refused |
| Routing.Route | src/pages/Index.tsx:88-111 | login screen iff nobody is signed in; admin screen with the full lists iff an admin is; otherwise the student screen with exactly that student's entries (ResultsFor), each as often as in the ledger |
| Routing.StudentSeesOnlyOwnResults | src/pages/Index.tsx:105-111 | the student screen gets an order-preserving subsequence of the ledger holding exactly the entries with the student's roll number, each as often as the ledger holds it |
| App.SeedStudents | src/pages/Index.tsx:32-41 | the initial directory has eight records |
| App.SeedResults | src/pages/Index.tsx:43-53 | the initial ledger has nine entries, every score in 0..100 |
| App.SeedValid | src/pages/Index.tsx:32-41 | the initial directory is non-empty, well formed and has increasing suffixes |
| App.SeedMaxSuffix | src/pages/Index.tsx:32-41 | the initial directory's largest suffix is 9 |
| App.SeedNextId | src/pages/Index.tsx:76 | after the initial directory the next id is ST010: the gap at ST005 is not reused |
| App.SeedStudentLogin | src/components/LoginPage.tsx:41-52 | ST001/murari123 signs in as Murari Kumar; ST001/wrong does not |
| App.SeedSearchIgnoresCase | src/components/StudentsManagement.tsx:27 | "murari" finds "Murari Kumar" |
| App.Gradebook.constructor | src/pages/Index.tsx:31-53 | starts with the initial directory and ledger, nobody signed in, storage as given |
| App.Gradebook.Restore | src/pages/Index.tsx:56-61 | a stored user becomes current without checks; with nothing stored nothing changes |
| App.Gradebook.SignIn | src/pages/Index.tsx:63-67 | current user and stored copy are both the given identity |
| App.Gradebook.Logout | src/pages/Index.tsx:69-73 | current user and stored copy are both absent |
| App.Gradebook.LoginStudent | src/components/LoginPage.tsx:45-55 | on a match both slots hold the student identity; on failure the session is unchanged |
| App.Gradebook.LoginAdmin | src/components/LoginPage.tsx:60-68 | on the admin pair both slots hold the admin identity; on failure the session is unchanged |
| App.Gradebook.AddStudent | src/pages/Index.tsx:75-81 | appends exactly one record with the next id and the given fields, returns it; earlier records unchanged; the id is fresh and roll numbers stay unique |
| App.Gradebook.AddResult | src/pages/Index.tsx:83-86 | appends exactly the given entry at the end; earlier entries and order unchanged |
| App.Gradebook.SubmitResult | src/components/ResultsManagement.tsx:44-70 | outcome as CheckSubmission; ledger grows by exactly the entry when accepted and is unchanged otherwise; an accepted entry names a present student |

## Left out

- Rendering, CSS classes (including the four-colour score tint), tabs, modals and form widgets: presentation only.
- `alert` and `console.log`: the model returns an outcome or the alert's text instead.
- Browser storage and `JSON.stringify`/`JSON.parse`: the stored user is the field `stored: Option<User>`. A stored value of some other shape is not modelled, because `User` is a tagged union.
- React update batching: `addStudent` reads the render-time list and appends through an updater. The model treats both as the same list.
- `parseInt` of the score field: the score is an already-parsed integer. A NaN score would pass the range check at `src/components/ResultsManagement.tsx:54`, since both comparisons are false. The form's `type="number" required` attributes prevent this input, so it is not modelled.
- Directory.Suffix: models `parseInt` only on digit strings and with unbounded integers. It does not model `parseInt` reading a digit prefix of a mixed string, NaN for a non-numeric suffix, or precision loss above 2^53. Valid directories never reach those cases.
- Directory.NextId: requires a non-empty directory of well-formed roll numbers. The code computes "STNaN" or "ST-Infinity" otherwise.
- Text.Lower: ASCII case folding only, not full Unicode `toLowerCase`.
- Floating-point division in `Math.round(sum/n)`: replaced by the exact integer formula.
- Browser form validation (`required`, `min`/`max`, `type="email"`) and the fixed class drop-down: enforced by the widgets, not by the code.

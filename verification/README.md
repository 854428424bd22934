# go-student-grading in Dafny

A model of the grading core of `go-student-grading` (`main.go`). The program
reads a comma-separated file of students, each with four test scores. It
discards the header line and turns every other line into a `student`
(`extractStudents`). It gives each student a mean score and a letter grade
(`calculateGrade`). It then picks the best student overall
(`findOverallTopper`) and the best student of each university
(`findTopperPerUniversity`).

The model keeps the Go program's form:

- The four stages are methods with loops that grow their result: `append`
  becomes `stats := stats + [...]`, the running topper is a local variable,
  and the per-university map is a `map` variable updated in the loop.
- Each loop method is proved against a specification:
  - `ExtractStudents` against `MapAll` over the data lines, whose
    all-or-nothing behaviour is proved once in `MapAllSpec`;
  - `CalculateGrade` against the pure grade switch `GradeFor`;
  - the two rankers against the predicates `IsOverallTopper` and
    `IsUniversityTopper`.
- The library calls the parser relies on are modelled too, so that what a
  row turns into is stated in the model's own terms:
  - `strings.Split` becomes `Strs.Split`, with `Strs.Join` as its inverse;
  - `strconv.Atoi` becomes `Strconv.Atoi`, with `Strconv.Itoa` as its inverse.

Files:

- `results.dfy` holds `Result` and `MapAll`: apply a fallible step to each
  element and stop at the first error.
- `strs.dfy` holds `Split`, `Join` and `Count`.
- `strconv.dfy` holds `Atoi` and `Itoa` for Go's 64-bit `int`.
- `records.dfy` holds `Grade`, `Student` and `StudentStat`.
- `parser.dfy` holds `extractStudents`.
- `grading.dfy` holds `calculateGrade` and the grade switch.
- `rankers.dfy` holds `findOverallTopper` and `findTopperPerUniversity`.

Behaviour kept from the code:

- **Wrong field count.** A data line with fewer than seven fields is indexed
  out of range in Go (`line[k]`), which is a run-time panic. This includes a
  blank line, which splits into one empty field. The model returns that
  panic as the error `IndexOutOfRange(k, n)`, in Go's evaluation order: field
  3 is converted before field 4 is indexed, and so on. A blank line therefore
  gives `IndexOutOfRange(3, 1)`. Blank lines are not skipped, and fields
  after the seventh are ignored.
- **Integer conversion.** `strconv.Atoi` accepts an optional `+` or `-` and
  one or more decimal digits, with a value in [-2^63, 2^63-1].
  - A sign and digits whose value lies outside [-2^63, 2^63-1] is a range
    error.
  - So is a field whose leading run of digits (after the sign) already
    exceeds the `uint64` range, even if a non-digit follows: the scan stops
    there.
  - Any other bad input is a syntax error.
  - The error carries the whole field.
- **Overflowing sums.** The four scores are added in Go's `int`, so a sum
  outside the 64-bit range wraps around (`Grading.Wrap`).
- **Zero record.** `findOverallTopper` starts from the zero `studentStat`
  and replaces it only on a strictly greater score. When no score is
  positive, it returns that zero record: empty names, score 0 and the empty
  grade (`Ungraded` in the model), which is not an input element. A natural
  reading of the program's purpose would expect the best input record even
  when every score is zero or negative. The model follows the code.
- **Ties.** In both rankers, the first record with the top score wins ties.

## Model

| member | source | states |
|---|---|---|
| Results.MapAll | main.go:72-107 | The data-line loop as a fold that stops at the first error; MapAllSpec states it. |
| Results.MapAllSpec | main.go:72-107 | The data-line loop is all or nothing. It succeeds exactly when every line parses, and then yields one result per line in line order, each the line's own parse. Otherwise it fails with the error of the first line that does not parse, and every earlier line parsed. |
| Strs.Split | main.go:73 | `strings.Split` on the separator yields at least one piece, and no piece contains the separator. |
| Strs.SplitCount | main.go:73 | Split yields one more piece than the line has separators. |
| Strs.JoinSplit | main.go:73 | Joining the pieces of a split with the separator gives back the line. |
| Strs.SplitJoin | main.go:73 | Splitting a join of separator-free pieces gives back the pieces. |
| Strconv.ScanDigitsSpec | main.go:75 | The digit loop of the conversion. On an all-digit string it returns the string's value, or a range error when that value exceeds `uint64`. On any other string it fails. |
| Strconv.ScanDigits | main.go:75 | The digit loop behind the conversion; ScanDigitsSpec and ScanDigitsRange state it. |
| Strconv.ScanDigitsRange | main.go:75 | The digit loop stops with a range error exactly when the leading run of digits exceeds the `uint64` range. |
| Strconv.Atoi | main.go:75 | `strconv.Atoi` on a 64-bit platform; AtoiSpec, AtoiErrorKind and AtoiItoa state it. |
| Strconv.AtoiSpec | main.go:75-94 | The conversion succeeds exactly on an optional sign followed by one or more digits whose value fits Go's 64-bit `int`, and then returns that value. A sign and digits outside that range give a range error. A failure names the whole field. |
| Strconv.AtoiErrorKind | main.go:75-94 | A failed conversion is a range error exactly when the digits form a decimal outside Go's `int`, or their leading run exceeds the `uint64` range; otherwise it is a syntax error. |
| Strconv.AtoiItoa | main.go:75 | Every 64-bit `int` written in decimal converts back to itself. |
| Parser.ScoreField | main.go:75-94 | Field `k` converted with `strconv.Atoi`: a missing field is `IndexOutOfRange(k, n)` for a row of `n` fields; otherwise it succeeds exactly when Atoi does, with Atoi's value, and a malformed field fails with Atoi's error in `BadScore`. |
| Parser.ScoreFields | main.go:75-94 | Converting fields `k` to 6 in order yields, on success, one value per field, and only when the row has at least seven fields; ScoreFieldsSpec states the rest. |
| Parser.ParseRow | main.go:73-104 | One data line turned into a student; ParseRowSpec and ParseFormatRow state it. |
| Parser.ScoreFieldsSpec | main.go:75-94 | Fields 3 to 6 are converted in order. The result is all four values exactly when each field exists and converts. Otherwise it is the error of the first field that is missing (an out-of-range index) or malformed (the conversion's error). |
| Parser.ParseRowSpec | main.go:73-104 | A line gives a student exactly when it has at least seven fields and fields 3 to 6 convert. The student holds fields 0 to 2 verbatim and the converted fields 3 to 6; later fields are ignored. A rejected line reports its first missing or malformed score field. |
| Parser.DataLines | main.go:69-72 | The header is dropped: the data lines are all lines but the first, in order. |
| Parser.ExtractStudents | main.go:66-108 | The loop's result is the all-or-nothing parse of the data lines (`MapAll`). An empty or header-only input gives no students and no error. |
| Parser.ParseFormatRow | main.go:73-104 | A student whose names hold no comma and whose scores fit `int` is read back exactly from the line that writes it out. |
| Parser.ExtractFormatted | main.go:66-108 | A file of written-out students, under any header, is read back as those students in the same order. |
| Parser.MalformedRowFails | main.go:73-94 | The line `Jane,Doe,MIT,70,70,70,x` fails with the syntax error for its last field. |
| Grading.Wrap | main.go:118 | Go's 64-bit `int` addition: the result is in range, congruent to the exact sum modulo 2^64, and equal to it when the sum fits. |
| Grading.Total | main.go:118 | The sum of the four scores in Go's 64-bit `int`: always in range. Wrap and TotalIsSum state the rest. |
| Grading.FinalScore | main.go:118 | The mean of the four scores, the total divided by 4; CalculateGrade and GradeThresholds state it. |
| Grading.TotalIsSum | main.go:118 | Whenever the plain sum of the four scores fits Go's `int`, the total is that sum, even if a partial sum wrapped on the way. |
| Grading.GradeFor | main.go:120-129 | The grade switch always assigns one of A, B, C or F. |
| Grading.GradeThresholds | main.go:118-129 | On a mean of total/4: A exactly when the total is at least 280, B exactly from 200 to 279, C exactly from 140 to 199, and F exactly below 140. |
| Grading.GradeMonotone | main.go:120-129 | A higher score never gets a lower grade. |
| Grading.CalculateGrade | main.go:111-139 | One record per student, in order. Each embeds its student unchanged, has four times its finalScore equal to the student's total, and has the grade of that finalScore. |
| Rankers.FindOverallTopper | main.go:141-151 | The result's score is at least every input's score. When no score is positive, the result is the zero record. Otherwise it is the input element that is the overall topper: positive, maximal, and strictly above every earlier record (first maximum wins). |
| Rankers.OverallTopperUnique | main.go:144-148 | At most one index is the overall topper, so the result is fully determined. |
| Rankers.FindTopperPerUniversity | main.go:153-169 | The map's keys are exactly the universities in the input. Each value is an input record of that university with a score at least that of every record of it, and strictly above every earlier one. |
| Rankers.TracksStep | main.go:156-166 | One iteration keeps the invariant. It inserts the record when its university is new or when it scores strictly more than the holder, and changes nothing otherwise. |
| Rankers.UniversityTopperUnique | main.go:156-166 | Each university has at most one topper index, so every map entry is fully determined. |
| Rankers.OtherUniversityIrrelevant | main.go:156-166 | Inserting a record of another university anywhere does not change whether a record is a university's topper; its index only shifts past the insertion. |
| Rankers.OverallTopperTopsItsUniversity | main.go:141-169 | The overall topper is also the topper of its own university, so the two rankers agree on it. |

## Left out

- `readFile` and `parseCSV` (main.go:35-64): opening the file, closing it with `defer`, and printing errors are I/O. `extractStudents` receives the file's lines as a sequence instead of a `bufio.Scanner`.
- Parser.ExtractStudents: `bufio.Scanner` is not modelled. Its 64 KiB line limit would end the loop early without an error. Its stripping of a trailing `\r` is also not modelled.
- Parser.ExtractStudents: a short line is a run-time panic in Go. The model returns it as the error `IndexOutOfRange` and does not model the crash itself.
- `student.String()` (main.go:25-27): `fmt.Sprintf` formatting is presentation only.
- Grading.CalculateGrade: `finalScore` is the exact quotient of the total by 4, not a `float32`. The two agree, and so do the grades, whenever the total's magnitude is at most 2^24. Larger totals would be rounded to 24 significant bits in Go.
- Strconv.AtoiSpec: the model assumes a 64-bit platform, where Go's `int` has 64 bits. The same goes for Grading.Wrap.
- The commented-out older `parseCSV` (main.go:171-223) is dead code.
- The report that prints the toppers is not part of this model.

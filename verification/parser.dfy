/**
 * The row parser `extractStudents`: the first line is a header and is
 * dropped; every later line is split on `,`, fields 0 to 2 are taken as
 * they are and fields 3 to 6 are converted with `strconv.Atoi`. The first
 * failure anywhere aborts the whole batch.
 */
module Parser {
  import opened Results
  import opened Strconv
  import opened Strs
  import opened Records

  /**
   * Why a batch failed. `BadScore` is the error `strconv.Atoi` returns.
   * `IndexOutOfRange(k, n)` is the run-time panic of Go's `line[k]` on a row
   * of only `n` fields; the model returns it as an error instead.
   */
  datatype ParseError =
    | IndexOutOfRange(index: nat, length: nat)
    | BadScore(cause: NumError)

  /** Field `k` of a row, converted as a score (`strconv.Atoi(line[k])`). */
  function ScoreField(fields: seq<string>, k: nat): (r: Result<int, ParseError>)
    ensures k >= |fields| ==> r == Failure(IndexOutOfRange(k, |fields|))
    ensures k < |fields| ==> (r.Success? <==> Atoi(fields[k]).Success?)
    ensures k < |fields| && r.Success? ==> Atoi(fields[k]) == Success(r.value)
    ensures k < |fields| && r.Failure? ==> r.error == BadScore(Atoi(fields[k]).error)
  {
    if k >= |fields| then Failure(IndexOutOfRange(k, |fields|))
    else match Atoi(fields[k])
      case Success(v) => Success(v)
      case Failure(e) => Failure(BadScore(e))
  }

  /**
   * Score fields `k` to 6, converted in order: field `k` is indexed and
   * converted before field `k + 1` is looked at, and the first failure stops.
   */
  function ScoreFields(f: seq<string>, k: nat): (r: Result<seq<int>, ParseError>)
    requires k <= 7
    ensures r.Success? ==> |r.value| == 7 - k && (k < 7 ==> |f| >= 7)
    decreases 7 - k
  {
    if k == 7 then Success([])
    else
      var t :- ScoreField(f, k);
      var rest :- ScoreFields(f, k + 1);
      Success([t] + rest)
  }

  /**
   * One data line: split on commas, fields 3 to 6 converted in Go's
   * evaluation order, fields 0 to 2 kept. Properties: ParseRowSpec.
   */
  function ParseRow(line: string): Result<Student, ParseError>
  {
    var f := Split(line, ',');
    var t :- ScoreFields(f, 3);
    Success(Student(f[0], f[1], f[2], t[0], t[1], t[2], t[3]))
  }

  /** Field `k` of `f` exists and converts. */
  predicate Converts(f: seq<string>, k: nat) {
    k < |f| && Atoi(f[k]).Success?
  }

  /**
   * Field `k` is the first score field from `from` on that fails, and `e` is
   * its error: the missing index, or Atoi's error.
   */
  ghost predicate FailsFirstAt(f: seq<string>, from: nat, k: nat, e: ParseError) {
    && (forall j | from <= j < k :: Converts(f, j))
    && !Converts(f, k)
    && e == if k >= |f| then IndexOutOfRange(k, |f|) else BadScore(Atoi(f[k]).error)
  }

  /**
   * Converting score fields `k` to 6 succeeds exactly when each exists and
   * converts, gives Atoi's values in field order, and otherwise fails with
   * the error of the first field that does not.
   */
  lemma {:induction false} ScoreFieldsSpec(f: seq<string>, k: nat)
    requires k <= 7
    ensures ScoreFields(f, k).Success? <==> forall j | k <= j < 7 :: Converts(f, j)
    ensures ScoreFields(f, k).Success? ==>
      forall j | k <= j < 7 :: Atoi(f[j]) == Success(ScoreFields(f, k).value[j - k])
    ensures ScoreFields(f, k).Failure? ==>
      exists j | k <= j < 7 :: FailsFirstAt(f, k, j, ScoreFields(f, k).error)
    decreases 7 - k
  {
    if k < 7 {
      ScoreFieldsSpec(f, k + 1);
      var r := ScoreFields(f, k);
      if !Converts(f, k) {
        assert FailsFirstAt(f, k, k, r.error);
      } else if r.Failure? {
        var j :| k + 1 <= j < 7 && FailsFirstAt(f, k + 1, j, r.error);
        assert FailsFirstAt(f, k, j, r.error);
      } else {
        var rest := ScoreFields(f, k + 1).value;
        var t := Atoi(f[k]).value;
        assert r.value == [t] + rest;
        forall j | k <= j < 7
          ensures Atoi(f[j]) == Success(([t] + rest)[j - k])
        {
          if j > k {
            assert ([t] + rest)[j - k] == rest[j - (k + 1)];
          }
        }
      }
    }
  }

  /**
   * A data line is accepted exactly when it has at least 7 fields and fields
   * 3 to 6 all convert; then the student holds fields 0 to 2 verbatim and the
   * converted fields 3 to 6, and later fields are ignored. A rejected line
   * reports the first score field, in order, that is missing or malformed.
   */
  lemma ParseRowSpec(line: string)
    ensures var f := Split(line, ',');
      ParseRow(line).Success? <==> |f| >= 7 && forall k | 3 <= k < 7 :: Converts(f, k)
    ensures var f := Split(line, ',');
      ParseRow(line).Success? ==>
        && ParseRow(line).value.firstName == f[0]
        && ParseRow(line).value.lastName == f[1]
        && ParseRow(line).value.university == f[2]
        && Atoi(f[3]) == Success(ParseRow(line).value.test1Score)
        && Atoi(f[4]) == Success(ParseRow(line).value.test2Score)
        && Atoi(f[5]) == Success(ParseRow(line).value.test3Score)
        && Atoi(f[6]) == Success(ParseRow(line).value.test4Score)
    ensures ParseRow(line).Failure? ==>
      exists k | 3 <= k < 7 :: FailsFirstAt(Split(line, ','), 3, k, ParseRow(line).error)
  {
    var f := Split(line, ',');
    ScoreFieldsSpec(f, 3);
    if ScoreFields(f, 3).Success? {
      var t := ScoreFields(f, 3).value;
      assert Atoi(f[3]) == Success(t[0]) && Atoi(f[4]) == Success(t[1]);
      assert Atoi(f[5]) == Success(t[2]) && Atoi(f[6]) == Success(t[3]);
    }
  }

  /** The data lines: every line but the first, which is the header. */
  function DataLines(lines: seq<string>): (rows: seq<string>)
    ensures |rows| == if lines == [] then 0 else |lines| - 1
    ensures forall k | 0 <= k < |rows| :: rows[k] == lines[k + 1]
  {
    if lines == [] then [] else lines[1..]
  }

  /**
   * `extractStudents` over the lines of the input: every data line parsed in
   * order, stopping at the first that fails (MapAllSpec: the students of all
   * data lines, or the first error and no students). Without data lines the
   * result is empty.
   */
  method ExtractStudents(lines: seq<string>) returns (r: Result<seq<Student>, ParseError>)
    ensures r == MapAll(DataLines(lines), ParseRow)
    ensures |lines| <= 1 ==> r == Success([])
  {
    var students: seq<Student> := [];
    if |lines| == 0 {
      // not even a header: the first Scan already reports end of input
      return Success(students);
    }
    var i := 1;
    while i < |lines|
      invariant 1 <= i <= |lines|
      invariant MapAll(lines[1..i], ParseRow) == Success(students)
    {
      var row := ParseRow(lines[i]);
      ExtractStep(lines, i, students);
      if row.Failure? {
        return Failure(row.error);
      }
      students := students + [row.value];
      i := i + 1;
    }
    assert lines[1..i] == DataLines(lines);
    return Success(students);
  }

  /** One iteration of the parsing loop, against MapAll. */
  lemma ExtractStep(lines: seq<string>, i: nat, students: seq<Student>)
    requires 1 <= i < |lines|
    requires MapAll(lines[1..i], ParseRow) == Success(students)
    ensures ParseRow(lines[i]).Failure? ==>
      MapAll(DataLines(lines), ParseRow) == Failure(ParseRow(lines[i]).error)
    ensures ParseRow(lines[i]).Success? ==>
      MapAll(lines[1..i + 1], ParseRow) == Success(students + [ParseRow(lines[i]).value])
  {
    MapAllAppend(lines[1..i], lines[i], ParseRow);
    Slices(lines, i);
    if ParseRow(lines[i]).Failure? {
      MapAllFailureExtends(lines[1..], i, ParseRow);
    }
  }

  lemma Slices<T>(s: seq<T>, i: nat)
    requires 1 <= i < |s|
    ensures s[1..i] + [s[i]] == s[1..i + 1] == s[1..][..i]
  {
  }

  /** A data line written back from a student: the inverse of ParseRow. */
  function FormatRow(s: Student): string
  {
    Join([s.firstName, s.lastName, s.university,
          Itoa(s.test1Score), Itoa(s.test2Score), Itoa(s.test3Score), Itoa(s.test4Score)], ',')
  }

  /** Itoa never produces a comma. */
  lemma ItoaHasNoComma(n: int)
    ensures ',' !in Itoa(n)
  {
    DigitsRoundTrip(if n < 0 then -n else n);
  }

  /** The names hold no comma and the scores fit Go's `int`. */
  predicate Writable(s: Student) {
    && ',' !in s.firstName && ',' !in s.lastName && ',' !in s.university
    && InIntRange(s.test1Score) && InIntRange(s.test2Score)
    && InIntRange(s.test3Score) && InIntRange(s.test4Score)
  }

  /**
   * Every student whose names hold no comma and whose scores fit Go's `int`
   * is read back exactly from the line FormatRow writes for it.
   */
  lemma ParseFormatRow(s: Student)
    requires Writable(s)
    ensures ParseRow(FormatRow(s)) == Success(s)
  {
    var pieces := [s.firstName, s.lastName, s.university,
                   Itoa(s.test1Score), Itoa(s.test2Score), Itoa(s.test3Score), Itoa(s.test4Score)];
    ItoaHasNoComma(s.test1Score);
    ItoaHasNoComma(s.test2Score);
    ItoaHasNoComma(s.test3Score);
    ItoaHasNoComma(s.test4Score);
    SplitJoin(pieces, ',');
    AtoiItoa(s.test1Score);
    AtoiItoa(s.test2Score);
    AtoiItoa(s.test3Score);
    AtoiItoa(s.test4Score);
    ParseRowSpec(FormatRow(s));
    var v := ParseRow(FormatRow(s)).value;
    assert v.test1Score == s.test1Score && v.test2Score == s.test2Score;
    assert v.test3Score == s.test3Score && v.test4Score == s.test4Score;
  }

  /** A file written back from students: any header, then one line per student. */
  function FormatFile(header: string, ss: seq<Student>): seq<string>
  {
    [header] + seq(|ss|, k requires 0 <= k < |ss| => FormatRow(ss[k]))
  }

  /**
   * Reading back a written file gives the same students in the same order,
   * whatever the header says.
   */
  lemma ExtractFormatted(header: string, ss: seq<Student>)
    requires forall k | 0 <= k < |ss| :: Writable(ss[k])
    ensures MapAll(DataLines(FormatFile(header, ss)), ParseRow) == Success(ss)
  {
    var rows := DataLines(FormatFile(header, ss));
    forall k | 0 <= k < |rows|
      ensures ParseRow(rows[k]) == Success(ss[k])
    {
      ParseFormatRow(ss[k]);
    }
    MapAllSpec(rows, ParseRow);
    var r := MapAll(rows, ParseRow);
    assert r.value == ss;
  }

  /**
   * The row `Jane,Doe,MIT,70,70,70,x` fails with Atoi's syntax error for its
   * last field.
   */
  lemma MalformedRowFails()
    ensures ParseRow(Join(["Jane", "Doe", "MIT", "70", "70", "70", "x"], ','))
      == Failure(BadScore(NumError("x", ErrSyntax)))
  {
    var f := ["Jane", "Doe", "MIT", "70", "70", "70", "x"];
    SplitJoin(f, ',');
    ScoresOfMalformedRow(f);
  }

  lemma ScoresOfMalformedRow(f: seq<string>)
    requires f == ["Jane", "Doe", "MIT", "70", "70", "70", "x"]
    ensures ScoreFields(f, 3) == Failure(BadScore(NumError("x", ErrSyntax)))
  {
    assert "70"[1..] == "0" && "0"[1..] == [];
    assert ScanDigits("70", 0) == Success(70);
    assert ScoreField(f, 3) == ScoreField(f, 4) == ScoreField(f, 5) == Success(70);
    assert ScoreFields(f, 6) == Failure(BadScore(NumError("x", ErrSyntax)));
  }
}

/**
 * Class `Report` in hw.py: the roster read from the lines of the input
 * file. A report is built once, in `__init__`, and never changed, so it is
 * a value here; the file is given as the sequence of its lines, as Python's
 * line iteration yields them: every line but possibly the last still ends
 * with its newline.
 */
module Reports {
  import opened Results
  import opened Strings
  import opened Employees

  datatype Report = Report(employees: seq<Employee>)

  /** The field separator `_split` uses by default. */
  const Delimiter: char := ';'

  /** `Report._split`: split a line on the delimiter and hand the fields to `Employee`. */
  function SplitLine(line: string): (r: Result<Employee, ParseError>)
    ensures Occurrences(line, {Delimiter}) != 5 ==>
      r == Err(WrongFieldCount(Occurrences(line, {Delimiter}) + 1))
    ensures r.Ok? <==>
      |SplitOn(line, {Delimiter})| == FieldCount && ParseSalary(SplitOn(line, {Delimiter})[5]).Ok?
    ensures |SplitOn(line, {Delimiter})| == FieldCount && ParseSalary(SplitOn(line, {Delimiter})[5]).Err? ==>
      r == Err(BadSalary(SplitOn(line, {Delimiter})[5]))
    ensures r.Ok? ==>
      |SplitOn(line, {Delimiter})| == FieldCount &&
      [r.value.fullName, r.value.department, r.value.division, r.value.position, r.value.score] ==
        SplitOn(line, {Delimiter})[..5] &&
      ParseSalary(SplitOn(line, {Delimiter})[5]) == Ok(r.value.salary)
  {
    SplitCount(line, {Delimiter});
    NewEmployee(SplitOn(line, {Delimiter}))
  }

  /** A line that `SplitLine` reads back as `e`; used only for the round trip below. */
  function FormatLine(e: Employee): string
  {
    Join([e.fullName, e.department, e.division, e.position, e.score, ShowNat(e.salary) + "\n"], Delimiter)
  }

  /** The text fields of `e` hold no delimiter, which every parsed employee satisfies. */
  predicate Delimitable(e: Employee)
  {
    Free(e.fullName, {Delimiter}) && Free(e.department, {Delimiter}) && Free(e.division, {Delimiter}) &&
    Free(e.position, {Delimiter}) && Free(e.score, {Delimiter})
  }

  /** Every employee that `_split` produces has delimiter-free text fields. */
  lemma {:induction false} SplitLineDelimitable(line: string)
    requires SplitLine(line).Ok?
    ensures Delimitable(SplitLine(line).value)
  {
    var fields := SplitOn(line, {Delimiter});
    SplitPiecesFree(line, {Delimiter});
    assert fields[0] in fields && fields[1] in fields && fields[2] in fields;
    assert fields[3] in fields && fields[4] in fields;
  }

  /** `_split` reads back every employee whose text fields hold no delimiter. */
  lemma {:induction false} SplitLineFormatLine(e: Employee)
    requires Delimitable(e)
    ensures SplitLine(FormatLine(e)) == Ok(e)
  {
    var tail := ShowNat(e.salary) + "\n";
    DigitsFree(ShowNat(e.salary), {Delimiter});
    assert Free("\n", {Delimiter});
    FreeAppend(ShowNat(e.salary), "\n", {Delimiter});
    var fields := [e.fullName, e.department, e.division, e.position, e.score, tail];
    SplitJoin(fields, Delimiter);
    ParseSalaryShowNat(e.salary);
  }

  /**
   * Six delimiter-free fields whose last one `int()` accepts (with or
   * without the final newline, leading zeros allowed) make the employee of
   * those fields, the salary being the value of the sixth.
   */
  lemma SplitLineSixFields(fields: seq<string>)
    requires |fields| == FieldCount
    requires forall f :: f in fields ==> Free(f, {Delimiter})
    requires ParseSalary(fields[5]).Ok?
    ensures SplitLine(Join(fields, Delimiter)) ==
      Ok(Employee(fields[0], fields[1], fields[2], fields[3], fields[4], ParseSalary(fields[5]).value))
  {
    SplitJoin(fields, Delimiter);
  }

  /**
   * A line made of any number of fields other than six, none holding the
   * delimiter, fails with that number as the field count.
   */
  lemma SplitLineWrongCount(fields: seq<string>)
    requires |fields| >= 1 && |fields| != FieldCount
    requires forall f :: f in fields ==> Free(f, {Delimiter})
    ensures SplitLine(Join(fields, Delimiter)) == Err(WrongFieldCount(|fields|))
  {
    SplitJoin(fields, Delimiter);
  }

  /**
   * `Report.__init__`: drop the first (header) line, then turn every further
   * line into an employee, in file order. The first line that cannot be
   * turned into an employee aborts the load and no report is produced.
   */
  method Load(lines: seq<string>) returns (r: Result<Report, ParseError>)
    ensures r.Ok? <==> forall k :: 1 <= k < |lines| ==> SplitLine(lines[k]).Ok?
    ensures r.Ok? ==> |r.value.employees| == if lines == [] then 0 else |lines| - 1
    ensures r.Ok? ==> forall k :: 0 <= k < |r.value.employees| ==> SplitLine(lines[k + 1]) == Ok(r.value.employees[k])
    ensures r.Err? ==> exists bad :: 1 <= bad < |lines| && SplitLine(lines[bad]) == Err(r.error) &&
                                     forall k :: 1 <= k < bad ==> SplitLine(lines[k]).Ok?
  {
    var employees: seq<Employee> := [];
    if lines == [] {
      return Ok(Report(employees));
    }
    var i := 1;
    while i < |lines|
      invariant 1 <= i <= |lines|
      invariant |employees| == i - 1
      invariant forall k :: 0 <= k < i - 1 ==> SplitLine(lines[k + 1]) == Ok(employees[k])
      invariant forall k :: 1 <= k < i ==> SplitLine(lines[k]).Ok?
    {
      var employee := SplitLine(lines[i]);
      if employee.Err? {
        return Err(employee.error);
      }
      employees := employees + [employee.value];
      i := i + 1;
    }
    return Ok(Report(employees));
  }
}

/**
 * An employee record (class `Employee` in hw.py) and the checks its
 * constructor makes: exactly six positional fields, and an integer salary.
 */
module Employees {
  import opened Results
  import opened Strings

  /**
   * One roster entry. The score is kept as the text it was read from: the
   * program never computes with it.
   */
  datatype Employee = Employee(
    fullName: string,
    department: string,
    division: string,
    position: string,
    score: string,
    salary: nat)

  /** Why a line could not become an employee. */
  datatype ParseError =
    | WrongFieldCount(count: nat)  // the constructor got `count` positional fields, not six
    | BadSalary(text: string)      // `int()` refused the salary field

  /** The number of positional fields `Employee` takes. */
  const FieldCount: nat := 6

  /**
   * `int()` applied to the salary field. The field is the last one of its
   * line, so it usually still ends with the line's newline, which `int()`
   * ignores; what comes before must be a non-empty decimal digit string.
   */
  function ParseSalary(text: string): (r: Result<nat, ParseError>)
    ensures r.Err? ==> r.error == BadSalary(text)
    ensures r.Ok? ==>
      (text != [] && IsDigits(text)) ||
      (|text| > 1 && text[|text| - 1] == '\n' && IsDigits(text[..|text| - 1]))
    ensures text != [] && IsDigits(text) ==> r == Ok(DigitsValue(text))
    ensures |text| > 1 && text[|text| - 1] == '\n' && IsDigits(text[..|text| - 1]) ==>
      r == Ok(DigitsValue(text[..|text| - 1]))
  {
    var digits := if text != [] && text[|text| - 1] == '\n' then text[..|text| - 1] else text;
    if digits != [] && IsDigits(digits) then Ok(DigitsValue(digits)) else Err(BadSalary(text))
  }

  /** `int()` reads back the decimal text of a salary, with or without the newline after it. */
  lemma ParseSalaryShowNat(n: nat)
    ensures ParseSalary(ShowNat(n)) == Ok(n)
    ensures ParseSalary(ShowNat(n) + "\n") == Ok(n)
  {
    ShowNatValue(n);
    var s := ShowNat(n);
    assert (s + "\n")[..|s + "\n"| - 1] == s;
  }

  /** A salary field with a character other than a digit or a final newline is refused. */
  lemma ParseSalaryRejects(text: string, j: nat)
    requires j < |text| && !IsDigit(text[j])
    requires !(j == |text| - 1 && text[j] == '\n')
    ensures ParseSalary(text) == Err(BadSalary(text))
  {
  }

  /** An empty salary field, with or without the line's newline, is refused. */
  lemma ParseSalaryEmptyField()
    ensures ParseSalary("") == Err(BadSalary(""))
    ensures ParseSalary("\n") == Err(BadSalary("\n"))
  {
  }

  /**
   * `Employee(*fields)`: the call fails unless there are exactly six fields;
   * the department is the second field and the salary the value of the sixth.
   */
  function NewEmployee(fields: seq<string>): (r: Result<Employee, ParseError>)
    ensures |fields| != FieldCount ==> r == Err(WrongFieldCount(|fields|))
    ensures r.Ok? ==> |fields| == FieldCount && ParseSalary(fields[5]) == Ok(r.value.salary)
    ensures r.Ok? ==> [r.value.fullName, r.value.department, r.value.division,
                       r.value.position, r.value.score] == fields[..5]
    ensures |fields| == FieldCount && ParseSalary(fields[5]).Err? ==>
      r == Err(BadSalary(fields[5]))
    ensures |fields| == FieldCount && ParseSalary(fields[5]).Ok? ==> r.Ok?
  {
    if |fields| != FieldCount then Err(WrongFieldCount(|fields|))
    else
      match ParseSalary(fields[5])
      case Err(e) => Err(e)
      case Ok(salary) => Ok(Employee(fields[0], fields[1], fields[2], fields[3], fields[4], salary))
  }
}

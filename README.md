# Department salary summary, modelled in Dafny

`hw.py` reads a `;`-separated employee roster. It drops the header line and
turns each further line into an `Employee`. It then groups the employees by
department, in the order departments are first met, and summarises each
group: headcount, smallest and largest salary, and average salary. The
summaries can be printed or written to `summary_report.csv`.

This project models that pipeline:

- `strings.dfy` (module `Strings`) holds the parts of Python's string
  handling the program relies on: `str.split(sep)`, `str.split()`, `int()`
  of a digit string, and the decimal text of an integer.
- `employees.dfy` (module `Employees`) holds the `Employee` record and its
  constructor's checks: exactly six positional fields, and an integer salary.
- `reports.dfy` (module `Reports`) holds `Report._split` and the loading
  loop of `Report.__init__`.
- `summaries.dfy` (module `Summaries`) holds `_group_by_department`,
  `_compute_department_info` and `SummaryReport.__init__`.
- `csv_export.dfy` (module `CsvExport`) holds the rows that `to_csv` hands
  to the CSV writer.
- `results.dfy` (module `Results`) holds the `Result` type, which stands for
  a Python exception that ends the operation.

The input file is given as the sequence of its lines. Every line but
possibly the last still ends with the newline that Python's line iteration
leaves on it. `Report` and
`SummaryReport` are built once in `__init__` and never changed afterwards,
so both are immutable datatypes here. The loops that build them are methods
with loops: `Load`, `GroupByDepartment` and `ToCsv`. Each method is proved
against the reference functions `SplitLine`, `Departments`, `Group` and
`DataRow`. Lemmas state what those functions promise.

The grouping dictionary is a `Grouping`, which holds the keys in insertion
order (`order`) and a map from each key to its list (`members`). An average
salary is kept exact as `Mean(total, count)`.

Two facts about `hw.py` shape the model:

- The CSV header row is `"Deportment Size Fork Avg salary".split()`
  (hw.py:53). It has five cells: `Avg` and `salary` are separate cells.
- On an empty list, `min()` at hw.py:76 raises before the empty-list guard
  of the average at hw.py:78 is reached, so that guard never applies.
  `ComputeDepartmentInfo` therefore requires a non-empty group, and
  `GroupNonEmpty` proves that grouping never produces an empty one.

## Model

| member | source | states |
|---|---|---|
| `Strings.SplitOn` | hw.py:28 | `line.split(";")` always yields at least one field |
| `Strings.SplitCount` | hw.py:28 | splitting yields exactly one more field than there are delimiters in the line |
| `Strings.SplitPiecesFree` | hw.py:28 | no field produced by splitting contains the delimiter |
| `Strings.SplitFree` | hw.py:28 | a string without the delimiter splits into itself alone |
| `Strings.SplitAppend` | hw.py:28 | splitting at a delimiter splits the text before and after it independently |
| `Strings.JoinSplit` | hw.py:28 | joining the split fields with the delimiter restores the line |
| `Strings.SplitJoin` | hw.py:28 | splitting a join of delimiter-free fields restores exactly those fields |
| `Strings.NonEmpty` | hw.py:55 | the words kept by `str.split()` are non-empty and come from the pieces |
| `Strings.NonEmptyAppend` | hw.py:55 | dropping empty pieces distributes over concatenation |
| `Strings.WordSplit` | hw.py:55 | every word of `str.split()` is non-empty and free of whitespace |
| `Strings.WordSplitSpace` | hw.py:55 | splitting `a + " " + b` on whitespace gives the words of `a` followed by the words of `b` |
| `Strings.WordSplitWord` | hw.py:55 | a non-empty text without whitespace is one word |
| `Strings.ShowNat` | hw.py:55 | the decimal text of a salary or size is non-empty, all digits and has no leading zero |
| `Strings.DigitsValue` | hw.py:11 | the value `int()` gives a digit string is zero exactly when every digit is `0` |
| `Strings.ShowNatValue` | hw.py:11 | reading back the decimal text of `n` gives `n` |
| `Strings.DigitsValueShowNat` | hw.py:11 | writing out the value of a digit string with no leading zero gives that string back |
| `Strings.DigitsFree` | hw.py:55 | a digit string holds no character from a separator set without digits |
| `Strings.FreeAppend` | hw.py:55 | two texts free of separators concatenate to a text free of separators |
| `Employees.ParseSalary` | hw.py:11 | `int(salary)` succeeds exactly on a non-empty digit string, with or without the line's newline after it, and then gives the value of the digits (leading zeros allowed); otherwise the error is `BadSalary` of the field |
| `Employees.ParseSalaryShowNat` | hw.py:11 | `int()` reads back the decimal text of every salary, with or without a trailing newline |
| `Employees.ParseSalaryEmptyField` | hw.py:11 | an empty salary field, bare or holding only the line's newline, is refused with `BadSalary` |
| `Employees.ParseSalaryRejects` | hw.py:11 | a salary field with any character other than a digit or a final newline is refused |
| `Employees.NewEmployee` | hw.py:5-11 | construction fails with the field count unless there are exactly six fields; otherwise it succeeds exactly when the salary is accepted, and fails with the salary's error when it is refused; on success the first five fields are taken in order and the salary is the value of the sixth |
| `Reports.SplitLine` | hw.py:24-28 | a line without exactly five delimiters fails with field count delimiters + 1; a line with six fields succeeds exactly when `int()` accepts the sixth, and otherwise fails with `BadSalary` of it; on success the first five fields are the employee's text fields in order and the salary is the value of the sixth |
| `Reports.SplitLineDelimitable` | hw.py:24-28 | every employee read from a line has text fields free of the delimiter |
| `Reports.SplitLineFormatLine` | hw.py:24-28 | `_split` reads back the line written for any employee whose text fields hold no delimiter |
| `Reports.SplitLineSixFields` | hw.py:24-28 | six delimiter-free fields whose last one `int()` accepts (a last line without a newline, or a salary with leading zeros) make the employee of those fields |
| `Reports.SplitLineWrongCount` | hw.py:5 | a line of any number of fields other than six fails, reporting that number |
| `Reports.Load` | hw.py:15-21 | loading succeeds exactly when every line after the first parses; the roster then has one employee per line after the first, in file order; otherwise the error is that of the first bad line, and no roster is returned |
| `Summaries.Departments` | hw.py:62-68 | the keys are no more than the employees, and every employee's department is a key |
| `Summaries.Group` | hw.py:63-67 | a department's list is no longer than the roster and holds only employees of that department |
| `Summaries.FirstIndex` | hw.py:62-68 | the position of a department's first employee: no earlier employee has that department |
| `Summaries.DepartmentsCover` | hw.py:62-68 | every employee's department is a key, and every key is some employee's department |
| `Summaries.DepartmentsFirstSeen` | hw.py:62-68 | the keys are ordered by the position of each department's first employee |
| `Summaries.DepartmentsDistinct` | hw.py:62-68 | no department is a key twice |
| `Summaries.GroupMembers` | hw.py:63-67 | a group holds exactly the roster's employees of that department |
| `Summaries.GroupSize` | hw.py:63-67 | a group's length is the number of roster positions holding an employee of that department, so repeated identical lines each count |
| `Summaries.GroupNonEmpty` | hw.py:63-67 | a group is non-empty exactly when its department is a key |
| `Summaries.TotalSizeExtend` | hw.py:63-67 | one more employee adds one to the total group size over distinct keys that include its department, and nothing otherwise |
| `Summaries.GroupSizesSum` | hw.py:63-67 | the group sizes add up to the roster length |
| `Summaries.GroupByDepartment` | hw.py:58-68 | the dictionary's keys are the departments in first-seen order, and each key maps to exactly its department's employees in roster order |
| `Summaries.Salaries` | hw.py:75 | the salary list has one entry per employee, the salary of the employee at the same position |
| `Summaries.Min` | hw.py:76 | `min` returns a member of the list that is no larger than any member |
| `Summaries.Max` | hw.py:77 | `max` returns a member of the list that is no smaller than any member |
| `Summaries.Sum` | hw.py:78 | no salary of the list exceeds `sum` of the list |
| `Summaries.SumAtLeast` | hw.py:78 | a sum of `n` salaries, each at least `lo`, is at least `n * lo` |
| `Summaries.SumAtMost` | hw.py:78 | a sum of `n` salaries, each at most `hi`, is at most `n * hi` |
| `Summaries.ComputeDepartmentInfo` | hw.py:71-80 | for a non-empty group: size is the group length; min and max are salaries of members and bound every member's salary; the average is sum/size with `size*min <= sum <= size*max` |
| `Summaries.Summarize` | hw.py:34-35 | one entry per key, in key order, named by the key and summarising that key's list |
| `Summaries.NamesSummarize` | hw.py:34-35 | the entries are named by the grouping's keys, in key order |
| `Summaries.SumSizesTotal` | hw.py:34-35 | the entries' sizes add up to the total size of the groups they summarise |
| `Summaries.SummarizeGroups` | hw.py:32-35 | for the grouping of a roster, every group is non-empty, each entry summarises its department's employees, and the sizes add up to the roster length |
| `Summaries.GroupingExample` | hw.py:62-68 | two Sales employees followed by one IT employee group into the keys Sales then IT, with the first two employees under Sales and the third under IT |
| `Summaries.DepartmentInfoExample` | hw.py:75-80 | salaries 100 and 200 give size 2, range 100-200 and average 300/2; the single salary 300 gives size 1, range 300-300 and average 300/1 |
| `Summaries.NewSummaryReport` | hw.py:32-35 | the entry names are the roster's distinct departments in first-seen order; each entry summarises exactly its department's employees; the sizes add up to the roster length |
| `CsvExport.WordSplitFive` | hw.py:53 | five words joined by single spaces split back into those five words |
| `CsvExport.HeaderRow` | hw.py:53 | the header row is the five cells Deportment, Size, Fork, Avg, salary |
| `CsvExport.RangeToken` | hw.py:55 | the `"{min}-{max}"` token is non-empty and holds no whitespace, so `split()` keeps it whole |
| `CsvExport.RangeTokenRoundTrip` | hw.py:55 | the `"{min}-{max}"` token splits at its hyphen into the two salaries' texts, which read back as the salaries |
| `CsvExport.DataRowText` | hw.py:55 | `split()` of the formatted entry gives the words of the name, then the size, then the range token |
| `CsvExport.DataRow` | hw.py:55 | a data row has at least three cells, ends with the average, and every other cell is one non-empty word without whitespace |
| `CsvExport.DataRowShape` | hw.py:55 | a data row is the words of the department name, then the size, the range token and the average |
| `CsvExport.DataRowOneWordName` | hw.py:55 | for a one-word name the row has four cells: name, size, `"{min}-{max}"`, average |
| `CsvExport.ToCsv` | hw.py:47-55 | the writer gets 1 header row plus one row per department entry, in entry order |

## Left out

- File I/O is not modelled. This covers opening the input file, `readline`, and splitting the file into lines. It also covers the `csv.writer`: its quoting, its line terminator and the fixed output file name. The input is the sequence of lines, and the output is the sequence of cell rows handed to the writer.
- `console_print` (hw.py:38-44) is not modelled. It only formats fixed-width text for the console.
- `main` (hw.py:83-100) is not modelled. It is an interactive loop that reads user input and dispatches to the operations above.
- NewEmployee: does not apply `float(score)`. The score is kept as text, so a line whose score field `float()` would refuse is accepted here.
- ParseSalary: accepts only ASCII decimal digits, optionally followed by one newline. Python's `int()` also accepts a sign, other surrounding whitespace, underscores between digits and non-ASCII digits, so lines with such salaries are refused here. Salaries are therefore never negative.
- ComputeDepartmentInfo: the average is the exact pair (sum, count). The model leaves out the float division and `round(avg_salary, 3)` (hw.py:78, hw.py:80).
- In each data row, the average cell stands for the text of the rounded float, which is not produced. That text never holds whitespace and is never empty, so it is always exactly the last cell.

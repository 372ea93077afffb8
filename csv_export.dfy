/**
 * `SummaryReport.to_csv`: the rows handed to the `;`-delimited CSV writer.
 * Each row is built by formatting the entry into one string and splitting
 * it on whitespace, so a department name with spaces in it spreads over
 * several cells.
 */
module CsvExport {
  import opened Strings
  import opened Summaries

  /**
   * One cell of a written row. `Average` stands for the text of the rounded
   * average salary: Python writes a float there, whose text holds no
   * whitespace and is never empty, so it is always exactly the last cell.
   */
  datatype Cell = Text(text: string) | Average(mean: Mean)

  /** Each word as a text cell, position by position. */
  function Texts(words: seq<string>): (cells: seq<Cell>)
    ensures |cells| == |words|
    ensures forall i :: 0 <= i < |cells| ==> cells[i] == Text(words[i])
    decreases |words|
  {
    if words == [] then [] else [Text(words[0])] + Texts(words[1..])
  }

  /**
   * The header line `"Deportment Size Fork Avg salary"`, which `to_csv`
   * splits on whitespace before writing it. It is written as its words
   * joined by single spaces so that the verifier reasons about the split
   * through `WordSplitFive` rather than character by character.
   */
  const HeaderText: string := "Deportment" + " " + "Size" + " " + "Fork" + " " + "Avg" + " " + "salary"

  /** The header row has five cells: the label "Avg salary" is split in two. */
  function HeaderRow(): (row: seq<Cell>)
    ensures row == [Text("Deportment"), Text("Size"), Text("Fork"), Text("Avg"), Text("salary")]
  {
    WordSplitFive("Deportment", "Size", "Fork", "Avg", "salary");
    Texts(WordSplit(HeaderText))
  }

  /** Five words joined by single spaces split back into those five words. */
  lemma {:induction false} WordSplitFive(w1: string, w2: string, w3: string, w4: string, w5: string)
    requires w1 != [] && w2 != [] && w3 != [] && w4 != [] && w5 != []
    requires Free(w1, Whitespace) && Free(w2, Whitespace) && Free(w3, Whitespace)
    requires Free(w4, Whitespace) && Free(w5, Whitespace)
    ensures WordSplit(w1 + " " + w2 + " " + w3 + " " + w4 + " " + w5) == [w1, w2, w3, w4, w5]
  {
    WordSplitSpace(w1 + " " + w2 + " " + w3 + " " + w4, w5);
    WordSplitSpace(w1 + " " + w2 + " " + w3, w4);
    WordSplitSpace(w1 + " " + w2, w3);
    WordSplitSpace(w1, w2);
    WordSplitWord(w1);
    WordSplitWord(w2);
    WordSplitWord(w3);
    WordSplitWord(w4);
    WordSplitWord(w5);
  }

  /**
   * The "Fork" token: the smallest and the largest salary joined by a
   * hyphen. It is never empty and holds no whitespace, so `split()` keeps it
   * whole.
   */
  function RangeToken(minSalary: nat, maxSalary: nat): (token: string)
    ensures token != [] && Free(token, Whitespace)
  {
    DigitsFree(ShowNat(minSalary), Whitespace);
    DigitsFree(ShowNat(maxSalary), Whitespace);
    assert Free("-", Whitespace);
    FreeAppend(ShowNat(minSalary), "-", Whitespace);
    FreeAppend(ShowNat(minSalary) + "-", ShowNat(maxSalary), Whitespace);
    ShowNat(minSalary) + "-" + ShowNat(maxSalary)
  }

  /** The range token splits at its one hyphen back into the two salaries. */
  lemma RangeTokenRoundTrip(minSalary: nat, maxSalary: nat)
    ensures SplitOn(RangeToken(minSalary, maxSalary), {'-'}) == [ShowNat(minSalary), ShowNat(maxSalary)]
    ensures DigitsValue(ShowNat(minSalary)) == minSalary && DigitsValue(ShowNat(maxSalary)) == maxSalary
  {
    DigitsFree(ShowNat(minSalary), {'-'});
    DigitsFree(ShowNat(maxSalary), {'-'});
    assert RangeToken(minSalary, maxSalary) == ShowNat(minSalary) + ['-'] + ShowNat(maxSalary);
    SplitAppend(ShowNat(minSalary), '-', ShowNat(maxSalary), {'-'});
    SplitFree(ShowNat(minSalary), {'-'});
    SplitFree(ShowNat(maxSalary), {'-'});
    ShowNatValue(minSalary);
    ShowNatValue(maxSalary);
  }

  /**
   * The text `"{name} {size} {min_salary}-{max_salary}"` before the average:
   * `split()` turns it into the words of the name, then the size and the
   * range token, whatever the name.
   */
  function DataRowText(department: Department): (text: string)
    ensures WordSplit(text) ==
      WordSplit(department.name) +
      [ShowNat(department.info.size), RangeToken(department.info.minSalary, department.info.maxSalary)]
  {
    var size := ShowNat(department.info.size);
    var range := RangeToken(department.info.minSalary, department.info.maxSalary);
    WordSplitSpace(department.name + " " + size, range);
    WordSplitSpace(department.name, size);
    DigitsFree(size, Whitespace);
    WordSplitWord(size);
    WordSplitWord(range);
    department.name + " " + size + " " + range
  }

  /**
   * The row written for one department entry: at least three cells, the
   * average last, and every other cell one non-empty word without
   * whitespace.
   */
  function DataRow(department: Department): (row: seq<Cell>)
    ensures |row| >= 3 && row[|row| - 1] == Average(department.info.avgSalary)
    ensures forall i :: 0 <= i < |row| - 1 ==> row[i].Text? && row[i].text != [] && Free(row[i].text, Whitespace)
  {
    var words := WordSplit(DataRowText(department));
    assert forall i :: 0 <= i < |words| ==> words[i] in words;
    Texts(words) + [Average(department.info.avgSalary)]
  }

  lemma {:induction false} TextsAppend(a: seq<string>, b: seq<string>)
    ensures Texts(a + b) == Texts(a) + Texts(b)
  {
    assert |Texts(a + b)| == |Texts(a) + Texts(b)|;
    forall i | 0 <= i < |a + b|
      ensures Texts(a + b)[i] == (Texts(a) + Texts(b))[i]
    {
      if i >= |a| {
        assert (a + b)[i] == b[i - |a|];
      }
    }
  }

  /**
   * Whatever the name, a data row ends with the size, the range token and the
   * average, after the words of the name.
   */
  lemma DataRowShape(department: Department)
    ensures DataRow(department) ==
      Texts(WordSplit(department.name)) +
      [Text(ShowNat(department.info.size)),
       Text(RangeToken(department.info.minSalary, department.info.maxSalary)),
       Average(department.info.avgSalary)]
  {
    var size := ShowNat(department.info.size);
    var range := RangeToken(department.info.minSalary, department.info.maxSalary);
    TextsAppend(WordSplit(department.name), [size, range]);
  }

  /**
   * For a department name that is one word, the row has four cells and its
   * third is `"{min_salary}-{max_salary}"`.
   */
  lemma DataRowOneWordName(department: Department)
    requires department.name != [] && Free(department.name, Whitespace)
    ensures DataRow(department) ==
      [Text(department.name),
       Text(ShowNat(department.info.size)),
       Text(RangeToken(department.info.minSalary, department.info.maxSalary)),
       Average(department.info.avgSalary)]
  {
    DataRowShape(department);
    WordSplitWord(department.name);
  }

  /**
   * `to_csv`: the header row, then one row per department entry, in entry
   * order, as they are handed to the writer.
   */
  method ToCsv(report: SummaryReport) returns (rows: seq<seq<Cell>>)
    ensures |rows| == 1 + |report.departments|
    ensures rows[0] == HeaderRow()
    ensures forall i :: 0 <= i < |report.departments| ==> rows[i + 1] == DataRow(report.departments[i])
  {
    rows := [HeaderRow()];
    for i := 0 to |report.departments|
      invariant |rows| == 1 + i
      invariant rows[0] == HeaderRow()
      invariant forall k :: 0 <= k < i ==> rows[k + 1] == DataRow(report.departments[k])
    {
      rows := rows + [DataRow(report.departments[i])];
    }
  }
}

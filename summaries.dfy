/**
 * Class `SummaryReport` in hw.py: the roster grouped by department, in the
 * order departments are first met, and one summary record per group.
 *
 * `Departments`, `Group` and `FirstIndex` are the reference definitions the
 * grouping loop is proved against; the lemmas after them state what the
 * grouping promises.
 */
module Summaries {
  import opened Employees
  import opened Reports

  /**
   * The departments of `roster` without repetition, in the order each is
   * first met: there are no more of them than employees, and every
   * employee's department is one of them.
   */
  function Departments(roster: seq<Employee>): (ds: seq<string>)
    ensures |ds| <= |roster|
    ensures forall k :: 0 <= k < |roster| ==> roster[k].department in ds
    decreases |roster|
  {
    if roster == [] then []
    else
      var prefix := roster[..|roster| - 1];
      assert forall k :: 0 <= k < |prefix| ==> prefix[k] == roster[k];
      var seen := Departments(prefix);
      var d := roster[|roster| - 1].department;
      if d in seen then seen else seen + [d]
  }

  /** The employees of `roster` whose department is `d`, in roster order. */
  function Group(roster: seq<Employee>, d: string): (g: seq<Employee>)
    ensures |g| <= |roster|
    ensures forall k :: 0 <= k < |g| ==> g[k].department == d
    decreases |roster|
  {
    if roster == [] then []
    else
      var last := roster[|roster| - 1];
      Group(roster[..|roster| - 1], d) + (if last.department == d then [last] else [])
  }

  /** The index of the first employee of department `d`, or `|roster|` when there is none. */
  function FirstIndex(roster: seq<Employee>, d: string): (k: nat)
    ensures k <= |roster|
    ensures forall p :: 0 <= p < k ==> roster[p].department != d
    ensures k < |roster| ==> roster[k].department == d
    decreases |roster|
  {
    if roster == [] then 0
    else
      var k := FirstIndex(roster[..|roster| - 1], d);
      if k < |roster| - 1 || roster[|roster| - 1].department == d then k else |roster|
  }

  /** Every department of the roster is a key, and every key is the department of some employee. */
  lemma {:induction false} DepartmentsCover(roster: seq<Employee>)
    ensures forall k :: 0 <= k < |roster| ==> roster[k].department in Departments(roster)
    ensures forall d :: d in Departments(roster) ==> FirstIndex(roster, d) < |roster|
    decreases |roster|
  {
    if roster != [] {
      DepartmentsCover(roster[..|roster| - 1]);
    }
  }

  /** The keys are ordered by the position of each department's first employee. */
  lemma {:induction false} DepartmentsFirstSeen(roster: seq<Employee>)
    ensures forall i, j :: 0 <= i < j < |Departments(roster)| ==>
      FirstIndex(roster, Departments(roster)[i]) < FirstIndex(roster, Departments(roster)[j])
    decreases |roster|
  {
    if roster != [] {
      var prefix := roster[..|roster| - 1];
      DepartmentsFirstSeen(prefix);
      DepartmentsCover(prefix);
    }
  }

  /** No department is a key twice. */
  lemma DepartmentsDistinct(roster: seq<Employee>)
    ensures forall i, j :: 0 <= i < j < |Departments(roster)| ==> Departments(roster)[i] != Departments(roster)[j]
  {
    DepartmentsFirstSeen(roster);
  }

  /** A group holds exactly the roster's employees of its department. */
  lemma {:induction false} GroupMembers(roster: seq<Employee>, d: string)
    ensures forall e :: e in Group(roster, d) <==> e in roster && e.department == d
    decreases |roster|
  {
    if roster != [] {
      var prefix := roster[..|roster| - 1];
      GroupMembers(prefix, d);
      assert roster == prefix + [roster[|roster| - 1]];
    }
  }

  /** The indices of the roster's employees of department `d`. */
  function Positions(roster: seq<Employee>, d: string): set<nat>
  {
    set k: nat | k < |roster| && roster[k].department == d
  }

  /**
   * A group holds one entry per roster position of its department, so
   * identical lines are counted as often as they occur.
   */
  lemma {:induction false} GroupSize(roster: seq<Employee>, d: string)
    ensures |Group(roster, d)| == |Positions(roster, d)|
    decreases |roster|
  {
    if roster == [] {
      assert Positions(roster, d) == {};
    } else {
      var n := |roster| - 1;
      var prefix := roster[..n];
      GroupSize(prefix, d);
      if roster[n].department == d {
        assert Positions(roster, d) == Positions(prefix, d) + {n};
        assert n !in Positions(prefix, d);
      } else {
        assert Positions(roster, d) == Positions(prefix, d);
      }
    }
  }

  /** A group is non-empty exactly when its department is a key. */
  lemma {:induction false} GroupNonEmpty(roster: seq<Employee>, d: string)
    ensures Group(roster, d) != [] <==> d in Departments(roster)
    decreases |roster|
  {
    if roster != [] {
      GroupNonEmpty(roster[..|roster| - 1], d);
    }
  }

  /** The total size of the groups of the departments `ds`. */
  function TotalSize(roster: seq<Employee>, ds: seq<string>): nat
    decreases |ds|
  {
    if ds == [] then 0 else TotalSize(roster, ds[..|ds| - 1]) + |Group(roster, ds[|ds| - 1])|
  }

  /** One more employee adds one to the total over distinct departments that include its own. */
  lemma {:induction false} TotalSizeExtend(roster: seq<Employee>, e: Employee, ds: seq<string>)
    requires forall i, j :: 0 <= i < j < |ds| ==> ds[i] != ds[j]
    ensures TotalSize(roster + [e], ds) == TotalSize(roster, ds) + (if e.department in ds then 1 else 0)
    decreases |ds|
  {
    assert (roster + [e])[..|roster|] == roster;
    if ds != [] {
      var front := ds[..|ds| - 1];
      TotalSizeExtend(roster, e, front);
      assert ds == front + [ds[|ds| - 1]];
    }
  }

  /** The group sizes add up to the roster length. */
  lemma {:induction false} GroupSizesSum(roster: seq<Employee>)
    ensures TotalSize(roster, Departments(roster)) == |roster|
    decreases |roster|
  {
    if roster != [] {
      var prefix := roster[..|roster| - 1];
      var e := roster[|roster| - 1];
      assert roster == prefix + [e];
      var seen := Departments(prefix);
      GroupSizesSum(prefix);
      DepartmentsDistinct(prefix);
      TotalSizeExtend(prefix, e, seen);
      if e.department !in seen {
        GroupNonEmpty(prefix, e.department);
        assert (seen + [e.department])[..|seen|] == seen;
      }
    }
  }

  /**
   * The dictionary `_group_by_department` returns: its keys in insertion
   * order, and the list each key maps to.
   */
  datatype Grouping = Grouping(order: seq<string>, members: map<string, seq<Employee>>)

  /**
   * `_group_by_department`: one pass over the roster, appending each employee
   * to its department's list and adding a key the first time a department
   * is met.
   */
  method GroupByDepartment(roster: seq<Employee>) returns (g: Grouping)
    ensures g.order == Departments(roster)
    ensures forall d :: d in g.members <==> d in g.order
    ensures forall d :: d in g.members ==> g.members[d] == Group(roster, d)
  {
    var order: seq<string> := [];
    var members: map<string, seq<Employee>> := map[];
    for i := 0 to |roster|
      invariant order == Departments(roster[..i])
      invariant forall d :: d in members <==> d in order
      invariant forall d :: d in members ==> members[d] == Group(roster[..i], d)
    {
      var e := roster[i];
      assert roster[..i + 1][..i] == roster[..i];
      if e.department in members {
        members := members[e.department := members[e.department] + [e]];
      } else {
        GroupNonEmpty(roster[..i], e.department);
        members := members[e.department := [e]];
        order := order + [e.department];
      }
    }
    assert roster[..|roster|] == roster;
    g := Grouping(order, members);
  }

  /** An average kept exact: the sum of `count` salaries is `total`. */
  datatype Mean = Mean(total: nat, count: nat)

  /** What `_compute_department_info` returns for one group. */
  datatype DepartmentInfo = DepartmentInfo(size: nat, minSalary: nat, maxSalary: nat, avgSalary: Mean)

  /** One entry of `SummaryReport.departments`: a group's key with its statistics. */
  datatype Department = Department(name: string, info: DepartmentInfo)

  datatype SummaryReport = SummaryReport(departments: seq<Department>)

  /** `[e.salary for e in employees]`: the salaries, position by position. */
  function Salaries(employees: seq<Employee>): (xs: seq<nat>)
    ensures |xs| == |employees|
    ensures forall k :: 0 <= k < |xs| ==> xs[k] == employees[k].salary
    decreases |employees|
  {
    if employees == [] then [] else [employees[0].salary] + Salaries(employees[1..])
  }

  /** Python's `min` on a non-empty list. */
  function Min(xs: seq<nat>): (m: nat)
    requires xs != []
    ensures m in xs
    ensures forall k :: 0 <= k < |xs| ==> m <= xs[k]
  {
    if |xs| == 1 then xs[0]
    else
      var rest := Min(xs[1..]);
      if xs[0] <= rest then xs[0] else rest
  }

  /** Python's `max` on a non-empty list. */
  function Max(xs: seq<nat>): (m: nat)
    requires xs != []
    ensures m in xs
    ensures forall k :: 0 <= k < |xs| ==> xs[k] <= m
  {
    if |xs| == 1 then xs[0]
    else
      var rest := Max(xs[1..]);
      if rest <= xs[0] then xs[0] else rest
  }

  /** Python's `sum`; no salary exceeds the sum of all of them. */
  function Sum(xs: seq<nat>): (total: nat)
    ensures forall k :: 0 <= k < |xs| ==> xs[k] <= total
    decreases |xs|
  {
    if xs == [] then 0 else xs[0] + Sum(xs[1..])
  }

  /** A sum of values that are all at least `lo` is at least `|xs| * lo`. */
  lemma {:induction false} SumAtLeast(xs: seq<nat>, lo: nat)
    requires forall k :: 0 <= k < |xs| ==> lo <= xs[k]
    ensures |xs| * lo <= Sum(xs)
    decreases |xs|
  {
    if xs != [] {
      SumAtLeast(xs[1..], lo);
      assert |xs| * lo == lo + |xs[1..]| * lo;
    }
  }

  /** A sum of values that are all at most `hi` is at most `|xs| * hi`. */
  lemma {:induction false} SumAtMost(xs: seq<nat>, hi: nat)
    requires forall k :: 0 <= k < |xs| ==> xs[k] <= hi
    ensures Sum(xs) <= |xs| * hi
    decreases |xs|
  {
    if xs != [] {
      SumAtMost(xs[1..], hi);
      assert |xs| * hi == hi + |xs[1..]| * hi;
    }
  }

  /**
   * `_compute_department_info`: the size of a group, its smallest and
   * largest salary and its average salary. Python's `min` raises on an empty
   * group before the average's empty-list guard is reached, so the group
   * must not be empty.
   */
  function ComputeDepartmentInfo(employees: seq<Employee>): (info: DepartmentInfo)
    requires employees != []
    ensures info.size == |employees|
    ensures info.minSalary in Salaries(employees) && info.maxSalary in Salaries(employees)
    ensures forall k :: 0 <= k < |employees| ==> info.minSalary <= employees[k].salary <= info.maxSalary
    ensures info.avgSalary == Mean(Sum(Salaries(employees)), |employees|)
    ensures info.avgSalary.count * info.minSalary <= info.avgSalary.total
    ensures info.avgSalary.total <= info.avgSalary.count * info.maxSalary
  {
    var salaries := Salaries(employees);
    SumAtLeast(salaries, Min(salaries));
    SumAtMost(salaries, Max(salaries));
    DepartmentInfo(|employees|, Min(salaries), Max(salaries), Mean(Sum(salaries), |salaries|))
  }

  /** The department entry `department` summarises the group `employees`. */
  predicate Describes(department: Department, employees: seq<Employee>)
  {
    employees != [] && department.info == ComputeDepartmentInfo(employees)
  }

  /**
   * The list comprehension in `SummaryReport.__init__`: one entry per key of
   * the grouping, in key order, named by the key and summarising its list.
   */
  function Summarize(g: Grouping): (departments: seq<Department>)
    requires forall d :: d in g.order ==> d in g.members && g.members[d] != []
    ensures |departments| == |g.order|
    ensures forall i :: 0 <= i < |departments| ==>
      departments[i].name == g.order[i] && Describes(departments[i], g.members[g.order[i]])
  {
    seq(|g.order|, i requires 0 <= i < |g.order| =>
      Department(g.order[i], ComputeDepartmentInfo(g.members[g.order[i]])))
  }

  /** The entries' names, position by position. */
  function Names(departments: seq<Department>): (names: seq<string>)
    ensures |names| == |departments|
    ensures forall i :: 0 <= i < |names| ==> names[i] == departments[i].name
    decreases |departments|
  {
    if departments == [] then [] else [departments[0].name] + Names(departments[1..])
  }

  /** The entries `Summarize` makes are named by the keys, in key order. */
  lemma NamesSummarize(g: Grouping)
    requires forall d :: d in g.order ==> d in g.members && g.members[d] != []
    ensures Names(Summarize(g)) == g.order
  {
    var names := Names(Summarize(g));
    assert forall i :: 0 <= i < |names| ==> names[i] == g.order[i];
  }

  /** The sum of the `size` entries. */
  function SumSizes(departments: seq<Department>): nat
    decreases |departments|
  {
    if departments == [] then 0
    else SumSizes(departments[..|departments| - 1]) + departments[|departments| - 1].info.size
  }

  lemma {:induction false} SumSizesTotal(departments: seq<Department>, roster: seq<Employee>, ds: seq<string>)
    requires |departments| == |ds|
    requires forall i :: 0 <= i < |ds| ==> departments[i].info.size == |Group(roster, ds[i])|
    ensures SumSizes(departments) == TotalSize(roster, ds)
    decreases |ds|
  {
    if ds != [] {
      SumSizesTotal(departments[..|ds| - 1], roster, ds[..|ds| - 1]);
    }
  }

  /**
   * Summarising the grouping of a roster gives entries that each describe
   * their department's group, with sizes adding up to the roster length.
   */
  lemma SummarizeGroups(roster: seq<Employee>, g: Grouping)
    requires g.order == Departments(roster)
    requires forall d :: d in g.members <==> d in g.order
    requires forall d :: d in g.members ==> g.members[d] == Group(roster, d)
    ensures forall d :: d in g.order ==> d in g.members && g.members[d] != []
    ensures forall i :: 0 <= i < |Summarize(g)| ==> Describes(Summarize(g)[i], Group(roster, Summarize(g)[i].name))
    ensures SumSizes(Summarize(g)) == |roster|
  {
    forall d | d in g.order
      ensures g.members[d] != []
    {
      GroupNonEmpty(roster, d);
    }
    SumSizesTotal(Summarize(g), roster, g.order);
    GroupSizesSum(roster);
  }

  /**
   * Two employees of Sales and one of IT give the keys Sales then IT, the
   * first two employees in the Sales group and the third in the IT group.
   */
  lemma GroupingExample(e1: Employee, e2: Employee, e3: Employee)
    requires e1.department == "Sales" && e2.department == "Sales" && e3.department == "IT"
    ensures Departments([e1, e2, e3]) == ["Sales", "IT"]
    ensures Group([e1, e2, e3], "Sales") == [e1, e2] && Group([e1, e2, e3], "IT") == [e3]
  {
    assert [e1, e2, e3][..2] == [e1, e2] && [e1, e2][..1] == [e1] && [e1][..0] == [];
    assert Departments([e1]) == ["Sales"];
    assert Departments([e1, e2]) == ["Sales"];
    assert Group([e1], "Sales") == [e1] && Group([e1], "IT") == [];
    assert Group([e1, e2], "Sales") == [e1, e2];
    assert Group([e1, e2], "IT") == [];
  }

  /**
   * Salaries 100 and 200 give size 2, range 100-200 and average 300/2; a
   * single salary 300 gives size 1, range 300-300 and average 300/1.
   */
  lemma DepartmentInfoExample(e1: Employee, e2: Employee, e3: Employee)
    requires e1.salary == 100 && e2.salary == 200 && e3.salary == 300
    ensures ComputeDepartmentInfo([e1, e2]) == DepartmentInfo(2, 100, 200, Mean(300, 2))
    ensures ComputeDepartmentInfo([e3]) == DepartmentInfo(1, 300, 300, Mean(300, 1))
  {
    assert Salaries([e1, e2]) == [100, 200];
    assert Salaries([e3]) == [300];
    assert [100, 200][1..] == [200];
    assert Sum([200]) == 200;
  }

  /**
   * `SummaryReport.__init__`: group the roster, then summarise each group.
   * The entries are the roster's departments in first-seen order, each
   * summarising exactly that department's employees, and their sizes add up
   * to the roster length.
   */
  method NewSummaryReport(report: Report) returns (s: SummaryReport)
    ensures Names(s.departments) == Departments(report.employees)
    ensures forall i :: 0 <= i < |s.departments| ==>
      Describes(s.departments[i], Group(report.employees, s.departments[i].name))
    ensures SumSizes(s.departments) == |report.employees|
  {
    var g := GroupByDepartment(report.employees);
    SummarizeGroups(report.employees, g);
    NamesSummarize(g);
    s := SummaryReport(Summarize(g));
  }
}

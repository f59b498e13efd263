/** The record types of the employee resource. */
module EmployeeTypes {
  import opened Results
  import opened Dates

  /** `Gender`, stored and sent as the codes 'M', 'F' and 'O'. */
  datatype Gender = Male | Female | Other

  datatype Employee = Employee(
    employeeNumber: int, firstName: string, lastName: string, birthDate: Date, hireDate: Date, gender: Gender)

  /** An employee as listed by `listEmployees`, with the title the join found. */
  datatype EmployeeWithTitle = EmployeeWithTitle(
    employeeNumber: int, firstName: string, lastName: string, birthDate: Date, hireDate: Date, gender: Gender,
    title: Option<string>)

  /** `EmployeePatch = Partial<Employee>`: `None` is a field left `undefined`. */
  datatype EmployeePatch = EmployeePatch(
    employeeNumber: Option<int>, firstName: Option<string>, lastName: Option<string>,
    birthDate: Option<Date>, hireDate: Option<Date>, gender: Option<Gender>)

  /** `NewEmployee`: an employee before it has a number. */
  datatype NewEmployee = NewEmployee(firstName: string, lastName: string, birthDate: Date, hireDate: Date, gender: Gender)

  /** `EmployeesFilterOptions` */
  datatype EmployeesFilter = EmployeesFilter(title: Option<string>, limit: Option<nat>)
}

/** The `employees` table and the queries the employee resource runs against it;
    `listEmployees` also reads the `titles` table. */
module EmployeesMysql {
  import opened Results
  import opened Dates
  import opened Rows
  import opened EmployeeTypes
  import TitlesMysql

  /** A row of the `employees` table, with its column names; `title` is only
      present on the rows of the join with `titles`. */
  datatype EmployeeModel = EmployeeModel(
    emp_no: int, birth_date: Date, first_name: string, last_name: string, gender: Gender, hire_date: Date,
    title: Option<string>)

  function FromDb(emp: EmployeeModel): (r: EmployeeWithTitle)
    ensures r.employeeNumber == emp.emp_no && r.title == emp.title
  {
    EmployeeWithTitle(emp.emp_no, emp.first_name, emp.last_name, emp.birth_date, emp.hire_date, emp.gender, emp.title)
  }

  function ForDb(emp: Employee): (r: EmployeeModel)
    ensures r.emp_no == emp.employeeNumber && r.title.None?
  {
    EmployeeModel(emp.employeeNumber, emp.birthDate, emp.firstName, emp.lastName, emp.gender, emp.hireDate, None)
  }

  /** The employee part of a listed record. */
  function WithoutTitle(e: EmployeeWithTitle): Employee
  {
    Employee(e.employeeNumber, e.firstName, e.lastName, e.birthDate, e.hireDate, e.gender)
  }

  /** `forDb` drops the title and `fromDb` adds it back as absent; on every other
      field the two are inverse. */
  lemma MappingRoundTrip(e: Employee, m: EmployeeModel)
    ensures WithoutTitle(FromDb(ForDb(e))) == e
    ensures FromDb(ForDb(e)).title.None?
    ensures ForDb(WithoutTitle(FromDb(m))) == m.(title := None)
  {
  }

  /** `where('emp_no', employeeNumber)` */
  function NumberIs(employeeNumber: int): EmployeeModel -> bool
  {
    (row: EmployeeModel) => row.emp_no == employeeNumber
  }

  /** `update(forDb(employee))`: every column of the matched row is overwritten. */
  function Overwrite(m: EmployeeModel): EmployeeModel -> EmployeeModel
  {
    (row: EmployeeModel) => m
  }

  /** The `LIMIT` when the caller gave none. */
  const DefaultLimit: nat := 10

  /** A JavaScript string is truthy when it is defined and not empty. */
  predicate Truthy(s: Option<string>)
  {
    s.Some? && s.value != ""
  }

  // ---------------------------------------------------------------------------
  // The queries, as functions of the tables' rows

  /** The titles rows of employee `emp_no` whose title is `title`. */
  function HoldsTitle(emp_no: int, title: string): TitlesMysql.TitleModel -> bool
  {
    (t: TitlesMysql.TitleModel) => t.emp_no == emp_no && t.title == title
  }

  /** The rows of the join for one employee: one copy of the employee, carrying
      the joined title, per titles row of that employee with that title. */
  function JoinOne(e: EmployeeModel, titles: seq<TitlesMysql.TitleModel>, title: string): (r: seq<EmployeeModel>)
    ensures |r| == Count(titles, HoldsTitle(e.emp_no, title))
    ensures forall x :: x in r ==> x == e.(title := Some(title))
  {
    seq(Count(titles, HoldsTitle(e.emp_no, title)), i => e.(title := Some(title)))
  }

  /** The inner join of `employees` with `titles` on `emp_no`, restricted to the
      titles rows whose title is `title`, employee by employee. */
  function JoinByTitle(emps: seq<EmployeeModel>, titles: seq<TitlesMysql.TitleModel>, title: string): (r: seq<EmployeeModel>)
    ensures forall x :: x in r ==> x.title == Some(title)
    decreases |emps|
  {
    if emps == [] then [] else JoinOne(emps[0], titles, title) + JoinByTitle(emps[1..], titles, title)
  }

  /** Every row of the join is a stored employee that holds the title. */
  lemma {:induction false} JoinSound(emps: seq<EmployeeModel>, titles: seq<TitlesMysql.TitleModel>, title: string, x: EmployeeModel)
    requires x in JoinByTitle(emps, titles, title)
    ensures exists e :: e in emps && x == e.(title := Some(title)) && Count(titles, HoldsTitle(e.emp_no, title)) > 0
    decreases |emps|
  {
    var one := JoinOne(emps[0], titles, title);
    if x in one {
      assert emps[0] in emps;
    } else {
      JoinSound(emps[1..], titles, title, x);
      var e :| e in emps[1..] && x == e.(title := Some(title)) && Count(titles, HoldsTitle(e.emp_no, title)) > 0;
      assert e in emps;
    }
  }

  /** Every stored employee that holds the title is in the join. */
  lemma {:induction false} JoinComplete(emps: seq<EmployeeModel>, titles: seq<TitlesMysql.TitleModel>, title: string, e: EmployeeModel)
    requires e in emps && Count(titles, HoldsTitle(e.emp_no, title)) > 0
    ensures e.(title := Some(title)) in JoinByTitle(emps, titles, title)
    decreases |emps|
  {
    var one := JoinOne(emps[0], titles, title);
    if e == emps[0] {
      assert one[0] == e.(title := Some(title));
    } else {
      assert e in emps[1..];
      JoinComplete(emps[1..], titles, title, e);
    }
  }

  /** The `LIMIT` of a listing: the caller's, or `DefaultLimit`. */
  function LimitOf(filter: EmployeesFilter): nat
  {
    match filter.limit case Some(l) => l case None => DefaultLimit
  }

  /** What `select('*')` reads from a row of `employees`: the table has no `title`
      column, so no title comes with the row. */
  function Columns(m: EmployeeModel): (r: EmployeeModel)
    ensures r.title.None? && r.(title := m.title) == m
  {
    m.(title := None)
  }

  /** The rows `listEmployees` selects before its `LIMIT`: the join with `titles`
      when the title filter is truthy, otherwise the `employees` table itself. */
  function SelectedEmployees(rows: seq<EmployeeModel>, titles: seq<TitlesMysql.TitleModel>, filter: EmployeesFilter)
    : seq<EmployeeModel>
  {
    if Truthy(filter.title) then JoinByTitle(rows, titles, filter.title.value) else Map(Columns, rows)
  }

  /** `listEmployees(filter)`: the first `limit` selected rows (10 by default), or
      all of them when there are fewer; an empty result is not-found. */
  function ListEmployeesQuery(rows: seq<EmployeeModel>, titles: seq<TitlesMysql.TitleModel>, filter: EmployeesFilter)
    : (r: Result<seq<EmployeeWithTitle>>)
    ensures r.Err? ==> r.error == NotFound
    ensures var n := |SelectedEmployees(rows, titles, filter)|;
      r.Ok? ==> 0 < |r.value| == if LimitOf(filter) < n then LimitOf(filter) else n
    ensures r.Err? <==> LimitOf(filter) == 0 || SelectedEmployees(rows, titles, filter) == []
    ensures r.Ok? ==> forall i :: 0 <= i < |r.value| ==> r.value[i] == FromDb(SelectedEmployees(rows, titles, filter)[i])
    ensures r.Ok? && Truthy(filter.title) ==> forall i :: 0 <= i < |r.value| ==> r.value[i].title == filter.title
    ensures r.Ok? && !Truthy(filter.title) ==>
      && |r.value| <= |rows|
      && forall i :: 0 <= i < |r.value| ==> r.value[i] == FromDb(Columns(rows[i])) && r.value[i].title.None?
  {
    var selected := SelectedEmployees(rows, titles, filter);
    var page := Take(selected, LimitOf(filter));
    if |page| == 0 then Err(NotFound)
    else
      var r := Map(FromDb, page);
      assert forall i :: 0 <= i < |page| ==> page[i] in selected;
      assert forall i :: 0 <= i < |r| ==> r[i] == FromDb(page[i]);
      Ok(r)
  }

  /** `getEmployeeByNumber(n)`: the first row with that number, or not-found. */
  function EmployeeByNumber(rows: seq<EmployeeModel>, employeeNumber: int): (r: Result<Employee>)
    ensures r.Err? ==> r.error == NotFound
    ensures r.Err? <==> forall m :: m in rows ==> m.emp_no != employeeNumber
    ensures r.Ok? ==> r.value.employeeNumber == employeeNumber
  {
    match First(rows, NumberIs(employeeNumber))
    case None => Err(NotFound)
    case Some(m) => Ok(WithoutTitle(FromDb(m)))
  }

  /** The calls an employee operation issues against the tables, for the record. */
  datatype EmployeeCall =
    | EmployeeList(filter: EmployeesFilter)
    | EmployeeRead(employeeNumber: int)
    | EmployeeInsert(employee: Employee)
    | EmployeeSave(employee: Employee)
    | EmployeeDelete(employeeNumber: int)

  /** The `employees` table. */
  class EmployeeStore {
    var rows: seq<EmployeeModel>
    ghost var calls: seq<EmployeeCall>

    constructor(initial: seq<EmployeeModel>)
      ensures rows == initial && calls == []
    {
      rows := initial;
      calls := [];
    }

    /** `listEmployees(filter)`, joining with the given rows of `titles`. */
    method ListEmployees(filter: EmployeesFilter, titles: seq<TitlesMysql.TitleModel>) returns (r: Result<seq<EmployeeWithTitle>>)
      modifies this`calls
      ensures r == ListEmployeesQuery(rows, titles, filter)
      ensures calls == old(calls) + [EmployeeList(filter)]
    {
      r := ListEmployeesQuery(rows, titles, filter);
      calls := calls + [EmployeeList(filter)];
    }

    method GetEmployeeByNumber(employeeNumber: int) returns (r: Result<Employee>)
      modifies this`calls
      ensures r == EmployeeByNumber(rows, employeeNumber)
      ensures calls == old(calls) + [EmployeeRead(employeeNumber)]
    {
      r := EmployeeByNumber(rows, employeeNumber);
      calls := calls + [EmployeeRead(employeeNumber)];
    }

    /** `insertEmployee(employee)`: appends the row. `emp_no` is the table's primary
        key, so the database refuses the row when its number is taken; the returned
        id is not modelled. */
    method InsertEmployee(e: Employee) returns (r: Result<()>)
      modifies this
      ensures r == if Count(old(rows), NumberIs(e.employeeNumber)) > 0 then Err(KeyTaken) else Ok(())
      ensures rows == if r.Ok? then old(rows) + [ForDb(e)] else old(rows)
      ensures NumbersUnique(old(rows)) ==> NumbersUnique(rows)
      ensures calls == old(calls) + [EmployeeInsert(e)]
    {
      calls := calls + [EmployeeInsert(e)];
      if Count(rows, NumberIs(e.employeeNumber)) > 0 {
        return Err(KeyTaken);
      }
      if NumbersUnique(rows) {
        InsertKeepsNumbersUnique(rows, e);
      }
      rows := rows + [ForDb(e)];
      r := Ok(());
    }

    /** `saveEmployee(employee)`: the rows with the record's own number are
        overwritten with it; not-found when there are none. */
    method SaveEmployee(e: Employee) returns (r: Result<()>)
      modifies this
      ensures rows == UpdateWhere(old(rows), NumberIs(e.employeeNumber), Overwrite(ForDb(e)))
      ensures r == if Count(old(rows), NumberIs(e.employeeNumber)) < 1 then Err(NotFound) else Ok(())
      ensures r.Err? ==> rows == old(rows)
      ensures NumbersUnique(old(rows)) ==> NumbersUnique(rows)
      ensures calls == old(calls) + [EmployeeSave(e)]
    {
      if NumbersUnique(rows) {
        SaveKeepsNumbersUnique(rows, e);
      }
      var rowsAffected := Count(rows, NumberIs(e.employeeNumber));
      if rowsAffected < 1 {
        UpdateWhereNoMatch(rows, NumberIs(e.employeeNumber), Overwrite(ForDb(e)));
      }
      rows := UpdateWhere(rows, NumberIs(e.employeeNumber), Overwrite(ForDb(e)));
      calls := calls + [EmployeeSave(e)];
      if rowsAffected < 1 {
        r := Err(NotFound);
      } else {
        r := Ok(());
      }
    }

    /** `deleteEmployeeByNumber(n)`: removes the rows with that number; not-found
        when none. */
    method DeleteEmployeeByNumber(employeeNumber: int) returns (r: Result<()>)
      modifies this
      ensures rows == DeleteWhere(old(rows), NumberIs(employeeNumber))
      ensures r == if Count(old(rows), NumberIs(employeeNumber)) < 1 then Err(NotFound) else Ok(())
      ensures NumbersUnique(old(rows)) ==> NumbersUnique(rows)
      ensures calls == old(calls) + [EmployeeDelete(employeeNumber)]
    {
      if NumbersUnique(rows) {
        DeleteKeepsNumbersUnique(rows, employeeNumber);
      }
      var rowsAffected := Count(rows, NumberIs(employeeNumber));
      rows := DeleteWhere(rows, NumberIs(employeeNumber));
      calls := calls + [EmployeeDelete(employeeNumber)];
      if rowsAffected < 1 {
        r := Err(NotFound);
      } else {
        r := Ok(());
      }
    }
  }

  // ---------------------------------------------------------------------------
  // Properties of the queries

  /** With a truthy title filter, every listed employee is a stored employee with
      a titles row equal to the filter. */
  lemma ListEmployeesByTitleSound(
    rows: seq<EmployeeModel>, titles: seq<TitlesMysql.TitleModel>, filter: EmployeesFilter, i: int)
    requires Truthy(filter.title) && ListEmployeesQuery(rows, titles, filter).Ok?
    requires 0 <= i < |ListEmployeesQuery(rows, titles, filter).value|
    ensures var x := ListEmployeesQuery(rows, titles, filter).value[i];
      exists e :: e in rows && FromDb(e.(title := filter.title)) == x && Count(titles, HoldsTitle(e.emp_no, filter.title.value)) > 0
  {
    var joined := JoinByTitle(rows, titles, filter.title.value);
    assert joined[i] in joined;
    JoinSound(rows, titles, filter.title.value, joined[i]);
  }

  /** With a truthy title filter, an employee with a titles row equal to the filter
      is listed when the join has no more rows than the limit. */
  lemma ListEmployeesFindsTitleHolder(
    rows: seq<EmployeeModel>, titles: seq<TitlesMysql.TitleModel>, filter: EmployeesFilter,
    e: EmployeeModel, t: TitlesMysql.TitleModel)
    requires Truthy(filter.title)
    requires e in rows && t in titles && t.emp_no == e.emp_no && t.title == filter.title.value
    requires |JoinByTitle(rows, titles, filter.title.value)| <= LimitOf(filter)
    ensures ListEmployeesQuery(rows, titles, filter).Ok?
    ensures FromDb(e.(title := filter.title)) in ListEmployeesQuery(rows, titles, filter).value
  {
    var joined := JoinByTitle(rows, titles, filter.title.value);
    assert HoldsTitle(e.emp_no, filter.title.value)(t);
    JoinComplete(rows, titles, filter.title.value, e);
    var x := e.(title := filter.title);
    var i :| 0 <= i < |joined| && joined[i] == x;
    assert ListEmployeesQuery(rows, titles, filter).value[i] == FromDb(x);
  }

  /** Listing fails with not-found exactly when the limit is 0, or nothing
      qualifies: an empty table without a title filter, no employee holding the
      title with one. */
  lemma ListEmployeesEmpty(rows: seq<EmployeeModel>, titles: seq<TitlesMysql.TitleModel>, filter: EmployeesFilter)
    ensures ListEmployeesQuery(rows, titles, filter).Err? <==>
      || filter.limit == Some(0)
      || (!Truthy(filter.title) && rows == [])
      || (Truthy(filter.title) && forall e :: e in rows ==> Count(titles, HoldsTitle(e.emp_no, filter.title.value)) == 0)
  {
    if Truthy(filter.title) {
      var title := filter.title.value;
      var joined := JoinByTitle(rows, titles, title);
      if joined != [] {
        JoinSound(rows, titles, title, joined[0]);
      }
      if e :| e in rows && Count(titles, HoldsTitle(e.emp_no, title)) > 0 {
        JoinComplete(rows, titles, title, e);
      }
    }
  }

  /** `getEmployeeByNumber` returns the first stored row with the number. */
  lemma EmployeeByNumberIsFirstRow(rows: seq<EmployeeModel>, employeeNumber: int)
    requires EmployeeByNumber(rows, employeeNumber).Ok?
    ensures exists i ::
      && 0 <= i < |rows| && rows[i].emp_no == employeeNumber
      && EmployeeByNumber(rows, employeeNumber).value == WithoutTitle(FromDb(rows[i]))
      && forall j :: 0 <= j < i ==> rows[j].emp_no != employeeNumber
  {
    var i := FirstIndex(rows, NumberIs(employeeNumber)).value;
    assert NumberIs(employeeNumber)(rows[i]);
  }

  /** After `insertEmployee(e)` into a table without a row numbered like e, the
      employee read back by its number is e. */
  lemma InsertThenGet(rows: seq<EmployeeModel>, e: Employee)
    requires EmployeeByNumber(rows, e.employeeNumber).Err?
    ensures EmployeeByNumber(rows + [ForDb(e)], e.employeeNumber) == Ok(e)
  {
    FirstOfAppend(rows, ForDb(e), NumberIs(e.employeeNumber));
    MappingRoundTrip(e, ForDb(e));
  }

  /** After a successful `saveEmployee(e)` the employee read by its number is e. */
  lemma SaveThenGet(rows: seq<EmployeeModel>, e: Employee)
    requires Count(rows, NumberIs(e.employeeNumber)) > 0
    ensures EmployeeByNumber(UpdateWhere(rows, NumberIs(e.employeeNumber), Overwrite(ForDb(e))), e.employeeNumber) == Ok(e)
  {
    UpdateAllTo(rows, NumberIs(e.employeeNumber), Overwrite(ForDb(e)), ForDb(e));
    MappingRoundTrip(e, ForDb(e));
  }

  /** The primary key of `employees`: no two rows have the same `emp_no`. */
  predicate NumbersUnique(rows: seq<EmployeeModel>)
  {
    forall i, j :: 0 <= i < j < |rows| ==> rows[i].emp_no != rows[j].emp_no
  }

  /** An accepted insert keeps the numbers unique. */
  lemma InsertKeepsNumbersUnique(rows: seq<EmployeeModel>, e: Employee)
    requires NumbersUnique(rows)
    requires Count(rows, NumberIs(e.employeeNumber)) == 0
    ensures NumbersUnique(rows + [ForDb(e)])
  {
    var after := rows + [ForDb(e)];
    forall i, j | 0 <= i < j < |after| ensures after[i].emp_no != after[j].emp_no {
      if j == |rows| {
        assert after[i] in rows;
        assert !NumberIs(e.employeeNumber)(after[i]);
      }
    }
  }

  /** A save writes the row under the number it matched, so it keeps the numbers
      unique. */
  lemma SaveKeepsNumbersUnique(rows: seq<EmployeeModel>, e: Employee)
    requires NumbersUnique(rows)
    ensures NumbersUnique(UpdateWhere(rows, NumberIs(e.employeeNumber), Overwrite(ForDb(e))))
  {
    var after := UpdateWhere(rows, NumberIs(e.employeeNumber), Overwrite(ForDb(e)));
    assert forall i :: 0 <= i < |rows| ==> after[i].emp_no == rows[i].emp_no;
  }

  /** The rows after the first of a table with unique numbers have unique numbers,
      all different from the first row's. */
  lemma UniqueTail(rows: seq<EmployeeModel>)
    requires rows != [] && NumbersUnique(rows)
    ensures NumbersUnique(rows[1..])
    ensures forall x :: x in rows[1..] ==> x.emp_no != rows[0].emp_no
  {
    forall x | x in rows[1..] ensures x.emp_no != rows[0].emp_no {
      var k :| 0 <= k < |rows[1..]| && rows[1..][k] == x;
      assert rows[k + 1] == x;
    }
  }

  /** A row whose number no other row has, put in front of a table with unique
      numbers, keeps them unique. */
  lemma UniqueCons(m: EmployeeModel, rows: seq<EmployeeModel>)
    requires NumbersUnique(rows)
    requires forall x :: x in rows ==> x.emp_no != m.emp_no
    ensures NumbersUnique([m] + rows)
  {
    var after := [m] + rows;
    forall i, j | 0 <= i < j < |after| ensures after[i].emp_no != after[j].emp_no {
      assert after[j] == rows[j - 1];
      if i == 0 {
        assert rows[j - 1] in rows;
      } else {
        assert after[i] == rows[i - 1];
      }
    }
  }

  /** A delete keeps the numbers unique. */
  lemma {:induction false} DeleteKeepsNumbersUnique(rows: seq<EmployeeModel>, employeeNumber: int)
    requires NumbersUnique(rows)
    ensures NumbersUnique(DeleteWhere(rows, NumberIs(employeeNumber)))
    decreases |rows|
  {
    if rows != [] {
      var p := NumberIs(employeeNumber);
      var tail := DeleteWhere(rows[1..], p);
      UniqueTail(rows);
      DeleteKeepsNumbersUnique(rows[1..], employeeNumber);
      if !p(rows[0]) {
        UniqueCons(rows[0], tail);
      }
    }
  }

  /** After `deleteEmployeeByNumber(n)` a read of n fails with not-found and a
      second delete affects no row. */
  lemma DeleteThenGet(rows: seq<EmployeeModel>, employeeNumber: int)
    ensures EmployeeByNumber(DeleteWhere(rows, NumberIs(employeeNumber)), employeeNumber) == Err(NotFound)
    ensures Count(DeleteWhere(rows, NumberIs(employeeNumber)), NumberIs(employeeNumber)) == 0
  {
    var after := DeleteWhere(rows, NumberIs(employeeNumber));
    assert forall m :: m in after ==> !NumberIs(employeeNumber)(m);
  }
}

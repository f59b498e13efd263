/** The employee service: read, create, edit and delete employees. */
module EmployeesService {
  import opened Results
  import opened Dates
  import opened Rows
  import opened EmployeeTypes
  import opened EmployeesMysql

  type EmployeeEffect = Effect<Employee, EmployeeModel, EmployeeCall>

  /** A draw of `Math.floor(Math.random() * 10000)`: the new employee's number. */
  type NumberDraw = n: int | 0 <= n < 10000

  /** `{ ...newEmployee, employeeNumber }` */
  function WithNumber(e: NewEmployee, employeeNumber: int): (r: Employee)
    ensures r.employeeNumber == employeeNumber
    ensures r.firstName == e.firstName && r.lastName == e.lastName
    ensures r.birthDate == e.birthDate && r.hireDate == e.hireDate && r.gender == e.gender
  {
    Employee(employeeNumber, e.firstName, e.lastName, e.birthDate, e.hireDate, e.gender)
  }

  /** `applyPatch`: every field the patch defines overrides the employee's, every
      other field is kept. */
  function ApplyPatch(e: Employee, patch: EmployeePatch): (r: Employee)
    ensures patch.employeeNumber.Some? ==> r.employeeNumber == patch.employeeNumber.value
    ensures patch.employeeNumber.None? ==> r.employeeNumber == e.employeeNumber
    ensures patch.firstName.Some? ==> r.firstName == patch.firstName.value
    ensures patch.firstName.None? ==> r.firstName == e.firstName
    ensures patch.lastName.Some? ==> r.lastName == patch.lastName.value
    ensures patch.lastName.None? ==> r.lastName == e.lastName
    ensures patch.birthDate.Some? ==> r.birthDate == patch.birthDate.value
    ensures patch.birthDate.None? ==> r.birthDate == e.birthDate
    ensures patch.hireDate.Some? ==> r.hireDate == patch.hireDate.value
    ensures patch.hireDate.None? ==> r.hireDate == e.hireDate
    ensures patch.gender.Some? ==> r.gender == patch.gender.value
    ensures patch.gender.None? ==> r.gender == e.gender
  {
    Employee(
      match patch.employeeNumber case Some(v) => v case None => e.employeeNumber,
      match patch.firstName case Some(v) => v case None => e.firstName,
      match patch.lastName case Some(v) => v case None => e.lastName,
      match patch.birthDate case Some(v) => v case None => e.birthDate,
      match patch.hireDate case Some(v) => v case None => e.hireDate,
      match patch.gender case Some(v) => v case None => e.gender)
  }

  // ---------------------------------------------------------------------------
  // What each operation does

  /** `createEmployee(newEmployee)` when the random draw is `n`: the insert is
      refused when the number is taken, and otherwise the number is read back. */
  function CreateEmployeeSpec(rows: seq<EmployeeModel>, e: NewEmployee, n: NumberDraw): EmployeeEffect
  {
    if Count(rows, NumberIs(n)) > 0 then Effect(Err(KeyTaken), rows, [EmployeeInsert(WithNumber(e, n))])
    else
      var after := rows + [ForDb(WithNumber(e, n))];
      Effect(EmployeeByNumber(after, n), after, [EmployeeInsert(WithNumber(e, n)), EmployeeRead(n)])
  }

  /** `editEmployee(employeeNumber, patch)` */
  function EditEmployeeSpec(rows: seq<EmployeeModel>, employeeNumber: int, patch: EmployeePatch): EmployeeEffect
  {
    match EmployeeByNumber(rows, employeeNumber)
    case Err(e) => Effect(Err(e), rows, [EmployeeRead(employeeNumber)])
    case Ok(current) =>
      var e := SaveAndReadSpec(rows, ApplyPatch(current, patch), employeeNumber);
      Effect(e.result, e.rows, [EmployeeRead(employeeNumber)] + e.calls)
  }

  /** The tail of `editEmployee`: save the merged employee under its own number,
      then read the original number back. */
  function SaveAndReadSpec(rows: seq<EmployeeModel>, merged: Employee, employeeNumber: int): EmployeeEffect
  {
    var after := UpdateWhere(rows, NumberIs(merged.employeeNumber), Overwrite(ForDb(merged)));
    if Count(rows, NumberIs(merged.employeeNumber)) < 1 then Effect(Err(NotFound), after, [EmployeeSave(merged)])
    else Effect(EmployeeByNumber(after, employeeNumber), after, [EmployeeSave(merged), EmployeeRead(employeeNumber)])
  }

  // ---------------------------------------------------------------------------
  // The operations

  /** `getEmployee(n)`: handed to the store unchanged. */
  method GetEmployee(db: EmployeeStore, employeeNumber: int) returns (r: Result<Employee>)
    modifies db`calls
    ensures r == EmployeeByNumber(db.rows, employeeNumber)
    ensures db.calls == old(db.calls) + [EmployeeRead(employeeNumber)]
  {
    r := db.GetEmployeeByNumber(employeeNumber);
  }

  method CreateEmployee(db: EmployeeStore, newEmployee: NewEmployee, n: NumberDraw) returns (r: Result<Employee>)
    modifies db
    ensures var e := CreateEmployeeSpec(old(db.rows), newEmployee, n);
      r == e.result && db.rows == e.rows && db.calls == old(db.calls) + e.calls
  {
    var inserted := db.InsertEmployee(WithNumber(newEmployee, n));
    if inserted.Err? {
      return Err(inserted.error);
    }
    AppendCalls(old(db.calls), [EmployeeInsert(WithNumber(newEmployee, n))], [EmployeeRead(n)]);
    TwoCalls(EmployeeInsert(WithNumber(newEmployee, n)), EmployeeRead(n));
    r := db.GetEmployeeByNumber(n);
  }

  method EditEmployee(db: EmployeeStore, employeeNumber: int, patch: EmployeePatch) returns (r: Result<Employee>)
    modifies db
    ensures var e := EditEmployeeSpec(old(db.rows), employeeNumber, patch);
      r == e.result && db.rows == e.rows && db.calls == old(db.calls) + e.calls
  {
    var employee := db.GetEmployeeByNumber(employeeNumber);
    if employee.Err? {
      return Err(employee.error);
    }
    var updatedEmployee := ApplyPatch(employee.value, patch);
    ghost var tail := SaveAndReadSpec(db.rows, updatedEmployee, employeeNumber);
    AppendCalls(old(db.calls), [EmployeeRead(employeeNumber)], tail.calls);
    r := SaveAndRead(db, updatedEmployee, employeeNumber);
  }

  method SaveAndRead(db: EmployeeStore, merged: Employee, employeeNumber: int) returns (r: Result<Employee>)
    modifies db
    ensures var e := SaveAndReadSpec(old(db.rows), merged, employeeNumber);
      r == e.result && db.rows == e.rows && db.calls == old(db.calls) + e.calls
  {
    ghost var e := SaveAndReadSpec(db.rows, merged, employeeNumber);
    var saved := db.SaveEmployee(merged);
    if saved.Err? {
      return Err(saved.error);
    }
    assert db.rows == e.rows;
    AppendCalls(old(db.calls), [EmployeeSave(merged)], [EmployeeRead(employeeNumber)]);
    TwoCalls(EmployeeSave(merged), EmployeeRead(employeeNumber));
    r := db.GetEmployeeByNumber(employeeNumber);
  }

  /** `deleteEmployee(n)`: handed to the store; it returns nothing. */
  method DeleteEmployee(db: EmployeeStore, employeeNumber: int) returns (r: Result<()>)
    modifies db
    ensures db.rows == DeleteWhere(old(db.rows), NumberIs(employeeNumber))
    ensures r == if Count(old(db.rows), NumberIs(employeeNumber)) < 1 then Err(NotFound) else Ok(())
    ensures db.calls == old(db.calls) + [EmployeeDelete(employeeNumber)]
  {
    r := db.DeleteEmployeeByNumber(employeeNumber);
  }

  // ---------------------------------------------------------------------------
  // Properties

  /** `createEmployee` under a free number appends the new employee and returns
      it after the insert and one read; under a taken number the database refuses
      the insert and the table is unchanged. */
  lemma CreateEmployeeOutcome(rows: seq<EmployeeModel>, e: NewEmployee, n: NumberDraw)
    ensures var eff := CreateEmployeeSpec(rows, e, n);
      && (eff.result.Ok? <==> EmployeeByNumber(rows, n).Err?)
      && (EmployeeByNumber(rows, n).Err? ==>
            && eff.result == Ok(WithNumber(e, n))
            && eff.rows == rows + [ForDb(WithNumber(e, n))]
            && eff.calls == [EmployeeInsert(WithNumber(e, n)), EmployeeRead(n)])
      && (EmployeeByNumber(rows, n).Ok? ==>
            eff == Effect(Err(KeyTaken), rows, [EmployeeInsert(WithNumber(e, n))]))
  {
    if EmployeeByNumber(rows, n).Err? {
      InsertThenGet(rows, WithNumber(e, n));
    } else {
      var m := First(rows, NumberIs(n)).value;
      assert m in rows && NumberIs(n)(m);
    }
  }

  /** `createEmployee` keeps the numbers of the table unique. */
  lemma CreateKeepsNumbersUnique(rows: seq<EmployeeModel>, e: NewEmployee, n: NumberDraw)
    requires NumbersUnique(rows)
    ensures NumbersUnique(CreateEmployeeSpec(rows, e, n).rows)
  {
    if Count(rows, NumberIs(n)) == 0 {
      InsertKeepsNumbersUnique(rows, WithNumber(e, n));
    }
  }

  /** `editEmployee` keeps the numbers of the table unique, renumbering included:
      the save only overwrites rows that already have the merged number. */
  lemma EditKeepsNumbersUnique(rows: seq<EmployeeModel>, employeeNumber: int, patch: EmployeePatch)
    requires NumbersUnique(rows)
    ensures NumbersUnique(EditEmployeeSpec(rows, employeeNumber, patch).rows)
  {
    if EmployeeByNumber(rows, employeeNumber).Ok? {
      SaveKeepsNumbersUnique(rows, ApplyPatch(EmployeeByNumber(rows, employeeNumber).value, patch));
    }
  }

  /** `editEmployee` on a missing number fails with not-found after the read alone. */
  lemma EditEmployeeMissing(rows: seq<EmployeeModel>, employeeNumber: int, patch: EmployeePatch)
    requires EmployeeByNumber(rows, employeeNumber).Err?
    ensures EditEmployeeSpec(rows, employeeNumber, patch) == Effect(Err(NotFound), rows, [EmployeeRead(employeeNumber)])
  {
  }

  /** Saving an employee whose number is in the table and reading that number back
      returns the employee. */
  lemma SaveAndReadOwnNumber(rows: seq<EmployeeModel>, merged: Employee)
    requires Count(rows, NumberIs(merged.employeeNumber)) > 0
    ensures SaveAndReadSpec(rows, merged, merged.employeeNumber) ==
      Effect(Ok(merged), UpdateWhere(rows, NumberIs(merged.employeeNumber), Overwrite(ForDb(merged))),
        [EmployeeSave(merged), EmployeeRead(merged.employeeNumber)])
  {
    SaveThenGet(rows, merged);
  }

  /** An edit that keeps the number overwrites the employee's rows with the merged
      record and returns it. */
  lemma EditEmployeeSameNumber(rows: seq<EmployeeModel>, employeeNumber: int, patch: EmployeePatch)
    requires EmployeeByNumber(rows, employeeNumber).Ok?
    requires patch.employeeNumber.None? || patch.employeeNumber == Some(employeeNumber)
    ensures var merged := ApplyPatch(EmployeeByNumber(rows, employeeNumber).value, patch);
      var e := EditEmployeeSpec(rows, employeeNumber, patch);
      && e.result == Ok(merged)
      && e.rows == UpdateWhere(rows, NumberIs(employeeNumber), Overwrite(ForDb(merged)))
      && e.calls == [EmployeeRead(employeeNumber), EmployeeSave(merged), EmployeeRead(employeeNumber)]
  {
    var merged := ApplyPatch(EmployeeByNumber(rows, employeeNumber).value, patch);
    assert merged.employeeNumber == employeeNumber;
    assert Count(rows, NumberIs(employeeNumber)) > 0 by {
      var m := First(rows, NumberIs(employeeNumber)).value;
      assert m in rows && NumberIs(employeeNumber)(m);
    }
    SaveAndReadOwnNumber(rows, merged);
    ThreeCalls(EmployeeRead(employeeNumber), EmployeeSave(merged), EmployeeRead(employeeNumber));
  }

  /** An edit that changes the number saves under the new number and reads the old
      one back: with no employee under the new number it fails with not-found and
      changes nothing; otherwise that other employee is overwritten and the
      employee under the old number is returned as it was. */
  lemma EditEmployeeRenumber(rows: seq<EmployeeModel>, employeeNumber: int, patch: EmployeePatch)
    requires EmployeeByNumber(rows, employeeNumber).Ok?
    requires patch.employeeNumber.Some? && patch.employeeNumber.value != employeeNumber
    ensures var e := EditEmployeeSpec(rows, employeeNumber, patch);
      && (EmployeeByNumber(rows, patch.employeeNumber.value).Err? ==> e.result == Err(NotFound) && e.rows == rows)
      && (EmployeeByNumber(rows, patch.employeeNumber.value).Ok? ==> e.result == EmployeeByNumber(rows, employeeNumber))
  {
    var merged := ApplyPatch(EmployeeByNumber(rows, employeeNumber).value, patch);
    var p := NumberIs(merged.employeeNumber);
    if EmployeeByNumber(rows, merged.employeeNumber).Err? {
      UpdateWhereNoMatch(rows, p, Overwrite(ForDb(merged)));
    } else {
      UpdateElsewhere(rows, p, Overwrite(ForDb(merged)), NumberIs(employeeNumber));
    }
  }

  /** The empty patch changes nothing and a patch applied twice is applied once. */
  lemma ApplyPatchLaws(e: Employee, patch: EmployeePatch)
    ensures ApplyPatch(e, EmployeePatch(None, None, None, None, None, None)) == e
    ensures ApplyPatch(ApplyPatch(e, patch), patch) == ApplyPatch(e, patch)
  {
  }
}

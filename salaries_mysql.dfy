/** The record types of the salary resource (`Salary`, `SalaryKey` and the
    `Partial<Salary>` that patches use). */
module SalaryTypes {
  import opened Results
  import opened Dates

  /** One contiguous compensation period [fromDate, toDate) of one employee. */
  datatype Salary = Salary(employeeNumber: int, salary: int, fromDate: Date, toDate: Date)

  /** The composite key of a salary record. */
  datatype SalaryKey = SalaryKey(employeeNumber: int, fromDate: Date)

  /** `Partial<Salary>`: `None` is a field left `undefined`. */
  datatype SalaryPatch = SalaryPatch(
    employeeNumber: Option<int>, salary: Option<int>, fromDate: Option<Date>, toDate: Option<Date>)

  function KeyOf(s: Salary): SalaryKey
  {
    SalaryKey(s.employeeNumber, s.fromDate)
  }
}

/** The `salaries` table and the queries the salary resource runs against it. */
module SalariesMysql {
  import opened Results
  import opened Dates
  import opened Rows
  import opened SalaryTypes

  /** A row of the `salaries` table, with its column names. */
  datatype SalaryModel = SalaryModel(emp_no: int, salary: int, from_date: Date, to_date: Date)

  function FromDb(m: SalaryModel): (s: Salary)
    ensures ForDb(s) == m
  {
    Salary(m.emp_no, m.salary, m.from_date, m.to_date)
  }

  function ForDb(s: Salary): (m: SalaryModel)
    ensures m.emp_no == s.employeeNumber && m.salary == s.salary
    ensures m.from_date == s.fromDate && m.to_date == s.toDate
  {
    SalaryModel(s.employeeNumber, s.salary, s.fromDate, s.toDate)
  }

  /** The column mapping loses nothing in either direction. */
  lemma MappingRoundTrip(s: Salary, m: SalaryModel)
    ensures FromDb(ForDb(s)) == s
    ensures ForDb(FromDb(m)) == m
  {
  }

  /** The WHERE clause of `getOverlappingSalaries`, with the candidate's columns
      `p` bound to the named parameters: the row belongs to the same employee and
      either starts on the same day, or starts strictly inside the candidate, or
      the candidate starts strictly inside the row. */
  predicate Overlaps(p: SalaryModel, row: SalaryModel): (r: bool)
    ensures r ==> row.emp_no == p.emp_no
    ensures row.emp_no == p.emp_no && row.from_date == p.from_date ==> r
    ensures r && p.from_date < row.from_date ==> row.from_date < p.to_date
    ensures r && row.from_date < p.from_date ==> p.from_date < row.to_date
  {
    && row.emp_no == p.emp_no
    && (|| p.from_date == row.from_date
        || (p.from_date < row.from_date && p.to_date > row.from_date)
        || (row.from_date < p.from_date && row.to_date > p.from_date))
  }

  function OverlapsWith(p: SalaryModel): SalaryModel -> bool
  {
    row => Overlaps(p, row)
  }

  /** `where({ emp_no: key.employeeNumber, from_date: key.fromDate })` */
  function KeyIs(key: SalaryKey): SalaryModel -> bool
  {
    (row: SalaryModel) => row.emp_no == key.employeeNumber && row.from_date == key.fromDate
  }

  /** `where({ emp_no: employeeNumber })` */
  function EmployeeIs(employeeNumber: int): SalaryModel -> bool
  {
    (row: SalaryModel) => row.emp_no == employeeNumber
  }

  /** `update(patch)`: the columns whose patch field is defined are overwritten. */
  function PatchRow(patch: SalaryPatch, row: SalaryModel): (r: SalaryModel)
    ensures patch.employeeNumber.Some? ==> r.emp_no == patch.employeeNumber.value
    ensures patch.employeeNumber.None? ==> r.emp_no == row.emp_no
    ensures patch.salary.Some? ==> r.salary == patch.salary.value
    ensures patch.salary.None? ==> r.salary == row.salary
    ensures patch.fromDate.Some? ==> r.from_date == patch.fromDate.value
    ensures patch.fromDate.None? ==> r.from_date == row.from_date
    ensures patch.toDate.Some? ==> r.to_date == patch.toDate.value
    ensures patch.toDate.None? ==> r.to_date == row.to_date
  {
    SalaryModel(
      match patch.employeeNumber case Some(v) => v case None => row.emp_no,
      match patch.salary case Some(v) => v case None => row.salary,
      match patch.fromDate case Some(v) => v case None => row.from_date,
      match patch.toDate case Some(v) => v case None => row.to_date)
  }

  function PatchColumns(patch: SalaryPatch): SalaryModel -> SalaryModel
  {
    row => PatchRow(patch, row)
  }

  // ---------------------------------------------------------------------------
  // The queries, as functions of the table's rows

  /** `getOverlappingSalaries(salary)`: the stored salaries that the overlap rule
      flags for the candidate. */
  function OverlappingSalaries(rows: seq<SalaryModel>, s: Salary): (r: seq<Salary>)
    ensures |r| <= |rows|
    ensures forall x :: x in r ==> ForDb(x) in rows && Overlaps(ForDb(s), ForDb(x))
    ensures forall m :: m in rows && Overlaps(ForDb(s), m) ==> FromDb(m) in r
    ensures forall x :: x in r ==> x.employeeNumber == s.employeeNumber
  {
    var hits := Filter(rows, OverlapsWith(ForDb(s)));
    var r := Map(FromDb, hits);
    assert forall x :: x in r ==> ForDb(x) in hits by {
      forall x | x in r ensures ForDb(x) in hits {
        var i :| 0 <= i < |r| && r[i] == x;
        assert ForDb(x) == hits[i];
      }
    }
    assert forall m :: m in hits ==> FromDb(m) in r by {
      forall m | m in hits ensures FromDb(m) in r {
        var i :| 0 <= i < |hits| && hits[i] == m;
        assert r[i] == FromDb(m);
      }
    }
    r
  }

  /** `getSalaryByKey(key)`: the first row with that key, or not-found. */
  function SalaryByKey(rows: seq<SalaryModel>, key: SalaryKey): (r: Result<Salary>)
    ensures r.Err? ==> r.error == NotFound
    ensures r.Err? <==> forall m :: m in rows ==> !(m.emp_no == key.employeeNumber && m.from_date == key.fromDate)
    ensures r.Ok? ==> ForDb(r.value) in rows && KeyOf(r.value) == key
  {
    match First(rows, KeyIs(key))
    case None => Err(NotFound)
    case Some(m) => Ok(FromDb(m))
  }

  /** `getSalariesByEmployeeNumber(n)`: every salary of employee n, in table order. */
  function SalariesOf(rows: seq<SalaryModel>, employeeNumber: int): (r: seq<Salary>)
    ensures forall x :: x in r ==> x.employeeNumber == employeeNumber && ForDb(x) in rows
    ensures forall m :: m in rows && m.emp_no == employeeNumber ==> FromDb(m) in r
  {
    var hits := Filter(rows, EmployeeIs(employeeNumber));
    var r := Map(FromDb, hits);
    assert forall x :: x in r ==> ForDb(x) in hits by {
      forall x | x in r ensures ForDb(x) in hits {
        var i :| 0 <= i < |r| && r[i] == x;
        assert ForDb(x) == hits[i];
      }
    }
    assert forall m :: m in hits ==> FromDb(m) in r by {
      forall m | m in hits ensures FromDb(m) in r {
        var i :| 0 <= i < |hits| && hits[i] == m;
        assert r[i] == FromDb(m);
      }
    }
    r
  }

  /** The calls a salary operation issues against the table, for the record. */
  datatype SalaryCall =
    | OverlapQuery(candidate: Salary)
    | GetByKey(key: SalaryKey)
    | ListByEmployee(employeeNumber: int)
    | Insert(salary: Salary)
    | Save(key: SalaryKey, patch: SalaryPatch)
    | Delete(key: SalaryKey)

  /** The `salaries` table. `calls` records every query issued against it. */
  class SalaryStore {
    var rows: seq<SalaryModel>
    ghost var calls: seq<SalaryCall>

    constructor (initial: seq<SalaryModel>)
      ensures rows == initial && calls == []
    {
      rows := initial;
      calls := [];
    }

    method GetOverlappingSalaries(s: Salary) returns (r: seq<Salary>)
      modifies this`calls
      ensures r == OverlappingSalaries(rows, s)
      ensures calls == old(calls) + [OverlapQuery(s)]
    {
      r := OverlappingSalaries(rows, s);
      calls := calls + [OverlapQuery(s)];
    }

    method GetSalariesByEmployeeNumber(employeeNumber: int) returns (r: seq<Salary>)
      modifies this`calls
      ensures r == SalariesOf(rows, employeeNumber)
      ensures calls == old(calls) + [ListByEmployee(employeeNumber)]
    {
      r := SalariesOf(rows, employeeNumber);
      calls := calls + [ListByEmployee(employeeNumber)];
    }

    method GetSalaryByKey(key: SalaryKey) returns (r: Result<Salary>)
      modifies this`calls
      ensures r == SalaryByKey(rows, key)
      ensures calls == old(calls) + [GetByKey(key)]
    {
      r := SalaryByKey(rows, key);
      calls := calls + [GetByKey(key)];
    }

    /** `insertSalary(salary)`: appends the row; the table has no auto-increment
        column, so the returned id is not modelled. */
    method InsertSalary(s: Salary)
      modifies this
      ensures rows == old(rows) + [ForDb(s)]
      ensures calls == old(calls) + [Insert(s)]
    {
      rows := rows + [ForDb(s)];
      calls := calls + [Insert(s)];
    }

    /** `saveSalary(key, patch)`: overwrites the defined columns of every row with
        that key; not-found when the update matched no row. */
    method SaveSalary(key: SalaryKey, patch: SalaryPatch) returns (r: Result<()>)
      modifies this
      ensures rows == UpdateWhere(old(rows), KeyIs(key), PatchColumns(patch))
      ensures r == if Count(old(rows), KeyIs(key)) < 1 then Err(NotFound) else Ok(())
      ensures r.Err? ==> rows == old(rows)
      ensures calls == old(calls) + [Save(key, patch)]
    {
      var rowsAffected := Count(rows, KeyIs(key));
      if rowsAffected < 1 {
        UpdateWhereNoMatch(rows, KeyIs(key), PatchColumns(patch));
      }
      rows := UpdateWhere(rows, KeyIs(key), PatchColumns(patch));
      calls := calls + [Save(key, patch)];
      if rowsAffected < 1 {
        r := Err(NotFound);
      } else {
        r := Ok(());
      }
    }

    /** `deleteSalaryByKey(key)`: removes every row with that key; not-found when
        none was removed. */
    method DeleteSalaryByKey(key: SalaryKey) returns (r: Result<()>)
      modifies this
      ensures rows == DeleteWhere(old(rows), KeyIs(key))
      ensures r == if Count(old(rows), KeyIs(key)) < 1 then Err(NotFound) else Ok(())
      ensures calls == old(calls) + [Delete(key)]
    {
      var deletedCount := Count(rows, KeyIs(key));
      rows := DeleteWhere(rows, KeyIs(key));
      calls := calls + [Delete(key)];
      if deletedCount < 1 {
        r := Err(NotFound);
      } else {
        r := Ok(());
      }
    }
  }

  // ---------------------------------------------------------------------------
  // What the overlap rule means

  /** The row's period [from_date, to_date) is not empty. */
  predicate WellFormed(m: SalaryModel)
  {
    m.from_date < m.to_date
  }

  /** Day d lies in the half-open period [from_date, to_date) of the row. */
  predicate Covers(m: SalaryModel, d: Date)
  {
    m.from_date <= d < m.to_date
  }

  /** The reference meaning of "overlap": the two periods share a day. */
  ghost predicate SharesDay(a: SalaryModel, b: SalaryModel)
  {
    exists d: Date :: Covers(a, d) && Covers(b, d)
  }

  /** For well-formed periods the SQL rule is exact: it flags a row precisely when
      the row belongs to the candidate's employee and the two periods share a day. */
  lemma OverlapIsSharedDay(p: SalaryModel, row: SalaryModel)
    requires WellFormed(p) && WellFormed(row)
    ensures Overlaps(p, row) <==> row.emp_no == p.emp_no && SharesDay(p, row)
  {
    var d := if p.from_date < row.from_date then row.from_date else p.from_date;
    if row.emp_no == p.emp_no && SharesDay(p, row) {
      var e: Date :| Covers(p, e) && Covers(row, e);
      assert Overlaps(p, row);
    }
    if Overlaps(p, row) {
      assert Covers(p, d) && Covers(row, d);
    }
  }

  /** The rule does not depend on which side is the candidate. */
  lemma OverlapSymmetric(a: SalaryModel, b: SalaryModel)
    ensures Overlaps(a, b) <==> Overlaps(b, a)
  {
  }

  /** Periods that only touch do not conflict: a candidate that ends on the day a
      row starts, or starts on the day a row ends, is not flagged by that row. */
  lemma TouchingIsNoOverlap(p: SalaryModel, row: SalaryModel)
    requires WellFormed(p) && WellFormed(row)
    requires p.to_date == row.from_date || p.from_date == row.to_date
    ensures !Overlaps(p, row)
  {
  }

  /** The same-day start of another employee's row is never a conflict. */
  lemma OtherEmployeeNeverOverlaps(rows: seq<SalaryModel>, s: Salary, m: SalaryModel)
    requires m in rows && m.emp_no != s.employeeNumber
    ensures FromDb(m) !in OverlappingSalaries(rows, s)
  {
  }

  /** The overlap query against a two-row table: each row is returned, in table
      order, exactly when it overlaps the candidate. */
  lemma OverlapOfTwo(a: SalaryModel, b: SalaryModel, s: Salary)
    ensures OverlappingSalaries([a, b], s) ==
      (if Overlaps(ForDb(s), a) then [FromDb(a)] else []) + (if Overlaps(ForDb(s), b) then [FromDb(b)] else [])
  {
    var p := OverlapsWith(ForDb(s));
    var hits := Filter([a, b], p);
    assert Filter([b], p) == (if p(b) then [b] else []) by {
      assert [b][1..] == [];
    }
    assert hits == (if p(a) then [a] else []) + (if p(b) then [b] else []) by {
      assert [a, b][1..] == [b];
    }
    var want := (if p(a) then [FromDb(a)] else []) + (if p(b) then [FromDb(b)] else []);
    assert Map(FromDb, hits) == want;
  }

  /** The two stored rows of the scenario table below. */
  const ScenarioFirst := SalaryModel(10001, 60117, 6020, 6385)
  const ScenarioSecond := SalaryModel(10001, 62102, 6385, 6750)

  /** The rows of the scenario table that flag the candidate period [f, t). */
  function ScenarioHits(f: Date, t: Date): seq<Salary>
  {
    OverlappingSalaries([ScenarioFirst, ScenarioSecond], Salary(10001, 1, f, t))
  }

  /** A candidate starting on the first row's start date is flagged by it. */
  lemma ScenarioSameStart()
    ensures ScenarioHits(6020, 6021) == [FromDb(ScenarioFirst)]
  {
    OverlapOfTwo(ScenarioFirst, ScenarioSecond, Salary(10001, 1, 6020, 6021));
    assert !Overlaps(ForDb(Salary(10001, 1, 6020, 6021)), ScenarioSecond);
  }

  /** A candidate starting a day before the first row and ending inside it is flagged by it. */
  lemma ScenarioEarlierStart()
    ensures ScenarioHits(6019, 6021) == [FromDb(ScenarioFirst)]
  {
    OverlapOfTwo(ScenarioFirst, ScenarioSecond, Salary(10001, 1, 6019, 6021));
    assert !Overlaps(ForDb(Salary(10001, 1, 6019, 6021)), ScenarioSecond);
  }

  /** A candidate starting inside the first row and ending inside the second is flagged by both. */
  lemma ScenarioAcrossBoth()
    ensures ScenarioHits(6021, 6386) == [FromDb(ScenarioFirst), FromDb(ScenarioSecond)]
  {
    OverlapOfTwo(ScenarioFirst, ScenarioSecond, Salary(10001, 1, 6021, 6386));
    assert Overlaps(ForDb(Salary(10001, 1, 6021, 6386)), ScenarioSecond);
  }

  /** A candidate covering the first row and reaching into the second is flagged by both. */
  lemma ScenarioCoversBoth()
    ensures ScenarioHits(6019, 6386) == [FromDb(ScenarioFirst), FromDb(ScenarioSecond)]
  {
    OverlapOfTwo(ScenarioFirst, ScenarioSecond, Salary(10001, 1, 6019, 6386));
    assert Overlaps(ForDb(Salary(10001, 1, 6019, 6386)), ScenarioSecond);
  }

  /** A candidate strictly inside the first row is flagged by it alone. */
  lemma ScenarioInsideFirst()
    ensures ScenarioHits(6021, 6383) == [FromDb(ScenarioFirst)]
  {
    OverlapOfTwo(ScenarioFirst, ScenarioSecond, Salary(10001, 1, 6021, 6383));
    assert !Overlaps(ForDb(Salary(10001, 1, 6021, 6383)), ScenarioSecond);
  }

  /** The scenario table of the store's overlap query, in day numbers (6019 is
      1986-06-25, 6020 1986-06-26, 6021 1986-06-27, 6383 1987-06-24, 6385
      1987-06-26, 6386 1987-06-27 and 6750 1988-06-25): against the rows
      (10001, 60117, 1986-06-26 to 1987-06-26) and (10001, 62102, 1987-06-26 to
      1988-06-25) the five candidates are flagged by exactly these rows. */
  lemma OverlapScenarios()
    ensures ScenarioHits(6020, 6021) == [FromDb(ScenarioFirst)]
    ensures ScenarioHits(6019, 6021) == [FromDb(ScenarioFirst)]
    ensures ScenarioHits(6021, 6386) == [FromDb(ScenarioFirst), FromDb(ScenarioSecond)]
    ensures ScenarioHits(6019, 6386) == [FromDb(ScenarioFirst), FromDb(ScenarioSecond)]
    ensures ScenarioHits(6021, 6383) == [FromDb(ScenarioFirst)]
  {
    ScenarioSameStart();
    ScenarioEarlierStart();
    ScenarioAcrossBoth();
    ScenarioCoversBoth();
    ScenarioInsideFirst();
  }

  // ---------------------------------------------------------------------------
  // Reading back what was written

  /** After `insertSalary(s)` into a table without a row under s's key,
      `getSalaryByKey` on that key returns s. */
  lemma InsertThenGet(rows: seq<SalaryModel>, s: Salary)
    requires SalaryByKey(rows, KeyOf(s)).Err?
    ensures SalaryByKey(rows + [ForDb(s)], KeyOf(s)) == Ok(s)
  {
    var rows' := rows + [ForDb(s)];
    assert ForDb(s) in rows';
    var m := First(rows', KeyIs(KeyOf(s)));
    assert m.value in rows || m.value == ForDb(s);
  }

  /** `getSalaryByKey` returns the first stored row with the key. */
  lemma SalaryByKeyIsFirstRow(rows: seq<SalaryModel>, key: SalaryKey)
    requires SalaryByKey(rows, key).Ok?
    ensures exists i ::
      && 0 <= i < |rows| && rows[i].emp_no == key.employeeNumber && rows[i].from_date == key.fromDate
      && SalaryByKey(rows, key).value == FromDb(rows[i])
      && forall j :: 0 <= j < i ==> !(rows[j].emp_no == key.employeeNumber && rows[j].from_date == key.fromDate)
  {
    var i := FirstIndex(rows, KeyIs(key)).value;
    assert KeyIs(key)(rows[i]);
    forall j | 0 <= j < i ensures !(rows[j].emp_no == key.employeeNumber && rows[j].from_date == key.fromDate) {
      assert !KeyIs(key)(rows[j]);
    }
  }

  /** `saveSalary` with a patch that leaves the key columns alone, or sets them to
      the key's own values: the row read back by the key is the first such row
      with the patch applied. */
  lemma SaveThenGet(rows: seq<SalaryModel>, key: SalaryKey, patch: SalaryPatch)
    requires patch.employeeNumber.None? || patch.employeeNumber == Some(key.employeeNumber)
    requires patch.fromDate.None? || patch.fromDate == Some(key.fromDate)
    ensures var after := UpdateWhere(rows, KeyIs(key), PatchColumns(patch));
      SalaryByKey(after, key) ==
        match SalaryByKey(rows, key)
        case Err(e) => Err(e)
        case Ok(s) => Ok(FromDb(PatchRow(patch, ForDb(s))))
  {
    UpdateKeepsMatch(rows, KeyIs(key), PatchColumns(patch));
  }

  // ---------------------------------------------------------------------------
  // `saveSalary` as written

  /** Does the UPDATE of `saveSalary` name a column that `salaries` lacks? The
      patch is handed to the query builder as it is, so each key it defines becomes
      a column name: `salary` is a column, `employeeNumber`, `fromDate` and
      `toDate` are not (the columns are `emp_no`, `from_date` and `to_date`). */
  predicate NamesMissingColumn(patch: SalaryPatch)
  {
    patch.employeeNumber.Some? || patch.fromDate.Some? || patch.toDate.Some?
  }

  /** `saveSalary` as written (src/salaries/mysql.ts:82): the query builder drops
      the undefined fields and refuses an UPDATE that has none left; the database
      refuses the UPDATE when the patch names a missing column; otherwise only
      `salary` is set, which is what the intended update does with such a patch. */
  function SaveAsWritten(rows: seq<SalaryModel>, key: SalaryKey, patch: SalaryPatch): (r: Effect<(), SalaryModel, SalaryCall>)
    ensures r.calls == [Save(key, patch)]
    ensures r.result == Err(EmptyUpdate) <==> patch == SalaryPatch(None, None, None, None)
    ensures r.result == Err(UnknownColumn) <==> NamesMissingColumn(patch)
    ensures r.result.Err? ==> r.rows == rows
    ensures |r.rows| == |rows|
    ensures r.result.Ok? ==> forall i :: 0 <= i < |rows| ==>
      r.rows[i].emp_no == rows[i].emp_no && r.rows[i].from_date == rows[i].from_date && r.rows[i].to_date == rows[i].to_date
  {
    if patch == SalaryPatch(None, None, None, None) then Effect(Err(EmptyUpdate), rows, [Save(key, patch)])
    else if NamesMissingColumn(patch) then Effect(Err(UnknownColumn), rows, [Save(key, patch)])
    else if Count(rows, KeyIs(key)) < 1 then Effect(Err(NotFound), rows, [Save(key, patch)])
    else Effect(Ok(()), UpdateWhere(rows, KeyIs(key), PatchColumns(patch)), [Save(key, patch)])
  }

  /** A patch that defines only the amount (the one the integration test saves)
      is saved as written exactly as by the intended update. */
  lemma SaveAsWrittenSalaryOnly(rows: seq<SalaryModel>, key: SalaryKey, amount: int)
    ensures var patch := SalaryPatch(None, Some(amount), None, None);
      var w := SaveAsWritten(rows, key, patch);
      && w.rows == UpdateWhere(rows, KeyIs(key), PatchColumns(patch))
      && w.result == if Count(rows, KeyIs(key)) < 1 then Err(NotFound) else Ok(())
  {
    var patch := SalaryPatch(None, Some(amount), None, None);
    if Count(rows, KeyIs(key)) < 1 {
      UpdateWhereNoMatch(rows, KeyIs(key), PatchColumns(patch));
    }
  }

  /** After `deleteSalaryByKey(key)` no row has that key: a read fails with not-found
      and a second delete affects no row. */
  lemma DeleteThenGet(rows: seq<SalaryModel>, key: SalaryKey)
    ensures SalaryByKey(DeleteWhere(rows, KeyIs(key)), key) == Err(NotFound)
    ensures Count(DeleteWhere(rows, KeyIs(key)), KeyIs(key)) == 0
  {
    var after := DeleteWhere(rows, KeyIs(key));
    assert forall m :: m in after ==> !KeyIs(key)(m);
  }
}

/** The salary service: the only place where salary records are validated before
    they are written. Each operation is a method against the `salaries` store and a
    function that says what it does (its result, the table afterwards and the calls
    it issues); the lemmas are about those functions. */
module SalariesService {
  import opened Results
  import opened Dates
  import opened Rows
  import opened SalaryTypes
  import opened SalariesMysql

  type SalaryEffect = Effect<Salary, SalaryModel, SalaryCall>

  /** `applyPatch`: every field the patch defines overrides the record's, every
      other field is kept. */
  function ApplyPatch(s: Salary, patch: SalaryPatch): (r: Salary)
    ensures patch.employeeNumber.Some? ==> r.employeeNumber == patch.employeeNumber.value
    ensures patch.employeeNumber.None? ==> r.employeeNumber == s.employeeNumber
    ensures patch.salary.Some? ==> r.salary == patch.salary.value
    ensures patch.salary.None? ==> r.salary == s.salary
    ensures patch.fromDate.Some? ==> r.fromDate == patch.fromDate.value
    ensures patch.fromDate.None? ==> r.fromDate == s.fromDate
    ensures patch.toDate.Some? ==> r.toDate == patch.toDate.value
    ensures patch.toDate.None? ==> r.toDate == s.toDate
  {
    Salary(
      match patch.employeeNumber case Some(v) => v case None => s.employeeNumber,
      match patch.salary case Some(v) => v case None => s.salary,
      match patch.fromDate case Some(v) => v case None => s.fromDate,
      match patch.toDate case Some(v) => v case None => s.toDate)
  }

  /** The full merged record, handed to `saveSalary` as a `Partial<Salary>`. */
  function FullPatch(s: Salary): SalaryPatch
  {
    SalaryPatch(Some(s.employeeNumber), Some(s.salary), Some(s.fromDate), Some(s.toDate))
  }

  /** Does the patch define either date? Only then is the overlap query run. */
  predicate TouchesDates(patch: SalaryPatch)
  {
    patch.fromDate.Some? || patch.toDate.Some?
  }

  /** The `findIndex` test of `createSalary`: same employee and same start date
      (compared as values, see README). */
  function SameKeyAs(s: Salary): Salary -> bool
  {
    (h: Salary) => h.employeeNumber == s.employeeNumber && h.fromDate == s.fromDate
  }

  /** The invariant the salary service is there to keep: every stored period is
      non-empty and no two rows conflict under the overlap rule. */
  ghost predicate ConflictFree(rows: seq<SalaryModel>)
  {
    && (forall i :: 0 <= i < |rows| ==> WellFormed(rows[i]))
    && (forall i, j :: 0 <= i < |rows| && 0 <= j < |rows| && i != j ==> !Overlaps(rows[i], rows[j]))
  }

  // ---------------------------------------------------------------------------
  // What each operation does

  /** `createSalary(salary)` */
  function CreateSalarySpec(rows: seq<SalaryModel>, s: Salary): SalaryEffect
  {
    if s.toDate <= s.fromDate then Effect(Err(InvalidRange), rows, [])
    else
      var overlapping := OverlappingSalaries(rows, s);
      if |overlapping| > 0 then
        if FirstIndex(overlapping, SameKeyAs(s)).Some? then Effect(Err(DuplicateKey), rows, [OverlapQuery(s)])
        else Effect(Err(InvalidRange), rows, [OverlapQuery(s)])
      else
        var after := rows + [ForDb(s)];
        Effect(SalaryByKey(after, KeyOf(s)), after, [OverlapQuery(s), Insert(s), GetByKey(KeyOf(s))])
  }

  /** `patchSalary(key, patch)` */
  function PatchSalarySpec(rows: seq<SalaryModel>, key: SalaryKey, patch: SalaryPatch): SalaryEffect
  {
    match SalaryByKey(rows, key)
    case Err(e) => Effect(Err(e), rows, [GetByKey(key)])
    case Ok(current) =>
      var e := CheckAndSaveSpec(rows, key, ApplyPatch(current, patch), TouchesDates(patch));
      Effect(e.result, e.rows, [GetByKey(key)] + e.calls)
  }

  /** The part of `patchSalary` after the record was found: when `probe` (the patch
      defines a date) the merged record must not overlap any stored row; then it is
      saved under the original key. */
  function CheckAndSaveSpec(rows: seq<SalaryModel>, key: SalaryKey, merged: Salary, probe: bool): SalaryEffect
  {
    if !probe then SaveMergedSpec(rows, key, merged)
    else if |OverlappingSalaries(rows, merged)| > 0 then Effect(Err(InvalidRange), rows, [OverlapQuery(merged)])
    else
      var e := SaveMergedSpec(rows, key, merged);
      Effect(e.result, e.rows, [OverlapQuery(merged)] + e.calls)
  }

  /** The tail of `patchSalary` once the merged record is accepted: save it under
      the original key, then read that key back. */
  function SaveMergedSpec(rows: seq<SalaryModel>, key: SalaryKey, merged: Salary): SalaryEffect
  {
    var after := UpdateWhere(rows, KeyIs(key), PatchColumns(FullPatch(merged)));
    if Count(rows, KeyIs(key)) < 1 then Effect(Err(NotFound), after, [Save(key, FullPatch(merged))])
    else Effect(SalaryByKey(after, key), after, [Save(key, FullPatch(merged)), GetByKey(key)])
  }

  // ---------------------------------------------------------------------------
  // The operations

  method CreateSalary(db: SalaryStore, s: Salary) returns (r: Result<Salary>)
    modifies db
    ensures var e := CreateSalarySpec(old(db.rows), s);
      r == e.result && db.rows == e.rows && db.calls == old(db.calls) + e.calls
  {
    if s.toDate <= s.fromDate {
      return Err(InvalidRange);
    }
    var overlapping := db.GetOverlappingSalaries(s);
    if |overlapping| > 0 {
      if FirstIndex(overlapping, SameKeyAs(s)).Some? {
        return Err(DuplicateKey);
      }
      return Err(InvalidRange);
    }
    db.InsertSalary(s);
    AppendCalls(old(db.calls), [OverlapQuery(s)] + [Insert(s)], [GetByKey(KeyOf(s))]);
    AppendCalls(old(db.calls), [OverlapQuery(s)], [Insert(s)]);
    TwoCalls(OverlapQuery(s), Insert(s));
    ThreeCalls(OverlapQuery(s), Insert(s), GetByKey(KeyOf(s)));
    r := db.GetSalaryByKey(KeyOf(s));
  }

  method PatchSalary(db: SalaryStore, key: SalaryKey, patch: SalaryPatch) returns (r: Result<Salary>)
    modifies db
    ensures var e := PatchSalarySpec(old(db.rows), key, patch);
      r == e.result && db.rows == e.rows && db.calls == old(db.calls) + e.calls
  {
    var found := db.GetSalaryByKey(key);
    if found.Err? {
      return Err(found.error);
    }
    ghost var tail := CheckAndSaveSpec(db.rows, key, ApplyPatch(found.value, patch), TouchesDates(patch));
    AppendCalls(old(db.calls), [GetByKey(key)], tail.calls);
    r := CheckAndSave(db, key, ApplyPatch(found.value, patch), patch.fromDate.Some? || patch.toDate.Some?);
  }

  method CheckAndSave(db: SalaryStore, key: SalaryKey, merged: Salary, probe: bool) returns (r: Result<Salary>)
    modifies db
    ensures var e := CheckAndSaveSpec(old(db.rows), key, merged, probe);
      r == e.result && db.rows == e.rows && db.calls == old(db.calls) + e.calls
  {
    if probe {
      var overlapping := db.GetOverlappingSalaries(merged);
      if |overlapping| > 0 {
        return Err(InvalidRange);
      }
      ghost var tail := SaveMergedSpec(db.rows, key, merged);
      AppendCalls(old(db.calls), [OverlapQuery(merged)], tail.calls);
    }
    r := SaveMerged(db, key, merged);
  }

  /** Save the merged record under `key` and read `key` back. */
  method SaveMerged(db: SalaryStore, key: SalaryKey, merged: Salary) returns (r: Result<Salary>)
    modifies db
    ensures var e := SaveMergedSpec(old(db.rows), key, merged);
      r == e.result && db.rows == e.rows && db.calls == old(db.calls) + e.calls
  {
    ghost var e := SaveMergedSpec(db.rows, key, merged);
    var saved := db.SaveSalary(key, FullPatch(merged));
    if saved.Err? {
      return Err(saved.error);
    }
    assert db.rows == e.rows;
    AppendCalls(old(db.calls), [Save(key, FullPatch(merged))], [GetByKey(key)]);
    TwoCalls(Save(key, FullPatch(merged)), GetByKey(key));
    r := db.GetSalaryByKey(key);
  }

  /** `deleteSalary(key)`: handed to the store unchanged. */
  method DeleteSalary(db: SalaryStore, key: SalaryKey) returns (r: Result<()>)
    modifies db
    ensures db.rows == DeleteWhere(old(db.rows), KeyIs(key))
    ensures r == if Count(old(db.rows), KeyIs(key)) < 1 then Err(NotFound) else Ok(())
    ensures db.calls == old(db.calls) + [Delete(key)]
  {
    r := db.DeleteSalaryByKey(key);
  }

  /** `getSalaries(employeeNumber)`: handed to the store unchanged. */
  method GetSalaries(db: SalaryStore, employeeNumber: int) returns (r: seq<Salary>)
    modifies db`calls
    ensures r == SalariesOf(db.rows, employeeNumber)
    ensures db.calls == old(db.calls) + [ListByEmployee(employeeNumber)]
  {
    r := db.GetSalariesByEmployeeNumber(employeeNumber);
  }

  /** `getSalary(key)`: handed to the store unchanged. */
  method GetSalary(db: SalaryStore, key: SalaryKey) returns (r: Result<Salary>)
    modifies db`calls
    ensures r == SalaryByKey(db.rows, key)
    ensures db.calls == old(db.calls) + [GetByKey(key)]
  {
    r := db.GetSalaryByKey(key);
  }

  // ---------------------------------------------------------------------------
  // createSalary

  /** `createSalary` stores the candidate exactly when its period is not empty and
      no stored row flags it; it then returns the candidate as read back. Every
      rejection leaves the table as it was, and only an accepted candidate is
      inserted. An inverted range is rejected before the store is asked anything. */
  lemma CreateSalaryOutcome(rows: seq<SalaryModel>, s: Salary)
    ensures var e := CreateSalarySpec(rows, s);
      && (e.result.Ok? <==> s.fromDate < s.toDate && forall m :: m in rows ==> !Overlaps(ForDb(s), m))
      && (e.result.Ok? ==> e.result.value == s && e.rows == rows + [ForDb(s)])
      && (e.result.Err? ==> e.rows == rows && Insert(s) !in e.calls)
      && (s.toDate <= s.fromDate ==> e.calls == [])
  {
    var overlapping := OverlappingSalaries(rows, s);
    assert overlapping != [] ==> overlapping[0] in overlapping;
    if s.fromDate < s.toDate && forall m :: m in rows ==> !Overlaps(ForDb(s), m) {
      InsertThenGet(rows, s);
      MappingRoundTrip(s, ForDb(s));
    }
  }

  /** "Salary already exists" is raised exactly when the period is not empty and
      a stored row has the candidate's employee and start date. */
  lemma CreateSalaryDuplicate(rows: seq<SalaryModel>, s: Salary)
    ensures CreateSalarySpec(rows, s).result == Err(DuplicateKey) <==>
      s.fromDate < s.toDate && exists m :: m in rows && m.emp_no == s.employeeNumber && m.from_date == s.fromDate
  {
    var overlapping := OverlappingSalaries(rows, s);
    var hit := FirstIndex(overlapping, SameKeyAs(s));
    if m :| m in rows && m.emp_no == s.employeeNumber && m.from_date == s.fromDate {
      assert FromDb(m) in overlapping;
      var j :| 0 <= j < |overlapping| && overlapping[j] == FromDb(m);
      assert SameKeyAs(s)(overlapping[j]);
    }
    if hit.Some? {
      var x := overlapping[hit.value];
      assert x in overlapping;
      assert ForDb(x) in rows;
    }
  }

  /** "Invalid salary date range" is raised exactly when the period is empty, or
      some stored row flags the candidate but none has its key. */
  lemma CreateSalaryInvalidRange(rows: seq<SalaryModel>, s: Salary)
    ensures CreateSalarySpec(rows, s).result == Err(InvalidRange) <==>
      || s.toDate <= s.fromDate
      || (&& (exists m :: m in rows && Overlaps(ForDb(s), m))
          && !(exists m :: m in rows && m.emp_no == s.employeeNumber && m.from_date == s.fromDate))
  {
    CreateSalaryOutcome(rows, s);
    CreateSalaryDuplicate(rows, s);
  }

  /** `createSalary` keeps the table conflict-free. */
  lemma CreateKeepsConflictFree(rows: seq<SalaryModel>, s: Salary)
    requires ConflictFree(rows)
    ensures ConflictFree(CreateSalarySpec(rows, s).rows)
  {
    CreateSalaryOutcome(rows, s);
    var e := CreateSalarySpec(rows, s);
    if e.result.Ok? {
      var after := e.rows;
      forall i, j | 0 <= i < |after| && 0 <= j < |after| && i != j
        ensures !Overlaps(after[i], after[j])
      {
        if i == |rows| {
          assert rows[j] in rows;
        } else if j == |rows| {
          assert rows[i] in rows;
          OverlapSymmetric(rows[i], ForDb(s));
        }
      }
    }
  }

  // ---------------------------------------------------------------------------
  // patchSalary

  /** A missing key ends `patchSalary` after the read with not-found. */
  lemma PatchSalaryMissing(rows: seq<SalaryModel>, key: SalaryKey, patch: SalaryPatch)
    requires SalaryByKey(rows, key).Err?
    ensures PatchSalarySpec(rows, key, patch) == Effect(Err(NotFound), rows, [GetByKey(key)])
  {
  }

  /** The calls of the save-and-read tail: the save, then the read unless the save
      matched nothing. */
  lemma SaveMergedCalls(rows: seq<SalaryModel>, key: SalaryKey, merged: Salary)
    ensures var calls := SaveMergedSpec(rows, key, merged).calls;
      calls == [Save(key, FullPatch(merged))] || calls == [Save(key, FullPatch(merged)), GetByKey(key)]
  {
  }

  /** A found record and a patch that defines a date: the second call is the
      overlap query. */
  lemma PatchProbeRuns(rows: seq<SalaryModel>, key: SalaryKey, patch: SalaryPatch)
    requires SalaryByKey(rows, key).Ok? && TouchesDates(patch)
    ensures var calls := PatchSalarySpec(rows, key, patch).calls;
      1 < |calls| && calls[1] == OverlapQuery(ApplyPatch(SalaryByKey(rows, key).value, patch))
  {
  }

  /** A found record and a patch without dates: the read, then the calls of the
      save-and-read tail. */
  lemma PatchProbeSkipped(rows: seq<SalaryModel>, key: SalaryKey, patch: SalaryPatch)
    requires SalaryByKey(rows, key).Ok? && !TouchesDates(patch)
    ensures var save := Save(key, FullPatch(ApplyPatch(SalaryByKey(rows, key).value, patch)));
      var calls := PatchSalarySpec(rows, key, patch).calls;
      calls == [GetByKey(key), save] || calls == [GetByKey(key), save, GetByKey(key)]
  {
    var merged := ApplyPatch(SalaryByKey(rows, key).value, patch);
    var save := Save(key, FullPatch(merged));
    SaveMergedCalls(rows, key, merged);
    TwoCalls(GetByKey(key), save);
    ThreeCalls(GetByKey(key), save, GetByKey(key));
  }

  /** The overlap query of `patchSalary` runs exactly when the record was found
      and the patch defines a date. */
  lemma PatchSalaryProbes(rows: seq<SalaryModel>, key: SalaryKey, patch: SalaryPatch)
    ensures (exists c :: c in PatchSalarySpec(rows, key, patch).calls && c.OverlapQuery?) <==>
      SalaryByKey(rows, key).Ok? && TouchesDates(patch)
  {
    var calls := PatchSalarySpec(rows, key, patch).calls;
    if SalaryByKey(rows, key).Ok? && TouchesDates(patch) {
      PatchProbeRuns(rows, key, patch);
      assert calls[1] in calls;
    } else if SalaryByKey(rows, key).Ok? {
      PatchProbeSkipped(rows, key, patch);
    } else {
      PatchSalaryMissing(rows, key, patch);
    }
  }

  /** A found record whose merged period the overlap query accepts: the third call
      is the save. */
  lemma PatchSavesAfterProbe(rows: seq<SalaryModel>, key: SalaryKey, patch: SalaryPatch)
    requires SalaryByKey(rows, key).Ok? && TouchesDates(patch)
    requires |OverlappingSalaries(rows, ApplyPatch(SalaryByKey(rows, key).value, patch))| == 0
    ensures var calls := PatchSalarySpec(rows, key, patch).calls;
      2 < |calls| && calls[2] == Save(key, FullPatch(ApplyPatch(SalaryByKey(rows, key).value, patch)))
  {
  }

  /** A found record whose merged period the overlap query flags: rejected after
      the read and the query, with the table unchanged. */
  lemma PatchRejected(rows: seq<SalaryModel>, key: SalaryKey, patch: SalaryPatch)
    requires SalaryByKey(rows, key).Ok? && TouchesDates(patch)
    requires |OverlappingSalaries(rows, ApplyPatch(SalaryByKey(rows, key).value, patch))| > 0
    ensures PatchSalarySpec(rows, key, patch) ==
      Effect(Err(InvalidRange), rows, [GetByKey(key), OverlapQuery(ApplyPatch(SalaryByKey(rows, key).value, patch))])
  {
    TwoCalls(GetByKey(key), OverlapQuery(ApplyPatch(SalaryByKey(rows, key).value, patch)));
  }

  /** The save of `patchSalary` runs exactly when the record was found and the
      overlap query, if it ran, flagged nothing; without it the table is unchanged. */
  lemma PatchSalarySaves(rows: seq<SalaryModel>, key: SalaryKey, patch: SalaryPatch)
    ensures var e := PatchSalarySpec(rows, key, patch);
      && ((exists c :: c in e.calls && c.Save?) <==>
            && SalaryByKey(rows, key).Ok?
            && !(TouchesDates(patch) && |OverlappingSalaries(rows, ApplyPatch(SalaryByKey(rows, key).value, patch))| > 0))
      && (!(exists c :: c in e.calls && c.Save?) ==> e.rows == rows)
  {
    var calls := PatchSalarySpec(rows, key, patch).calls;
    if SalaryByKey(rows, key).Ok? {
      var merged := ApplyPatch(SalaryByKey(rows, key).value, patch);
      if !TouchesDates(patch) {
        PatchProbeSkipped(rows, key, patch);
        assert calls[1] in calls;
      } else if |OverlappingSalaries(rows, merged)| == 0 {
        PatchSavesAfterProbe(rows, key, patch);
        assert calls[2] in calls;
      } else {
        PatchRejected(rows, key, patch);
      }
    } else {
      PatchSalaryMissing(rows, key, patch);
    }
  }

  /** A patch that defines a date but keeps the employee and the start date, by
      leaving them undefined or by restating them, is always rejected: the merged
      record is flagged by its own stored row. */
  lemma PatchDatesMeetOwnRow(rows: seq<SalaryModel>, key: SalaryKey, patch: SalaryPatch)
    requires SalaryByKey(rows, key).Ok? && TouchesDates(patch)
    requires patch.employeeNumber.None? || patch.employeeNumber == Some(key.employeeNumber)
    requires patch.fromDate.None? || patch.fromDate == Some(key.fromDate)
    ensures PatchSalarySpec(rows, key, patch) ==
      Effect(Err(InvalidRange), rows, [GetByKey(key), OverlapQuery(ApplyPatch(SalaryByKey(rows, key).value, patch))])
  {
    var current := SalaryByKey(rows, key).value;
    var merged := ApplyPatch(current, patch);
    assert Overlaps(ForDb(merged), ForDb(current));
    assert FromDb(ForDb(current)) in OverlappingSalaries(rows, merged);
  }

  /** An accepted patch writes the merged record over every row with the original
      key, then reads that key back: the merged record when it kept the key, and
      not-found when the patch moved it to another key. */
  lemma PatchSalaryOutcome(rows: seq<SalaryModel>, key: SalaryKey, patch: SalaryPatch)
    requires SalaryByKey(rows, key).Ok?
    requires TouchesDates(patch) ==> |OverlappingSalaries(rows, ApplyPatch(SalaryByKey(rows, key).value, patch))| == 0
    ensures var merged := ApplyPatch(SalaryByKey(rows, key).value, patch);
      var e := PatchSalarySpec(rows, key, patch);
      && e.rows == UpdateWhere(rows, KeyIs(key), PatchColumns(FullPatch(merged)))
      && (KeyOf(merged) == key ==> e.result == Ok(merged))
      && (KeyOf(merged) != key ==> e.result == Err(NotFound))
  {
    var merged := ApplyPatch(SalaryByKey(rows, key).value, patch);
    var f := PatchColumns(FullPatch(merged));
    forall x ensures f(x) == ForDb(merged) {
    }
    UpdateAllTo(rows, KeyIs(key), f, ForDb(merged));
    MappingRoundTrip(merged, ForDb(merged));
  }

  /** In a conflict-free table at most one row has a given key. */
  lemma KeyUnique(rows: seq<SalaryModel>, key: SalaryKey, i: int, j: int)
    requires ConflictFree(rows)
    requires 0 <= i < |rows| && 0 <= j < |rows|
    requires KeyIs(key)(rows[i]) && KeyIs(key)(rows[j])
    ensures i == j
  {
    if i != j {
      assert Overlaps(rows[i], rows[j]);
    }
  }

  /** Replacing one row of a conflict-free table by a well-formed row that no other
      row conflicts with keeps the table conflict-free. */
  lemma ReplaceKeepsConflictFree(rows: seq<SalaryModel>, k: int, c: SalaryModel)
    requires ConflictFree(rows) && 0 <= k < |rows| && WellFormed(c)
    requires forall j :: 0 <= j < |rows| && j != k ==> !Overlaps(c, rows[j])
    ensures ConflictFree(rows[k := c])
  {
    var after := rows[k := c];
    forall i, j | 0 <= i < |after| && 0 <= j < |after| && i != j
      ensures !Overlaps(after[i], after[j])
    {
      if i == k {
        OverlapSymmetric(c, rows[j]);
      } else if j == k {
        OverlapSymmetric(c, rows[i]);
      }
    }
  }

  /** An accepted patch replaces the one row with the key by the merged row. */
  lemma PatchReplacesRow(rows: seq<SalaryModel>, key: SalaryKey, patch: SalaryPatch, k: nat)
    requires ConflictFree(rows) && SalaryByKey(rows, key).Ok?
    requires TouchesDates(patch) ==> |OverlappingSalaries(rows, ApplyPatch(SalaryByKey(rows, key).value, patch))| == 0
    requires k < |rows| && KeyIs(key)(rows[k])
    ensures PatchSalarySpec(rows, key, patch).rows == rows[k := ForDb(ApplyPatch(SalaryByKey(rows, key).value, patch))]
  {
    PatchSalaryOutcome(rows, key, patch);
    var after := PatchSalarySpec(rows, key, patch).rows;
    var c := ForDb(ApplyPatch(SalaryByKey(rows, key).value, patch));
    forall i | 0 <= i < |rows| ensures after[i] == rows[k := c][i] {
      if KeyIs(key)(rows[i]) {
        KeyUnique(rows, key, i, k);
      }
    }
  }

  /** The merged row of an accepted patch overlaps none of the other rows: either
      the overlap query ran and flagged nothing, or only the amount changed. */
  lemma MergedAvoidsOthers(rows: seq<SalaryModel>, key: SalaryKey, patch: SalaryPatch, k: nat)
    requires ConflictFree(rows) && FirstIndex(rows, KeyIs(key)) == Some(k)
    requires TouchesDates(patch) || patch.employeeNumber.None?
    requires TouchesDates(patch) ==> |OverlappingSalaries(rows, ApplyPatch(FromDb(rows[k]), patch))| == 0
    ensures forall j :: 0 <= j < |rows| && j != k ==> !Overlaps(ForDb(ApplyPatch(FromDb(rows[k]), patch)), rows[j])
  {
    var c := ForDb(ApplyPatch(FromDb(rows[k]), patch));
    forall j | 0 <= j < |rows| && j != k ensures !Overlaps(c, rows[j]) {
      if TouchesDates(patch) {
        assert rows[j] in rows;
      } else {
        assert c == rows[k].(salary := c.salary);
      }
    }
  }

  /** `patchSalary` keeps the table conflict-free when the merged period is not
      empty and the patch either defines a date (so the overlap query runs) or
      leaves the employee number alone (so no period moves). */
  lemma PatchKeepsConflictFree(rows: seq<SalaryModel>, key: SalaryKey, patch: SalaryPatch)
    requires ConflictFree(rows)
    requires SalaryByKey(rows, key).Ok? ==> WellFormed(ForDb(ApplyPatch(SalaryByKey(rows, key).value, patch)))
    requires TouchesDates(patch) || patch.employeeNumber.None?
    ensures ConflictFree(PatchSalarySpec(rows, key, patch).rows)
  {
    var found := SalaryByKey(rows, key);
    if found.Ok? {
      var merged := ApplyPatch(found.value, patch);
      if !(TouchesDates(patch) && |OverlappingSalaries(rows, merged)| > 0) {
        var k := FirstIndex(rows, KeyIs(key)).value;
        assert found.value == FromDb(rows[k]);
        PatchReplacesRow(rows, key, patch, k);
        MergedAvoidsOthers(rows, key, patch, k);
        ReplaceKeepsConflictFree(rows, k, ForDb(merged));
      }
    }
  }

  /** The merged period is not checked: moving the start of [10, 20) to day 30
      passes the overlap query, stores an empty period and then reports not-found,
      because the row no longer has the key it is read back by. */
  lemma PatchCanInvertRange()
    ensures var rows := [SalaryModel(1, 100, 10, 20)];
      var e := PatchSalarySpec(rows, SalaryKey(1, 10), SalaryPatch(None, None, Some(30), None));
      && ConflictFree(rows)
      && e.result == Err(NotFound)
      && e.rows == [SalaryModel(1, 100, 30, 20)]
      && !ConflictFree(e.rows)
  {
    var rows := [SalaryModel(1, 100, 10, 20)];
    var merged := Salary(1, 100, 30, 20);
    assert OverlappingSalaries(rows, merged) == [];
  }

  /** A patch that only changes the employee number runs no overlap query and can
      move a period onto another employee's identical period. */
  lemma PatchCanMoveIntoConflict()
    ensures var rows := [SalaryModel(1, 100, 10, 20), SalaryModel(2, 100, 10, 20)];
      var e := PatchSalarySpec(rows, SalaryKey(1, 10), SalaryPatch(Some(2), None, None, None));
      && ConflictFree(rows)
      && e.result == Err(NotFound)
      && e.rows == [SalaryModel(2, 100, 10, 20), SalaryModel(2, 100, 10, 20)]
      && !ConflictFree(e.rows)
  {
    var rows := [SalaryModel(1, 100, 10, 20), SalaryModel(2, 100, 10, 20)];
    var key := SalaryKey(1, 10);
    var merged := Salary(2, 100, 10, 20);
    assert !Overlaps(rows[0], rows[1]);
    assert FirstIndex(rows, KeyIs(key)) == Some(0);
    var after := UpdateWhere(rows, KeyIs(key), PatchColumns(FullPatch(merged)));
    assert after == [ForDb(merged), rows[1]];
    assert Count(rows, KeyIs(key)) == 1 by {
      assert Filter(rows, KeyIs(key)) == [rows[0]] by {
        assert rows[1..] == [rows[1]] && rows[1..][1..] == [];
      }
    }
    assert SalaryByKey(after, key).Err?;
    assert Overlaps(after[0], after[1]);
  }

  // ---------------------------------------------------------------------------
  // The code as written
  //
  // The functions above model the evidently intended behaviour. The two below
  // model `createSalary` and `patchSalary` as they are written, and the lemmas
  // after them say where the two differ.

  /** Whether the `fromDate` of a row read back from the database is the very
      `Date` object the request mapper built for the candidate. `===` on two
      objects compares identity, and the two come from different places, so never. */
  const SameDateObject := false

  /** `createSalary` as written: the duplicate test compares the start dates by
      identity (src/salaries/service.ts:24), so it never holds. */
  function CreateSalaryAsWrittenSpec(rows: seq<SalaryModel>, s: Salary): (r: SalaryEffect)
    ensures r.result != Err(DuplicateKey)
    ensures r.result.Err? ==> r.rows == rows && Insert(s) !in r.calls
    ensures s.toDate <= s.fromDate ==> r.result == Err(InvalidRange) && r.calls == []
  {
    if s.toDate <= s.fromDate then Effect(Err(InvalidRange), rows, [])
    else
      var overlapping := OverlappingSalaries(rows, s);
      if |overlapping| > 0 then
        var sameKey := (h: Salary) => h.employeeNumber == s.employeeNumber && SameDateObject;
        if FirstIndex(overlapping, sameKey).Some? then Effect(Err(DuplicateKey), rows, [OverlapQuery(s)])
        else Effect(Err(InvalidRange), rows, [OverlapQuery(s)])
      else
        var after := rows + [ForDb(s)];
        Effect(SalaryByKey(after, KeyOf(s)), after, [OverlapQuery(s), Insert(s), GetByKey(KeyOf(s))])
  }

  /** As written, `createSalary` never raises "Salary already exists": where the
      intended test reports a duplicate, it reports an invalid range with the
      same table and calls, and everywhere else it does as intended. */
  lemma CreateAsWrittenNeverDuplicate(rows: seq<SalaryModel>, s: Salary)
    ensures var w := CreateSalaryAsWrittenSpec(rows, s);
      var e := CreateSalarySpec(rows, s);
      && w.result != Err(DuplicateKey)
      && (e.result == Err(DuplicateKey) ==> w == Effect(Err(InvalidRange), e.rows, e.calls))
      && (e.result != Err(DuplicateKey) ==> w == e)
  {
    if s.fromDate < s.toDate {
      var overlapping := OverlappingSalaries(rows, s);
      var sameKey := (h: Salary) => h.employeeNumber == s.employeeNumber && SameDateObject;
      assert FirstIndex(overlapping, sameKey).None?;
    }
  }

  /** Posting the period [6020, 6021) for employee 10001 over the stored period
      [6020, 6385) is a duplicate as intended, and an invalid range as written. */
  lemma CreateDuplicateReportedAsRange()
    ensures var s := Salary(10001, 70000, 6020, 6021);
      && CreateSalarySpec([ScenarioFirst], s).result == Err(DuplicateKey)
      && CreateSalaryAsWrittenSpec([ScenarioFirst], s).result == Err(InvalidRange)
  {
    var s := Salary(10001, 70000, 6020, 6021);
    CreateSalaryDuplicate([ScenarioFirst], s);
    assert ScenarioFirst in [ScenarioFirst];
    CreateAsWrittenNeverDuplicate([ScenarioFirst], s);
  }

  /** `patchSalary` with `saveSalary` as written: the save receives the whole
      merged record (src/salaries/service.ts:58), which names every field. */
  function PatchSalaryAsWrittenSpec(rows: seq<SalaryModel>, key: SalaryKey, patch: SalaryPatch): (r: SalaryEffect)
    ensures r.result.Err? && r.rows == rows
    ensures r.result == Err(NotFound) || r.result == Err(InvalidRange) || r.result == Err(UnknownColumn)
  {
    match SalaryByKey(rows, key)
    case Err(e) => Effect(Err(e), rows, [GetByKey(key)])
    case Ok(current) =>
      var merged := ApplyPatch(current, patch);
      var probe := if TouchesDates(patch) then [OverlapQuery(merged)] else [];
      if TouchesDates(patch) && |OverlappingSalaries(rows, merged)| > 0 then
        Effect(Err(InvalidRange), rows, [GetByKey(key)] + probe)
      else
        var save := SaveAsWritten(rows, key, FullPatch(merged));
        if save.result.Err? then Effect(Err(save.result.error), save.rows, [GetByKey(key)] + probe + save.calls)
        else Effect(SalaryByKey(save.rows, key), save.rows, [GetByKey(key)] + probe + save.calls + [GetByKey(key)])
  }

  /** Does the log hold a save? */
  predicate Saves(calls: seq<SalaryCall>)
  {
    exists i :: 0 <= i < |calls| && calls[i].Save?
  }

  /** As written, `patchSalary` never succeeds and never changes the table: every
      call that would reach the save as intended fails there with the database's
      error, and every other call does exactly as intended. */
  lemma PatchSalaryAsWrittenFails(rows: seq<SalaryModel>, key: SalaryKey, patch: SalaryPatch)
    ensures var w := PatchSalaryAsWrittenSpec(rows, key, patch);
      var e := PatchSalarySpec(rows, key, patch);
      && w.result.Err?
      && w.rows == rows
      && (Saves(e.calls) ==> w.result == Err(UnknownColumn))
      && (!Saves(e.calls) ==> w == e)
  {
    var w := PatchSalaryAsWrittenSpec(rows, key, patch);
    var e := PatchSalarySpec(rows, key, patch);
    match SalaryByKey(rows, key)
    case Err(_) =>
      assert !Saves(e.calls) by { assert e.calls == [GetByKey(key)]; }
    case Ok(current) =>
      var merged := ApplyPatch(current, patch);
      if TouchesDates(patch) && |OverlappingSalaries(rows, merged)| > 0 {
        assert e.calls == [GetByKey(key)] + [OverlapQuery(merged)];
        assert !Saves(e.calls) by {
          assert [GetByKey(key)] + [OverlapQuery(merged)] == [GetByKey(key), OverlapQuery(merged)];
        }
      } else {
        assert NamesMissingColumn(FullPatch(merged));
        SavesInPatch(rows, key, patch);
      }
  }

  /** A patch that gets past the overlap check reaches the save. */
  lemma SavesInPatch(rows: seq<SalaryModel>, key: SalaryKey, patch: SalaryPatch)
    requires SalaryByKey(rows, key).Ok?
    requires !(TouchesDates(patch) && |OverlappingSalaries(rows, ApplyPatch(SalaryByKey(rows, key).value, patch))| > 0)
    ensures Saves(PatchSalarySpec(rows, key, patch).calls)
  {
    var merged := ApplyPatch(SalaryByKey(rows, key).value, patch);
    var calls := PatchSalarySpec(rows, key, patch).calls;
    var tail := SaveMergedSpec(rows, key, merged).calls;
    SaveMergedCalls(rows, key, merged);
    assert tail[0].Save?;
    if TouchesDates(patch) {
      assert calls == [GetByKey(key)] + ([OverlapQuery(merged)] + tail);
      assert calls[2] == tail[0];
    } else {
      assert calls == [GetByKey(key)] + tail;
      assert calls[1] == tail[0];
    }
  }

  /** Raising the amount of the stored period [6020, 6385) of employee 10001
      returns the raised record as intended, and fails as written. */
  lemma PatchAmountFailsAsWritten()
    ensures var key := SalaryKey(10001, 6020);
      var patch := SalaryPatch(None, Some(70000), None, None);
      && PatchSalarySpec([ScenarioFirst], key, patch).result == Ok(Salary(10001, 70000, 6020, 6385))
      && PatchSalaryAsWrittenSpec([ScenarioFirst], key, patch).result == Err(UnknownColumn)
  {
    var key := SalaryKey(10001, 6020);
    var patch := SalaryPatch(None, Some(70000), None, None);
    assert SalaryByKey([ScenarioFirst], key) == Ok(FromDb(ScenarioFirst));
    PatchSalaryOutcome([ScenarioFirst], key, patch);
    PatchSalaryAsWrittenFails([ScenarioFirst], key, patch);
    SavesInPatch([ScenarioFirst], key, patch);
  }

  // ---------------------------------------------------------------------------
  // applyPatch

  /** `applyPatch` on the record is `saveSalary`'s column update on its row. */
  lemma ApplyPatchIsColumnUpdate(s: Salary, patch: SalaryPatch)
    ensures ForDb(ApplyPatch(s, patch)) == PatchRow(patch, ForDb(s))
  {
  }

  /** The empty patch changes nothing, and applying a patch twice is applying it once. */
  lemma ApplyPatchLaws(s: Salary, patch: SalaryPatch)
    ensures ApplyPatch(s, SalaryPatch(None, None, None, None)) == s
    ensures ApplyPatch(ApplyPatch(s, patch), patch) == ApplyPatch(s, patch)
    ensures ApplyPatch(s, FullPatch(s)) == s
  {
  }
}

/** The request and response shapes of the salary routes and the mappers between
    them and the service's records. Dates travel as ISO `YYYY-MM-DD` strings; here
    they are already day numbers, so only the field handling is modelled. */
module SalariesMappers {
  import opened Results
  import opened Dates
  import opened SalaryTypes
  import opened SalariesMysql
  import opened SalariesService

  /** A full salary as the routes send and receive it. */
  datatype SalaryBody = SalaryBody(employeeNumber: int, salary: int, fromDate: Date, toDate: Date)

  /** The PATCH body: every field optional, no employee number. */
  datatype SalaryPatchBody = SalaryPatchBody(salary: Option<int>, fromDate: Option<Date>, toDate: Option<Date>)

  /** The route parameters that name one salary. */
  datatype SalaryKeyParams = SalaryKeyParams(employeeNumber: int, fromDate: Date)

  /** `forResponse(a)` */
  function ForResponse(a: Salary): (r: SalaryBody)
    ensures r.employeeNumber == a.employeeNumber && r.salary == a.salary
    ensures r.fromDate == a.fromDate && r.toDate == a.toDate
  {
    SalaryBody(a.employeeNumber, a.salary, a.fromDate, a.toDate)
  }

  /** `newSalaryFromRequest(salary)` */
  function NewSalaryFromRequest(body: SalaryBody): (r: Salary)
    ensures r.employeeNumber == body.employeeNumber && r.salary == body.salary
    ensures r.fromDate == body.fromDate && r.toDate == body.toDate
  {
    Salary(body.employeeNumber, body.salary, body.fromDate, body.toDate)
  }

  /** `patchSalaryFromRequest(patch)`: the body has no employee number, so the
      patch leaves it undefined; a date is defined exactly when the body has it. */
  function PatchSalaryFromRequest(body: SalaryPatchBody): (r: SalaryPatch)
    ensures r.employeeNumber.None?
    ensures r.salary == body.salary
    ensures r.fromDate.Some? <==> body.fromDate.Some?
    ensures r.toDate.Some? <==> body.toDate.Some?
    ensures body.fromDate.Some? ==> r.fromDate.value == body.fromDate.value
    ensures body.toDate.Some? ==> r.toDate.value == body.toDate.value
  {
    SalaryPatch(
      None,
      body.salary,
      body.fromDate,
      body.toDate)
  }

  /** `salaryKeyFromRequest(params)` */
  function SalaryKeyFromRequest(params: SalaryKeyParams): (r: SalaryKey)
    ensures r.employeeNumber == params.employeeNumber && r.fromDate == params.fromDate
  {
    SalaryKey(params.employeeNumber, params.fromDate)
  }

  /** A record sent back in a response and posted again is the same record, and
      the reverse. */
  lemma ResponseRoundTrip(a: Salary, body: SalaryBody)
    ensures NewSalaryFromRequest(ForResponse(a)) == a
    ensures ForResponse(NewSalaryFromRequest(body)) == body
  {
  }

  /** The key of a created salary names it again in a route. */
  lemma KeyOfRequest(body: SalaryBody)
    ensures KeyOf(NewSalaryFromRequest(body)) ==
      SalaryKeyFromRequest(SalaryKeyParams(body.employeeNumber, body.fromDate))
  {
  }

  /** A PATCH that only carries a salary amount reaches `patchSalary` with both
      dates undefined, so no overlap query is run and only the amount changes. */
  lemma SalaryOnlyPatch(rows: seq<SalaryModel>, params: SalaryKeyParams, amount: int)
    ensures var patch := PatchSalaryFromRequest(SalaryPatchBody(Some(amount), None, None));
      var e := PatchSalarySpec(rows, SalaryKeyFromRequest(params), patch);
      && !TouchesDates(patch)
      && !(exists c :: c in e.calls && c.OverlapQuery?)
      && (SalaryByKey(rows, SalaryKeyFromRequest(params)).Ok? ==>
            e.result == Ok(SalaryByKey(rows, SalaryKeyFromRequest(params)).value.(salary := amount)))
  {
    var key := SalaryKeyFromRequest(params);
    var patch := PatchSalaryFromRequest(SalaryPatchBody(Some(amount), None, None));
    PatchSalaryProbes(rows, key, patch);
    if SalaryByKey(rows, key).Ok? {
      PatchSalaryOutcome(rows, key, patch);
    }
  }

  /** Every PATCH whose body has only the schema's fields keeps the table
      conflict-free as long as the merged period is not empty: such a body cannot
      move a period to another employee without the overlap query. (The schema
      does not forbid other properties; a body carrying `employeeNumber` is not
      covered here, see `PatchCanMoveIntoConflict`.) */
  lemma RoutePatchKeepsConflictFree(rows: seq<SalaryModel>, params: SalaryKeyParams, body: SalaryPatchBody)
    requires ConflictFree(rows)
    requires var key := SalaryKeyFromRequest(params);
      SalaryByKey(rows, key).Ok? ==>
        WellFormed(ForDb(ApplyPatch(SalaryByKey(rows, key).value, PatchSalaryFromRequest(body))))
    ensures ConflictFree(PatchSalarySpec(rows, SalaryKeyFromRequest(params), PatchSalaryFromRequest(body)).rows)
  {
    PatchKeepsConflictFree(rows, SalaryKeyFromRequest(params), PatchSalaryFromRequest(body));
  }
}

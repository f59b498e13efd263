/** The request and response shapes of the employee routes and the mappers
    between them and the service's records. Dates are already day numbers; the
    gender code and the handling of absent fields are modelled. */
module EmployeesMappers {
  import opened Results
  import opened Dates
  import opened EmployeeTypes
  import opened EmployeesMysql
  import opened EmployeesService

  /** The body of a create request: the gender is a string. */
  datatype NewEmployeeBody = NewEmployeeBody(
    firstName: string, lastName: string, birthDate: Date, hireDate: Date, gender: string)

  /** The body of a PATCH request: every field optional. */
  datatype PatchEmployeeBody = PatchEmployeeBody(
    firstName: Option<string>, lastName: Option<string>, birthDate: Option<Date>, hireDate: Option<Date>,
    gender: Option<string>)

  /** An employee as the routes send it. */
  datatype EmployeeBody = EmployeeBody(
    employeeNumber: int, firstName: string, lastName: string, birthDate: Date, hireDate: Date, gender: string)

  /** Lower-casing of one character; only the letters A-Z change. */
  function LowerChar(c: char): char
  {
    if 'A' <= c <= 'Z' then (c as int + 32) as char else c
  }

  /** `toLowerCase()`, restricted to the letters A-Z. */
  function ToLower(s: string): (r: string)
    ensures |r| == |s|
    ensures forall i :: 0 <= i < |s| ==> r[i] == LowerChar(s[i])
  {
    seq(|s|, i requires 0 <= i < |s| => LowerChar(s[i]))
  }

  /** `mapGender(genderString)` */
  function MapGender(genderString: string): (g: Gender)
    ensures g == Female <==> ToLower(genderString) == "f"
    ensures g == Male <==> ToLower(genderString) == "m"
    ensures g == Other <==> ToLower(genderString) != "f" && ToLower(genderString) != "m"
  {
    if ToLower(genderString) == "f" then Female
    else if ToLower(genderString) == "m" then Male
    else Other
  }

  /** The code a gender is stored and sent as. */
  function GenderCode(g: Gender): string
  {
    match g
    case Male => "M"
    case Female => "F"
    case Other => "O"
  }

  /** A string lower-cases to a one-letter string exactly when it is that letter
      in either case. */
  lemma LowerIsLetter(s: string, lower: char, upper: char)
    requires 'a' <= lower <= 'z' && upper as int == lower as int - 32
    ensures ToLower(s) == [lower] <==> s == [lower] || s == [upper]
  {
    if ToLower(s) == [lower] {
      assert LowerChar(s[0]) == lower;
      assert s == [s[0]];
    }
  }

  /** `mapGender` is female for "f" and "F", male for "m" and "M", and other for
      every other string. */
  lemma MapGenderCases(s: string)
    ensures MapGender(s) == Female <==> s == "f" || s == "F"
    ensures MapGender(s) == Male <==> s == "m" || s == "M"
    ensures MapGender(s) == Other <==> s != "f" && s != "F" && s != "m" && s != "M"
  {
    LowerIsLetter(s, 'f', 'F');
    LowerIsLetter(s, 'm', 'M');
  }

  /** Every gender code maps back to its gender. */
  lemma MapGenderOfCode(g: Gender)
    ensures MapGender(GenderCode(g)) == g
  {
    MapGenderCases(GenderCode(g));
  }

  /** `newEmployeeFromRequest(employee)`: the gender is always mapped and the
      other fields are copied. */
  function NewEmployeeFromRequest(body: NewEmployeeBody): (r: NewEmployee)
    ensures r.firstName == body.firstName && r.lastName == body.lastName
    ensures r.birthDate == body.birthDate && r.hireDate == body.hireDate
    ensures r.gender == MapGender(body.gender)
  {
    NewEmployee(body.firstName, body.lastName, body.birthDate, body.hireDate, MapGender(body.gender))
  }

  /** `patchEmployeeFromRequest(employee)`: a gender is mapped only when the body
      has a non-empty one, and the other fields are copied; the body has no
      employee number. */
  function PatchEmployeeFromRequest(body: PatchEmployeeBody): (r: EmployeePatch)
    ensures r.employeeNumber.None?
    ensures r.firstName == body.firstName && r.lastName == body.lastName
    ensures r.birthDate == body.birthDate && r.hireDate == body.hireDate
    ensures r.gender.Some? <==> Truthy(body.gender)
    ensures r.gender.Some? ==> r.gender.value == MapGender(body.gender.value)
  {
    EmployeePatch(
      None, body.firstName, body.lastName, body.birthDate, body.hireDate,
      if Truthy(body.gender) then Some(MapGender(body.gender.value)) else None)
  }

  /** `forResponse(employee)`: the gender is sent as its code. */
  function ForResponse(e: Employee): (r: EmployeeBody)
    ensures r.employeeNumber == e.employeeNumber && r.firstName == e.firstName && r.lastName == e.lastName
    ensures r.birthDate == e.birthDate && r.hireDate == e.hireDate
    ensures r.gender == GenderCode(e.gender)
  {
    EmployeeBody(e.employeeNumber, e.firstName, e.lastName, e.birthDate, e.hireDate, GenderCode(e.gender))
  }

  /** An employee sent in a response and posted again, with its number restored,
      is the same employee. */
  lemma ResponseRoundTrip(e: Employee)
    ensures var b := ForResponse(e);
      WithNumber(NewEmployeeFromRequest(NewEmployeeBody(b.firstName, b.lastName, b.birthDate, b.hireDate, b.gender)),
        e.employeeNumber) == e
  {
    MapGenderOfCode(e.gender);
  }

  /** A PATCH whose body has only the schema's fields never renumbers the
      employee: an edit of a stored employee saves and returns the merged record,
      which keeps the number and keeps the gender unless the body carries one.
      (The schema does not forbid other properties, which the spread would copy.) */
  lemma RouteEditKeepsNumber(rows: seq<EmployeeModel>, employeeNumber: int, body: PatchEmployeeBody)
    requires EmployeeByNumber(rows, employeeNumber).Ok?
    ensures var current := EmployeeByNumber(rows, employeeNumber).value;
      var e := EditEmployeeSpec(rows, employeeNumber, PatchEmployeeFromRequest(body));
      && e.result == Ok(ApplyPatch(current, PatchEmployeeFromRequest(body)))
      && e.result.value.employeeNumber == employeeNumber
      && (!Truthy(body.gender) ==> e.result.value.gender == current.gender)
  {
    EditEmployeeSameNumber(rows, employeeNumber, PatchEmployeeFromRequest(body));
  }
}

/** The request and response shapes of the title routes and the mappers between
    them and the service's records. Dates are already day numbers; only the
    handling of absent and `null` fields is modelled. */
module TitlesMappers {
  import opened Results
  import opened Dates
  import opened TitleTypes
  import opened TitlesService

  /** A title as the routes send and receive it. `toDate` may be absent (`None`),
      `null` (`Some(None)`) or a date (`Some(Some(d))`). */
  datatype RequestTitle = RequestTitle(employeeNumber: int, title: string, fromDate: Date, toDate: Option<Option<Date>>)

  /** The PATCH body: every field optional. */
  datatype PartialRequestTitle = PartialRequestTitle(
    employeeNumber: Option<int>, title: Option<string>, fromDate: Option<Date>, toDate: Option<Option<Date>>)

  /** The route parameters that name one title. */
  datatype TitleKeyParams = TitleKeyParams(employeeNumber: int, title: string, fromDate: Date)

  /** `title.toDate ? new Date(title.toDate) : undefined`: only a date survives. */
  function DateOrUndefined(d: Option<Option<Date>>): (r: Option<Date>)
    ensures r.Some? <==> d.Some? && d.value.Some?
    ensures r.Some? ==> r.value == d.value.value
  {
    match d
    case Some(Some(v)) => Some(v)
    case _ => None
  }

  /** `fromRequest` on a full title. The source leaves an absent or `null` toDate
      `undefined`; inserting it stores no end date, which is `null` here. */
  function FromRequest(body: RequestTitle): (r: Title)
    ensures r.employeeNumber == body.employeeNumber && r.title == body.title && r.fromDate == body.fromDate
    ensures r.toDate == DateOrUndefined(body.toDate)
  {
    Title(body.employeeNumber, body.title, body.fromDate, DateOrUndefined(body.toDate))
  }

  /** `fromRequest` on a PATCH body: a field is defined in the patch exactly when
      the body carries a value for it, and an explicit `null` toDate becomes
      `undefined`, not `null`. */
  function PatchFromRequest(body: PartialRequestTitle): (r: TitlePatch)
    ensures r.employeeNumber == body.employeeNumber && r.title == body.title && r.fromDate == body.fromDate
    ensures r.toDate.Some? <==> body.toDate.Some? && body.toDate.value.Some?
    ensures r.toDate.Some? ==> r.toDate.value == body.toDate.value
  {
    TitlePatch(
      body.employeeNumber, body.title, body.fromDate,
      match DateOrUndefined(body.toDate) case Some(v) => Some(Some(v)) case None => None)
  }

  /** `fromRequest` on the route parameters. */
  function KeyFromRequest(params: TitleKeyParams): (r: TitleKey)
    ensures r.employeeNumber == params.employeeNumber && r.title == params.title && r.fromDate == params.fromDate
  {
    TitleKey(params.employeeNumber, params.title, params.fromDate)
  }

  /** `forResponse(title)`: a `null` toDate is sent as an explicit `null`. */
  function ForResponse(t: Title): (r: RequestTitle)
    ensures r.employeeNumber == t.employeeNumber && r.title == t.title && r.fromDate == t.fromDate
    ensures t.toDate.None? ==> r.toDate == Some(None)
    ensures t.toDate.Some? ==> r.toDate == Some(Some(t.toDate.value))
  {
    RequestTitle(t.employeeNumber, t.title, t.fromDate, Some(t.toDate))
  }

  /** A title sent in a response and posted again is the same title. */
  lemma ResponseRoundTrip(t: Title)
    ensures FromRequest(ForResponse(t)) == t
  {
  }

  /** A patch mapped from a request never holds an explicit `null` toDate. */
  lemma PatchNeverNull(body: PartialRequestTitle)
    ensures PatchFromRequest(body).toDate != Some(None)
  {
  }

  /** A PATCH whose toDate is `null` or absent cannot change the end date, whereas
      the service itself would clear it for a patch holding `null`. */
  lemma NullCannotClearToDate(t: Title, body: PartialRequestTitle)
    requires body.toDate.None? || body.toDate.value.None?
    ensures ApplyPatch(t, PatchFromRequest(body)).toDate == t.toDate
    ensures t.toDate.Some? ==> ApplyPatch(t, PatchFromRequest(body).(toDate := Some(None))).toDate != t.toDate
  {
  }
}

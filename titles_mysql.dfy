/** The record types of the title resource. */
module TitleTypes {
  import opened Results
  import opened Dates

  /** One job title an employee held from `fromDate`; `toDate` is `null` (`None`)
      for the title the employee still holds. */
  datatype Title = Title(employeeNumber: int, title: string, fromDate: Date, toDate: Option<Date>)

  /** The composite key of a title record. */
  datatype TitleKey = TitleKey(employeeNumber: int, title: string, fromDate: Date)

  /** `Partial<Title>`: the outer `None` is a field left `undefined`; for `toDate`,
      `Some(None)` is an explicit `null`. */
  datatype TitlePatch = TitlePatch(
    employeeNumber: Option<int>, title: Option<string>, fromDate: Option<Date>, toDate: Option<Option<Date>>)

  /** `TitleFilterOptions` */
  datatype TitleFilter = TitleFilter(employeeNumber: Option<int>, limit: Option<nat>)

  function KeyOf(t: Title): TitleKey
  {
    TitleKey(t.employeeNumber, t.title, t.fromDate)
  }
}

/** The `titles` table and the queries the title resource runs against it. */
module TitlesMysql {
  import opened Results
  import opened Dates
  import opened Rows
  import opened TitleTypes

  /** A row of the `titles` table, with its column names. */
  datatype TitleModel = TitleModel(emp_no: int, title: string, from_date: Date, to_date: Option<Date>)

  /** The key columns of a row. */
  datatype TitleModelKey = TitleModelKey(emp_no: int, title: string, from_date: Date)

  function FromDb(t: TitleModel): (r: Title)
    ensures ForDb(r) == t
  {
    Title(t.emp_no, t.title, t.from_date, t.to_date)
  }

  function ForDb(t: Title): (m: TitleModel)
    ensures m.emp_no == t.employeeNumber && m.title == t.title
    ensures m.from_date == t.fromDate && m.to_date == t.toDate
  {
    TitleModel(t.employeeNumber, t.title, t.fromDate, t.toDate)
  }

  /** `titleKeyForDb(key)`: the key bound to the three key columns. */
  function TitleKeyForDb(key: TitleKey): (r: TitleModelKey)
    ensures r.emp_no == key.employeeNumber && r.title == key.title && r.from_date == key.fromDate
  {
    TitleModelKey(key.employeeNumber, key.title, key.fromDate)
  }

  /** The column mapping loses nothing in either direction, and the key columns of
      a stored title are its key mapped to the table. */
  lemma MappingRoundTrip(t: Title, m: TitleModel)
    ensures FromDb(ForDb(t)) == t
    ensures ForDb(FromDb(m)) == m
    ensures KeyColumns(ForDb(t)) == TitleKeyForDb(KeyOf(t))
  {
  }

  function KeyColumns(m: TitleModel): TitleModelKey
  {
    TitleModelKey(m.emp_no, m.title, m.from_date)
  }

  /** `where(titleKeyForDb(key))`: all three key columns must match. */
  function KeyIs(key: TitleModelKey): TitleModel -> bool
  {
    (row: TitleModel) => row.emp_no == key.emp_no && row.title == key.title && row.from_date == key.from_date
  }

  /** `where({ emp_no })` */
  function EmployeeIs(employeeNumber: int): TitleModel -> bool
  {
    (row: TitleModel) => row.emp_no == employeeNumber
  }

  /** `update(forDb(title))`: every column of the matched row is overwritten. */
  function Overwrite(m: TitleModel): TitleModel -> TitleModel
  {
    (row: TitleModel) => m
  }

  /** The `LIMIT` when the caller gave none. */
  const DefaultLimit: nat := 10

  /** A JavaScript number is truthy when it is defined and not zero. */
  predicate Truthy(n: Option<int>)
  {
    n.Some? && n.value != 0
  }

  // ---------------------------------------------------------------------------
  // The queries, as functions of the table's rows

  /** `getTitleByKey(key)`: the first row matching all three key columns. */
  function TitleByKey(rows: seq<TitleModel>, key: TitleKey): (r: Result<Title>)
    ensures r.Err? ==> r.error == NotFound
    ensures r.Err? <==> forall m :: m in rows ==> KeyColumns(m) != TitleKeyForDb(key)
    ensures r.Ok? ==> ForDb(r.value) in rows && KeyOf(r.value) == key
  {
    match First(rows, KeyIs(TitleKeyForDb(key)))
    case None => Err(NotFound)
    case Some(m) => Ok(FromDb(m))
  }

  /** The `LIMIT` of a listing: the caller's, or `DefaultLimit`. */
  function LimitOf(filter: TitleFilter): nat
  {
    match filter.limit case Some(l) => l case None => DefaultLimit
  }

  /** The rows `listTitles` selects before its `LIMIT`: those of the filter's
      employee when its number is truthy, otherwise the whole table. */
  function SelectedTitles(rows: seq<TitleModel>, filter: TitleFilter): (r: seq<TitleModel>)
    ensures forall m :: m in r <==> m in rows && (Truthy(filter.employeeNumber) ==> m.emp_no == filter.employeeNumber.value)
  {
    if Truthy(filter.employeeNumber) then Filter(rows, EmployeeIs(filter.employeeNumber.value)) else rows
  }

  /** `listTitles(filter)`: the first `limit` selected rows (10 by default), or all
      of them when there are fewer, in table order. */
  function ListTitlesQuery(rows: seq<TitleModel>, filter: TitleFilter): (r: seq<Title>)
    ensures var n := |SelectedTitles(rows, filter)|; |r| == if LimitOf(filter) < n then LimitOf(filter) else n
    ensures forall i :: 0 <= i < |r| ==> ForDb(r[i]) in rows
    ensures forall i :: 0 <= i < |r| ==> ForDb(r[i]) == SelectedTitles(rows, filter)[i]
    ensures Truthy(filter.employeeNumber) ==> forall i :: 0 <= i < |r| ==> r[i].employeeNumber == filter.employeeNumber.value
  {
    var selected := SelectedTitles(rows, filter);
    var page := Take(selected, LimitOf(filter));
    assert forall i :: 0 <= i < |page| ==> page[i] in selected && page[i] in rows;
    var r := Map(FromDb, page);
    assert forall i :: 0 <= i < |r| ==> ForDb(r[i]) == page[i];
    r
  }

  /** The calls a title operation issues against the table, for the record. */
  datatype TitleCall =
    | TitleRead(key: TitleKey)
    | TitleInsert(title: Title)
    | TitleSave(title: Title)
    | TitleDelete(key: TitleKey)
    | TitleList(filter: TitleFilter)

  /** The `titles` table. */
  class TitleStore {
    var rows: seq<TitleModel>
    ghost var calls: seq<TitleCall>

    constructor(initial: seq<TitleModel>)
      ensures rows == initial && calls == []
    {
      rows := initial;
      calls := [];
    }

    method GetTitleByKey(key: TitleKey) returns (r: Result<Title>)
      modifies this`calls
      ensures r == TitleByKey(rows, key)
      ensures calls == old(calls) + [TitleRead(key)]
    {
      r := TitleByKey(rows, key);
      calls := calls + [TitleRead(key)];
    }

    /** `insertTitle(title)`: appends the row; the returned id is not modelled. */
    method InsertTitle(t: Title)
      modifies this
      ensures rows == old(rows) + [ForDb(t)]
      ensures calls == old(calls) + [TitleInsert(t)]
    {
      rows := rows + [ForDb(t)];
      calls := calls + [TitleInsert(t)];
    }

    /** `saveTitle(title)`: the rows found by the title's own key fields are
        overwritten with it; not-found when there are none. */
    method SaveTitle(t: Title) returns (r: Result<()>)
      modifies this
      ensures rows == UpdateWhere(old(rows), KeyIs(TitleKeyForDb(KeyOf(t))), Overwrite(ForDb(t)))
      ensures r == if Count(old(rows), KeyIs(TitleKeyForDb(KeyOf(t)))) < 1 then Err(NotFound) else Ok(())
      ensures r.Err? ==> rows == old(rows)
      ensures calls == old(calls) + [TitleSave(t)]
    {
      var where := KeyIs(TitleKeyForDb(KeyOf(t)));
      var rowsAffected := Count(rows, where);
      if rowsAffected < 1 {
        UpdateWhereNoMatch(rows, where, Overwrite(ForDb(t)));
      }
      rows := UpdateWhere(rows, where, Overwrite(ForDb(t)));
      calls := calls + [TitleSave(t)];
      if rowsAffected < 1 {
        r := Err(NotFound);
      } else {
        r := Ok(());
      }
    }

    /** `deleteTitleByKey(key)`: removes the rows with that key; not-found when none. */
    method DeleteTitleByKey(key: TitleKey) returns (r: Result<()>)
      modifies this
      ensures rows == DeleteWhere(old(rows), KeyIs(TitleKeyForDb(key)))
      ensures r == if Count(old(rows), KeyIs(TitleKeyForDb(key))) < 1 then Err(NotFound) else Ok(())
      ensures calls == old(calls) + [TitleDelete(key)]
    {
      var rowsAffected := Count(rows, KeyIs(TitleKeyForDb(key)));
      rows := DeleteWhere(rows, KeyIs(TitleKeyForDb(key)));
      calls := calls + [TitleDelete(key)];
      if rowsAffected < 1 {
        r := Err(NotFound);
      } else {
        r := Ok(());
      }
    }

    method ListTitles(filter: TitleFilter) returns (r: seq<Title>)
      modifies this`calls
      ensures r == ListTitlesQuery(rows, filter)
      ensures calls == old(calls) + [TitleList(filter)]
    {
      r := ListTitlesQuery(rows, filter);
      calls := calls + [TitleList(filter)];
    }
  }

  // ---------------------------------------------------------------------------
  // Properties of the queries

  /** After `insertTitle(t)` into a table without a row under t's key,
      `getTitleByKey` on that key returns t. */
  lemma InsertThenGet(rows: seq<TitleModel>, t: Title)
    requires TitleByKey(rows, KeyOf(t)).Err?
    ensures TitleByKey(rows + [ForDb(t)], KeyOf(t)) == Ok(t)
  {
    var rows' := rows + [ForDb(t)];
    assert ForDb(t) in rows';
    assert KeyColumns(ForDb(t)) == TitleKeyForDb(KeyOf(t));
    var m := First(rows', KeyIs(TitleKeyForDb(KeyOf(t))));
    assert m.value in rows || m.value == ForDb(t);
  }

  /** After a successful `saveTitle(t)` the title read back by t's key is t. */
  lemma SaveThenGet(rows: seq<TitleModel>, t: Title)
    requires Count(rows, KeyIs(TitleKeyForDb(KeyOf(t)))) > 0
    ensures TitleByKey(UpdateWhere(rows, KeyIs(TitleKeyForDb(KeyOf(t))), Overwrite(ForDb(t))), KeyOf(t)) == Ok(t)
  {
    UpdateAllTo(rows, KeyIs(TitleKeyForDb(KeyOf(t))), Overwrite(ForDb(t)), ForDb(t));
    MappingRoundTrip(t, ForDb(t));
  }

  /** `saveTitle(t)` leaves every row under another key as it was. */
  lemma SaveKeepsOthers(rows: seq<TitleModel>, t: Title, i: int)
    requires 0 <= i < |rows| && KeyColumns(rows[i]) != TitleKeyForDb(KeyOf(t))
    ensures UpdateWhere(rows, KeyIs(TitleKeyForDb(KeyOf(t))), Overwrite(ForDb(t)))[i] == rows[i]
  {
  }

  /** After `deleteTitleByKey(key)` no row has that key: a read fails with
      not-found and a second delete affects no row. */
  lemma DeleteThenGet(rows: seq<TitleModel>, key: TitleKey)
    ensures TitleByKey(DeleteWhere(rows, KeyIs(TitleKeyForDb(key))), key) == Err(NotFound)
    ensures Count(DeleteWhere(rows, KeyIs(TitleKeyForDb(key))), KeyIs(TitleKeyForDb(key))) == 0
  {
    var after := DeleteWhere(rows, KeyIs(TitleKeyForDb(key)));
    assert forall m :: m in after ==> !KeyIs(TitleKeyForDb(key))(m);
  }

  /** When the rows the employee filter selects fit in the limit, `listTitles`
      lists every one of them; without a truthy employee number it selects the
      whole table. */
  lemma ListTitlesComplete(rows: seq<TitleModel>, filter: TitleFilter, m: TitleModel)
    requires m in rows
    requires Truthy(filter.employeeNumber) ==> m.emp_no == filter.employeeNumber.value
    requires |SelectedTitles(rows, filter)| <= LimitOf(filter)
    ensures FromDb(m) in ListTitlesQuery(rows, filter)
  {
    var selected := SelectedTitles(rows, filter);
    assert Take(selected, LimitOf(filter)) == selected;
    var i :| 0 <= i < |selected| && selected[i] == m;
    assert ListTitlesQuery(rows, filter)[i] == FromDb(m);
  }

  /** `getTitleByKey` returns the first stored row with the key. */
  lemma TitleByKeyIsFirstRow(rows: seq<TitleModel>, key: TitleKey)
    requires TitleByKey(rows, key).Ok?
    ensures exists i ::
      && 0 <= i < |rows| && KeyColumns(rows[i]) == TitleKeyForDb(key)
      && TitleByKey(rows, key).value == FromDb(rows[i])
      && forall j :: 0 <= j < i ==> KeyColumns(rows[j]) != TitleKeyForDb(key)
  {
    var i := FirstIndex(rows, KeyIs(TitleKeyForDb(key))).value;
    assert KeyIs(TitleKeyForDb(key))(rows[i]);
    forall j | 0 <= j < i ensures KeyColumns(rows[j]) != TitleKeyForDb(key) {
      assert !KeyIs(TitleKeyForDb(key))(rows[j]);
    }
  }
}

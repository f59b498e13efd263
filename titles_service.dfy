/** The title service: create, read, list, edit and delete job titles. Edits
    read the record, merge the patch and save the merged record under its own
    key fields. */
module TitlesService {
  import opened Results
  import opened Dates
  import opened Rows
  import opened TitleTypes
  import opened TitlesMysql

  type TitleEffect = Effect<Title, TitleModel, TitleCall>

  /** `applyPatch`: every field the patch defines overrides the title's, every
      other field is kept; an explicit `null` toDate is a defined value. */
  function ApplyPatch(t: Title, patch: TitlePatch): (r: Title)
    ensures patch.employeeNumber.Some? ==> r.employeeNumber == patch.employeeNumber.value
    ensures patch.employeeNumber.None? ==> r.employeeNumber == t.employeeNumber
    ensures patch.title.Some? ==> r.title == patch.title.value
    ensures patch.title.None? ==> r.title == t.title
    ensures patch.fromDate.Some? ==> r.fromDate == patch.fromDate.value
    ensures patch.fromDate.None? ==> r.fromDate == t.fromDate
    ensures patch.toDate.Some? ==> r.toDate == patch.toDate.value
    ensures patch.toDate.None? ==> r.toDate == t.toDate
  {
    Title(
      match patch.employeeNumber case Some(v) => v case None => t.employeeNumber,
      match patch.title case Some(v) => v case None => t.title,
      match patch.fromDate case Some(v) => v case None => t.fromDate,
      match patch.toDate case Some(v) => v case None => t.toDate)
  }

  // ---------------------------------------------------------------------------
  // What each operation does

  /** `createTitle(title)` */
  function CreateTitleSpec(rows: seq<TitleModel>, t: Title): TitleEffect
  {
    var after := rows + [ForDb(t)];
    Effect(TitleByKey(after, KeyOf(t)), after, [TitleInsert(t), TitleRead(KeyOf(t))])
  }

  /** `editTitle(key, patch)` */
  function EditTitleSpec(rows: seq<TitleModel>, key: TitleKey, patch: TitlePatch): TitleEffect
  {
    match TitleByKey(rows, key)
    case Err(e) => Effect(Err(e), rows, [TitleRead(key)])
    case Ok(current) =>
      var e := SaveAndReadSpec(rows, ApplyPatch(current, patch));
      Effect(e.result, e.rows, [TitleRead(key)] + e.calls)
  }

  /** The tail of `editTitle`: save the merged title and read it back, both by the
      merged title's own key fields. */
  function SaveAndReadSpec(rows: seq<TitleModel>, merged: Title): TitleEffect
  {
    var after := UpdateWhere(rows, KeyIs(TitleKeyForDb(KeyOf(merged))), Overwrite(ForDb(merged)));
    if Count(rows, KeyIs(TitleKeyForDb(KeyOf(merged)))) < 1 then Effect(Err(NotFound), after, [TitleSave(merged)])
    else Effect(TitleByKey(after, KeyOf(merged)), after, [TitleSave(merged), TitleRead(KeyOf(merged))])
  }

  // ---------------------------------------------------------------------------
  // The operations

  method CreateTitle(db: TitleStore, t: Title) returns (r: Result<Title>)
    modifies db
    ensures var e := CreateTitleSpec(old(db.rows), t);
      r == e.result && db.rows == e.rows && db.calls == old(db.calls) + e.calls
  {
    db.InsertTitle(t);
    AppendCalls(old(db.calls), [TitleInsert(t)], [TitleRead(KeyOf(t))]);
    TwoCalls(TitleInsert(t), TitleRead(KeyOf(t)));
    r := db.GetTitleByKey(KeyOf(t));
  }

  method EditTitle(db: TitleStore, key: TitleKey, patch: TitlePatch) returns (r: Result<Title>)
    modifies db
    ensures var e := EditTitleSpec(old(db.rows), key, patch);
      r == e.result && db.rows == e.rows && db.calls == old(db.calls) + e.calls
  {
    var title := db.GetTitleByKey(key);
    if title.Err? {
      return Err(title.error);
    }
    var updatedTitle := ApplyPatch(title.value, patch);
    ghost var tail := SaveAndReadSpec(db.rows, updatedTitle);
    AppendCalls(old(db.calls), [TitleRead(key)], tail.calls);
    r := SaveAndRead(db, updatedTitle);
  }

  method SaveAndRead(db: TitleStore, merged: Title) returns (r: Result<Title>)
    modifies db
    ensures var e := SaveAndReadSpec(old(db.rows), merged);
      r == e.result && db.rows == e.rows && db.calls == old(db.calls) + e.calls
  {
    ghost var e := SaveAndReadSpec(db.rows, merged);
    var saved := db.SaveTitle(merged);
    if saved.Err? {
      return Err(saved.error);
    }
    assert db.rows == e.rows;
    AppendCalls(old(db.calls), [TitleSave(merged)], [TitleRead(KeyOf(merged))]);
    TwoCalls(TitleSave(merged), TitleRead(KeyOf(merged)));
    r := db.GetTitleByKey(KeyOf(merged));
  }

  /** `getTitle(key)`: handed to the store unchanged. */
  method GetTitle(db: TitleStore, key: TitleKey) returns (r: Result<Title>)
    modifies db`calls
    ensures r == TitleByKey(db.rows, key)
    ensures db.calls == old(db.calls) + [TitleRead(key)]
  {
    r := db.GetTitleByKey(key);
  }

  /** `getTitles(filter)`: handed to the store unchanged. */
  method GetTitles(db: TitleStore, filter: TitleFilter) returns (r: seq<Title>)
    modifies db`calls
    ensures r == ListTitlesQuery(db.rows, filter)
    ensures db.calls == old(db.calls) + [TitleList(filter)]
  {
    r := db.ListTitles(filter);
  }

  /** `deleteTitle(key)`: handed to the store unchanged. */
  method DeleteTitle(db: TitleStore, key: TitleKey) returns (r: Result<()>)
    modifies db
    ensures db.rows == DeleteWhere(old(db.rows), KeyIs(TitleKeyForDb(key)))
    ensures r == if Count(old(db.rows), KeyIs(TitleKeyForDb(key))) < 1 then Err(NotFound) else Ok(())
    ensures db.calls == old(db.calls) + [TitleDelete(key)]
  {
    r := db.DeleteTitleByKey(key);
  }

  // ---------------------------------------------------------------------------
  // Properties

  /** `createTitle` always appends the title and then finds a title under its key:
      the title itself when the key was free, and otherwise the row already stored
      under that key, which comes first in table order. */
  lemma CreateTitleOutcome(rows: seq<TitleModel>, t: Title)
    ensures var e := CreateTitleSpec(rows, t);
      && e.rows == rows + [ForDb(t)]
      && e.result.Ok?
      && (TitleByKey(rows, KeyOf(t)).Err? ==> e.result == Ok(t))
      && (TitleByKey(rows, KeyOf(t)).Ok? ==> e.result == TitleByKey(rows, KeyOf(t)))
  {
    FirstOfAppend(rows, ForDb(t), KeyIs(TitleKeyForDb(KeyOf(t))));
    MappingRoundTrip(t, ForDb(t));
  }

  /** `editTitle` on a missing key fails with not-found after the read alone. */
  lemma EditTitleMissing(rows: seq<TitleModel>, key: TitleKey, patch: TitlePatch)
    requires TitleByKey(rows, key).Err?
    ensures EditTitleSpec(rows, key, patch) == Effect(Err(NotFound), rows, [TitleRead(key)])
  {
  }

  /** An edit that keeps the key fields overwrites the rows under the key with the
      merged title and returns it. */
  lemma EditTitleSameKey(rows: seq<TitleModel>, key: TitleKey, patch: TitlePatch)
    requires TitleByKey(rows, key).Ok?
    requires KeyOf(ApplyPatch(TitleByKey(rows, key).value, patch)) == key
    ensures var merged := ApplyPatch(TitleByKey(rows, key).value, patch);
      var e := EditTitleSpec(rows, key, patch);
      && e.result == Ok(merged)
      && e.rows == UpdateWhere(rows, KeyIs(TitleKeyForDb(key)), Overwrite(ForDb(merged)))
      && e.calls == [TitleRead(key), TitleSave(merged), TitleRead(key)]
  {
    var merged := ApplyPatch(TitleByKey(rows, key).value, patch);
    assert ForDb(TitleByKey(rows, key).value) in rows;
    assert KeyIs(TitleKeyForDb(key))(ForDb(TitleByKey(rows, key).value));
    SaveThenGet(rows, merged);
    ThreeCalls(TitleRead(key), TitleSave(merged), TitleRead(key));
  }

  /** An edit that changes a key field looks for the merged key: when no row has it
      the edit fails with not-found and changes nothing, so the original record
      cannot be re-keyed. */
  lemma EditTitleNewKeyMissing(rows: seq<TitleModel>, key: TitleKey, patch: TitlePatch)
    requires TitleByKey(rows, key).Ok?
    requires TitleByKey(rows, KeyOf(ApplyPatch(TitleByKey(rows, key).value, patch))).Err?
    ensures var merged := ApplyPatch(TitleByKey(rows, key).value, patch);
      EditTitleSpec(rows, key, patch) == Effect(Err(NotFound), rows, [TitleRead(key), TitleSave(merged)])
  {
    var merged := ApplyPatch(TitleByKey(rows, key).value, patch);
    UpdateWhereNoMatch(rows, KeyIs(TitleKeyForDb(KeyOf(merged))), Overwrite(ForDb(merged)));
    TwoCalls(TitleRead(key), TitleSave(merged));
  }

  /** When the merged key names another stored title, that title is overwritten
      with the merged record and returned, while the title under the original key
      is still there as it was. */
  lemma EditTitleOverwritesOther(rows: seq<TitleModel>, key: TitleKey, patch: TitlePatch)
    requires TitleByKey(rows, key).Ok?
    requires KeyOf(ApplyPatch(TitleByKey(rows, key).value, patch)) != key
    requires TitleByKey(rows, KeyOf(ApplyPatch(TitleByKey(rows, key).value, patch))).Ok?
    ensures var merged := ApplyPatch(TitleByKey(rows, key).value, patch);
      var e := EditTitleSpec(rows, key, patch);
      && e.result == Ok(merged)
      && TitleByKey(e.rows, key) == TitleByKey(rows, key)
  {
    var merged := ApplyPatch(TitleByKey(rows, key).value, patch);
    var p := KeyIs(TitleKeyForDb(KeyOf(merged)));
    var q := KeyIs(TitleKeyForDb(key));
    assert ForDb(TitleByKey(rows, KeyOf(merged)).value) in rows;
    SaveThenGet(rows, merged);
    UpdateElsewhere(rows, p, Overwrite(ForDb(merged)), q);
  }

  /** The empty patch changes nothing, a patch applied twice is applied once, and
      an explicit `null` toDate clears the end date. */
  lemma ApplyPatchLaws(t: Title, patch: TitlePatch)
    ensures ApplyPatch(t, TitlePatch(None, None, None, None)) == t
    ensures ApplyPatch(ApplyPatch(t, patch), patch) == ApplyPatch(t, patch)
    ensures ApplyPatch(t, patch.(toDate := Some(None))).toDate == None
  {
  }
}

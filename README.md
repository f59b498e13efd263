# Employees, titles and salaries: a verified model of the service core

The repository is a small HTTP service over the MySQL "employees" sample
database. It has three resources, and each is three layers deep:

- a mappers file turns request bodies into domain records and domain records into responses;
- a service file orchestrates table calls: it reads, merges a patch, writes and reads back;
- a mysql file maps records to rows and runs the queries.

The core of the service is the **salary interval manager**.
- A new salary period is rejected when its date range is empty.
- It is also rejected when it overlaps a stored period of the same employee.
- The overlap is meant to be reported as a duplicate when the stored period starts on the same day, and as an invalid range otherwise. As written, the same-day test compares `Date` objects by identity and never holds, so every overlap is reported as an invalid range (see "## Findings").
- A patched period is re-checked, but only when the patch defines a date.

Titles and employees follow the same read-merge-write pattern, without the interval logic.

This project models the three mysql files, the three service files and the three mappers files.

- **Tables.** Each table is a class (`SalaryStore`, `TitleStore`, `EmployeeStore`).
  - Its `rows` field is a sequence of rows with the database's column names, in storage order.
  - Every query, insert, save and delete is a method on that sequence.
  - Each method's `ensures` states the rows it returns, or the table afterwards and the affected-row check.
  - A ghost `calls` log records which queries ran, in order. It states what the unit tests check with mocks: "no overlap query was issued", "re-read by this key".
- **Service operations.** Each service operation is a method on its store.
  - The method is proved against a function (`CreateSalarySpec`, `PatchSalarySpec`, `EditTitleSpec`, ...).
  - That function gives the result, the table afterwards and the calls issued.
  - The properties the code promises are lemmas about those functions.
- **Dates** are integer day numbers since 1970-01-01. Strings are `seq<char>`, compared exactly; the database's case-insensitive collation is not modelled (see "## Left out").
- **Errors** are a result datatype:
  - `InvalidRange` is "Invalid salary date range";
  - `DuplicateKey` is "Salary already exists";
  - `NotFound` is `ResourceNotFoundError`;
  - `KeyTaken` is the database refusing an insert under a primary key a row already has.

An undefined JavaScript field is `None`. For the titles `toDate`, which can be null, the field is `Option<Option<Date>>` or `Option<Date>`.

The model follows the code, except in two places where the code as written evidently does not do what its authors meant: the duplicate test and `saveSalary`'s column names. For those two the service operations model the intended behaviour, and separate members model the code as written; both are listed under "## Findings" and "## Left out". The points below are where the code behaves in ways a reader might not expect.

- **`patchSalary` runs the overlap query on the merged record without excluding the record's own row** (src/salaries/service.ts:52). So a patch that defines a date but keeps the employee and the start date is always rejected, because the record's own row flags it. This holds whether the patch leaves those two fields undefined or restates them, as a client does when it sends the whole record back with a new end date. `PatchDatesMeetOwnRow` states this.
- **`patchSalary` does not check the range again.** It saves under the original key and re-reads by the original key. With the intended save, a patch that moves the employee number or the start date would therefore be saved and then reported as not found. `PatchCanInvertRange` and `PatchCanMoveIntoConflict` show two consequences of the intended save:
  - an empty period could be stored;
  - a period could be moved onto another employee's period. The move skips the overlap query, because the patch defines no date.
- **The duplicate test** `s.fromDate === salary.fromDate` (src/salaries/service.ts:24) compares JavaScript `Date` objects by identity. The stored row's date and the candidate's are never the same object, so as written "Salary already exists" is never raised. `CreateSalarySpec` compares the dates by value, which is evidently what is intended; `CreateSalaryAsWrittenSpec` models the code as written.
- **`saveSalary` hands the camelCase patch straight to the update** (src/salaries/mysql.ts:82), so `employeeNumber`, `fromDate` and `toDate` become column names that `salaries` does not have, and the database refuses the UPDATE. `patchSalary` always passes the whole merged record (src/salaries/service.ts:58), so as written every `patchSalary` that reaches the save fails there and changes nothing; only a save of the amount alone, as in the integration test, works. `SaveSalary`, `PatchSalarySpec` and the lemmas about them model the evident intent: every field the patch defines overwrites the matching column of every row with the key. `SaveAsWritten` and `PatchSalaryAsWrittenSpec` model the code as written.
- **`saveTitle` locates the row by the merged title's key fields**, and `editTitle` re-reads by those fields. An edit that renames a title therefore either fails with not-found or overwrites the other title that has the new key.
- **`editEmployee` saves by the merged employee's number and re-reads by the original number.**
- **`fromRequest` for titles turns an absent or `null` `toDate` into `undefined`.** `applyPatch` then keeps the stored end date, so a PATCH cannot clear it.
- **`getEmployeeByNumber` and the unfiltered `listEmployees`** read the `employees` table alone, which has no `title` column. So their rows never carry a title; only the join with `titles` adds one.
- **Missing types.** `EmployeeWithTitle` and `EmployeesFilterOptions` are imported from src/employees/types.ts but not declared there. This model infers them from their uses.
- **Keys.** `emp_no` is the primary key of `employees` (src/employees/schemas.ts:11-12): an insert under a taken number is refused with `KeyTaken` and changes nothing, so `createEmployee` fails when the random draw hits a stored employee, and every store operation keeps the numbers unique (`NumbersUnique`). The source states no key for `salaries` or `titles`, and for them the model enforces none:
  - an insert appends a row;
  - a read by key returns the first matching row in table order;
  - an update or delete affects every matching row, and its affected-row count is the number of matches.

## Model

| member | source | states |
|---|---|---|
| `SalariesMysql.FromDb` | src/salaries/mysql.ts:12-17 | mapping the record back to a row gives the row it came from |
| `SalariesMysql.ForDb` | src/salaries/mysql.ts:19-24 | each column of the row is the record's matching field |
| `SalariesMysql.MappingRoundTrip` | src/salaries/mysql.ts:12-24 | `fromDb` and `forDb` are inverse in both directions |
| `SalariesMysql.Overlaps` | src/salaries/mysql.ts:31-37 | a flagged row is the candidate's employee's; a row of that employee starting on the candidate's day is always flagged; a flagged row that starts later than the candidate starts before the candidate ends, and one that starts earlier ends after the candidate starts |
| `SalariesMysql.PatchRow` | src/salaries/mysql.ts:77-90 | the update overwrites each column whose patch field is defined and keeps every other column |
| `SalariesMysql.OverlappingSalaries` | src/salaries/mysql.ts:26-44 | the result holds exactly the stored rows that the overlap predicate flags, all of the candidate's employee, and is no longer than the table |
| `SalariesMysql.SalaryByKey` | src/salaries/mysql.ts:55-67 | not-found exactly when no row has the employee and start date; otherwise a stored row with that key |
| `SalariesMysql.SalariesOf` | src/salaries/mysql.ts:46-53 | the result holds exactly the stored rows of the employee |
| `SalariesMysql.SalaryStore.GetOverlappingSalaries` | src/salaries/mysql.ts:26-44 | returns the flagged rows, leaves the table alone and logs one overlap query |
| `SalariesMysql.SalaryStore.GetSalariesByEmployeeNumber` | src/salaries/mysql.ts:46-53 | returns the employee's rows and logs one list query |
| `SalariesMysql.SalaryByKeyIsFirstRow` | src/salaries/mysql.ts:55-67 | the record returned is the first stored row, in table order, whose employee and start date match the key |
| `SalariesMysql.SalaryStore.GetSalaryByKey` | src/salaries/mysql.ts:55-67 | returns the first row with the key, or not-found, and logs one read |
| `SalariesMysql.SalaryStore.InsertSalary` | src/salaries/mysql.ts:69-75 | appends exactly the mapped record and logs one insert |
| `SalariesMysql.SalaryStore.SaveSalary` | src/salaries/mysql.ts:77-90 | applies the patch to every row with the key; not-found, with the table unchanged, when no row has it |
| `SalariesMysql.SalaryStore.DeleteSalaryByKey` | src/salaries/mysql.ts:92-100 | removes every row with the key; not-found when no row had it |
| `SalariesMysql.OverlapIsSharedDay` | src/salaries/mysql.ts:32-37 | for non-empty periods, the three-way SQL predicate holds if and only if both rows belong to the same employee and have a day in common |
| `SalariesMysql.OverlapSymmetric` | src/salaries/mysql.ts:32-37 | the predicate flags a pair in one order if and only if it flags it in the other |
| `SalariesMysql.TouchingIsNoOverlap` | src/salaries/mysql.ts:35-36 | a period that ends on the day another starts, or starts on the day it ends, is not flagged |
| `SalariesMysql.OtherEmployeeNeverOverlaps` | src/salaries/mysql.ts:32 | a row of another employee is never in the overlap result |
| `SalariesMysql.OverlapScenarios` | __tests__/integration/salaries/mysql.test.ts:80-126 | the five documented candidates against the periods 1986-06-26 to 1987-06-26 and 1987-06-26 to 1988-06-25 return the first row, the first row, both rows, both rows and the first row |
| `SalariesMysql.InsertThenGet` | src/salaries/mysql.ts:55-75 | after inserting a record whose key is free, reading the key returns that record |
| `SalariesMysql.SaveThenGet` | src/salaries/mysql.ts:77-90 | after a save whose patch leaves the key columns undefined or sets them to the key's own values, reading the key returns the old row with the patch applied, or still not-found |
| `SalariesMysql.SaveAsWritten` | src/salaries/mysql.ts:77-90 | as written, the query builder refuses a patch that defines no field, and the database refuses the UPDATE exactly when the patch defines `employeeNumber`, `fromDate` or `toDate`; either refusal leaves the table unchanged, and a save that goes through changes no key or end-date column |
| `SalariesMysql.SaveAsWrittenSalaryOnly` | src/salaries/mysql.ts:77-90 | a patch that defines the amount and nothing else is saved as written exactly as by the intended update, with the same not-found check |
| `SalariesMysql.DeleteThenGet` | src/salaries/mysql.ts:92-100 | after a delete, reading the key fails with not-found and a second delete affects no row |
| `SalariesService.ApplyPatch` | src/salaries/service.ts:40-44 | each field the patch defines overrides the record's field; every other field is kept |
| `SalariesService.ApplyPatchLaws` | src/salaries/service.ts:40-44 | the empty patch is the identity, a patch applied twice equals the patch applied once, and a record's own full patch leaves it unchanged |
| `SalariesService.ApplyPatchIsColumnUpdate` | src/salaries/service.ts:40-44 | merging a patch into a record matches the store's column update of its row |
| `SalariesService.CreateSalary` | src/salaries/service.ts:12-38 | result, new table and call log are those of the createSalary specification |
| `SalariesService.PatchSalary` | src/salaries/service.ts:46-61 | result, new table and call log are those of the patchSalary specification |
| `SalariesService.CheckAndSave` | src/salaries/service.ts:51-60 | runs the overlap query only when asked to, rejects any hit, then saves and re-reads |
| `SalariesService.SaveMerged` | src/salaries/service.ts:58-60 | saves the full merged record under the original key, then reads that key, unless the save found no row |
| `SalariesService.DeleteSalary` | src/salaries/service.ts:63 | passes the key to the store's delete unchanged |
| `SalariesService.GetSalaries` | src/salaries/service.ts:65-66 | passes the employee number to the store's list unchanged |
| `SalariesService.GetSalary` | src/salaries/service.ts:68 | passes the key to the store's read unchanged |
| `SalariesService.CreateSalaryOutcome` | src/salaries/service.ts:12-38 | create succeeds if and only if the range is non-empty and no row flags the candidate. On success it returns the candidate and appends exactly its row. On any rejection the table is unchanged and nothing is inserted. An empty range issues no call at all |
| `SalariesService.CreateSalaryDuplicate` | src/salaries/service.ts:17-28 | "already exists" is raised if and only if the range is non-empty and a stored row has the candidate's employee and start date |
| `SalariesService.CreateSalaryInvalidRange` | src/salaries/service.ts:13-29 | "invalid range" is raised if and only if the range is empty, or some row flags the candidate while none has its key |
| `SalariesService.CreateKeepsConflictFree` | src/salaries/service.ts:12-38 | in a table of non-empty, pairwise non-overlapping periods, a create keeps that property |
| `SalariesService.PatchSalaryMissing` | src/salaries/service.ts:47 | a patch of a missing key fails with not-found after the read alone and changes nothing |
| `SalariesService.PatchSalaryProbes` | src/salaries/service.ts:51-56 | the overlap query runs if and only if the record was found and the patch defines fromDate or toDate |
| `SalariesService.PatchRejected` | src/salaries/service.ts:51-56 | a found record whose merged period is flagged is rejected with "invalid range" after the read and the query, and the table is unchanged |
| `SalariesService.PatchSalarySaves` | src/salaries/service.ts:51-58 | the save runs if and only if the record was found and the overlap query, if it ran, flagged nothing; without a save the table is unchanged |
| `SalariesService.PatchDatesMeetOwnRow` | src/salaries/service.ts:51-56 | a date patch that keeps the employee and the start date, leaving them undefined or restating them, is always rejected after the read and the query, because the record's own row is flagged; the table is unchanged |
| `SalariesService.PatchSalaryOutcome` | src/salaries/service.ts:58-60 | an accepted patch writes the full merged record over the rows with the original key. It returns the merged record when the key is kept, and not-found when the patch changed the key |
| `SalariesService.PatchCanInvertRange` | src/salaries/service.ts:46-61 | since the range is not checked again, a patch can store a period whose end precedes its start |
| `SalariesService.PatchCanMoveIntoConflict` | src/salaries/service.ts:51-58 | a patch that changes only the employee number runs no overlap query and can create two identical periods for the same employee |
| `SalariesService.CreateSalaryAsWrittenSpec` | src/salaries/service.ts:12-38 | `createSalary` as written never raises "already exists"; every rejection leaves the table unchanged and inserts nothing, and an empty range is rejected before any query |
| `SalariesService.PatchSalaryAsWrittenSpec` | src/salaries/service.ts:46-61 | `patchSalary` with the save as written always fails, with not-found, an invalid range or the database's error, and never changes the table |
| `SalariesService.CreateAsWrittenNeverDuplicate` | src/salaries/service.ts:19-29 | with the identity test as written, "already exists" is never raised: each intended duplicate becomes an invalid range with the same table and calls, and every other outcome is unchanged |
| `SalariesService.CreateDuplicateReportedAsRange` | src/salaries/service.ts:19-29 | a period starting on the same day as a stored one is a duplicate as intended and an invalid range as written |
| `SalariesService.SavesInPatch` | src/salaries/service.ts:46-58 | a patch of a stored record that passes the overlap check reaches the save |
| `SalariesService.PatchSalaryAsWrittenFails` | src/salaries/service.ts:46-61 | with the save as written, `patchSalary` never succeeds and never changes the table: it fails with the database's error wherever the intended save would run, and does as intended everywhere else |
| `SalariesService.PatchAmountFailsAsWritten` | src/salaries/service.ts:46-61 | raising the amount of a stored period returns the raised record as intended, and fails as written |
| `SalariesService.PatchKeepsConflictFree` | src/salaries/service.ts:46-61 | a patch whose merged period is non-empty, and which changes the employee number only together with a date, keeps a table of non-empty, pairwise non-overlapping periods that way |
| `SalariesMappers.ForResponse` | src/salaries/mappers.ts:5-9 | the response carries every field of the record |
| `SalariesMappers.NewSalaryFromRequest` | src/salaries/mappers.ts:11-17 | employee number, amount and both dates are copied from the body |
| `SalariesMappers.PatchSalaryFromRequest` | src/salaries/mappers.ts:19-25 | the amount is copied; each date is defined if and only if the body carries it; the employee number is never defined |
| `SalariesMappers.SalaryKeyFromRequest` | src/salaries/mappers.ts:27-32 | the key keeps the route's employee number and start date |
| `SalariesMappers.ResponseRoundTrip` | src/salaries/mappers.ts:5-17 | a record sent as a response and posted back is the same record, and the reverse |
| `SalariesMappers.KeyOfRequest` | src/salaries/mappers.ts:11-32 | the key of a created salary is the key its route names |
| `SalariesMappers.SalaryOnlyPatch` | src/salaries/mappers.ts:19-25 | a PATCH carrying only an amount reaches patchSalary with both dates undefined, runs no overlap query and changes only the amount |
| `SalariesMappers.RoutePatchKeepsConflictFree` | src/salaries/mappers.ts:19-25 | a PATCH whose body has only the schema's fields, and whose merged period is non-empty, keeps a conflict-free table conflict-free |
| `TitlesMysql.FromDb` | src/titles/mysql.ts:18-25 | mapping the record back to a row gives the row it came from |
| `TitlesMysql.ForDb` | src/titles/mysql.ts:27-34 | each column of the row is the title's matching field, a null end date included |
| `TitlesMysql.TitleKeyForDb` | src/titles/mysql.ts:36-42 | the key columns are the key's three fields |
| `TitlesMysql.MappingRoundTrip` | src/titles/mysql.ts:18-42 | `fromDb` and `forDb` are inverse, and the key columns of a mapped title are its mapped key |
| `TitlesMysql.TitleByKey` | src/titles/mysql.ts:44-55 | not-found exactly when no row matches all three key columns; otherwise a stored row with that key |
| `TitlesMysql.SelectedTitles` | src/titles/mysql.ts:95-99 | the selection holds exactly the stored rows of the filter's employee when its number is truthy, and the whole table otherwise |
| `TitlesMysql.ListTitlesQuery` | src/titles/mysql.ts:89-103 | exactly `limit` rows (10 by default), or every selected row when fewer are selected. They are the first selected rows in table order (the employee's rows with a truthy employee number, every row otherwise), each a stored row. An empty result is not an error |
| `TitlesMysql.TitleByKeyIsFirstRow` | src/titles/mysql.ts:44-55 | the title returned is the first stored row, in table order, whose three key columns match the key |
| `TitlesMysql.TitleStore.GetTitleByKey` | src/titles/mysql.ts:44-55 | returns the first row with the key, or not-found, and logs one read |
| `TitlesMysql.TitleStore.InsertTitle` | src/titles/mysql.ts:57-61 | appends exactly the mapped title and logs one insert |
| `TitlesMysql.TitleStore.SaveTitle` | src/titles/mysql.ts:63-77 | overwrites every row with the title's own key; not-found, with the table unchanged, when no row has it |
| `TitlesMysql.TitleStore.DeleteTitleByKey` | src/titles/mysql.ts:79-87 | removes every row with the key; not-found when no row had it |
| `TitlesMysql.TitleStore.ListTitles` | src/titles/mysql.ts:91-103 | returns the listing query's rows and leaves the table alone |
| `TitlesMysql.InsertThenGet` | src/titles/mysql.ts:44-61 | after inserting a title whose key is free, reading the key returns the title |
| `TitlesMysql.SaveThenGet` | src/titles/mysql.ts:63-77 | after a save that matched a row, reading the title's key returns the title |
| `TitlesMysql.SaveKeepsOthers` | src/titles/mysql.ts:63-77 | a save leaves every row with another key as it was |
| `TitlesMysql.DeleteThenGet` | src/titles/mysql.ts:79-87 | after a delete, reading the key fails with not-found and a second delete affects no row |
| `TitlesMysql.ListTitlesComplete` | src/titles/mysql.ts:91-103 | when the rows the employee filter selects fit in the limit, every one of them is listed, however large the table |
| `TitlesService.ApplyPatch` | src/titles/service.ts:28-32 | each field the patch defines overrides the title's field; every other field is kept |
| `TitlesService.ApplyPatchLaws` | src/titles/service.ts:28-32 | the empty patch is the identity, a patch applied twice is the patch once, and an explicit null toDate clears the end date |
| `TitlesService.CreateTitle` | src/titles/service.ts:18-26 | result, new table and call log are those of the createTitle specification |
| `TitlesService.EditTitle` | src/titles/service.ts:34-46 | result, new table and call log are those of the editTitle specification |
| `TitlesService.SaveAndRead` | src/titles/service.ts:37-45 | saves the merged title, then reads it back by its own key fields unless the save found no row |
| `TitlesService.GetTitle` | src/titles/service.ts:10-12 | passes the key to the store's read unchanged |
| `TitlesService.GetTitles` | src/titles/service.ts:14-16 | passes the filter to the store's listing unchanged |
| `TitlesService.DeleteTitle` | src/titles/service.ts:48-50 | passes the key to the store's delete unchanged |
| `TitlesService.CreateTitleOutcome` | src/titles/service.ts:18-26 | create always appends the title and returns the title stored first under its key: the new title when the key was free |
| `TitlesService.EditTitleMissing` | src/titles/service.ts:35 | an edit of a missing key fails with not-found after the read alone and changes nothing |
| `TitlesService.EditTitleSameKey` | src/titles/service.ts:34-46 | an edit that keeps the key overwrites the key's rows with the merged title and returns it, after a read, a save and a read |
| `TitlesService.EditTitleNewKeyMissing` | src/titles/service.ts:37-45 | an edit to a key no row has fails with not-found and leaves the table unchanged |
| `TitlesService.EditTitleOverwritesOther` | src/titles/service.ts:37-45 | an edit to another stored key overwrites that title and returns the merged record, while the original title stays as it was |
| `TitlesMappers.DateOrUndefined` | src/titles/mappers.ts:12-13 | a date is defined if and only if the body carries a non-null one, and it is then that date |
| `TitlesMappers.FromRequest` | src/titles/mappers.ts:7-14 | employee number, title and start date are copied; an absent or null toDate becomes undefined |
| `TitlesMappers.PatchFromRequest` | src/titles/mappers.ts:7-14 | the patch copies the defined fields; its toDate is defined if and only if the body carries a non-null one |
| `TitlesMappers.KeyFromRequest` | src/titles/mappers.ts:7-14 | the route key keeps its three fields |
| `TitlesMappers.ForResponse` | src/titles/mappers.ts:16-20 | the response keeps every field; a missing toDate is sent as null |
| `TitlesMappers.ResponseRoundTrip` | src/titles/mappers.ts:7-20 | a title sent as a response and posted back is the same title |
| `TitlesMappers.PatchNeverNull` | src/titles/mappers.ts:13 | a mapped patch never carries an explicit null toDate |
| `TitlesMappers.NullCannotClearToDate` | src/titles/mappers.ts:13 | a PATCH with toDate null or absent keeps the stored end date, although an explicit null in the patch would clear it |
| `EmployeesMysql.FromDb` | src/employees/mysql.ts:20-30 | the record keeps the row's number and joined title |
| `EmployeesMysql.ForDb` | src/employees/mysql.ts:32-41 | the row keeps the employee's number and carries no title |
| `EmployeesMysql.MappingRoundTrip` | src/employees/mysql.ts:20-41 | `forDb` drops the title and `fromDb` adds it back; on all other fields the two are inverse |
| `EmployeesMysql.JoinOne` | src/employees/mysql.ts:51-56 | the join yields the employee once per titles row that matches, each time carrying the title |
| `EmployeesMysql.JoinByTitle` | src/employees/mysql.ts:51-56 | every joined row carries the filter title |
| `EmployeesMysql.JoinSound` | src/employees/mysql.ts:51-56 | every joined row is a stored employee with a matching titles row |
| `EmployeesMysql.JoinComplete` | src/employees/mysql.ts:51-56 | every stored employee with a matching titles row is in the join |
| `EmployeesMysql.ListEmployeesQuery` | src/employees/mysql.ts:45-66 | exactly `limit` rows (10 by default), or every selected row when fewer are selected. Not-found if and only if that is none. The rows are the first selected rows in order: with a truthy title filter, the join's rows, each carrying that title; without one, the first rows of the table, with no title |
| `EmployeesMysql.EmployeeByNumber` | src/employees/mysql.ts:68-81 | not-found exactly when no row has the number; otherwise an employee with it |
| `EmployeesMysql.EmployeeStore.ListEmployees` | src/employees/mysql.ts:45-66 | returns the listing query's result and leaves the table alone |
| `EmployeesMysql.EmployeeStore.GetEmployeeByNumber` | src/employees/mysql.ts:68-81 | returns the first row with the number, or not-found, and logs one read |
| `EmployeesMysql.EmployeeStore.InsertEmployee` | src/employees/mysql.ts:83-87 | refused with the table unchanged when a row has the number, otherwise appends exactly the mapped employee; keeps the numbers unique and logs one insert |
| `EmployeesMysql.InsertKeepsNumbersUnique` | src/employees/mysql.ts:83-87 | an accepted insert keeps every `emp_no` in the table distinct |
| `EmployeesMysql.SaveKeepsNumbersUnique` | src/employees/mysql.ts:89-97 | a save overwrites rows only with rows of the same number, so the numbers stay distinct |
| `EmployeesMysql.DeleteKeepsNumbersUnique` | src/employees/mysql.ts:99-109 | a delete keeps the numbers distinct |
| `EmployeesMysql.EmployeeStore.SaveEmployee` | src/employees/mysql.ts:89-97 | overwrites every row with the employee's number; not-found, with the table unchanged, when no row has it; keeps the numbers unique |
| `EmployeesMysql.EmployeeStore.DeleteEmployeeByNumber` | src/employees/mysql.ts:99-109 | removes every row with the number; not-found when no row had it; keeps the numbers unique |
| `EmployeesMysql.ListEmployeesByTitleSound` | src/employees/mysql.ts:51-56 | with a title filter, every listed employee is stored and holds a titles row equal to the filter |
| `EmployeesMysql.ListEmployeesFindsTitleHolder` | src/employees/mysql.ts:51-58 | with a title filter, every holder of the title is listed when the join fits in the limit |
| `EmployeesMysql.ListEmployeesEmpty` | src/employees/mysql.ts:61-63 | listing fails with not-found if and only if the limit is 0, or nothing qualifies |
| `EmployeesMysql.EmployeeByNumberIsFirstRow` | src/employees/mysql.ts:68-81 | the employee returned is the first stored row with the number, without a title |
| `EmployeesMysql.InsertThenGet` | src/employees/mysql.ts:68-87 | after inserting an employee whose number is free, reading the number returns the employee |
| `EmployeesMysql.SaveThenGet` | src/employees/mysql.ts:89-97 | after a save that matched a row, reading the number returns the saved employee |
| `EmployeesMysql.DeleteThenGet` | src/employees/mysql.ts:99-109 | after a delete, reading the number fails with not-found and a second delete affects no row |
| `EmployeesService.WithNumber` | src/employees/service.ts:22-25 | the inserted employee is the new employee with the drawn number |
| `EmployeesService.ApplyPatch` | src/employees/service.ts:30-37 | each field the patch defines overrides the employee's field; every other field is kept |
| `EmployeesService.ApplyPatchLaws` | src/employees/service.ts:30-37 | the empty patch is the identity, and a patch applied twice equals the patch applied once |
| `EmployeesService.GetEmployee` | src/employees/service.ts:14-16 | passes the number to the store's read unchanged |
| `EmployeesService.CreateEmployee` | src/employees/service.ts:18-28 | result, new table and call log are those of the createEmployee specification for the drawn number |
| `EmployeesService.EditEmployee` | src/employees/service.ts:39-49 | result, new table and call log are those of the editEmployee specification |
| `EmployeesService.SaveAndRead` | src/employees/service.ts:45-48 | saves the merged employee by its own number, then reads the original number unless the save found no row |
| `EmployeesService.DeleteEmployee` | src/employees/service.ts:51-53 | passes the number to the store's delete unchanged |
| `EmployeesService.CreateEmployeeOutcome` | src/employees/service.ts:18-28 | succeeds exactly when the drawn number is free: then it appends the new employee and returns it after an insert and one read; under a taken number the insert is refused, the table is unchanged and nothing is read |
| `EmployeesService.CreateKeepsNumbersUnique` | src/employees/service.ts:18-28 | create keeps the employee numbers of the table distinct |
| `EmployeesService.EditKeepsNumbersUnique` | src/employees/service.ts:39-49 | edit keeps the employee numbers distinct, renumbering included |
| `EmployeesService.EditEmployeeMissing` | src/employees/service.ts:43 | an edit of a missing number fails with not-found after the read alone and changes nothing |
| `EmployeesService.EditEmployeeSameNumber` | src/employees/service.ts:39-49 | an edit that keeps the number overwrites the employee's rows with the merged record and returns it, after a read, a save and a read |
| `EmployeesService.EditEmployeeRenumber` | src/employees/service.ts:45-48 | an edit to a new number fails with not-found and changes nothing when that number is free; otherwise it returns the untouched employee under the old number |
| `EmployeesMappers.ToLower` | src/employees/mappers.ts:16-19 | each character is lower-cased in place |
| `EmployeesMappers.MapGender` | src/employees/mappers.ts:15-23 | female exactly when the lower-cased string is "f", male exactly when it is "m", other exactly when it is neither |
| `EmployeesMappers.MapGenderCases` | src/employees/mappers.ts:15-23 | "f" or "F" maps to female and "m" or "M" to male, each if and only if; every other string maps to other |
| `EmployeesMappers.MapGenderOfCode` | src/employees/mappers.ts:15-31 | mapping a gender's response code back gives the same gender |
| `EmployeesMappers.NewEmployeeFromRequest` | src/employees/mappers.ts:33-42 | the name and date fields are copied and the gender is always mapped |
| `EmployeesMappers.PatchEmployeeFromRequest` | src/employees/mappers.ts:44-53 | the other fields are copied; the gender is defined if and only if the body carries a non-empty one, and is then mapped |
| `EmployeesMappers.ForResponse` | src/employees/mappers.ts:25-31 | the response keeps every field and sends the gender as its code |
| `EmployeesMappers.ResponseRoundTrip` | src/employees/mappers.ts:25-42 | an employee sent as a response and posted back with its number is the same employee |
| `EmployeesMappers.RouteEditKeepsNumber` | src/employees/mappers.ts:44-53 | a PATCH whose body has only the schema's fields never renumbers: editing a stored employee returns the merged record under the same number, with the gender kept unless the body carries one |

## Left out

- HTTP layer: the Fastify plugins, the server's error-to-status mapping and the listener are not part of this model. The mappers stand at its boundary.
- Request validation: the TypeBox schemas are enforced by the library. Their bounds (salary at least 1, employee numbers within 32 bits) are not restated as preconditions, because no modelled operation depends on them.
- Date formatting and parsing: `toISOString().slice(0, 10)` and `new Date(string)` are replaced by integer day numbers, so the mappers' round trips hold by construction.
- Database plumbing: knex query building, connection settings, row type casting and the environment file. The database is an in-memory table.
- Concurrency: every operation runs to completion before the next one starts. The race between the overlap query and the insert or save is not modelled.
- Key uniqueness of `salaries` and `titles`: the source states no key for these tables, so their inserts never fail. A read returns the first matching row in table order, and updates and deletes affect every matching row. (`createSalary` never inserts a taken (employee, start date) key anyway: a stored row with that key is always flagged by the overlap query.)
- Row order: SQL without ORDER BY has no defined order. The model takes table order for listings, for the LIMIT and for the rows of the join.
- `Math.random`: the drawn employee number is a parameter of `CreateEmployee`, ranging over 0 to 9999.
- `listEmployees`: the `titles` table is a parameter of the query.
- `getEmployees`: not modelled. It calls `getEmployeesByTitle`, which src/employees/mysql.ts does not define.
- `EmployeesMappers.ToLower`: lower-cases ASCII letters only. JavaScript's `toLowerCase` also folds other Unicode letters, but none of them lower-cases to "f" or "m", so `mapGender` is unaffected.
- Truthiness of an empty date string in the patch mappers: a date field is defined when the body carries it, and the model does not treat "" separately.
- Extra properties of a request body that the spread operator would copy along are not modelled.
- `TitlesMysql.TitleByKey`: the model compares the `title` key column with exact string equality, and so do the titles store's save and delete. The database compares it under the column's collation, which in the sample database ignores case, so a key that differs only in letter case matches there and not here.
- `EmployeesMysql.JoinByTitle`: the `titles.title` filter of `listEmployees` is compared exactly, not under the column's case-insensitive collation.
- `TitlesService.EditTitleNewKeyMissing`: a rename that changes only the letter case of the title is not-found in the model, while the database's case-insensitive comparison finds the row and returns the renamed title.
- `SalariesService.CreateSalary`: it models the intended duplicate test, which compares the start dates by value. As written the test compares `Date` objects by identity and never holds; `CreateSalaryAsWrittenSpec` models that.
- `SalariesService.CreateSalaryDuplicate`: it states when the intended test raises "Salary already exists". As written it is never raised (`CreateAsWrittenNeverDuplicate`).
- `SalariesService.CreateSalaryInvalidRange`: it states when the intended test raises "Invalid salary date range". As written it is also raised where `CreateSalaryDuplicate` says "already exists".
- `SalariesMysql.SalaryStore.SaveSalary`: it models the intended column overwrite. As written the database refuses any save that defines `employeeNumber`, `fromDate` or `toDate` (`SaveAsWritten`). A patch that defines no field is a no-op here, whereas the query builder refuses it as an empty update; no modelled caller passes one, since `patchSalary` always saves the whole merged record.
- `SalariesMysql.PatchRow`: it is the intended column update. As written only a patch that defines nothing but the amount reaches the table.
- `SalariesService.ApplyPatchIsColumnUpdate`: it relates the merge to the intended column update, not to the save as written, which refuses the merged record.
- `SalariesService.PatchSalary`: it is proved against the intended `PatchSalarySpec`. As written every call that reaches the save fails with the database's error and leaves the table unchanged (`PatchSalaryAsWrittenFails`).
- `SalariesService.CheckAndSave`: its save and re-read are those of the intended save. As written the save fails.
- `SalariesService.SaveMerged`: it saves the merged record as intended. As written the database refuses that save.
- `SalariesService.PatchSalaryOutcome`: the merged record written over the rows and returned is the intended outcome. As written an accepted patch ends in the database's error.
- `SalariesService.PatchCanInvertRange`: the empty period is stored only with the intended save. As written the save fails and the table keeps its period.
- `SalariesService.PatchCanMoveIntoConflict`: the conflict arises only with the intended save. As written the save fails and the table is unchanged.
- `SalariesMappers.SalaryOnlyPatch`: the changed amount is the intended outcome. As written the merged record handed to the save still defines every field, so even this patch fails (`PatchAmountFailsAsWritten`).

## Findings

| source | as written | input that shows it | evidently intended | confidence | as-written member | corrected member |
|---|---|---|---|---|---|---|
| src/salaries/service.ts:24 | `s.fromDate === salary.fromDate` compares two `Date` objects by identity, so the duplicate test never holds | employee 10001 has [1986-06-26, 1987-06-26); POST the period [1986-06-26, 1986-06-27) for 10001: "Invalid salary date range" | "Salary already exists" when a stored period of the employee starts on the same day | not executed | `SalariesService.CreateDuplicateReportedAsRange` | `SalariesService.CreateSalaryDuplicate` |
| src/salaries/mysql.ts:82 | `update(patch)` names the camelCase fields `employeeNumber`, `fromDate`, `toDate` as columns, and `patchSalary` passes the whole merged record, so the database refuses every save | employee 10001 has [1986-06-26, 1987-06-26) at 60117; PATCH that period with salary 70000: the UPDATE is refused | the defined fields overwrite `emp_no`, `salary`, `from_date` and `to_date` of the rows with the key | not executed | `SalariesService.PatchAmountFailsAsWritten` | `SalariesService.PatchSalaryOutcome` |

# SimpleSQLEditor data-access core, modelled in Dafny

SimpleSQLEditor is a desktop editor for SQL Server databases. This project models its
data-access core and the table screen that drives it:

- `SqlServerAdminService` builds the administrative statements. It lists, creates and drops
  databases on the server's `master` database. Every name is checked by
  `EnsureSafeIdentifier` before it is put into a statement.
- `EfDatabaseAdminService` is the Entity Framework backend. It builds connection strings,
  metadata queries, the row query, SQL type names (`FormatSqlType`) and entity names
  (`BuildSafeEntityName`). It also runs the row-tracking engine: it builds a model at run
  time for the selected row's table, loads the row as a tracked property bag, and keeps a
  session that reports, changes and reverts that row (`EfRowTrackingSession`). Each model
  is cached under its own key (`TrackingModelCacheKeyFactory`).
- `DataAccessRouterService` and `DatabaseCatalogRouter` send every call to the SQL or the EF
  backend. They choose by the mode held in `DataAccessModeService` at the time of the call.
- `OperationSourceService` holds an ambient "current source" label. `Begin` sets the label and
  returns a scope that restores the previous label when it is disposed.
- `TableDataViewModel` is the table screen. It loads the table and its primary-key columns,
  shows the details of the selected row, and starts an EF tracking session for that row
  when EF is active and the table has a single key column. It also runs the demo change and
  the revert on that session.

Module layout (one file each):

- `SqlServerAdmin`, `EfDatabaseAdmin` (statements, formatting, metadata) and `EfRowTracking`
  (the tracked entry, the session, starting a session, the cache key) model the two admin
  services.
- `DataAccessModeState`, `DataAccessRouter` and `DatabaseCatalogRouter` model the routers.
- `OperationSource` models the ambient label.
- `TableDataViewModel` models the table screen.
- Shared helpers:
  - `Wrappers`: Option, Result and Outcome.
  - `Failures`: the exceptions the code throws, with their `Message` texts.
  - `Text`: whitespace, ordinal case folding and decimal text.
  - `CaseInsensitive`: `HashSet` and `Dictionary` built with `StringComparer.OrdinalIgnoreCase`.
  - `Values`: C# integer widths, boxed values, `DataTable` and `DataRowView`.
  - `Connection`: the parsed connection string.

Objects whose fields the code updates in place are classes, and their methods state the new
state. Examples are the mode service, the tracking session, its `DbContext`, the
operation-source service and its scopes, and the screen. The screen and the session each
have a specification function on a value of their state (`LoadSpec`, `SetValueSpec`,
`RevertSpec`). The lemmas are proved about these functions.

The model follows the code, including where it does less than its own comments suggest:

- The comment on `EnsureSafeIdentifier` (Services/SqlServerAdminService.cs:88-89) says the
  check is there to keep DDL injection out. `GetTableDataAsync`
  (Services/EfCore/EfDatabaseAdminService.cs:230-232) still puts the table name into
  `FROM dbo.[...]` without any identifier check.
- `EnsureSafeIdentifier` uses .NET's `^[A-Za-z0-9_]+$`. There `$` also matches before a final
  line feed, so `"abc\n"` passes the check.
- `SetValue` rejects a column name that the row's dictionary lacks, and it compares names
  case-sensitively.
- `SetValue` stores the value in the dictionary before EF looks at it. EF's change detection
  (run by `Entry`) then reads every property through its CLR type. A value of another type,
  or a changed key, makes it throw. The written value stays in the dictionary, so every
  later `Entry` call throws too, until that property is overwritten. The demo hits this
  when it writes `"DemoValue"` into a column of a type it does not handle, and on a table
  whose only column is the key.

## Model

Functions that only compute a value have no row of their own. The row of the lemma about
each one names it: for example `EnsureSafeIdentifier`, `FormatSqlType`, `BuildSafeEntityName`,
`PlanStart`, `DemoColumnName`, `BuildDemoValue`, `BuildTrackingStateText`, `TrackingKey`, the
routers' `GetActiveService` and `ProviderName`, and `CurrentSource`.

| member | source | states |
|---|---|---|
| SqlServerAdmin.BuildMasterConnectionString | Services/SqlServerAdminService.cs:72-81 | the connection targets `master`, the attached file is cleared, and every other setting is kept |
| SqlServerAdmin.MasterScopeIgnoresTarget | Services/SqlServerAdminService.cs:72-81 | two connection strings that differ only in catalog or attached file give the same master connection; applying it twice is applying it once |
| SqlServerAdmin.GuardAcceptsExactly | Services/SqlServerAdminService.cs:83-92 | `EnsureSafeIdentifier` passes exactly for a non-blank run of letters, digits and `_`, optionally followed by one line feed; every failure is an `ArgumentException` on `name` |
| SqlServerAdmin.AcceptedNameIsInert | Services/SqlServerAdminService.cs:83-92 | a name that passes holds no `]`, `'`, `;`, space or `[`, so it cannot leave its quotes |
| SqlServerAdmin.TrailingLineFeedPasses | Services/SqlServerAdminService.cs:85-91 | `"abc\n"` passes, `"\n"` fails as empty, and `"a-b"` fails as an invalid character |
| SqlServerAdmin.CreateDatabase | Services/SqlServerAdminService.cs:36-44 | fails exactly when the name check fails, with its error; otherwise it runs `CREATE DATABASE [name];` on the master connection |
| SqlServerAdmin.CreateDatabaseQuotesName | Services/SqlServerAdminService.cs:41 | the bracketed identifier in the statement reads back as the given name |
| SqlServerAdmin.DeleteDatabase | Services/SqlServerAdminService.cs:46-61 | fails exactly when the name check fails, with its error; otherwise it runs the drop batch on the master connection |
| SqlServerAdmin.DeleteDatabaseQuotesName | Services/SqlServerAdminService.cs:53-58 | in the drop batch, the existence literal, the `ALTER DATABASE` target and the `DROP DATABASE` target each read back as the given name |
| SqlServerAdmin.WithoutSystemDatabases | Services/SqlServerAdminService.cs:17 | no system database is kept, every other name is kept, and nothing is added |
| SqlServerAdmin.SortByName | Services/SqlServerAdminService.cs:18 | the result is ordered by name and is a permutation of the input |
| SqlServerAdmin.DatabaseListingSpec | Services/SqlServerAdminService.cs:14-18 | the listing is sorted, is a sub-multiset of the catalog, and holds exactly the catalog names that are not system databases |
| SqlServerAdmin.GetDatabases | Services/SqlServerAdminService.cs:10-34 | the reader loop returns exactly the listing, read over the master connection |
| EfDatabaseAdmin.BuildConnectionString | Services/EfCore/EfDatabaseAdminService.cs:313-324 | the catalog is `master` for a missing or blank database name and the name otherwise; the attached file is cleared and the other settings are kept |
| EfDatabaseAdmin.NoDatabaseMeansMaster | Services/EfCore/EfDatabaseAdminService.cs:313-324 | without a database name, the EF connection is the SQL service's master connection |
| EfDatabaseAdmin.DatabaseScopeIgnoresTarget | Services/EfCore/EfDatabaseAdminService.cs:313-324 | the result depends only on the other settings and the database name, and applying it again changes nothing |
| EfDatabaseAdmin.GetDatabases | Services/EfCore/EfDatabaseAdminService.cs:32-50 | uses the master connection and returns the same listing as the SQL service |
| EfDatabaseAdmin.TablesCommand | Services/EfCore/EfDatabaseAdminService.cs:52-70 | fails exactly for a blank database name, with its `ArgumentException`; otherwise it queries that database with no parameters |
| EfDatabaseAdmin.RequireDatabaseAndTable | Services/EfCore/EfDatabaseAdminService.cs:74-78 | passes exactly when both names are non-blank; the database name is checked first and each failure names its parameter and message |
| EfDatabaseAdmin.MetadataCommand | Services/EfCore/EfDatabaseAdminService.cs:72-106 | fails exactly when a name is blank; otherwise it targets that database and binds the table name only as `@TableName` |
| EfDatabaseAdmin.ColumnTypesShape | Services/EfCore/EfDatabaseAdminService.cs:110-122 | the type map has one key per column name up to case, in first-seen order and spelling |
| EfDatabaseAdmin.ColumnTypesLookup | Services/EfCore/EfDatabaseAdminService.cs:110-122 | looking up a name, in any casing, gives the formatted type of the last row for that name, or nothing when no row has it |
| EfDatabaseAdmin.CollectColumnTypes | Services/EfCore/EfDatabaseAdminService.cs:110-124 | the reader loop builds exactly the type map of all rows read |
| EfDatabaseAdmin.GetColumnDataTypes | Services/EfCore/EfDatabaseAdminService.cs:72-125 | a rejected name fails with that error; otherwise it returns the type map of the rows the reader yields |
| EfDatabaseAdmin.CollectNames | Services/EfCore/EfDatabaseAdminService.cs:161-167 | the reader loop builds the case-insensitive set of the names read; the table screen's key loading uses the same loop |
| EfDatabaseAdmin.GetPrimaryKeyColumns | Services/EfCore/EfDatabaseAdminService.cs:127-170 | a rejected name fails with that error; otherwise it returns the key-column names as a case-insensitive set |
| EfDatabaseAdmin.GetForeignKeyColumns | Services/EfCore/EfDatabaseAdminService.cs:172-214 | a rejected name fails with that error; otherwise it returns the foreign-key column names as a case-insensitive set |
| EfDatabaseAdmin.TableDataCommand | Services/EfCore/EfDatabaseAdminService.cs:216-253 | fails exactly for a blank name or a non-positive row limit, with that check's exception; otherwise it targets the database, binds `@MaxRows`, and puts the table name between `FROM dbo.[` and `];` |
| EfDatabaseAdmin.TableNameIsNotGuarded | Services/EfCore/EfDatabaseAdminService.cs:230-232 | a table name containing `]` is still accepted and copied unchanged into the statement |
| EfDatabaseAdmin.TruncatingDivide | Services/EfCore/EfDatabaseAdminService.cs:343 | C# integer division: the remainder has the sign of the dividend and is smaller than the divisor |
| EfDatabaseAdmin.FormatSqlTypeReadsBack | Services/EfCore/EfDatabaseAdminService.cs:335-363 | the result of `FormatSqlType` starts with the type name as given, and the rest reads back as the intended suffix: `(max)` for -1, a length halved for national types, `(p,s)` for decimal and numeric, nothing otherwise |
| EfDatabaseAdmin.FormatNationalLength | Services/EfCore/EfDatabaseAdminService.cs:337-345 | `nvarchar` with byte length 100 is `nvarchar(50)` |
| EfDatabaseAdmin.FormatMaxKeepsCasing | Services/EfCore/EfDatabaseAdminService.cs:337-352 | `VARCHAR` with length -1 is `VARCHAR(max)`: matching ignores case and the output keeps the given spelling |
| EfDatabaseAdmin.FormatPrecisionScale | Services/EfCore/EfDatabaseAdminService.cs:356-360 | `decimal` with precision 18 and scale 2 is `decimal(18,2)` |
| EfDatabaseAdmin.FormatTruncatesTowardZero | Services/EfCore/EfDatabaseAdminService.cs:340-345 | `nchar` with byte length -3 is `nchar(-1)`: the halving truncates toward zero |
| EfDatabaseAdmin.FormatOtherType | Services/EfCore/EfDatabaseAdminService.cs:362 | any other type, such as `int`, is the bare name |
| EfDatabaseAdmin.Sanitize | Services/EfCore/EfDatabaseAdminService.cs:367-370 | same length; each letter, digit or `_` is kept and every other character becomes `_` |
| EfDatabaseAdmin.SanitizeProperties | Services/EfCore/EfDatabaseAdminService.cs:367-370 | the result is a word, a word is left as it is, and sanitizing twice is sanitizing once |
| EfDatabaseAdmin.EntityNameShape | Services/EfCore/EfDatabaseAdminService.cs:365-373 | `BuildSafeEntityName` gives a word made of the fixed prefix, the database name, `_` and the table name, with every word character kept in place |
| EfDatabaseAdmin.EntityNamesCollide | Services/EfCore/EfDatabaseAdminService.cs:365-373 | different tables can share an entity name: `a_b`.`c` and `a`.`b_c`, and `x-y`.`t` and `x y`.`t` |
| EfRowTracking.LoadedEntry | Services/EfCore/EfDatabaseAdminService.cs:294-302 | a freshly loaded row is `Unchanged`, nothing is modified, its original values are the loaded values of its properties, and it keeps the property types and the key it is given |
| EfRowTracking.LoadedEntryWellFormed | Services/EfCore/EfDatabaseAdminService.cs:294-302 | a loaded entry with distinct, typed properties is consistent and has no faulty property |
| EfRowTracking.DetectFrom | Services/EfCore/EfDatabaseAdminService.cs:434 | the change detection changes only the flags and the state; it flags only properties that changed and that it can read; the state becomes `Modified` exactly when it flagged something |
| EfRowTracking.DetectFromThrows | Services/EfCore/EfDatabaseAdminService.cs:434 | the detection throws exactly when some property is faulty: not flagged, and holding a value of another type or a changed key |
| EfRowTracking.DetectFromFlags | Services/EfCore/EfDatabaseAdminService.cs:434 | when the detection does not throw, every property is flagged or holds its loaded value |
| EfRowTracking.DetectFromFailure | Services/EfCore/EfDatabaseAdminService.cs:434 | when the detection throws, the exception is the cast error or the key error of a faulty property |
| EfRowTracking.DetectFromOutcome | Services/EfCore/EfDatabaseAdminService.cs:434 | the three facts above together |
| EfRowTracking.DetectKeepsFaults | Services/EfCore/EfDatabaseAdminService.cs:434 | a faulty property stays faulty through the detection, so every later `Entry` call throws again |
| EfRowTracking.DetectOutcome | Services/EfCore/EfDatabaseAdminService.cs:434 | the detection on the whole entry throws exactly when a property is faulty; otherwise every property ends flagged or unchanged |
| EfRowTracking.DetectCleanIsNoOp | Services/EfCore/EfDatabaseAdminService.cs:434 | on a consistent entry with nothing faulty the detection finds nothing and changes nothing |
| EfRowTracking.DetectAfterWrite | Services/EfCore/EfDatabaseAdminService.cs:432-434 | after a write to one property of a clean entry, the detection throws at that property when it is faulty, flags it when it changed, and does nothing otherwise |
| EfRowTracking.DetectMakesWellFormed | Services/EfCore/EfDatabaseAdminService.cs:432-434 | whatever was written into the dictionary, the entry is consistent after the detection |
| EfRowTracking.DetectKeepsWellFormed | Services/EfCore/EfDatabaseAdminService.cs:434 | the detection keeps a consistent entry consistent |
| EfRowTracking.Stored | Services/EfCore/EfDatabaseAdminService.cs:432 | a C# `null` is stored as a database null, and every other value as it is |
| EfRowTracking.SetValueSpec | Services/EfCore/EfDatabaseAdminService.cs:424-436 | a blank name or a missing dictionary key fails with its `ArgumentException` and changes nothing; otherwise the written value stays written whether or not the call throws; a success flags the property and makes the entry `Modified`; a write to the key always fails; a value of another type written to an unflagged property fails and flags nothing; the original values, property list, types and key never change |
| EfRowTracking.SetValueRejectsMistypedValue | Services/EfCore/EfDatabaseAdminService.cs:432-435 | on a clean entry, writing a value of another type to an unflagged property fails with the cast error, keeps the written value and flags nothing |
| EfRowTracking.SetValueRejectsKey | Services/EfCore/EfDatabaseAdminService.cs:432-435 | on a clean entry, a write to the key fails with the key error, or with the cast error for a value of another type, and keeps the written value |
| EfRowTracking.SetValueAcceptsWrite | Services/EfCore/EfDatabaseAdminService.cs:432-435 | on a clean entry, a write that EF can read to a property other than the key succeeds: the value is stored, the property flagged and the entry `Modified` |
| EfRowTracking.SetValuePassIsSound | Services/EfCore/EfDatabaseAdminService.cs:424-436 | a write that succeeds leaves no faulty property behind |
| EfRowTracking.ModifiedInOrder | Services/EfCore/EfDatabaseAdminService.cs:412-415 | holds exactly the modified properties, in property order |
| EfRowTracking.SnapshotListsModified | Services/EfCore/EfDatabaseAdminService.cs:408-422 | the snapshot lists each modified property once, and no property is listed exactly when the state is `Unchanged` |
| EfRowTracking.SnapshotOfSound | Services/EfCore/EfDatabaseAdminService.cs:408-422 | on a consistent entry with nothing faulty, `GetSnapshot` succeeds with the entry's state and flags and changes nothing |
| EfRowTracking.SetValueKeepsWellFormed | Services/EfCore/EfDatabaseAdminService.cs:424-436 | a write, accepted or rejected, keeps the entry consistent: a property not flagged holds its original value unless some property is faulty, the key is never flagged, and the state is `Unchanged` exactly when nothing is flagged |
| EfRowTracking.SetValueTouchesOneColumn | Services/EfCore/EfDatabaseAdminService.cs:424-436 | a write leaves every other column's value as it was; it flags another column only if an earlier rejected write had changed it, and in a clean entry it flags no other column |
| EfRowTracking.RevertKeepsWellFormed | Services/EfCore/EfDatabaseAdminService.cs:438-450 | a revert keeps the entry consistent |
| EfRowTracking.RunKeepsOriginals | Services/EfCore/EfDatabaseAdminService.cs:408-450 | no sequence of snapshot, write and revert calls changes the original values, the property list, the types or the key, and the entry stays consistent |
| EfRowTracking.RevertAfterAnyCalls | Services/EfCore/EfDatabaseAdminService.cs:438-450 | after any calls, a revert succeeds exactly when no property is faulty; then it restores every property's loaded value, clears every flag, gives `Unchanged` with an empty list, and a second revert changes nothing; a failed revert leaves a faulty property behind |
| EfRowTracking.RevertPassIsClean | Services/EfCore/EfDatabaseAdminService.cs:438-450 | a revert that succeeds restores every loaded value, clears every flag and leaves nothing faulty, so the next snapshot succeeds and is empty |
| EfRowTracking.EfRowTrackingSession.constructor | Services/EfCore/EfDatabaseAdminService.cs:398-402 | the session keeps its context and the loaded entry |
| EfRowTracking.EfRowTrackingSession.GetSnapshot | Services/EfCore/EfDatabaseAdminService.cs:408-422 | reads the entry, which runs the detection and may throw; otherwise the loop returns the state name and the flagged properties in property order; the outcome and the new entry are those of `SnapshotSpec` |
| EfRowTracking.EfRowTrackingSession.SetValue | Services/EfCore/EfDatabaseAdminService.cs:424-436 | the outcome and the new entry are those of `SetValueSpec` |
| EfRowTracking.EfRowTrackingSession.RevertChanges | Services/EfCore/EfDatabaseAdminService.cs:438-450 | the outcome and the new entry are those of `RevertSpec`: the detection may throw; otherwise the original values are copied back, every flag is cleared and the entry is `Unchanged` |
| EfRowTracking.EfRowTrackingSession.ClearModifiedFlags | Services/EfCore/EfDatabaseAdminService.cs:444-447 | the loop clears every modified flag and changes no value and no state |
| EfRowTracking.EfRowTrackingSession.Dispose | Services/EfCore/EfDatabaseAdminService.cs:452-455 | disposes the session's context |
| EfRowTracking.ColumnTypeMap | Services/EfCore/EfDatabaseAdminService.cs:270-272 | fails exactly when two column names are equal ignoring case; otherwise it maps each column name to that column's type |
| EfRowTracking.PropertiesOf | Services/EfCore/EfDatabaseAdminService.cs:274-302 | the entity's properties are the table's columns that the loaded row holds, listed with the key first and the others in ordinal order, as `entry.Properties` enumerates them |
| EfRowTracking.PropertyOrder | Services/EfCore/EfDatabaseAdminService.cs:412-415 | the same names with the key first and the rest in ordinal order, without repeats |
| EfRowTracking.SortOrdinal | Services/EfCore/EfDatabaseAdminService.cs:412-415 | the same names in ordinal order, without repeats |
| EfRowTracking.PropertiesOfDistinct | Services/EfCore/EfDatabaseAdminService.cs:274-302 | no property is listed twice |
| EfRowTracking.PropertyTypesOfColumns | Services/EfCore/EfDatabaseAdminService.cs:270-280 | every property gets the type of the column it is named after |
| EfRowTracking.StartChecksNamesFirst | Services/EfCore/EfDatabaseAdminService.cs:259-272 | `PlanStart` rejects a blank database, table or key-column name first, in that order, as an `ArgumentException` on that parameter; a duplicate column name is the only other rejection |
| EfRowTracking.FindKeyConvertsKnownColumn | Services/EfCore/EfDatabaseAdminService.cs:291-292 | a non-null key whose column is in the table, in any casing, is converted to that column's type |
| EfRowTracking.FindKeyKeepsOtherValues | Services/EfCore/EfDatabaseAdminService.cs:291-292 | a null key, or one whose column the table lacks, is looked up as it is |
| EfRowTracking.StartLooksUpFindKey | Services/EfCore/EfDatabaseAdminService.cs:287-300 | in `PlanStart`, a failed conversion is reported as it is; otherwise the row is looked up under the converted key and found exactly when the table holds it |
| EfRowTracking.LoadedEntryIsClean | Services/EfCore/EfDatabaseAdminService.cs:268-302 | when `PlanStart` loads a row, the entry holds the found row, consistent, `Unchanged`, with nothing flagged or faulty, so its first snapshot succeeds and is empty; its properties are the row's columns, each with its column's type, the key first and the rest in ordinal order; the entity is named by `BuildSafeEntityName` |
| EfRowTracking.StartRowTracking | Services/EfCore/EfDatabaseAdminService.cs:255-303 | a rejection creates no context; a failed conversion leaves the new context undisposed; a missing row disposes the context and fails with `InvalidOperationException`; otherwise a fresh session over the database-scoped context holds the loaded entry |
| EfRowTracking.CreateCacheKey | Services/EfCore/EfDatabaseAdminService.cs:460-469 | the key carries the context type and the design-time flag, and the tracking key exactly when the context is an EF context that has one |
| EfRowTracking.SharedModelIff | Services/EfCore/EfDatabaseAdminService.cs:460-469 | two contexts share a cached model exactly when their types, tracking keys and design-time flags agree; a context with a tracking key never shares with one without |
| DataAccessModeState.DataAccessModeService.constructor | Services/State/DataAccessModeService.cs:7 | the mode starts as `Sql` |
| DataAccessModeState.DataAccessModeService.SetMode | Services/State/DataAccessModeService.cs:7 | the mode becomes the given one |
| DataAccessRouter.DataAccessRouterService.constructor | Services/DataAccess/DataAccessRouterService.cs:29-37 | the router keeps the mode service and both backends |
| DataAccessRouter.ProviderNameFollowsMode | Services/DataAccess/DataAccessRouterService.cs:23 | `ProviderName`, read from `GetActiveService`, is `EF` exactly in mode `Ef` and `SQL` otherwise, so the screens' case-insensitive test for `EF` reads the mode back |
| DataAccessRouter.ForwardsToSelectedBackend | Services/DataAccess/DataAccessRouterService.cs:43-78 | each of the six calls goes, with the same arguments, to the backend `GetActiveService` selects for the current mode and returns its result unchanged |
| DataAccessRouter.ResultsCarryProviderName | Services/DataAccess/DataAccessRouterService.cs:23-78 | every result the router returns is stamped with the provider name the router reports |
| DataAccessRouter.NewRouterUsesSql | Services/State/DataAccessModeService.cs:7 | a router over a new mode service talks to SQL |
| DatabaseCatalogRouter.DatabaseCatalogRouter.constructor | Services/DatabaseCatalogRouter.cs:25-33 | the router keeps the mode service and both catalogs |
| DatabaseCatalogRouter.CatalogFollowsMode | Services/DatabaseCatalogRouter.cs:19-49 | `GetActiveService` is the EF catalog exactly in mode `Ef`, so `ProviderName` and the database listing come from it then, and each result is stamped with that name |
| DatabaseCatalogRouter.RoutersAgree | Services/DatabaseCatalogRouter.cs:19 | routers sharing a mode service always report the same provider |
| OperationSource.Shown | Services/State/OperationSourceService.cs:15 | the current source is the stored label, or `N/A` when none is stored |
| OperationSource.OperationSourceService.constructor | Services/State/OperationSourceService.cs:9 | no label is stored, so the source reads `N/A` |
| OperationSource.OperationSourceService.Begin | Services/State/OperationSourceService.cs:21-27 | the label becomes the new source, and the returned scope holds the label that was stored before |
| OperationSource.Scope.Dispose | Services/State/OperationSourceService.cs:38-41 | the captured label is written back |
| OperationSource.BeginSetsSource | Services/State/OperationSourceService.cs:15-24 | `CurrentSource` reads `N/A` before any `Begin`; right after `Begin(s)` it is `s` |
| OperationSource.RunKeepsCaptured | Services/State/OperationSourceService.cs:21-41 | no call changes what an existing scope captured |
| OperationSource.DisposeRestoresPrevious | Services/State/OperationSourceService.cs:21-41 | disposing a scope restores the label from before its `Begin`, whatever calls came in between |
| OperationSource.DisposeTwiceIsDisposeOnce | Services/State/OperationSourceService.cs:38-41 | disposing a scope twice in a row is disposing it once |
| OperationSource.OutOfOrderDisposeLeavesStaleLabel | Services/State/OperationSourceService.cs:21-41 | disposing the outer scope and then the inner one leaves the outer label in place, not the label from before either |
| OperationSource.NestedBlockRestores | Services/State/OperationSourceService.cs:21-41 | a properly nested `using` block leaves the label as it found it |
| OperationSource.BodyRestores | Services/State/OperationSourceService.cs:21-41 | a sequence of properly nested blocks leaves the label as it found it |
| Values.ColumnIndex | ViewModels/TableDataViewModel.cs:235-238 | column lookup by name uses the exact-case match when there is one, otherwise the only match ignoring case, otherwise nothing |
| CaseInsensitive.SetOfContains | ViewModels/TableDataViewModel.cs:319-322 | the set built by adding the strings one by one contains exactly those strings, in any casing |
| CaseInsensitive.SetThenLookup | Services/EfCore/EfDatabaseAdminService.cs:119-121 | after `d[key] = value`, every spelling of `key` finds `value` and every other key keeps its value |
| CaseInsensitive.LookupIgnoresCase | Services/EfCore/EfDatabaseAdminService.cs:291 | a lookup gives the same result for every spelling of the key |
| TableDataViewModel.KeyClassification | ViewModels/TableDataViewModel.cs:305-339 | the table has a key exactly when any key column is listed; the text says "none" for no columns, "single key" exactly when all listed names are equal ignoring case, and "composite" exactly when two differ |
| TableDataViewModel.RowDetailsShape | ViewModels/TableDataViewModel.cs:277-303 | one item per column in order; `[PK]` is added and the flag set exactly when the key set holds the name in any casing; a database null shows `NULL` and only a C# null shows nothing |
| TableDataViewModel.FirstOther | ViewModels/TableDataViewModel.cs:422-424 | finds the first name differing from the key ignoring case; every earlier name equals it |
| TableDataViewModel.DemoColumnChoice | ViewModels/TableDataViewModel.cs:411-427 | `DemoColumnName`: no row gives `""`; with a single key column, the first other column is chosen, or the key column when there is no other; otherwise the first column is chosen |
| TableDataViewModel.IncrementInt32 | ViewModels/TableDataViewModel.cs:434-435 | adds one modulo 2^32 and stays in range |
| TableDataViewModel.IncrementInt64 | ViewModels/TableDataViewModel.cs:437-438 | adds one modulo 2^64 and stays in range |
| TableDataViewModel.DemoValueChanges | ViewModels/TableDataViewModel.cs:429-447 | `BuildDemoValue`: a successful demo value always differs from the current one and keeps its type; a string gets `_demo` and a date one second more; it fails exactly when the date passes `DateTime.MaxValue`; null and other values give `DemoValue` |
| TableDataViewModel.DemoValueWrapsAround | ViewModels/TableDataViewModel.cs:434-438 | `int.MaxValue` becomes `int.MinValue`, and likewise for `long` |
| TableDataViewModel.KeyOnlyDemoWriteFails | ViewModels/TableDataViewModel.cs:375-396 | on a row whose every column is the key column, the demo writes the key, and that write fails whatever value is written |
| TableDataViewModel.StateTextOfEntry | ViewModels/TableDataViewModel.cs:449-455 | `BuildTrackingStateText` of the entry's snapshot is `EF Tracking State: Unchanged` exactly when nothing is modified; otherwise it reads `Modified` and lists the modified columns in property order |
| TableDataViewModel.TrackingNeedsEfAndSingleKey | ViewModels/TableDataViewModel.cs:217-240 | `TrackingKey` allows a session exactly for a selected row in EF mode, with a single announced key column that the row has and that holds no database null; it uses that column and value |
| TableDataViewModel.ResetIdempotent | ViewModels/TableDataViewModel.cs:341-355 | a reset leaves no session and no state text, and resetting twice is resetting once |
| TableDataViewModel.LoadOutcomes | ViewModels/TableDataViewModel.cs:123-195 | a load never changes the inputs; during a load it does nothing; otherwise it ends not loading, with no selection, details or session; a non-positive row limit clears the table, reports the limit and keeps the keys |
| TableDataViewModel.LoadOutcomesWithLimit | ViewModels/TableDataViewModel.cs:138-194 | the table is shown exactly when both queries succeed, with the key query skipped for a blank input; a failure is reported by its message, and a failed table query keeps the old keys; the header ends on the key availability under EF and is empty otherwise |
| TableDataViewModel.TableDataViewModel.constructor | ViewModels/TableDataViewModel.cs:90-103 | empty inputs, a row limit of 100, no table, no selection, no keys and no session |
| TableDataViewModel.TableDataViewModel.Initialize | ViewModels/TableDataViewModel.cs:115-121 | sets the four inputs and nothing else |
| TableDataViewModel.TableDataViewModel.ResetTracking | ViewModels/TableDataViewModel.cs:341-355 | disposes the old session's context and moves the screen to the reset state |
| TableDataViewModel.TableDataViewModel.UpdateRowDetails | ViewModels/TableDataViewModel.cs:277-303 | the details become those of the given row, or nothing for no row; nothing else changes |
| TableDataViewModel.TableDataViewModel.LoadPrimaryKeyColumns | ViewModels/TableDataViewModel.cs:305-339 | the keys become those of `KeysAfter` for the query result, and a query failure is passed on |
| TableDataViewModel.TableDataViewModel.SetSelectedRow | ViewModels/TableDataViewModel.cs:207-215 | selecting the same row changes nothing; selecting a new row disposes the old session's context, shows the new row's details and then ends as `TryStartEfTracking` does for it: reset when `TrackingKey` refuses, the error message when starting fails, a fresh session with its state text otherwise; clearing the selection resets the screen |
| TableDataViewModel.TableDataViewModel.TryStartEfTracking | ViewModels/TableDataViewModel.cs:217-275 | resets first; leaves the reset screen when `TrackingKey` refuses; otherwise shows the exception's message when `PlanStart` does not load the row, and a fresh session on the loaded entry with `EF Tracking State: Unchanged` in the tracking text and the header when it does |
| TableDataViewModel.TableDataViewModel.StartSession | ViewModels/TableDataViewModel.cs:242-274 | the outcome of starting the session decides the screen: on success the session is adopted with its state text, otherwise the error message is shown |
| TableDataViewModel.TableDataViewModel.RequestSession | ViewModels/TableDataViewModel.cs:244-250 | calls `StartRowTracking` with the screen's inputs, the key column and value, and the row's table; a loaded session's first snapshot succeeds with `Unchanged` and no columns |
| TableDataViewModel.TableDataViewModel.SimulateChange | ViewModels/TableDataViewModel.cs:375-396 | with no session or no row, or a blank demo column, nothing changes; a failing `AddSeconds` escapes with nothing changed; otherwise the write goes to the session as `SetValueSpec` says, a rejected write escapes with the screen unchanged, and an accepted one shows the new state text in the tracking text and the header |
| TableDataViewModel.TableDataViewModel.WriteDemoValue | ViewModels/TableDataViewModel.cs:388-395 | the session takes the write as `SetValueSpec` says; a rejected write leaves the screen as it was; after an accepted one the snapshot succeeds and the screen shows its state text |
| TableDataViewModel.TableDataViewModel.RevertChange | ViewModels/TableDataViewModel.cs:398-409 | with no session nothing changes; otherwise the session is reverted as `RevertSpec` says; a revert that throws leaves the screen as it was, and one that succeeds makes the header and tracking text read `EF Tracking State: Unchanged` |
| TableDataViewModel.TableDataViewModel.LoadAsync | ViewModels/TableDataViewModel.cs:123-195 | the new state is `LoadSpec` of the old state and the two query results; the old session's context is disposed |
| TableDataViewModel.TableDataViewModel.ShowLoadError | ViewModels/TableDataViewModel.cs:128-136 | clears the table and the selection and shows the message |
| TableDataViewModel.TableDataViewModel.LoadTable | ViewModels/TableDataViewModel.cs:138-194 | the start, fetch, catch and finally steps in sequence |
| TableDataViewModel.TableDataViewModel.StartLoading | ViewModels/TableDataViewModel.cs:138-153 | resets tracking, marks the load as running, shows `Loading...`, clears the error and the selection |
| TableDataViewModel.TableDataViewModel.FetchTable | ViewModels/TableDataViewModel.cs:155-174 | a failed table query is passed on with no change; otherwise the table is shown |
| TableDataViewModel.TableDataViewModel.ShowTable | ViewModels/TableDataViewModel.cs:157-174 | stores the table, clears the selection, loads the keys, and sets the header from the availability |
| TableDataViewModel.TableDataViewModel.CatchLoadFailure | ViewModels/TableDataViewModel.cs:178-189 | clears the table and the selection, shows the exception's message and resets tracking |
| TableDataViewModel.TableDataViewModel.FinishLoading | ViewModels/TableDataViewModel.cs:178-194 | runs the catch block for a failure, then marks the load as finished |
| TableDataViewModel.TableDataViewModel.ClearSelection | ViewModels/TableDataViewModel.cs:151-152 | the row and its details are cleared; clearing a selected row resets tracking through the change hook |

## Left out

- The code is asynchronous, and the model runs each operation to completion as one step. The
  fire-and-forget `TryStartEfTrackingAsync` is assumed to finish before the next user action.
  `AsyncLocal` flow is one ambient value.
- `SetHeaderStatusSequenceAsync`, the header delays (`Task.Delay`), the `LoadingStarted`,
  `RowsLoaded` and `LoadingFailed` events, `PropertyChanged` and command notifications change
  no modelled state. They are left out. The header shows the final text of the sequence.
- `TableDataViewModel.TableDataViewModel.TryStartEfTracking`: the unused `messages` list is
  not modelled, because nothing reads it.
- Server I/O is not modelled, because it cannot be modelled here. This covers opening
  connections, `TestConnectionAsync`, `EnsureOpenAsync`, `ExecuteNonQueryAsync`, the command
  timeout, and the `information_schema` queries themselves. The rows a reader yields, the
  catalog contents, the rows `FindAsync` can find, the connection-string parser,
  `Convert.ChangeType` and the culture's rendering of a `DateTime` are parameters instead.
- Connection strings are a parsed record: catalog, attached file, other settings. The
  `SqlConnectionStringBuilder` text form is not modelled.
- Only the `Sql` and `Ef` modes exist. No other mode is modelled.
- `OrdinalIgnoreCase` folds ASCII letters only. Surrogate pairs are not modelled: a Dafny
  `char` stands for one UTF-16 code unit.
- `SqlServerAdmin.SortByName`: orders by folded code units. The server's `ORDER BY [name]`
  uses the database collation, which the model does not know.
- `SqlServerAdmin.WithoutSystemDatabases`: matches the four system names ignoring case. The
  server's `NOT IN` compares under its collation, which the model does not know; a
  case-sensitive collation would keep `Master`.
- `SqlServerAdmin.DatabaseListingSpec`: the listing is stated under the same
  case-insensitive match and ordinal order, for the same reason.
- `EfRowTracking.ColumnTypeMap`: `ToDictionary` throws an `ArgumentException` on a duplicate
  key. The model keeps only its message ("An item with the same key has already been added.
  Key: " and the name), which is all the screen shows.
- `EfRowTracking.StartRowTracking`: EF Core's own checks on building the runtime model are
  not modelled. That includes a key column that is not a column of the table.
- The runtime model that `DynamicTrackingDbContext` builds in `OnModelCreating` is not part
  of this model. Each property is taken to have the CLR type of its `DataColumn`, and the key
  to be the descriptor's `PrimaryKeyColumn`. EF is taken to list the key property first and
  the others by ordinal name.
- `EfRowTracking.DetectFrom`: models EF's change detection for this one entity type only.
  A property's value is compared with `Value` equality, where EF uses the type's comparer.
  Reading `null` through a typed getter fails with the null-reference message, a stand-in
  for the exception EF raises there.
- `EfRowTracking.SetValueSpec`: EF's exception messages are abridged. When the dictionary
  holds a key that is not a property of the entity type, EF's exception is modelled as an
  `InvalidOperationException` with a message of our own.
- `TableDataViewModel.TableDataViewModel.LoadAsync`: a `null` `result.Data` is not modelled.
  The backends always return a table.
- `TableDataViewModel.TableDataViewModel.LoadPrimaryKeyColumns`: the key set is built in a
  local and stored whole. The observable result is the same because nothing reads the set
  during the loop.
- The SQL and EF `DataAccessService` and catalog wrappers are not part of this model beyond
  their provider names and the fact that they stamp their results.
